/** db/sstable/sstable_builder and sstable_reader: a table of sorted blocks behind an index of
    separators, and the point lookup that probes a single block. */
module Table {
  import opened Base
  import opened Coding
  import opened Block
  import opened BlockReader
  import opened Comparator
  import opened Format

  // ---------------------------------------------------------------- separators

  function FirstKey(kvs: seq<KV>): (k: Bytes)
    requires kvs != []
  {
    kvs[0].key
  }

  function LastKey(kvs: seq<KV>): (k: Bytes)
    requires kvs != []
  {
    kvs[|kvs| - 1].key
  }

  ghost predicate Keyed(kvs: seq<KV>) {
    forall i :: 0 <= i < |kvs| ==> |kvs[i].key| >= 8
  }

  ghost predicate InternalSorted(kvs: seq<KV>) {
    Sorted(InternalCompare, kvs) && Keyed(kvs)
  }

  /** Index entry i stands between group i and the group behind it. */
  ghost predicate SeparatesAt(groups: seq<seq<KV>>, index: seq<KV>, i: nat) {
    i < |index| <= |groups| && groups[i] != [] ==>
      && |index[i].key| >= 8 && InternalCompare(LastKey(groups[i]), index[i].key) <= 0
      && (i + 1 < |groups| && groups[i + 1] != []
          ==> Separator(LastKey(groups[i]), index[i].key, FirstKey(groups[i + 1])))
  }

  ghost predicate Separated(groups: seq<seq<KV>>, index: seq<KV>) {
    && |index| <= |groups| && (forall i :: 0 <= i < |groups| ==> groups[i] != [])
    && forall i: nat :: SeparatesAt(groups, index, i)
  }

  /** Entries of the groups before i stay below any target above the separators there. */
  lemma GroupBelow(groups: seq<seq<KV>>, index: seq<KV>, target: Bytes, a: nat, b: nat)
    requires Separated(groups, index) && InternalSorted(Flatten(groups)) && a < |index| && b < |groups[a]|
    requires InternalCompare(index[a].key, target) < 0
    ensures InternalCompare(groups[a][b].key, target) < 0
  {
    hide InternalCompare, Separator;
    InternalTotal();
    assert SeparatesAt(groups, index, a);
    var last := |groups[a]| - 1;
    FlattenAt(groups, a, b);
    FlattenAt(groups, a, last);
    assert b < last ==> InternalCompare(groups[a][b].key, groups[a][last].key) < 0;
  }

  /** Probing the one block behind the first separator at or above the target is as good as
      searching the whole table: either it delivers the first entry at or above the target, or
      that entry, if there is one, has another user key. */
  lemma ProbeIsFirstGe(groups: seq<seq<KV>>, index: seq<KV>, target: Bytes, i: nat, at: nat) returns (n: nat)
    requires Separated(groups, index) && |index| == |groups| && InternalSorted(Flatten(groups)) && |target| >= 8
    requires IsFirstGe(InternalCompare, index, target, i)
    requires i < |groups| ==> IsFirstGe(InternalCompare, groups[i], target, at)
    ensures IsFirstGe(InternalCompare, Flatten(groups), target, n)
    ensures n == if i < |groups| then Start(groups, i) + at else |Flatten(groups)|
    ensures if i < |groups| && at < |groups[i]| then n < |Flatten(groups)| && Flatten(groups)[n] == groups[i][at]
            else n < |Flatten(groups)| ==> UserKeyOf(Flatten(groups)[n].key) != UserKeyOf(target)
  {
    hide InternalCompare, Separator, UserKeyOf;
    var all := Flatten(groups);
    StartEnds(groups);
    n := if i < |groups| then Start(groups, i) + at else |all|;
    if i < |groups| { StartStep(groups, i); }
    forall j | 0 <= j < n
      ensures j < |all| && InternalCompare(all[j].key, target) < 0
    {
      if i < |groups| { StartMonotone(groups, i + 1, |groups|); }
      var a, b := FlattenFrom(groups, j);
      if a > i { StartMonotone(groups, i + 1, a); }
      if a < i { GroupBelow(groups, index, target, a, b); }
    }
    if i < |groups| && at < |groups[i]| {
      FlattenAt(groups, i, at);
      AboveFrom2(all, target, n);
    } else if i + 1 < |groups| {
      FlattenAt(groups, i + 1, 0);
      NextGroupAbove(groups, index, target, i);
      AboveFrom2(all, target, n);
    }
  }

  lemma AboveFrom2(kvs: seq<KV>, target: Bytes, i: nat)
    requires InternalSorted(kvs) && i < |kvs| && InternalCompare(kvs[i].key, target) >= 0
    ensures forall j :: i <= j < |kvs| ==> InternalCompare(kvs[j].key, target) >= 0
  {
    InternalTotal();
    hide InternalCompare;
    AboveFrom(InternalCompare, kvs, target, i);
  }

  lemma NextGroupAbove(groups: seq<seq<KV>>, index: seq<KV>, target: Bytes, i: nat)
    requires Separated(groups, index) && i + 1 < |groups| == |index| && |target| >= 8
    requires InternalCompare(index[i].key, target) >= 0 && InternalCompare(LastKey(groups[i]), target) < 0
    requires |FirstKey(groups[i + 1])| >= 8
    ensures InternalCompare(FirstKey(groups[i + 1]), target) >= 0
    ensures UserKeyOf(FirstKey(groups[i + 1])) != UserKeyOf(target)
  {
    InternalTotal();
    hide InternalCompare, UserKeyOf;
    assert SeparatesAt(groups, index, i);
  }

  lemma GroupSpan(groups: seq<seq<KV>>, j: nat)
    requires InternalSorted(Flatten(groups)) && j < |groups| && groups[j] != []
    ensures InternalCompare(FirstKey(groups[j]), LastKey(groups[j])) <= 0
  {
    InternalTotal();
    hide InternalCompare;
    var last := |groups[j]| - 1;
    FlattenAt(groups, j, 0);
    FlattenAt(groups, j, last);
  }

  /** The separators are themselves sorted. */
  lemma {:induction false} IndexIncreases(groups: seq<seq<KV>>, index: seq<KV>, i: nat, j: nat)
    requires Separated(groups, index) && InternalSorted(Flatten(groups)) && i < j < |index|
    ensures InternalCompare(index[i].key, index[j].key) < 0
    decreases j
  {
    hide InternalCompare, Flatten, InternalSorted;
    InternalTotal();
    GroupSpan(groups, j);
    assert SeparatesAt(groups, index, j - 1) && SeparatesAt(groups, index, j);
    if i < j - 1 { IndexIncreases(groups, index, i, j - 1); }
  }

  lemma IndexSorted(groups: seq<seq<KV>>, index: seq<KV>)
    requires Separated(groups, index) && InternalSorted(Flatten(groups))
    ensures Sorted(InternalCompare, index)
  {
    forall i, j | 0 <= i < j < |index|
      ensures InternalCompare(index[i].key, index[j].key) < 0
    {
      IndexIncreases(groups, index, i, j);
    }
  }
}
