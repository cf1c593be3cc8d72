/** db/version/merge: the iterator that merges several sorted iterators. */
module Merging {
  import opened Base

  /** A comparator: negative, zero or positive. */
  type Order<!T> = (T, T) -> int

  ghost predicate TotalOrder<T(!new)>(cmp: Order<T>) {
    && (forall a, b :: cmp(a, b) < 0 <==> cmp(b, a) > 0)
    && (forall a, b, c :: cmp(a, b) <= 0 && cmp(b, c) <= 0 ==> cmp(a, c) <= 0)
    && (forall a, b, c :: cmp(a, b) < 0 && cmp(b, c) <= 0 ==> cmp(a, c) < 0)
  }

  ghost predicate Ascending<T>(cmp: Order<T>, items: seq<T>) {
    forall i, j :: 0 <= i < j < |items| ==> cmp(items[i], items[j]) <= 0
  }

  ghost predicate AllAscending<T>(cmp: Order<T>, rests: seq<seq<T>>) {
    forall i :: 0 <= i < |rests| ==> Ascending(cmp, rests[i])
  }

  /** c is the first of the non-empty lists with the smallest head. */
  ghost predicate IsSmallest<T>(cmp: Order<T>, rests: seq<seq<T>>, c: nat) {
    && c < |rests| && rests[c] != []
    && (forall i :: 0 <= i < |rests| && rests[i] != [] ==> cmp(rests[c][0], rests[i][0]) <= 0)
    && (forall i :: 0 <= i < c && rests[i] != [] ==> cmp(rests[c][0], rests[i][0]) < 0)
  }

  ghost predicate AllEmpty<T>(rests: seq<seq<T>>) {
    forall i :: 0 <= i < |rests| ==> rests[i] == []
  }

  /** The loop of FindSmallest. */
  ghost function Smallest<T(!new)>(cmp: Order<T>, rests: seq<seq<T>>): (c: Option<nat>)
    ensures c.Some? ==> c.value < |rests| && rests[c.value] != []
  {
    if rests == [] then None
    else
      var n := |rests| - 1;
      var c := Smallest(cmp, rests[..n]);
      if rests[n] != [] && (c.None? || cmp(rests[n][0], rests[c.value][0]) < 0) then Some(n) else c
  }

  lemma NoneSmallest<T(!new)>(cmp: Order<T>, rests: seq<seq<T>>)
    ensures Smallest(cmp, rests[..0]) == None
  {}

  lemma SmallestStep<T(!new)>(cmp: Order<T>, rests: seq<seq<T>>, i: nat)
    requires i < |rests|
    ensures var c := Smallest(cmp, rests[..i]);
      && (c.Some? ==> c.value < i && rests[c.value] != [])
      && Smallest(cmp, rests[..i + 1]) ==
         if rests[i] != [] && (c.None? || cmp(rests[i][0], rests[c.value][0]) < 0) then Some(i) else c
  {
    assert rests[..i + 1][..i] == rests[..i];
  }

  lemma {:induction false} NoSmallest<T(!new)>(cmp: Order<T>, rests: seq<seq<T>>)
    requires Smallest(cmp, rests).None?
    ensures AllEmpty(rests)
  {
    if rests != [] { NoSmallest(cmp, rests[..|rests| - 1]); }
  }

  /** The loop finds the first of the lists with the smallest head. */
  lemma {:induction false} SmallestIs<T(!new)>(cmp: Order<T>, rests: seq<seq<T>>)
    requires TotalOrder(cmp)
    ensures var c := Smallest(cmp, rests); c.Some? ==> IsSmallest(cmp, rests, c.value)
  {
    if rests != [] {
      var n := |rests| - 1;
      var front := rests[..n];
      SmallestIs(cmp, front);
      if Smallest(cmp, front).None? {
        NoSmallest(cmp, front);
        assert forall i :: 0 <= i < n ==> rests[i] == front[i];
      } else {
        OneMore(cmp, front, rests[n], Smallest(cmp, front).value);
        assert front + [rests[n]] == rests;
      }
    }
  }

  lemma OneMore<T(!new)>(cmp: Order<T>, rests: seq<seq<T>>, last: seq<T>, c: nat)
    requires TotalOrder(cmp) && IsSmallest(cmp, rests, c)
    ensures IsSmallest(cmp, rests + [last], if last != [] && cmp(last[0], rests[c][0]) < 0 then |rests| else c)
  {
    var all := rests + [last];
    forall i | 0 <= i < |rests| && rests[i] != []
      ensures cmp(rests[c][0], all[i][0]) <= 0
      ensures last != [] && cmp(last[0], rests[c][0]) < 0 ==> cmp(last[0], all[i][0]) < 0
    {}
  }

  /** The elements of the lists, smallest first; of equal ones, the earlier list's first. */
  ghost function MergeOf<T(!new)>(cmp: Order<T>, rests: seq<seq<T>>): (r: seq<T>)
    decreases |Flatten(rests)|
  {
    var c := Smallest(cmp, rests);
    if c.None? then []
    else
      Shorter(rests, c.value);
      [rests[c.value][0]] + MergeOf(cmp, Popped(rests, c.value))
  }

  ghost function Popped<T>(rests: seq<seq<T>>, c: nat): (r: seq<seq<T>>)
    requires c < |rests| && rests[c] != []
  {
    rests[c := rests[c][1..]]
  }

  lemma Shorter<T>(rests: seq<seq<T>>, c: nat)
    requires c < |rests| && rests[c] != []
    ensures |Flatten(Popped(rests, c))| == |Flatten(rests)| - 1
    ensures multiset(Flatten(rests)) == multiset{rests[c][0]} + multiset(Flatten(Popped(rests, c)))
  {
    var r' := Popped(rests, c);
    FlattenAround(rests, c);
    FlattenAround(r', c);
    assert r'[..c] == rests[..c] && r'[c + 1..] == rests[c + 1..];
    assert rests[c] == [rests[c][0]] + r'[c];
    hide Flatten, Popped;
    var f, g := Flatten(rests[..c]), Flatten(rests[c + 1..]);
    assert Flatten(rests) == f + ([rests[c][0]] + r'[c]) + g;
  }

  lemma MergeStep<T(!new)>(cmp: Order<T>, rests: seq<seq<T>>)
    ensures var c := Smallest(cmp, rests);
      if c.None? then MergeOf(cmp, rests) == []
      else MergeOf(cmp, rests) != [] && MergeOf(cmp, rests)[0] == rests[c.value][0]
           && MergeOf(cmp, rests)[1..] == MergeOf(cmp, Popped(rests, c.value))
  {}

  lemma AllEmptyFlat<T>(rests: seq<seq<T>>)
    requires AllEmpty(rests)
    ensures Flatten(rests) == []
  {
    if rests != [] { AllEmptyFlat(rests[1..]); }
  }

  /** The merge has every element of the inputs, as often as they do. */
  lemma {:induction false} MergeConserves<T(!new)>(cmp: Order<T>, rests: seq<seq<T>>)
    ensures multiset(MergeOf(cmp, rests)) == multiset(Flatten(rests))
    decreases |Flatten(rests)|
  {
    hide Smallest;
    var c := Smallest(cmp, rests);
    if c.None? {
      NoSmallest(cmp, rests);
      AllEmptyFlat(rests);
    } else {
      Shorter(rests, c.value);
      MergeConserves(cmp, Popped(rests, c.value));
    }
  }

  lemma HeadBelow<T(!new)>(cmp: Order<T>, rests: seq<seq<T>>, c: nat, x: T) returns (i: nat, j: nat)
    requires TotalOrder(cmp) && AllAscending(cmp, rests) && IsSmallest(cmp, rests, c)
    requires x in multiset(Flatten(Popped(rests, c)))
    ensures i < |rests| && j < |rests[i]| && rests[i][j] == x && (i != c || j != 0)
    ensures cmp(rests[c][0], x) <= 0
  {
    var all := Flatten(Popped(rests, c));
    assert x in all;
    var n :| 0 <= n < |all| && all[n] == x;
    i, j := FlattenFrom(Popped(rests, c), n);
    if i == c { j := j + 1; }
    assert j > 0 ==> cmp(rests[i][0], x) <= 0;
  }

  lemma PoppedAscending<T(!new)>(cmp: Order<T>, rests: seq<seq<T>>, c: nat)
    requires AllAscending(cmp, rests) && c < |rests| && rests[c] != []
    ensures AllAscending(cmp, Popped(rests, c))
  {}

  /** The merge of sorted inputs is sorted. */
  lemma {:induction false} MergeSorts<T(!new)>(cmp: Order<T>, rests: seq<seq<T>>)
    requires TotalOrder(cmp) && AllAscending(cmp, rests)
    ensures Ascending(cmp, MergeOf(cmp, rests))
    decreases |Flatten(rests)|
  {
    hide TotalOrder, AllAscending, Popped, Flatten, MergeOf, Ascending, Smallest;
    var c := Smallest(cmp, rests);
    MergeStep(cmp, rests);
    SmallestIs(cmp, rests);
    if c.Some? {
      var rest := Popped(rests, c.value);
      Shorter(rests, c.value);
      PoppedAscending(cmp, rests, c.value);
      MergeSorts(cmp, rest);
      MergeConserves(cmp, rest);
      forall x | x in multiset(MergeOf(cmp, rest))
        ensures cmp(rests[c.value][0], x) <= 0
      {
        var _, _ := HeadBelow(cmp, rests, c.value, x);
      }
      HeadFirst(cmp, MergeOf(cmp, rests), rests[c.value][0]);
    } else {
      NothingAscends(cmp, MergeOf(cmp, rests));
    }
  }

  lemma HeadFirst<T(!new)>(cmp: Order<T>, items: seq<T>, x: T)
    requires items != [] && items[0] == x && Ascending(cmp, items[1..])
    requires forall y :: y in multiset(items[1..]) ==> cmp(x, y) <= 0
    ensures Ascending(cmp, items)
  {
    forall i, j | 0 <= i < j < |items|
      ensures cmp(items[i], items[j]) <= 0
    {
      assert items[j] == items[1..][j - 1];
      assert items[1..][j - 1] in multiset(items[1..]);
      assert i > 0 ==> items[i] == items[1..][i - 1];
    }
  }

  lemma NothingAscends<T(!new)>(cmp: Order<T>, items: seq<T>)
    requires items == []
    ensures Ascending(cmp, items)
  {}

  /** No two elements of the inputs compare equal. */
  ghost predicate NoTies<T(!new)>(cmp: Order<T>, rests: seq<seq<T>>) {
    forall i, j, k, l ::
      0 <= i < |rests| && 0 <= j < |rests[i]| && 0 <= k < |rests| && 0 <= l < |rests[k]| && (i != k || j != l) ==>
        cmp(rests[i][j], rests[k][l]) != 0
  }

  ghost predicate Increasing<T>(cmp: Order<T>, items: seq<T>) {
    forall i, j :: 0 <= i < j < |items| ==> cmp(items[i], items[j]) < 0
  }

  lemma PoppedNoTies<T(!new)>(cmp: Order<T>, rests: seq<seq<T>>, c: nat)
    requires NoTies(cmp, rests) && c < |rests| && rests[c] != []
    ensures NoTies(cmp, Popped(rests, c))
  {
    var r' := Popped(rests, c);
    forall i, j, k, l | 0 <= i < |r'| && 0 <= j < |r'[i]| && 0 <= k < |r'| && 0 <= l < |r'[k]| && (i != k || j != l)
      ensures cmp(r'[i][j], r'[k][l]) != 0
    {
      var j', l' := if i == c then j + 1 else j, if k == c then l + 1 else l;
      assert r'[i][j] == rests[i][j'] && r'[k][l] == rests[k][l'];
    }
  }

  /** Without ties the merge is strictly increasing. */
  lemma {:induction false} MergeIncreases<T(!new)>(cmp: Order<T>, rests: seq<seq<T>>)
    requires TotalOrder(cmp) && AllAscending(cmp, rests) && NoTies(cmp, rests)
    ensures Increasing(cmp, MergeOf(cmp, rests))
    decreases |Flatten(rests)|
  {
    hide TotalOrder, AllAscending, Popped, Flatten, MergeOf, NoTies, Increasing, Smallest;
    var c := Smallest(cmp, rests);
    MergeStep(cmp, rests);
    SmallestIs(cmp, rests);
    if c.Some? {
      var rest := Popped(rests, c.value);
      Shorter(rests, c.value);
      PoppedAscending(cmp, rests, c.value);
      PoppedNoTies(cmp, rests, c.value);
      MergeIncreases(cmp, rest);
      MergeConserves(cmp, rest);
      forall x | x in multiset(MergeOf(cmp, rest))
        ensures cmp(rests[c.value][0], x) < 0
      {
        var i, j := HeadBelow(cmp, rests, c.value, x);
        Differ(cmp, rests, c.value, 0, i, j);
      }
      HeadIncreases(cmp, MergeOf(cmp, rests), rests[c.value][0]);
    } else {
      NothingIncreases(cmp, MergeOf(cmp, rests));
    }
  }

  lemma Differ<T(!new)>(cmp: Order<T>, rests: seq<seq<T>>, i: nat, j: nat, k: nat, l: nat)
    requires NoTies(cmp, rests) && i < |rests| && j < |rests[i]| && k < |rests| && l < |rests[k]| && (i != k || j != l)
    ensures cmp(rests[i][j], rests[k][l]) != 0
  {}

  lemma HeadIncreases<T(!new)>(cmp: Order<T>, items: seq<T>, x: T)
    requires items != [] && items[0] == x && Increasing(cmp, items[1..])
    requires forall y :: y in multiset(items[1..]) ==> cmp(x, y) < 0
    ensures Increasing(cmp, items)
  {
    forall i, j | 0 <= i < j < |items|
      ensures cmp(items[i], items[j]) < 0
    {
      assert items[j] == items[1..][j - 1];
      assert items[1..][j - 1] in multiset(items[1..]);
      assert i > 0 ==> items[i] == items[1..][i - 1];
    }
  }

  lemma NothingIncreases<T(!new)>(cmp: Order<T>, items: seq<T>)
    requires items == []
    ensures Increasing(cmp, items)
  {}

  /** Whatever is not above an element below the cut is below it as well. */
  ghost predicate Cut<T(!new)>(cmp: Order<T>, below: T -> bool) {
    forall x, y :: cmp(x, y) >= 0 && below(x) ==> below(y)
  }

  ghost predicate Whole<T>(items: seq<T>, rest: seq<T>) {
    rest == items
  }

  lemma IsWhole<T>(items: seq<T>, rest: seq<T>)
    requires rest == items
    ensures Whole(items, rest)
  {}

  /** A list from its first element on that is not below. */
  function DropBelow<T>(items: seq<T>, below: T -> bool): (r: seq<T>) {
    if items != [] && below(items[0]) then DropBelow(items[1..], below) else items
  }

  ghost function AllDropped<T(!new)>(rests: seq<seq<T>>, below: T -> bool): (r: seq<seq<T>>)
    ensures |r| == |rests| && forall i :: 0 <= i < |r| ==> r[i] == DropBelow(rests[i], below)
  {
    seq(|rests|, i requires 0 <= i < |rests| => DropBelow(rests[i], below))
  }

  /** Position n parts the elements below from the others. */
  ghost predicate Parts<T(!new)>(items: seq<T>, n: nat, below: T -> bool) {
    && n <= |items| && (forall i :: 0 <= i < n ==> below(items[i]))
    && (forall i :: n <= i < |items| ==> !below(items[i]))
  }

  lemma NothingToDrop<T(!new)>(cmp: Order<T>, rests: seq<seq<T>>, c: nat, below: T -> bool)
    requires TotalOrder(cmp) && Cut(cmp, below) && IsSmallest(cmp, rests, c) && !below(rests[c][0])
    ensures AllDropped(rests, below) == rests
  {
    forall i | 0 <= i < |rests| && rests[i] != []
      ensures !below(rests[i][0])
    {
      assert cmp(rests[c][0], rests[i][0]) <= 0;
      assert cmp(rests[i][0], rests[c][0]) >= 0;
    }
  }

  lemma DropHead<T(!new)>(rests: seq<seq<T>>, c: nat, below: T -> bool)
    requires c < |rests| && rests[c] != [] && below(rests[c][0])
    ensures AllDropped(Popped(rests, c), below) == AllDropped(rests, below)
  {}

  /** Dropping what is below in every list drops it from the merge. */
  lemma {:induction false} MergeDropped<T(!new)>(cmp: Order<T>, rests: seq<seq<T>>, below: T -> bool) returns (n: nat)
    requires TotalOrder(cmp) && Cut(cmp, below)
    ensures var whole := MergeOf(cmp, rests);
      && n <= |whole| && MergeOf(cmp, AllDropped(rests, below)) == whole[n..]
      && (forall i :: 0 <= i < n ==> below(whole[i])) && (n < |whole| ==> !below(whole[n]))
    decreases |Flatten(rests)|
  {
    hide TotalOrder, Cut, MergeOf, Smallest, Popped, Flatten, IsSmallest, DropBelow;
    var c := Smallest(cmp, rests);
    MergeStep(cmp, rests);
    SmallestIs(cmp, rests);
    if c.None? {
      NoSmallest(cmp, rests);
      EmptyStays(rests, below);
      n := 0;
    } else if below(rests[c.value][0]) {
      Shorter(rests, c.value);
      DropHead(rests, c.value, below);
      var m := MergeDropped(cmp, Popped(rests, c.value), below);
      var whole := MergeOf(cmp, rests);
      assert forall i :: 0 < i < |whole| ==> whole[i] == whole[1..][i - 1];
      n := m + 1;
    } else {
      NothingToDrop(cmp, rests, c.value, below);
      n := 0;
    }
  }

  lemma EmptyStays<T(!new)>(rests: seq<seq<T>>, below: T -> bool)
    requires AllEmpty(rests)
    ensures AllDropped(rests, below) == rests
  {}

  lemma PartsFrom<T(!new)>(cmp: Order<T>, items: seq<T>, n: nat, below: T -> bool)
    requires TotalOrder(cmp) && Ascending(cmp, items) && Cut(cmp, below) && n <= |items|
    requires (forall i :: 0 <= i < n ==> below(items[i])) && (n < |items| ==> !below(items[n]))
    ensures Parts(items, n, below)
  {
    forall i | n < i < |items|
      ensures !below(items[i])
    {
      assert cmp(items[n], items[i]) <= 0;
      assert cmp(items[i], items[n]) >= 0;
    }
  }

  // ---------------------------------------------------------------- the iterator

  /** IteratorWrapper over any iterator: its position in the sequence it iterates over, with
      validity and key cached. */
  class Wrapper<T(!new)> {
    const items: seq<T>
    var at: nat
    var valid: bool
    var key: Option<T>

    ghost predicate Valid()
      reads this
    {
      at <= |items| && valid == (at < |items|) && (valid ==> key == Some(items[at]))
    }

    ghost function Rest(): (r: seq<T>)
      requires Valid()
      reads this
    {
      items[at..]
    }

    constructor (items: seq<T>)
      ensures Valid() && this.items == items && at == |items|
    {
      this.items, at, valid, key := items, |items|, false, None;
    }

    method Update()
      requires at <= |items|
      modifies this`valid, this`key
      ensures Valid()
    {
      valid := at < |items|;
      if valid { key := Some(items[at]); }
    }

    method Next()
      requires Valid() && valid
      modifies this
      ensures Valid() && Rest() == old(Rest())[1..]
    {
      at := at + 1;
      Update();
    }

    method SeekToFirst()
      requires Valid()
      modifies this
      ensures Valid() && Rest() == items
    {
      at := 0;
      Update();
    }

    /** The child's own Seek: to its first element that is not below. */
    method Seek(below: T -> bool)
      requires Valid()
      modifies this
      ensures Valid() && Rest() == DropBelow(items, below)
    {
      at := 0;
      while at < |items| && below(items[at])
        invariant at <= |items| && DropBelow(items[at..], below) == DropBelow(items, below)
      {
        at := at + 1;
      }
      Update();
    }
  }

  class MergedIterator<T(!new)> {
    const list: seq<Wrapper<T>>
    const cmp: Order<T>
    var current: Option<nat>

    ghost predicate Children()
      reads list
    {
      && TotalOrder(cmp) && (forall i, j :: 0 <= i < j < |list| ==> list[i] != list[j])
      && (forall i :: 0 <= i < |list| ==> list[i].Valid())
    }

    ghost function Rests(): (r: seq<seq<T>>)
      requires Children()
      reads list
      ensures |r| == |list| && forall i :: 0 <= i < |r| ==> r[i] == list[i].Rest()
    {
      seq(|list|, i requires 0 <= i < |list| && Children() reads list => list[i].Rest())
    }

    /** What is still to come, the current element first. */
    ghost function Remaining(): (r: seq<T>)
      requires Children()
      reads list
    {
      MergeOf(cmp, Rests())
    }

    ghost predicate Valid()
      reads this, list
    {
      Children() && current == Smallest(cmp, Rests())
    }

    constructor (list: seq<Wrapper<T>>, cmp: Order<T>)
      requires TotalOrder(cmp) && (forall i, j :: 0 <= i < j < |list| ==> list[i] != list[j])
      requires forall i :: 0 <= i < |list| ==> list[i].Valid()
      ensures Children() && this.list == list && this.cmp == cmp && current == None
    {
      this.list, this.cmp, current := list, cmp, None;
    }

    lemma HeadOf(i: nat)
      requires Children() && i < |list|
      ensures list[i].valid <==> Rests()[i] != []
      ensures list[i].valid ==> list[i].key == Some(Rests()[i][0])
    {
      assert list[i].Valid();
    }

    /** FindSmallest: the first child with the smallest key. */
    method FindSmallest()
      requires Children()
      modifies this`current
      ensures Valid()
    {
      hide TotalOrder, Smallest;
      var smallest: Option<nat> := None;
      ghost var rests := Rests();
      NoneSmallest(cmp, rests);
      for i := 0 to |list|
        invariant smallest == Smallest(cmp, rests[..i])
      {
        SmallestStep(cmp, rests, i);
        HeadOf(i);
        if list[i].valid {
          if smallest.Some? { HeadOf(smallest.value); }
          if smallest.None? || cmp(list[i].key.value, list[smallest.value].key.value) < 0 {
            smallest := Some(i);
          }
        }
      }
      assert rests[..|list|] == rests;
      current := smallest;
    }

    /** Valid() and Key() show the first of the remaining elements. */
    method Current() returns (r: Option<T>)
      requires Valid()
      ensures r == if Remaining() == [] then None else Some(Remaining()[0])
    {
      hide TotalOrder;
      if current.None? {
        r := None;
      } else {
        r := list[current.value].key;
      }
    }

    method Next()
      requires Valid() && Remaining() != []
      modifies this, list
      ensures Valid() && Remaining() == old(Remaining())[1..]
    {
      hide TotalOrder;
      ghost var before := Rests();
      MergeStep(cmp, before);
      var c := current.value;
      HeadOf(c);
      list[c].Next();
      assert Rests() == Popped(before, c);
      FindSmallest();
    }

    ghost function Items(): (r: seq<seq<T>>)
      ensures |r| == |list| && forall i :: 0 <= i < |r| ==> r[i] == list[i].items
    {
      seq(|list|, i requires 0 <= i < |list| => list[i].items)
    }

    lemma AllItems()
      requires Children() && forall j :: 0 <= j < |list| ==> Whole(list[j].items, list[j].Rest())
      ensures Rests() == Items()
    {}

    /** After SeekToFirst, everything is still to come. */
    method SeekToFirst()
      requires Children()
      modifies this, list
      ensures Valid() && Rests() == Items() && Remaining() == MergeOf(cmp, Items())
    {
      hide TotalOrder, MergeOf, Smallest, Rests, Items, Whole;
      for i := 0 to |list|
        invariant Children()
        invariant forall j :: 0 <= j < i ==> Whole(list[j].items, list[j].Rest())
      {
        list[i].SeekToFirst();
        IsWhole(list[i].items, list[i].Rest());
      }
      AllItems();
      FindSmallest();
    }

    lemma AllDrop(below: T -> bool)
      requires Children() && forall j :: 0 <= j < |list| ==> list[j].Rest() == DropBelow(list[j].items, below)
      ensures Rests() == AllDropped(Items(), below)
    {
      hide DropBelow;
    }

    /** After Seek, what is still to come is the whole merge from its first element on that is not
        below the key. */
    method Seek(below: T -> bool)
      requires Children() && AllAscending(cmp, Items()) && Cut(cmp, below)
      modifies this, list
      ensures Valid()
      ensures exists n: nat :: Parts(MergeOf(cmp, Items()), n, below) && Remaining() == MergeOf(cmp, Items())[n..]
    {
      hide TotalOrder, MergeOf, Smallest, Rests, Items, Cut, DropBelow, Ascending, AllDropped, Parts;
      for i := 0 to |list|
        invariant Children()
        invariant forall j :: 0 <= j < i ==> list[j].Rest() == DropBelow(list[j].items, below)
      {
        list[i].Seek(below);
      }
      AllDrop(below);
      FindSmallest();
      MergeSorts(cmp, Items());
      ghost var n := MergeDropped(cmp, Items(), below);
      PartsFrom(cmp, MergeOf(cmp, Items()), n, below);
    }
  }
}
