/** DBImpl::DoCompactionLevel: which versions a merge keeps, and how it cuts them into files. */
module Compaction {
  import opened Base
  import opened Entries
  import opened Version

  /** In the source, the first occurrence of a user key is marked `same_key` and dropped, although
      the comment beside it speaks of hiding lower sequence numbers. `Repaired` exchanges the two
      constants assigned to that flag. */
  datatype DropRule = AsWritten | Repaired

  /** Compaction::IsBaseLevelForKey: no file of level + 2 or below covers the key. */
  ghost predicate IsBase(v: Files, level: nat, k: UserKey) {
    forall l, f :: level + 2 <= l < |v| && f in v[l] ==> !(f.Lo() <= k <= f.Hi())
  }

  method IsBaseLevelForKey(v: Files, level: nat, k: UserKey) returns (r: bool)
    ensures r == IsBase(v, level, k)
    ensures r <==> forall l, f :: level + 2 <= l < |v| && f in v[l] ==> !(f.Lo() <= k <= f.Hi())
  {
    for l := level + 2 to if |v| < level + 2 then level + 2 else |v|
      invariant forall m, f :: level + 2 <= m < l && f in v[m] ==> !(f.Lo() <= k <= f.Hi())
    {
      for i := 0 to |v[l]|
        invariant forall j :: 0 <= j < i ==> !(v[l][j].Lo() <= k <= v[l][j].Hi())
      {
        if k >= v[l][i].Lo() && k <= v[l][i].Hi() {
          assert v[l][i] in v[l];
          return false;
        }
      }
    }
    return true;
  }

  ghost predicate Dropped(rule: DropRule, first: bool, e: Entry, v: Files, level: nat) {
    (if rule == AsWritten then first else !first) || (e.value.None? && IsBase(v, level, e.key))
  }

  /** The versions kept from `es`, when `last` is the user key seen before. */
  ghost function Survive(es: seq<Entry>, last: Option<UserKey>, rule: DropRule, v: Files, level: nat): (r: seq<Entry>) {
    if es == [] then []
    else
      var kept := if Dropped(rule, last != Some(es[0].key), es[0], v, level) then [] else [es[0]];
      kept + Survive(es[1..], Some(es[0].key), rule, v, level)
  }

  /** An output table with the bounds recorded for it. */
  datatype Output = Output(smallest: Entry, largest: Entry, entries: seq<Entry>)

  function OutputEntries(outs: seq<Output>): (r: seq<seq<Entry>>) {
    if outs == [] then [] else OutputEntries(outs[..|outs| - 1]) + [outs[|outs| - 1].entries]
  }

  ghost predicate Exact(o: Output) {
    |o.entries| > 0 && o.smallest == o.entries[0] && o.largest == o.entries[|o.entries| - 1]
  }

  /** Everything written so far: finished outputs, then the open one. */
  ghost function AllWritten(outs: seq<Output>, builder: Option<Output>): (r: seq<Entry>) {
    Flatten(OutputEntries(outs)) + (if builder.Some? then builder.value.entries else [])
  }

  ghost predicate AllExact(outs: seq<Output>, builder: Option<Output>) {
    (forall o :: o in outs ==> Exact(o)) && (builder.Some? ==> Exact(builder.value))
  }

  /** FinishCompactionSSTable: close the open output. */
  method FinishOutput(outs: seq<Output>, builder: Option<Output>) returns (outs': seq<Output>)
    requires AllExact(outs, builder) && builder.Some?
    ensures AllExact(outs', None) && AllWritten(outs', None) == AllWritten(outs, builder)
    ensures outs' == outs + [builder.value]
  {
    outs' := outs + [builder.value];
    assert outs'[..|outs|] == outs;
    FlattenSnoc(OutputEntries(outs), builder.value.entries);
    assert AllWritten(outs', None) == Flatten(OutputEntries(outs')) + [];
  }

  /** Add an entry to the open output, opening one if there is none. */
  method AddToOutput(ghost outs: seq<Output>, builder: Option<Output>, e: Entry) returns (builder': Option<Output>)
    requires AllExact(outs, builder)
    ensures AllExact(outs, builder') && builder'.Some? && AllWritten(outs, builder') == AllWritten(outs, builder) + [e]
    ensures builder'.value.entries == OpenEntries(builder) + [e]
  {
    if builder == None {
      builder' := Some(Output(e, e, [e]));
    } else {
      builder' := Some(Output(builder.value.smallest, e, builder.value.entries + [e]));
    }
  }

  function OpenEntries(builder: Option<Output>): (r: seq<Entry>) {
    if builder.Some? then builder.value.entries else []
  }

  // ---------------------------------------------------------------- where files end

  /** After the input's entry l was written, and before its entry i is reached, something closes the
      open file: it is full, or the check made at an entry in between says so. */
  ghost predicate Broken(stopBefore: nat -> bool, full: nat -> bool, l: nat, i: nat) {
    full(l) || exists m: nat :: l < m < i && stopBefore(m)
  }

  /** The entries written so far, `all`, are the input's entries at the places `idx`. */
  ghost predicate Placed(es: seq<Entry>, i: nat, all: seq<Entry>, idx: seq<nat>) {
    && i <= |es| && |idx| == |all|
    && (forall k :: 0 <= k < |idx| ==> idx[k] < i && all[k] == es[idx[k]])
    && forall j, k :: 0 <= j < k < |idx| ==> idx[j] < idx[k]
  }

  /** Output j holds the entries from cuts[j] to cuts[j + 1]. */
  ghost predicate Part(outs: seq<Output>, all: seq<Entry>, cuts: seq<nat>, j: nat) {
    j < |outs| && j + 1 < |cuts| ==> cuts[j] < cuts[j + 1] <= |all| && outs[j].entries == all[cuts[j]..cuts[j + 1]]
  }

  /** The outputs are the parts between the cuts, and the open one holds the entries from the last cut on. */
  ghost predicate CutUp(outs: seq<Output>, builder: Option<Output>, all: seq<Entry>, cuts: seq<nat>) {
    && |cuts| == |outs| + 1 && cuts[0] == 0 && cuts[|outs|] <= |all|
    && (forall j: nat :: Part(outs, all, cuts, j))
    && OpenEntries(builder) == all[cuts[|outs|]..] && (builder.Some? <==> cuts[|outs|] < |all|)
  }

  /** A file begins with entry k exactly if something closed the file before it. */
  ghost predicate BeginsAt(stopBefore: nat -> bool, full: nat -> bool, idx: seq<nat>, cuts: seq<nat>, k: nat) {
    0 < k < |idx| ==> (k in cuts <==> Broken(stopBefore, full, idx[k - 1], idx[k] + 1))
  }

  ghost predicate CutWhereBroken(stopBefore: nat -> bool, full: nat -> bool, idx: seq<nat>, cuts: seq<nat>) {
    forall k: nat :: BeginsAt(stopBefore, full, idx, cuts, k)
  }

  /** Nothing is open after the last entry exactly if something has closed the file. */
  ghost predicate OpenOrBroken(stopBefore: nat -> bool, full: nat -> bool, idx: seq<nat>, i: nat,
      builder: Option<Output>)
  {
    if idx == [] then builder.None? else builder.None? <==> Broken(stopBefore, full, idx[|idx| - 1], i)
  }

  ghost predicate CutSoFar(stopBefore: nat -> bool, full: nat -> bool, es: seq<Entry>, i: nat, outs: seq<Output>,
      builder: Option<Output>, all: seq<Entry>, idx: seq<nat>, cuts: seq<nat>)
  {
    && Placed(es, i, all, idx) && CutUp(outs, builder, all, cuts) && CutWhereBroken(stopBefore, full, idx, cuts)
    && OpenOrBroken(stopBefore, full, idx, i, builder)
  }

  lemma CutStarts(stopBefore: nat -> bool, full: nat -> bool, es: seq<Entry>)
    ensures CutSoFar(stopBefore, full, es, 0, [], None, [], [], [0])
  {}

  /** Cuts ascend. */
  lemma {:induction false} CutInside(cuts: seq<nat>, outs: seq<Output>, all: seq<Entry>, j: nat)
    requires |cuts| == |outs| + 1 && j <= |outs| && forall j: nat :: Part(outs, all, cuts, j)
    ensures cuts[j] <= cuts[|outs|] && (j < |outs| ==> cuts[j] < cuts[|outs|])
    decreases |outs| - j
  {
    if j < |outs| {
      assert Part(outs, all, cuts, j);
      CutInside(cuts, outs, all, j + 1);
    }
  }

  /** Closing the open file. */
  lemma CutClosed(stopBefore: nat -> bool, full: nat -> bool, outs: seq<Output>, builder: Option<Output>,
      all: seq<Entry>, idx: seq<nat>, cuts: seq<nat>)
    requires CutUp(outs, builder, all, cuts) && builder.Some? && |idx| == |all|
    requires CutWhereBroken(stopBefore, full, idx, cuts)
    ensures CutUp(outs + [builder.value], None, all, cuts + [|all|])
    ensures CutWhereBroken(stopBefore, full, idx, cuts + [|all|])
  {
    hide Broken;
    var outs', cuts' := outs + [builder.value], cuts + [|all|];
    forall j: nat
      ensures Part(outs', all, cuts', j)
    {
      assert Part(outs, all, cuts, j);
      if j == |outs| { assert all[cuts[j]..] == all[cuts[j]..|all|]; }
    }
    forall k: nat
      ensures BeginsAt(stopBefore, full, idx, cuts', k)
    {
      assert BeginsAt(stopBefore, full, idx, cuts, k);
    }
  }

  /** Adding an entry to the open file, or to a new one. */
  lemma CutAdded(outs: seq<Output>, builder: Option<Output>, builder': Option<Output>, all: seq<Entry>,
      cuts: seq<nat>, e: Entry)
    requires CutUp(outs, builder, all, cuts)
    requires builder'.Some? && builder'.value.entries == OpenEntries(builder) + [e]
    ensures CutUp(outs, builder', all + [e], cuts) && (|all| in cuts <==> builder.None?)
  {
    var all' := all + [e];
    assert OpenEntries(builder') == all'[cuts[|outs|]..];
    forall j: nat
      ensures Part(outs, all', cuts, j)
    {
      assert Part(outs, all, cuts, j);
      if j < |outs| { assert all'[cuts[j]..cuts[j + 1]] == all[cuts[j]..cuts[j + 1]]; }
    }
    if builder.None? {
      assert cuts[|outs|] == |all|;
    } else if j :| 0 <= j < |cuts| && cuts[j] == |all| {
      CutInside(cuts, outs, all, j);
    }
  }

  /** It begins a file exactly if something has closed the one before. */
  lemma BreakAdded(stopBefore: nat -> bool, full: nat -> bool, idx: seq<nat>, i: nat, cuts: seq<nat>,
      builder: Option<Output>)
    requires CutWhereBroken(stopBefore, full, idx, cuts) && OpenOrBroken(stopBefore, full, idx, i + 1, builder)
    requires |idx| in cuts <==> builder.None?
    ensures CutWhereBroken(stopBefore, full, idx + [i], cuts)
  {
    hide Broken;
    var idx' := idx + [i];
    forall k: nat
      ensures BeginsAt(stopBefore, full, idx', cuts, k)
    {
      assert BeginsAt(stopBefore, full, idx, cuts, k);
      if 0 < k < |idx| {
        assert idx'[k] == idx[k] && idx'[k - 1] == idx[k - 1];
      } else if k == |idx| && k > 0 {
        assert idx'[k - 1] == idx[|idx| - 1] && idx'[k] == i;
      }
    }
  }

  lemma PlacedAdded(es: seq<Entry>, i: nat, all: seq<Entry>, idx: seq<nat>)
    requires Placed(es, i, all, idx) && i < |es|
    ensures Placed(es, i + 1, all, idx) && Placed(es, i + 1, all + [es[i]], idx + [i])
  {}

  /** The files: the entries at the places `idx` of the input, cut where the open file is closed. */
  ghost predicate CutFiles(stopBefore: nat -> bool, full: nat -> bool, es: seq<Entry>, outs: seq<Output>,
      all: seq<Entry>, idx: seq<nat>, cuts: seq<nat>)
  {
    Placed(es, |es|, all, idx) && CutUp(outs, None, all, cuts) && CutWhereBroken(stopBefore, full, idx, cuts)
  }

  /** The merge loop over the sorted input. `stopBefore` and `full` stand for the two reasons to
      close an output file (overlap with grandparents, asked before each entry; file size, asked
      after each entry that is written), `v` for the input version. The outputs are not empty, carry
      exact bounds and hold the surviving versions in order; a file ends exactly where one of the two
      reasons ends it. */
  method DoCompactionLevel(input: seq<Entry>, rule: DropRule, v: Files, level: nat, stopBefore: nat -> bool,
                           full: nat -> bool) returns (outs: seq<Output>, ghost idx: seq<nat>, ghost cuts: seq<nat>)
    ensures Flatten(OutputEntries(outs)) == Survive(input, None, rule, v, level)
    ensures forall o :: o in outs ==> Exact(o)
    ensures CutFiles(stopBefore, full, input, outs, Survive(input, None, rule, v, level), idx, cuts)
  {
    hide Dropped, Survive, AllWritten, Exact, Flatten, OutputEntries, WrittenSoFar, Placed, CutUp,
        CutWhereBroken, Broken;
    outs := [];
    var builder: Option<Output> := None;
    var lastUserKey: Option<UserKey> := None;
    var sameKey := false;
    ghost var all: seq<Entry>;
    all, idx, cuts := [], [], [0];
    NothingWritten(input, rule, v, level);
    CutStarts(stopBefore, full, input);
    for i := 0 to |input|
      invariant AllExact(outs, builder) && AllWritten(outs, builder) == all && |idx| == |all|
      invariant WrittenSoFar(outs, builder, input, i, lastUserKey, rule, v, level)
      invariant CutSoFar(stopBefore, full, input, i, outs, builder, all, idx, cuts)
      invariant lastUserKey.Some? ==> sameKey == (rule != AsWritten)
    {
      var e := input[i];
      ghost var outs0, builder0, last := outs, builder, lastUserKey;
      if stopBefore(i) && builder.Some? {
        CutClosed(stopBefore, full, outs, builder, all, idx, cuts);
        cuts := cuts + [|all|];
        outs := FinishOutput(outs, builder);
        builder := None;
      }
      BreakOn(stopBefore, full, input, all, idx, i, builder0, builder);
      PlacedAdded(input, i, all, idx);
      ghost var first := lastUserKey != Some(e.key);
      if lastUserKey != Some(e.key) {
        lastUserKey := Some(e.key);
        sameKey := rule == AsWritten;
      }
      var drop := ToDrop(sameKey, first, e, rule, v, level);
      sameKey := rule != AsWritten;
      if !drop {
        ghost var builder1 := builder;
        builder := AddToOutput(outs, builder, e);
        CutAdded(outs, builder1, builder, all, cuts, e);
        BreakAdded(stopBefore, full, idx, i, cuts, builder1);
        all, idx := all + [e], idx + [i];
        LastBroken(stopBefore, full, i);
        if full(i) {
          CutClosed(stopBefore, full, outs, builder, all, idx, cuts);
          cuts := cuts + [|all|];
          outs := FinishOutput(outs, builder);
          builder := None;
        }
      }
      WrittenMore(outs0, builder0, outs, builder, input, i, last, rule, v, level);
    }
    AllWrittenOut(input, outs, builder, lastUserKey, rule, v, level);
    if builder.Some? {
      CutClosed(stopBefore, full, outs, builder, all, idx, cuts);
      cuts := cuts + [|all|];
      outs := FinishOutput(outs, builder);
      builder := None;
    }
    NothingOpen(outs);
  }

  /** The check before entry i. */
  lemma BreakOn(stopBefore: nat -> bool, full: nat -> bool, es: seq<Entry>, all: seq<Entry>, idx: seq<nat>, i: nat,
      builder: Option<Output>, builder': Option<Output>)
    requires OpenOrBroken(stopBefore, full, idx, i, builder) && Placed(es, i, all, idx)
    requires builder' == if stopBefore(i) then None else builder
    ensures OpenOrBroken(stopBefore, full, idx, i + 1, builder')
  {}

  lemma LastBroken(stopBefore: nat -> bool, full: nat -> bool, i: nat)
    ensures Broken(stopBefore, full, i, i + 1) <==> full(i)
  {}

  /** What is written and what is still to come make up the survivors. */
  ghost predicate WrittenSoFar(outs: seq<Output>, builder: Option<Output>, es: seq<Entry>, i: nat,
      last: Option<UserKey>, rule: DropRule, v: Files, level: nat)
  {
    i <= |es| && AllWritten(outs, builder) + Survive(es[i..], last, rule, v, level) == Survive(es, None, rule, v, level)
  }

  lemma WrittenMore(outs: seq<Output>, builder: Option<Output>, outs': seq<Output>, builder': Option<Output>,
      es: seq<Entry>, i: nat, last: Option<UserKey>, rule: DropRule, v: Files, level: nat)
    requires i < |es| && WrittenSoFar(outs, builder, es, i, last, rule, v, level)
    requires var dropped := Dropped(rule, last != Some(es[i].key), es[i], v, level);
      AllWritten(outs', builder') == AllWritten(outs, builder) + if dropped then [] else [es[i]]
    ensures WrittenSoFar(outs', builder', es, i + 1, Some(es[i].key), rule, v, level)
  {
    hide Dropped, Survive, AllWritten;
    SurviveStep(es, i, last, rule, v, level);
    var kept := if Dropped(rule, last != Some(es[i].key), es[i], v, level) then [] else [es[i]];
    var rest := Survive(es[i + 1..], Some(es[i].key), rule, v, level);
    var was := AllWritten(outs, builder);
    assert was + (kept + rest) == was + kept + rest;
  }

  lemma NothingWritten(es: seq<Entry>, rule: DropRule, v: Files, level: nat)
    ensures WrittenSoFar([], None, es, 0, None, rule, v, level)
  {
    assert AllWritten([], None) == [] && es[0..] == es;
  }

  lemma AllWrittenOut(es: seq<Entry>, outs: seq<Output>, builder: Option<Output>, last: Option<UserKey>,
      rule: DropRule, v: Files, level: nat)
    requires WrittenSoFar(outs, builder, es, |es|, last, rule, v, level)
    ensures AllWritten(outs, builder) == Survive(es, None, rule, v, level)
  {
    assert Survive(es[|es|..], last, rule, v, level) == [];
  }

  lemma NothingOpen(outs: seq<Output>)
    ensures AllWritten(outs, None) == Flatten(OutputEntries(outs))
  {}

  method ToDrop(sameKey: bool, ghost first: bool, e: Entry, rule: DropRule, v: Files, level: nat) returns (drop: bool)
    requires sameKey == if rule == AsWritten then first else !first
    ensures drop == Dropped(rule, first, e, v, level)
  {
    drop := false;
    if sameKey {
      drop := true;
    } else if e.value.None? {
      drop := IsBaseLevelForKey(v, level, e.key);
    }
  }

  lemma SurviveStep(es: seq<Entry>, i: nat, last: Option<UserKey>, rule: DropRule, v: Files, level: nat)
    requires i < |es|
    ensures Survive(es[i..], last, rule, v, level) ==
      (if Dropped(rule, last != Some(es[i].key), es[i], v, level) then [] else [es[i]])
      + Survive(es[i + 1..], Some(es[i].key), rule, v, level)
  {
    assert es[i..][1..] == es[i + 1..];
  }

  // ---------------------------------------------------------------- what survives

  /** e is the newest version of its key in es, given that `last` was seen just before. */
  ghost predicate IsNewest(es: seq<Entry>, last: Option<UserKey>, e: Entry) {
    last != Some(e.key) && forall x :: x in es && x.key == e.key ==> x.sn <= e.sn
  }

  ghost predicate SeenBefore(es: seq<Entry>, last: Option<UserKey>) {
    last.Some? ==> forall e :: e in es ==> last.value <= e.key
  }

  /** Survivors, exactly: repaired, the newest version of each key; as written, all the others;
      in both cases without deletions at the base level. */
  lemma {:induction false} SurviveIs(es: seq<Entry>, last: Option<UserKey>, rule: DropRule, v: Files, level: nat)
    requires Sorted(es) && SeenBefore(es, last)
    ensures forall e :: e in Survive(es, last, rule, v, level) <==>
      (e in es && IsNewest(es, last, e) == (rule == Repaired) && !(e.value.None? && IsBase(v, level, e.key)))
  {
    if es != [] {
      var h, rest := es[0], es[1..];
      assert es == [h] + rest;
      HeadIsFirst(es);
      assert SeenBefore(rest, Some(h.key));
      SurviveIs(rest, Some(h.key), rule, v, level);
      hide IsBase;
      forall e | e in rest
        ensures IsNewest(es, last, e) == IsNewest(rest, Some(h.key), e)
      {
        if e.key == h.key {
          assert h in es && h.sn > e.sn;
        } else {
          assert last != Some(e.key);
        }
      }
    }
  }

  lemma HeadIsFirst(es: seq<Entry>)
    requires Sorted(es) && es != []
    ensures forall e :: e in es[1..] ==> Before(es[0], e)
    ensures es[0] !in es[1..]
    ensures forall e :: e in es ==> es[0].key <= e.key
    ensures forall e :: e in es && e.key == es[0].key ==> e.sn <= es[0].sn
  {
    forall e | e in es[1..]
      ensures Before(es[0], e)
    {
      var i :| 0 <= i < |es[1..]| && es[1..][i] == e;
      assert e == es[i + 1];
    }
    assert es == [es[0]] + es[1..];
  }

  ghost predicate KeysIncrease(es: seq<Entry>) {
    forall i, j :: 0 <= i < j < |es| ==> es[i].key < es[j].key
  }

  lemma PrependSorted(h: Entry, es: seq<Entry>)
    requires Sorted(es) && forall e :: e in es ==> Before(h, e)
    ensures Sorted([h] + es)
  {}

  lemma PrependIncreases(h: Entry, es: seq<Entry>)
    requires KeysIncrease(es) && forall e :: e in es ==> h.key < e.key
    ensures KeysIncrease([h] + es)
  {}

  /** Survivors stay sorted; repaired, no two share a user key, so that files cut from them have
      disjoint user-key ranges wherever the cuts fall. */
  lemma {:induction false} SurviveSorted(es: seq<Entry>, last: Option<UserKey>, rule: DropRule, v: Files, level: nat)
    requires Sorted(es) && SeenBefore(es, last)
    ensures Sorted(Survive(es, last, rule, v, level))
    ensures rule == Repaired ==> KeysIncrease(Survive(es, last, rule, v, level))
  {
    hide IsBase, Dropped;
    if es != [] {
      var h, rest := es[0], es[1..];
      HeadIsFirst(es);
      SurviveSorted(rest, Some(h.key), rule, v, level);
      SurviveIs(rest, Some(h.key), rule, v, level);
      var r := Survive(rest, Some(h.key), rule, v, level);
      forall e | e in r
        ensures Before(h, e) && (rule == Repaired ==> h.key < e.key)
      {
        assert e in rest;
        if rule == Repaired { assert IsNewest(rest, Some(h.key), e); }
      }
      PrependSorted(h, r);
      if rule == Repaired { PrependIncreases(h, r); }
      assert Survive(es, last, rule, v, level) == [] + r || Survive(es, last, rule, v, level) == [h] + r;
      assert [] + r == r;
    }
  }
}
