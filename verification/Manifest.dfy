/** VersionSet::Builder, LogAndApply and Recover: turning version edits into file lists, live and
    when the manifest is replayed. */
module Manifest {
  import opened Base
  import opened Entries
  import opened Version

  /** Order of files in a level: by smallest internal key, then by number. */
  predicate FileLess(f: File, g: File) {
    Before(f.entries[0], g.entries[0])
    || (f.entries[0].key == g.entries[0].key && f.entries[0].sn == g.entries[0].sn && f.number < g.number)
  }

  ghost predicate SortedFiles(fs: seq<File>) {
    forall i, j :: 0 <= i < j < |fs| ==> FileLess(fs[i], fs[j])
  }

  lemma {:induction false} SortedUnique(fs: seq<File>, gs: seq<File>)
    requires SortedFiles(fs) && SortedFiles(gs) && forall f :: f in fs <==> f in gs
    ensures fs == gs
  {
    if fs == [] {
      assert forall i :: 0 <= i < |gs| ==> gs[i] in gs;
    } else {
      assert fs[0] in gs;
      assert gs[0] in fs;
      assert fs[0] == gs[0];
      forall f
        ensures f in fs[1..] <==> f in gs[1..]
      {
        assert f in fs[1..] ==> f in fs && f != fs[0];
        assert f in gs[1..] ==> f in gs && f != gs[0];
      }
      SortedUnique(fs[1..], gs[1..]);
    }
  }

  // ---------------------------------------------------------------- one level

  /** std::set insertion: an element that compares equal is already there. */
  function InsertFile(fs: seq<File>, f: File): (r: seq<File>) {
    if fs == [] || FileLess(f, fs[0]) then [f] + fs
    else if FileLess(fs[0], f) then [fs[0]] + InsertFile(fs[1..], f)
    else fs
  }

  function Numbers(fs: seq<File>): (r: set<nat>) {
    set f | f in fs :: f.number
  }

  lemma {:induction false} InsertFileSorted(fs: seq<File>, f: File)
    requires SortedFiles(fs) && f.number !in Numbers(fs)
    ensures SortedFiles(InsertFile(fs, f))
    ensures forall g :: g in InsertFile(fs, f) <==> g in fs || g == f
  {
    if fs == [] || FileLess(f, fs[0]) {
    } else {
      assert fs[0] in fs;
      assert FileLess(fs[0], f);
      assert Numbers(fs[1..]) <= Numbers(fs);
      InsertFileSorted(fs[1..], f);
      var r := InsertFile(fs[1..], f);
      assert fs == [fs[0]] + fs[1..];
      forall g | g in r
        ensures FileLess(fs[0], g)
      {}
    }
  }

  /** Builder state of one level. */
  datatype LevelState = LevelState(deleted: set<nat>, added: seq<File>)

  /** What one edit does to one level. */
  datatype LevelEdit = LevelEdit(dels: set<nat>, adds: seq<File>)

  function AddAll(st: LevelState, adds: seq<File>): (r: LevelState)
    decreases |adds|
  {
    if adds == [] then st
    else AddAll(LevelState(st.deleted - {adds[0].number}, InsertFile(st.added, adds[0])), adds[1..])
  }

  function ApplyLevel(st: LevelState, e: LevelEdit): (r: LevelState) {
    AddAll(st.(deleted := st.deleted + e.dels), e.adds)
  }

  /** SaveTo's merge: base files up to and including those not after the next added file first. */
  function MergeFiles(base: seq<File>, added: seq<File>): (r: seq<File>) {
    if added == [] then base
    else if base != [] && !FileLess(added[0], base[0]) then [base[0]] + MergeFiles(base[1..], added)
    else [added[0]] + MergeFiles(base, added[1..])
  }

  /** AddFile's filter. */
  function Keep(fs: seq<File>, deleted: set<nat>): (r: seq<File>) {
    if fs == [] then []
    else (if fs[0].number in deleted then [] else [fs[0]]) + Keep(fs[1..], deleted)
  }

  function SaveLevel(base: seq<File>, st: LevelState): (r: seq<File>) {
    Keep(MergeFiles(base, st.added), st.deleted)
  }

  const EMPTY := LevelState({}, [])

  /** A builder on `base` fed with one edit and saved: the live path. */
  function LiveLevel(base: seq<File>, e: LevelEdit): (r: seq<File>) {
    SaveLevel(base, ApplyLevel(EMPTY, e))
  }

  lemma {:induction false} AddAllIs(st: LevelState, adds: seq<File>)
    requires SortedFiles(st.added) && FreshFiles(Numbers(st.added), adds)
    ensures var r := AddAll(st, adds);
      && SortedFiles(r.added) && (forall f :: f in r.added <==> f in st.added || f in adds)
      && r.deleted == st.deleted - Numbers(adds)
    decreases |adds|
  {
    if adds != [] {
      hide SortedFiles, InsertFile;
      var f := adds[0];
      InsertFileSorted(st.added, f);
      var st' := LevelState(st.deleted - {f.number}, InsertFile(st.added, f));
      assert Numbers(st'.added) == Numbers(st.added) + {f.number};
      AddAllIs(st', adds[1..]);
      assert adds == [f] + adds[1..];
      assert Numbers(adds) == {f.number} + Numbers(adds[1..]);
    }
  }

  /** No number is used twice among the given ones and the files of `adds`. */
  ghost predicate FreshFiles(used: set<nat>, adds: seq<File>)
    decreases |adds|
  {
    adds == [] || (adds[0].number !in used && FreshFiles(used + {adds[0].number}, adds[1..]))
  }

  lemma {:induction false} FreshFilesAre(used: set<nat>, adds: seq<File>)
    requires FreshFiles(used, adds)
    ensures Numbers(adds) !! used
    decreases |adds|
  {
    if adds != [] {
      FreshFilesAre(used + {adds[0].number}, adds[1..]);
      assert Numbers(adds) == {adds[0].number} + Numbers(adds[1..]);
    }
  }

  lemma {:induction false} FreshFilesLess(used: set<nat>, used': set<nat>, adds: seq<File>)
    requires FreshFiles(used, adds) && used' <= used
    ensures FreshFiles(used', adds)
    decreases |adds|
  {
    if adds != [] {
      FreshFilesLess(used + {adds[0].number}, used' + {adds[0].number}, adds[1..]);
    }
  }

  lemma {:induction false} MergeSorted(base: seq<File>, added: seq<File>)
    requires SortedFiles(base) && SortedFiles(added) && Numbers(base) !! Numbers(added)
    ensures SortedFiles(MergeFiles(base, added))
    ensures forall f :: f in MergeFiles(base, added) <==> f in base || f in added
    decreases |base| + |added|
  {
    if added == [] {
    } else if base != [] && !FileLess(added[0], base[0]) {
      MergeSorted(base[1..], added) by {
        assert Numbers(base[1..]) <= Numbers(base);
      }
      assert base[0].number in Numbers(base) && added[0].number in Numbers(added);
      assert FileLess(base[0], added[0]);
      HeadFirst(base[0], MergeFiles(base[1..], added), base[1..], added);
      assert base == [base[0]] + base[1..];
    } else {
      MergeSorted(base, added[1..]) by {
        assert Numbers(added[1..]) <= Numbers(added);
      }
      HeadFirst(added[0], MergeFiles(base, added[1..]), base, added[1..]);
      assert added == [added[0]] + added[1..];
    }
  }

  lemma HeadFirst(h: File, r: seq<File>, a: seq<File>, b: seq<File>)
    requires SortedFiles(r) && (forall f :: f in r <==> f in a || f in b)
    requires SortedFiles(a) && SortedFiles(b)
    requires (a != [] ==> FileLess(h, a[0])) && (b != [] ==> FileLess(h, b[0]))
    ensures SortedFiles([h] + r)
  {
    forall f | f in r
      ensures FileLess(h, f)
    {
      assert f in a ==> a != [] && (f == a[0] || FileLess(a[0], f));
      assert f in b ==> b != [] && (f == b[0] || FileLess(b[0], f));
    }
  }

  lemma {:induction false} KeepIs(fs: seq<File>, deleted: set<nat>)
    ensures forall f :: f in Keep(fs, deleted) <==> f in fs && f.number !in deleted
    ensures SortedFiles(fs) ==> SortedFiles(Keep(fs, deleted))
  {
    if fs != [] {
      KeepIs(fs[1..], deleted);
      assert fs == [fs[0]] + fs[1..];
      if SortedFiles(fs) {
        forall f | f in Keep(fs[1..], deleted)
          ensures FileLess(fs[0], f)
        {}
      }
    }
  }

  /** What SaveTo keeps, exactly, and in which order. */
  lemma SaveIs(base: seq<File>, st: LevelState)
    requires SortedFiles(base) && SortedFiles(st.added) && Numbers(base) !! Numbers(st.added)
    ensures SortedFiles(SaveLevel(base, st))
    ensures forall f :: f in SaveLevel(base, st) <==> (f in base || f in st.added) && f.number !in st.deleted
  {
    MergeSorted(base, st.added);
    KeepIs(MergeFiles(base, st.added), st.deleted);
  }

  /** What one edit makes of a level: deleted files go unless the edit adds them too. */
  lemma LiveIs(base: seq<File>, e: LevelEdit)
    requires SortedFiles(base) && FreshFiles(Numbers(base), e.adds)
    ensures SortedFiles(LiveLevel(base, e))
    ensures forall f :: f in LiveLevel(base, e) <==> (f in base && f.number !in e.dels) || f in e.adds
  {
    FreshFilesLess(Numbers(base), {}, e.adds);
    FreshFilesAre(Numbers(base), e.adds);
    var st := EMPTY.(deleted := EMPTY.deleted + e.dels);
    assert Numbers(st.added) == {};
    AddAllIs(st, e.adds);
    var r := AddAll(st, e.adds);
    assert Numbers(r.added) == Numbers(e.adds);
    SaveIs(base, r);
  }

  // ---------------------------------------------------------------- a sequence of edits

  function ApplyAll(st: LevelState, es: seq<LevelEdit>): (r: LevelState) {
    if es == [] then st else ApplyLevel(ApplyAll(st, es[..|es| - 1]), es[|es| - 1])
  }

  function LiveAll(base: seq<File>, es: seq<LevelEdit>): (r: seq<File>) {
    if es == [] then base else LiveLevel(LiveAll(base, es[..|es| - 1]), es[|es| - 1])
  }

  function AddedBy(es: seq<LevelEdit>): (r: set<nat>) {
    if es == [] then {} else AddedBy(es[..|es| - 1]) + Numbers(es[|es| - 1].adds)
  }

  /** Well-formed edits for one level: no file number is added to the level twice. */
  ghost predicate NoReuse(base: seq<File>, es: seq<LevelEdit>) {
    es == [] || (NoReuse(base, es[..|es| - 1])
      && FreshFiles(Numbers(base) + AddedBy(es[..|es| - 1]), es[|es| - 1].adds))
  }

  /** Replay equals live, for one level: feeding every edit to one builder and saving once gives
      the list that saving after each edit gives. */
  lemma {:induction false} ReplayLevel(base: seq<File>, es: seq<LevelEdit>)
    requires SortedFiles(base) && NoReuse(base, es)
    ensures var st := ApplyAll(EMPTY, es);
      && SaveLevel(base, st) == LiveAll(base, es)
      && SortedFiles(st.added) && Numbers(st.added) <= AddedBy(es) && Numbers(st.added) !! Numbers(base)
      && SortedFiles(LiveAll(base, es)) && Numbers(LiveAll(base, es)) <= Numbers(base) + AddedBy(es)
  {
    if es == [] {
      SaveIs(base, EMPTY);
      SortedUnique(SaveLevel(base, EMPTY), base);
    } else {
      var front, e := es[..|es| - 1], es[|es| - 1];
      ReplayLevel(base, front);
      ReplayStep(base, ApplyAll(EMPTY, front), AddedBy(front), LiveAll(base, front), e);
    }
  }

  lemma ReplayStep(base: seq<File>, st: LevelState, used: set<nat>, live: seq<File>, e: LevelEdit)
    requires SortedFiles(base) && SortedFiles(st.added) && Numbers(st.added) <= used
    requires Numbers(st.added) !! Numbers(base)
    requires live == SaveLevel(base, st) && SortedFiles(live) && Numbers(live) <= Numbers(base) + used
    requires FreshFiles(Numbers(base) + used, e.adds)
    ensures var st' := ApplyLevel(st, e);
      && SaveLevel(base, st') == LiveLevel(live, e)
      && SortedFiles(st'.added) && Numbers(st'.added) <= used + Numbers(e.adds) && Numbers(st'.added) !! Numbers(base)
      && SortedFiles(LiveLevel(live, e))
      && Numbers(LiveLevel(live, e)) <= Numbers(base) + (used + Numbers(e.adds))
  {
    FreshFilesLess(Numbers(base) + used, Numbers(live), e.adds);
    FreshFilesLess(Numbers(base) + used, Numbers(st.added), e.adds);
    FreshFilesAre(Numbers(base) + used, e.adds);
    LiveIs(live, e);
    SaveIs(base, st);
    AddAllIs(st.(deleted := st.deleted + e.dels), e.adds);
    var st' := ApplyLevel(st, e);
    SaveIs(base, st');
    forall f
      ensures f in SaveLevel(base, st') <==> f in LiveLevel(live, e)
    {
      assert f in e.adds ==> f.number in Numbers(e.adds);
      assert f in base || f in st.added ==> f.number in Numbers(base) + used;
    }
    SortedUnique(SaveLevel(base, st'), LiveLevel(live, e));
  }

  // ---------------------------------------------------------------- versions

  /** An internal key, as compaction pointers keep it. */
  datatype Pointer = Pointer(key: UserKey, sn: nat)

  datatype Edit = Edit(
    dels: seq<(nat, nat)>, adds: seq<(nat, File)>, pointers: seq<(nat, Pointer)>,
    logNumber: Option<nat>, lastSeq: Option<nat>, nextFile: Option<nat>)

  predicate InRange(e: Edit) {
    && (forall i :: 0 <= i < |e.dels| ==> e.dels[i].0 < LEVELS)
    && (forall i :: 0 <= i < |e.adds| ==> e.adds[i].0 < LEVELS)
  }

  function DelsAt(dels: seq<(nat, nat)>, l: nat): (r: set<nat>) {
    if dels == [] then {}
    else DelsAt(dels[..|dels| - 1], l) + (if dels[|dels| - 1].0 == l then {dels[|dels| - 1].1} else {})
  }

  function AddsAt(adds: seq<(nat, File)>, l: nat): (r: seq<File>) {
    if adds == [] then []
    else AddsAt(adds[..|adds| - 1], l) + (if adds[|adds| - 1].0 == l then [adds[|adds| - 1].1] else [])
  }

  lemma {:induction false} DelsAtIs(dels: seq<(nat, nat)>, l: nat)
    ensures forall n :: n in DelsAt(dels, l) <==> (l, n) in dels
  {
    if dels != [] {
      DelsAtIs(dels[..|dels| - 1], l);
      assert dels == dels[..|dels| - 1] + [dels[|dels| - 1]];
    }
  }

  lemma {:induction false} AddsAtIs(adds: seq<(nat, File)>, l: nat)
    ensures forall f :: f in AddsAt(adds, l) <==> (l, f) in adds
  {
    if adds != [] {
      AddsAtIs(adds[..|adds| - 1], l);
      assert adds == adds[..|adds| - 1] + [adds[|adds| - 1]];
    }
  }

  function At(e: Edit, l: nat): (r: LevelEdit) {
    LevelEdit(DelsAt(e.dels, l), AddsAt(e.adds, l))
  }

  function AllAt(es: seq<Edit>, l: nat): (r: seq<LevelEdit>)
    ensures |r| == |es|
  {
    seq(|es|, i requires 0 <= i < |es| => At(es[i], l))
  }

  /** Later settings of a compaction pointer win. */
  function SetPointers(m: map<nat, Pointer>, ps: seq<(nat, Pointer)>): (r: map<nat, Pointer>) {
    if ps == [] then m
    else SetPointers(m, ps[..|ps| - 1])[ps[|ps| - 1].0 := ps[|ps| - 1].1]
  }

  /** The last setting of a pointer decides, and a pointer that is not set stays. */
  lemma {:induction false} SetPointersIs(m: map<nat, Pointer>, ps: seq<(nat, Pointer)>, k: nat, i: nat)
    requires i < |ps| ==> ps[i].0 == k && forall j :: i < j < |ps| ==> ps[j].0 != k
    requires i >= |ps| ==> forall j :: 0 <= j < |ps| ==> ps[j].0 != k
    ensures var r := SetPointers(m, ps);
      if i < |ps| then k in r && r[k] == ps[i].1 else (k in r <==> k in m) && (k in m ==> r[k] == m[k])
  {
    if ps != [] && i != |ps| - 1 {
      SetPointersIs(m, ps[..|ps| - 1], k, i);
      assert ps[|ps| - 1].0 != k;
    }
  }

  function AllPointers(m: map<nat, Pointer>, es: seq<Edit>): (r: map<nat, Pointer>) {
    if es == [] then m else SetPointers(AllPointers(m, es[..|es| - 1]), es[|es| - 1].pointers)
  }

  lemma {:induction false} AddAllSnoc(st: LevelState, adds: seq<File>, f: File)
    ensures var r := AddAll(st, adds);
      AddAll(st, adds + [f]) == LevelState(r.deleted - {f.number}, InsertFile(r.added, f))
    decreases |adds|
  {
    if adds == [] {
      assert ([] + [f])[1..] == [];
    } else {
      assert (adds + [f])[1..] == adds[1..] + [f];
      AddAllSnoc(LevelState(st.deleted - {adds[0].number}, InsertFile(st.added, adds[0])), adds[1..], f);
    }
  }

  /** What the merge still has to deliver at base position b and added position k. */
  function ToCome(fs: seq<File>, b: nat, added: seq<File>, k: nat, deleted: set<nat>): (r: seq<File>)
    requires b <= |fs| && k <= |added|
  {
    Keep(MergeFiles(fs[b..], added[k..]), deleted)
  }

  lemma SaveLevelIs(fs: seq<File>, st: LevelState)
    ensures SaveLevel(fs, st) == [] + ToCome(fs, 0, st.added, 0, st.deleted)
  {
    assert fs[0..] == fs && st.added[0..] == st.added;
  }

  lemma KeepCons(f: File, rest: seq<File>, deleted: set<nat>)
    ensures Keep([f] + rest, deleted) == (if f.number in deleted then [] else [f]) + Keep(rest, deleted)
  {
    assert ([f] + rest)[1..] == rest;
  }

  /** The three cases of SaveTo's merge loop. */
  lemma TakeBase(fs: seq<File>, b: nat, added: seq<File>, k: nat, deleted: set<nat>)
    requires b < |fs| && k < |added| && !FileLess(added[k], fs[b])
    ensures ToCome(fs, b, added, k, deleted) ==
      (if fs[b].number in deleted then [] else [fs[b]]) + ToCome(fs, b + 1, added, k, deleted)
  {
    assert fs[b..][1..] == fs[b + 1..];
    KeepCons(fs[b], MergeFiles(fs[b + 1..], added[k..]), deleted);
  }

  lemma TakeAdded(fs: seq<File>, b: nat, added: seq<File>, k: nat, deleted: set<nat>)
    requires b <= |fs| && k < |added| && (b < |fs| ==> FileLess(added[k], fs[b]))
    ensures ToCome(fs, b, added, k, deleted) ==
      (if added[k].number in deleted then [] else [added[k]]) + ToCome(fs, b, added, k + 1, deleted)
  {
    assert added[k..][1..] == added[k + 1..];
    KeepCons(added[k], MergeFiles(fs[b..], added[k + 1..]), deleted);
  }

  lemma TakeRest(fs: seq<File>, b: nat, added: seq<File>, deleted: set<nat>)
    requires b <= |fs|
    ensures b == |fs| ==> ToCome(fs, b, added, |added|, deleted) == []
    ensures b < |fs| ==>
      (ToCome(fs, b, added, |added|, deleted) ==
       (if fs[b].number in deleted then [] else [fs[b]]) + ToCome(fs, b + 1, added, |added|, deleted))
  {
    if b < |fs| { assert fs[b..][1..] == fs[b + 1..]; }
  }

  lemma AddsAtSnoc(adds: seq<(nat, File)>, i: nat)
    requires i < |adds|
    ensures forall l: nat ::
      (AddsAt(adds[..i + 1], l) == if l == adds[i].0 then AddsAt(adds[..i], l) + [adds[i].1] else AddsAt(adds[..i], l))
  {
    assert adds[..i + 1][..i] == adds[..i];
    assert forall l: nat :: AddsAt(adds[..i], l) + [] == AddsAt(adds[..i], l);
  }

  class Builder {
    const base: Files
    var levels: seq<LevelState>
    /** The version set's compactor_pointer_, which Apply updates as a side effect. */
    var pointers: map<nat, Pointer>

    ghost predicate Valid()
      reads this
    {
      |base| == LEVELS && |levels| == LEVELS
    }

    constructor (base: Files, pointers: map<nat, Pointer>)
      requires |base| == LEVELS
      ensures Valid() && this.base == base && this.pointers == pointers
      ensures levels == seq(LEVELS, _ => EMPTY)
    {
      this.base, this.pointers, this.levels := base, pointers, seq(LEVELS, _ => EMPTY);
    }

    /** Builder::Apply. */
    method Apply(e: Edit)
      requires Valid() && InRange(e)
      modifies this
      ensures Valid()
      ensures pointers == SetPointers(old(pointers), e.pointers)
      ensures forall l :: 0 <= l < LEVELS ==> levels[l] == ApplyLevel(old(levels)[l], At(e, l))
    {
      for i := 0 to |e.pointers|
        invariant Valid() && levels == old(levels)
        invariant pointers == SetPointers(old(pointers), e.pointers[..i])
      {
        assert e.pointers[..i + 1][..i] == e.pointers[..i];
        pointers := pointers[e.pointers[i].0 := e.pointers[i].1];
      }
      assert e.pointers[..|e.pointers|] == e.pointers;
      ApplyDeletes(e.dels);
      ApplyAdds(e.adds);
    }

    method ApplyDeletes(dels: seq<(nat, nat)>)
      requires Valid() && forall i :: 0 <= i < |dels| ==> dels[i].0 < LEVELS
      modifies this`levels
      ensures Valid()
      ensures forall l :: 0 <= l < LEVELS ==>
        levels[l] == old(levels)[l].(deleted := old(levels)[l].deleted + DelsAt(dels, l))
    {
      for i := 0 to |dels|
        invariant Valid()
        invariant forall l :: 0 <= l < LEVELS ==>
          levels[l] == old(levels)[l].(deleted := old(levels)[l].deleted + DelsAt(dels[..i], l))
      {
        assert dels[..i + 1][..i] == dels[..i];
        var (l, n) := dels[i];
        levels := levels[l := levels[l].(deleted := levels[l].deleted + {n})];
      }
      assert dels[..|dels|] == dels;
    }

    method ApplyAdds(adds: seq<(nat, File)>)
      requires Valid() && forall i :: 0 <= i < |adds| ==> adds[i].0 < LEVELS
      modifies this`levels
      ensures Valid()
      ensures forall l :: 0 <= l < LEVELS ==> levels[l] == AddAll(old(levels)[l], AddsAt(adds, l))
    {
      for i := 0 to |adds|
        invariant Valid()
        invariant forall l :: 0 <= l < LEVELS ==> levels[l] == AddAll(old(levels)[l], AddsAt(adds[..i], l))
      {
        AddsAtSnoc(adds, i);
        var (l, f) := adds[i];
        AddAllSnoc(old(levels)[l], AddsAt(adds[..i], l), f);
        hide AddsAt, AddAll, InsertFile;
        levels := levels[l := LevelState(levels[l].deleted - {f.number}, InsertFile(levels[l].added, f))];
      }
      assert adds[..|adds|] == adds;
    }

    /** std::upper_bound: the first base file at or after `from` that is ordered behind f. */
    static method UpperBound(fs: seq<File>, from: nat, f: File) returns (at: nat)
      requires SortedFiles(fs) && from <= |fs|
      ensures from <= at <= |fs|
      ensures forall i :: from <= i < at ==> !FileLess(f, fs[i])
      ensures at < |fs| ==> FileLess(f, fs[at])
    {
      var lo, hi := from, |fs|;
      while lo < hi
        invariant from <= lo <= hi <= |fs|
        invariant forall i :: from <= i < lo ==> !FileLess(f, fs[i])
        invariant hi < |fs| ==> FileLess(f, fs[hi])
      {
        var mid := (lo + hi) / 2;
        if FileLess(f, fs[mid]) {
          hi := mid;
        } else {
          lo := mid + 1;
          assert forall i :: from <= i < mid ==> FileLess(fs[i], fs[mid]);
        }
      }
      return lo;
    }

    /** Builder::SaveTo for one level: merge base and added files, skipping deleted ones. */
    method SaveOne(l: nat) returns (out: seq<File>)
      requires Valid() && l < LEVELS && SortedFiles(base[l])
      ensures out == SaveLevel(base[l], levels[l])
    {
      hide MergeFiles, Keep, SaveLevel;
      var fs, added, deleted := base[l], levels[l].added, levels[l].deleted;
      var b := 0;
      out := [];
      SaveLevelIs(fs, levels[l]);
      for k := 0 to |added|
        invariant b <= |fs|
        invariant out + ToCome(fs, b, added, k, deleted) == SaveLevel(fs, levels[l])
      {
        var bound := UpperBound(fs, b, added[k]);
        while b < bound
          invariant b <= bound
          invariant out + ToCome(fs, b, added, k, deleted) == SaveLevel(fs, levels[l])
        {
          TakeBase(fs, b, added, k, deleted);
          if fs[b].number !in deleted { out := out + [fs[b]]; }
          b := b + 1;
        }
        TakeAdded(fs, b, added, k, deleted);
        if added[k].number !in deleted { out := out + [added[k]]; }
      }
      while b < |fs|
        invariant b <= |fs|
        invariant out + ToCome(fs, b, added, |added|, deleted) == SaveLevel(fs, levels[l])
      {
        TakeRest(fs, b, added, deleted);
        if fs[b].number !in deleted { out := out + [fs[b]]; }
        b := b + 1;
      }
      TakeRest(fs, b, added, deleted);
    }

    /** Builder::SaveTo. */
    method SaveTo() returns (v: Files)
      requires Valid() && forall l :: 0 <= l < LEVELS ==> SortedFiles(base[l])
      ensures |v| == LEVELS && forall l :: 0 <= l < LEVELS ==> v[l] == SaveLevel(base[l], levels[l])
    {
      v := [];
      for l := 0 to LEVELS
        invariant |v| == l && forall m :: 0 <= m < l ==> v[m] == SaveLevel(base[m], levels[m])
      {
        var fs := SaveOne(l);
        v := v + [fs];
      }
    }
  }

  // ---------------------------------------------------------------- the version set

  lemma {:induction false} PointersMerge(m: map<nat, Pointer>, ps: seq<(nat, Pointer)>)
    ensures SetPointers(m, ps) == m + SetPointers(map[], ps)
  {
    if ps != [] { PointersMerge(m, ps[..|ps| - 1]); }
  }

  /** The snapshot is taken after the first edit's pointers are set; setting them again on
      replay changes nothing. */
  lemma PointersTwice(m: map<nat, Pointer>, ps: seq<(nat, Pointer)>)
    ensures SetPointers(SetPointers(m, ps), ps) == SetPointers(m, ps)
  {
    PointersMerge(m, ps);
    PointersMerge(SetPointers(m, ps), ps);
  }

  function PointerList(m: map<nat, Pointer>, n: nat): (r: seq<(nat, Pointer)>) {
    if n == 0 then []
    else PointerList(m, n - 1) + (if n - 1 in m then [(n - 1, m[n - 1])] else [])
  }

  lemma {:induction false} PointerListIs(m: map<nat, Pointer>, n: nat)
    ensures var r := SetPointers(map[], PointerList(m, n));
      (forall k :: k in r <==> k in m && k < n) && (forall k :: k in r ==> r[k] == m[k])
  {
    if n > 0 {
      PointerListIs(m, n - 1);
      var ps := PointerList(m, n);
      if n - 1 in m {
        assert ps[|ps| - 1] == (n - 1, m[n - 1]);
        assert ps[..|ps| - 1] == PointerList(m, n - 1);
        assert SetPointers(map[], ps) == SetPointers(map[], PointerList(m, n - 1))[n - 1 := m[n - 1]];
      } else {
        assert ps == PointerList(m, n - 1);
      }
    }
  }

  function Tagged(fs: seq<File>, l: nat): (r: seq<(nat, File)>) {
    if fs == [] then [] else Tagged(fs[..|fs| - 1], l) + [(l, fs[|fs| - 1])]
  }

  function FileList(v: Files, n: nat): (r: seq<(nat, File)>)
    requires n <= |v|
  {
    if n == 0 then [] else FileList(v, n - 1) + Tagged(v[n - 1], n - 1)
  }

  lemma {:induction false} AddsAtConcat(a: seq<(nat, File)>, b: seq<(nat, File)>, l: nat)
    ensures AddsAt(a + b, l) == AddsAt(a, l) + AddsAt(b, l)
  {
    if b == [] {
      assert a + b == a;
    } else {
      assert (a + b)[..|a + b| - 1] == a + b[..|b| - 1];
      AddsAtConcat(a, b[..|b| - 1], l);
    }
  }

  lemma {:induction false} AddsAtTagged(fs: seq<File>, m: nat, l: nat)
    ensures AddsAt(Tagged(fs, m), l) == if m == l then fs else []
    ensures forall i :: 0 <= i < |Tagged(fs, m)| ==> Tagged(fs, m)[i].0 == m
  {
    if fs != [] {
      var front := Tagged(fs[..|fs| - 1], m);
      AddsAtTagged(fs[..|fs| - 1], m, l);
      assert Tagged(fs, m) == front + [(m, fs[|fs| - 1])];
      assert Tagged(fs, m)[..|front|] == front;
      hide Tagged;
      assert fs == fs[..|fs| - 1] + [fs[|fs| - 1]];
    }
  }

  lemma {:induction false} FileListIs(v: Files, n: nat, l: nat)
    requires n <= |v| && l < |v|
    ensures AddsAt(FileList(v, n), l) == if l < n then v[l] else []
  {
    hide FileList, AddsAt, Tagged;
    if n == 0 {
      FileListNil(v, l);
    } else {
      FileListIs(v, n - 1, l);
      AddsAtTagged(v[n - 1], n - 1, l);
      FileListSnoc(v, n, l);
      if l == n - 1 {
        assert [] + v[l] == v[l];
      } else {
        assert AddsAt(FileList(v, n - 1), l) + [] == AddsAt(FileList(v, n - 1), l);
      }
    }
  }

  lemma FileListNil(v: Files, l: nat)
    ensures AddsAt(FileList(v, 0), l) == []
  {
  }

  lemma FileListSnoc(v: Files, n: nat, l: nat)
    requires 0 < n <= |v|
    ensures AddsAt(FileList(v, n), l) == AddsAt(FileList(v, n - 1), l) + AddsAt(Tagged(v[n - 1], n - 1), l)
  {
    AddsAtConcat(FileList(v, n - 1), Tagged(v[n - 1], n - 1), l);
  }

  lemma {:induction false} FileListLevels(v: Files, n: nat)
    requires n <= |v|
    ensures forall i :: 0 <= i < |FileList(v, n)| ==> FileList(v, n)[i].0 < n
  {
    hide Tagged, AddsAt;
    if n > 0 {
      FileListLevels(v, n - 1);
      AddsAtTagged(v[n - 1], n - 1, 0);
    }
  }

  /** VersionSet::WriteSnapShot: pointers and files of a version, as one edit. */
  function Snapshot(v: Files, pointers: map<nat, Pointer>): (r: Edit)
    requires |v| == LEVELS
  {
    Edit([], FileList(v, LEVELS), PointerList(pointers, LEVELS), None, None, None)
  }

  /** Replaying the manifest `es` with one builder yields files v and pointers p. */
  ghost predicate Replays(es: seq<Edit>, v: Files, p: map<nat, Pointer>) {
    && |v| == LEVELS && AllPointers(map[], es) == p
    && (forall i :: 0 <= i < |es| ==> InRange(es[i]))
    && (forall l :: 0 <= l < LEVELS ==>
          && NoReuse([], AllAt(es, l))
          && v[l] == SaveLevel([], ApplyAll(EMPTY, AllAt(es, l))))
  }

  lemma SnapshotLevel(v: Files, p: map<nat, Pointer>, l: nat)
    requires |v| == LEVELS && l < LEVELS && SortedFiles(v[l]) && FreshFiles({}, v[l])
    ensures var es := AllAt([Snapshot(v, p)], l);
      NoReuse([], es) && v[l] == SaveLevel([], ApplyAll(EMPTY, es)) && AddedBy(es) == Numbers(v[l])
  {
    hide SortedFiles, FreshFiles, FileList, PointerList;
    FileListIs(v, LEVELS, l);
    var le := LevelEdit({}, v[l]);
    assert AllAt([Snapshot(v, p)], l) == [le] && [le][..0] == [];
    assert Numbers([]) + AddedBy([]) == {};
    assert NoReuse([], []) && AddedBy([le]) == AddedBy([]) + Numbers(v[l]);
    assert ApplyAll(EMPTY, [le]) == ApplyLevel(ApplyAll(EMPTY, []), le);
    LiveIs([], le);
    SortedUnique(LiveLevel([], le), v[l]);
  }

  lemma SnapshotPointers(v: Files, p: map<nat, Pointer>)
    requires |v| == LEVELS && (forall k :: k in p ==> k < LEVELS)
    ensures AllPointers(map[], [Snapshot(v, p)]) == p && InRange(Snapshot(v, p))
  {
    hide FileList;
    FileListLevels(v, LEVELS);
    var e := Snapshot(v, p);
    PointerListIs(p, LEVELS);
    assert [e][..0] == [];
    assert AllPointers(map[], [e]) == SetPointers(AllPointers(map[], []), e.pointers);
    assert SetPointers(map[], e.pointers) == p;
  }

  lemma SnapshotReplays(v: Files, p: map<nat, Pointer>)
    requires |v| == LEVELS && (forall k :: k in p ==> k < LEVELS)
    requires forall l :: 0 <= l < LEVELS ==> SortedFiles(v[l]) && FreshFiles({}, v[l])
    ensures Replays([Snapshot(v, p)], v, p)
    ensures forall l :: 0 <= l < LEVELS ==> AddedBy(AllAt([Snapshot(v, p)], l)) == Numbers(v[l])
  {
    hide Snapshot, AllPointers, InRange;
    var e := Snapshot(v, p);
    SnapshotPointers(v, p);
    hide AllAt, NoReuse, SaveLevel, ApplyAll, AddedBy, Numbers;
    forall l | 0 <= l < LEVELS
      ensures NoReuse([], AllAt([e], l)) && v[l] == SaveLevel([], ApplyAll(EMPTY, AllAt([e], l)))
      ensures AddedBy(AllAt([e], l)) == Numbers(v[l])
    {
      SnapshotLevel(v, p, l);
    }
  }

  /** Replay equals live: appending an edit to the manifest replays to what LogAndApply makes of
      the version that the manifest replays to. */
  lemma ReplaysNext(es: seq<Edit>, v: Files, p: map<nat, Pointer>, e: Edit, v': Files)
    requires Replays(es, v, p) && InRange(e) && |v'| == LEVELS
    requires forall l :: 0 <= l < LEVELS ==> FreshFiles(AddedBy(AllAt(es, l)), AddsAt(e.adds, l))
    requires forall l :: 0 <= l < LEVELS ==> v'[l] == LiveLevel(v[l], At(e, l))
    ensures Replays(es + [e], v', SetPointers(p, e.pointers))
    ensures forall l :: 0 <= l < LEVELS ==> SortedFiles(v'[l])
  {
    hide NoReuse, SaveLevel, ApplyAll, LiveLevel, AllAt, AddedBy, FreshFiles, SortedFiles, SetPointers;
    assert (es + [e])[..|es + [e]| - 1] == es;
    forall l | 0 <= l < LEVELS
      ensures NoReuse([], AllAt(es + [e], l)) && v'[l] == SaveLevel([], ApplyAll(EMPTY, AllAt(es + [e], l)))
      ensures SortedFiles(v'[l])
    {
      LevelNext(es, v[l], e, l);
    }
  }

  lemma LevelNext(es: seq<Edit>, fs: seq<File>, e: Edit, l: nat)
    requires NoReuse([], AllAt(es, l)) && fs == SaveLevel([], ApplyAll(EMPTY, AllAt(es, l)))
    requires FreshFiles(AddedBy(AllAt(es, l)), AddsAt(e.adds, l))
    ensures var ls := AllAt(es + [e], l);
      NoReuse([], ls) && LiveLevel(fs, At(e, l)) == SaveLevel([], ApplyAll(EMPTY, ls))
    ensures SortedFiles(LiveLevel(fs, At(e, l)))
  {
    hide SortedFiles, FreshFiles, AddsAt, DelsAt, SaveLevel, LiveLevel;
    var ls, ls' := AllAt(es, l), AllAt(es + [e], l);
    assert ls' == ls + [At(e, l)] && ls'[..|ls'| - 1] == ls;
    assert Numbers([]) + AddedBy(ls) == AddedBy(ls);
    SortedNil();
    ReplayLevel([], ls);
    ReplayLevel([], ls');
    assert LiveAll([], ls') == LiveLevel(LiveAll([], ls), At(e, l));
  }

  lemma SortedNil()
    ensures SortedFiles([])
  {
  }

  lemma {:induction false} PointersInRange(m: map<nat, Pointer>, ps: seq<(nat, Pointer)>)
    requires (forall k :: k in m ==> k < LEVELS) && (forall i :: 0 <= i < |ps| ==> ps[i].0 < LEVELS)
    ensures forall k :: k in SetPointers(m, ps) ==> k < LEVELS
  {
    if ps != [] { PointersInRange(m, ps[..|ps| - 1]); }
  }

  /** The last record that sets a counter decides. */
  function Latest(es: seq<Edit>, field: Edit -> Option<nat>): (r: Option<nat>) {
    if es == [] then None
    else if field(es[|es| - 1]).Some? then field(es[|es| - 1]) else Latest(es[..|es| - 1], field)
  }

  /** It is the setting in record i if that has one and the records behind it have none; without any
      setting there is no value. */
  lemma {:induction false} LatestIs(es: seq<Edit>, field: Edit -> Option<nat>, i: nat)
    requires i <= |es| && (i < |es| ==> field(es[i]).Some?)
    requires forall j :: i < j < |es| ==> field(es[j]).None?
    ensures i < |es| ==> Latest(es, field) == field(es[i])
    ensures (forall j :: 0 <= j < |es| ==> field(es[j]).None?) ==> Latest(es, field) == None
  {
    if es != [] && field(es[|es| - 1]).None? {
      LatestIs(es[..|es| - 1], field, if i < |es| then i else |es| - 1);
    }
  }

  const LOG_NUMBER: Edit -> Option<nat> := (e: Edit) => e.logNumber
  const LAST_SEQ: Edit -> Option<nat> := (e: Edit) => e.lastSeq
  const NEXT_FILE: Edit -> Option<nat> := (e: Edit) => e.nextFile

  lemma LatestSnoc(es: seq<Edit>, e: Edit, field: Edit -> Option<nat>)
    ensures field(e).Some? ==> Latest(es + [e], field) == field(e)
  {
    assert (es + [e])[|es + [e]| - 1] == e;
  }

  /** What an edit makes of each level, file by file. */
  lemma EditedIs(v: Files, v': Files, e: Edit)
    requires |v| == |v'| == LEVELS
    requires forall l :: 0 <= l < LEVELS ==> SortedFiles(v[l]) && FreshFiles(Numbers(v[l]), AddsAt(e.adds, l))
    requires forall l :: 0 <= l < LEVELS ==> v'[l] == LiveLevel(v[l], At(e, l))
    ensures forall l, f :: 0 <= l < LEVELS ==>
      (f in v'[l] <==> (f in v[l] && (l, f.number) !in e.dels) || (l, f) in e.adds)
  {
    hide SortedFiles, FreshFiles, Numbers, LiveLevel, DelsAt, AddsAt;
    forall l, f | 0 <= l < LEVELS
      ensures f in v'[l] <==> (f in v[l] && (l, f.number) !in e.dels) || (l, f) in e.adds
    {
      LiveIs(v[l], At(e, l));
      DelsAtIs(e.dels, l);
      AddsAtIs(e.adds, l);
    }
  }

  lemma NoNumbers()
    ensures Numbers([]) == {}
  {}

  /** A counter that only grows has been written to the manifest. */
  predicate Recorded(c: Option<nat>, now: nat) {
    c.Some? && c.value <= now
  }

  class VersionSet {
    var current: Files
    var pointers: map<nat, Pointer>
    var logNumber: nat
    var lastSeq: nat
    var nextFile: nat
    /** The records of the manifest file; none before the first LogAndApply of this session. */
    var manifest: seq<Edit>

    /** File numbers that level l has ever been given, as far as the manifest tells. */
    ghost function Used(l: nat): (r: set<nat>)
      requires l < |current|
      reads this
    {
      if manifest == [] then Numbers(current[l]) else AddedBy(AllAt(manifest, l))
    }

    /** At any time, replaying the manifest gives the live version and the live log number. */
    ghost predicate Valid()
      reads this
    {
      && |current| == LEVELS
      && (forall k :: k in pointers ==> k < LEVELS)
      && (forall l :: 0 <= l < LEVELS ==> SortedFiles(current[l]))
      && (manifest == [] ==> forall l :: 0 <= l < LEVELS ==> FreshFiles({}, current[l]))
      && (manifest != [] ==>
            && Replays(manifest, current, pointers)
            && Latest(manifest, LOG_NUMBER) == Some(logNumber)
            && Recorded(Latest(manifest, LAST_SEQ), lastSeq) && Recorded(Latest(manifest, NEXT_FILE), nextFile))
    }

    constructor ()
      ensures Valid() && manifest == [] && current == seq(LEVELS, _ => []) && pointers == map[]
    {
      current, pointers, manifest := seq(LEVELS, _ => []), map[], [];
      logNumber, lastSeq, nextFile := 0, 0, 2;
    }

    /** VersionSet::NextFileNumber. */
    method NextFileNumber() returns (n: nat)
      requires Valid()
      modifies this`nextFile
      ensures Valid() && n == old(nextFile) && nextFile == n + 1
    {
      n := nextFile;
      nextFile := nextFile + 1;
    }

    /** VersionSet::SetLastSequence. */
    method SetLastSequence(s: nat)
      requires Valid() && lastSeq <= s
      modifies this`lastSeq
      ensures Valid() && lastSeq == s
    {
      lastSeq := s;
    }

    /** VersionSet::LogAndApply: install the edited version and append the edit to the manifest,
        starting the manifest with a snapshot if there is none yet. */
    method LogAndApply(e: Edit)
      requires Valid() && InRange(e) && (forall i :: 0 <= i < |e.pointers| ==> e.pointers[i].0 < LEVELS)
      requires e.logNumber.Some? ==> logNumber <= e.logNumber.value < nextFile
      requires forall l :: 0 <= l < LEVELS ==> FreshFiles(Used(l), AddsAt(e.adds, l))
      modifies this
      ensures Valid() && manifest != []
      ensures forall l :: 0 <= l < LEVELS ==> current[l] == LiveLevel(old(current)[l], At(e, l))
      ensures forall l, f :: 0 <= l < LEVELS ==>
        (f in current[l] <==> (f in old(current)[l] && (l, f.number) !in e.dels) || (l, f) in e.adds)
      ensures pointers == SetPointers(old(pointers), e.pointers)
      ensures logNumber == if e.logNumber.Some? then e.logNumber.value else old(logNumber)
      ensures lastSeq == old(lastSeq) && nextFile == old(nextFile)
      ensures Latest(manifest, LAST_SEQ) == Some(lastSeq) && Latest(manifest, NEXT_FILE) == Some(nextFile)
      ensures old(manifest) != [] ==> old(manifest) <= manifest
    {
      hide Replays, NoReuse, SaveLevel, ApplyAll, AddedBy, LiveLevel, AllAt, AddsAt, DelsAt, SetPointers, FreshFiles,
          Numbers, SortedFiles, Latest, Snapshot;
      AddsFresh(e);
      var log := if e.logNumber.Some? then e.logNumber.value else logNumber;
      var edit := e.(logNumber := Some(log), lastSeq := Some(lastSeq), nextFile := Some(nextFile));
      var v := NewVersion(edit);
      PointersTwice(old(pointers), e.pointers);
      ghost var p := if manifest == [] then pointers else old(pointers);
      if manifest == [] {
        SnapshotReplays(current, pointers);
        manifest := [Snapshot(current, pointers)];
      }
      assert forall l :: 0 <= l < LEVELS ==> At(edit, l) == At(e, l);
      ReplaysNext(manifest, current, p, edit, v);
      LatestSnoc(manifest, edit, LOG_NUMBER);
      LatestSnoc(manifest, edit, LAST_SEQ);
      LatestSnoc(manifest, edit, NEXT_FILE);
      manifest := manifest + [edit];
      EditedIs(current, v, e);
      current := v;
      logNumber := log;
    }

    lemma AddsFresh(e: Edit)
      requires Valid() && forall l :: 0 <= l < LEVELS ==> FreshFiles(Used(l), AddsAt(e.adds, l))
      ensures forall l :: 0 <= l < LEVELS ==> FreshFiles(Numbers(current[l]), AddsAt(e.adds, l))
      ensures forall l :: 0 <= l < LEVELS ==> SortedFiles(current[l])
    {
      hide FreshFiles, SortedFiles, AddsAt, NoReuse, SaveLevel, Numbers;
      forall l | 0 <= l < LEVELS
        ensures FreshFiles(Numbers(current[l]), AddsAt(e.adds, l))
      {
        NumbersUsed(l);
        FreshFilesLess(Used(l), Numbers(current[l]), AddsAt(e.adds, l));
      }
    }

    lemma NumbersUsed(l: nat)
      requires Valid() && l < LEVELS
      ensures Numbers(current[l]) <= Used(l)
    {
      hide Numbers, NoReuse, SaveLevel, AllAt, SortedFiles;
      if manifest != [] {
        SortedNil();
        ReplayLevel([], AllAt(manifest, l));
        assert Numbers([]) == {} by { NoNumbers(); }
      }
    }

    /** The builder steps of LogAndApply; the pointers are set on the way. */
    method NewVersion(e: Edit) returns (v: Files)
      requires |current| == LEVELS && (forall l :: 0 <= l < LEVELS ==> SortedFiles(current[l]))
      requires InRange(e) && (forall i :: 0 <= i < |e.pointers| ==> e.pointers[i].0 < LEVELS)
      requires forall k :: k in pointers ==> k < LEVELS
      modifies this`pointers
      ensures pointers == SetPointers(old(pointers), e.pointers) && (forall k :: k in pointers ==> k < LEVELS)
      ensures |v| == LEVELS && forall l :: 0 <= l < LEVELS ==> v[l] == LiveLevel(current[l], At(e, l))
    {
      var builder := new Builder(current, pointers);
      builder.Apply(e);
      PointersInRange(pointers, e.pointers);
      pointers := builder.pointers;
      v := builder.SaveTo();
    }

    /** VersionSet::Recover: one builder over an empty version, fed with every record. */
    method Recover(es: seq<Edit>) returns (ok: bool)
      requires current == seq(LEVELS, _ => []) && pointers == map[]
      requires forall i :: 0 <= i < |es| ==> InRange(es[i])
      modifies this
      ensures ok <==> Latest(es, LOG_NUMBER).Some? && Latest(es, LAST_SEQ).Some? && Latest(es, NEXT_FILE).Some?
      ensures |current| == LEVELS && pointers == AllPointers(map[], es)
      ensures ok ==> forall l :: 0 <= l < LEVELS ==> current[l] == SaveLevel([], ApplyAll(EMPTY, AllAt(es, l)))
      ensures ok ==> logNumber == Latest(es, LOG_NUMBER).value && lastSeq == Latest(es, LAST_SEQ).value
      ensures ok ==> nextFile == Latest(es, NEXT_FILE).value + 1
    {
      hide SaveLevel, ApplyLevel, AllAt, AddedBy;
      var log, last, next: Option<nat> := None, None, None;
      var builder := new Builder(current, pointers);
      forall l: nat ensures AllAt(es[..0], l) == [] { AllAtSnoc(es, 0, l); }
      for i := 0 to |es|
        invariant builder.Valid() && fresh(builder) && builder.base == current == seq(LEVELS, _ => [])
        invariant builder.pointers == AllPointers(map[], es[..i])
        invariant forall l :: 0 <= l < LEVELS ==> builder.levels[l] == ApplyAll(EMPTY, AllAt(es[..i], l))
        invariant log == Latest(es[..i], LOG_NUMBER) && last == Latest(es[..i], LAST_SEQ)
            && next == Latest(es[..i], NEXT_FILE)
      {
        assert es[..i + 1][..i] == es[..i];
        forall l: nat ensures ApplyAll(EMPTY,
            AllAt(es[..i + 1], l)) == ApplyLevel(ApplyAll(EMPTY, AllAt(es[..i], l)), At(es[i], l)) {
          AllAtSnoc(es, i, l);
        }
        builder.Apply(es[i]);
        if es[i].logNumber.Some? { log := es[i].logNumber; }
        if es[i].lastSeq.Some? { last := es[i].lastSeq; }
        if es[i].nextFile.Some? { next := es[i].nextFile; }
      }
      assert es[..|es|] == es;
      pointers := builder.pointers;
      ok := log.Some? && last.Some? && next.Some?;
      if ok {
        current := builder.SaveTo();
        logNumber, lastSeq := log.value, last.value;
        nextFile := next.value + 1;
      }
    }
  }

  lemma AllAtSnoc(es: seq<Edit>, i: nat, l: nat)
    requires i <= |es|
    ensures AllAt(es[..0], l) == []
    ensures i < |es| ==>
      (ApplyAll(EMPTY, AllAt(es[..i + 1], l)) == ApplyLevel(ApplyAll(EMPTY, AllAt(es[..i], l)), At(es[i], l)))
  {
    if i < |es| {
      assert AllAt(es[..i + 1], l)[..i] == AllAt(es[..i], l);
    }
  }

  /** After a crash: recovering from the manifest of a valid version set succeeds and restores its
      files, its compaction pointers and its log number. The other counters are those that the last
      LogAndApply wrote down; the file counter skips one number, for the new manifest. */
  method Reopen(vs: VersionSet) returns (vs': VersionSet, ok: bool)
    requires vs.Valid() && vs.manifest != []
    ensures fresh(vs')
    ensures ok && vs'.current == vs.current && vs'.pointers == vs.pointers && vs'.logNumber == vs.logNumber
    ensures Latest(vs.manifest, LAST_SEQ) == Some(vs'.lastSeq) && vs'.lastSeq <= vs.lastSeq
    ensures Latest(vs.manifest, NEXT_FILE) == Some(vs'.nextFile - 1) && vs'.nextFile <= vs.nextFile + 1
  {
    vs' := new VersionSet();
    ok := vs'.Recover(vs.manifest);
    assert forall l :: 0 <= l < LEVELS ==> vs'.current[l] == vs.current[l];
  }
}
