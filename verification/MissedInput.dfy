/** What compaction ranges that are inside out do to the store: a run after which a merge of the
    inputs chosen as written hides a file of the next level, and when that does not happen. */
module MissedInput {
  import opened Base
  import opened Entries
  import opened Version
  import opened Manifest
  import opened Pick
  import opened Compaction
  import opened Edits
  import opened Merge
  import opened FaultyMerge
  import opened Lsm
  import opened LsmSteps
  import opened LostWrite

  // ---------------------------------------------------------------- when the next level stays sorted

  /** No file of the next level outside the inputs meets an output. */
  ghost predicate OutputsFit(fs: seq<File>, in1: seq<File>, outs: seq<File>) {
    forall h, o :: h in fs && h !in in1 && o in outs ==> Apart(h, o)
  }

  /** Whichever range the inputs were chosen with, the next level is sorted after a repaired merge
      exactly when no file that was left there meets an output. */
  lemma NextLevelSortedIff(v: Files, level: nat, in0: seq<File>, in1: seq<File>, input: seq<Entry>, outs: seq<File>,
      range: RangeRule)
    requires Shape(v) && Listed(v) && level + 1 < LEVELS && (forall f :: f in in0 ==> f in v[level])
    requires exists s, l :: IsRange(in0, range, s, l) && NextInputs(v[level + 1], in1, s.key, l.key)
    requires Merged(input, in0, in1) && OutputsOf(outs, input, Repaired, Job(level, in0, in1, v))
    requires NewNumbers(v[level + 1], outs)
    ensures Disjoint(Live(v, MergeEdit(level, in0, in1, outs))[level + 1]) <==> OutputsFit(v[level + 1], in1, outs)
  {
    hide Live, MergeEdit, Newer, Stacked, LevelEntries, IsRange, InInputs, Apart, KeysIncrease, Survive, Disjoint;
    var v' := Live(v, MergeEdit(level, in0, in1, outs));
    MergeLevels(v, level, in0, in1, outs);
    SurviveSorted(input, None, Repaired, v, level);
    CutApart(outs);
    var low, low' := v[level + 1], v'[level + 1];
    if Disjoint(low') {
      forall h, o | h in low && h !in in1 && o in outs
        ensures Apart(h, o)
      {
        NewIsOther(low, outs, h, o);
        assert h in low' && o in low';
        DisjointIsApart(low', h, o);
      }
    }
    if OutputsFit(low, in1, outs) {
      forall a, b | a in low' && b in low' && a != b
        ensures Apart(a, b)
      {
        if a in low && b in low { DisjointIsApart(low, a, b); }
        ApartBothWays(a, b);
      }
      ApartIsDisjoint(low');
    }
  }

  lemma NewIsOther(fs: seq<File>, outs: seq<File>, h: File, o: File)
    requires NewNumbers(fs, outs) && h in fs && o in outs
    ensures h != o
  {
    assert h.number in Numbers(fs) && o.number in Numbers(outs);
  }

  lemma ApartBothWays(a: File, b: File)
    ensures Apart(a, b) <==> Apart(b, a)
  {}

  // ---------------------------------------------------------------- a store with overlapping files

  /** A store at rest, with an empty memtable. */
  ghost predicate Quiet(s: State) {
    && Reachable(s) && Inv(s) && s.batch == None && !s.imm && s.job == None
    && s.mems != [] && s.mems[|s.mems| - 1] == iset{} && |s.v| == LEVELS
  }

  lemma Take(s: State, a: Act)
    requires s.mems != [] && |s.v| == LEVELS && Reachable(s) && Inv(s) && Enabled(s, a) && !a.FinishMerge?
    ensures Reachable(Apply(s, a)) && Inv(Apply(s, a))
  {
    hide Reachable, Inv, Enabled, Apply;
    ReachableStep(s, a);
    StepKeeps(s, a);
  }

  /** A table of two keys with the value x. */
  function Pair(number: nat, k: UserKey, k': UserKey, sn: nat, x: Bytes): (f: File)
    requires k < k'
  {
    Table(number, [Entry(k, sn + 1, Some(x)), Entry(k', sn + 2, Some(x))])
  }

  lemma WritePair(s: State, k: UserKey, k': UserKey, x: Bytes) returns (s': State)
    requires Quiet(s) && k < k'
    ensures Reachable(s') && Inv(s') && s'.mems != []
    ensures var es := iset{Entry(k, s.lastSeq + 1, Some(x)), Entry(k', s.lastSeq + 2, Some(x))};
      s' == s.(mems := s.mems[|s.mems| - 1 := es], lastSeq := s.lastSeq + 2, db := s.db[k := x][k' := x])
  {
    hide Reachable, Inv;
    var ops := [Op.Put(k, x), Op.Put(k', x)];
    var cur := |s.mems| - 1;
    var e, e' := Entry(k, s.lastSeq + 1, Some(x)), Entry(k', s.lastSeq + 2, Some(x));
    Take(s, StartWrite(ops));
    var s1 := s.(batch := Some(Batch(ops, 0)));
    Take(s1, InsertOne);
    var s2 := s.(batch := Some(Batch(ops, 1)), mems := s.mems[cur := iset{e}]);
    assert iset{} + iset{e} == iset{e};
    assert Apply(s1, InsertOne) == s2;
    Take(s2, InsertOne);
    var s3 := s.(batch := Some(Batch(ops, 2)), mems := s.mems[cur := iset{e, e'}]);
    assert iset{e} + iset{e'} == iset{e, e'};
    assert Apply(s2, InsertOne) == s3;
    Take(s3, FinishWrite);
    DoPair(s.db, ops);
    s' := Apply(s3, FinishWrite);
  }

  lemma DoPair(db: Db, ops: seq<Op>)
    requires |ops| == 2
    ensures DoAll(db, ops) == Do(Do(db, ops[0]), ops[1])
  {
    assert ops[..1][..0] == [] && ops[..1][0] == ops[0];
    assert DoAll(db, ops[..1]) == Do(DoAll(db, []), ops[0]);
  }

  /** Two puts, a rotation and a flush: one more file in level 0. */
  lemma PutPair(s: State, k: UserKey, k': UserKey, x: Bytes) returns (s': State)
    requires Quiet(s) && k < k'
    ensures Quiet(s') && s'.lastSeq == s.lastSeq + 2 && s'.nextFile == s.nextFile + 2
    ensures s'.db == s.db[k := x][k' := x]
    ensures forall g :: g in s'.v[0] <==> g in s.v[0] || g == Pair(s.nextFile + 1, k, k', s.lastSeq, x)
    ensures forall l :: 1 <= l < LEVELS ==> s'.v[l] == s.v[l]
  {
    hide Reachable, Inv, Live, FlushEdit, Listed;
    var f := Pair(s.nextFile + 1, k, k', s.lastSeq, x);
    var s4 := WritePair(s, k, k', x);
    Take(s4, Rotate);
    var s5 := s4.(mems := s4.mems + [iset{}], imm := true, nextFile := s.nextFile + 1);
    assert Apply(s4, Rotate) == s5;
    assert Sorted(f.entries) && Contents(f.entries) == s5.mems[|s5.mems| - 2];
    Take(s5, Flush(f.entries));
    s' := s5.(v := Live(s.v, FlushEdit(f)), imm := false, nextFile := s.nextFile + 2);
    assert Apply(s5, Flush(f.entries)) == s';
    InvNumbers(s5);
    assert f.number !in Numbers(s5.v[0]) by { assert forall g :: g in s5.v[0] ==> Has(s5.v, 0, g); }
    FlushLevels(s5.v, f);
  }

  lemma InvNumbers(s: State)
    requires Inv(s)
    ensures Listed(s.v) && NumbersOk(s.v, s.nextFile, s.reserved) && |s.v| == LEVELS && Shape(s.v)
  {
    hide Listed, NumbersOk, Shape, JobOk, ReadOk, SeqOk, ShowsDb;
  }

  /** A file alone in level 0 moves down. */
  lemma MoveDown(s: State, h: File) returns (s': State)
    requires Quiet(s) && (forall g :: g in s.v[0] <==> g == h) && s.v[1] == []
    ensures Quiet(s') && s' == s.(v := s'.v) && |s'.v| == LEVELS
    ensures (forall g :: g !in s'.v[0]) && (forall g :: g in s'.v[1] <==> g == h)
    ensures forall l :: 2 <= l < LEVELS ==> s'.v[l] == s.v[l]
  {
    hide Reachable, Inv, Live, MergeEdit, Listed, ValidInputs, NumbersOk, Shape;
    OneIsValid(s.v, h);
    Take(s, Move(0, h));
    s' := s.(v := Live(s.v, MergeEdit(0, [h], [], [h])));
    assert Apply(s, Move(0, h)) == s';
    InvNumbers(s);
    assert NewNumbers(s.v[1], [h]);
    MergeLevels(s.v, 0, [h], [], [h]);
    MovedDown(s.v, s'.v, h);
  }

  lemma MovedDown(v: Files, v': Files, h: File)
    requires Replaced(v, v', 0, [h], [], [h]) && (forall g :: g in v[0] <==> g == h) && v[1] == []
    ensures (forall g :: g !in v'[0]) && (forall g :: g in v'[1] <==> g == h)
    ensures forall l :: 2 <= l < LEVELS ==> v'[l] == v[l]
  {
    assert h in [h];
    var low, low', none := v[0 + 1], v'[0 + 1], [];
    assert forall g :: g in low' <==> (g in low && g !in none) || g in [h];
  }

  function Narrow(x: Bytes): (f: File) { Pair(5, 1.0, 3.0, 2, x) }

  function Wide(x: Bytes): (g: File) { Pair(7, 2.0, 9.0, 4, x) }

  function Lower(x: Bytes): (h: File) { Pair(3, 7.0, 8.0, 0, x) }

  /** Two overlapping files in level 0, and one in level 1 behind the first but under the second. */
  ghost predicate TwoOverOne(v: Files, x: Bytes) {
    && |v| == LEVELS && (forall g :: g in v[0] <==> g == Narrow(x) || g == Wide(x))
    && (forall g :: g in v[1] <==> g == Lower(x)) && (forall l :: 2 <= l < LEVELS ==> v[l] == [])
  }

  lemma StoreWithFiles(x: Bytes) returns (s: State)
    ensures Quiet(s) && s.lastSeq == 6 && s.nextFile == 8 && TwoOverOne(s.v, x) && DbGet(s.db, 7.0) == Some(x)
  {
    hide Reachable, Inv;
    InitReachable();
    InitInv();
    var s1 := PutPair(Init(), 7.0, 8.0, x);
    var s2 := MoveDown(s1, Lower(x));
    var s3 := PutPair(s2, 1.0, 3.0, x);
    s := PutPair(s3, 2.0, 9.0, x);
  }

  // ---------------------------------------------------------------- the merge that hides a file

  lemma {:induction false} SearchFirst(fs: seq<File>, k: UserKey, lo: nat, hi: nat)
    requires lo <= hi <= |fs| && forall i :: lo <= i < hi ==> k <= fs[i].Hi()
    ensures Search(fs, k, lo, hi) == lo
    decreases hi - lo
  {
    if lo < hi { SearchFirst(fs, k, lo, (lo + hi) / 2); }
  }

  lemma {:induction false} NoHits(v: Files, l: nat, k: UserKey, s: nat)
    requires forall m :: l <= m < |v| ==> Probe(v[m], k, s) == None
    ensures FirstHit(v, l, k, s) == None
    decreases |v| - l
  {
    if l < |v| { NoHits(v, l + 1, k, s); }
  }

  lemma FirstIsLeast(fs: seq<File>, i: nat)
    requires SortedFiles(fs) && i < |fs|
    ensures fs[0].Lo() <= fs[i].Lo()
  {
    if i > 0 { assert FileLess(fs[0], fs[i]); }
  }

  /** A file that covers the key without having it, and starts before all the others, is the one that
      is probed. */
  lemma ProbeMisses(fs: seq<File>, o: File, k: UserKey, s: nat)
    requires SortedFiles(fs) && o in fs && o.Lo() < k && (forall f :: f in fs ==> k <= f.Hi())
    requires (forall f :: f in fs && f != o ==> o.Lo() < f.Lo()) && forall e :: e in o.entries ==> e.key != k
    ensures Probe(fs, k, s) == None
  {
    var i :| 0 <= i < |fs| && fs[i] == o;
    FirstIsLeast(fs, i);
    assert fs[0] in fs;
    SearchFirst(fs, k, 0, |fs|);
    SeekFinds(o.entries, k, s);
  }

  /** The inputs that SetUpInputs may choose as written, from the first file on. */
  ghost predicate Chosen(v: Files, in0: seq<File>, in1: seq<File>, seed: File)
    requires |v| == LEVELS
  {
    && seed in in0 && (forall f :: f in in0 ==> f in v[0]) && SelfContained(v[0], in0)
    && exists s, l :: IsRange(in0, Core, s, l) && NextInputs(v[1], in1, s.key, l.key)
  }

  /** They are both files of level 0, without the one below. */
  lemma ChosenAre(v: Files, x: Bytes, in0: seq<File>, in1: seq<File>)
    requires TwoOverOne(v, x) && Chosen(v, in0, in1, Narrow(x))
    ensures (forall f :: f in in0 <==> f == Narrow(x) || f == Wide(x)) && in1 == []
    ensures !ValidInputs(v, 0, in0, in1)
  {
    var f, g, h := Narrow(x), Wide(x), Lower(x);
    assert Overlaps(g, f.Lo(), f.Hi()) && g in v[0] && h in v[1];
    var s, l :| IsRange(in0, Core, s, l) && NextInputs(v[1], in1, s.key, l.key);
    assert l.key <= f.Hi();
    assert !Overlaps(h, s.key, l.key);
    assert in1 != [] ==> in1[0] in in1;
    hide SelfContained, NextInputs, IsRange, TwoOverOne, ValidInputs;
    CoreMissesInput(v, in0, in1, f, g, h);
  }

  lemma InputKeys(x: Bytes, in0: seq<File>, input: seq<Entry>)
    requires forall f :: f in in0 <==> f == Narrow(x) || f == Wide(x)
    requires Merged(input, in0, [])
    ensures forall e :: e in input <==> e in Narrow(x).entries || e in Wide(x).entries
  {
    hide Sorted;
    forall e
      ensures InInputs(in0, [], e) <==> e in Narrow(x).entries || e in Wide(x).entries
    {
      assert Narrow(x) in in0 && Wide(x) in in0;
    }
  }

  lemma EndsAreNewest(x: Bytes, input: seq<Entry>)
    requires forall e :: e in input <==> e in Narrow(x).entries || e in Wide(x).entries
    ensures var a, b := Entry(1.0, 3, Some(x)), Entry(9.0, 6, Some(x));
      && a in input && b in input && IsNewest(input, None, a) && IsNewest(input, None, b)
      && forall e :: e in input ==> e.key != 7.0
  {
    assert Narrow(x).entries[0] == Entry(1.0, 3, Some(x)) && Wide(x).entries[1] == Entry(9.0, 6, Some(x));
  }

  lemma OutputEntriesAre(o: File, input: seq<Entry>, j: Job)
    requires OutputsOf([o], input, Repaired, j)
    ensures o.entries == Survive(input, None, Repaired, j.input, j.level)
  {
    hide Survive;
    assert FileEntries([o]) == [o.entries] + FileEntries([]);
    assert Flatten([o.entries]) == o.entries + Flatten<Entry>([]);
  }

  /** The output reaches from the first key to the last. */
  lemma OutputHas(x: Bytes, v: Files, in0: seq<File>, input: seq<Entry>, o: File)
    requires forall e :: e in input <==> e in Narrow(x).entries || e in Wide(x).entries
    requires Sorted(input) && OutputsOf([o], input, Repaired, Job(0, in0, [], v))
    ensures o.Lo() <= 1.0 && 9.0 <= o.Hi() && forall e :: e in o.entries ==> e.key != 7.0
  {
    var a, b := Entry(1.0, 3, Some(x)), Entry(9.0, 6, Some(x));
    hide Survive, IsBase, IsNewest, OutputsOf, Sorted, Narrow, Wide;
    SurviveIs(input, None, Repaired, v, 0);
    EndsAreNewest(x, input);
    OutputEntriesAre(o, input, Job(0, in0, [], v));
    InBounds(o, a);
    InBounds(o, b);
  }

  /** As written, the merge of these inputs puts its output beside a file that it overlaps: a lookup
      probes the output only and misses the key in that file. */
  lemma MergeHidesFile(s: State, x: Bytes, in0: seq<File>, in1: seq<File>, input: seq<Entry>, o: File)
    requires Quiet(s) && TwoOverOne(s.v, x) && Chosen(s.v, in0, in1, Narrow(x))
    requires Merged(input, in0, in1) && OutputsOf([o], input, Repaired, Job(0, in0, in1, s.v)) && o.number >= s.nextFile
    ensures var v' := Live(s.v, MergeEdit(0, in0, in1, [o]));
      !Disjoint(v'[1]) && Uncovered(v'[0], 7.0) && FirstHit(v', 1, 7.0, s.lastSeq) == None
  {
    hide Reachable, Inv, Live, MergeEdit, OutputsOf, Listed, NumbersOk, Shape, Chosen, Probe, FirstHit, Disjoint,
        TwoOverOne, NewNumbers, SortedFiles, Uncovered, Narrow, Wide, Lower;
    var v' := Live(s.v, MergeEdit(0, in0, in1, [o]));
    ChosenAre(s.v, x, in0, in1);
    InputKeys(x, in0, input);
    OutputHas(x, s.v, in0, input, o);
    InvNumbers(s);
    OutputIsNew(s, o);
    MergedOver(s.v, x, in0, o);
    HidesSeven(v', x, o, s.lastSeq);
  }

  lemma OutputIsNew(s: State, o: File)
    requires NumbersOk(s.v, s.nextFile, s.reserved) && |s.v| == LEVELS && o.number >= s.nextFile
    ensures NewNumbers(s.v[1], [o])
  {
    forall g | g in s.v[1]
      ensures g.number < s.nextFile
    {
      assert Has(s.v, 1, g);
    }
  }

  lemma MergedOver(v: Files, x: Bytes, in0: seq<File>, o: File)
    requires Listed(v) && TwoOverOne(v, x) && (forall f :: f in in0 <==> f == Narrow(x) || f == Wide(x))
    requires NewNumbers(v[1], [o])
    ensures var v' := Live(v, MergeEdit(0, in0, [], [o]));
      && SortedFiles(v'[1]) && (forall f :: f !in v'[0]) && (forall f :: f in v'[1] <==> f == Lower(x) || f == o)
      && forall l :: 2 <= l < LEVELS ==> v'[l] == []
  {
    hide Live, MergeEdit, SortedFiles, NewNumbers, DistinctNumbers, Narrow, Wide, Lower;
    MergeLevels(v, 0, in0, [], [o]);
    HiddenBelow(v, Live(v, MergeEdit(0, in0, [], [o])), x, in0, o);
  }

  lemma HiddenBelow(v: Files, v': Files, x: Bytes, in0: seq<File>, o: File)
    requires Replaced(v, v', 0, in0, [], [o]) && TwoOverOne(v, x)
    requires forall f :: f in in0 <==> f == Narrow(x) || f == Wide(x)
    ensures (forall f :: f !in v'[0]) && (forall f :: f in v'[1] <==> f == Lower(x) || f == o)
    ensures |v'| == LEVELS && forall l :: 2 <= l < LEVELS ==> v'[l] == []
  {
    var low, low', none := v[0 + 1], v'[0 + 1], [];
    assert forall g :: g in low' <==> (g in low && g !in none) || g in [o];
  }

  lemma HidesSeven(v: Files, x: Bytes, o: File, s: nat)
    requires |v| == LEVELS && SortedFiles(v[1]) && (forall f :: f !in v[0])
    requires (forall f :: f in v[1] <==> f == Lower(x) || f == o) && forall l :: 2 <= l < LEVELS ==> v[l] == []
    requires o.Lo() <= 1.0 && 9.0 <= o.Hi() && forall e :: e in o.entries ==> e.key != 7.0
    ensures !Disjoint(v[1]) && Uncovered(v[0], 7.0) && FirstHit(v, 1, 7.0, s) == None
  {
    var h := Lower(x);
    assert h in v[1] && o in v[1] && h != o && !Apart(h, o);
    if Disjoint(v[1]) { DisjointIsApart(v[1], h, o); }
    ProbeMisses(v[1], o, 7.0, s);
    ProbeNothing(7.0, s);
    hide Probe, SortedFiles;
    NoHits(v, 1, 7.0, s);
  }

  // ---------------------------------------------------------------- it happens

  lemma RestIncreases(es: seq<Entry>)
    requires KeysIncrease(es) && es != []
    ensures KeysIncrease(es[1..]) && (|es| > 1 ==> es[0].key < es[1].key)
  {}

  lemma IsKept(e: Entry, last: Option<UserKey>, v: Files, level: nat)
    requires e.value.Some? && last != Some(e.key)
    ensures !Dropped(Repaired, last != Some(e.key), e, v, level)
  {}

  lemma {:induction false} NothingDropped(es: seq<Entry>, last: Option<UserKey>, v: Files, level: nat)
    requires KeysIncrease(es) && (forall e :: e in es ==> e.value.Some?)
    requires last.Some? && es != [] ==> last.value < es[0].key
    ensures Survive(es, last, Repaired, v, level) == es
  {
    hide IsBase, KeysIncrease;
    if es != [] {
      hide Survive;
      IsKept(es[0], last, v, level);
      hide Dropped;
      var e, rest := es[0], es[1..];
      assert e in es && forall x :: x in rest ==> x in es;
      RestIncreases(es);
      NothingDropped(rest, Some(e.key), v, level);
      SurviveStep(es, 0, last, Repaired, v, level);
      assert es[0..] == es == [e] + rest;
    }
  }

  lemma CoreOfTwo(f: File, g: File)
    requires f.Lo() < g.Lo() && f.Hi() < g.Hi()
    ensures IsCore([f, g], First(g), Last(f))
  {
    assert f in [f, g] && g in [f, g];
    assert forall x :: x in [f, g] ==> x == f || x == g;
  }

  /** The two files, merged. */
  function MergedFile(x: Bytes): (o: File) {
    Table(8, [Entry(1.0, 3, Some(x)), Entry(2.0, 5, Some(x)), Entry(3.0, 4, Some(x)), Entry(9.0, 6, Some(x))])
  }

  lemma OutputIs(x: Bytes, v: Files)
    ensures var input, in0 := MergedFile(x).entries, [Narrow(x), Wide(x)];
      Merged(input, in0, []) && OutputsOf([MergedFile(x)], input, Repaired, Job(0, in0, [], v))
  {
    var input, in0 := MergedFile(x).entries, [Narrow(x), Wide(x)];
    forall e
      ensures e in input <==> InInputs(in0, [], e)
    {
      assert Narrow(x) in in0 && Wide(x) in in0;
      assert forall f :: f in in0 ==> f == Narrow(x) || f == Wide(x);
    }
    NothingDropped(input, None, v, 0);
    hide Survive, InInputs;
    assert FileEntries([MergedFile(x)]) == [input] + FileEntries([]);
    assert Flatten([input]) == input + Flatten<Entry>([]);
  }

  lemma BothAreChosen(v: Files, x: Bytes)
    requires TwoOverOne(v, x)
    ensures Chosen(v, [Narrow(x), Wide(x)], [], Narrow(x))
  {
    var f, g := Narrow(x), Wide(x);
    assert forall y :: y in [f, g] <==> y == f || y == g;
    CoreOfTwo(f, g);
    assert IsRange([f, g], Core, First(g), Last(f)) && NextInputs(v[1], [], First(g).key, Last(f).key);
  }

  /** As written, the store loses a write although the merge drops nothing: six puts in three files,
      the first of which moves down, and a merge of the other two. */
  lemma ReadLosesPut(x: Bytes) returns (s: State, in0: seq<File>, o: File)
    ensures Reachable(s) && s.batch == None && !s.imm && s.job == None && |s.v| == LEVELS
    ensures s.mems != [] && s.mems[|s.mems| - 1] == iset{} && DbGet(s.db, 7.0) == Some(x)
    ensures Chosen(s.v, in0, [], Narrow(x)) && !ValidInputs(s.v, 0, in0, [])
    ensures Merged(o.entries, in0, []) && OutputsOf([o], o.entries, Repaired, Job(0, in0, [], s.v))
    ensures var v' := Live(s.v, MergeEdit(0, in0, [], [o]));
      !Disjoint(v'[1]) && Uncovered(v'[0], 7.0) && FirstHit(v', 1, 7.0, s.lastSeq) == None
  {
    hide Reachable, Inv, TwoOverOne, Chosen, Merged, OutputsOf, ValidInputs, Live, MergeEdit, Uncovered, FirstHit,
        Disjoint;
    s := StoreWithFiles(x);
    in0, o := [Narrow(x), Wide(x)], MergedFile(x);
    BothAreChosen(s.v, x);
    ChosenAre(s.v, x, in0, []);
    OutputIs(x, s.v);
    MergeHidesFile(s, x, in0, [], o.entries, o);
  }
}
