/** A run of the store in which a merge under the drop rule as written loses a write. */
module LostWrite {
  import opened Base
  import opened Entries
  import opened Version
  import opened Pick
  import opened Compaction
  import opened Edits
  import opened Merge
  import opened Lsm
  import opened LsmSteps

  ghost predicate Reachable(s: State) {
    exists run :: Legal(Init(), run) && Exec(Init(), run) == s
  }

  lemma {:induction false} LegalSnoc(s: State, run: seq<Act>, a: Act)
    requires s.mems != [] && |s.v| == LEVELS && Legal(s, run) && Enabled(Exec(s, run), a)
    ensures Legal(s, run + [a]) && Exec(s, run + [a]) == Apply(Exec(s, run), a)
    decreases |run|
  {
    hide Enabled, Apply;
    if run == [] {
      assert [] + [a] == [a] && [a][1..] == [];
    } else {
      LegalSnoc(Apply(s, run[0]), run[1..], a);
      assert (run + [a])[1..] == run[1..] + [a];
    }
  }

  lemma ReachableStep(s: State, a: Act)
    requires s.mems != [] && |s.v| == LEVELS && Reachable(s) && Enabled(s, a)
    ensures Reachable(Apply(s, a))
  {
    hide Enabled, Apply, Legal, Exec, Init;
    var run :| Legal(Init(), run) && Exec(Init(), run) == s;
    LegalSnoc(Init(), run, a);
  }

  /** A store of one key in one version, in the memtable or behind it. */
  ghost function One(k: UserKey, val: Bytes, mems: seq<iset<Entry>>, imm: bool, v: Files, nextFile: nat,
      job: Option<Job>): (s: State)
  {
    State(mems, imm, v, 1, nextFile, {}, None, job, map[], map[k := val])
  }

  lemma WriteOne(k: UserKey, val: Bytes)
    ensures Reachable(One(k, val, [iset{Entry(k, 1, Some(val))}], false, Init().v, 2, None))
  {
    hide Reachable;
    var ops := [Op.Put(k, val)];
    var e := Entry(k, 1, Some(val));
    InitReachable();
    ReachableStep(Init(), StartWrite(ops));
    var s1 := Init().(batch := Some(Batch(ops, 0)));
    assert Apply(Init(), StartWrite(ops)) == s1;
    ReachableStep(s1, InsertOne);
    var s2 := s1.(mems := [iset{e}], batch := Some(Batch(ops, 1)));
    assert Apply(s1, InsertOne) == s2 by { assert iset{} + iset{e} == iset{e}; }
    ReachableStep(s2, FinishWrite);
    assert ops[..0] == [] && DoAll(map[], ops) == map[k := val];
    assert Apply(s2, FinishWrite) == One(k, val, [iset{e}], false, Init().v, 2, None);
  }

  lemma InitReachable()
    ensures Reachable(Init())
  {
    assert Legal(Init(), []) && Exec(Init(), []) == Init();
  }

  lemma FlushOne(k: UserKey, val: Bytes) returns (v: Files)
    ensures var e := Entry(k, 1, Some(val));
      && Reachable(One(k, val, [iset{e}, iset{}], false, v, 4, None))
      && |v| == LEVELS && Listed(v) && Shape(v) && (forall g :: g in v[0] <==> g == Table(3, [e]))
      && (forall l :: 1 <= l < LEVELS ==> v[l] == [])
  {
    hide Reachable, FlushEdit, Shape, Listed, Live;
    var e := Entry(k, 1, Some(val));
    WriteOne(k, val);
    var s3 := One(k, val, [iset{e}], false, Init().v, 2, None);
    ReachableStep(s3, Rotate);
    var s4 := One(k, val, [iset{e}, iset{}], true, Init().v, 3, None);
    assert Apply(s3, Rotate) == s4;
    assert Sorted([e]) && Contents([e]) == iset{e};
    ReachableStep(s4, Flush([e]));
    var f: File := Table(3, [e]);
    v := Live(Init().v, FlushEdit(f));
    assert Apply(s4, Flush([e])) == One(k, val, [iset{e}, iset{}], false, v, 4, None);
    InitShape(Init().v);
    assert Newer(Contents(f.entries), VersionEntries(Init().v));
    FlushShape(Init().v, f);
  }

  lemma OneIsValid(v: Files, f: File)
    requires |v| == LEVELS && (forall g :: g in v[0] <==> g == f) && v[1] == []
    ensures ValidInputs(v, 0, [f], [])
  {
    assert f in [f] && f in v[0];
    assert IsHull([f], First(f), Last(f)) by { assert forall g :: g in [f] ==> g == f; }
    assert NextInputs(v[1], [], First(f).key, Last(f).key);
  }

  lemma OneIsMerged(f: File, e: Entry, j: Job)
    requires f.entries == [e] && e.value.Some?
    ensures Merged([e], [f], []) && OutputsOf([], [e], AsWritten, j)
  {
    forall x
      ensures x in [e] <==> InInputs([f], [], x)
    {
      assert f in [f];
    }
    LonePutDropped(e, j.input, j.level);
  }

  lemma NothingLeft(v: Files, v': Files, level: nat, f: File)
    requires Replaced(v, v', level, [f], [], []) && (forall g :: g in v[level] <==> g == f)
    requires forall l :: 0 <= l < LEVELS && l != level ==> v[l] == []
    ensures VersionEntries(v') == iset{}
  {
    var low, low' := v[level + 1], v'[level + 1];
    assert f in [f] && low == [];
    assert forall g :: g in low' ==> g in low;
    forall e, l | 0 <= l < LEVELS
      ensures !InLevel(v'[l], e)
    {
      assert l != level ==> v[l] == [];
    }
    forall e
      ensures !InVersion(v', e)
    {}
  }

  /** As written, the store loses a write: a put, a flush and a merge of the flushed file with the
      empty level below it, and a lookup finds nothing although the map has the value. */
  lemma MergeLosesPut(k: UserKey, val: Bytes) returns (s: State)
    ensures Reachable(s) && s.batch == None && s.job == None && !s.imm && s.mems != []
    ensures DbGet(s.db, k) == Some(val)
    ensures LooksUp(s.mems, |s.mems| - 1, s.imm, s.v, k, s.lastSeq, None)
  {
    hide Reachable, MergeEdit, Shape, Listed, Live, ValidInputs, Merged, OutputsOf, JobOk;
    var e := Entry(k, 1, Some(val));
    var f: File := Table(3, [e]);
    var v := FlushOne(k, val);
    OneIsValid(v, f);
    var mems := [iset{e}, iset{}];
    var s5 := One(k, val, mems, false, v, 4, None);
    ReachableStep(s5, StartMerge(0, [f], []));
    var j := Job(0, [f], [], v);
    var s6 := One(k, val, mems, false, v, 4, Some(j));
    assert Apply(s5, StartMerge(0, [f], [])) == s6;
    OneIsMerged(f, e, j);
    ReachableStep(s6, FinishMerge([e], [], AsWritten));
    var v' := Live(v, MergeEdit(0, [f], [], []));
    s := One(k, val, mems, false, v', 4, None);
    assert Apply(s6, FinishMerge([e], [], AsWritten)) == s;
    assert NewNumbers(v[1], []);
    MergeLevels(v, 0, [f], [], []);
    NothingLeft(v, v', 0, f);
    assert Finds(mems[1], k, 1, None) && Finds(ImmOf(mems, 1, false), k, 1, None);
    assert Finds(VersionEntries(v'), k, 1, None);
  }
}
