/** Every step of the store keeps its invariant. */
module LsmSteps {
  import opened Base
  import opened Entries
  import opened Version
  import opened Manifest
  import opened Pick
  import opened Compaction
  import opened Edits
  import opened Merge
  import opened FaultyMerge
  import opened Lsm

  /** Entries above the reader's sequence number do not change its answer. */
  lemma ShowsBelow(es: iset<Entry>, es': iset<Entry>, k: UserKey, s: nat, val: Option<Bytes>)
    requires Shows(es, k, s, val) && forall e: Entry :: e.sn <= s ==> (e in es <==> e in es')
    ensures Shows(es', k, s, val)
  {
    SameAnswers(es, es', k, s);
  }

  /** Nor does raising the sequence number when there is nothing in between. */
  lemma ShowsAbove(es: iset<Entry>, k: UserKey, s: nat, s': nat, val: Option<Bytes>)
    requires Shows(es, k, s, val) && s <= s' && Bounded(es, s)
    ensures Shows(es, k, s', val)
  {
    var r :| Finds(es, k, s, r) && Answer(r) == val;
    assert Finds(es, k, s', r);
  }

  // ---------------------------------------------------------------- writing

  /** A new newest entry in the current memtable, seen from any view. */
  lemma GrownView(mems: seq<iset<Entry>>, mems': seq<iset<Entry>>, mem: nat, imm: bool, v: Files, e: Entry)
    requires mems != [] && mems' == mems[|mems| - 1 := mems[|mems| - 1] + iset{e}]
    requires GoodView(mems, mem, imm, v)
    requires mem == |mems| - 1 ==> forall x :: x in View(mems, mem, imm, v) ==> x.sn < e.sn
    ensures GoodView(mems', mem, imm, v)
    ensures View(mems', mem, imm, v) == View(mems, mem, imm, v) + if mem == |mems| - 1 then iset{e} else iset{}
  {
    hide Shape, VersionEntries;
    assert ImmOf(mems', mem, imm) == ImmOf(mems, mem, imm);
    if mem == |mems| - 1 {
      assert mems'[mem] == mems[mem] + iset{e};
      NewestOnTop(mems[mem], ImmOf(mems, mem, imm), VersionEntries(v), e);
    }
  }

  lemma NewestOnTop(mem: iset<Entry>, imm: iset<Entry>, ve: iset<Entry>, e: Entry)
    requires Distinct(mem) && Newer(mem, imm) && Newer(mem + imm, ve)
    requires forall x :: x in mem + imm + ve ==> x.sn < e.sn
    ensures Distinct(mem + iset{e}) && Newer(mem + iset{e}, imm) && Newer(mem + iset{e} + imm, ve)
  {}

  lemma OpNumber(op: Op, sn: nat)
    ensures OpEntry(op, sn).sn == sn
  {}

  lemma InsertedNext(batch: Option<Batch>)
    requires batch.Some? && batch.value.done < |batch.value.ops|
    ensures var b := batch.value;
      Inserted(Some(Batch(b.ops, b.done + 1))) == Inserted(batch) + [b.ops[b.done]] && |Inserted(batch)| == b.done
  {}

  lemma HoldsMore(es: iset<Entry>, ops: seq<Op>, s: nat, op: Op)
    requires HoldsBatch(es, ops, s)
    ensures HoldsBatch(es + iset{OpEntry(op, s + 1 + |ops|)}, ops + [op], s)
  {
    var ops' := ops + [op];
    forall i | 0 <= i < |ops'|
      ensures OpEntry(ops'[i], s + 1 + i) in es + iset{OpEntry(op, s + 1 + |ops|)}
    {
      assert i < |ops| ==> ops'[i] == ops[i];
    }
  }

  lemma InsertSeq(mems: seq<iset<Entry>>, imm: iset<Entry>, ve: iset<Entry>, lastSeq: nat, batch: Option<Batch>,
      e: Entry)
    requires mems != [] && SeqOk(mems, imm, ve, lastSeq, batch)
    requires batch.Some? && batch.value.done < |batch.value.ops|
    requires e == OpEntry(batch.value.ops[batch.value.done], lastSeq + 1 + batch.value.done)
    ensures var b, cur := batch.value, |mems| - 1;
      SeqOk(mems[cur := mems[cur] + iset{e}], imm, ve, lastSeq, Some(Batch(b.ops, b.done + 1)))
    ensures e.sn == lastSeq + 1 + |Inserted(batch)| && forall x :: x in mems[|mems| - 1] + imm + ve ==> x.sn < e.sn
  {
    hide HoldsBatch, Inserted;
    OpNumber(batch.value.ops[batch.value.done], lastSeq + 1 + batch.value.done);
    hide OpEntry;
    var b, cur := batch.value, |mems| - 1;
    InsertedNext(batch);
    HoldsMore(mems[cur], Inserted(batch), lastSeq, b.ops[b.done]);
    assert Bounded(mems[cur], lastSeq + |Inserted(batch)|);
  }

  lemma InsertKeeps(s: State, s': State, e: Entry)
    requires Inv(s) && s.batch.Some? && s.batch.value.done < |s.batch.value.ops|
    requires e == OpEntry(s.batch.value.ops[s.batch.value.done], s.lastSeq + 1 + s.batch.value.done)
    requires s' == s.(mems := s.mems[|s.mems| - 1 := s.mems[|s.mems| - 1] + iset{e}],
                      batch := Some(Batch(s.batch.value.ops, s.batch.value.done + 1)))
    ensures Inv(s')
  {
    InsertParts(s, s', e);
    InsertDb(All(s), All(s'), s.lastSeq, s.db, e);
    InsertReaders(s, s', e);
    hide Shape, JobOk, NumbersOk, Listed, ShowsDb, ReadOk, ViewOk, SeqOk, All, OpEntry;
  }

  lemma InsertDb(es: iset<Entry>, es': iset<Entry>, lastSeq: nat, db: Db, e: Entry)
    requires ShowsDb(es, lastSeq, db) && es' == es + iset{e} && e.sn > lastSeq
    ensures ShowsDb(es', lastSeq, db)
  {
    hide Shows;
    forall k
      ensures Shows(es', k, lastSeq, DbGet(db, k))
    {
      ShowsBelow(es, es', k, lastSeq, DbGet(db, k));
    }
  }

  lemma InsertReaders(s: State, s': State, e: Entry)
    requires s.mems != [] && SeqOk(s.mems, ImmOf(s.mems, |s.mems| - 1, s.imm), VersionEntries(s.v), s.lastSeq, s.batch)
    requires forall id :: id in s.readers ==> ReadOk(s.mems, s.lastSeq, s.readers[id])
    requires e.sn == s.lastSeq + 1 + |Inserted(s.batch)|
    requires s'.mems == s.mems[|s.mems| - 1 := s.mems[|s.mems| - 1] + iset{e}]
    requires s'.readers == s.readers && s'.lastSeq == s.lastSeq
    ensures forall id :: id in s'.readers ==> ReadOk(s'.mems, s'.lastSeq, s'.readers[id])
  {
    hide SeqOk, ReadOk, Inserted, VersionEntries;
    forall id | id in s'.readers
      ensures ReadOk(s'.mems, s'.lastSeq, s'.readers[id])
    {
      InsertKeepsRead(s.mems, s'.mems, s.lastSeq, ImmOf(s.mems, |s.mems| - 1, s.imm), VersionEntries(s.v), s.batch,
          e, s.readers[id]);
    }
  }

  lemma InsertParts(s: State, s': State, e: Entry)
    requires ViewOk(s) && s.batch.Some? && s.batch.value.done < |s.batch.value.ops|
    requires SeqOk(s.mems, ImmOf(s.mems, |s.mems| - 1, s.imm), VersionEntries(s.v), s.lastSeq, s.batch)
    requires e == OpEntry(s.batch.value.ops[s.batch.value.done], s.lastSeq + 1 + s.batch.value.done)
    requires s' == s.(mems := s.mems[|s.mems| - 1 := s.mems[|s.mems| - 1] + iset{e}],
                      batch := Some(Batch(s.batch.value.ops, s.batch.value.done + 1)))
    ensures ViewOk(s') && SeqOk(s'.mems, ImmOf(s'.mems, |s'.mems| - 1, s'.imm), VersionEntries(s'.v), s'.lastSeq,
        s'.batch)
    ensures All(s') == All(s) + iset{e} && e.sn == s.lastSeq + 1 + |Inserted(s.batch)|
  {
    hide Shape, VersionEntries, SeqOk, OpEntry, Inserted, GoodView;
    var cur := |s.mems| - 1;
    InsertSeq(s.mems, ImmOf(s.mems, cur, s.imm), VersionEntries(s.v), s.lastSeq, s.batch, e);
    assert ImmOf(s'.mems, cur, s.imm) == ImmOf(s.mems, cur, s.imm);
    GrownView(s.mems, s'.mems, cur, s.imm, s.v, e);
  }

  lemma InsertKeepsRead(mems: seq<iset<Entry>>, mems': seq<iset<Entry>>, lastSeq: nat, imm: iset<Entry>,
      ve: iset<Entry>,
                        batch: Option<Batch>, e: Entry, r: Read)
    requires mems != [] && SeqOk(mems, imm, ve, lastSeq, batch) && ReadOk(mems, lastSeq, r)
    requires e.sn == lastSeq + 1 + |Inserted(batch)|
    requires mems' == mems[|mems| - 1 := mems[|mems| - 1] + iset{e}]
    ensures ReadOk(mems', lastSeq, r)
  {
    hide Shape, Shows, VersionEntries, HoldsBatch, Inserted;
    assert Bounded(mems[r.mem], lastSeq + |Inserted(batch)|);
    GrownView(mems, mems', r.mem, r.imm, r.v, e);
    assert ImmOf(mems', r.mem, r.imm) == ImmOf(mems, r.mem, r.imm);
    hide GoodView;
    ShowsBelow(View(mems, r.mem, r.imm, r.v), View(mems', r.mem, r.imm, r.v), r.key, r.sn, r.want);
  }

  /** One more sequence number becomes visible: it belongs to one entry. */
  lemma ShowsNext(es: iset<Entry>, k: UserKey, s: nat, val: Option<Bytes>, e: Entry)
    requires Shows(es, k, s, val) && e in es && e.sn == s + 1
    requires forall x :: x in es && x.sn == s + 1 ==> x == e
    ensures Shows(es, k, s + 1, if e.key == k then e.value else val)
  {
    var r :| Finds(es, k, s, r) && Answer(r) == val;
    assert Finds(es, k, s + 1, if e.key == k then Some(e) else r);
  }

  lemma BatchEntry(es: iset<Entry>, ops: seq<Op>, i: nat, s: nat) returns (e: Entry)
    requires HoldsBatch(es, ops, s) && i < |ops|
    ensures e == OpEntry(ops[i], s + 1 + i) && e in es && e.sn == s + i + 1
    ensures forall x :: x in es && x.sn == s + i + 1 ==> x == e
  {
    e := OpEntry(ops[i], s + 1 + i);
  }

  lemma DoStep(db: Db, ops: seq<Op>, i: nat, sn: nat, k: UserKey)
    requires 0 < i <= |ops|
    ensures var e := OpEntry(ops[i - 1], sn);
      DbGet(DoAll(db, ops[..i]), k) == if e.key == k then e.value else DbGet(DoAll(db, ops[..i - 1]), k)
  {
    assert ops[..i][..i - 1] == ops[..i - 1];
  }

  lemma DoNothing(db: Db, ops: seq<Op>)
    ensures DoAll(db, ops[..0]) == db
  {}

  /** A whole batch becomes visible at once, and in the order of its operations. */
  lemma {:induction false} BatchShows(es: iset<Entry>, db: Db, ops: seq<Op>, i: nat, s: nat, k: UserKey)
    requires i <= |ops| && Shows(es, k, s, DbGet(db, k)) && HoldsBatch(es, ops, s)
    ensures Shows(es, k, s + i, DbGet(DoAll(db, ops[..i]), k))
  {
    hide HoldsBatch, Shows, DoAll;
    if i > 0 {
      BatchShows(es, db, ops, i - 1, s, k);
      var e := BatchEntry(es, ops, i - 1, s);
      ShowsNext(es, k, s + i - 1, DbGet(DoAll(db, ops[..i - 1]), k), e);
      DoStep(db, ops, i, s + i, k);
    } else {
      DoNothing(db, ops);
    }
  }

  lemma LaterReadOk(mems: seq<iset<Entry>>, lastSeq: nat, lastSeq': nat, r: Read)
    requires ReadOk(mems, lastSeq, r) && lastSeq' >= lastSeq
    ensures ReadOk(mems, lastSeq', r)
  {
    hide Shape, Shows, GoodView, VersionEntries;
  }

  /** The end of a write: all its sequence numbers become visible. */
  lemma FinishSeq(mems: seq<iset<Entry>>, imm: iset<Entry>, ve: iset<Entry>, lastSeq: nat, batch: Option<Batch>)
    requires mems != [] && SeqOk(mems, imm, ve, lastSeq, batch) && batch.Some?
    ensures forall s' :: s' >= lastSeq + |Inserted(batch)| ==> SeqOk(mems, imm, ve, s', None)
    ensures HoldsBatch(mems[|mems| - 1] + imm + ve, Inserted(batch), lastSeq)
  {
    assert Bounded(mems[|mems| - 1], lastSeq + |Inserted(batch)|);
  }

  lemma FinishWriteKeeps(s: State, s': State, ops: seq<Op>)
    requires Inv(s) && s.batch == Some(Batch(ops, |ops|))
    requires s' == s.(lastSeq := s.lastSeq + |ops|, db := DoAll(s.db, ops), batch := None)
    ensures Inv(s')
  {
    hide Shape, JobOk, NumbersOk, Listed, Shows, GoodView, VersionEntries, ReadOk, DoAll, HoldsBatch, SeqOk;
    FinishSeq(s.mems, ImmOf(s.mems, |s.mems| - 1, s.imm), VersionEntries(s.v), s.lastSeq, s.batch);
    assert Inserted(s.batch) == ops;
    assert ops[..|ops|] == ops;
    forall k
      ensures Shows(All(s'), k, s'.lastSeq, DbGet(s'.db, k))
    {
      BatchShows(All(s), s.db, ops, |ops|, s.lastSeq, k);
    }
    forall id | id in s'.readers
      ensures ReadOk(s'.mems, s'.lastSeq, s'.readers[id])
    {
      LaterReadOk(s.mems, s.lastSeq, s'.lastSeq, s.readers[id]);
    }
  }

  lemma FailWriteKeeps(s: State, s': State)
    requires Inv(s) && s.batch.Some? && s.batch.value.done == 0
    requires s' == s.(lastSeq := s.lastSeq + |s.batch.value.ops|, batch := None)
    ensures Inv(s')
  {
    hide Shape, JobOk, NumbersOk, Listed, Shows, GoodView, VersionEntries, ReadOk;
    assert Inserted(s.batch) == [];
    FinishSeq(s.mems, ImmOf(s.mems, |s.mems| - 1, s.imm), VersionEntries(s.v), s.lastSeq, s.batch);
    assert Bounded(All(s), s.lastSeq);
    hide SeqOk;
    forall k
      ensures Shows(All(s'), k, s'.lastSeq, DbGet(s'.db, k))
    {
      ShowsAbove(All(s), k, s.lastSeq, s'.lastSeq, DbGet(s.db, k));
    }
    forall id | id in s'.readers
      ensures ReadOk(s'.mems, s'.lastSeq, s'.readers[id])
    {
      LaterReadOk(s.mems, s.lastSeq, s'.lastSeq, s.readers[id]);
    }
  }

  lemma RotateParts(mems: seq<iset<Entry>>, v: Files, lastSeq: nat)
    requires mems != [] && GoodView(mems, |mems| - 1, false, v)
    requires SeqOk(mems, iset{}, VersionEntries(v), lastSeq, None)
    ensures var mems' := mems + [iset{}];
      && GoodView(mems', |mems|, true, v) && ImmOf(mems', |mems|, true) == mems[|mems| - 1]
      && SeqOk(mems', mems[|mems| - 1], VersionEntries(v), lastSeq, None)
      && View(mems', |mems|, true, v) == View(mems, |mems| - 1, false, v)
  {
    hide Shape, VersionEntries;
    var mems' := mems + [iset{}];
    assert ImmOf(mems, |mems| - 1, false) == iset{};
    assert AllBounded(mems', lastSeq);
    assert Bounded(mems[|mems| - 1], lastSeq);
    assert View(mems', |mems|, true, v) == mems'[|mems|] + mems[|mems| - 1] + VersionEntries(v);
  }

  lemma RotateKeeps(s: State, s': State)
    requires Inv(s) && s.batch == None && !s.imm
    requires s' == s.(mems := s.mems + [iset{}], imm := true, nextFile := s.nextFile + 1)
    ensures Inv(s')
  {
    hide Shape, JobOk, Shows, Listed, VersionEntries, GoodView, SeqOk, ReadOk, Inserted;
    assert ImmOf(s.mems, |s.mems| - 1, false) == iset{} && s.batch == None;
    RotateParts(s.mems, s.v, s.lastSeq);
    assert NumbersOk(s'.v, s'.nextFile, s'.reserved);
    assert All(s') == All(s);
    hide NumbersOk, View, All, ImmOf;
    forall id | id in s'.readers
      ensures ReadOk(s'.mems, s'.lastSeq, s'.readers[id])
    {
      RotateKeepsRead(s.mems, s.lastSeq, s.readers[id]);
    }
    assert ViewOk(s');
    assert SeqOk(s'.mems, ImmOf(s'.mems, |s'.mems| - 1, s'.imm), VersionEntries(s'.v), s'.lastSeq, s'.batch);
    assert ShowsDb(All(s'), s'.lastSeq, s'.db);
  }

  lemma RotateKeepsRead(mems: seq<iset<Entry>>, lastSeq: nat, r: Read)
    requires ReadOk(mems, lastSeq, r)
    ensures ReadOk(mems + [iset{}], lastSeq, r)
  {
    hide Shape, Shows, VersionEntries;
    var mems' := mems + [iset{}];
    assert mems'[r.mem] == mems[r.mem] && ImmOf(mems', r.mem, r.imm) == ImmOf(mems, r.mem, r.imm);
    assert View(mems', r.mem, r.imm, r.v) == View(mems, r.mem, r.imm, r.v);
  }

  lemma StartReadKeeps(s: State, s': State, id: nat, k: UserKey)
    requires Inv(s)
    requires s' == s.(readers := s.readers[id := Read(k, s.lastSeq, |s.mems| - 1, s.imm, s.v, DbGet(s.db, k))])
    ensures Inv(s')
  {
    hide Shape, JobOk, Shows, NumbersOk, Listed, VersionEntries, GoodView;
    assert ReadOk(s.mems, s.lastSeq, Read(k, s.lastSeq, |s.mems| - 1, s.imm, s.v, DbGet(s.db, k)));
    hide SeqOk, ReadOk, View, ShowsDb;
  }

  // ---------------------------------------------------------------- changing the version

  lemma NothingNewer(es: iset<Entry>)
    ensures Newer(es, iset{}) && Distinct(iset{}) && Bounded(iset{}, 0)
  {}

  lemma SmallerView(mems: seq<iset<Entry>>, imm: bool, imm': bool, v: Files, v': Files)
    requires mems != [] && GoodView(mems, |mems| - 1, imm, v) && (imm' ==> imm) && Shape(v')
    requires Newer(Upper(mems, |mems| - 1, imm'), VersionEntries(v'))
    ensures GoodView(mems, |mems| - 1, imm', v')
  {
    hide Shape, VersionEntries;
    NothingNewer(mems[|mems| - 1]);
  }

  lemma SmallerSeq(mems: seq<iset<Entry>>, imm: iset<Entry>, imm': iset<Entry>, ve: iset<Entry>, ve': iset<Entry>,
      lastSeq: nat, batch: Option<Batch>)
    requires mems != [] && SeqOk(mems, imm, ve, lastSeq, batch) && imm' <= imm && Bounded(ve', lastSeq)
    ensures SeqOk(mems, imm', ve', lastSeq, batch)
  {}

  /** A step that only changes the version: what remains to be shown of the invariant. */
  lemma VersionChanged(s: State, s': State)
    requires Inv(s) && s'.mems == s.mems && s'.lastSeq == s.lastSeq && s'.batch == s.batch && s'.db == s.db
    requires s'.readers == s.readers && (s'.imm ==> s.imm) && |s'.v| == LEVELS && Listed(s'.v)
    requires NumbersOk(s'.v, s'.nextFile, s'.reserved) && Shape(s'.v)
    requires (s'.job.Some? ==> JobOk(s'.v, s'.job.value))
    requires Bounded(VersionEntries(s'.v), s.lastSeq)
    requires Newer(Upper(s.mems, |s.mems| - 1, s'.imm), VersionEntries(s'.v))
    requires forall k, val :: Shows(All(s), k, s.lastSeq, val) ==> Shows(All(s'), k, s.lastSeq, val)
    ensures Inv(s')
  {
    var cur := |s.mems| - 1;
    SmallerView(s.mems, s.imm, s'.imm, s.v, s'.v);
    SmallerSeq(s.mems, ImmOf(s.mems, cur, s.imm), ImmOf(s.mems, cur, s'.imm), VersionEntries(s.v), VersionEntries(s'.v),
               s.lastSeq, s.batch);
    hide SeqOk, Shape, JobOk, Shows, NumbersOk, Listed, VersionEntries, GoodView, View, Bounded, ReadOk;
  }

  lemma JobInputWithin(v: Files, j: Job)
    requires JobOk(v, j)
    ensures VersionEntries(j.input) <= VersionEntries(v)
  {
    hide Shape, ValidInputs;
    forall e | InVersion(j.input, e)
      ensures InVersion(v, e)
    {
      var l :| 0 <= l < |j.input| && InLevel(j.input[l], e);
      var f :| f in j.input[l] && e in f.entries;
      assert f in v[l];
      assert InLevel(v[l], e);
    }
  }

  lemma FlushKeeps(s: State, s': State, es: seq<Entry>)
    requires Inv(s) && s.imm && |s.mems| > 1 && Sorted(es) && Contents(es) == s.mems[|s.mems| - 2]
    requires s' == s.(v := if es == [] then s.v else Live(s.v, FlushEdit(Table(s.nextFile, es))),
                      imm := false, nextFile := s.nextFile + 1)
    ensures Inv(s')
  {
    var cur := |s.mems| - 1;
    assert ImmOf(s.mems, cur, s.imm) == Contents(es);
    hide Live, FlushEdit, Shape, JobOk, Shows, NumbersOk, Listed, VersionEntries, SeqOk, ReadOk;
    if es == [] {
      FlushNothing(s, s');
    } else {
      FlushSome(s, s', Table(s.nextFile, es));
    }
  }

  lemma InvBounds(s: State)
    requires Inv(s)
    ensures Bounded(ImmOf(s.mems, |s.mems| - 1, s.imm), s.lastSeq) && Bounded(VersionEntries(s.v), s.lastSeq)
    ensures Newer(Upper(s.mems, |s.mems| - 1, s.imm), VersionEntries(s.v)) && Shape(s.v)
  {
    hide Shape, VersionEntries, Shows, JobOk;
  }

  lemma FlushNothing(s: State, s': State)
    requires Inv(s) && s.imm && s' == s.(imm := false, nextFile := s.nextFile + 1)
    requires ImmOf(s.mems, |s.mems| - 1, s.imm) == iset{}
    ensures Inv(s')
  {
    hide Shape, JobOk, Shows, Listed, VersionEntries, SeqOk, ReadOk;
    assert All(s') == All(s);
    assert NumbersOk(s'.v, s'.nextFile, s'.reserved);
    hide NumbersOk;
    InvBounds(s);
    VersionChanged(s, s');
  }

  lemma FlushSome(s: State, s': State, f: File)
    requires Inv(s) && s.imm && Contents(f.entries) == ImmOf(s.mems, |s.mems| - 1, s.imm) && f.number == s.nextFile
    requires s' == s.(v := Live(s.v, FlushEdit(f)), imm := false, nextFile := s.nextFile + 1)
    ensures Inv(s')
  {
    hide Live, FlushEdit, Shape, JobOk, Shows, Listed, VersionEntries, SeqOk, ReadOk;
    forall g | g in s.v[0]
      ensures g.number < f.number
    {
      assert Has(s.v, 0, g);
    }
    FlushShape(s.v, f);
    FlushNumbers(s.v, s'.v, s.nextFile, s.reserved, f);
    if s.job.Some? { FlushKeepsJob(s.v, s'.v, s.job.value, f); }
    hide NumbersOk;
    assert All(s') == All(s);
    InvBounds(s);
    VersionChanged(s, s');
  }

  lemma FlushKeepsJob(v: Files, v': Files, j: Job, f: File)
    requires JobOk(v, j) && |v'| == LEVELS && Newer(Contents(f.entries), VersionEntries(v))
    requires (forall g :: g in v'[0] <==> g in v[0] || g == f) && (forall l :: 1 <= l < LEVELS ==> v'[l] == v[l])
    ensures JobOk(v', j)
  {
    JobInputWithin(v, j);
    hide Shape, ValidInputs;
  }

  lemma FlushNumbers(v: Files, v': Files, nextFile: nat, reserved: set<nat>, f: File)
    requires |v| == |v'| == LEVELS && NumbersOk(v, nextFile, reserved) && f.number == nextFile
    requires (forall g :: g in v'[0] <==> g in v[0] || g == f) && (forall l :: 1 <= l < LEVELS ==> v'[l] == v[l])
    ensures NumbersOk(v', nextFile + 1, reserved)
  {
    forall l, g | Has(v', l, g)
      ensures Has(v, l, g) || (l == 0 && g == f)
    {}
  }

  lemma MergeNumbers(v: Files, v': Files, level: nat, in0: seq<File>, in1: seq<File>, outs: seq<File>,
                     nextFile: nat, reserved: set<nat>, reserved': set<nat>)
    requires NumbersOk(v, nextFile, reserved) && Replaced(v, v', level, in0, in1, outs) && reserved' <= reserved
    requires forall o :: o in outs ==> o.number < nextFile && o.number !in reserved'
    requires forall o, l, f :: o in outs && Has(v, l, f) && f.number == o.number ==> l == level && f in in0
    requires forall o, p :: o in outs && p in outs && o.number == p.number ==> o == p
    ensures NumbersOk(v', nextFile, reserved')
  {
    forall l, g | Has(v', l, g)
      ensures (l == level + 1 && g in outs) || (Has(v, l, g) && !(l == level && g in in0))
    {}
  }

  lemma OutsDistinct(outs: seq<File>)
    requires forall i, j :: 0 <= i < j < |outs| ==> outs[i].number != outs[j].number
    ensures forall o, p :: o in outs && p in outs && o.number == p.number ==> o == p
  {}

  lemma MoveReplaceable(v: Files, level: nat, f: File)
    requires Shape(v) && ValidInputs(v, level, [f], [])
    ensures Replaceable(v, level, [f], [], [f])
  {
    hide Newer, Stacked;
    assert f in [f];
    var s, l :| IsHull([f], s, l) && NextInputs(v[level + 1], [], s.key, l.key);
    assert s.key == f.Lo() && l.key == f.Hi();
    forall h | h in v[level + 1]
      ensures Apart(h, f)
    {
      assert h !in [];
      assert !Overlaps(h, s.key, l.key);
    }
    forall g | g in v[level] && g !in [f]
      ensures Newer(Contents(g.entries), LevelEntries([f]))
    {
      NoSharedKeys(v, level, [f], [], g);
    }
    forall e | e in f.entries
      ensures InInputs([f], [], e)
    {}
  }

  lemma MoveEntries(v: Files, v': Files, level: nat, f: File)
    requires Replaced(v, v', level, [f], [], [f]) && f in v[level]
    ensures VersionEntries(v') == VersionEntries(v)
  {
    forall e | InVersion(v', e)
      ensures InVersion(v, e)
    {
      var l: nat :| l < |v'| && InLevel(v'[l], e);
      var g: File :| g in v'[l] && e in g.entries;
      MovedFile(v, v', level, f, l, g);
      assert InLevel(v[if g in v[l] then l else level], e);
    }
    forall e | InVersion(v, e)
      ensures InVersion(v', e)
    {
      var l: nat :| l < |v| && InLevel(v[l], e);
      var g: File :| g in v[l] && e in g.entries;
      MovedFile(v, v', level, f, l, g);
      assert InLevel(v'[if g in v'[l] then l else level + 1], e);
    }
  }

  lemma MovedFile(v: Files, v': Files, level: nat, f: File, l: nat, g: File)
    requires Replaced(v, v', level, [f], [], [f]) && f in v[level] && l < LEVELS
    ensures g in v'[l] ==> g in v[l] || (g == f && l == level + 1)
    ensures g in v[l] ==> g in v'[l] || (g == f && l == level && f in v'[level + 1])
  {
    assert forall h: File :: h in [f] <==> h == f;
    if l == level {
    } else if l == level + 1 {
      var none: seq<File> := [];
      assert g !in none;
      assert g in v'[level + 1] <==> (g in v[level + 1] && g !in none) || g in [f];
    }
  }

  lemma MoveKeeps(s: State, s': State, level: nat, f: File)
    requires Inv(s) && s.job == None && ValidInputs(s.v, level, [f], [])
    requires s' == s.(v := Live(s.v, MergeEdit(level, [f], [], [f])))
    ensures Inv(s')
  {
    hide Live, MergeEdit, Shape, JobOk, Shows, VersionEntries, SeqOk, ReadOk;
    assert f in [f] && Has(s.v, level, f);
    MoveReplaceable(s.v, level, f);
    assert NewNumbers(s.v[level + 1], [f]) by {
      forall g | g in s.v[level + 1]
        ensures g.number != f.number
      {
        assert Has(s.v, level + 1, g);
      }
    }
    hide ValidInputs;
    MergeLevels(s.v, level, [f], [], [f]);
    MergeShape(s.v, s'.v, level, [f], [], [f]);
    MoveEntries(s.v, s'.v, level, f);
    MergeNumbers(s.v, s'.v, level, [f], [], [f], s.nextFile, s.reserved, s.reserved);
    hide NumbersOk, Listed, Replaceable, Replaced, NewNumbers;
    MoveChanged(s, s');
  }

  lemma MoveChanged(s: State, s': State)
    requires Inv(s) && s' == s.(v := s'.v) && s.job == None && |s'.v| == LEVELS && Listed(s'.v) && Shape(s'.v)
    requires NumbersOk(s'.v, s'.nextFile, s'.reserved) && VersionEntries(s'.v) == VersionEntries(s.v)
    ensures Inv(s')
  {
    hide NumbersOk, Listed, Shape, Shows, VersionEntries, SeqOk, ReadOk;
    assert All(s') == All(s);
    InvBounds(s);
    VersionChanged(s, s');
  }

  lemma MergeReplaces(v: Files, v': Files, j: Job, outs: seq<File>, nextFile: nat, reserved: set<nat>)
    requires Listed(v) && JobOk(v, j) && NumbersOk(v, nextFile, reserved)
    requires Numbers(outs) <= reserved && forall i, k :: 0 <= i < k < |outs| ==> outs[i].number != outs[k].number
    requires v' == Live(v, MergeEdit(j.level, j.in0, j.in1, outs))
    ensures Listed(v') && Replaced(v, v', j.level, j.in0, j.in1, outs) && NewNumbers(v[j.level + 1], outs)
  {
    hide Live, MergeEdit, JobOk;
    InputsPresent(v, j);
    assert NewNumbers(v[j.level + 1], outs) by {
      forall g | g in v[j.level + 1]
        ensures g.number !in Numbers(outs)
      {
        assert Has(v, j.level + 1, g);
      }
    }
    MergeLevels(v, j.level, j.in0, j.in1, outs);
  }

  lemma MergeVersion(v: Files, v': Files, j: Job, input: seq<Entry>, outs: seq<File>, nextFile: nat, reserved: set<nat>)
    requires Listed(v) && Shape(v) && JobOk(v, j) && NumbersOk(v, nextFile, reserved)
    requires Replaceable(v, j.level, j.in0, j.in1, outs)
    requires Numbers(outs) <= reserved && forall i, k :: 0 <= i < k < |outs| ==> outs[i].number != outs[k].number
    requires v' == Live(v, MergeEdit(j.level, j.in0, j.in1, outs))
    ensures Listed(v') && Shape(v') && NumbersOk(v', nextFile, {})
    ensures Replaced(v, v', j.level, j.in0, j.in1, outs)
  {
    hide Live, MergeEdit, Shape, JobOk, Survive;
    OutsDistinct(outs);
    assert forall o :: o in outs ==> o.number in Numbers(outs);
    MergeReplaces(v, v', j, outs, nextFile, reserved);
    MergeShape(v, v', j.level, j.in0, j.in1, outs);
    hide Listed, Replaceable, NewNumbers;
    MergeNumbers(v, v', j.level, j.in0, j.in1, outs, nextFile, reserved, {});
  }

  lemma PartBounds(upper: iset<Entry>, ve: iset<Entry>, ve': iset<Entry>, n: nat)
    requires ve' <= ve && Newer(upper, ve) && Bounded(ve, n)
    ensures Newer(upper, ve') && Bounded(ve', n)
  {}

  ghost predicate MergeStep(s: State, s': State, j: Job, input: seq<Entry>, outs: seq<File>, rule: DropRule) {
    && s.job == Some(j) && Merged(input, j.in0, j.in1) && OutputsOf(outs, input, rule, j)
    && s.mems != [] && Harmless(All(s), j, input, outs, rule, s.lastSeq)
    && Numbers(outs) <= s.reserved && (forall i, k :: 0 <= i < k < |outs| ==> outs[i].number != outs[k].number)
    && |s.v| == LEVELS
    && s' == s.(v := Live(s.v, MergeEdit(j.level, j.in0, j.in1, outs)), job := None, reserved := {})
  }

  lemma MergeStepVersion(s: State, s': State, j: Job, input: seq<Entry>, outs: seq<File>, rule: DropRule)
    requires Inv(s) && MergeStep(s, s', j, input, outs, rule)
    ensures |s'.v| == LEVELS && Listed(s'.v) && Shape(s'.v) && NumbersOk(s'.v, s'.nextFile, s'.reserved)
    ensures Replaced(s.v, s'.v, j.level, j.in0, j.in1, outs) && VersionEntries(s'.v) <= VersionEntries(s.v)
  {
    InvBounds(s);
    hide Live, MergeEdit, Shape, JobOk, OutputsOf, Merged, NumbersOk, Listed, VersionEntries, SeqOk, ReadOk,
        Replaced, Survive, ViewOk, ShowsDb, Harmless, Replaceable, All;
    HarmlessReplaceable(All(s), s.v, j, input, outs, rule, s.lastSeq);
    MergeVersion(s.v, s'.v, j, input, outs, s.nextFile, s.reserved);
    MergeKeeps(s.v, s'.v, j, input, outs, rule);
  }

  lemma MergeStepReady(s: State, s': State, j: Job, input: seq<Entry>, outs: seq<File>, rule: DropRule)
    requires Inv(s) && MergeStep(s, s', j, input, outs, rule)
    ensures JobOk(s.v, j) && Merged(input, j.in0, j.in1) && OutputsOf(outs, input, rule, j)
    ensures s'.mems == s.mems != [] && s'.imm == s.imm
    ensures var es := Upper(s.mems, |s.mems| - 1, s.imm) + VersionEntries(s.v);
      Distinct(es) && Harmless(es, j, input, outs, rule, s.lastSeq)
  {
    ViewDistinct(s.mems, |s.mems| - 1, s.imm, s.v);
    hide Shape, JobOk, Merged, OutputsOf, Listed, NumbersOk, Live, MergeEdit, VersionEntries, SeqOk, ReadOk, ShowsDb,
        GoodView, Harmless, Upper, Distinct;
  }

  /** A harmless merge keeps the invariant. */
  lemma FinishMergeKeeps(s: State, s': State, j: Job, input: seq<Entry>, outs: seq<File>, rule: DropRule)
    requires Inv(s) && MergeStep(s, s', j, input, outs, rule)
    ensures Inv(s')
  {
    hide *;
    InvBounds(s);
    MergeStepReady(s, s', j, input, outs, rule);
    MergeStepVersion(s, s', j, input, outs, rule);
    HarmlessKeepsAll(Upper(s.mems, |s.mems| - 1, s.imm), s.v, s'.v, j, input, outs, rule, s.lastSeq);
    PartBounds(Upper(s.mems, |s.mems| - 1, s.imm), VersionEntries(s.v), VersionEntries(s'.v), s.lastSeq);
    MergeStepChanged(s, s', j, input, outs, rule);
  }

  /** As written, the store still shows the map after a merge exactly when the merge leaves its
      newest input versions unaffected. */
  lemma MapShownIff(s: State, input: seq<Entry>, outs: seq<File>)
    requires Inv(s) && s.mems != [] && |s.v| == LEVELS && Enabled(s, FinishMerge(input, outs, AsWritten))
    ensures ShowsDb(All(Apply(s, FinishMerge(input, outs, AsWritten))), s.lastSeq, s.db)
       <==> AllUnaffected(All(s), s.job.value, input, s.lastSeq)
  {
    hide Shape, Merged, OutputsOf, Listed, NumbersOk, Live, MergeEdit, VersionEntries, SeqOk, ReadOk, ShowsDb, JobOk,
        AllUnaffected, Numbers, Replaced, Upper, Bounded, Newer;
    var s' := Apply(s, FinishMerge(input, outs, AsWritten));
    var j, upper := s.job.value, Upper(s.mems, |s.mems| - 1, s.imm);
    InvBounds(s);
    ViewDistinct(s.mems, |s.mems| - 1, s.imm, s.v);
    MergeReplaces(s.v, s'.v, j, outs, s.nextFile, s.reserved);
    AsWrittenKeepsAllIff(upper, s.v, s'.v, j, input, outs, s.lastSeq);
    ShownIff(All(s), All(s'), s.lastSeq, s.db);
  }

  lemma ShownIff(es: iset<Entry>, es': iset<Entry>, s: nat, db: Db)
    requires ShowsDb(es, s, db) && Distinct(es)
    ensures ShowsDb(es', s, db) <==> StillShown(es, es', s)
  {
    hide Finds, Distinct;
    forall k, val | Shows(es, k, s, val)
      ensures val == DbGet(db, k)
    {
      var r :| Finds(es, k, s, r) && Answer(r) == val;
      var r' :| Finds(es, k, s, r') && Answer(r') == DbGet(db, k);
      FindsUnique(es, k, s, r, r');
    }
  }

  lemma MergeStepChanged(s: State, s': State, j: Job, input: seq<Entry>, outs: seq<File>, rule: DropRule)
    requires Inv(s) && MergeStep(s, s', j, input, outs, rule) && s.mems != []
    requires |s'.v| == LEVELS && Listed(s'.v) && Shape(s'.v) && NumbersOk(s'.v, s'.nextFile, s'.reserved)
    requires Bounded(VersionEntries(s'.v), s.lastSeq) && Newer(Upper(s.mems, |s.mems| - 1, s.imm), VersionEntries(s'.v))
    requires var upper := Upper(s.mems, |s.mems| - 1, s.imm);
      StillShown(upper + VersionEntries(s.v), upper + VersionEntries(s'.v), s.lastSeq)
    ensures Inv(s')
  {
    hide Inv, Listed, Shape, NumbersOk, Bounded, VersionEntries, Newer, Upper, Shows, Live, MergeEdit, Merged,
        OutputsOf, Harmless;
    VersionChanged(s, s');
  }

  // ---------------------------------------------------------------- runs

  /** If the step commits a merge, then the merge does no harm in this state. */
  ghost predicate HarmlessStep(s: State, a: Act)
    requires s.mems != [] && |s.v| == LEVELS && Enabled(s, a)
  {
    a.FinishMerge? ==> Harmless(All(s), s.job.value, a.input, a.outs, a.rule, s.lastSeq)
  }

  predicate Foreground(a: Act) {
    a.StartWrite? || a.InsertOne? || a.FinishWrite? || a.FailWrite? || a.Rotate?
  }

  /** As written, a merge keeps the invariant exactly when it does no harm. */
  lemma FinishMergeKeepsIff(s: State, input: seq<Entry>, outs: seq<File>)
    requires Inv(s) && s.mems != [] && |s.v| == LEVELS && Enabled(s, FinishMerge(input, outs, AsWritten))
    ensures Inv(Apply(s, FinishMerge(input, outs, AsWritten)))
       <==> AllApart(outs) && AllUnaffected(All(s), s.job.value, input, s.lastSeq)
  {
    hide Inv, Merged, OutputsOf, Numbers, Live, MergeEdit, All, AllUnaffected, ShowsDb, AllApart, Shape;
    var a := FinishMerge(input, outs, AsWritten);
    var s', j := Apply(s, a), s.job.value;
    if AllApart(outs) && AllUnaffected(All(s), j, input, s.lastSeq) {
      FinishMergeKeeps(s, s', j, input, outs, AsWritten);
    }
    if Inv(s') {
      MapShownIff(s, input, outs);
      InvShows(s');
      OutsApart(s, input, outs);
    }
  }

  lemma InvShows(s: State)
    requires Inv(s)
    ensures s.mems != [] && ShowsDb(All(s), s.lastSeq, s.db) && |s.v| == LEVELS && Shape(s.v)
  {
    hide Shape, ShowsDb, JobOk, Listed, NumbersOk, SeqOk, ReadOk;
  }

  lemma OutsApart(s: State, input: seq<Entry>, outs: seq<File>)
    requires Inv(s) && s.mems != [] && |s.v| == LEVELS && Enabled(s, FinishMerge(input, outs, AsWritten))
    requires Shape(Apply(s, FinishMerge(input, outs, AsWritten)).v)
    ensures AllApart(outs)
  {
    hide Merged, OutputsOf, Listed, NumbersOk, Live, MergeEdit, VersionEntries, SeqOk, ReadOk, ShowsDb, JobOk, Numbers,
        Newer, Stacked, Apart, ViewOk, Disjoint;
    var s', j := Apply(s, FinishMerge(input, outs, AsWritten)), s.job.value;
    MergeReplaces(s.v, s'.v, j, outs, s.nextFile, s.reserved);
    var below := s'.v[j.level + 1];
    forall o, p | o in outs && p in outs && o != p
      ensures Apart(o, p)
    {
      assert o in below && p in below;
      DisjointIsApart(below, o, p);
    }
  }

  lemma InsertStep(s: State)
    requires Inv(s) && s.mems != [] && |s.v| == LEVELS && Enabled(s, InsertOne)
    ensures Inv(Apply(s, InsertOne))
  {
    hide Inv, LooksUp, ValidInputs, Merged, OutputsOf, Numbers, Sorted, Contents, Live, FlushEdit, MergeEdit,
        OpEntry, DoAll, DbGet;
    var b := s.batch.value;
    InsertKeeps(s, Apply(s, InsertOne), OpEntry(b.ops[b.done], s.lastSeq + 1 + b.done));
  }

  lemma WriterStep(s: State, a: Act)
    requires Inv(s) && s.mems != [] && |s.v| == LEVELS && Enabled(s, a) && Foreground(a) && !a.InsertOne?
    ensures Inv(Apply(s, a))
  {
    hide Inv, LooksUp, ValidInputs, Merged, OutputsOf, Numbers, Sorted, Contents, Live, FlushEdit, MergeEdit,
        OpEntry, DoAll, DbGet;
    var s' := Apply(s, a);
    match a
    case StartWrite(ops) => StartWriteKeeps(s, s', ops);
    case FinishWrite => FinishWriteKeeps(s, s', s.batch.value.ops);
    case FailWrite => FailWriteKeeps(s, s');
    case Rotate => RotateKeeps(s, s');
  }

  lemma BackgroundStep(s: State, a: Act)
    requires Inv(s) && s.mems != [] && |s.v| == LEVELS && Enabled(s, a) && HarmlessStep(s, a)
    requires a.Flush? || a.Move? || a.FinishMerge?
    ensures Inv(Apply(s, a))
  {
    hide Inv, LooksUp, ValidInputs, Merged, OutputsOf, Numbers, Sorted, Contents, Live, FlushEdit, MergeEdit,
        OpEntry, DoAll, DbGet, Harmless, All;
    var s' := Apply(s, a);
    match a
    case Flush(es) => FlushKeeps(s, s', es);
    case Move(level, f) => MoveKeeps(s, s', level, f);
    case FinishMerge(input, outs, rule) => FinishMergeKeeps(s, s', s.job.value, input, outs, rule);
  }

  /** Every step of the store keeps the invariant, but for merges that do harm. */
  lemma StepKeeps(s: State, a: Act)
    requires Inv(s) && s.mems != [] && |s.v| == LEVELS && Enabled(s, a) && HarmlessStep(s, a)
    ensures Inv(Apply(s, a))
  {
    hide Harmless;
    if a.InsertOne? {
      InsertStep(s);
    } else if Foreground(a) {
      WriterStep(s, a);
    } else if a.Flush? || a.Move? || a.FinishMerge? {
      BackgroundStep(s, a);
    } else {
      OtherStep(s, a);
    }
  }

  lemma OtherStep(s: State, a: Act)
    requires Inv(s) && s.mems != [] && |s.v| == LEVELS && Enabled(s, a)
        && (a.StartMerge? || a.Reserve? || a.StartRead? || a.EndRead?)
    ensures Inv(Apply(s, a))
  {
    hide Inv, LooksUp, ValidInputs, Merged, OutputsOf, Numbers, Sorted, Contents, Live, FlushEdit, MergeEdit,
        OpEntry, DoAll, DbGet;
    var s' := Apply(s, a);
    match a
    case StartMerge(level, in0, in1) => StartMergeKeeps(s, s', level, in0, in1);
    case Reserve => ReserveKeeps(s, s');
    case StartRead(id, k) => StartReadKeeps(s, s', id, k);
    case EndRead(id, ans) => EndReadKeeps(s, s', id);
  }

  lemma StartWriteKeeps(s: State, s': State, ops: seq<Op>)
    requires Inv(s) && s.batch == None && s' == s.(batch := Some(Batch(ops, 0)))
    ensures Inv(s')
  {
    assert Inserted(s.batch) == Inserted(s'.batch) == [];
    hide Shape, JobOk, NumbersOk, Listed, Shows, VersionEntries, ReadOk, GoodView, View;
  }

  lemma StartMergeKeeps(s: State, s': State, level: nat, in0: seq<File>, in1: seq<File>)
    requires Inv(s) && ValidInputs(s.v, level, in0, in1) && s' == s.(job := Some(Job(level, in0, in1, s.v)))
    ensures Inv(s')
  {
    FreshJobOk(s.v, level, in0, in1);
    hide Shape, JobOk, ValidInputs, NumbersOk, Listed, Shows, VersionEntries, ReadOk, SeqOk, GoodView, View;
  }

  lemma FreshJobOk(v: Files, level: nat, in0: seq<File>, in1: seq<File>)
    requires Shape(v) && ValidInputs(v, level, in0, in1)
    ensures JobOk(v, Job(level, in0, in1, v))
  {
    assert |v| == LEVELS;
    hide Shape, ValidInputs;
  }

  lemma ReserveKeeps(s: State, s': State)
    requires Inv(s) && s' == s.(reserved := s.reserved + {s.nextFile}, nextFile := s.nextFile + 1)
    ensures Inv(s')
  {
    hide Shape, ValidInputs, JobOk, Listed, Shows, VersionEntries, ReadOk, SeqOk, GoodView, View;
  }

  lemma EndReadKeeps(s: State, s': State, id: nat)
    requires Inv(s) && s' == s.(readers := s.readers - {id})
    ensures Inv(s')
  {
    hide Shape, ValidInputs, JobOk, Listed, Shows, NumbersOk, VersionEntries, ReadOk, SeqOk, GoodView, View;
  }

  lemma InitInv()
    ensures Inv(Init())
  {
    InitShape(Init().v);
    assert ImmOf(Init().mems, 0, false) == iset{} && All(Init()) == iset{};
    hide Shape;
    forall k
      ensures Shows(All(Init()), k, 0, DbGet(Init().db, k))
    {
      assert Finds(All(Init()), k, 0, None);
    }
  }

  lemma InitShape(v: Files)
    requires |v| == LEVELS && forall l :: 0 <= l < LEVELS ==> v[l] == []
    ensures Shape(v) && Listed(v) && VersionEntries(v) == iset{}
  {
    forall e ensures !InVersion(v, e) {}
  }

  /** A run the store can take: every step is enabled where it is taken. */
  ghost predicate Legal(s: State, run: seq<Act>)
    requires s.mems != [] && |s.v| == LEVELS
    decreases |run|
  {
    run == [] || (Enabled(s, run[0]) && Legal(Apply(s, run[0]), run[1..]))
  }

  ghost function Exec(s: State, run: seq<Act>): (s': State)
    requires s.mems != [] && |s.v| == LEVELS && Legal(s, run)
    ensures s'.mems != [] && |s'.v| == LEVELS
    decreases |run|
  {
    if run == [] then s else Exec(Apply(s, run[0]), run[1..])
  }

  /** No merge in the run does harm where it commits. */
  ghost predicate HarmlessRun(s: State, run: seq<Act>)
    requires s.mems != [] && |s.v| == LEVELS && Legal(s, run)
    decreases |run|
  {
    run == [] || (HarmlessStep(s, run[0]) && HarmlessRun(Apply(s, run[0]), run[1..]))
  }

  /** Every state on the way satisfies the invariant. */
  ghost predicate InvAlong(s: State, run: seq<Act>)
    requires s.mems != [] && |s.v| == LEVELS && Legal(s, run)
    decreases |run|
  {
    Inv(s) && (run != [] ==> InvAlong(Apply(s, run[0]), run[1..]))
  }

  /** A run keeps the invariant all the way exactly when no merge in it does harm. */
  lemma {:induction false} InvAlongIff(s: State, run: seq<Act>)
    requires s.mems != [] && |s.v| == LEVELS && Legal(s, run) && Inv(s)
    ensures InvAlong(s, run) <==> HarmlessRun(s, run)
    decreases |run|
  {
    hide Inv, Apply, Enabled, AllApart, AllUnaffected, All;
    if run != [] {
      var a := run[0];
      if HarmlessStep(s, a) {
        StepKeeps(s, a);
      } else {
        FinishMergeKeepsIff(s, a.input, a.outs);
      }
      if Inv(Apply(s, a)) {
        InvAlongIff(Apply(s, a), run[1..]);
      } else {
        assert !InvAlong(Apply(s, a), run[1..]);
      }
    }
  }

  /** The repaired rule never does harm. */
  lemma {:induction false} RepairedIsHarmless(s: State, run: seq<Act>)
    requires s.mems != [] && |s.v| == LEVELS && Legal(s, run)
    requires forall i :: 0 <= i < |run| ==> run[i].FinishMerge? ==> run[i].rule == Repaired
    ensures HarmlessRun(s, run)
    decreases |run|
  {
    hide Apply, Enabled;
    if run != [] { RepairedIsHarmless(Apply(s, run[0]), run[1..]); }
  }

  lemma {:induction false} RunKeeps(s: State, run: seq<Act>)
    requires s.mems != [] && |s.v| == LEVELS && Legal(s, run) && Inv(s) && HarmlessRun(s, run)
    ensures Inv(Exec(s, run))
    decreases |run|
  {
    hide Apply, Enabled, Shape, Listed, NumbersOk, JobOk, ReadOk, SeqOk, ShowsDb, GoodView, HarmlessStep;
    if run != [] {
      StepKeeps(s, run[0]);
      RunKeeps(Apply(s, run[0]), run[1..]);
    }
  }

  /** The store reads like a plain map: after every run, a lookup at the last sequence number in
      the memtable, the immutable memtable and the version gives the map's answer. */
  lemma ReadsLikeMap(run: seq<Act>, k: UserKey, ans: Option<Bytes>)
    requires Legal(Init(), run) && HarmlessRun(Init(), run)
    requires var s := Exec(Init(), run); LooksUp(s.mems, |s.mems| - 1, s.imm, s.v, k, s.lastSeq, ans)
    ensures ans == DbGet(Exec(Init(), run).db, k)
  {
    hide Inv, Legal, Exec, LooksUp, HarmlessRun;
    InitInv();
    RunKeeps(Init(), run);
    NowShows(Exec(Init(), run), k, ans);
  }

  lemma NowShows(s: State, k: UserKey, ans: Option<Bytes>)
    requires Inv(s) && LooksUp(s.mems, |s.mems| - 1, s.imm, s.v, k, s.lastSeq, ans)
    ensures ans == DbGet(s.db, k)
  {
    hide LooksUp, Shape, JobOk, NumbersOk, Listed, SeqOk, ReadOk, Shows, GoodView, View, VersionEntries;
    LookupShows(s.mems, |s.mems| - 1, s.imm, s.v, k, s.lastSeq, ans, DbGet(s.db, k));
  }

  lemma ReadAnswers(mems: seq<iset<Entry>>, lastSeq: nat, r: Read, ans: Option<Bytes>)
    requires ReadOk(mems, lastSeq, r) && LooksUp(mems, r.mem, r.imm, r.v, r.key, r.sn, ans)
    ensures ans == r.want
  {
    hide LooksUp, Shape, Shows, GoodView, View, VersionEntries;
    LookupShows(mems, r.mem, r.imm, r.v, r.key, r.sn, ans, r.want);
  }

  lemma ReaderShows(s: State, id: nat, ans: Option<Bytes>)
    requires Inv(s) && s.mems != [] && |s.v| == LEVELS && Enabled(s, EndRead(id, ans))
    ensures ans == s.readers[id].want
  {
    hide LooksUp, ReadOk, ViewOk, JobOk, NumbersOk, Listed, SeqOk, ShowsDb, ValidInputs, Merged, OutputsOf, Numbers,
        Sorted, Contents;
    var r := s.readers[id];
    ReadAnswers(s.mems, s.lastSeq, r, ans);
  }

  /** Readers see a snapshot: whatever writes, rotations, flushes, moves and merges happen between
      the two lock sections of a read, it ends with the map's answer at its start. */
  lemma ReadsAreSnapshots(run: seq<Act>, id: nat, ans: Option<Bytes>)
    requires Legal(Init(), run) && HarmlessRun(Init(), run)
    requires Enabled(Exec(Init(), run), EndRead(id, ans))
    ensures ans == Exec(Init(), run).readers[id].want
  {
    hide Inv, Legal, Exec, HarmlessRun;
    InitInv();
    RunKeeps(Init(), run);
    ReaderShows(Exec(Init(), run), id, ans);
  }
}
