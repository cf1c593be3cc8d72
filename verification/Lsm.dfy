/** The store as a state machine: writes, memtable rotation, flushes (also in the middle of a
    compaction), file moves, merges and concurrent readers. Every run reads like a plain map. */
module Lsm {
  import opened Base
  import opened Entries
  import opened Version
  import opened Manifest
  import opened Pick
  import opened Compaction
  import opened Edits
  import opened Merge

  datatype Op = Put(key: UserKey, value: Bytes) | Delete(key: UserKey)

  function OpEntry(op: Op, sn: nat): (e: Entry) {
    match op
    case Put(k, v) => Entry(k, sn, Some(v))
    case Delete(k) => Entry(k, sn, None)
  }

  // ---------------------------------------------------------------- the plain map

  type Db = map<UserKey, Bytes>

  function Do(db: Db, op: Op): (r: Db) {
    match op
    case Put(k, v) => db[k := v]
    case Delete(k) => db - {k}
  }

  function DoAll(db: Db, ops: seq<Op>): (r: Db) {
    if ops == [] then db else Do(DoAll(db, ops[..|ops| - 1]), ops[|ops| - 1])
  }

  function DbGet(db: Db, k: UserKey): (r: Option<Bytes>) {
    if k in db then Some(db[k]) else None
  }

  /** The last operation on a key decides what the map says of it; without one nothing changes. */
  lemma {:induction false} LastOpDecides(db: Db, ops: seq<Op>, k: UserKey, i: nat)
    requires i <= |ops| && (i < |ops| ==> ops[i].key == k)
    requires forall j :: (if i < |ops| then i < j else 0 <= j) && j < |ops| ==> ops[j].key != k
    ensures DbGet(DoAll(db, ops), k) ==
      if i == |ops| then DbGet(db, k)
      else match ops[i]
           case Put(_, v) => Some(v)
           case Delete(_) => None
  {
    if ops != [] && i != |ops| - 1 {
      assert ops[|ops| - 1].key != k;
      LastOpDecides(db, ops[..|ops| - 1], k, if i < |ops| then i else |ops| - 1);
    }
  }

  // ---------------------------------------------------------------- states

  /** A merged write batch whose leader has released the lock: `done` of its operations are in
      the memtable. */
  datatype Batch = Batch(ops: seq<Op>, done: nat)

  /** A reader between its two lock sections: it holds references to a memtable, perhaps an
      immutable one, and a version. `want` is the plain map's answer when it started. */
  datatype Read = Read(key: UserKey, sn: nat, mem: nat, imm: bool, v: Files, want: Option<Bytes>)

  /** `mems` lists every memtable ever created, the current one last; if `imm` is set, the one
      before it is waiting to be flushed. `reserved` are the numbers of files being written. */
  datatype State = State(
    mems: seq<iset<Entry>>, imm: bool, v: Files,
    lastSeq: nat, nextFile: nat, reserved: set<nat>,
    batch: Option<Batch>, job: Option<Job>, readers: map<nat, Read>, db: Db)

  ghost function Init(): (s: State)
    ensures s.mems == [iset{}] && |s.v| == LEVELS
  {
    State([iset{}], false, seq(LEVELS, _ => []), 0, 2, {}, None, None, map[], map[])
  }

  ghost function ImmOf(mems: seq<iset<Entry>>, mem: nat, imm: bool): (r: iset<Entry>) {
    if imm && 0 < mem <= |mems| then mems[mem - 1] else iset{}
  }

  ghost function Upper(mems: seq<iset<Entry>>, mem: nat, imm: bool): (r: iset<Entry>)
    requires mem < |mems|
  {
    mems[mem] + ImmOf(mems, mem, imm)
  }

  /** Everything a reader of these parts can come across. */
  ghost function View(mems: seq<iset<Entry>>, mem: nat, imm: bool, v: Files): (r: iset<Entry>)
    requires mem < |mems|
  {
    Upper(mems, mem, imm) + VersionEntries(v)
  }

  ghost function All(s: State): (r: iset<Entry>)
    requires s.mems != []
  {
    View(s.mems, |s.mems| - 1, s.imm, s.v)
  }

  /** DBImpl::Get: the memtable, on a miss the immutable memtable, on a miss the version. */
  ghost predicate LooksUp(mems: seq<iset<Entry>>, mem: nat, imm: bool, v: Files, k: UserKey, s: nat, ans: Option<Bytes>)
    requires mem < |mems|
  {
    exists r1, r2, r3 ::
      && Finds(mems[mem], k, s, r1)
      && (r1.None? ==> Finds(ImmOf(mems, mem, imm), k, s, r2))
      && (r1.None? && r2.None? ==> Finds(VersionEntries(v), k, s, r3))
      && ans == Answer(if r1.Some? then r1 else if r2.Some? then r2 else r3)
  }

  // ---------------------------------------------------------------- steps

  datatype Act =
    | StartWrite(ops: seq<Op>)
    | InsertOne
    | FinishWrite
    | FailWrite
    | Rotate
    | Flush(es: seq<Entry>)
    | Move(level: nat, file: File)
    | StartMerge(level: nat, in0: seq<File>, in1: seq<File>)
    | Reserve
    | FinishMerge(input: seq<Entry>, outs: seq<File>, rule: DropRule)
    | StartRead(id: nat, key: UserKey)
    | EndRead(id: nat, ans: Option<Bytes>)

  ghost predicate Enabled(s: State, a: Act)
    requires s.mems != [] && |s.v| == LEVELS
  {
    match a
    case StartWrite(ops) => s.batch == None
    case InsertOne => s.batch.Some? && s.batch.value.done < |s.batch.value.ops|
    case FinishWrite => s.batch.Some? && s.batch.value.done == |s.batch.value.ops|
    // The log append failed: nothing is inserted, but the sequence numbers are used up.
    case FailWrite => s.batch.Some? && s.batch.value.done == 0
    // Rotation is the leader's own doing, before it starts writing.
    case Rotate => s.batch == None && !s.imm
    // One background job: a flush runs alone or from inside a merge.
    case Flush(es) => s.imm && |s.mems| > 1 && Sorted(es) && Contents(es) == s.mems[|s.mems| - 2]
    case Move(level, f) => s.job == None && !s.imm && ValidInputs(s.v, level, [f], [])
    case StartMerge(level, in0, in1) => s.job == None && !s.imm && ValidInputs(s.v, level, in0, in1)
    case Reserve => s.job.Some?
    case FinishMerge(input, outs, rule) =>
      && s.job.Some? && Merged(input, s.job.value.in0, s.job.value.in1)
      && OutputsOf(outs, input, rule, s.job.value)
      && Numbers(outs) <= s.reserved
      && (forall i, j :: 0 <= i < j < |outs| ==> outs[i].number != outs[j].number)
    case StartRead(id, k) => id !in s.readers
    case EndRead(id, ans) =>
      id in s.readers && s.readers[id].mem < |s.mems|
      && LooksUp(s.mems, s.readers[id].mem, s.readers[id].imm, s.readers[id].v, s.readers[id].key, s.readers[id].sn,
          ans)
  }

  ghost function Apply(s: State, a: Act): (s': State)
    requires s.mems != [] && |s.v| == LEVELS && Enabled(s, a)
    ensures s'.mems != [] && |s'.v| == LEVELS
  {
    var cur := |s.mems| - 1;
    match a
    case StartWrite(ops) => s.(batch := Some(Batch(ops, 0)))
    case InsertOne =>
      var b := s.batch.value;
      s.(mems := s.mems[cur := s.mems[cur] + iset{OpEntry(b.ops[b.done], s.lastSeq + 1 + b.done)}],
         batch := Some(Batch(b.ops, b.done + 1)))
    case FinishWrite =>
      s.(lastSeq := s.lastSeq + |s.batch.value.ops|, db := DoAll(s.db, s.batch.value.ops), batch := None)
    case FailWrite => s.(lastSeq := s.lastSeq + |s.batch.value.ops|, batch := None)
    case Rotate => s.(mems := s.mems + [iset{}], imm := true, nextFile := s.nextFile + 1)
    case Flush(es) =>
      s.(v := if es == [] then s.v else Live(s.v, FlushEdit(Table(s.nextFile, es))),
         imm := false, nextFile := s.nextFile + 1)
    case Move(level, f) => s.(v := Live(s.v, MergeEdit(level, [f], [], [f])))
    case StartMerge(level, in0, in1) => s.(job := Some(Job(level, in0, in1, s.v)))
    case Reserve => s.(reserved := s.reserved + {s.nextFile}, nextFile := s.nextFile + 1)
    case FinishMerge(input, outs, rule) =>
      var j := s.job.value;
      s.(v := Live(s.v, MergeEdit(j.level, j.in0, j.in1, outs)), job := None, reserved := {})
    case StartRead(id, k) => s.(readers := s.readers[id := Read(k, s.lastSeq, cur, s.imm, s.v, DbGet(s.db, k))])
    case EndRead(id, ans) => s.(readers := s.readers - {id})
  }

  // ---------------------------------------------------------------- the invariant

  /** The parts of a view are layered: memtable over immutable memtable over version. */
  ghost predicate GoodView(mems: seq<iset<Entry>>, mem: nat, imm: bool, v: Files) {
    && mem < |mems| && Shape(v)
    && Distinct(mems[mem]) && Distinct(ImmOf(mems, mem, imm))
    && Newer(mems[mem], ImmOf(mems, mem, imm))
    && Newer(Upper(mems, mem, imm), VersionEntries(v))
  }

  /** The operations ops carry the sequence numbers after s, in order, and nothing else does. */
  ghost predicate HoldsBatch(es: iset<Entry>, ops: seq<Op>, s: nat) {
    && (forall e :: e in es && e.sn > s ==> e.sn <= s + |ops| && e == OpEntry(ops[e.sn - s - 1], e.sn))
    && (forall i :: 0 <= i < |ops| ==> OpEntry(ops[i], s + 1 + i) in es)
  }

  /** The inserted part of the batch under way. */
  ghost function Inserted(batch: Option<Batch>): (ops: seq<Op>) {
    if batch.Some? && batch.value.done <= |batch.value.ops| then batch.value.ops[..batch.value.done] else []
  }

  ghost predicate ViewOk(s: State) {
    && s.mems != [] && (s.imm ==> |s.mems| > 1)
    && GoodView(s.mems, |s.mems| - 1, s.imm, s.v)
  }

  ghost predicate AllBounded(mems: seq<iset<Entry>>, top: nat) {
    forall i :: 0 <= i < |mems| ==> Bounded(mems[i], top)
  }

  /** Only the memtable holds entries above the last visible sequence number, and these are the
      inserted part of the batch under way. */
  ghost predicate SeqOk(mems: seq<iset<Entry>>, imm: iset<Entry>, ve: iset<Entry>, lastSeq: nat, batch: Option<Batch>)
    requires mems != []
  {
    && AllBounded(mems, lastSeq + |Inserted(batch)|)
    && Bounded(imm, lastSeq) && Bounded(ve, lastSeq)
    && HoldsBatch(mems[|mems| - 1], Inserted(batch), lastSeq)
    && (batch.Some? ==> batch.value.done <= |batch.value.ops|)
  }

  /** At the last visible sequence number, the store shows the plain map. */
  ghost predicate ShowsDb(es: iset<Entry>, lastSeq: nat, db: Db) {
    forall k :: Shows(es, k, lastSeq, DbGet(db, k))
  }

  ghost predicate Has(v: Files, l: nat, f: File) {
    l < |v| && f in v[l]
  }

  /** File numbers are unique in the whole version and differ from those being written. */
  ghost predicate NumbersOk(v: Files, nextFile: nat, reserved: set<nat>) {
    && (forall l, m, f, g :: Has(v, l, f) && Has(v, m, g) && f.number == g.number ==> l == m && f == g)
    && (forall l, f :: Has(v, l, f) ==> f.number < nextFile && f.number !in reserved)
    && (forall n :: n in reserved ==> n < nextFile)
  }

  ghost predicate ReadOk(mems: seq<iset<Entry>>, lastSeq: nat, r: Read) {
    && r.mem < |mems| && (r.imm ==> r.mem > 0)
    && GoodView(mems, r.mem, r.imm, r.v)
    && r.sn <= lastSeq && Bounded(VersionEntries(r.v), lastSeq)
    && (r.mem == |mems| - 1 ==> Bounded(ImmOf(mems, r.mem, r.imm), lastSeq))
    && Shows(View(mems, r.mem, r.imm, r.v), r.key, r.sn, r.want)
  }

  ghost predicate Inv(s: State) {
    && |s.v| == LEVELS && ViewOk(s)
    && SeqOk(s.mems, ImmOf(s.mems, |s.mems| - 1, s.imm), VersionEntries(s.v), s.lastSeq, s.batch)
    && ShowsDb(All(s), s.lastSeq, s.db)
    && Listed(s.v) && NumbersOk(s.v, s.nextFile, s.reserved)
    && (s.job.Some? ==> JobOk(s.v, s.job.value))
    && (forall id :: id in s.readers ==> ReadOk(s.mems, s.lastSeq, s.readers[id]))
  }

  lemma ViewDistinct(mems: seq<iset<Entry>>, mem: nat, imm: bool, v: Files)
    requires GoodView(mems, mem, imm, v)
    ensures Distinct(View(mems, mem, imm, v))
  {
    ShapeDistinct(v);
    hide Shape;
  }

  /** In a good view the layered lookup finds what the view shows. */
  lemma LookupShows(mems: seq<iset<Entry>>, mem: nat, imm: bool, v: Files, k: UserKey, s: nat, ans: Option<Bytes>,
      val: Option<Bytes>)
    requires GoodView(mems, mem, imm, v) && LooksUp(mems, mem, imm, v, k, s, ans)
    requires Shows(View(mems, mem, imm, v), k, s, val)
    ensures ans == val
  {
    ViewDistinct(mems, mem, imm, v);
    hide Shape;
    var r1, r2, r3 :|
      && Finds(mems[mem], k, s, r1)
      && (r1.None? ==> Finds(ImmOf(mems, mem, imm), k, s, r2))
      && (r1.None? && r2.None? ==> Finds(VersionEntries(v), k, s, r3))
      && ans == Answer(if r1.Some? then r1 else if r2.Some? then r2 else r3);
    var r12 := if r1.Some? then r1 else r2;
    var r := if r12.Some? then r12 else r3;
    FindsLayered(mems[mem], ImmOf(mems, mem, imm), k, s, r1, r2);
    FindsLayered(Upper(mems, mem, imm), VersionEntries(v), k, s, r12, r3);
    var r' :| Finds(View(mems, mem, imm, v), k, s, r') && Answer(r') == val;
    FindsUnique(View(mems, mem, imm, v), k, s, r, r');
  }
}
