/** DBImpl::Write as a protocol between threads. A step is what a thread does between taking the
    lock and releasing it; the log and the memtable are written with the lock released, while other
    threads queue up. */
module Writers {
  import opened Base
  import opened GroupCommit
  import W = WriteBatch

  datatype Phase = Started | InLog | Settled(ok: bool)

  /** Where a thread stands: in the queue, in MakeRoomForWrite (between two of its waits), writing
      for itself and the next n - 1 writers, or back at its caller. `last` and `mem` are the last
      sequence number and the memtable when it began to write. */
  datatype Pc =
    | Queued
    | InRoom
    | Writing(n: nat, last: nat, ops: Ops, mem: nat, logged: bool, inserted: bool, phase: Phase)
    | Returned(ok: bool)

  /** A finished write: its writers, the sequence numbers from `base` on, the operations, the
      memtable current when the leader began, whether the log and the memtable have them, and the
      common status. */
  datatype Group = Group(ids: seq<nat>, base: nat, ops: Ops, mem: nat, logged: bool, inserted: bool, ok: bool)

  datatype LogRecord = LogRecord(base: nat, ops: Ops)

  datatype Insertion = Insertion(mem: nat, base: nat, ops: Ops)

  /** `results` are the done flags with their statuses; `mem` numbers the current memtable. */
  datatype State = State(
    queue: seq<nat>, pcs: map<nat, Pc>, reqs: map<nat, Req>, results: map<nat, bool>,
    lastSeq: nat, mem: nat, log: seq<LogRecord>, inserts: seq<Insertion>,
    groups: seq<Group>, arrived: seq<nat>)

  function Init(lastSeq: nat): (s: State) {
    State([], map[], map[], map[], lastSeq, 0, [], [], [], [])
  }

  datatype Step =
    | Arrive(t: nat, req: Req)
    | Notice(t: nat)
    | Lead(t: nat)
    | Rotate(t: nat)
    | Begin(t: nat)
    | Append(t: nat, appended: bool, ok: bool)
    | Insert(t: nat, ok: bool)
    | Finish(t: nat)
    | FinishEmpty(t: nat, ok: bool)

  function Queue(s: State, ids: seq<nat>): (r: seq<Req>)
    requires forall t :: t in ids ==> t in s.reqs
    ensures |r| == |ids| && forall i :: 0 <= i < |r| ==> r[i] == s.reqs[ids[i]]
  {
    seq(|ids|, i requires 0 <= i < |ids| => s.reqs[ids[i]])
  }

  predicate At(s: State, t: nat, pc: Pc) {
    t in s.pcs && s.pcs[t] == pc
  }

  predicate IsWriting(s: State, t: nat) {
    t in s.pcs && s.pcs[t].Writing?
  }

  ghost predicate Enabled(s: State, a: Step) {
    match a
    case Arrive(t, _) => t !in s.pcs
    // while (!w.done && &w != writers_.front()) wait
    case Notice(t) => At(s, t, Queued) && t in s.results
    case Lead(t) => At(s, t, Queued) && t !in s.results && s.queue != [] && s.queue[0] == t
    case Rotate(t) => At(s, t, InRoom)
    case Begin(t) =>
      && At(s, t, InRoom) && t in s.reqs && s.reqs[t].ops.Some?
      && s.queue != [] && forall u :: u in s.queue ==> u in s.reqs
    // A failed sync leaves the record in the log.
    case Append(t, appended, ok) => IsWriting(s, t) && s.pcs[t].phase == Started && (ok ==> appended)
    case Insert(t, ok) => IsWriting(s, t) && s.pcs[t].phase == InLog
    case Finish(t) => IsWriting(s, t) && s.pcs[t].phase.Settled? && s.pcs[t].n <= |s.queue|
    case FinishEmpty(t, ok) => At(s, t, InRoom) && t in s.reqs && s.reqs[t].ops.None? && s.queue != []
  }

  /** Pop the first n writers; all but the leader are told the status. */
  function Popped(s: State, t: nat, n: nat, ok: bool): (r: State)
    requires n <= |s.queue|
  {
    var others := set i | 1 <= i < n :: s.queue[i];
    s.(queue := s.queue[n..], pcs := s.pcs[t := Returned(ok)],
       results := s.results + map u | u in others :: ok)
  }

  ghost function Apply(rule: JoinRule, s: State, a: Step): (s': State)
    requires Enabled(s, a)
  {
    match a
    case Arrive(t, req) =>
      s.(queue := s.queue + [t], pcs := s.pcs[t := Queued], reqs := s.reqs[t := req], arrived := s.arrived + [t])
    case Notice(t) => s.(pcs := s.pcs[t := Returned(s.results[t])])
    case Lead(t) => s.(pcs := s.pcs[t := InRoom])
    case Rotate(t) => s.(mem := s.mem + 1)
    case Begin(t) =>
      var reqs := Queue(s, s.queue);
      var n := GroupLength(reqs);
      s.(pcs := s.pcs[t := Writing(n, s.lastSeq, Joined(rule, reqs, n), s.mem, false, false, Started)])
    case Append(t, appended, ok) =>
      var w := s.pcs[t];
      s.(log := if appended then s.log + [LogRecord(w.last + 1, w.ops)] else s.log,
         pcs := s.pcs[t := w.(logged := appended, phase := if ok then InLog else Settled(false))])
    case Insert(t, ok) =>
      var w := s.pcs[t];
      s.(inserts := s.inserts + [Insertion(s.mem, w.last + 1, w.ops)],
         pcs := s.pcs[t := w.(inserted := true, phase := Settled(ok))])
    case Finish(t) =>
      var w := s.pcs[t];
      var g := Group(s.queue[..w.n], w.last + 1, w.ops, w.mem, w.logged, w.inserted, w.phase.ok);
      Popped(s, t, w.n, w.phase.ok).(lastSeq := w.last + |w.ops|, groups := s.groups + [g])
    case FinishEmpty(t, ok) =>
      Popped(s, t, 1, ok).(groups := s.groups + [Group([t], s.lastSeq + 1, [], s.mem, false, false, ok)])
  }

  // ---------------------------------------------------------------- what every step keeps

  function Ids(groups: seq<Group>): (r: seq<nat>) {
    if groups == [] then [] else Ids(groups[..|groups| - 1]) + groups[|groups| - 1].ids
  }

  /** The operations written so far. */
  function Written(groups: seq<Group>): (r: Ops) {
    if groups == [] then [] else Written(groups[..|groups| - 1]) + groups[|groups| - 1].ops
  }

  function InLogOf(groups: seq<Group>): (r: seq<LogRecord>) {
    if groups == [] then []
    else
      var g := groups[|groups| - 1];
      InLogOf(groups[..|groups| - 1]) + if g.logged then [LogRecord(g.base, g.ops)] else []
  }

  function InsertedOf(groups: seq<Group>): (r: seq<Insertion>) {
    if groups == [] then []
    else
      var g := groups[|groups| - 1];
      InsertedOf(groups[..|groups| - 1]) + if g.inserted then [Insertion(g.mem, g.base, g.ops)] else []
  }

  predicate Active(pc: Pc) {
    pc.InRoom? || pc.Writing?
  }

  ghost predicate Distinct(ids: seq<nat>) {
    forall i, j :: 0 <= i < j < |ids| ==> ids[i] != ids[j]
  }

  /** The queue is first come, first served: whoever arrived has been answered, in order, or still
      waits. */
  ghost predicate QueueOk(s: State) {
    && s.arrived == Ids(s.groups) + s.queue && Distinct(s.arrived)
    && (forall t :: t in s.arrived <==> t in s.pcs) && (forall t :: t in s.pcs <==> t in s.reqs)
  }

  /** Only the writer in front is active; those in the queue have no answer, the others have. */
  ghost predicate FrontOk(s: State) {
    && (forall t :: t in s.pcs && Active(s.pcs[t]) ==> s.queue != [] && s.queue[0] == t)
    && (forall t :: t in s.queue ==> t in s.pcs && t !in s.results && !s.pcs[t].Returned?)
  }

  ghost predicate WriteOk(rule: JoinRule, s: State, w: Pc) {
    w.Writing? ==>
      && 1 <= w.n <= |s.queue| && w.last == s.lastSeq && (forall t :: t in s.queue ==> t in s.reqs)
      && s.reqs[s.queue[0]].ops.Some? && w.ops == Joined(rule, Queue(s, s.queue), w.n)
      && PhaseOk(w) && w.mem == s.mem
  }

  /** The memtable is written after the log, and success means that both were. */
  predicate PhaseOk(w: Pc)
    requires w.Writing?
  {
    && (w.phase.InLog? ==> w.logged && !w.inserted) && (w.phase.Started? ==> !w.logged)
    && (w.inserted ==> w.logged) && (w.phase == Settled(true) ==> w.inserted)
  }

  /** A finished group: its operations are those joined from its writers. */
  ghost predicate GroupOk(rule: JoinRule, s: State, g: Group) {
    && g.ids != [] && (forall t :: t in g.ids ==> t in s.reqs)
    && g.ops == (if s.reqs[g.ids[0]].ops.None? then [] else Joined(rule, Queue(s, g.ids), |g.ids|))
    && (s.reqs[g.ids[0]].ops.None? ==> |g.ids| == 1)
    && (g.ok && s.reqs[g.ids[0]].ops.Some? ==> g.inserted) && (g.inserted ==> g.logged)
  }

  /** Sequence numbers are handed out without gaps or overlaps. */
  ghost predicate NumbersOk(start: nat, groups: seq<Group>, lastSeq: nat) {
    && lastSeq == start + |Written(groups)|
    && forall i :: 0 <= i < |groups| ==> groups[i].base == start + 1 + |Written(groups[..i])|
  }

  /** The record of the write under way, if it is in the log already. */
  ghost function Current(s: State): (r: seq<LogRecord>) {
    if s.queue != [] && IsWriting(s, s.queue[0]) && s.pcs[s.queue[0]].logged
    then [LogRecord(s.pcs[s.queue[0]].last + 1, s.pcs[s.queue[0]].ops)] else []
  }

  /** The insertion of the write under way, if it is made already. */
  ghost function Inserting(s: State): (r: seq<Insertion>) {
    if s.queue != [] && IsWriting(s, s.queue[0]) && s.pcs[s.queue[0]].inserted
    then [Insertion(s.pcs[s.queue[0]].mem, s.pcs[s.queue[0]].last + 1, s.pcs[s.queue[0]].ops)] else []
  }

  /** The log and the memtables have what the groups and the write under way put there. */
  ghost predicate HistoryOk(s: State) {
    s.log == InLogOf(s.groups) + Current(s) && s.inserts == InsertedOf(s.groups) + Inserting(s)
  }

  /** Whoever has an answer has that of its group. */
  ghost predicate Answered(s: State, t: nat, ok: bool) {
    exists i :: 0 <= i < |s.groups| && t in s.groups[i].ids && s.groups[i].ok == ok
  }

  ghost predicate AnswersOk(s: State) {
    && (forall t :: t in s.results ==> t in s.pcs && Answered(s, t, s.results[t]))
    && (forall t :: t in s.pcs && s.pcs[t].Returned? ==> Answered(s, t, s.pcs[t].ok))
  }

  ghost predicate Inv(rule: JoinRule, start: nat, s: State) {
    && QueueOk(s) && FrontOk(s) && NumbersOk(start, s.groups, s.lastSeq)
    && (forall t :: t in s.pcs ==> WriteOk(rule, s, s.pcs[t]))
    && (forall i :: 0 <= i < |s.groups| ==> GroupOk(rule, s, s.groups[i]))
    && HistoryOk(s) && AnswersOk(s)
  }

  lemma InitInv(rule: JoinRule, start: nat)
    ensures Inv(rule, start, Init(start))
  {
    hide WriteOk, GroupOk, Answered, Active;
    assert NumbersOk(start, [], start);
    assert QueueOk(Init(start)) && FrontOk(Init(start)) && AnswersOk(Init(start)) && HistoryOk(Init(start));
  }

  // ---------------------------------------------------------------- steps

  lemma {:induction false} JoinedPrefix(rule: JoinRule, a: seq<Req>, b: seq<Req>, n: nat)
    requires 1 <= n <= |a| && n <= |b| && forall i :: 0 <= i < n ==> a[i] == b[i]
    ensures Joined(rule, a, n) == Joined(rule, b, n)
  {
    if n > 1 { JoinedPrefix(rule, a, b, n - 1); }
  }

  lemma WriteStays(rule: JoinRule, s: State, s': State, w: Pc)
    requires WriteOk(rule, s, w) && s'.lastSeq == s.lastSeq && (s'.mem == s.mem || !w.Writing?)
    requires |s'.queue| >= |s.queue|
    requires forall i :: 0 <= i < |s.queue| ==> s'.queue[i] == s.queue[i]
    requires forall t :: t in s'.queue ==> t in s'.reqs
    requires forall t :: t in s.queue && t in s.reqs ==> s'.reqs[t] == s.reqs[t]
    ensures WriteOk(rule, s', w)
  {
    if w.Writing? {
      JoinedPrefix(rule, Queue(s, s.queue), Queue(s', s'.queue), w.n);
    }
  }

  lemma GroupStays(rule: JoinRule, s: State, s': State, g: Group)
    requires GroupOk(rule, s, g) && forall t :: t in s.reqs ==> t in s'.reqs && s'.reqs[t] == s.reqs[t]
    ensures GroupOk(rule, s', g)
  {
    assert Queue(s', g.ids) == Queue(s, g.ids);
  }

  lemma ArriveKeeps(rule: JoinRule, start: nat, s: State, t: nat, req: Req)
    requires Inv(rule, start, s) && Enabled(s, Arrive(t, req))
    ensures Inv(rule, start, Apply(rule, s, Arrive(t, req)))
  {
    hide NumbersOk, GroupOk, WriteOk, HistoryOk, Ids, QueueOk, FrontOk, AnswersOk;
    var s' := Apply(rule, s, Arrive(t, req));
    ArriveQueue(s, s', t, req);
    forall u | u in s'.pcs
      ensures WriteOk(rule, s', s'.pcs[u])
    {
      if u == t { NotWriting(rule, s', Queued); } else { WriteStays(rule, s, s', s.pcs[u]); }
    }
    forall i | 0 <= i < |s'.groups|
      ensures GroupOk(rule, s', s'.groups[i])
    {
      GroupStays(rule, s, s', s.groups[i]);
    }
    AnswersStay(s, s');
  }

  lemma ArriveQueue(s: State, s': State, t: nat, req: Req)
    requires QueueOk(s) && FrontOk(s) && AnswersOk(s) && t !in s.pcs
    requires s' == s.(queue := s.queue + [t], pcs := s.pcs[t := Queued], reqs := s.reqs[t := req],
        arrived := s.arrived + [t])
    ensures QueueOk(s') && FrontOk(s') && (HistoryOk(s) ==> HistoryOk(s')) && t !in s.reqs
    ensures forall u :: u in s'.queue ==> u in s'.reqs
  {
    hide Ids, Answered, HistoryOk, FrontOk;
    QueueKnown(s);
    assert s'.arrived == Ids(s'.groups) + s'.queue;
    hide QueueOk;
    ArriveFront(s, s', t, req);
    ArriveHistory(s, s', t, req);
  }

  lemma ArriveFront(s: State, s': State, t: nat, req: Req)
    requires FrontOk(s) && AnswersOk(s) && t !in s.pcs && forall u :: u in s.queue ==> u in s.pcs
    requires s' == s.(queue := s.queue + [t], pcs := s.pcs[t := Queued], reqs := s.reqs[t := req],
        arrived := s.arrived + [t])
    ensures FrontOk(s')
  {
    hide Answered;
  }

  lemma ArriveHistory(s: State, s': State, t: nat, req: Req)
    requires t !in s.pcs && forall u :: u in s.queue ==> u in s.pcs
    requires s' == s.(queue := s.queue + [t], pcs := s.pcs[t := Queued], reqs := s.reqs[t := req],
        arrived := s.arrived + [t])
    ensures HistoryOk(s) ==> HistoryOk(s')
  {
    hide InLogOf, InsertedOf;
    assert s.queue != [] ==> s'.queue[0] == s.queue[0] && s.queue[0] in s.queue;
  }

  lemma NotWriting(rule: JoinRule, s: State, pc: Pc)
    requires !pc.Writing?
    ensures WriteOk(rule, s, pc)
  {}

  lemma AnswersStay(s: State, s': State)
    requires AnswersOk(s) && s.groups <= s'.groups && s'.results == s.results
    requires forall t :: t in s.pcs ==> t in s'.pcs
    requires forall t :: t in s'.pcs && s'.pcs[t].Returned? ==>
        t in s.pcs && (s'.pcs[t] == s.pcs[t] || (t in s.results && s'.pcs[t].ok == s.results[t]))
    ensures AnswersOk(s')
  {
    hide Answered;
    forall t, ok | Answered(s, t, ok)
      ensures Answered(s', t, ok)
    {
      AnswerStays(s, s', t, ok);
    }
  }

  /** A step of thread t that changes no more than its own place. */
  lemma PlaceKeeps(rule: JoinRule, start: nat, s: State, s': State, t: nat, pc: Pc)
    requires Inv(rule, start, s) && t in s.pcs && s'.pcs == s.pcs[t := pc]
    requires s'.queue == s.queue && s'.reqs == s.reqs && s'.results == s.results && s'.lastSeq == s.lastSeq
    requires s'.groups == s.groups && s'.arrived == s.arrived
    requires Active(pc) ==> s.queue != [] && s.queue[0] == t
    requires pc.Returned? ==> t in s.results && pc.ok == s.results[t]
    requires WriteOk(rule, s, pc) && HistoryOk(s')
    requires s'.mem == s.mem || (Active(s.pcs[t]) && !pc.Writing?)
    ensures Inv(rule, start, s')
  {
    hide NumbersOk, GroupOk, WriteOk, HistoryOk, Ids, QueueOk, FrontOk, AnswersOk;
    PlaceQueue(s, s', t, pc);
    QueueKnown(s);
    forall u | u in s'.pcs
      ensures WriteOk(rule, s', s'.pcs[u])
    {
      if u != t && s.pcs[u].Writing? { OneActive(s, t, u); }
      WriteStays(rule, s, s', s'.pcs[u]);
    }
    forall i | 0 <= i < |s'.groups|
      ensures GroupOk(rule, s', s'.groups[i])
    {
      GroupStays(rule, s, s', s.groups[i]);
    }
    AnswersStay(s, s');
  }

  lemma OneActive(s: State, t: nat, u: nat)
    requires FrontOk(s) && t in s.pcs && u in s.pcs && Active(s.pcs[u])
    ensures Active(s.pcs[t]) ==> t == u
  {}

  lemma PlaceQueue(s: State, s': State, t: nat, pc: Pc)
    requires QueueOk(s) && FrontOk(s) && t in s.pcs && s'.pcs == s.pcs[t := pc]
    requires s'.queue == s.queue && s'.reqs == s.reqs && s'.results == s.results
    requires s'.groups == s.groups && s'.arrived == s.arrived
    requires Active(pc) ==> s.queue != [] && s.queue[0] == t
    requires pc.Returned? ==> t in s.results
    ensures QueueOk(s') && FrontOk(s')
  {
    hide Ids, Distinct;
  }

  lemma QueueKnown(s: State)
    requires QueueOk(s)
    ensures forall t :: t in s.queue ==> t in s.pcs && t in s.reqs
  {
    hide Ids;
    forall t | t in s.queue ensures t in s.arrived {}
  }

  /** What a step of t, which is not writing before or after it, does to the history. */
  lemma SameHistory(s: State, s': State, t: nat)
    requires HistoryOk(s) && t in s.pcs && t in s'.pcs && !s.pcs[t].Writing? && !s'.pcs[t].Writing?
    requires s'.queue == s.queue && s'.pcs == s.pcs[t := s'.pcs[t]]
    requires s'.log == s.log && s'.inserts == s.inserts && s'.groups == s.groups
    ensures HistoryOk(s')
  {
    hide InLogOf, InsertedOf;
  }

  lemma HistoryOf(rule: JoinRule, start: nat, s: State)
    requires Inv(rule, start, s)
    ensures HistoryOk(s)
  {
    hide NumbersOk, GroupOk, WriteOk, QueueOk, FrontOk, AnswersOk, HistoryOk;
  }

  /** A step that neither starts nor ends a write. */
  lemma QuietKeeps(rule: JoinRule, start: nat, s: State, s': State, t: nat, pc: Pc)
    requires Inv(rule, start, s) && t in s.pcs && !s.pcs[t].Writing? && !pc.Writing?
    requires s' == s.(pcs := s.pcs[t := pc], mem := s'.mem)
    requires Active(pc) ==> s.queue != [] && s.queue[0] == t
    requires pc.Returned? ==> t in s.results && pc.ok == s.results[t]
    requires s'.mem == s.mem || Active(s.pcs[t])
    ensures Inv(rule, start, s')
  {
    HistoryOf(rule, start, s);
    hide Inv, HistoryOk, WriteOk;
    SameHistory(s, s', t);
    NotWriting(rule, s, pc);
    PlaceKeeps(rule, start, s, s', t, pc);
  }

  lemma NoticeKeeps(rule: JoinRule, start: nat, s: State, t: nat)
    requires Inv(rule, start, s) && Enabled(s, Notice(t))
    ensures Inv(rule, start, Apply(rule, s, Notice(t)))
  {
    hide Inv;
    QuietKeeps(rule, start, s, Apply(rule, s, Notice(t)), t, Returned(s.results[t]));
  }

  lemma LeadKeeps(rule: JoinRule, start: nat, s: State, t: nat)
    requires Inv(rule, start, s) && Enabled(s, Lead(t))
    ensures Inv(rule, start, Apply(rule, s, Lead(t)))
  {
    hide Inv;
    QuietKeeps(rule, start, s, Apply(rule, s, Lead(t)), t, InRoom);
  }

  lemma RotateKeeps(rule: JoinRule, start: nat, s: State, t: nat)
    requires Inv(rule, start, s) && Enabled(s, Rotate(t))
    ensures Inv(rule, start, Apply(rule, s, Rotate(t)))
  {
    hide Inv;
    FrontIs(rule, start, s, t);
    assert s.pcs == s.pcs[t := InRoom];
    QuietKeeps(rule, start, s, Apply(rule, s, Rotate(t)), t, InRoom);
  }

  lemma BeginKeeps(rule: JoinRule, start: nat, s: State, t: nat)
    requires Inv(rule, start, s) && Enabled(s, Begin(t))
    ensures Inv(rule, start, Apply(rule, s, Begin(t)))
  {
    hide Inv, InLogOf, InsertedOf, WriteOk, GroupLength, Joined;
    var s' := Apply(rule, s, Begin(t));
    FrontIs(rule, start, s, t);
    BegunOk(rule, s, t, s'.pcs[t]);
    PlaceKeeps(rule, start, s, s', t, s'.pcs[t]);
  }

  lemma BegunOk(rule: JoinRule, s: State, t: nat, w: Pc)
    requires Enabled(s, Begin(t)) && s.queue[0] == t
    requires w == Writing(GroupLength(Queue(s, s.queue)), s.lastSeq,
        Joined(rule, Queue(s, s.queue), GroupLength(Queue(s, s.queue))), s.mem, false, false, Started)
    ensures WriteOk(rule, s, w)
  {
    hide GroupLength, Joined;
  }

  lemma AppendKeeps(rule: JoinRule, start: nat, s: State, t: nat, appended: bool, ok: bool)
    requires Inv(rule, start, s) && Enabled(s, Append(t, appended, ok))
    ensures Inv(rule, start, Apply(rule, s, Append(t, appended, ok)))
  {
    hide Inv, WriteOk, InLogOf, InsertedOf;
    var s' := Apply(rule, s, Append(t, appended, ok));
    FrontIs(rule, start, s, t);
    PhaseKeeps(rule, s, s.pcs[t], s'.pcs[t]);
    PlaceKeeps(rule, start, s, s', t, s'.pcs[t]);
  }

  lemma PhaseKeeps(rule: JoinRule, s: State, w: Pc, w': Pc)
    requires WriteOk(rule, s, w) && w.Writing? && w'.Writing?
    requires w' == w.(phase := w'.phase, logged := w'.logged, inserted := w'.inserted)
    ensures PhaseOk(w) && (PhaseOk(w') ==> WriteOk(rule, s, w'))
  {
    hide Joined, Queue;
  }

  lemma FrontIs(rule: JoinRule, start: nat, s: State, t: nat)
    requires Inv(rule, start, s) && t in s.pcs && Active(s.pcs[t])
    ensures s.queue != [] && s.queue[0] == t && WriteOk(rule, s, s.pcs[t]) && HistoryOk(s)
  {
    hide NumbersOk, GroupOk, WriteOk, HistoryOk, Ids, AnswersOk;
  }

  lemma InsertKeeps(rule: JoinRule, start: nat, s: State, t: nat, ok: bool)
    requires Inv(rule, start, s) && Enabled(s, Insert(t, ok))
    ensures Inv(rule, start, Apply(rule, s, Insert(t, ok)))
  {
    hide Inv, InLogOf, InsertedOf, Joined;
    var s' := Apply(rule, s, Insert(t, ok));
    FrontIs(rule, start, s, t);
    PhaseKeeps(rule, s, s.pcs[t], s'.pcs[t]);
    assert s.pcs[t].mem == s.mem;
    PlaceKeeps(rule, start, s, s', t, s'.pcs[t]);
  }

  lemma HistorySnoc(groups: seq<Group>, g: Group)
    ensures Ids(groups + [g]) == Ids(groups) + g.ids && Written(groups + [g]) == Written(groups) + g.ops
    ensures InLogOf(groups + [g]) == InLogOf(groups) + if g.logged then [LogRecord(g.base, g.ops)] else []
    ensures InsertedOf(groups + [g]) ==
      InsertedOf(groups) + if g.inserted then [Insertion(g.mem, g.base, g.ops)] else []
  {
    assert (groups + [g])[..|groups|] == groups;
  }

  /** What a pop makes of the state. */
  ghost predicate Pops(s: State, s': State, t: nat, n: nat, g: Group) {
    && t in s.pcs && Active(s.pcs[t]) && s.queue != [] && s.queue[0] == t && 1 <= n <= |s.queue|
    && g.ids == s.queue[..n] && g.base == s.lastSeq + 1
    && s' == Popped(s, t, n, g.ok).(lastSeq := s.lastSeq + |g.ops|, groups := s.groups + [g])
    && Current(s) == (if g.logged then [LogRecord(g.base, g.ops)] else [])
    && Inserting(s) == (if g.inserted then [Insertion(g.mem, g.base, g.ops)] else [])
  }

  lemma PopQueue(s: State, s': State, t: nat, n: nat, g: Group)
    requires QueueOk(s) && FrontOk(s) && Pops(s, s', t, n, g)
    ensures QueueOk(s') && FrontOk(s') && Current(s') == [] && Inserting(s') == []
    ensures forall u :: u in s'.pcs ==> !Active(s'.pcs[u])
  {
    hide Ids, Current, Inserting, InLogOf, Written, QueueOk, FrontOk;
    PopHistory(s, s', t, n, g);
    PopFront(s, s', t, n, g);
    NoCurrent(s');
  }

  lemma PopHistory(s: State, s': State, t: nat, n: nat, g: Group)
    requires QueueOk(s) && Pops(s, s', t, n, g)
    ensures QueueOk(s')
  {
    hide Pops, Ids, Distinct;
    PopFrame(s, s', t, n, g);
    PopIds(s, n, g);
    forall u
      ensures u in s.pcs <==> u in s'.pcs
    {
      assert u in s.pcs <==> u in s.pcs.Keys;
    }
  }

  lemma PopFrame(s: State, s': State, t: nat, n: nat, g: Group)
    requires Pops(s, s', t, n, g)
    ensures n <= |s.queue| && s'.queue == s.queue[n..] && g.ids == s.queue[..n] && s'.groups == s.groups + [g]
    ensures s'.arrived == s.arrived && s'.reqs == s.reqs && s'.pcs.Keys == s.pcs.Keys
  {
    hide Current, Inserting;
  }

  lemma PopIds(s: State, n: nat, g: Group)
    requires n <= |s.queue| && g.ids == s.queue[..n]
    ensures Ids(s.groups + [g]) + s.queue[n..] == Ids(s.groups) + s.queue
  {
    hide Ids, InLogOf, InsertedOf, Written;
    HistorySnoc(s.groups, g);
    Rejoin(Ids(s.groups), s.queue, n);
  }

  lemma Rejoin(a: seq<nat>, b: seq<nat>, n: nat)
    requires n <= |b|
    ensures a + b[..n] + b[n..] == a + b
  {}

  lemma LaterOnce(s: State, n: nat, k: nat, i: nat)
    requires QueueOk(s) && k < n <= i < |s.queue|
    ensures s.queue[k] != s.queue[i]
  {
    hide Ids;
    var at := |Ids(s.groups)|;
    assert s.arrived[at + k] == s.queue[k] && s.arrived[at + i] == s.queue[i];
  }

  lemma PopFront(s: State, s': State, t: nat, n: nat, g: Group)
    requires QueueOk(s) && FrontOk(s) && Pops(s, s', t, n, g)
    ensures FrontOk(s') && forall u :: u in s'.pcs ==> !Active(s'.pcs[u])
  {
    hide Ids, Current, Inserting, QueueOk;
    forall u | u in s'.queue
      ensures u in s'.pcs && u !in s'.results && !s'.pcs[u].Returned?
    {
      var i :| n <= i < |s.queue| && s.queue[i] == u;
      forall k | 0 <= k < n
        ensures s.queue[k] != u
      {
        LaterOnce(s, n, k, i);
      }
    }
  }

  lemma NoCurrent(s: State)
    requires forall u :: u in s.pcs ==> !Active(s.pcs[u])
    ensures Current(s) == [] && Inserting(s) == []
  {}

  lemma PopNumbers(start: nat, groups: seq<Group>, lastSeq: nat, g: Group)
    requires NumbersOk(start, groups, lastSeq) && g.base == lastSeq + 1
    ensures NumbersOk(start, groups + [g], lastSeq + |g.ops|)
  {
    HistorySnoc(groups, g);
    forall i | 0 <= i <= |groups|
      ensures (groups + [g])[i].base == start + 1 + |Written((groups + [g])[..i])|
    {
      assert (groups + [g])[..i] == groups[..i];
      assert groups[..|groups|] == groups;
    }
  }

  lemma PopAnswers(s: State, s': State, t: nat, n: nat, g: Group)
    requires AnswersOk(s) && Pops(s, s', t, n, g) && forall u :: u in s.queue ==> u in s.pcs
    ensures AnswersOk(s')
  {
    hide Current, Inserting, Answered;
    forall u, ok | Answered(s, u, ok)
      ensures Answered(s', u, ok)
    {
      AnswerStays(s, s', u, ok);
    }
    forall i | 0 <= i < n
      ensures Answered(s', s.queue[i], g.ok)
    {
      assert g.ids[i] == s.queue[i];
      LastAnswer(s', g, s.queue[i]);
    }
    assert s'.results.Keys == s.results.Keys + set i | 1 <= i < n :: s.queue[i];
  }

  lemma AnswerStays(s: State, s': State, t: nat, ok: bool)
    requires Answered(s, t, ok) && s.groups <= s'.groups
    ensures Answered(s', t, ok)
  {
    var i :| 0 <= i < |s.groups| && t in s.groups[i].ids && s.groups[i].ok == ok;
    assert s'.groups[i] == s.groups[i];
  }

  lemma LastAnswer(s: State, g: Group, t: nat)
    requires s.groups != [] && s.groups[|s.groups| - 1] == g && t in g.ids
    ensures Answered(s, t, g.ok)
  {}

  lemma PopKeeps(rule: JoinRule, start: nat, s: State, s': State, t: nat, n: nat, g: Group)
    requires Inv(rule, start, s) && Pops(s, s', t, n, g) && GroupOk(rule, s, g)
    ensures Inv(rule, start, s')
  {
    hide NumbersOk, GroupOk, WriteOk, QueueOk, FrontOk, AnswersOk, Current, Inserting, Ids, InLogOf, InsertedOf,
        Written;
    PopQueue(s, s', t, n, g);
    PopNumbers(start, s.groups, s.lastSeq, g);
    HistorySnoc(s.groups, g);
    QueueKnown(s);
    PopAnswers(s, s', t, n, g);
    forall u | u in s'.pcs
      ensures WriteOk(rule, s', s'.pcs[u])
    {
      NotWriting(rule, s', s'.pcs[u]);
    }
    forall i | 0 <= i < |s'.groups|
      ensures GroupOk(rule, s', s'.groups[i])
    {
      if i < |s.groups| { assert s'.groups[i] == s.groups[i]; }
      GroupStays(rule, s, s', s'.groups[i]);
    }
  }

  lemma FinishKeeps(rule: JoinRule, start: nat, s: State, t: nat)
    requires Inv(rule, start, s) && Enabled(s, Finish(t))
    ensures Inv(rule, start, Apply(rule, s, Finish(t)))
  {
    hide Inv, GroupOk, InLogOf, InsertedOf;
    var s' := Apply(rule, s, Finish(t));
    FrontIs(rule, start, s, t);
    var w := s.pcs[t];
    var g := Group(s.queue[..w.n], w.last + 1, w.ops, w.mem, w.logged, w.inserted, w.phase.ok);
    WrittenGroup(rule, s, w, g);
    PopKeeps(rule, start, s, s', t, w.n, g);
  }

  lemma WrittenGroup(rule: JoinRule, s: State, w: Pc, g: Group)
    requires WriteOk(rule, s, w) && w.Writing? && w.phase.Settled? && s.queue != []
    requires w.n <= |s.queue| && g == Group(s.queue[..w.n], w.last + 1, w.ops, w.mem, w.logged, w.inserted, w.phase.ok)
    ensures GroupOk(rule, s, g) && w.n >= 1 && w.last == s.lastSeq
  {
    assert forall t :: t in g.ids ==> t in s.queue;
    JoinedPrefix(rule, Queue(s, s.queue), Queue(s, g.ids), w.n);
  }

  lemma FinishEmptyKeeps(rule: JoinRule, start: nat, s: State, t: nat, ok: bool)
    requires Inv(rule, start, s) && Enabled(s, FinishEmpty(t, ok))
    ensures Inv(rule, start, Apply(rule, s, FinishEmpty(t, ok)))
  {
    hide Inv, InLogOf, InsertedOf;
    var s' := Apply(rule, s, FinishEmpty(t, ok));
    FrontIs(rule, start, s, t);
    var g := Group([t], s.lastSeq + 1, [], s.mem, false, false, ok);
    assert GroupOk(rule, s, g);
    assert s.queue[..1] == [t];
    PopKeeps(rule, start, s, s', t, 1, g);
  }

  /** Every step of every thread keeps the invariant. */
  lemma StepKeeps(rule: JoinRule, start: nat, s: State, a: Step)
    requires Inv(rule, start, s) && Enabled(s, a)
    ensures Inv(rule, start, Apply(rule, s, a))
  {
    hide *;
    match a
    case Arrive(t, req) => ArriveKeeps(rule, start, s, t, req);
    case Notice(t) => NoticeKeeps(rule, start, s, t);
    case Lead(t) => LeadKeeps(rule, start, s, t);
    case Rotate(t) => RotateKeeps(rule, start, s, t);
    case Begin(t) => BeginKeeps(rule, start, s, t);
    case Append(t, appended, ok) => AppendKeeps(rule, start, s, t, appended, ok);
    case Insert(t, ok) => InsertKeeps(rule, start, s, t, ok);
    case Finish(t) => FinishKeeps(rule, start, s, t);
    case FinishEmpty(t, ok) => FinishEmptyKeeps(rule, start, s, t, ok);
  }

  // ---------------------------------------------------------------- runs

  ghost predicate Legal(rule: JoinRule, s: State, run: seq<Step>)
    decreases |run|
  {
    run == [] || (Enabled(s, run[0]) && Legal(rule, Apply(rule, s, run[0]), run[1..]))
  }

  ghost function Exec(rule: JoinRule, s: State, run: seq<Step>): (s': State)
    requires Legal(rule, s, run)
    decreases |run|
  {
    if run == [] then s else Exec(rule, Apply(rule, s, run[0]), run[1..])
  }

  lemma {:induction false} RunKeeps(rule: JoinRule, start: nat, s: State, run: seq<Step>)
    requires Inv(rule, start, s) && Legal(rule, s, run)
    ensures Inv(rule, start, Exec(rule, s, run))
    decreases |run|
  {
    hide Inv, Enabled, Apply;
    if run != [] {
      StepKeeps(rule, start, s, run[0]);
      RunKeeps(rule, start, Apply(rule, s, run[0]), run[1..]);
    }
  }

  /** A state that some interleaving of writers leads to. */
  ghost predicate Reachable(rule: JoinRule, start: nat, s: State) {
    exists run :: Legal(rule, Init(start), run) && Exec(rule, Init(start), run) == s
  }

  lemma ReachableInv(rule: JoinRule, start: nat, s: State)
    requires Reachable(rule, start, s)
    ensures Inv(rule, start, s)
  {
    hide Inv, Legal, Exec;
    var run :| Legal(rule, Init(start), run) && Exec(rule, Init(start), run) == s;
    InitInv(rule, start);
    RunKeeps(rule, start, Init(start), run);
  }

  lemma {:induction false} LegalSnoc(rule: JoinRule, s: State, run: seq<Step>, a: Step)
    requires Legal(rule, s, run) && Enabled(Exec(rule, s, run), a)
    ensures Legal(rule, s, run + [a]) && Exec(rule, s, run + [a]) == Apply(rule, Exec(rule, s, run), a)
    decreases |run|
  {
    hide Enabled, Apply;
    if run == [] {
      assert [] + [a] == [a] && [a][1..] == [];
    } else {
      LegalSnoc(rule, Apply(rule, s, run[0]), run[1..], a);
      assert (run + [a])[1..] == run[1..] + [a];
    }
  }

  lemma ReachableStep(rule: JoinRule, start: nat, s: State, a: Step)
    requires Reachable(rule, start, s) && Enabled(s, a)
    ensures Reachable(rule, start, Apply(rule, s, a))
  {
    hide Enabled, Apply, Legal, Exec;
    var run :| Legal(rule, Init(start), run) && Exec(rule, Init(start), run) == s;
    LegalSnoc(rule, Init(start), run, a);
  }

  // ---------------------------------------------------------------- the promises

  /** At most one thread is past the queue, and no memtable rotation can happen while a thread is
      writing with the lock released. */
  lemma OneWriter(rule: JoinRule, start: nat, s: State, t: nat)
    requires Reachable(rule, start, s) && t in s.pcs && Active(s.pcs[t])
    ensures forall u :: u in s.pcs && Active(s.pcs[u]) ==> u == t
    ensures s.pcs[t].Writing? ==> forall u :: !Enabled(s, Rotate(u)) && !Enabled(s, Begin(u))
  {
    hide Reachable, Inv, WriteOk, HistoryOk;
    ReachableInv(rule, start, s);
    FrontIs(rule, start, s, t);
    forall u | u in s.pcs && Active(s.pcs[u])
      ensures u == t
    {
      FrontIs(rule, start, s, u);
    }
  }

  /** Writers are answered in the order of their arrival, each of them once. */
  lemma AnsweredInOrder(rule: JoinRule, start: nat, s: State)
    requires Reachable(rule, start, s)
    ensures Ids(s.groups) <= s.arrived && Distinct(Ids(s.groups)) && s.arrived == Ids(s.groups) + s.queue
  {
    ReachableInv(rule, start, s);
    hide Reachable, FrontOk, NumbersOk, WriteOk, GroupOk, AnswersOk, HistoryOk;
    assert forall i :: 0 <= i < |Ids(s.groups)| ==> s.arrived[i] == Ids(s.groups)[i];
  }

  lemma {:induction false} WrittenGrows(groups: seq<Group>, i: nat, j: nat)
    requires i < j <= |groups|
    ensures |Written(groups[..i])| + |groups[i].ops| <= |Written(groups[..j])|
    decreases j
  {
    assert groups[..j][..j - 1] == groups[..j - 1];
    if i < j - 1 { WrittenGrows(groups, i, j - 1); }
  }

  /** Merged batches get disjoint, increasing ranges of sequence numbers. */
  lemma RangesApart(rule: JoinRule, start: nat, s: State, i: nat, j: nat)
    requires Reachable(rule, start, s) && i < j < |s.groups|
    ensures s.groups[i].base + |s.groups[i].ops| <= s.groups[j].base
    ensures s.groups[j].base + |s.groups[j].ops| <= s.lastSeq + 1
  {
    ReachableInv(rule, start, s);
    hide Reachable, FrontOk, QueueOk, WriteOk, GroupOk, AnswersOk, HistoryOk, Written;
    WrittenGrows(s.groups, i, j);
    WrittenGrows(s.groups, j, |s.groups|);
    assert s.groups[..|s.groups|] == s.groups;
  }

  lemma GroupJoins(s: State, g: Group)
    requires GroupOk(Repaired, s, g)
    ensures g.ids != [] && (forall t :: t in g.ids ==> t in s.reqs) && g.ops == AllOps(Queue(s, g.ids))
  {
    var reqs := Queue(s, g.ids);
    RepairedJoins(reqs, |g.ids|);
    assert reqs[..|g.ids|] == reqs;
    if s.reqs[g.ids[0]].ops.None? {
      assert reqs == [s.reqs[g.ids[0]]];
      AllOpsOne(reqs[0]);
    }
  }

  lemma {:induction false} WrittenIs(s: State, groups: seq<Group>)
    requires forall i :: 0 <= i < |groups| ==> GroupOk(Repaired, s, groups[i])
    ensures forall t :: t in Ids(groups) ==> t in s.reqs
    ensures Written(groups) == AllOps(Queue(s, Ids(groups)))
  {
    hide GroupOk, AllOps;
    if groups == [] {
      NoOps(Queue(s, Ids(groups)));
    } else {
      var front, g := groups[..|groups| - 1], groups[|groups| - 1];
      WrittenIs(s, front);
      GroupJoins(s, g);
      assert Queue(s, Ids(groups)) == Queue(s, Ids(front)) + Queue(s, g.ids);
      AllOpsConcat(Queue(s, Ids(front)), Queue(s, g.ids));
    }
  }

  lemma NoOps(reqs: seq<Req>)
    requires reqs == []
    ensures AllOps(reqs) == []
  {}

  /** Repaired, what was written for the answered writers is what they asked for, in order: every
      batch is in exactly one merged record. */
  lemma NothingLost(start: nat, s: State)
    requires Reachable(Repaired, start, s)
    ensures forall t :: t in Ids(s.groups) ==> t in s.reqs
    ensures Written(s.groups) == AllOps(Queue(s, Ids(s.groups)))
  {
    ReachableInv(Repaired, start, s);
    hide Reachable, FrontOk, QueueOk, WriteOk, GroupOk, AnswersOk, HistoryOk, Written;
    WrittenIs(s, s.groups);
  }

  /** A leader that starts to write takes nobody along but writers without a batch. */
  ghost predicate LoneStep(s: State, a: Step)
    requires Enabled(s, a)
  {
    a.Begin? ==> Batchless(Queue(s, s.queue), GroupLength(Queue(s, s.queue)))
  }

  ghost predicate LoneRun(s: State, run: seq<Step>)
    requires Legal(AsWritten, s, run)
    decreases |run|
  {
    run == [] || (LoneStep(s, run[0]) && LoneRun(Apply(AsWritten, s, run[0]), run[1..]))
  }

  lemma LoneStepsAgree(s: State, a: Step)
    requires Enabled(s, a) && LoneStep(s, a)
    ensures Apply(AsWritten, s, a) == Apply(Repaired, s, a)
  {
    if a.Begin? {
      var reqs := Queue(s, s.queue);
      BatchlessJoins(reqs, GroupLength(reqs));
      hide Joined, GroupLength, Queue;
    }
  }

  /** As written, a run in which no leader takes along a follower with a batch is a run of the
      repaired code, and so keeps all that is promised for it. */
  lemma {:induction false} LoneRunsAgree(s: State, run: seq<Step>)
    requires Legal(AsWritten, s, run) && LoneRun(s, run)
    ensures Legal(Repaired, s, run) && Exec(Repaired, s, run) == Exec(AsWritten, s, run)
    decreases |run|
  {
    hide Apply, Enabled, LoneStep;
    if run != [] {
      LoneStepsAgree(s, run[0]);
      LoneRunsAgree(Apply(AsWritten, s, run[0]), run[1..]);
    }
  }

  lemma LoneRunsLoseNothing(start: nat, run: seq<Step>)
    requires Legal(AsWritten, Init(start), run) && LoneRun(Init(start), run)
    ensures var s := Exec(AsWritten, Init(start), run);
      && (forall t :: t in Ids(s.groups) ==> t in s.reqs)
      && Written(s.groups) == AllOps(Queue(s, Ids(s.groups)))
  {
    hide Legal, Exec, LoneRun, Written, AllOps, Ids;
    LoneRunsAgree(Init(start), run);
    NothingLost(start, Exec(Repaired, Init(start), run));
  }

  lemma {:induction false} LoggedGroup(groups: seq<Group>, i: nat)
    requires i < |groups| && groups[i].logged
    ensures LogRecord(groups[i].base, groups[i].ops) in InLogOf(groups)
    decreases |groups|
  {
    if i < |groups| - 1 { LoggedGroup(groups[..|groups| - 1], i); }
  }

  // ---------------------------------------------------------------- what reaches the memtable

  lemma {:induction false} InsertedGroup(groups: seq<Group>, i: nat) returns (j: nat)
    requires i < |groups| && groups[i].inserted
    ensures j < |InsertedOf(groups)|
    ensures InsertedOf(groups)[j] == Insertion(groups[i].mem, groups[i].base, groups[i].ops)
    decreases |groups|
  {
    if i < |groups| - 1 {
      j := InsertedGroup(groups[..|groups| - 1], i);
    } else {
      j := |InsertedOf(groups)| - 1;
    }
  }

  lemma {:induction false} GroupInserted(groups: seq<Group>, j: nat) returns (i: nat)
    requires j < |InsertedOf(groups)|
    ensures i < |groups| && groups[i].inserted
    ensures InsertedOf(groups)[j] == Insertion(groups[i].mem, groups[i].base, groups[i].ops)
    decreases |groups|
  {
    var front := groups[..|groups| - 1];
    if j < |InsertedOf(front)| { i := GroupInserted(front, j); } else { i := |groups| - 1; }
  }

  /** Insertions into the memtables end where the following ones begin, at the latest. */
  ghost predicate Increasing(ins: seq<Insertion>, end: nat) {
    && (forall i, j :: 0 <= i < j < |ins| ==> ins[i].base + |ins[i].ops| <= ins[j].base)
    && (forall i :: 0 <= i < |ins| ==> ins[i].base + |ins[i].ops| <= end)
  }

  lemma NumbersFront(start: nat, groups: seq<Group>, lastSeq: nat)
    requires NumbersOk(start, groups, lastSeq) && groups != []
    ensures var front, g := groups[..|groups| - 1], groups[|groups| - 1];
      g.base >= 1 && NumbersOk(start, front, g.base - 1) && lastSeq + 1 == g.base + |g.ops|
  {
    hide Written;
    var front, g := groups[..|groups| - 1], groups[|groups| - 1];
    WrittenLast(groups);
    assert g.base == start + 1 + |Written(groups[..|front|])|;
    forall i | 0 <= i < |front|
      ensures front[i].base == start + 1 + |Written(front[..i])|
    {
      assert front[..i] == groups[..i];
    }
  }

  lemma WrittenLast(groups: seq<Group>)
    requires groups != []
    ensures Written(groups) == Written(groups[..|groups| - 1]) + groups[|groups| - 1].ops
  {}

  lemma IncreasingSnoc(ins: seq<Insertion>, base: nat, x: Insertion)
    requires Increasing(ins, base) && x.base == base
    ensures Increasing(ins + [x], base + |x.ops|) && forall end :: end >= base ==> Increasing(ins, end)
  {}

  lemma {:induction false} InsertedIncreasing(start: nat, groups: seq<Group>, lastSeq: nat)
    requires NumbersOk(start, groups, lastSeq)
    ensures Increasing(InsertedOf(groups), lastSeq + 1)
    decreases |groups|
  {
    hide NumbersOk;
    if groups != [] {
      var front, g := groups[..|groups| - 1], groups[|groups| - 1];
      NumbersFront(start, groups, lastSeq);
      InsertedIncreasing(start, front, g.base - 1);
      hide Increasing;
      IncreasingSnoc(InsertedOf(front), g.base, Insertion(g.mem, g.base, g.ops));
    } else {
      hide *;
      NoneIncreasing(lastSeq + 1);
    }
  }

  lemma NoneIncreasing(end: nat)
    ensures Increasing(InsertedOf([]), end)
  {}

  /** No sequence number enters the memtables twice, and later groups have larger ones. */
  lemma InsertsApart(rule: JoinRule, start: nat, s: State, i: nat, j: nat)
    requires Reachable(rule, start, s) && i < j < |s.inserts|
    ensures s.inserts[i].base + |s.inserts[i].ops| <= s.inserts[j].base
  {
    ReachableInv(rule, start, s);
    hide Reachable, QueueOk, GroupOk, AnswersOk, NumbersOk, InsertedOf, InLogOf, Written, Joined;
    InsertedIncreasing(start, s.groups, s.lastSeq);
    if s.queue != [] && IsWriting(s, s.queue[0]) {
      assert WriteOk(rule, s, s.pcs[s.queue[0]]);
    }
  }

  /** What enters a memtable is in the log before. */
  lemma InsertsAreLogged(rule: JoinRule, start: nat, s: State, j: nat)
    requires Reachable(rule, start, s) && j < |s.inserts|
    ensures LogRecord(s.inserts[j].base, s.inserts[j].ops) in s.log
  {
    ReachableInv(rule, start, s);
    hide Reachable, QueueOk, AnswersOk, NumbersOk, InsertedOf, InLogOf, Joined;
    if j < |InsertedOf(s.groups)| {
      var i := GroupInserted(s.groups, j);
      assert GroupOk(rule, s, s.groups[i]);
      LoggedGroup(s.groups, i);
    } else {
      assert WriteOk(rule, s, s.pcs[s.queue[0]]);
    }
  }

  /** A group that was told of success is in the log, and once in the memtable that was current when
      its leader began, under the same numbers: no other insertion carries any of them. */
  lemma SuccessIsInserted(rule: JoinRule, start: nat, s: State, i: nat) returns (j: nat)
    requires Reachable(rule, start, s) && i < |s.groups| && s.groups[i].ok
    requires s.groups[i].ids != [] && var t := s.groups[i].ids[0]; t in s.reqs && s.reqs[t].ops.Some?
    ensures var g := s.groups[i];
      && LogRecord(g.base, g.ops) in s.log
      && j < |s.inserts| && s.inserts[j] == Insertion(g.mem, g.base, g.ops)
      && forall k :: 0 <= k < |s.inserts| && k != j ==>
           s.inserts[k].base + |s.inserts[k].ops| <= g.base || g.base + |g.ops| <= s.inserts[k].base
  {
    hide *;
    ReachableInv(rule, start, s);
    j := AtOnce(rule, start, s, i);
    forall k | 0 <= k < |s.inserts| && k != j
      ensures var g := s.groups[i];
        s.inserts[k].base + |s.inserts[k].ops| <= g.base || g.base + |g.ops| <= s.inserts[k].base
    {
      if k < j { InsertsApart(rule, start, s, k, j); } else { InsertsApart(rule, start, s, j, k); }
    }
  }

  lemma AtOnce(rule: JoinRule, start: nat, s: State, i: nat) returns (j: nat)
    requires Inv(rule, start, s) && i < |s.groups| && s.groups[i].ok
    requires s.groups[i].ids != [] && var t := s.groups[i].ids[0]; t in s.reqs && s.reqs[t].ops.Some?
    ensures var g := s.groups[i];
      LogRecord(g.base, g.ops) in s.log && j < |s.inserts| && s.inserts[j] == Insertion(g.mem, g.base, g.ops)
  {
    hide QueueOk, FrontOk, WriteOk, AnswersOk, NumbersOk, InsertedOf, InLogOf, Joined, Current, Inserting;
    assert GroupOk(rule, s, s.groups[i]);
    LoggedGroup(s.groups, i);
    j := InsertedGroup(s.groups, i);
  }

  function Rotations(run: seq<Step>): (n: nat) {
    if run == [] then 0 else (if run[0].Rotate? then 1 else 0) + Rotations(run[1..])
  }

  /** Every rotation makes a new memtable, and nothing else does. */
  lemma {:induction false} MemsCountRotations(rule: JoinRule, s: State, run: seq<Step>)
    requires Legal(rule, s, run)
    ensures Exec(rule, s, run).mem == s.mem + Rotations(run)
    decreases |run|
  {
    if run != [] {
      MemStep(rule, s, run[0]);
      hide Apply, Enabled;
      MemsCountRotations(rule, Apply(rule, s, run[0]), run[1..]);
    }
  }

  lemma MemStep(rule: JoinRule, s: State, a: Step)
    requires Enabled(s, a)
    ensures Apply(rule, s, a).mem == s.mem + if a.Rotate? then 1 else 0
  {
    hide Joined, GroupLength, Queue;
  }

  /** A leader that began in s, and has not returned, still writes what it began with. */
  ghost predicate StillWrites(s: State, s': State, t: nat, n: nat, ops: Ops) {
    && t in s'.pcs
    && match s'.pcs[t]
       case Writing(n', last, ops', mem, _, _, _) =>
         n' == n <= |s.queue| && last == s.lastSeq && ops' == ops && mem == s.mem && s.queue <= s'.queue
       case Returned(_) => true
       case _ => false
  }

  lemma StillWritesStep(rule: JoinRule, s: State, s': State, t: nat, n: nat, ops: Ops, a: Step)
    requires StillWrites(s, s', t, n, ops) && FrontOk(s') && Enabled(s', a)
    ensures StillWrites(s, Apply(rule, s', a), t, n, ops)
  {
    hide Joined, GroupLength, Queue;
    if (a.Finish? || a.FinishEmpty?) && s'.pcs[t].Writing? { OneActive(s', a.t, t); }
  }

  lemma {:induction false} StillWritesRun(rule: JoinRule, start: nat, s: State, s': State, t: nat, n: nat, ops: Ops,
      run: seq<Step>)
    requires Inv(rule, start, s') && StillWrites(s, s', t, n, ops) && Legal(rule, s', run)
    ensures StillWrites(s, Exec(rule, s', run), t, n, ops) && Inv(rule, start, Exec(rule, s', run))
    decreases |run|
  {
    hide Inv, StillWrites, Enabled, Apply, FrontOk;
    if run != [] {
      StepKeeps(rule, start, s', run[0]);
      assert FrontOk(s') by { FrontOf(rule, start, s'); }
      StillWritesStep(rule, s, s', t, n, ops, run[0]);
      StillWritesRun(rule, start, s, Apply(rule, s', run[0]), t, n, ops, run[1..]);
    }
  }

  lemma FrontOf(rule: JoinRule, start: nat, s: State)
    requires Inv(rule, start, s)
    ensures FrontOk(s)
  {
    hide NumbersOk, GroupOk, WriteOk, QueueOk, HistoryOk, AnswersOk, FrontOk;
  }

  /** Whatever other threads do meanwhile: what a leader puts into the log and into the memtable,
      and what it answers for, is the group it found when it began, numbered from the last sequence
      number of then on, and the memtable is the one of then. */
  lemma LeaderWrites(rule: JoinRule, start: nat, s: State, t: nat, run: seq<Step>, ok: bool)
    requires Reachable(rule, start, s) && Enabled(s, Begin(t)) && Legal(rule, Apply(rule, s, Begin(t)), run)
    ensures var n := GroupLength(Queue(s, s.queue));
      var base, ops, s' := s.lastSeq + 1, Joined(rule, Queue(s, s.queue), n), Exec(rule, Apply(rule, s, Begin(t)), run);
      && (Enabled(s', Append(t, true, ok)) ==>
            Apply(rule, s', Append(t, true, ok)).log == s'.log + [LogRecord(base, ops)])
      && (Enabled(s', Insert(t, ok)) ==>
            Apply(rule, s', Insert(t, ok)).inserts == s'.inserts + [Insertion(s.mem, base, ops)])
      && (Enabled(s', Finish(t)) ==> Ids(Apply(rule, s', Finish(t)).groups) == Ids(s'.groups) + s.queue[..n])
  {
    hide Inv, Reachable, Legal, Exec, Joined, GroupLength, StillWrites;
    var n := GroupLength(Queue(s, s.queue));
    var ops, s1 := Joined(rule, Queue(s, s.queue), n), Apply(rule, s, Begin(t));
    ReachableInv(rule, start, s);
    StepKeeps(rule, start, s, Begin(t));
    assert StillWrites(s, s1, t, n, ops) by { BegunWrites(rule, s, t); }
    StillWritesRun(rule, start, s, s1, t, n, ops, run);
    WritesThat(rule, start, s, Exec(rule, s1, run), t, n, ops, ok);
  }

  lemma BegunWrites(rule: JoinRule, s: State, t: nat)
    requires Enabled(s, Begin(t))
    ensures var n := GroupLength(Queue(s, s.queue));
      StillWrites(s, Apply(rule, s, Begin(t)), t, n, Joined(rule, Queue(s, s.queue), n))
  {
    hide Joined, GroupLength;
  }

  lemma WritesThat(rule: JoinRule, start: nat, s: State, s': State, t: nat, n: nat, ops: Ops, ok: bool)
    requires Inv(rule, start, s') && StillWrites(s, s', t, n, ops)
    ensures Enabled(s', Append(t, true, ok)) ==>
      Apply(rule, s', Append(t, true, ok)).log == s'.log + [LogRecord(s.lastSeq + 1, ops)]
    ensures Enabled(s', Insert(t, ok)) ==>
      Apply(rule, s', Insert(t, ok)).inserts == s'.inserts + [Insertion(s.mem, s.lastSeq + 1, ops)]
    ensures Enabled(s', Finish(t)) ==>
      n <= |s.queue| && Ids(Apply(rule, s', Finish(t)).groups) == Ids(s'.groups) + s.queue[..n]
  {
    hide Inv, Joined, GroupLength, WriteOk, HistoryOk, Ids;
    if IsWriting(s', t) {
      FrontIs(rule, start, s', t);
      SameMem(rule, s', s'.pcs[t]);
      if Enabled(s', Finish(t)) { FinishAnswers(rule, s', t, s.queue, n); }
    }
  }

  lemma FinishAnswers(rule: JoinRule, s: State, t: nat, queue: seq<nat>, n: nat)
    requires Enabled(s, Finish(t)) && s.pcs[t].n == n <= |queue| && queue <= s.queue
    ensures Ids(Apply(rule, s, Finish(t)).groups) == Ids(s.groups) + queue[..n]
  {
    hide Joined, Ids;
    assert s.queue[..n] == queue[..n];
    HistorySnoc(s.groups, Apply(rule, s, Finish(t)).groups[|s.groups|]);
  }

  /** t is done writing, or has returned, with this status. */
  ghost predicate Settles(s: State, t: nat, ok: bool) {
    t in s.pcs && (s.pcs[t] == Returned(ok) || (s.pcs[t].Writing? && s.pcs[t].phase == Settled(ok)))
  }

  lemma SettlesStep(rule: JoinRule, s: State, t: nat, ok: bool, a: Step)
    requires Settles(s, t, ok) && Enabled(s, a)
    ensures Settles(Apply(rule, s, a), t, ok)
  {
    hide Joined, GroupLength, Queue;
  }

  lemma {:induction false} SettlesRun(rule: JoinRule, s: State, t: nat, ok: bool, run: seq<Step>)
    requires Settles(s, t, ok) && Legal(rule, s, run)
    ensures Settles(Exec(rule, s, run), t, ok)
    decreases |run|
  {
    hide Settles, Enabled, Apply;
    if run != [] {
      SettlesStep(rule, s, t, ok, run[0]);
      SettlesRun(rule, Apply(rule, s, run[0]), t, ok, run[1..]);
    }
  }

  /** What a leader tells its caller, and everybody in its group, is how the log and the memtable took
      the batch: a failure of either is not reported as a success, nor the other way round. */
  lemma StatusIsReported(rule: JoinRule, start: nat, s: State, t: nat, a: Step, run: seq<Step>, told: bool)
    requires Reachable(rule, start, s) && Enabled(s, a) && Legal(rule, Apply(rule, s, a), run)
    requires (exists appended :: a == Append(t, appended, false)) || exists ok :: a == Insert(t, ok)
    requires var s' := Exec(rule, Apply(rule, s, a), run); t in s'.pcs && s'.pcs[t] == Returned(told)
    ensures told <==> a == Insert(t, true)
    ensures Answered(Exec(rule, Apply(rule, s, a), run), t, told)
  {
    hide Inv, Reachable, Legal, Exec, Joined, GroupLength, Answered;
    var s1 := Apply(rule, s, a);
    SettlesRun(rule, s1, t, a == Insert(t, true), run);
    ReachableInv(rule, start, s);
    StepKeeps(rule, start, s, a);
    RunKeeps(rule, start, s1, run);
    AnswersAre(rule, start, Exec(rule, s1, run));
  }

  lemma AnswersAre(rule: JoinRule, start: nat, s: State)
    requires Inv(rule, start, s)
    ensures AnswersOk(s)
  {
    hide NumbersOk, GroupOk, WriteOk, QueueOk, HistoryOk, FrontOk, AnswersOk;
  }

  lemma SameMem(rule: JoinRule, s: State, w: Pc)
    requires WriteOk(rule, s, w) && w.Writing?
    ensures w.mem == s.mem
  {
    hide Joined, Queue;
  }

  /** Repaired, a writer that is told of success has its batch, whole, in one record of the log. */
  lemma SuccessIsLogged(start: nat, s: State, t: nat) returns (g: Group, k: nat)
    requires Reachable(Repaired, start, s)
    requires t in s.pcs && s.pcs[t] == Returned(true) && t in s.reqs && s.reqs[t].ops.Some?
    ensures g in s.groups && LogRecord(g.base, g.ops) in s.log && k < |g.ids| && g.ids[k] == t
    ensures forall u :: u in g.ids ==> u in s.reqs
    ensures g.ops == AllOps(Queue(s, g.ids[..k])) + s.reqs[t].ops.value + AllOps(Queue(s, g.ids[k + 1..]))
  {
    hide AllOps, Queue, InLogOf, GroupOk;
    ReachableInv(Repaired, start, s);
    var i := AnswerOf(Repaired, start, s, t);
    g := s.groups[i];
    k :| k < |g.ids| && g.ids[k] == t;
    GroupJoins(s, g);
    LoggedAnswer(s, g, t);
    LoggedGroup(s.groups, i);
    ShareOf(s, g.ids, k);
  }

  lemma AnswerOf(rule: JoinRule, start: nat, s: State, t: nat) returns (i: nat)
    requires Inv(rule, start, s) && t in s.pcs && s.pcs[t] == Returned(true)
    ensures i < |s.groups| && t in s.groups[i].ids && s.groups[i].ok && GroupOk(rule, s, s.groups[i])
    ensures s.log == InLogOf(s.groups) + Current(s)
  {
    hide FrontOk, QueueOk, WriteOk, NumbersOk, Current, Inserting, InLogOf, InsertedOf, GroupOk;
    var n: int :| 0 <= n < |s.groups| && t in s.groups[n].ids && s.groups[n].ok == true;
    i := n;
  }

  lemma LoggedAnswer(s: State, g: Group, t: nat)
    requires GroupOk(Repaired, s, g) && t in g.ids && g.ok && t in s.reqs && s.reqs[t].ops.Some?
    ensures g.logged
  {
    hide Joined, Queue;
  }

  lemma ShareOf(s: State, ids: seq<nat>, k: nat)
    requires k < |ids| && (forall u :: u in ids ==> u in s.reqs)
    ensures AllOps(Queue(s, ids)) ==
      AllOps(Queue(s, ids[..k])) + OpsOf(s.reqs[ids[k]]) + AllOps(Queue(s, ids[k + 1..]))
  {
    hide AllOps;
    var r := s.reqs[ids[k]];
    var a, b := Queue(s, ids[..k]), Queue(s, ids[k + 1..]);
    assert Queue(s, ids) == a + ([r] + b);
    AllOpsConcat(a, [r] + b);
    AllOpsConcat([r], b);
    AllOpsOne(r);
  }

  /** The two writers of the example below, with the first one at `pc`. */
  ghost function Two(x: W.Op, y: W.Op, pc: Pc): (s: State) {
    State([0, 1], map[0 := pc, 1 := Queued], map[0 := Req(Some([x]), 30, false), 1 := Req(Some([y]), 30, false)],
          map[], 0, 0, [], [], [], [0, 1])
  }

  lemma TwoInRoom(x: W.Op, y: W.Op)
    ensures Reachable(AsWritten, 0, Two(x, y, InRoom))
  {
    hide Legal, Exec, Reachable;
    var a, b := Req(Some([x]), 30, false), Req(Some([y]), 30, false);
    StartReachable(AsWritten, 0);
    ReachableStep(AsWritten, 0, Init(0), Arrive(0, a));
    var s1 := Apply(AsWritten, Init(0), Arrive(0, a));
    ReachableStep(AsWritten, 0, s1, Arrive(1, b));
    assert Apply(AsWritten, s1, Arrive(1, b)) == Two(x, y, Queued);
    ReachableStep(AsWritten, 0, Two(x, y, Queued), Lead(0));
    assert Apply(AsWritten, Two(x, y, Queued), Lead(0)) == Two(x, y, InRoom);
  }

  lemma TwoWriting(x: W.Op, y: W.Op)
    requires x != y
    ensures Reachable(AsWritten, 0, Two(x, y, Writing(2, 0, [x, x], 0, false, false, Started)))
  {
    hide Legal, Exec, Reachable;
    TwoInRoom(x, y);
    FollowerLost(x, y);
    var s := Two(x, y, InRoom);
    assert Queue(s, s.queue) == [Req(Some([x]), 30, false), Req(Some([y]), 30, false)];
    ReachableStep(AsWritten, 0, s, Begin(0));
    hide GroupLength, Joined;
    assert Apply(AsWritten, s, Begin(0)) == Two(x, y, Writing(2, 0, [x, x], 0, false, false, Started));
  }

  /** As written, a writer can be told of success although its batch is nowhere: two writers of one
      operation each, the second queueing up before the first one merges. */
  lemma SuccessButLost(x: W.Op, y: W.Op) returns (s: State)
    requires x != y
    ensures Reachable(AsWritten, 0, s) && At(s, 1, Returned(true)) && 1 in s.reqs && s.reqs[1].ops == Some([y])
    ensures s.log == [LogRecord(1, [x, x])] && s.inserts == [Insertion(0, 1, [x, x])]
  {
    hide Legal, Exec, Reachable;
    TwoWriting(x, y);
    var w := Writing(2, 0, [x, x], 0, false, false, Started);
    s := Two(x, y, w);
    ReachableStep(AsWritten, 0, s, Append(0, true, true));
    var s1 := s.(log := [LogRecord(1, [x, x])], pcs := s.pcs[0 := w.(logged := true, phase := InLog)]);
    assert Apply(AsWritten, s, Append(0, true, true)) == s1;
    s := s1;
    ReachableStep(AsWritten, 0, s, Insert(0, true));
    var s2 := s.(inserts := [Insertion(0, 1, [x, x])], 
        pcs := s.pcs[0 := w.(logged := true, inserted := true, phase := Settled(true))]);
    assert Apply(AsWritten, s, Insert(0, true)) == s2;
    s := s2;
    ReachableStep(AsWritten, 0, s, Finish(0));
    s := Apply(AsWritten, s, Finish(0));
    assert 1 in (set i | 1 <= i < 2 :: s2.queue[i]) by { assert s2.queue[1] == 1; }
    assert At(s, 1, Queued) && 1 in s.results;
    ReachableStep(AsWritten, 0, s, Notice(1));
    s := Apply(AsWritten, s, Notice(1));
  }

  lemma StartReachable(rule: JoinRule, start: nat)
    ensures Reachable(rule, start, Init(start))
  {
    assert Legal(rule, Init(start), []) && Exec(rule, Init(start), []) == Init(start);
  }
}
