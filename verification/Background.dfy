/** The background thread: when a job is scheduled, and why a waiting writer is always woken up. A
    step is what a thread does between taking the lock and releasing it. */
module Background {
  import opened Base

  const COMPACT_AT: nat := 4
  const STOP_AT: nat := 12

  /** What a job does with the lock released: writing the immutable memtable, moving a file,
      merging, or writing the immutable memtable in the middle of a merge. */
  datatype Job = Flushing | Moving | Merging | MergeFlushing

  /** `posted` counts jobs handed to the environment, `running` those that have begun; `waiting`
      says that the writer in front sleeps in MakeRoomForWrite. `other` stands for the reasons to
      compact that do not come from the number of files in level 0. */
  datatype State = State(
    closed: bool, error: bool, imm: bool, level0: nat, other: bool,
    scheduled: bool, posted: nat, running: seq<Job>, waiting: bool)

  /** Open does not ask for a compaction. */
  function Init(level0: nat, other: bool): (s: State) {
    State(false, false, false, level0, other, false, 0, [], false)
  }

  predicate NeedCompaction(s: State) {
    s.level0 >= COMPACT_AT || s.other
  }

  function MayScheduleCompaction(s: State): (r: State) {
    if s.closed || s.scheduled || s.error || (!s.imm && !NeedCompaction(s)) then s
    else s.(scheduled := true, posted := s.posted + 1)
  }

  function SignalAll(s: State): (r: State) {
    s.(waiting := false)
  }

  function RecordError(s: State): (r: State) {
    if s.error then s else SignalAll(s.(error := true))
  }

  /** The end of BackgroundCompactionCall. */
  function EndJob(s: State, i: nat): (r: State)
    requires i < |s.running|
  {
    SignalAll(MayScheduleCompaction(s.(running := s.running[..i] + s.running[i + 1..], scheduled := false)))
  }

  datatype Step =
    | Rotate
    | Wait
    | ReadStats
    | SyncError
    | Close
    | StartJob(job: Option<Job>)
    | EndFlush(i: nat, ok: bool, wrote: bool, other: bool)
    | EndMerge(i: nat, ok: bool, level0: nat, other: bool)
    | FlushInMerge(i: nat)
    | EndFlushInMerge(i: nat, ok: bool, wrote: bool, other: bool)

  predicate Blocked(s: State) {
    !s.error && (s.level0 >= STOP_AT || s.imm)
  }

  ghost predicate Enabled(s: State, a: Step) {
    match a
    case Rotate => !s.error && s.level0 < STOP_AT && !s.imm && !s.waiting
    case Wait => Blocked(s) && !s.waiting
    case ReadStats => true
    case SyncError => true
    case Close => true
    case StartJob(job) => s.posted > 0
      && (match job
          case None => s.closed || s.error || !s.imm
          case Some(j) => !s.closed && !s.error && (if s.imm then j == Flushing else j == Moving || j == Merging))
    case EndFlush(i, ok, _, _) => i < |s.running| && s.running[i] == Flushing
    // A compaction of level 0 takes files out of it; one of a deeper level leaves it alone.
    case EndMerge(i, ok, level0, _) =>
      i < |s.running| && (s.running[i] == Merging || s.running[i] == Moving) && level0 <= s.level0
    case FlushInMerge(i) => i < |s.running| && s.running[i] == Merging && s.imm
    case EndFlushInMerge(i, _, _, _) => i < |s.running| && s.running[i] == MergeFlushing
  }

  /** CompactionMemtable, once the table is written. */
  function Flushed(s: State, ok: bool, wrote: bool, other: bool): (r: State) {
    if ok then s.(imm := false, level0 := s.level0 + (if wrote then 1 else 0), other := other) else RecordError(s)
  }

  ghost function Apply(s: State, a: Step): (s': State)
    requires Enabled(s, a)
  {
    match a
    case Rotate => MayScheduleCompaction(s.(imm := true))
    case Wait => s.(waiting := true)
    case ReadStats => MayScheduleCompaction(s.(other := true))
    case SyncError => RecordError(s)
    case Close => s.(closed := true)
    case StartJob(job) =>
      var s1 := s.(posted := s.posted - 1);
      (match job
       case None => EndJob(s1.(running := s1.running + [Moving]), |s1.running|)
       case Some(j) => s1.(running := s1.running + [j]))
    case EndFlush(i, ok, wrote, other) => EndJob(Flushed(s, ok, wrote, other), i)
    case EndMerge(i, ok, level0, other) =>
      EndJob(if ok then s.(level0 := level0, other := other) else RecordError(s), i)
    case FlushInMerge(i) => s.(running := s.running[i := MergeFlushing])
    case EndFlushInMerge(i, ok, wrote, other) =>
      SignalAll(Flushed(s, ok, wrote, other).(running := s.running[i := Merging]))
  }

  // ---------------------------------------------------------------- the invariant

  /** At most one job is in flight, and the flag says whether one is. */
  predicate OneJob(s: State) {
    s.posted + |s.running| == if s.scheduled then 1 else 0
  }

  /** An immutable memtable, or a level 0 so full that writers stop, has a job coming for it. */
  predicate Covered(s: State) {
    !s.error && !s.closed && (s.imm || s.level0 >= STOP_AT) ==> s.scheduled
  }

  predicate JobsFit(s: State) {
    forall j :: j in s.running && (j == Flushing || j == MergeFlushing) ==> s.imm
  }

  predicate Inv(s: State) {
    OneJob(s) && Covered(s) && JobsFit(s) && (s.waiting ==> Blocked(s))
  }

  /** Ending the only job, whatever it has done. */
  lemma EndJobInv(s: State, i: nat)
    requires i < |s.running| && |s.running| == 1 && s.posted == 0
    ensures Inv(EndJob(s, i))
  {
    assert s.running[..i] + s.running[i + 1..] == [];
  }

  /** A running job is the only one. */
  lemma OnlyJob(s: State, i: nat)
    requires OneJob(s) && i < |s.running|
    ensures i == 0 && s.running == [s.running[0]] && s.posted == 0 && s.scheduled
  {}

  lemma FlushedSame(s: State, ok: bool, wrote: bool, other: bool)
    ensures var r := Flushed(s, ok, wrote, other);
      r.running == s.running && r.posted == s.posted && r.scheduled == s.scheduled && r.closed == s.closed
  {}

  lemma ForegroundKeeps(s: State, a: Step)
    requires Inv(s) && Enabled(s, a) && (a.Rotate? || a.Wait? || a.ReadStats? || a.SyncError? || a.Close?)
    ensures Inv(Apply(s, a))
  {}

  lemma StartJobKeeps(s: State, job: Option<Job>)
    requires Inv(s) && Enabled(s, StartJob(job))
    ensures Inv(Apply(s, StartJob(job)))
  {
    assert s.posted == 1 && s.running == [];
    if job.None? {
      EndJobInv(s.(posted := 0, running := [Moving]), 0);
    }
  }

  lemma EndKeeps(s: State, a: Step)
    requires Inv(s) && Enabled(s, a) && (a.EndFlush? || a.EndMerge?)
    ensures Inv(Apply(s, a))
  {
    hide Inv, EndJob, Flushed;
    OneOf(s);
    OnlyJob(s, a.i);
    if a.EndFlush? {
      FlushedSame(s, a.ok, a.wrote, a.other);
      EndJobInv(Flushed(s, a.ok, a.wrote, a.other), a.i);
    } else {
      EndJobInv(if a.ok then s.(level0 := a.level0, other := a.other) else RecordError(s), a.i);
    }
  }

  lemma OneOf(s: State)
    requires Inv(s)
    ensures OneJob(s)
  {}

  lemma InMergeKeeps(s: State, a: Step)
    requires Inv(s) && Enabled(s, a) && (a.FlushInMerge? || a.EndFlushInMerge?)
    ensures Inv(Apply(s, a))
  {
    OnlyJob(s, a.i);
  }

  /** Every step keeps the invariant. */
  lemma StepKeeps(s: State, a: Step)
    requires Inv(s) && Enabled(s, a)
    ensures Inv(Apply(s, a))
  {
    hide *;
    match a
    case Rotate => ForegroundKeeps(s, a);
    case Wait => ForegroundKeeps(s, a);
    case ReadStats => ForegroundKeeps(s, a);
    case SyncError => ForegroundKeeps(s, a);
    case Close => ForegroundKeeps(s, a);
    case StartJob(job) => StartJobKeeps(s, job);
    case EndFlush(_, _, _, _) => EndKeeps(s, a);
    case EndMerge(_, _, _, _) => EndKeeps(s, a);
    case FlushInMerge(_) => InMergeKeeps(s, a);
    case EndFlushInMerge(_, _, _, _) => InMergeKeeps(s, a);
  }

  // ---------------------------------------------------------------- runs

  ghost predicate Legal(s: State, run: seq<Step>)
    decreases |run|
  {
    run == [] || (Enabled(s, run[0]) && Legal(Apply(s, run[0]), run[1..]))
  }

  ghost function Exec(s: State, run: seq<Step>): (s': State)
    requires Legal(s, run)
    decreases |run|
  {
    if run == [] then s else Exec(Apply(s, run[0]), run[1..])
  }

  ghost predicate Reachable(level0: nat, other: bool, s: State) {
    exists run :: Legal(Init(level0, other), run) && Exec(Init(level0, other), run) == s
  }

  lemma {:induction false} RunKeeps(s: State, run: seq<Step>)
    requires Inv(s) && Legal(s, run)
    ensures Inv(Exec(s, run))
    decreases |run|
  {
    hide Inv, Apply, Enabled;
    if run != [] {
      StepKeeps(s, run[0]);
      RunKeeps(Apply(s, run[0]), run[1..]);
    }
  }

  /** In every run that opens with fewer files in level 0 than stop writers: at most one background
      job is in flight; an immutable memtable without an error or shutdown has one; and so does a
      sleeping writer, whose reason to sleep still holds. */
  lemma WaiterHasJob(level0: nat, other: bool, s: State)
    requires level0 < STOP_AT && Reachable(level0, other, s)
    ensures s.posted + |s.running| <= 1
    ensures s.imm && !s.error && !s.closed ==> s.posted + |s.running| == 1
    ensures s.waiting ==> Blocked(s) && (!s.closed ==> s.posted + |s.running| == 1)
  {
    hide Legal, Exec;
    var run :| Legal(Init(level0, other), run) && Exec(Init(level0, other), run) == s;
    RunKeeps(Init(level0, other), run);
  }

  /** A store opened with a level 0 that stops writers has no job coming: the first writer goes to
      sleep and nobody is there to wake it. So every sleeping writer has a job exactly if the store
      is opened with fewer files than that. */
  lemma WaitersHaveJobsIff(level0: nat)
    ensures (forall other, s :: Reachable(level0, other, s) && s.waiting && !s.closed ==> s.posted + |s.running| == 1)
       <==> level0 < STOP_AT
  {
    if level0 >= STOP_AT {
      var s := Init(level0, false);
      var s' := s.(waiting := true);
      assert Enabled(s, Wait) && Apply(s, Wait) == s';
      assert [Wait][1..] == [];
      assert Legal(s', []) && Exec(s', []) == s';
      assert Legal(s, [Wait]) && Exec(s, [Wait]) == s';
      assert Reachable(level0, false, s');
    } else {
      forall other, s | Reachable(level0, other, s) && s.waiting && !s.closed
        ensures s.posted + |s.running| == 1
      {
        WaiterHasJob(level0, other, s);
      }
    }
  }

  // ---------------------------------------------------------------- work gets a job

  /** An immutable memtable, four files in level 0, or another reason to compact: each has a job coming. */
  predicate Fed(s: State) {
    !s.error && !s.closed && (s.imm || s.level0 >= 4 || s.other) ==> s.scheduled
  }

  lemma FedStep(s: State, a: Step)
    requires Inv(s) && Enabled(s, a) && (Fed(s) || a.Rotate? || a.ReadStats? || a.EndMerge? || a.EndFlush?)
    ensures Fed(Apply(s, a))
  {
    if a.EndFlushInMerge? { OnlyJob(s, a.i); }
  }

  lemma {:induction false} FedRun(s: State, run: seq<Step>)
    requires Inv(s) && Fed(s) && Legal(s, run)
    ensures Fed(Exec(s, run))
    decreases |run|
  {
    hide Inv, Fed, Apply, Enabled;
    if run != [] {
      StepKeeps(s, run[0]);
      FedStep(s, run[0]);
      FedRun(Apply(s, run[0]), run[1..]);
    }
  }

  lemma FedHasJob(s: State)
    requires Inv(s) && Fed(s) && !s.error && !s.closed && (s.imm || s.level0 >= 4 || s.other)
    ensures s.posted + |s.running| == 1
  {}

  lemma InitInv(level0: nat, other: bool)
    requires level0 < STOP_AT
    ensures Inv(Init(level0, other)) && (Fed(Init(level0, other)) <==> level0 < 4 && !other)
  {}

  /** Open does not look whether there is work. So: whatever there is to do has a job, in every run,
      exactly if there was nothing to do at open. */
  lemma WorkHasJobIff(level0: nat, other: bool)
    requires level0 < STOP_AT
    ensures (forall s :: Reachable(level0, other, s) && !s.error && !s.closed && (s.imm || s.level0 >= 4 || s.other) ==>
              s.posted + |s.running| == 1)
       <==> level0 < 4 && !other
  {
    hide Legal, Exec, Inv, Fed;
    var s0 := Init(level0, other);
    InitInv(level0, other);
    assert Reachable(level0, other, s0) by { AtOpen(level0, other); }
    if level0 < 4 && !other {
      forall s | Reachable(level0, other, s) && !s.error && !s.closed && (s.imm || s.level0 >= 4 || s.other)
        ensures s.posted + |s.running| == 1
      {
        var run :| Legal(s0, run) && Exec(s0, run) == s;
        RunKeeps(s0, run);
        FedRun(s0, run);
        FedHasJob(s);
      }
    }
  }

  /** No job is asked for without a reason, and the reason lasts until the job begins. */
  predicate Asked(s: State) {
    s.posted > 0 ==> s.imm || s.level0 >= 4 || s.other
  }

  lemma AskedStep(s: State, a: Step)
    requires Inv(s) && Enabled(s, a) && Asked(s)
    ensures Asked(Apply(s, a))
  {
    if a.EndFlush? || a.EndMerge? || a.FlushInMerge? || a.EndFlushInMerge? { OnlyJob(s, a.i); }
  }

  lemma {:induction false} AskedRun(s: State, run: seq<Step>)
    requires Inv(s) && Asked(s) && Legal(s, run)
    ensures Asked(Exec(s, run))
    decreases |run|
  {
    hide Inv, Asked, Apply, Enabled;
    if run != [] {
      StepKeeps(s, run[0]);
      AskedStep(s, run[0]);
      AskedRun(Apply(s, run[0]), run[1..]);
    }
  }

  lemma JobsHaveReasons(level0: nat, other: bool, s: State)
    requires level0 < STOP_AT && Reachable(level0, other, s)
    ensures s.posted > 0 ==> s.imm || s.level0 >= 4 || s.other
  {
    hide Legal, Exec, Inv, Fed;
    var run :| Legal(Init(level0, other), run) && Exec(Init(level0, other), run) == s;
    InitInv(level0, other);
    AskedRun(Init(level0, other), run);
  }

  lemma AtOpen(level0: nat, other: bool)
    ensures Reachable(level0, other, Init(level0, other))
  {
    assert Legal(Init(level0, other), []) && Exec(Init(level0, other), []) == Init(level0, other);
  }

  /** And whatever there was at open: from the first full memtable or the first read that finds a file
      to compact on, all work has a job. */
  lemma WorkHasJobAfter(level0: nat, other: bool, run: seq<Step>, a: Step, more: seq<Step>)
    requires level0 < STOP_AT && Legal(Init(level0, other), run)
    requires (a.Rotate? || a.ReadStats?) && Enabled(Exec(Init(level0, other), run), a)
    requires Legal(Apply(Exec(Init(level0, other), run), a), more)
    ensures var s := Exec(Apply(Exec(Init(level0, other), run), a), more);
      !s.error && !s.closed && (s.imm || s.level0 >= 4 || s.other) ==> s.posted + |s.running| == 1
  {
    hide Legal, Exec, Inv, Fed, Enabled, Apply;
    var s0 := Init(level0, other);
    InitInv(level0, other);
    RunKeeps(s0, run);
    var s1 := Exec(s0, run);
    StepKeeps(s1, a);
    FedStep(s1, a);
    var s2 := Apply(s1, a);
    RunKeeps(s2, more);
    FedRun(s2, more);
    var s := Exec(s2, more);
    if !s.error && !s.closed && (s.imm || s.level0 >= 4 || s.other) { FedHasJob(s); }
  }

  // ---------------------------------------------------------------- errors

  predicate Fails(a: Step) {
    a.SyncError? || (a.EndFlush? && !a.ok) || (a.EndMerge? && !a.ok) || (a.EndFlushInMerge? && !a.ok)
  }

  /** After an error: no sleeping writer, and no more jobs than there were. */
  predicate Stopped(s: State, jobs: nat) {
    s.error && !s.waiting && s.posted + |s.running| <= jobs
  }

  lemma StoppedStep(s: State, a: Step, jobs: nat)
    requires Enabled(s, a)
    requires Stopped(s, jobs) || (Fails(a) && s.posted + |s.running| <= jobs && (s.error ==> !s.waiting))
    ensures Stopped(Apply(s, a), jobs)
  {}

  lemma {:induction false} StoppedRun(s: State, run: seq<Step>, jobs: nat)
    requires Stopped(s, jobs) && Legal(s, run)
    ensures Stopped(Exec(s, run), jobs)
    decreases |run|
  {
    hide Stopped, Enabled, Apply;
    if run != [] {
      StoppedStep(s, run[0], jobs);
      StoppedRun(Apply(s, run[0]), run[1..], jobs);
    }
  }

  /** A background error is final: from then on no job is scheduled and no writer sleeps. */
  lemma ErrorIsFinal(level0: nat, other: bool, s: State, a: Step, run: seq<Step>)
    requires level0 < STOP_AT && Reachable(level0, other, s) && Enabled(s, a) && Legal(Apply(s, a), run)
    requires Fails(a)
    ensures var s' := Exec(Apply(s, a), run);
      s'.error && !s'.waiting && s'.posted + |s'.running| <= s.posted + |s.running|
  {
    hide Legal, Exec, Inv, Enabled, Apply;
    var before :| Legal(Init(level0, other), before) && Exec(Init(level0, other), before) == s;
    InitInv(level0, other);
    RunKeeps(Init(level0, other), before);
    ErrorsWake(s);
    StoppedStep(s, a, s.posted + |s.running|);
    StoppedRun(Apply(s, a), run, s.posted + |s.running|);
  }

  lemma ErrorsWake(s: State)
    requires Inv(s)
    ensures s.error ==> !s.waiting
  {}
}
