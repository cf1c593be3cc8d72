/** Which files garbage collection removes, and why none of them is needed: table files of
    referenced versions or being written, logs with writes that are in no table yet, the manifest
    in use. */
module Garbage {
  import opened Base

  /** A version on the list of versions: its table files and its reference count. */
  datatype Ver = Ver(files: set<nat>, refs: nat)

  /** What the single background job holds between its lock sections: files it is writing, a file
      that is complete but in no version yet, the version a merge reads from. */
  datatype Merge = Merge(input: nat, outs: set<nat>)
  datatype Flush = Building(file: nat) | Built(file: nat)

  /** `vers` is the list of versions, `current` one of them; `readers` are the versions that readers
      hold. `writing` is files_writing_. `memLogs` and `immLogs` number the logs that the
      memtables' writes are in. `logNumber` belongs to the version set, `firstLog` is
      logfile_number_, which rotation leaves alone. */
  datatype State = State(
    tables: set<nat>, logs: set<nat>, metas: set<nat>,
    vers: map<nat, Ver>, current: nat, readers: map<nat, nat>, writing: set<nat>,
    merge: Option<Merge>, flush: Option<Flush>, nextFile: nat, nextVer: nat,
    memLogs: set<nat>, immLogs: set<nat>, logNumber: nat, firstLog: nat, metaNumber: nat)

  /** The store just after Open: one version, one empty log. Older files may lie about, among them
      some with numbers still to come: a crash loses numbers that were handed out but not recorded. */
  predicate Opened(s: State) {
    && s.current in s.vers && s.vers == map[s.current := Ver(s.vers[s.current].files, 1)]
        && s.vers[s.current].files <= s.tables
    && s.readers == map[] && s.writing == {} && s.merge == None && s.flush == None && s.nextVer > s.current
    && s.memLogs == {s.firstLog} && s.immLogs == {} && s.logNumber == s.firstLog && s.firstLog in s.logs
    && s.metaNumber in s.metas && Below(s.vers[s.current].files, s.nextFile)
    && s.firstLog < s.nextFile && s.metaNumber < s.nextFile
  }

  // ---------------------------------------------------------------- steps

  /** Version::Ref. */
  function Ref(s: State, v: nat): (r: State)
    requires v in s.vers
  {
    s.(vers := s.vers[v := Ver(s.vers[v].files, s.vers[v].refs + 1)])
  }

  /** Version::Unref: the last reference takes the version off the list. */
  function Unref(s: State, v: nat): (r: State) {
    if v !in s.vers || s.vers[v].refs <= 1 then s.(vers := s.vers - {v})
    else s.(vers := s.vers[v := Ver(s.vers[v].files, s.vers[v].refs - 1)])
  }

  /** AppendVersion. */
  function AppendVersion(s: State, files: set<nat>): (r: State) {
    var s1 := Unref(s, s.current);
    s1.(vers := s1.vers[s.nextVer := Ver(files, 1)], current := s.nextVer, nextVer := s.nextVer + 1)
  }

  /** AddLiveFiles, with the files being written. */
  function Live(s: State): (r: set<nat>) {
    s.writing + set v, n | v in s.vers && n in s.vers[v].files :: n
  }

  /** GarbageFilesClean. */
  function Clean(s: State): (r: State) {
    s.(tables := s.tables * Live(s),
       logs := (set n | n in s.logs && n >= s.logNumber),
       metas := (set n | n in s.metas && n >= s.metaNumber))
  }

  datatype Step =
    | Rotate
    | StartRead(id: nat)
    | EndRead(id: nat)
    | StartFlush
    | Build
    | CommitFlush(empty: bool)
    | FailFlush(removed: bool)
    | Move
    | StartMerge
    | OpenOutput
    | CommitMerge(deleted: set<nat>)
    | FailMerge

  ghost predicate Enabled(s: State, a: Step) {
    s.current in s.vers &&
    match a
    case Rotate => s.immLogs == {}
    case StartRead(id) => id !in s.readers
    case EndRead(id) => id in s.readers
    case StartFlush => s.flush == None && s.immLogs != {}
    case Build => s.flush.Some? && s.flush.value.Building?
    case CommitFlush(_) => s.flush.Some? && s.flush.value.Built?
    // BuildSSTable removes what it could not finish.
    case FailFlush(removed) => s.flush.Some? && (removed ==> s.flush.value.Building?)
    case Move => s.merge == None && s.flush == None
    case StartMerge => s.merge == None && s.flush == None
    case OpenOutput => s.merge.Some? && s.flush == None
    case CommitMerge(_) => s.merge.Some? && s.flush == None
    case FailMerge => s.merge.Some? && s.flush == None
  }

  function Apply(s: State, a: Step): (r: State)
    requires Enabled(s, a)
  {
    match a
    case Rotate =>
      s.(logs := s.logs + {s.nextFile}, immLogs := s.memLogs, memLogs := {s.nextFile}, nextFile := s.nextFile + 1)
    case StartRead(id) => Ref(s, s.current).(readers := s.readers[id := s.current])
    case EndRead(id) => Unref(s, s.readers[id]).(readers := s.readers - {id})
    // WriteLevel0SSTable, before and after the table is written with the lock released.
    case StartFlush =>
      s.(flush := Some(Building(s.nextFile)), tables := s.tables + {s.nextFile}, writing := s.writing + {s.nextFile},
         nextFile := s.nextFile + 1)
    case Build => s.(flush := Some(Built(s.flush.value.file)), writing := s.writing - {s.flush.value.file})
    // LogAndApply and what CompactionMemtable does after it; an empty memtable makes no file.
    case CommitFlush(empty) =>
      var files := s.vers[s.current].files + if empty then {} else {s.flush.value.file};
      Clean(AppendVersion(s, files).(flush := None, immLogs := {}, logNumber := s.firstLog))
    case FailFlush(removed) =>
      var file := s.flush.value.file;
      s.(flush := None, writing := s.writing - {file}, tables := s.tables - if removed then {file} else {})
    case Move => AppendVersion(s, s.vers[s.current].files)
    case StartMerge => Ref(s, s.current).(merge := Some(Merge(s.current, {})))
    case OpenOutput =>
      var outs := s.merge.value.outs + {s.nextFile};
      s.(merge := Some(s.merge.value.(outs := outs)), tables := s.tables + {s.nextFile},
         writing := s.writing + {s.nextFile}, nextFile := s.nextFile + 1)
    case CommitMerge(deleted) =>
      var outs := s.merge.value.outs;
      var s1 := AppendVersion(s, s.vers[s.current].files - deleted + outs);
      Clean(Unref(s1.(writing := s.writing - outs), s.merge.value.input).(merge := None))
    // A background error: the job is cleaned up, garbage is not collected.
    case FailMerge => Unref(s.(writing := s.writing - s.merge.value.outs), s.merge.value.input).(merge := None)
  }

  // ---------------------------------------------------------------- the invariant

  function Readers(s: State, v: nat): (ids: set<nat>) {
    set r | r in s.readers && s.readers[r] == v
  }

  /** Everyone who holds a version. */
  function Holders(s: State, v: nat): (n: nat) {
    (if v == s.current then 1 else 0) + (if s.merge.Some? && s.merge.value.input == v then 1 else 0) + |Readers(s, v)|
  }

  /** Reference counts count the holders, and a version is on the list as long as it has one. */
  predicate RefsOk(s: State) {
    && (forall v :: v in s.vers ==> s.vers[v].refs == Holders(s, v) && v < s.nextVer)
    && s.current in s.vers && (s.merge.Some? ==> s.merge.value.input in s.vers)
    && (forall r :: r in s.readers ==> s.readers[r] in s.vers)
  }

  predicate TablesOk(s: State) {
    && (forall v, n :: v in s.vers && n in s.vers[v].files ==> n in s.tables)
    && s.writing <= s.tables && (s.merge.Some? ==> s.merge.value.outs <= s.writing)
    && (s.flush.Some? ==>
          s.flush.value.file in s.tables && (s.flush.value.Building? ==> s.flush.value.file in s.writing))
  }

  /** The table being flushed belongs to nobody else. */
  predicate FlushOwn(s: State) {
    s.flush.Some? ==>
      var f := s.flush.value.file;
      && (forall v :: v in s.vers ==> f !in s.vers[v].files)
      && (s.merge.Some? ==> f !in s.merge.value.outs) && (s.flush.value.Built? ==> f !in s.writing)
  }

  predicate LogsOk(s: State) {
    && s.memLogs + s.immLogs <= s.logs && s.logNumber <= s.firstLog < s.nextFile
    && (forall n :: n in s.memLogs + s.immLogs ==> n >= s.firstLog) && s.metaNumber in s.metas
  }

  predicate Below(ns: set<nat>, top: nat) {
    forall n :: n in ns ==> n < top
  }

  /** Numbers still to come are in no use; files that nobody knows of may have them. */
  predicate Fresh(s: State) {
    && (forall v :: v in s.vers ==> Below(s.vers[v].files, s.nextFile))
    && Below(s.writing, s.nextFile) && (s.flush.Some? ==> s.flush.value.file < s.nextFile)
    && Below(s.memLogs + s.immLogs, s.nextFile) && s.metaNumber < s.nextFile
  }

  predicate Inv(s: State) {
    RefsOk(s) && TablesOk(s) && FlushOwn(s) && LogsOk(s) && Fresh(s)
  }

  lemma OpenedInv(s: State)
    requires Opened(s)
    ensures Inv(s)
  {
    assert Readers(s, s.current) == {};
  }

  // ---------------------------------------------------------------- what steps keep

  /** RefsOk, but for one reference too many on version `at`. */
  predicate RefsExtra(s: State, at: nat) {
    && (forall v :: v in s.vers ==> s.vers[v].refs == Holders(s, v) + (if v == at then 1 else 0) && v < s.nextVer)
    && s.current in s.vers && (s.merge.Some? ==> s.merge.value.input in s.vers)
    && (forall r :: r in s.readers ==> s.readers[r] in s.vers) && at in s.vers
  }

  lemma HoldersSame(s: State, s': State)
    requires s'.current == s.current && s'.merge == s.merge && s'.readers == s.readers
    ensures forall v :: Holders(s', v) == Holders(s, v)
  {
    forall v
      ensures Holders(s', v) == Holders(s, v)
    {
      assert Readers(s', v) == Readers(s, v);
    }
  }

  lemma HeldIsCounted(s: State, v: nat)
    ensures v == s.current || (s.merge.Some? && s.merge.value.input == v)
        || (exists r :: r in s.readers && s.readers[r] == v)
       ==> Holders(s, v) >= 1
  {
    if r :| r in s.readers && s.readers[r] == v {
      assert r in Readers(s, v);
    }
  }

  /** Dropping a reference that no holder stands for any more. */
  lemma UnrefKeeps(s: State, v: nat)
    requires RefsExtra(s, v)
    ensures RefsOk(Unref(s, v))
  {
    var s' := Unref(s, v);
    HoldersSame(s, s');
    HeldIsCounted(s, v);
    hide Holders;
  }

  lemma StartReadHolders(s: State, s': State, id: nat, v: nat)
    requires id !in s.readers && s'.current == s.current && s'.merge == s.merge
        && s'.readers == s.readers[id := s.current]
    ensures Holders(s', v) == Holders(s, v) + if v == s.current then 1 else 0
  {
    var more := if v == s.current then {id} else {};
    assert Readers(s', v) == Readers(s, v) + more && Readers(s, v) !! more;
  }

  lemma StartReadRefs(s: State, id: nat)
    requires RefsOk(s) && id !in s.readers
    ensures RefsOk(Ref(s, s.current).(readers := s.readers[id := s.current]))
  {
    hide Holders;
    var s' := Ref(s, s.current).(readers := s.readers[id := s.current]);
    forall v | v in s'.vers
      ensures s'.vers[v].refs == Holders(s', v)
    {
      StartReadHolders(s, s', id, v);
    }
  }

  lemma EndReadHolders(s: State, mid: State, id: nat, v: nat)
    requires id in s.readers && mid == s.(readers := s.readers - {id})
    ensures Holders(s, v) == Holders(mid, v) + if v == s.readers[id] then 1 else 0
  {
    assert Readers(s, v) == Readers(mid, v) + if v == s.readers[id] then {id} else {};
    assert id !in Readers(mid, v);
  }

  lemma EndReadRefs(s: State, id: nat)
    requires RefsOk(s) && id in s.readers
    ensures RefsOk(Unref(s, s.readers[id]).(readers := s.readers - {id}))
  {
    hide Holders;
    var mid := s.(readers := s.readers - {id});
    forall v | v in mid.vers
      ensures mid.vers[v].refs == Holders(mid, v) + if v == s.readers[id] then 1 else 0
    {
      EndReadHolders(s, mid, id, v);
    }
    UnrefKeeps(mid, s.readers[id]);
    assert Unref(mid, s.readers[id]) == Unref(s, s.readers[id]).(readers := s.readers - {id});
  }

  lemma MergeHolders(s: State, s': State, v: nat)
    requires s'.current == s.current && s'.readers == s.readers && s.merge == None && s'.merge.Some?
    ensures Holders(s', v) == Holders(s, v) + if v == s'.merge.value.input then 1 else 0
  {
    assert Readers(s', v) == Readers(s, v);
  }

  lemma StartMergeRefs(s: State)
    requires RefsOk(s) && s.merge == None
    ensures RefsOk(Ref(s, s.current).(merge := Some(Merge(s.current, {}))))
  {
    hide Holders;
    var s' := Ref(s, s.current).(merge := Some(Merge(s.current, {})));
    forall v | v in s'.vers
      ensures s'.vers[v].refs == Holders(s', v)
    {
      MergeHolders(s, s', v);
    }
  }

  lemma EndMergeRefs(s: State)
    requires RefsOk(s) && s.merge.Some?
    ensures RefsOk(Unref(s, s.merge.value.input).(merge := None))
  {
    hide Holders;
    var v0, mid := s.merge.value.input, s.(merge := None);
    forall v | v in mid.vers
      ensures mid.vers[v].refs == Holders(mid, v) + if v == v0 then 1 else 0
    {
      MergeHolders(mid, s, v);
    }
    UnrefKeeps(mid, v0);
    assert Unref(mid, v0) == Unref(s, v0).(merge := None);
  }

  lemma AppendHolders(s: State, mid: State, v: nat)
    requires RefsOk(s) && v in s.vers + map[s.nextVer := s.vers[s.current]]
    requires mid.current == s.nextVer && mid.merge == s.merge && mid.readers == s.readers
    ensures Holders(mid, v) == if v == s.nextVer then 1 else Holders(s, v) - if v == s.current then 1 else 0
  {
    assert Readers(mid, v) == Readers(s, v);
    if v == s.nextVer { NoHolders(s, v); }
  }

  /** A new current version: the old one loses a holder, the new one starts with one. */
  lemma AppendRefs(s: State, files: set<nat>)
    requires RefsOk(s)
    ensures RefsOk(AppendVersion(s, files))
  {
    hide Holders;
    var was, n := s.current, s.nextVer;
    var mid := s.(vers := s.vers[n := Ver(files, 1)], current := n, nextVer := n + 1);
    forall v | v in mid.vers
      ensures mid.vers[v].refs == Holders(mid, v) + if v == was then 1 else 0
    {
      AppendHolders(s, mid, v);
    }
    UnrefKeeps(mid, was);
    assert Unref(mid, was) == AppendVersion(s, files);
  }

  lemma NoHolders(s: State, v: nat)
    requires RefsOk(s) && v !in s.vers
    ensures Holders(s, v) == 0
  {
    assert Readers(s, v) == {};
  }

  /** Collection removes no table of a version on the list and none being written, no log that
      holds writes of a memtable, and not the manifest. */
  lemma CleanKeeps(s: State)
    requires Inv(s) && s.flush == None
    ensures Inv(Clean(s))
  {
    hide Holders, Live;
    var s' := Clean(s);
    HoldersSame(s, s');
    LiveIs(s);
    assert RefsOk(s') && FlushOwn(s');
    assert LogsOk(s');
    assert TablesOk(s');
    assert Fresh(s');
  }

  lemma LiveIs(s: State)
    ensures forall n :: n in Live(s) <==> n in s.writing || (exists v :: v in s.vers && n in s.vers[v].files)
  {}

  /** A new file: written under a number nobody has. */
  lemma NewTableKeeps(s: State, s': State)
    requires Inv(s) && s'.vers == s.vers && s'.current == s.current && s'.readers == s.readers
        && s'.nextVer == s.nextVer
    requires s'.tables == s.tables + {s.nextFile} && s'.writing == s.writing + {s.nextFile}
        && s'.nextFile == s.nextFile + 1
    requires s'.logs == s.logs && s'.metas == s.metas && s'.memLogs == s.memLogs && s'.immLogs == s.immLogs
    requires s'.logNumber == s.logNumber && s'.firstLog == s.firstLog && s'.metaNumber == s.metaNumber
    requires (s'.merge == s.merge && s.flush == None && s'.flush == Some(Building(s.nextFile)))
          || (s'.flush == s.flush == None && s.merge.Some?
              && s'.merge == Some(s.merge.value.(outs := s.merge.value.outs + {s.nextFile})))
    ensures Inv(s')
  {
    hide Holders;
    NewTableRefs(s, s');
    assert s.nextFile !in s.writing && forall v :: v in s.vers ==> s.nextFile !in s.vers[v].files;
    assert Fresh(s') && LogsOk(s') && TablesOk(s') && FlushOwn(s');
  }

  lemma NewTableRefs(s: State, s': State)
    requires RefsOk(s) && s'.vers == s.vers && s'.current == s.current && s'.readers == s.readers
        && s'.nextVer == s.nextVer
    requires s'.merge.Some? == s.merge.Some? && (s.merge.Some? ==> s'.merge.value.input == s.merge.value.input)
    ensures RefsOk(s')
  {
    forall v | v in s.vers
      ensures Holders(s', v) == Holders(s, v)
    {
      assert Readers(s', v) == Readers(s, v);
    }
    hide Holders;
  }

  lemma RotateKeeps(s: State)
    requires Inv(s) && Enabled(s, Rotate)
    ensures Inv(Apply(s, Rotate))
  {
    hide Holders;
    var s' := Apply(s, Rotate);
    HoldersSame(s, s');
    assert Fresh(s') && LogsOk(s');
  }

  lemma ReadKeeps(s: State, a: Step)
    requires Inv(s) && Enabled(s, a) && (a.StartRead? || a.EndRead?)
    ensures Inv(Apply(s, a))
  {
    hide RefsOk;
    if a.StartRead? { StartReadRefs(s, a.id); } else { EndReadRefs(s, a.id); }
    CurrentListed(s);
  }

  lemma CurrentListed(s: State)
    requires RefsOk(s)
    ensures s.current in s.vers && forall r :: r in s.readers ==> s.readers[r] in s.vers
  {
    hide Holders;
  }

  /** Appending a version whose files are on disk, and are not the one being flushed. */
  lemma AppendKeeps(s: State, files: set<nat>)
    requires Inv(s) && files <= s.tables && (s.flush.Some? ==> s.flush.value.file !in files)
    requires Below(files, s.nextFile)
    ensures Inv(AppendVersion(s, files))
  {
    hide RefsOk;
    AppendRefs(s, files);
  }

  lemma CommitFlushKeeps(s: State, empty: bool)
    requires Inv(s) && Enabled(s, CommitFlush(empty))
    ensures Inv(Apply(s, CommitFlush(empty)))
  {
    hide RefsOk, Clean;
    var files := s.vers[s.current].files + if empty then {} else {s.flush.value.file};
    var s0 := s.(flush := None, immLogs := {}, logNumber := s.firstLog);
    SameRefs(s, s0);
    AppendKeeps(s0, files);
    assert AppendVersion(s, files).(flush := None, immLogs := {}, logNumber := s.firstLog) == AppendVersion(s0, files);
    CleanKeeps(AppendVersion(s0, files));
  }

  lemma SameRefs(s: State, s': State)
    requires RefsOk(s) && s'.vers == s.vers && s'.current == s.current && s'.merge == s.merge && s'.readers == s.readers
    requires s'.nextVer == s.nextVer
    ensures RefsOk(s')
  {
    HoldersSame(s, s');
    hide Holders;
  }

  lemma BuildKeeps(s: State)
    requires Inv(s) && Enabled(s, Build)
    ensures Inv(Apply(s, Build))
  {
    hide RefsOk;
    SameRefs(s, Apply(s, Build));
  }

  lemma FailFlushKeeps(s: State, removed: bool)
    requires Inv(s) && Enabled(s, FailFlush(removed))
    ensures Inv(Apply(s, FailFlush(removed)))
  {
    hide RefsOk;
    var s' := Apply(s, FailFlush(removed));
    SameRefs(s, s');
  }

  lemma StartMergeKeeps(s: State)
    requires Inv(s) && Enabled(s, StartMerge)
    ensures Inv(Apply(s, StartMerge))
  {
    hide RefsOk;
    StartMergeRefs(s);
  }

  /** The end of a merge: its output files leave the list of files being written, its input version
      loses a holder. */
  lemma EndMergeKeeps(s: State)
    requires Inv(s) && s.merge.Some? && s.flush == None
    ensures Inv(Unref(s.(writing := s.writing - s.merge.value.outs), s.merge.value.input).(merge := None))
  {
    hide RefsOk;
    var s0 := s.(writing := s.writing - s.merge.value.outs);
    SameRefs(s, s0);
    EndMergeRefs(s0);
  }

  lemma CommitMergeKeeps(s: State, deleted: set<nat>)
    requires Inv(s) && Enabled(s, CommitMerge(deleted))
    ensures Inv(Apply(s, CommitMerge(deleted)))
  {
    hide RefsOk, Clean;
    var files := s.vers[s.current].files - deleted + s.merge.value.outs;
    var s1 := AppendVersion(s, files);
    AppendKeeps(s, files);
    AppendSame(s, files);
    EndMergeKeeps(s1);
    CleanKeeps(Unref(s1.(writing := s1.writing - s1.merge.value.outs), s1.merge.value.input).(merge := None));
  }

  lemma AppendSame(s: State, files: set<nat>)
    ensures var s1 := AppendVersion(s, files); s1.merge == s.merge && s1.writing == s.writing && s1.flush == s.flush
  {}

  /** Every step keeps the invariant; collection is part of some of them. */
  lemma StepKeeps(s: State, a: Step)
    requires Inv(s) && Enabled(s, a)
    ensures Inv(Apply(s, a))
  {
    hide Inv, Clean, AppendVersion, Unref;
    match a
    case Rotate => RotateKeeps(s);
    case StartRead(_) => ReadKeeps(s, a);
    case EndRead(_) => ReadKeeps(s, a);
    case StartFlush => NewTableKeeps(s, Apply(s, a));
    case Build => BuildKeeps(s);
    case CommitFlush(empty) => CommitFlushKeeps(s, empty);
    case FailFlush(removed) => FailFlushKeeps(s, removed);
    case Move => MoveKeeps(s);
    case StartMerge => StartMergeKeeps(s);
    case OpenOutput => NewTableKeeps(s, Apply(s, a));
    case CommitMerge(deleted) => CommitMergeKeeps(s, deleted);
    case FailMerge => EndMergeKeeps(s);
  }

  lemma MoveKeeps(s: State)
    requires Inv(s) && Enabled(s, Move)
    ensures Inv(Apply(s, Move))
  {
    hide RefsOk;
    AppendKeeps(s, s.vers[s.current].files);
  }

  // ---------------------------------------------------------------- runs

  ghost predicate Legal(s: State, run: seq<Step>)
    decreases |run|
  {
    run == [] || (Enabled(s, run[0]) && Legal(Apply(s, run[0]), run[1..]))
  }

  ghost function Exec(s: State, run: seq<Step>): (s': State)
    requires Legal(s, run)
    decreases |run|
  {
    if run == [] then s else Exec(Apply(s, run[0]), run[1..])
  }

  lemma {:induction false} RunKeeps(s: State, run: seq<Step>)
    requires Inv(s) && Legal(s, run)
    ensures Inv(Exec(s, run))
    decreases |run|
  {
    hide Inv, Apply, Enabled;
    if run != [] {
      StepKeeps(s, run[0]);
      RunKeeps(Apply(s, run[0]), run[1..]);
    }
  }

  /** The files that must be on disk: those a reader or the current version can look into, those a
      merge reads or writes, a table on its way into a version, the logs behind the memtables, the
      manifest. */
  ghost predicate AllThere(s: State) {
    && (forall r :: r in s.readers ==> s.readers[r] in s.vers && s.vers[s.readers[r]].files <= s.tables)
    && s.current in s.vers && s.vers[s.current].files <= s.tables
    && (s.merge.Some? ==> s.merge.value.input in s.vers && s.vers[s.merge.value.input].files <= s.tables
                          && s.merge.value.outs <= s.tables)
    && (s.flush.Some? ==> s.flush.value.file in s.tables)
    && s.memLogs + s.immLogs <= s.logs && s.metaNumber in s.metas
  }

  /** Over every run from Open on, with readers, rotations, flushes (also in the middle of a merge),
      moves and merges in any order, collection removes nothing that is needed. */
  lemma NothingNeededIsRemoved(s: State, run: seq<Step>)
    requires Opened(s) && Legal(s, run)
    ensures AllThere(Exec(s, run))
  {
    hide Legal, Exec, Opened, Holders;
    OpenedInv(s);
    RunKeeps(s, run);
  }

  /** It matters that there is one background job, so that nobody collects while another has a table
      that is complete but in no version: the table would go. */
  lemma PendingWouldGo(s: State, run: seq<Step>)
    requires Opened(s) && Legal(s, run) && Exec(s, run).flush.Some? && Exec(s, run).flush.value.Built?
    ensures Exec(s, run).flush.value.file !in Clean(Exec(s, run)).tables
  {
    hide Legal, Exec, Opened, Holders, Live;
    OpenedInv(s);
    RunKeeps(s, run);
    LiveIs(Exec(s, run));
  }

  // ---------------------------------------------------------------- what a collection removes

  /** n is a table of a version that somebody holds, or being written. */
  ghost predicate InUse(s: State, n: nat) {
    || n in s.writing
    || (s.current in s.vers && n in s.vers[s.current].files)
    || (exists r :: r in s.readers && s.readers[r] in s.vers && n in s.vers[s.readers[r]].files)
    || (s.merge.Some? && s.merge.value.input in s.vers && n in s.vers[s.merge.value.input].files)
  }

  /** A version on the list has a holder. */
  lemma ListedIsHeld(s: State, v: nat)
    requires RefsOk(s) && v in s.vers && s.vers[v].refs >= 1
    ensures v == s.current || (s.merge.Some? && s.merge.value.input == v)
        || exists r :: r in s.readers && s.readers[r] == v
  {
    if v != s.current && !(s.merge.Some? && s.merge.value.input == v) {
      assert |Readers(s, v)| >= 1;
      var r :| r in Readers(s, v);
    }
  }

  /** No version stays on the list without a reference. */
  ghost predicate Counted(s: State) {
    forall v :: v in s.vers ==> s.vers[v].refs >= 1
  }

  lemma CountedStep(s: State, a: Step)
    requires Counted(s) && Enabled(s, a)
    ensures Counted(Apply(s, a))
  {
    hide Live;
  }

  lemma {:induction false} CountedRun(s: State, run: seq<Step>)
    requires Counted(s) && Legal(s, run)
    ensures Counted(Exec(s, run))
    decreases |run|
  {
    hide Counted, Apply, Enabled;
    if run != [] {
      CountedStep(s, run[0]);
      CountedRun(Apply(s, run[0]), run[1..]);
    }
  }

  lemma CleanedInUse(s: State, n: nat)
    requires RefsOk(s) && Counted(s) && n in s.tables && n in Live(s)
    ensures InUse(s, n)
  {
    if n !in s.writing {
      var v :| v in s.vers && n in s.vers[v].files;
      ListedIsHeld(s, v);
    }
  }

  /** What a run leaves alone, the logs made since Open among it. */
  ghost predicate Kept(s: State, s': State) {
    && s'.firstLog == s.firstLog && s'.logNumber == s.firstLog && s'.metaNumber == s.metaNumber
    && forall n :: n in s.logs && n >= s.firstLog ==> n in s'.logs
  }

  lemma KeptStep(s: State, a: Step)
    requires Enabled(s, a) && s.logNumber == s.firstLog
    ensures Kept(s, Apply(s, a))
  {}

  lemma {:induction false} KeptRun(s: State, run: seq<Step>)
    requires Legal(s, run) && s.logNumber == s.firstLog
    ensures Kept(s, Exec(s, run))
    decreases |run|
  {
    hide Apply, Enabled;
    if run != [] {
      KeptStep(s, run[0]);
      KeptRun(Apply(s, run[0]), run[1..]);
    }
  }

  /** A flush or a merge that succeeds leaves no table behind that nobody holds, no log from before
      the store was opened and no older manifest. */
  lemma NothingElseStays(s: State, run: seq<Step>, a: Step)
    requires Opened(s) && Legal(s, run) && Enabled(Exec(s, run), a) && (a.CommitFlush? || a.CommitMerge?)
    ensures var was, now := Exec(s, run), Apply(Exec(s, run), a);
      && (forall n :: n in now.tables ==> InUse(now, n))
      && (forall n :: n in now.logs <==> n in was.logs && n >= s.firstLog)
      && (forall n :: n in now.metas <==> n in was.metas && n >= s.metaNumber)
  {
    hide Legal, Exec, Inv, Counted, InUse, Live;
    var was, now := Exec(s, run), Apply(Exec(s, run), a);
    OpenedInv(s);
    RunKeeps(s, run);
    StepKeeps(was, a);
    OpenedCounted(s);
    CountedRun(s, run);
    CountedStep(was, a);
    KeptRun(s, run);
    CleanedLive(was, a);
    forall n | n in now.tables
      ensures InUse(now, n)
    {
      RefsOf(now);
      CleanedInUse(now, n);
    }
  }

  lemma RefsOf(s: State)
    requires Inv(s)
    ensures RefsOk(s)
  {
    hide RefsOk;
  }

  lemma OpenedCounted(s: State)
    requires Opened(s)
    ensures Counted(s)
  {}

  lemma CleanedLive(s: State, a: Step)
    requires Enabled(s, a) && (a.CommitFlush? || a.CommitMerge?)
    ensures var now := Apply(s, a);
      && (forall n :: n in now.tables ==> n in Live(now))
      && now.logs == (set n | n in s.logs && n >= now.logNumber)
      && now.metas == (set n | n in s.metas && n >= s.metaNumber)
  {}

  /** But a log made since Open stays as long as the store is open, also when all its writes are in
      tables: rotation does not raise the number up to which logs are removed. */
  lemma SessionLogsStay(s: State, run: seq<Step>, more: seq<Step>)
    requires Opened(s) && Legal(s, run) && Legal(Exec(s, run), more)
    ensures forall n :: n in Exec(s, run).logs && n >= s.firstLog ==> n in Exec(Exec(s, run), more).logs
  {
    hide Legal, Exec;
    KeptRun(s, run);
    KeptRun(Exec(s, run), more);
  }
}
