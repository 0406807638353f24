/**
  Which files exist, which are needed, and who deletes them.

  Every change of the set of tables is an edit that LogAndApply appends to the manifest, without the
  mutex.  Until the append has returned, and for good when it fails, the manifest may or may not hold
  the edit, so the state keeps the set of all manifests that may be on disk; a reopening finds one of
  them.  All deletion happens in DeleteObsoleteFiles, which only the background thread runs, so its
  program counter is part of the state.  Steps of readers and writers, and crashes, may come between
  any two of its steps.
 */
module FileLifecycle {
  import opened Wrappers

  /**
    What a reading of a manifest yields.  `file` is the number of the manifest file itself and `holds`
    the logs whose writes the tables hold.
   */
  datatype Manifest = Manifest(file: nat, tables: set<nat>, holds: set<nat>, logNumber: nat, nextFile: nat)

  /** An edit; `flushed` are the logs whose writes the added tables hold. */
  datatype Edit = Edit(file: nat, deleted: set<nat>, added: set<nat>, flushed: set<nat>, logNumber: nat, nextFile: nat)

  /** A compaction: the version it reads, the tables it replaces, the tables it has opened so far. */
  datatype Work = Work(version: set<nat>, inputs: set<nat>, outputs: set<nat>)

  /** Whose edit is being appended: DB::Open's, a flush's, a moved table's or a compaction's. */
  datatype Job = OpenJob | FlushJob | MoveJob | CompactionJob

  /** What the background thread is doing; a flush may interrupt a compaction. */
  datatype Stage =
    | Down                                       // no process has the database open
    | Idle
    | Compacting                                 // DoCompactionWork runs, without the mutex
    | BuildingTable(number: nat, base: set<nat>) // BuildTable runs, without the mutex
    | Installing(e: Edit, job: Job)              // the manifest is being written, without the mutex
    | Sweeping                                   // DeleteObsoleteFiles is next

  datatype Files = Files(
    // on disk
    tables: set<nat>,
    logs: set<nat>,
    manifests: set<nat>,
    possible: set<Manifest>,     // what the manifest named by CURRENT may hold
    // in memory
    stage: Stage,
    bgError: bool,
    pending: set<nat>,           // pending_outputs_
    current: set<nat>,           // tables of the current version
    readers: seq<set<nat>>,      // versions that readers hold
    work: Option<Work>,
    immLog: Option<nat>,         // the log of the immutable memtable
    memLog: nat,
    logNumber: nat,
    manifestFile: nat,
    nextFile: nat,
    // history, used in statements only
    written: set<nat>,           // logs that were ever opened
    doubtful: set<nat>)          // tables that a failed install of this process has named

  datatype Step =
    | Crash
    | Recover(m: Manifest, added: set<nat>, newLog: nat)
    | SwitchLog
    | AcquireVersion
    | ReleaseVersion(i: nat)
    | BeginFlush
    | TableBuilt(empty: bool)
    | BuildFailed(left: bool)
    | BeginMove
    | BeginCompaction(inputs: set<nat>)
    | OpenOutput
    | OutputsWritten
    | CompactionFailed
    | Installed
    | InstallFailed
    | Sweep

  /** The manifest with an edit appended, as VersionSet::Recover reads it. */
  function Appended(m: Manifest, e: Edit): Manifest {
    Manifest(e.file, (m.tables - e.deleted) + e.added, m.holds + e.flushed, e.logNumber, e.nextFile)
  }

  ghost function AllAppended(ms: set<Manifest>, e: Edit): set<Manifest> {
    set m | m in ms :: Appended(m, e)
  }

  /* ---- What must not be deleted ---- */

  ghost predicate HeldByReader(st: Files, n: nat) {
    exists i :: 0 <= i < |st.readers| && n in st.readers[i]
  }

  /** Tables of a version that somebody holds a reference to. */
  ghost predicate Referenced(st: Files, n: nat) {
    || n in st.current || HeldByReader(st, n)
    || (st.work.Some? && n in st.work.value.version)
    || (st.stage.BuildingTable? && n in st.stage.base)
  }

  /** Tables that a version, some work in progress or a manifest that may be on disk still uses. */
  ghost predicate Needed(st: Files, n: nat) {
    || Referenced(st, n)
    || (st.work.Some? && n in st.work.value.outputs)
    || (st.stage.BuildingTable? && n == st.stage.number)
    || Listed(st, n)
  }

  /** Logs with writes that the tables of some manifest do not hold. */
  ghost predicate NeededLog(st: Files, n: nat) {
    n in st.written && exists m :: m in st.possible && n !in m.holds
  }

  /** Some manifest that may be on disk lists the table. */
  ghost predicate Listed(st: Files, n: nat) {
    exists m :: m in st.possible && n in m.tables
  }

  ghost predicate NeededManifest(st: Files, n: nat) {
    exists m :: m in st.possible && n == m.file
  }

  /** What the loop of DeleteObsoleteFiles keeps: live tables, recent logs and recent manifests. */
  ghost function Collected(st: Files): Files {
    st.(tables := (set n | n in st.tables && (n in st.pending || Referenced(st, n))),
        logs := (set n | n in st.logs && n >= st.logNumber),
        manifests := (set n | n in st.manifests && n >= st.manifestFile))
  }

  /** DeleteObsoleteFiles: after a background error it returns at once. */
  ghost function Swept(st: Files): Files {
    if st.bgError then st else Collected(st)
  }

  /* ---- Steps ---- */

  /** DB::Open has returned. */
  predicate Serving(st: Files) {
    !st.stage.Down? && !(st.stage.Installing? && st.stage.job.OpenJob?)
  }

  /** Where the background thread goes on after a flush. */
  function Resume(st: Files): Stage {
    if st.work.Some? then Compacting else Idle
  }

  /** The logs that a recovery from `m` replays. */
  ghost function Replayed(st: Files, m: Manifest): set<nat> {
    set n | n in st.logs && n >= m.logNumber
  }

  ghost predicate Enabled(st: Files, s: Step) {
    match s
    case Crash => true
    case Recover(m, added, newLog) =>
      && st.stage.Down? && m in st.possible && newLog > m.nextFile
      && (forall n :: n in added ==> m.nextFile < n < newLog)
      && (forall n :: n in Replayed(st, m) ==> n < newLog)
    case SwitchLog => Serving(st) && st.immLog.None? && !st.bgError
    case AcquireVersion => Serving(st)
    case ReleaseVersion(i) => Serving(st) && i < |st.readers|
    case BeginFlush => st.immLog.Some? && ((st.stage.Idle? && !st.bgError) || st.stage.Compacting?)
    case TableBuilt(empty) => st.stage.BuildingTable?
    case BuildFailed(left) => st.stage.BuildingTable?
    case BeginMove => st.stage.Idle? && !st.bgError && st.immLog.None?
    case BeginCompaction(inputs) => st.stage.Idle? && !st.bgError && st.immLog.None? && inputs <= st.current
    case OpenOutput => st.stage.Compacting?
    case OutputsWritten => st.stage.Compacting?
    case CompactionFailed => st.stage.Compacting?
    case Installed => st.stage.Installing?
    case InstallFailed => st.stage.Installing? && !st.stage.job.OpenJob?
    case Sweep => st.stage.Sweeping?
  }

  /** LogAndApply starts to append `e`. */
  ghost function Append(st: Files, e: Edit, job: Job): Files {
    st.(possible := st.possible + AllAppended(st.possible, e), stage := Installing(e, job))
  }

  /** The compaction is over: CleanupCompaction, ReleaseInputs, and DeleteObsoleteFiles is next. */
  function WorkDone(st: Files): Files {
    st.(pending := if st.work.Some? then st.pending - st.work.value.outputs else st.pending, work := None,
        stage := Sweeping)
  }

  /** The edit is in the manifest: LogAndApply makes the new version current. */
  ghost function Install(st: Files): Files
    requires st.stage.Installing?
  {
    var e := st.stage.e;
    st.(possible := AllAppended(st.possible, e), current := (st.current - e.deleted) + e.added, logNumber := e.logNumber)
  }

  /** Recovery from `m`: tables are built from the replayed logs; the number next_file goes to the new manifest. */
  ghost function Recovered(st: Files, m: Manifest, added: set<nat>, newLog: nat): Files {
    var e := Edit(m.nextFile, {}, added, Replayed(st, m), newLog, newLog + 1);
    Files(st.tables + added, st.logs + {newLog}, st.manifests + {m.nextFile}, {m, Appended(m, e)},
          Installing(e, OpenJob), false, {}, m.tables, [], None, None, newLog, m.logNumber, m.nextFile, newLog + 1,
          st.written + {newLog}, {})
  }

  /** WriteLevel0Table is through; the edit names the table unless it came out empty. */
  ghost function FlushBuilt(st: Files, empty: bool): Files
    requires st.stage.BuildingTable?
  {
    var n := st.stage.number;
    var t := st.(pending := st.pending - {n}, tables := if empty then st.tables - {n} else st.tables);
    var flushed := if st.immLog.Some? then {st.immLog.value} else {};
    Append(t, Edit(st.manifestFile, {}, if empty then {} else {n}, flushed, st.memLog, st.nextFile), FlushJob)
  }

  ghost function OutputsBuilt(st: Files): Files {
    var w := if st.work.Some? then st.work.value else Work({}, {}, {});
    Append(st, Edit(st.manifestFile, w.inputs, w.outputs, {}, st.logNumber, st.nextFile), CompactionJob)
  }

  ghost function InstallDone(st: Files): Files
    requires st.stage.Installing?
  {
    var t := Install(st);
    match st.stage.job
    case OpenJob => t.(stage := Sweeping)
    case FlushJob => t.(immLog := None, stage := Sweeping)
    case MoveJob => t.(stage := Idle)
    case CompactionJob => WorkDone(t)
  }

  function InstallLost(st: Files): Files
    requires st.stage.Installing?
  {
    var t := st.(bgError := true, doubtful := st.doubtful + st.stage.e.added);
    match st.stage.job
    case OpenJob => t
    case FlushJob => t.(stage := Resume(st))
    case MoveJob => t.(stage := Idle)
    case CompactionJob => WorkDone(t)
  }

  ghost function Apply(st: Files, s: Step): Files
    requires Enabled(st, s)
  {
    match s
    case Crash =>
      Files(st.tables, st.logs, st.manifests, st.possible, Down, false, {}, {}, [], None, None, 0, 0, 0, 0, st.written, {})
    case Recover(m, added, newLog) => Recovered(st, m, added, newLog)
    case SwitchLog =>
      st.(logs := st.logs + {st.nextFile}, written := st.written + {st.nextFile}, immLog := Some(st.memLog),
          memLog := st.nextFile, nextFile := st.nextFile + 1)
    case AcquireVersion => st.(readers := st.readers + [st.current])
    case ReleaseVersion(i) => st.(readers := st.readers[..i] + st.readers[i + 1..])
    case BeginFlush =>
      st.(pending := st.pending + {st.nextFile}, tables := st.tables + {st.nextFile},
          stage := BuildingTable(st.nextFile, st.current), nextFile := st.nextFile + 1)
    case TableBuilt(empty) => FlushBuilt(st, empty)
    case BuildFailed(left) =>
      var n := st.stage.number;
      st.(pending := st.pending - {n}, tables := if left then st.tables else st.tables - {n}, bgError := true,
          stage := Resume(st))
    case BeginMove => Append(st, Edit(st.manifestFile, {}, {}, {}, st.logNumber, st.nextFile), MoveJob)
    case BeginCompaction(inputs) => st.(work := Some(Work(st.current, inputs, {})), stage := Compacting)
    case OpenOutput =>
      st.(pending := st.pending + {st.nextFile}, tables := st.tables + {st.nextFile}, nextFile := st.nextFile + 1,
          work := if st.work.Some? then Some(st.work.value.(outputs := st.work.value.outputs + {st.nextFile})) else None)
    case OutputsWritten => OutputsBuilt(st)
    case CompactionFailed => WorkDone(st).(bgError := true)
    case Installed => InstallDone(st)
    case InstallFailed => InstallLost(st)
    case Sweep => Swept(st).(stage := Resume(st))
  }

  /** NewDB has written the first manifest and nothing is open. */
  function Initial(): Files {
    Files({}, {}, {1}, {Manifest(1, {}, {}, 0, 2)}, Down, false, {}, {}, [], None, None, 0, 0, 0, 0, {}, {})
  }

  /* ---- The invariant ---- */

  /** A recovery that finds `m` has every file it needs: each log ever written is in the tables or is replayed. */
  ghost predicate Complete(st: Files, m: Manifest) {
    && m.file in st.manifests && m.tables <= st.tables
    && m.file < m.nextFile && m.logNumber < m.nextFile
    && (forall n :: n in m.tables || n in m.holds ==> n < m.nextFile)
    && m.holds <= st.written && (forall n :: n in st.manifests ==> n <= m.nextFile)
    && (forall n :: n in st.written ==> n in m.holds || (n in st.logs && n >= m.logNumber))
  }

  ghost predicate OnDisk(st: Files) {
    && st.possible != {} && st.logs <= st.written
    && (forall m :: m in st.possible ==> Complete(st, m))
  }

  /** Tables that are written or being installed and in no version yet. */
  ghost predicate Unlisted(st: Files, n: nat) {
    || n in st.pending || n in st.doubtful
    || (st.stage.BuildingTable? && n == st.stage.number)
    || (st.stage.Installing? && n in st.stage.e.added)
  }

  ghost predicate Tables(st: Files) {
    && (forall n: nat :: Referenced(st, n) ==> n in st.tables && n < st.nextFile)
    && (forall n: nat :: Unlisted(st, n) ==> n in st.tables && n < st.nextFile && !Referenced(st, n))
    && st.doubtful !! st.pending
    && (!st.bgError ==> st.doubtful == {})
  }

  /** What the program counter says about the other fields. */
  ghost predicate Counter(st: Files) {
    && (st.stage.Idle? ==> st.work.None?)
    && (st.stage.Compacting? ==> st.work.Some?)
    && (st.work.Some? ==> st.work.value.outputs <= st.pending && st.work.value.inputs <= st.work.value.version)
    && (st.stage.BuildingTable? ==>
         && st.immLog.Some? && st.stage.number in st.pending
         && (st.work.Some? ==> st.stage.number !in st.work.value.outputs))
    && (st.stage.Installing? ==>
         var e := st.stage.e;
         && e.file == st.manifestFile && e.deleted !! e.added && e.added !! st.doubtful && e.nextFile <= st.nextFile
         && (match st.stage.job
             case OpenJob =>
               && !st.bgError && st.work.None? && st.pending == {} && st.immLog.None?
               && e.logNumber == st.memLog && st.memLog !in e.flushed && (forall n :: n in st.logs ==> n <= st.memLog)
               && (exists m :: m in st.possible && m.file < st.manifestFile)
             case FlushJob => st.immLog.Some? && e.flushed == {st.immLog.value} && e.logNumber == st.memLog
                              && e.added !! st.pending && e.deleted == {}
             case MoveJob => st.work.None? && e.added == {} && e.deleted == {} && e.flushed == {} && e.logNumber == st.logNumber
             case CompactionJob =>
               && e.logNumber == st.logNumber && e.flushed == {}
               && st.work.Some? && e.added == st.work.value.outputs && e.deleted == st.work.value.inputs))
  }

  /** Manifests on disk against the memory of the running process. */
  ghost predicate Agrees(st: Files, m: Manifest) {
    && m.nextFile <= st.nextFile && m.logNumber >= st.logNumber && st.memLog !in m.holds
    && (Serving(st) ==> m.file == st.manifestFile)
    && (st.stage.BuildingTable? ==> st.stage.number !in m.tables)
    && (forall n :: n in m.tables ==>
         n in st.current || n in st.doubtful || (st.stage.Installing? && n in st.stage.e.added))
    && (forall n :: n in st.written ==>
         n in m.holds || n == st.memLog || st.immLog == Some(n) || (st.stage.Installing? && n in st.stage.e.flushed))
    && (st.stage.Installing? ==> m.nextFile <= st.stage.e.nextFile)
  }

  /** Without an error, and once DB::Open is through, no replayed log is in the tables already. */
  ghost predicate Once(st: Files, m: Manifest) {
    && (forall n :: n in st.logs && n >= m.logNumber ==> n !in m.holds)
    && (m.logNumber == st.logNumber || (st.stage.Installing? && m.logNumber == st.stage.e.logNumber))
  }

  ghost predicate Logs(st: Files) {
    && (forall n :: n in st.manifests ==> n <= st.manifestFile)
    && (forall n :: n in st.written ==> n < st.nextFile)
    && st.memLog in st.written && (st.immLog.Some? ==> st.immLog.value in st.written)
    && st.logNumber <= st.memLog && (st.immLog.Some? ==> st.logNumber <= st.immLog.value < st.memLog)
  }

  ghost predicate InMemory(st: Files) {
    && Tables(st) && Counter(st) && Logs(st)
    && (forall m :: m in st.possible ==> Agrees(st, m))
    && (forall n :: n in st.doubtful ==> Listed(st, n))
    && (st.stage.Installing? ==> forall m :: m in st.possible ==> Appended(m, st.stage.e) in st.possible)
    && (Serving(st) && !st.bgError ==> forall m :: m in st.possible ==> Once(st, m))
  }

  /** A crash leaves nothing in memory. */
  ghost predicate Forgotten(st: Files) {
    st.current == {} && st.readers == [] && st.work.None? && st.doubtful == {}
  }

  ghost predicate Inv(st: Files) {
    OnDisk(st) && (if st.stage.Down? then Forgotten(st) else InMemory(st))
  }

  /* ---- Steps keep the invariant ---- */

  /** Steps that install nothing leave no version referenced that was not before. */
  lemma NoNewReferences(st: Files, t: Files)
    requires t.current == st.current
    requires forall r :: r in t.readers ==> r in st.readers || r == st.current
    requires t.work.Some? ==>
      t.work.value.version == st.current || (st.work.Some? && t.work.value.version == st.work.value.version)
    requires t.stage.BuildingTable? ==> t.stage.base == st.current || t.stage == st.stage
    ensures forall n: nat :: Referenced(t, n) ==> Referenced(st, n)
  {
    forall n: nat | Referenced(t, n) ensures Referenced(st, n) {
      if HeldByReader(t, n) {
        var j :| 0 <= j < |t.readers| && n in t.readers[j];
        assert t.readers[j] in t.readers;
        if t.readers[j] != st.current {
          var i :| 0 <= i < |st.readers| && st.readers[i] == t.readers[j];
          assert HeldByReader(st, n);
        }
      }
    }
  }

  lemma SameReaders(st: Files, t: Files)
    requires t.readers == st.readers
    ensures forall n: nat :: HeldByReader(t, n) <==> HeldByReader(st, n)
  {
    assert forall n, i :: 0 <= i < |t.readers| ==> (n in t.readers[i] <==> n in st.readers[i]);
  }

  ghost predicate SameDisk(st: Files, t: Files) {
    t.tables == st.tables && t.logs == st.logs && t.manifests == st.manifests && t.written == st.written
  }

  lemma SameComplete(st: Files, t: Files, m: Manifest)
    requires SameDisk(st, t) && Complete(st, m)
    ensures Complete(t, m)
  {
  }

  lemma CrashKeepsInv(st: Files)
    requires Inv(st)
    ensures Inv(Apply(st, Crash))
  {
    var t := Apply(st, Crash);
    forall m | m in t.possible ensures Complete(t, m) {
      assert Complete(st, m);
    }
  }

  /** Reading an edit once more changes nothing. */
  lemma AppendedTwice(m: Manifest, e: Edit)
    ensures Appended(Appended(m, e), e) == Appended(m, e)
  {
    var a := Appended(m, e);
    assert (a.tables - e.deleted) + e.added == a.tables;
    assert a.holds + e.flushed == a.holds;
  }

  lemma BeforeAppend(ms: set<Manifest>, e: Edit, a: Manifest) returns (m: Manifest)
    requires a in AllAppended(ms, e)
    ensures m in ms && a == Appended(m, e)
  {
    m :| m in ms && a == Appended(m, e);
  }

  lemma AppendedComplete(t: Files, m: Manifest, e: Edit)
    requires Complete(t, m)
    requires e.file in t.manifests && e.added <= t.tables && e.flushed <= t.written
    requires e.file < e.nextFile && e.logNumber < e.nextFile && m.nextFile <= e.nextFile
    requires forall n :: n in e.added || n in e.flushed ==> n < e.nextFile
    requires forall n :: n in t.written ==> n in m.holds || n in e.flushed || (n in t.logs && n >= e.logNumber)
    ensures Complete(t, Appended(m, e))
  {
  }

  lemma RecoverComplete(st: Files, m: Manifest, added: set<nat>, newLog: nat)
    requires Complete(st, m) && st.logs <= st.written && Enabled(st, Recover(m, added, newLog))
    ensures var t := Recovered(st, m, added, newLog);
            Complete(t, m) && Complete(t, Appended(m, t.stage.e))
  {
    var t := Recovered(st, m, added, newLog);
    assert forall n :: n in st.written ==> n in m.holds || n in t.stage.e.flushed;
    assert Complete(t, m);
    AppendedComplete(t, m, t.stage.e);
  }

  lemma RecoverKeepsInv(st: Files, m: Manifest, added: set<nat>, newLog: nat)
    requires Inv(st) && Enabled(st, Recover(m, added, newLog))
    ensures Inv(Recovered(st, m, added, newLog))
  {
    var t := Recovered(st, m, added, newLog);
    var e := t.stage.e;
    assert Complete(st, m);
    RecoverComplete(st, m, added, newLog);
    hide Complete;
    AppendedTwice(m, e);
    assert t.possible == {m, Appended(m, e)};
    assert Agrees(t, m) && Agrees(t, Appended(m, e));
    assert forall n :: !HeldByReader(t, n);
  }

  /** Steps of readers and writers. */
  lemma ClientKeepsInv(st: Files, s: Step)
    requires Inv(st) && Enabled(st, s) && (s.SwitchLog? || s.AcquireVersion? || s.ReleaseVersion?)
    ensures Inv(Apply(st, s))
  {
    var t := Apply(st, s);
    assert t.tables == st.tables && t.manifests == st.manifests && t.possible == st.possible && t.doubtful == st.doubtful;
    NoNewReferences(st, t);
    forall m | m in t.possible ensures Complete(t, m) && Agrees(t, m) && (Once(st, m) ==> Once(t, m)) {
      assert Complete(st, m) && Agrees(st, m);
    }
    forall n | n in t.doubtful ensures Listed(t, n) { assert Listed(st, n); }
    assert forall n: nat :: Unlisted(t, n) ==> Unlisted(st, n);
    assert Tables(t);
    assert Counter(t);
    assert Logs(t);
  }

  /** Steps of the background thread that leave the manifest alone. */
  lemma WorkKeepsInv(st: Files, s: Step)
    requires Inv(st) && Enabled(st, s) && (s.BeginFlush? || s.BeginCompaction? || s.OpenOutput?)
    ensures Inv(Apply(st, s))
  {
    var t := Apply(st, s);
    NoNewReferences(st, t);
    SameReaders(st, t);
    forall m | m in t.possible ensures Complete(t, m) && Agrees(t, m) && (Once(st, m) ==> Once(t, m)) {
      assert Complete(st, m) && Agrees(st, m);
    }
    forall n | n in t.doubtful ensures Listed(t, n) { assert Listed(st, n); }
    assert !Referenced(st, st.nextFile);
    assert forall n: nat :: Unlisted(t, n) ==> Unlisted(st, n) || n == st.nextFile;
    assert Tables(t);
    assert Counter(t);
    assert Logs(t);
  }

  lemma WorkFailedKeepsInv(st: Files, s: Step)
    requires Inv(st) && Enabled(st, s) && (s.BuildFailed? || s.CompactionFailed?)
    ensures Inv(Apply(st, s))
  {
    var t := Apply(st, s);
    NoNewReferences(st, t);
    SameReaders(st, t);
    forall m | m in t.possible ensures Complete(t, m) && Agrees(t, m) && (Once(st, m) ==> Once(t, m)) {
      assert Complete(st, m) && Agrees(st, m);
    }
    forall n | n in t.doubtful ensures Listed(t, n) { assert Listed(st, n); }
    assert forall n: nat :: Unlisted(t, n) ==> Unlisted(st, n);
    assert Tables(t);
    assert Counter(t);
    assert Logs(t);
  }

  lemma SweepKeepsInv(st: Files)
    requires Inv(st) && Enabled(st, Sweep)
    ensures Inv(Apply(st, Sweep))
  {
    var t := Apply(st, Sweep);
    NoNewReferences(st, t);
    SameReaders(st, t);
    forall m | m in t.possible ensures Complete(t, m) && Agrees(t, m) && (Once(st, m) ==> Once(t, m)) {
      assert Complete(st, m) && Agrees(st, m);
    }
    forall n | n in t.doubtful ensures Listed(t, n) { assert Listed(st, n); }
    assert forall n: nat :: Unlisted(t, n) ==> Unlisted(st, n) && n in t.tables;
    assert Tables(t);
    assert Counter(t);
    assert Logs(t);
  }

  lemma NewTables(st: Files)
    requires Tables(st) && Counter(st)
    ensures st.stage.BuildingTable? ==> st.stage.number in st.tables && st.stage.number < st.nextFile
    ensures st.work.Some? ==> st.work.value.outputs <= st.tables && st.work.value.outputs !! st.work.value.version
    ensures st.work.Some? ==> forall n :: n in st.work.value.outputs ==> n < st.nextFile
  {
    assert st.stage.BuildingTable? ==> Unlisted(st, st.stage.number);
    if st.work.Some? {
      forall n | n in st.work.value.outputs ensures n in st.tables && n < st.nextFile && n !in st.work.value.version {
        assert Unlisted(st, n);
      }
    }
  }

  /** The edit about to be appended, against the disk with the tables that it adds. */
  lemma AppendFits(st: Files, s: Step, m: Manifest)
    requires Inv(st) && Enabled(st, s) && (s.TableBuilt? || s.BeginMove? || s.OutputsWritten?) && m in st.possible
    ensures var t := Apply(st, s);
            Complete(t, m) && Complete(t, Appended(m, t.stage.e))
  {
    hide Tables, Unlisted, Once;
    NewTables(st);
    var t := Apply(st, s);
    assert Complete(st, m) && Agrees(st, m);
    assert Complete(t, m);
    AppendedComplete(t, m, t.stage.e);
  }

  lemma AppendingManifest(st: Files, s: Step, a: Manifest)
    requires Inv(st) && Enabled(st, s) && (s.TableBuilt? || s.BeginMove? || s.OutputsWritten?)
    requires a in Apply(st, s).possible
    ensures Appended(a, Apply(st, s).stage.e) in Apply(st, s).possible
    ensures Complete(Apply(st, s), a)
  {
    hide Inv, Complete, Enabled;
    var t := Apply(st, s);
    var e := t.stage.e;
    var m := a;
    if a !in st.possible { m := BeforeAppend(st.possible, e, a); }
    AppendedTwice(m, e);
    AppendFits(st, s, m);
    assert Appended(m, e) in AllAppended(st.possible, e);
  }

  lemma AppendingAgrees(st: Files, s: Step, a: Manifest)
    requires Inv(st) && Enabled(st, s) && (s.TableBuilt? || s.BeginMove? || s.OutputsWritten?)
    requires a in Apply(st, s).possible
    ensures Agrees(Apply(st, s), a) && (Serving(st) && !st.bgError ==> Once(Apply(st, s), a))
  {
    hide Tables, Unlisted, Complete;
    var e := Apply(st, s).stage.e;
    var m := a;
    if a !in st.possible { m := BeforeAppend(st.possible, e, a); }
    assert Agrees(st, m) && (Serving(st) && !st.bgError ==> Once(st, m));
  }

  /** LogAndApply starts to append an edit. */
  lemma AppendKeepsInv(st: Files, s: Step)
    requires Inv(st) && Enabled(st, s) && (s.TableBuilt? || s.BeginMove? || s.OutputsWritten?)
    ensures Inv(Apply(st, s))
  {
    hide Complete, Agrees, Once;
    var t := Apply(st, s);
    NewTables(st);
    NoNewReferences(st, t);
    SameReaders(st, t);
    forall a | a in t.possible
      ensures Appended(a, t.stage.e) in t.possible
      ensures Complete(t, a) && Agrees(t, a) && (Serving(st) && !st.bgError ==> Once(t, a))
    {
      AppendingManifest(st, s, a);
      AppendingAgrees(st, s, a);
    }
    forall n | n in t.doubtful ensures Listed(t, n) { assert Listed(st, n); }
    assert forall n: nat :: Unlisted(t, n) ==> Unlisted(st, n);
    assert Tables(t);
    assert Counter(t);
    assert Logs(t);
  }

  /** The manifests left are those with the edit. */
  lemma InstalledManifest(st: Files, a: Manifest)
    requires Inv(st) && st.stage.Installing? && a in InstallDone(st).possible
    ensures a in st.possible && Complete(InstallDone(st), a)
  {
    hide Tables, Unlisted, Agrees, Once, Logs, Counter, Complete;
    var m := BeforeAppend(st.possible, st.stage.e, a);
    assert SameDisk(st, InstallDone(st));
    SameComplete(st, InstallDone(st), a);
  }

  lemma InstalledOnce(st: Files, a: Manifest)
    requires Inv(st) && st.stage.Installing? && a in InstallDone(st).possible && !st.bgError
    ensures Once(InstallDone(st), a)
  {
    hide Tables, Unlisted, Logs, Complete;
    var m := BeforeAppend(st.possible, st.stage.e, a);
    assert Agrees(st, m);
    assert Serving(st) ==> Once(st, a);
  }

  lemma InstalledAgrees(st: Files, a: Manifest)
    requires Inv(st) && st.stage.Installing? && a in InstallDone(st).possible
    ensures Agrees(InstallDone(st), a)
  {
    hide Tables, Unlisted, Complete, Once;
    var m := BeforeAppend(st.possible, st.stage.e, a);
    assert Agrees(st, m) && Agrees(st, a);
  }

  lemma InstalledTables(st: Files)
    requires Inv(st) && st.stage.Installing?
    ensures Tables(InstallDone(st))
    ensures forall n :: n in InstallDone(st).doubtful ==> Listed(InstallDone(st), n)
  {
    var t := InstallDone(st);
    var e := st.stage.e;
    SameReaders(st, t);
    forall n: nat ensures Unlisted(t, n) ==> Unlisted(st, n) && n !in e.added {}
    forall n: nat ensures Referenced(t, n) ==> Referenced(st, n) || n in e.added {}
    forall n | n in t.doubtful ensures Listed(t, n) {
      assert Unlisted(st, n) && Listed(st, n);
      var m :| m in st.possible && n in m.tables;
      assert n !in e.deleted;
      assert Appended(m, e) in t.possible && n in Appended(m, e).tables;
    }
  }

  lemma InstalledCounter(st: Files)
    requires Inv(st) && st.stage.Installing?
    ensures Counter(InstallDone(st)) && Logs(InstallDone(st)) && InstallDone(st).possible != {}
  {
    hide Tables, Unlisted, Referenced, Complete, Agrees, Once;
    var m :| m in st.possible;
    assert Appended(m, st.stage.e) in InstallDone(st).possible;
  }

  lemma InstalledKeepsInv(st: Files)
    requires Inv(st) && st.stage.Installing?
    ensures Inv(InstallDone(st))
  {
    hide Tables, Unlisted, Referenced, Agrees, Complete, Once, Counter, Logs, Listed;
    var t := InstallDone(st);
    InstalledTables(st);
    InstalledCounter(st);
    forall a | a in t.possible ensures Complete(t, a) && Agrees(t, a) && (!st.bgError ==> Once(t, a)) {
      InstalledManifest(st, a);
      InstalledAgrees(st, a);
      if !st.bgError { InstalledOnce(st, a); }
    }
  }

  lemma LostManifest(st: Files, m: Manifest)
    requires Inv(st) && st.stage.Installing? && !st.stage.job.OpenJob? && m in st.possible
    ensures Complete(InstallLost(st), m) && Agrees(InstallLost(st), m)
  {
    hide Tables, Unlisted, Once;
    assert SameDisk(st, InstallLost(st));
    assert Complete(st, m) && Agrees(st, m);
    SameComplete(st, InstallLost(st), m);
  }

  lemma InstallFailedKeepsInv(st: Files)
    requires Inv(st) && st.stage.Installing? && !st.stage.job.OpenJob?
    ensures Inv(InstallLost(st))
  {
    hide Complete, Agrees, Once;
    var t := InstallLost(st);
    NoNewReferences(st, t);
    SameReaders(st, t);
    forall m | m in t.possible ensures Complete(t, m) && Agrees(t, m) {
      LostManifest(st, m);
    }
    forall n | n in t.doubtful ensures Listed(t, n) {
      if n in st.doubtful {
        assert Listed(st, n);
      } else {
        var m :| m in st.possible;
        assert n in Appended(m, st.stage.e).tables;
      }
    }
    assert forall n: nat :: Unlisted(t, n) ==> Unlisted(st, n);
    assert Tables(t) && Counter(t) && Logs(t);
  }

  lemma StepKeepsInv(st: Files, s: Step)
    requires Inv(st) && Enabled(st, s)
    ensures Inv(Apply(st, s))
  {
    hide Inv;
    match s
    case Crash => CrashKeepsInv(st);
    case Recover(m, added, newLog) => RecoverKeepsInv(st, m, added, newLog);
    case SwitchLog => ClientKeepsInv(st, s);
    case AcquireVersion => ClientKeepsInv(st, s);
    case ReleaseVersion(i) => ClientKeepsInv(st, s);
    case BeginFlush => WorkKeepsInv(st, s);
    case BuildFailed(left) => WorkFailedKeepsInv(st, s);
    case BeginCompaction(inputs) => WorkKeepsInv(st, s);
    case OpenOutput => WorkKeepsInv(st, s);
    case CompactionFailed => WorkFailedKeepsInv(st, s);
    case TableBuilt(empty) => AppendKeepsInv(st, s);
    case BeginMove => AppendKeepsInv(st, s);
    case OutputsWritten => AppendKeepsInv(st, s);
    case Installed => InstalledKeepsInv(st);
    case InstallFailed => InstallFailedKeepsInv(st);
    case Sweep => SweepKeepsInv(st);
  }

  /* ---- Runs ---- */

  ghost function After(run: seq<Step>): (r: Option<Files>)
    ensures r.Some? ==> Inv(r.value)
  {
    if run == [] then Some(Initial())
    else
      var n := |run| - 1;
      var before := After(run[..n]);
      if before.Some? && Enabled(before.value, run[n]) then
        StepKeepsInv(before.value, run[n]);
        Some(Apply(before.value, run[n]))
      else None
  }

  lemma NeededExists(st: Files, n: nat)
    requires Inv(st)
    ensures Needed(st, n) ==> n in st.tables
    ensures NeededLog(st, n) ==> n in st.logs
    ensures NeededManifest(st, n) ==> n in st.manifests
  {
    hide Once, Agrees, Logs;
    if !st.stage.Down? && st.work.Some? && n in st.work.value.outputs { assert Unlisted(st, n); }
    if !st.stage.Down? && st.stage.BuildingTable? && n == st.stage.number { assert Unlisted(st, n); }
    forall m | m in st.possible
      ensures m.file in st.manifests && m.tables <= st.tables
      ensures forall k :: k in st.written && k !in m.holds ==> k in st.logs
    {
      assert Complete(st, m);
    }
  }

  /** In no run is a table, a log or a manifest missing that something still needs, or may need after a crash. */
  lemma NeededFilesExist(run: seq<Step>, n: nat)
    requires After(run).Some?
    ensures Needed(After(run).value, n) ==> n in After(run).value.tables
    ensures NeededLog(After(run).value, n) ==> n in After(run).value.logs
    ensures NeededManifest(After(run).value, n) ==> n in After(run).value.manifests
  {
    hide Inv, Needed, NeededLog, NeededManifest, Apply, Enabled;
    NeededExists(After(run).value, n);
  }

  /**
    Whatever the manifest holds at a crash, a recovery finds all it lists, and every log that was ever
    written is either in its tables or replayed.
   */
  lemma RecoveryFindsEverything(run: seq<Step>, m: Manifest)
    requires After(run).Some? && m in After(run).value.possible
    ensures var st := After(run).value;
            && m.file in st.manifests && m.tables <= st.tables
            && (forall n :: n in st.written ==> n in m.holds || n in Replayed(st, m))
  {
    assert Complete(After(run).value, m);
  }

  /** As long as the process has seen no error, no log is replayed whose writes the tables hold already. */
  lemma RecoveryReplaysOnce(run: seq<Step>, m: Manifest, n: nat)
    requires After(run).Some? && Serving(After(run).value) && !After(run).value.bgError
    requires m in After(run).value.possible
    ensures n in Replayed(After(run).value, m) ==> n !in m.holds
  {
    assert Once(After(run).value, m);
  }

  lemma OneMore(run: seq<Step>, s: Step)
    requires After(run).Some? && Enabled(After(run).value, s)
    ensures After(run + [s]) == Some(Apply(After(run).value, s))
  {
    hide Enabled, Apply, Inv;
    assert (run + [s])[..|run|] == run;
  }

  lemma SomeBound(s: set<nat>) returns (b: nat)
    ensures forall n :: n in s ==> n < b
    decreases |s|
  {
    if s == {} {
      b := 0;
    } else {
      var n :| n in s;
      b := SomeBound(s - {n});
      if b <= n { b := n + 1; }
      assert forall k :: k in s ==> k == n || k in s - {n};
    }
  }

  lemma Reopening(st: Files, m: Manifest, newLog: nat)
    requires Inv(st) && m in st.possible && newLog > m.nextFile && forall n :: n in st.logs ==> n < newLog
    ensures Enabled(st, Crash)
    ensures var c := Apply(st, Crash);
            && Enabled(c, Recover(m, {}, newLog))
            && var r := Apply(c, Recover(m, {}, newLog));
               && Enabled(r, Installed)
               && Serving(Apply(r, Installed)) && Apply(r, Installed).current == m.tables
  {
    hide Inv;
  }

  /** Every manifest that may be on disk can be the one that is found; the database then serves its tables. */
  lemma CanReopen(run: seq<Step>, m: Manifest) returns (newLog: nat)
    requires After(run).Some? && m in After(run).value.possible
    ensures var t := After(run + [Crash] + [Recover(m, {}, newLog)] + [Installed]);
            t.Some? && Serving(t.value) && t.value.current == m.tables
  {
    hide Inv, Apply, Enabled, Serving;
    var st := After(run).value;
    newLog := SomeBound(st.logs + {m.nextFile});
    Reopening(st, m, newLog);
    OneMore(run, Crash);
    OneMore(run + [Crash], Recover(m, {}, newLog));
    OneMore(run + [Crash] + [Recover(m, {}, newLog)], Installed);
  }

  /** Without an error the sweep deletes what nothing needs: needed and pending files are left. */
  lemma SweepDeletesTheRest(run: seq<Step>, n: nat)
    requires After(run).Some? && Enabled(After(run).value, Sweep) && !After(run).value.bgError
    ensures var st := After(run).value;
            && (n in Swept(st).tables <==> n in st.tables && (Needed(st, n) || n in st.pending))
            && (n in Swept(st).logs <==> n in st.logs && NeededLog(st, n))
            && (n in Swept(st).manifests <==> n in st.manifests && NeededManifest(st, n))
  {
    var st := After(run).value;
    if Listed(st, n) {
      var m :| m in st.possible && n in m.tables;
      assert Agrees(st, m);
    }
    forall m | m in st.possible ensures Once(st, m) && Complete(st, m) {}
  }

  /** No file that `st` needs is missing from the disk of `t`. */
  ghost predicate NothingMissing(st: Files, t: Files) {
    && (forall n: nat :: Needed(st, n) ==> n in t.tables)
    && (forall n: nat :: NeededLog(st, n) ==> n in t.logs)
    && (forall n: nat :: NeededManifest(st, n) ==> n in t.manifests)
  }

  ghost predicate Safe(st: Files) {
    && st.doubtful == {} && Serving(st)
    && !(st.stage.Installing? && st.stage.job.FlushJob? && st.stage.e.added != {})
  }

  lemma UnsafeSweep(st: Files)
    requires Inv(st) && !st.stage.Down? && !Safe(st)
    ensures !NothingMissing(st, Collected(st))
  {
    if st.doubtful != {} {
      var n :| n in st.doubtful;
      assert Listed(st, n) && Unlisted(st, n);
      assert Needed(st, n) && n !in Collected(st).tables;
    } else if !Serving(st) {
      var m :| m in st.possible && m.file < st.manifestFile;
      assert NeededManifest(st, m.file);
    } else {
      var n :| n in st.stage.e.added;
      var m :| m in st.possible;
      assert n in Appended(m, st.stage.e).tables;
      assert Needed(st, n) && Unlisted(st, n);
      assert n !in Collected(st).tables;
    }
  }

  lemma SafeSweep(st: Files)
    requires Inv(st) && !st.stage.Down? && Safe(st)
    ensures NothingMissing(st, Collected(st))
  {
    var t := Collected(st);
    forall m | m in st.possible
      ensures m.file in t.manifests
      ensures forall n :: n in m.tables ==> n in t.tables
      ensures forall n :: n in st.written && n !in m.holds ==> n in t.logs
    {
      assert Complete(st, m) && Agrees(st, m);
    }
    forall n: nat | Needed(st, n) ensures n in t.tables {
      if Listed(st, n) {
        var m :| m in st.possible && n in m.tables;
      } else if !Referenced(st, n) {
        assert Unlisted(st, n);
      }
    }
  }

  /**
    The guard of DeleteObsoleteFiles is needed exactly when a failed install has named a table, since the
    manifest may hold that edit.  Apart from that the files that the loop would delete are not needed,
    but in two windows in which no sweep runs because the thread that sweeps is busy: a flushed table
    leaves pending_outputs_ before its edit is installed, and DB::Open still has the old manifest to
    fall back on.
   */
  lemma SweepIsSafeIff(run: seq<Step>)
    requires After(run).Some? && !After(run).value.stage.Down?
    ensures var st := After(run).value;
            NothingMissing(st, Collected(st)) <==>
            && st.doubtful == {} && Serving(st)
            && !(st.stage.Installing? && st.stage.job.FlushJob? && st.stage.e.added != {})
  {
    hide NothingMissing, Collected, Inv;
    if Safe(After(run).value) {
      SafeSweep(After(run).value);
    } else {
      UnsafeSweep(After(run).value);
    }
  }

  /** A failed install leaves the sweep off for as long as the process lives. */
  lemma DoubtMeansError(run: seq<Step>)
    requires After(run).Some? && After(run).value.doubtful != {}
    ensures After(run).value.bgError && Swept(After(run).value) == After(run).value
  {
    hide Apply, Enabled;
  }

  lemma Append1(run: seq<Step>, st: Files, s: Step) returns (more: seq<Step>, t: Files)
    requires After(run) == Some(st) && Enabled(st, s)
    ensures t == Apply(st, s) && After(more) == Some(t)
  {
    hide Enabled, Apply, Inv;
    OneMore(run, s);
    more, t := run + [s], Apply(st, s);
  }

  /** A new database is opened, its memtable is switched and the flush of the old one has begun. */
  lemma FirstFlush() returns (run: seq<Step>, st: Files)
    ensures After(run) == Some(st)
    ensures st.stage.BuildingTable? && st.stage.number == 5 && st.current == {} && st.pending == {5} && 5 in st.tables
    ensures st.readers == [] && st.work.None? && !st.bgError && st.stage.base == {}
    ensures exists m :: m in st.possible && m.tables == {}
  {
    hide Inv;
    var none := Manifest(1, {}, {}, 0, 2);
    run, st := [], Initial();
    run, st := Append1(run, st, Recover(none, {}, 3));
    assert Appended(none, st.stage.e) in st.possible && Appended(none, st.stage.e).tables == {};
    var m := Appended(none, st.stage.e);
    AppendedTwice(none, st.stage.e);
    run, st := Append1(run, st, Installed);
    assert m in st.possible;
    run, st := Append1(run, st, Sweep);
    run, st := Append1(run, st, SwitchLog);
    run, st := Append1(run, st, BeginFlush);
    assert m in st.possible;
  }

  /**
    A flush whose edit fails to be appended: the manifest may list table 5 or not, and only the guard
    keeps a sweep from deleting it.
   */
  lemma FailedFlush() returns (run: seq<Step>)
    ensures After(run).Some?
    ensures var st := After(run).value;
            && (exists m :: m in st.possible && m.tables == {}) && (exists m :: m in st.possible && m.tables == {5})
            && 5 !in Collected(st).tables && 5 in Swept(st).tables
  {
    hide Inv, After;
    var st;
    run, st := FirstFlush();
    var m :| m in st.possible && m.tables == {};
    run, st := Append1(run, st, TableBuilt(false));
    assert Appended(m, st.stage.e) in st.possible && Appended(m, st.stage.e).tables == {5};
    var listed := Appended(m, st.stage.e);
    run, st := Append1(run, st, InstallFailed);
    assert m in st.possible && listed in st.possible;
    assert !HeldByReader(st, 5);
  }
}
