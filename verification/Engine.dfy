/**
  The store as a state machine.  A step is one stretch of code that runs under the mutex (or, for a
  write, one append to the log and one insertion into the memtable), so steps of writers, of the
  background thread and of a crash may follow each other in any order their guards allow.
 */
module Engine {
  import opened Wrappers
  import opened DbFormat
  import opened Versions
  import opened CompactionPick
  import opened CompactionInputs
  import opened CompactionWork
  import opened CompactionReads
  import opened VersionBuilder

  /** A compaction under way: its inputs, the oldest sequence readers may use, and the version it started from. */
  datatype Running = Running(level: nat, i0: seq<File>, i1: seq<File>, oldest: SequenceNumber, version: Levels, manual: bool)

  /** What the manifest records: the version with the counters written next to it. */
  datatype Manifest = Manifest(levels: Levels, logNumber: nat, nextFile: nat, lastSequence: SequenceNumber)

  datatype Db = Db(
    mem: seq<Entry>,
    imm: Option<seq<Entry>>,
    levels: Levels,
    lastSequence: SequenceNumber,
    target: SequenceNumber,      // what lastSequence becomes when the write under way is published
    pending: seq<Entry>,         // logged by the write under way, not yet in the memtable
    snapshots: seq<SequenceNumber>,
    compaction: Option<Running>,
    nextFile: nat,
    memLog: nat,
    immLog: nat,
    logs: map<nat, seq<Entry>>,
    manifest: Manifest,
    history: seq<Entry>,         // every entry ever logged, in order
    uncovered: set<UserKey>)     // keys of deletions that a compaction has dropped over an older value

  /* ---- The memtable ---- */

  function Insert(c: seq<Entry>, e: Entry): (r: seq<Entry>)
    ensures forall x :: x in r <==> x == e || x in c
  {
    if c == [] || Before(e.IKey(), c[0].IKey()) then [e] + c else [c[0]] + Insert(c[1..], e)
  }

  function InsertAll(c: seq<Entry>, es: seq<Entry>): (r: seq<Entry>)
    ensures forall x :: x in r <==> x in es || x in c
    decreases |es|
  {
    if es == [] then c else Insert(InsertAll(c, es[..|es| - 1]), es[|es| - 1])
  }

  lemma {:induction false} InsertSorted(c: seq<Entry>, e: Entry)
    requires Sorted(c) && forall x :: x in c ==> x.IKey() != e.IKey()
    ensures Sorted(Insert(c, e))
  {
    if c != [] && !Before(e.IKey(), c[0].IKey()) {
      assert c[0] in c;
      InsertSorted(c[1..], e);
      var r := Insert(c[1..], e);
      forall i | 0 <= i < |r| ensures Before(c[0].IKey(), r[i].IKey()) {
        assert r[i] in r;
      }
    }
  }

  lemma {:induction false} InsertAllSorted(es: seq<Entry>)
    requires Chronological(es)
    ensures Sorted(InsertAll([], es))
  {
    if es != [] {
      var n := |es| - 1;
      InsertAllSorted(es[..n]);
      InsertSorted(InsertAll([], es[..n]), es[n]);
    }
  }

  /* ---- Views of a state ---- */

  ghost function ImmSet(imm: Option<seq<Entry>>): set<Entry> {
    if imm.Some? then Elems(imm.value) else {}
  }

  ghost function Stored(mem: seq<Entry>, imm: Option<seq<Entry>>, v: Levels): set<Entry> {
    Elems(mem) + ImmSet(imm) + LevelsSet(v)
  }

  /** Everything logged that the store still holds. */
  ghost function Held(st: Db): set<Entry> {
    Stored(st.mem, st.imm, st.levels) + Elems(st.pending)
  }

  function Oldest(st: Db): SequenceNumber {
    if st.snapshots == [] then st.lastSequence else st.snapshots[0]
  }

  /** The logs recovery would replay, in number order. */
  function LiveLog(st: Db): seq<Entry> {
    (if st.imm.Some? && st.immLog in st.logs then st.logs[st.immLog] else []) +
    (if st.memLog in st.logs then st.logs[st.memLog] else [])
  }

  /* ---- The invariant, piece by piece ---- */

  /** Newer data sits above older data, all the way from the memtable to the last level. */
  ghost predicate Layers(mem: seq<Entry>, imm: Option<seq<Entry>>, v: Levels) {
    && Sorted(mem) && (imm.Some? ==> Sorted(imm.value))
    && VersionOk(v)
    && Newer(Elems(mem), ImmSet(imm)) && Newer(Elems(mem), LevelsSet(v))
    && Newer(ImmSet(imm), LevelsSet(v))
    && Unique(Stored(mem, imm, v))
  }

  ghost predicate NumbersDistinct(v: Levels) {
    forall i, j, f, g :: 0 <= i < NUM_LEVELS && 0 <= j < NUM_LEVELS && f in v[i] && g in v[j] && f.number == g.number ==>
      i == j && f == g
  }

  ghost predicate Tables(v: Levels, nextFile: nat) {
    && NumbersDistinct(v)
    && (forall i :: 0 <= i < NUM_LEVELS ==> BySmallest(v[i]))
    && (forall i, f :: 0 <= i < NUM_LEVELS && f in v[i] ==> f.number < nextFile)
  }

  /** The entries logged but not yet inserted are the newest, and not yet visible to readers. */
  ghost predicate PendingOk(mem: seq<Entry>, pending: seq<Entry>, last: SequenceNumber, target: SequenceNumber) {
    && last <= target < MAX_SEQUENCE
    && (forall e :: e in mem ==> e.sn <= target)
    && (forall e :: e in pending ==> last < e.sn <= target)
    && (forall e, p :: e in mem && p in pending ==> e.sn < p.sn)
    && Chronological(pending)
  }

  /** Whatever left the memtable was published, and tables hold nothing newer than the manifest's counter. */
  ghost predicate PublishedOk(imm: Option<seq<Entry>>, v: Levels, last: SequenceNumber, recorded: SequenceNumber) {
    && recorded <= last
    && (forall e :: e in ImmSet(imm) ==> e.sn <= last)
    && (forall e :: e in LevelsSet(v) ==> e.sn <= recorded)
  }

  ghost predicate SnapshotsOk(snapshots: seq<SequenceNumber>, last: SequenceNumber) {
    forall i, j :: 0 <= i <= j < |snapshots| ==> snapshots[i] <= snapshots[j] <= last
  }

  /** At every sequence a reader may still use, the entries held read like the history, uncovered keys apart. */
  ghost predicate Faithful(held: set<Entry>, history: seq<Entry>, target: SequenceNumber, oldest: SequenceNumber,
                           uncovered: set<UserKey>) {
    && Chronological(history) && (forall e :: e in history ==> e.sn <= target)
    && (forall e :: e in held ==> e in history)
    && forall k: UserKey, s: SequenceNumber :: s >= oldest && k !in uncovered ==> ReadSet(held, k, s) == View(history, k, s)
  }

  /** The memtables are backed by the logs the manifest has not retired. */
  ghost predicate Logged(st: Db) {
    && st.manifest.levels == st.levels
    && st.memLog in st.logs && Elems(st.logs[st.memLog]) == Elems(st.mem) + Elems(st.pending)
    && (st.imm.Some? ==> st.immLog in st.logs && Elems(st.logs[st.immLog]) == ImmSet(st.imm))
    && (st.imm.Some? ==> st.immLog < st.memLog && st.manifest.logNumber == st.immLog)
    && (st.imm.None? ==> st.manifest.logNumber == st.memLog)
    && (forall n :: n in st.logs && n >= st.manifest.logNumber ==> n == st.memLog || (st.imm.Some? && n == st.immLog))
    && st.memLog < st.nextFile && st.manifest.nextFile <= st.nextFile
  }

  /** The live logs replay in order, and hold every entry the manifest's counter does not cover. */
  ghost predicate Replayable(live: seq<Entry>, history: seq<Entry>, recorded: SequenceNumber) {
    && Chronological(live)
    && forall e :: e in history ==> e.sn <= recorded || e in live
  }

  /**
    What stays true of the inputs of a running compaction, whatever is flushed meanwhile.  ValidInputs,
    which they meet when the compaction begins, says of the tables beside them that each lies to one side
    of all inputs; a flush during a manual compaction may put one into a gap between them.
   */
  ghost predicate Stands(v: Levels, level: nat, i0: seq<File>, i1: seq<File>) {
    && level + 1 < NUM_LEVELS && i0 != []
    && (forall f :: f in i0 ==> f in v[level]) && (forall f :: f in i1 ==> f in v[level + 1])
    && (forall g, f :: g in v[level] && g !in i0 && f in i0 ==> Newer(Elems(g.contents), Elems(f.contents)))
    && (forall g, f :: g in v[level + 1] && g !in i1 && f in i0 + i1 ==> Disjoint(g, f))
  }

  /** A running compaction may go on, whatever was flushed since it began. */
  ghost predicate CompactionOk(v: Levels, compaction: Option<Running>, oldest: SequenceNumber) {
    compaction.Some? ==>
      var c := compaction.value;
      && Stands(v, c.level, c.i0, c.i1)
      && (!c.manual ==> ValidInputs(v, c.level, c.i0, c.i1) && GapFree(c.i0 + c.i1))
      && c.oldest <= oldest
      && (forall i :: 1 <= i < NUM_LEVELS ==> LevelSorted(c.version[i]))
      && NothingNewBelow(v, c)
  }

  /** Below level + 1, only tables of the version the compaction started from share keys with its inputs. */
  ghost predicate NothingNewBelow(v: Levels, c: Running) {
    forall j, f, x, e ::
      c.level + 2 <= j < NUM_LEVELS && f in v[j] && x in f.contents && e in FileSet(c.i0 + c.i1) && e.key == x.key ==>
      f in c.version[j]
  }

  ghost predicate Inv(st: Db) {
    && Layers(st.mem, st.imm, st.levels) && Tables(st.levels, st.manifest.nextFile)
    && PendingOk(st.mem, st.pending, st.lastSequence, st.target)
    && PublishedOk(st.imm, st.levels, st.lastSequence, st.manifest.lastSequence)
    && SnapshotsOk(st.snapshots, st.lastSequence)
    && Faithful(Held(st), st.history, st.target, Oldest(st), st.uncovered)
    && Logged(st) && Replayable(LiveLog(st), st.history, st.manifest.lastSequence)
    && CompactionOk(st.levels, st.compaction, Oldest(st))
  }

  /* ---- Steps ---- */

  datatype Write = Write(key: UserKey, op: Op)

  datatype Action =
    | LogBatch(batch: seq<Write>)
    | InsertNext
    | Publish
    | SwitchMemtable
    | FlushMemtable(level: nat, size: nat)
    | BeginCompaction(i0: seq<File>, i1: seq<File>, manual: bool, at: nat)
    | FinishCompaction(outputs: seq<File>, next: nat)
    | AbortCompaction
    | TrivialMove(from: nat, file: File)
    | TakeSnapshot
    | ReleaseSnapshot(index: nat)
    | CrashAndRecover(chunks: seq<seq<Entry>>, numbers: seq<nat>, newLog: nat)

  function Numbered(batch: seq<Write>, first: SequenceNumber): (r: seq<Entry>)
    requires first + |batch| <= MAX_SEQUENCE
    ensures |r| == |batch|
    ensures forall i :: 0 <= i < |batch| ==> r[i] == Entry(batch[i].key, first + i, batch[i].op)
  {
    seq(|batch|, i requires 0 <= i < |batch| => Entry(batch[i].key, first + i, batch[i].op))
  }

  /** The level may take a table of this range: see PickLevelForMemTableOutput. */
  ghost predicate LevelForFlush(v: Levels, level: nat, f: File) {
    && level <= MAX_MEM_COMPACT_LEVEL
    && (level > 0 ==> forall i :: 0 <= i <= level ==> !OverlapInLevel(v[i], Lo(f), Hi(f)))
  }

  /**
    Every output keeps clear of the tables that stay at the output level.  Nothing in the code checks that;
    for compactions that the store picks itself it always holds, and EngineInstall says exactly when it does
    for manual ones.
   */
  ghost predicate FitsLevel(v: Levels, level: nat, i1: seq<File>, outputs: seq<File>)
    requires level + 1 < NUM_LEVELS
  {
    forall g, f :: g in v[level + 1] && g !in i1 && f in outputs ==> Disjoint(g, f)
  }

  ghost function UpperSet(v: Levels, level: nat): set<Entry> {
    set i, e | 0 <= i < level && i < NUM_LEVELS && e in FileSet(v[i]) :: e
  }

  ghost function LowerSet(v: Levels, level: nat): set<Entry> {
    set i, e | level + 2 <= i < NUM_LEVELS && e in FileSet(v[i]) :: e
  }

  /** Entries of the files of a level that are not among `fs`. */
  ghost function RestSet(level: seq<File>, fs: seq<File>): set<Entry> {
    set f, e | f in level && f !in fs && e in f.contents :: e
  }

  /** The entries around the running compaction. */
  ghost function SplitOf(st: Db): Split
    requires st.compaction.Some? && st.compaction.value.level + 1 < NUM_LEVELS
  {
    var c := st.compaction.value;
    var kept := RestSet(st.levels[c.level], c.i0);
    var beside := RestSet(st.levels[c.level + 1], c.i1);
    Split(Elems(st.mem) + Elems(st.pending) + ImmSet(st.imm) + UpperSet(st.levels, c.level) + kept, FileSet(c.i0 + c.i1),
          beside, LowerSet(st.levels, c.level))
  }

  /** Keys of which the compaction drops a deletion that hides an older value beside the inputs; see CompactionReads. */
  ghost function ExposedKeys(st: Db): set<UserKey>
    requires st.compaction.Some? && st.compaction.value.level + 1 < NUM_LEVELS
  {
    var c := st.compaction.value;
    set e | e in FileSet(c.i0 + c.i1) && Exposed(SplitOf(st), e.key, c.oldest, c.version, c.level) :: e.key
  }

  function Contents(fs: seq<File>): seq<seq<Entry>> {
    seq(|fs|, i requires 0 <= i < |fs| => fs[i].contents)
  }

  /** The outputs hold the survivors of the inputs, in order, under numbers not yet in use. */
  ghost predicate OutputsOk(st: Db, outputs: seq<File>, next: nat)
    requires st.compaction.Some?
  {
    var c := st.compaction.value;
    && next >= st.nextFile
    && (exists input :: Sorted(input) && Elems(input) == FileSet(c.i0 + c.i1) &&
         Flatten(Contents(outputs)) == Survivors(input, |input|, c.oldest, c.version, c.level))
    && (forall f :: f in outputs ==> f.number < next)
    && (forall i, j :: 0 <= i < j < |outputs| ==> outputs[i].number != outputs[j].number)
    && (forall i, f, g :: 0 <= i < NUM_LEVELS && f in st.levels[i] && g in outputs ==> f.number != g.number)
  }

  ghost predicate Enabled(st: Db, a: Action) {
    match a
    case LogBatch(batch) => st.target == st.lastSequence && st.lastSequence + |batch| < MAX_SEQUENCE
    case InsertNext => st.pending != []
    case Publish => st.pending == []
    case SwitchMemtable => st.target == st.lastSequence && st.imm.None?
    case FlushMemtable(level, size) =>
      && st.imm.Some?
      && (st.imm.value != [] && Sorted(st.imm.value) ==>
           var f := FileData(st.nextFile, size, st.imm.value);
           LevelForFlush(st.levels, level, f))
    case BeginCompaction(i0, i1, manual, at) =>
      st.compaction.None? && ValidInputs(st.levels, at, i0, i1) && (!manual ==> GapFree(i0 + i1))
    case FinishCompaction(outputs, next) =>
      && st.compaction.Some? && st.compaction.value.level + 1 < NUM_LEVELS
      && OutputsOk(st, outputs, next) && FitsLevel(st.levels, st.compaction.value.level, st.compaction.value.i1, outputs)
    case AbortCompaction => true
    case TrivialMove(level, f) => st.compaction.None? && ValidInputs(st.levels, level, [f], [])
    case TakeSnapshot => true
    case ReleaseSnapshot(i) => i < |st.snapshots|
    case CrashAndRecover(chunks, numbers, newLog) =>
      && Flatten(chunks) == LiveLog(st) && (forall c :: c in chunks ==> c != [])
      && |numbers| == |chunks| && st.memLog < newLog && st.manifest.nextFile < newLog
      && (forall i :: 0 <= i < |numbers| ==> st.manifest.nextFile <= numbers[i] < newLog)
      && (forall i, j :: 0 <= i < j < |numbers| ==> numbers[i] < numbers[j])
  }

  /** LogAndApply: the new version is written to the manifest and installed. */
  function Commit(st: Db, levels: Levels, logNumber: nat, nextFile: nat): Db {
    st.(levels := levels, nextFile := nextFile, manifest := Manifest(levels, logNumber, nextFile, st.lastSequence))
  }

  /** The table BuildTable writes from the immutable memtable. */
  ghost function ImmFile(st: Db, size: nat): File
    requires st.imm.Some? && st.imm.value != [] && Sorted(st.imm.value)
  {
    FileData(st.nextFile, size, st.imm.value)
  }

  ghost function FlushTo(st: Db, level: nat, size: nat): Db
    requires st.imm.Some? && Sorted(st.imm.value) && level < NUM_LEVELS
  {
    var levels := if st.imm.value == [] then st.levels
                  else st.levels[level := InsertFile(st.levels[level], ImmFile(st, size))];
    Commit(st, levels, st.memLog, st.nextFile + 1).(imm := None)
  }

  /** The version a finished compaction installs. */
  function Compacted(v: Levels, level: nat, i0: seq<File>, i1: seq<File>, outputs: seq<File>): Levels
    requires level + 1 < NUM_LEVELS
  {
    v[level := Without(v[level], Numbers(i0))][level + 1 := InsertFiles(Without(v[level + 1], Numbers(i1)), outputs)]
  }

  /** The tables recovery writes, one for each run of replayed entries; file sizes play no part and are 0. */
  ghost function RecoveredTables(chunks: seq<seq<Entry>>, numbers: seq<nat>): (r: seq<File>)
    requires |numbers| == |chunks| && forall c :: c in chunks ==> c != [] && Chronological(c)
    ensures |r| == |chunks|
    ensures forall i :: 0 <= i < |r| ==> r[i] == FileData(numbers[i], 0, InsertAll([], chunks[i]))
  {
    if chunks == [] then []
    else
      var n := |chunks| - 1;
      InsertAllSorted(chunks[n]);
      assert chunks[n][0] in InsertAll([], chunks[n]);
      assert forall c :: c in chunks[..n] ==> c in chunks;
      RecoveredTables(chunks[..n], numbers[..n]) + [FileData(numbers[n], 0, InsertAll([], chunks[n]))]
  }

  function MaxSequence(es: seq<Entry>, floor: SequenceNumber): (m: SequenceNumber)
    ensures m >= floor && forall e :: e in es ==> e.sn <= m
    ensures m == floor || exists e :: e in es && e.sn == m
  {
    if es == [] then floor
    else
      var m := MaxSequence(es[..|es| - 1], floor);
      if es[|es| - 1].sn > m then es[|es| - 1].sn else m
  }

  /** A crash forgets everything but the manifest and the logs; opening the store replays the live logs. */
  ghost function Recovered(st: Db, chunks: seq<seq<Entry>>, numbers: seq<nat>, newLog: nat): Db
    requires |numbers| == |chunks| && forall c :: c in chunks ==> c != [] && Chronological(c)
  {
    var m := st.manifest;
    var levels := m.levels[0 := InsertFiles(m.levels[0], RecoveredTables(chunks, numbers))];
    var last := MaxSequence(LiveLog(st), m.lastSequence);
    Db([], None, levels, last, last, [], [], None, newLog + 1, newLog, newLog, st.logs[newLog := []],
       Manifest(levels, newLog, newLog + 1, last), st.history, st.uncovered)
  }

  /** The outputs of the running compaction replace its inputs. */
  ghost function Finished(st: Db, outputs: seq<File>, next: nat): Db
    requires st.compaction.Some? && st.compaction.value.level + 1 < NUM_LEVELS
  {
    var c := st.compaction.value;
    Commit(st, Compacted(st.levels, c.level, c.i0, c.i1, outputs), st.manifest.logNumber, next).(
      compaction := None, uncovered := st.uncovered + ExposedKeys(st))
  }

  lemma {:induction false} ChunksChronological(chunks: seq<seq<Entry>>)
    requires Chronological(Flatten(chunks))
    ensures forall c :: c in chunks ==> Chronological(c)
  {
    if chunks != [] {
      var n := |chunks| - 1;
      var front, back := Flatten(chunks[..n]), chunks[n];
      var all := Flatten(chunks);
      assert all == front + back;
      assert forall i :: 0 <= i < |front| ==> all[i] == front[i];
      assert forall i :: 0 <= i < |back| ==> all[|front| + i] == back[i];
      ChunksChronological(chunks[..n]);
    }
  }

  /** The effect of an enabled step. */
  ghost function Apply(st: Db, a: Action): Db
    requires Inv(st) && Enabled(st, a)
  {
    match a
    case LogBatch(batch) =>
      var es := Numbered(batch, st.lastSequence + 1);
      st.(pending := es, target := st.lastSequence + |batch|,
          logs := st.logs[st.memLog := st.logs[st.memLog] + es], history := st.history + es)
    case InsertNext => st.(mem := Insert(st.mem, st.pending[0]), pending := st.pending[1..])
    case Publish => st.(lastSequence := st.target)
    case SwitchMemtable =>
      st.(imm := Some(st.mem), mem := [], immLog := st.memLog, memLog := st.nextFile, nextFile := st.nextFile + 1,
          logs := st.logs[st.nextFile := []])
    case FlushMemtable(level, size) => FlushTo(st, if st.imm.value == [] then 0 else level, size)
    case BeginCompaction(i0, i1, manual, at) =>
      st.(compaction := Some(Running(at, i0, i1, Oldest(st), st.levels, manual)))
    case FinishCompaction(outputs, next) => Finished(st, outputs, next)
    case AbortCompaction => st.(compaction := None)
    case TrivialMove(level, f) =>
      Commit(st, Compacted(st.levels, level, [f], [], [f]), st.manifest.logNumber, st.nextFile)
    case TakeSnapshot => st.(snapshots := st.snapshots + [st.lastSequence])
    case ReleaseSnapshot(i) => st.(snapshots := st.snapshots[..i] + st.snapshots[i + 1..])
    case CrashAndRecover(chunks, numbers, newLog) =>
      ChunksChronological(chunks);
      Recovered(st, chunks, numbers, newLog)
  }

  /** A freshly created store. */
  function Initial(): Db {
    var v: Levels := [[], [], [], [], [], [], []];
    Db([], None, v, 0, 0, [], [], None, 4, 3, 3, map[3 := []], Manifest(v, 3, 4, 0), [], {})
  }
}
