/**
  The store object: its fields, and the methods that carry out the steps of the state machine with the
  real algorithms for choosing levels, files, tables and versions.
 */
module DbImpl {
  import opened Wrappers
  import opened DbFormat
  import opened Versions
  import opened CompactionInputs
  import opened CompactionPick
  import opened CompactionWork
  import opened VersionBuilder
  import opened Engine
  import opened EngineWrites
  import opened EngineFlush
  import opened EngineCompaction
  import opened EngineInstall
  import opened EngineRecovery
  import opened EngineRuns
  import opened DbRecovery

  /* ---- LogAndApply: one edit, one new version ---- */

  lemma OneEdit(base: seq<File>, e: Edit, level: nat)
    requires FreshNumbers(base, AddedAt(e.added, level))
    ensures AddedOnce(base, [e], level) && OneByOne(base, [e], level) == ApplyOne(base, e, level)
    ensures AccumulateAll([e], level) == Accumulate(LevelState({}, []), e, level)
  {
    assert [e][..0] == [];
    assert base + [] == base;
    assert AddedOnce(base, [], level);
  }

  method NewVersion(base: Levels, e: Edit) returns (v: Levels)
    requires EditOk(e) && forall l :: 0 <= l < NUM_LEVELS ==> BySmallest(base[l]) && FreshNumbers(base[l], AddedAt(e.added, l))
    ensures forall l :: 0 <= l < NUM_LEVELS ==> v[l] == ApplyOne(base[l], e, l)
  {
    var builder := new Builder(base);
    builder.Apply(e);
    forall l | 0 <= l < NUM_LEVELS ensures BySmallest(builder.levels[l].added)
      ensures forall f :: f in builder.levels[l].added <==> f in AddedAt(e.added, l)
    {
      InsertFilesMembers([], AddedAt(e.added, l));
    }
    v := builder.SaveTo();
    forall l | 0 <= l < NUM_LEVELS ensures v[l] == ApplyOne(base[l], e, l) {
      OneEdit(base[l], e, l);
      assert Merged(v[l], base[l], builder.levels[l].added, builder.levels[l].deleted);
      BatchIsOneByOne(base[l], [e], l, v[l]);
    }
  }

  /** The edit of a compaction: the inputs go, the outputs come in one level down. */
  function DeletedNumbers(level: nat, i0: seq<File>, i1: seq<File>): set<DeletedFile> {
    (set n | n in Numbers(i0) :: DeletedFile(level, n)) + (set n | n in Numbers(i1) :: DeletedFile(level + 1, n))
  }

  function AddAll(level: nat, outputs: seq<File>): (r: seq<NewFile>)
    ensures forall a :: a in r ==> a.level == level && a.file in outputs
  {
    seq(|outputs|, i requires 0 <= i < |outputs| => NewFile(level, outputs[i]))
  }

  lemma OneAddedLast(level: nat, outputs: seq<File>, f: File)
    ensures AddAll(level, outputs + [f]) == AddAll(level, outputs) + [NewFile(level, f)]
  {
  }

  lemma {:induction false} AddedAtAll(level: nat, outputs: seq<File>, l: nat)
    ensures AddedAt(AddAll(level, outputs), l) == if l == level then outputs else []
  {
    hide AddedAt;
    if outputs == [] {
      NoneAdded(AddAll(level, outputs), l);
    } else {
      var n := |outputs| - 1;
      OneAddedLast(level, outputs[..n], outputs[n]);
      hide AddAll;
      AddedAtAll(level, outputs[..n], l);
      AddedAtLast(AddAll(level, outputs[..n]), NewFile(level, outputs[n]), l);
      assert outputs == outputs[..n] + [outputs[n]];
    }
  }

  lemma DeletedAtInputs(level: nat, i0: seq<File>, i1: seq<File>, outputs: seq<File>, l: nat)
    ensures DeletedAt(Edit(DeletedNumbers(level, i0, i1), AddAll(level + 1, outputs)), l) ==
            if l == level then Numbers(i0) else if l == level + 1 then Numbers(i1) else {}
  {
    var deleted := DeletedNumbers(level, i0, i1);
    forall n | n in Numbers(i0) ensures DeletedFile(level, n) in deleted {
    }
    forall n | n in Numbers(i1) ensures DeletedFile(level + 1, n) in deleted {
    }
    forall d | d in deleted
      ensures (d.level == level && d.number in Numbers(i0)) || (d.level == level + 1 && d.number in Numbers(i1)) {
    }
  }

  lemma {:induction false} WithoutNone(fs: seq<File>)
    ensures Without(fs, {}) == fs
  {
    hide Sorted;
    if fs != [] {
      var n := |fs| - 1;
      WithoutNone(fs[..n]);
      assert Without(fs, {}) == Without(fs[..n], {}) + [fs[n]];
      assert fs == fs[..n] + [fs[n]];
    }
  }

  lemma NothingAdded(fs: seq<File>)
    ensures InsertFiles(fs, []) == fs && Numbers([]) == {}
  {
  }

  lemma ApplyOneIs(fs: seq<File>, e: Edit, l: nat, gone: set<nat>, added: seq<File>)
    requires AddedAt(e.added, l) == added && DeletedAt(e, l) == gone && gone !! Numbers(added)
    ensures ApplyOne(fs, e, l) == InsertFiles(Without(fs, gone), added)
  {
    hide Without, InsertFiles, Numbers;
    assert gone - Numbers(added) == gone;
  }

  lemma CompactedLevel(fs: seq<File>, e: Edit, level: nat, i0: seq<File>, i1: seq<File>, outputs: seq<File>, l: nat)
    requires Numbers(i1) !! Numbers(outputs) && e == Edit(DeletedNumbers(level, i0, i1), AddAll(level + 1, outputs))
    ensures ApplyOne(fs, e, l) == if l == level then Without(fs, Numbers(i0))
                                  else if l == level + 1 then InsertFiles(Without(fs, Numbers(i1)), outputs)
                                  else fs
  {
    AddedAtAll(level + 1, outputs, l);
    DeletedAtInputs(level, i0, i1, outputs, l);
    NothingAdded(fs);
    hide Without, InsertFiles, DeletedNumbers, AddAll, AddedAt, DeletedAt, Numbers, ApplyOne;
    if l == level {
      NothingAdded(Without(fs, Numbers(i0)));
      ApplyOneIs(fs, e, l, Numbers(i0), []);
    } else if l == level + 1 {
      ApplyOneIs(fs, e, l, Numbers(i1), outputs);
    } else {
      WithoutNone(fs);
      ApplyOneIs(fs, e, l, {}, []);
    }
  }

  lemma CompactedByEdit(v: Levels, w: Levels, level: nat, i0: seq<File>, i1: seq<File>, outputs: seq<File>)
    requires level + 1 < NUM_LEVELS && Numbers(i1) !! Numbers(outputs)
    requires forall l :: 0 <= l < NUM_LEVELS ==>
               w[l] == ApplyOne(v[l], Edit(DeletedNumbers(level, i0, i1), AddAll(level + 1, outputs)), l)
    ensures w == Compacted(v, level, i0, i1, outputs)
  {
    hide ApplyOne, DeletedNumbers, AddAll, Numbers, Without, InsertFiles;
    var e := Edit(DeletedNumbers(level, i0, i1), AddAll(level + 1, outputs));
    var u := Compacted(v, level, i0, i1, outputs);
    forall l | 0 <= l < NUM_LEVELS ensures w[l] == u[l] {
      CompactedLevel(v[l], e, level, i0, i1, outputs, l);
    }
  }

  lemma AddedByEdit(v: Levels, w: Levels, n: nat, added: seq<File>)
    requires n < NUM_LEVELS && forall l :: 0 <= l < NUM_LEVELS ==> w[l] == ApplyOne(v[l], Edit({}, AddAll(n, added)), l)
    ensures w == v[n := InsertFiles(v[n], added)]
  {
    var e := Edit({}, AddAll(n, added));
    var u := v[n := InsertFiles(v[n], added)];
    hide Without, InsertFiles, AddAll, AddedAt, Numbers, ApplyOne;
    forall l | 0 <= l < NUM_LEVELS ensures w[l] == u[l] {
      AddedAtAll(n, added, l);
      NothingAdded(v[l]);
      WithoutNone(v[l]);
      ApplyOneIs(v[l], e, l, {}, if l == n then added else []);
    }
  }

  lemma InsertOne(fs: seq<File>, f: File)
    ensures InsertFiles(fs, [f]) == InsertFile(fs, f)
  {
    assert [f][..0] == [];
  }

  /* ---- Facts the methods need about a valid state ---- */

  lemma TidyVersion(v: Levels)
    requires VersionOk(v)
    ensures Tidy(v)
  {
    forall i | 0 <= i < NUM_LEVELS ensures Unique(FileSet(v[i])) {
      forall e | e in FileSet(v[i]) ensures e in LevelsSet(v) {
        InLevel(v, i, e);
      }
    }
  }

  lemma ValidFacts(st: Db)
    requires Inv(st)
    ensures Tidy(st.levels) && VersionOk(st.levels) && Tables(st.levels, st.nextFile)
    ensures (st.imm.Some? ==> Sorted(st.imm.value)) && st.memLog in st.logs
    ensures st.compaction.Some? ==> var c := st.compaction.value;
              && Stands(st.levels, c.level, c.i0, c.i1) && c.oldest < MAX_SEQUENCE
              && forall i :: 1 <= i < NUM_LEVELS ==> LevelSorted(c.version[i])
  {
    TidyVersion(st.levels);
  }

  /** Tables cut from the survivors, numbered from `first`. */
  function NumberTables(tables: seq<seq<Entry>>, first: nat, size: seq<Entry> -> nat): (r: seq<File>)
    requires forall t :: t in tables ==> t != [] && Sorted(t)
    ensures |r| == |tables|
    ensures forall i :: 0 <= i < |r| ==> r[i].number == first + i && r[i].contents == tables[i]
  {
    if tables == [] then []
    else
      var n := |tables| - 1;
      assert tables[n] in tables && forall t :: t in tables[..n] ==> t in tables;
      NumberTables(tables[..n], first, size) + [FileData(first + n, size(tables[n]), tables[n])]
  }

  lemma {:induction false} PiecesSorted(ts: seq<seq<Entry>>)
    requires Sorted(Flatten(ts))
    ensures forall t :: t in ts ==> Sorted(t)
  {
    if ts != [] {
      var n := |ts| - 1;
      var front, back, all := Flatten(ts[..n]), ts[n], Flatten(ts);
      assert forall i :: 0 <= i < |front| ==> all[i] == front[i];
      assert forall i :: 0 <= i < |back| ==> all[|front| + i] == back[i];
      PiecesSorted(ts[..n]);
    }
  }

  /** Numbers from the counter on are in use nowhere. */
  lemma NumbersUnused(v: Levels, next: nat, i1: seq<File>, outputs: seq<File>, level: nat)
    requires forall i, f :: 0 <= i < NUM_LEVELS && f in v[i] ==> f.number < next
    requires level < NUM_LEVELS && forall f :: f in i1 ==> f in v[level]
    requires forall i :: 0 <= i < |outputs| ==> outputs[i].number == next + i
    ensures forall g :: g in outputs ==> next <= g.number < next + |outputs|
    ensures Numbers(i1) !! Numbers(outputs)
    ensures forall l :: 0 <= l < NUM_LEVELS ==> FreshNumbers(v[l], outputs)
  {
    forall f | f in i1 ensures f.number < next {
      assert f in v[level];
    }
  }

  lemma FreshEdit(v: Levels, next: nat, level: nat, outputs: seq<File>)
    requires Tables(v, next) && forall i :: 0 <= i < |outputs| ==> outputs[i].number == next + i
    ensures forall l :: 0 <= l < NUM_LEVELS ==> BySmallest(v[l]) && FreshNumbers(v[l], AddedAt(AddAll(level, outputs), l))
  {
    NumbersUnused(v, next, [], outputs, 0);
    forall l: nat ensures AddedAt(AddAll(level, outputs), l) == if l == level then outputs else [] {
      AddedAtAll(level, outputs, l);
    }
  }

  lemma OutputsAreOk(st: Db, input: seq<Entry>, outputs: seq<File>)
    requires st.compaction.Some? && Sorted(input) && Tables(st.levels, st.nextFile)
    requires Elems(input) == FileSet(st.compaction.value.i0 + st.compaction.value.i1)
    requires forall i :: 0 <= i < |outputs| ==> outputs[i].number == st.nextFile + i
    requires forall g :: g in outputs ==> st.nextFile <= g.number < st.nextFile + |outputs|
    requires var c := st.compaction.value;
             Flatten(Contents(outputs)) == Survivors(input, |input|, c.oldest, c.version, c.level)
    ensures OutputsOk(st, outputs, st.nextFile + |outputs|)
  {
    hide Flatten, Sorted, Survivors, FileSet, Contents, NumbersDistinct, BySmallest;
  }

  /** One enabled step of the state machine. */
  ghost predicate Steps(before: Db, a: Action, after: Db) {
    Inv(before) && Enabled(before, a) && after == Apply(before, a)
  }

  lemma FlushStep(st: Db, w: Levels, level: nat, size: nat)
    requires Inv(st) && st.imm.Some? && Sorted(st.imm.value)
    requires st.imm.value == [] ==> w == st.levels
    requires st.imm.value != [] ==>
               var f := ImmFile(st, size);
               && LevelForFlush(st.levels, level, f)
               && w == st.levels[level := InsertFile(st.levels[level], f)]
    ensures var t := Commit(st, w, st.memLog, st.nextFile + 1).(imm := None);
            Steps(st, FlushMemtable(level, size), t) && Inv(t)
  {
    hide Inv, OverlapInLevel, InsertFile;
    StepKeepsInv(st, FlushMemtable(level, size));
  }

  /** The files may be added at the level below without repeating a number there. */
  ghost predicate Addable(v: Levels, level: nat, files: seq<File>) {
    forall l :: 0 <= l < NUM_LEVELS ==> BySmallest(v[l]) && FreshNumbers(v[l], AddedAt(AddAll(level + 1, files), l))
  }

  lemma OutputsReady(st: Db, input: seq<Entry>, tables: seq<seq<Entry>>, outputs: seq<File>)
    requires st.compaction.Some? && Sorted(input) && Tables(st.levels, st.nextFile) && |outputs| == |tables|
    requires var c := st.compaction.value;
             && Stands(st.levels, c.level, c.i0, c.i1) && Elems(input) == FileSet(c.i0 + c.i1)
             && Flatten(tables) == Survivors(input, |input|, c.oldest, c.version, c.level)
    requires forall i :: 0 <= i < |outputs| ==> outputs[i].number == st.nextFile + i && outputs[i].contents == tables[i]
    ensures OutputsOk(st, outputs, st.nextFile + |outputs|) && Contents(outputs) == tables
    ensures var c := st.compaction.value;
            Numbers(c.i1) !! Numbers(outputs) && Addable(st.levels, c.level, outputs)
  {
    hide Sorted, Survivors, Flatten, FileSet, BySmallest, OutputsOk, FreshNumbers, NumbersDistinct, Numbers;
    var c := st.compaction.value;
    assert Contents(outputs) == tables;
    NumbersUnused(st.levels, st.nextFile, c.i1, outputs, c.level + 1);
    FreshEdit(st.levels, st.nextFile, c.level + 1, outputs);
    OutputsAreOk(st, input, outputs);
  }

  lemma BeginStep(st: Db, c: Picked, manual: bool)
    requires Inv(st) && st.compaction.None? && ValidInputs(st.levels, c.level, c.i0, c.i1)
    requires !manual ==> GapFree(c.i0 + c.i1)
    ensures var a := BeginCompaction(c.i0, c.i1, manual, c.level);
            var t := st.(compaction := Some(Running(c.level, c.i0, c.i1, Oldest(st), st.levels, manual)));
            Steps(st, a, t) && Inv(t)
  {
    hide Inv, ValidInputs, GapFree;
    StepKeepsInv(st, BeginCompaction(c.i0, c.i1, manual, c.level));
  }

  lemma MoveStep(st: Db, w: Levels, level: nat, f: File)
    requires Inv(st) && st.compaction.None? && ValidInputs(st.levels, level, [f], [])
    requires level + 1 < NUM_LEVELS && w == Compacted(st.levels, level, [f], [], [f])
    ensures var t := Commit(st, w, st.manifest.logNumber, st.nextFile);
            Steps(st, TrivialMove(level, f), t) && Inv(t)
  {
    hide Inv, ValidInputs, Compacted;
    StepKeepsInv(st, TrivialMove(level, f));
  }

  lemma FinishStep(st: Db, w: Levels, outputs: seq<File>, next: nat)
    requires Inv(st) && st.compaction.Some? && st.compaction.value.level + 1 < NUM_LEVELS && OutputsOk(st, outputs, next)
    requires st.compaction.value.manual ==> SurvivorsClear(st.levels, st.compaction.value)
    requires var c := st.compaction.value; w == Compacted(st.levels, c.level, c.i0, c.i1, outputs)
    ensures var t := Commit(st, w, st.manifest.logNumber, next).(compaction := None, uncovered := st.uncovered + ExposedKeys(st));
            Steps(st, FinishCompaction(outputs, next), t) && Inv(t)
  {
    hide Inv, OutputsOk, ExposedKeys, Compacted, SurvivorsClear, FitsLevel;
    if !st.compaction.value.manual {
      PickedIsClear(st);
    }
    ClearOutputsFit(st, outputs, next);
    StepKeepsInv(st, FinishCompaction(outputs, next));
  }

  /** A table taken from one level is new to the next. */
  lemma MovedIsFresh(v: Levels, next: nat, level: nat, f: File)
    requires Tables(v, next) && level + 1 < NUM_LEVELS && f in v[level]
    ensures Addable(v, level, [f]) && Numbers([]) !! Numbers([f])
  {
    var all := AddAll(level + 1, [f]);
    forall l: nat ensures AddedAt(all, l) == if l == level + 1 then [f] else [] {
      AddedAtAll(level + 1, [f], l);
    }
  }

  lemma RecoverStep(st: Db, t: Db, tables: seq<File>, chunks: seq<seq<Entry>>, newLog: nat) returns (crash: Action)
    requires Inv(st) && ReplayedWithin(tables, chunks, st.manifest.nextFile + 1, newLog) && Flatten(chunks) == LiveLog(st)
    requires st.memLog < newLog && st.manifest.nextFile < newLog
    requires var last := MaxSequence(LiveLog(st), st.manifest.lastSequence);
             var w := st.manifest.levels[0 := InsertFiles(st.manifest.levels[0], tables)];
             t == Db([], None, w, last, last, [], [], None, newLog + 1, newLog, newLog, st.logs[newLog := []],
                     Manifest(w, newLog, newLog + 1, last), st.history, st.uncovered)
    ensures crash.CrashAndRecover? && Steps(st, crash, t) && Inv(t)
  {
    hide Inv, ReplayedWithin, InsertFiles, Flatten, LiveLog, MaxSequence, RecoveredTables;
    var numbers := TablesAreRecovered(tables, chunks, st.manifest.nextFile + 1, newLog);
    ChunksFilled(tables, chunks, st.manifest.nextFile + 1, newLog);
    crash := CrashAndRecover(chunks, numbers, newLog);
    StepKeepsInv(st, crash);
  }

  lemma ChunksFilled(tables: seq<File>, chunks: seq<seq<Entry>>, lo: nat, hi: nat)
    requires ReplayedWithin(tables, chunks, lo, hi)
    ensures forall c :: c in chunks ==> c != [] && Chronological(c)
  {
  }

  lemma ReplayFacts(st: Db)
    requires Inv(st)
    ensures st.memLog in st.logs && st.memLog >= st.manifest.logNumber && Chronological(LiveLog(st)) && Logged(st)
    ensures st.manifest.levels == st.levels && Tables(st.levels, st.manifest.nextFile)
  {
  }

  lemma ReplayedFiles(v: Levels, tables: seq<File>, chunks: seq<seq<Entry>>, floor: nat, next: nat)
    requires Tables(v, floor) && ReplayedWithin(tables, chunks, floor + 1, next)
    ensures forall l :: 0 <= l < NUM_LEVELS ==> BySmallest(v[l]) && FreshNumbers(v[l], AddedAt(AddAll(0, tables), l))
  {
    forall l: nat ensures AddedAt(AddAll(0, tables), l) == if l == 0 then tables else [] {
      AddedAtAll(0, tables, l);
    }
  }

  /** The deepest level, of the first three, that PickLevelForMemTableOutput can reach with the immutable memtable. */
  ghost predicate LevelChosen(st: Db, level: nat, maxFileSize: nat) {
    && st.imm.Some? && level <= MAX_MEM_COMPACT_LEVEL
    && if st.imm.value == [] then level == 0
       else
         var lo, hi := st.imm.value[0].key, st.imm.value[|st.imm.value| - 1].key;
         && (level > 0 ==> forall i :: 0 <= i <= level ==> !OverlapInLevel(st.levels[i], lo, hi))
         && (level < MAX_MEM_COMPACT_LEVEL ==> Blocked(st.levels, level, lo, hi, maxFileSize))
  }

  lemma LevelOfImm(st: Db, f: File, level: nat, maxFileSize: nat)
    requires st.imm.Some? && f.contents == st.imm.value && level <= MAX_MEM_COMPACT_LEVEL
    requires level > 0 ==> forall i :: 0 <= i <= level ==> !OverlapInLevel(st.levels[i], Lo(f), Hi(f))
    requires level < MAX_MEM_COMPACT_LEVEL ==> Blocked(st.levels, level, Lo(f), Hi(f), maxFileSize)
    ensures LevelChosen(st, level, maxFileSize)
  {
    hide OverlapInLevel, Blocked;
  }

  /** A single file with nothing below it and little two levels below is moved; anything else is merged. */
  ghost predicate PerformedAs(step: Option<Action>, c: Picked, maxFileSize: nat) {
    if |c.i0| == 1 && c.i1 == [] && TotalFileSize(c.grandparents) <= 10 * maxFileSize
    then step == Some(TrivialMove(c.level, c.i0[0]))
    else step == Some(BeginCompaction(c.i0, c.i1, false, c.level))
  }

  /** The memtable has been flushed, to the level chosen for it. */
  ghost predicate FlushedAs(step: Option<Action>, st: Db, maxFileSize: nat) {
    step.Some? && step.value.FlushMemtable? && LevelChosen(st, step.value.level, maxFileSize)
  }

  ghost predicate StepsTo(st: Db, step: Option<Action>, t: Db) {
    if step.None? then t == st else Steps(st, step.value, t)
  }

  /** The compaction is the one that the trigger asks for, and the next one of its level will go on behind it. */
  ghost predicate Answered(v: Levels, trigger: Trigger, pointers: seq<Option<InternalKey>>, maxFileSize: nat, c: Picked,
                           pointers': seq<Option<InternalKey>>)
  {
    && Triggered(v, trigger, pointers, maxFileSize, c)
    && (exists f :: f in c.i0 && Sought(v, trigger, pointers, f))
    && c.level < |pointers| && pointers' == pointers[c.level := Some(c.largest)]
  }

  /**
    The store.  The log files are part of the object, as the file system holds them; a memtable is the
    sorted sequence of its entries.
   */
  class DBImpl {
    var mem: seq<Entry>
    var imm: Option<seq<Entry>>
    var current: Levels
    var lastSequence: SequenceNumber
    var target: SequenceNumber
    var pending: seq<Entry>
    var snapshots: seq<SequenceNumber>
    var running: Option<Running>
    var grandparents: seq<File>
    var pointers: seq<Option<InternalKey>>
    var nextFile: nat
    var memLog: nat
    var immLog: nat
    var logs: map<nat, seq<Entry>>
    var manifest: Manifest
    ghost var history: seq<Entry>
    ghost var uncovered: set<UserKey>

    ghost function State(): Db
      reads this
    {
      Db(mem, imm, current, lastSequence, target, pending, snapshots, running, nextFile, memLog, immLog, logs, manifest, history,
         uncovered)
    }

    ghost predicate Valid()
      reads this
    {
      Inv(State()) && |pointers| == NUM_LEVELS
    }

    constructor ()
      ensures Valid() && State() == Initial()
    {
      hide Inv, Sorted;
      mem, imm, current := [], None, [[], [], [], [], [], [], []];
      lastSequence, target, pending, snapshots := 0, 0, [], [];
      running, grandparents, pointers := None, [], [None, None, None, None, None, None, None];
      nextFile, memLog, immLog, logs := 4, 3, 3, map[3 := []];
      manifest := Manifest([[], [], [], [], [], [], []], 3, 4, 0);
      history, uncovered := [], {};
      new;
      InitialInv();
    }

    method Get(k: UserKey, snapshot: Option<SequenceNumber>) returns (r: Option<Value>)
      requires Valid() && (snapshot.Some? ==> snapshot.value in snapshots)
      ensures var s := if snapshot.Some? then snapshot.value else lastSequence;
              && r == ReadSet(Stored(mem, imm, current), k, s)
              && (k !in uncovered ==> r == View(history, k, s))
    {
      var s := if snapshot.Some? then snapshot.value else lastSequence;
      SnapshotsReadable(State(), s);
      LookupReadsStored(mem, imm, current, k, s);
      if k !in uncovered {
        LookupIsView(State(), k, s);
      }
      ValidFacts(State());
      var found := SeekGet(mem, k, s);
      if found.Some? {
        return Outcome(found.value.op);
      }
      if imm.Some? {
        found := SeekGet(imm.value, k, s);
        if found.Some? {
          return Outcome(found.value.op);
        }
      }
      r := Versions.Get(current, k, s);
    }

    method GetSnapshot() returns (s: SequenceNumber)
      requires Valid()
      modifies this`snapshots
      ensures Valid() && Steps(old(State()), TakeSnapshot, State()) && s == lastSequence && s in snapshots
    {
      hide Inv, View;
      StepKeepsInv(State(), TakeSnapshot);
      snapshots := snapshots + [lastSequence];
      s := lastSequence;
    }

    method ReleaseSnapshot(index: nat)
      requires Valid() && index < |snapshots|
      modifies this`snapshots
      ensures Valid() && Steps(old(State()), Action.ReleaseSnapshot(index), State())
    {
      hide Inv, View;
      StepKeepsInv(State(), Action.ReleaseSnapshot(index));
      snapshots := snapshots[..index] + snapshots[index + 1..];
    }

    /* ---- Writing ---- */

    method AddRecord(batch: seq<Write>)
      requires Valid() && target == lastSequence && lastSequence + |batch| < MAX_SEQUENCE
      modifies this
      ensures Valid() && Steps(old(State()), LogBatch(batch), State())
    {
      hide Inv, View;
      StepKeepsInv(State(), LogBatch(batch));
      ValidFacts(State());
      var es := Numbered(batch, lastSequence + 1);
      pending, target, logs, history := es, lastSequence + |batch|, logs[memLog := logs[memLog] + es], history + es;
    }

    method InsertPending()
      requires Valid() && pending != []
      modifies this`mem, this`pending
      ensures Valid() && Steps(old(State()), InsertNext, State())
    {
      hide Inv, View;
      StepKeepsInv(State(), InsertNext);
      mem, pending := Insert(mem, pending[0]), pending[1..];
    }

    method SetLastSequence()
      requires Valid() && pending == []
      modifies this`lastSequence
      ensures Valid() && Steps(old(State()), Publish, State())
    {
      hide Inv, View;
      StepKeepsInv(State(), Publish);
      lastSequence := target;
    }

    /** What one leader does with a group once there is room: log it, insert it, publish it. */
    method WriteGroup(batch: seq<Write>)
      requires Valid() && target == lastSequence && lastSequence + |batch| < MAX_SEQUENCE
      modifies this
      ensures Valid() && target == lastSequence == old(lastSequence) + |batch|
      ensures history == old(history) + Numbered(batch, old(lastSequence) + 1)
      ensures current == old(current) && imm == old(imm) && snapshots == old(snapshots) && running == old(running)
      ensures uncovered == old(uncovered)
    {
      hide Inv, View;
      AddRecord(batch);
      while pending != []
        invariant Valid() && target == old(lastSequence) + |batch|
        invariant history == old(history) + Numbered(batch, old(lastSequence) + 1)
        invariant current == old(current) && imm == old(imm) && snapshots == old(snapshots) && running == old(running)
        invariant uncovered == old(uncovered)
        decreases |pending|
      {
        InsertPending();
      }
      SetLastSequence();
    }

    /** The arm of MakeRoomForWrite that starts a new memtable and log. */
    method SwitchToNewMemtable()
      requires Valid() && target == lastSequence && imm.None?
      modifies this
      ensures Valid() && Steps(old(State()), SwitchMemtable, State())
    {
      hide Inv, View;
      StepKeepsInv(State(), SwitchMemtable);
      var number := nextFile;
      nextFile := nextFile + 1;
      logs := logs[number := []];
      immLog, memLog := memLog, number;
      imm, mem := Some(mem), [];
    }

    /* ---- Versions ---- */

    /** Record the new version in the manifest and make it current. */
    method LogAndApply(e: Edit, logNumber: nat)
      requires EditOk(e)
      requires forall l :: 0 <= l < NUM_LEVELS ==> BySmallest(current[l]) && FreshNumbers(current[l], AddedAt(e.added, l))
      modifies this`current, this`manifest
      ensures forall l :: 0 <= l < NUM_LEVELS ==> current[l] == ApplyOne(old(current)[l], e, l)
      ensures manifest == Manifest(current, logNumber, nextFile, lastSequence)
    {
      var v := NewVersion(current, e);
      manifest := Manifest(v, logNumber, nextFile, lastSequence);
      current := v;
    }

    /* ---- Background work ---- */

    /** Build a table from the immutable memtable and install it at the level PickLevelForMemTableOutput chooses. */
    method WriteLevel0Table(number: nat, size: nat, maxFileSize: nat) returns (level: nat)
      requires imm.Some? && Sorted(imm.value) && imm.value != [] && Tidy(current) && Tables(current, number)
      modifies this`current, this`manifest
      ensures LevelChosen(old(State()), level, maxFileSize)
      ensures var f := FileData(number, size, imm.value);
              LevelForFlush(old(current), level, f) && current == old(current)[level := InsertFile(old(current)[level], f)]
      ensures manifest == Manifest(current, memLog, nextFile, lastSequence)
    {
      hide Tidy, Tables, OverlapInLevel, InsertFile, InsertFiles, Blocked, LevelChosen;
      var f: File := FileData(number, size, imm.value);
      level := PickLevelForMemTableOutput(current, Lo(f), Hi(f), maxFileSize);
      LevelOfImm(State(), f, level, maxFileSize);
      FreshEdit(current, number, level, [f]);
      LogAndApply(Edit({}, AddAll(level, [f])), memLog);
      AddedByEdit(old(current), current, level, [f]);
      InsertOne(old(current)[level], f);
    }

    method CompactMemTable(size: nat, maxFileSize: nat) returns (ghost level: nat)
      requires Valid() && imm.Some?
      modifies this
      ensures Valid() && Steps(old(State()), FlushMemtable(level, size), State())
      ensures LevelChosen(old(State()), level, maxFileSize) && pointers == old(pointers)
    {
      hide Inv, VersionOk, Tidy, Steps, Tables, LevelForFlush, InsertFile, InsertFiles, Sorted, ValidInputs, GapFree, Stands,
        LevelSorted;
      ghost var st := State();
      ValidFacts(st);
      var number := nextFile;
      nextFile := nextFile + 1;
      level := 0;
      if imm.value != [] {
        var l := WriteLevel0Table(number, size, maxFileSize);
        level := l;
        assert current == st.levels[l := InsertFile(st.levels[l], ImmFile(st, size))];
      } else {
        FreshEdit(current, number, 0, []);
        LogAndApply(Edit({}, AddAll(0, [])), memLog);
        AddedByEdit(st.levels, current, 0, []);
        NothingAdded(st.levels[0]);
      }
      imm := None;
      FlushStep(st, current, level, size);
    }

    /** Replace the inputs of a compaction by its outputs. */
    method InstallCompactionResults(level: nat, i0: seq<File>, i1: seq<File>, outputs: seq<File>)
      requires level + 1 < NUM_LEVELS && Numbers(i1) !! Numbers(outputs) && Addable(current, level, outputs)
      modifies this`current, this`manifest
      ensures current == Compacted(old(current), level, i0, i1, outputs)
      ensures manifest == Manifest(current, old(manifest).logNumber, nextFile, lastSequence)
    {
      hide FreshNumbers, BySmallest, Numbers, Compacted, ApplyOne;
      LogAndApply(Edit(DeletedNumbers(level, i0, i1), AddAll(level + 1, outputs)), manifest.logNumber);
      CompactedByEdit(old(current), current, level, i0, i1, outputs);
    }

    method MoveToNextLevel(level: nat, f: File)
      requires Valid() && running.None? && ValidInputs(current, level, [f], [])
      modifies this
      ensures Valid() && Steps(old(State()), TrivialMove(level, f), State()) && imm == old(imm) && pointers == old(pointers)
    {
      hide Inv, VersionOk, Tidy, Steps, Tables, FreshNumbers, BySmallest, Numbers, Compacted, LevelSorted;
      ghost var st := State();
      ValidFacts(st);
      assert f in [f];
      MovedIsFresh(current, nextFile, level, f);
      InstallCompactionResults(level, [f], [], [f]);
      MoveStep(st, current, level, f);
    }

    method StartWork(c: Picked, manual: bool)
      requires Valid() && running.None? && ValidInputs(current, c.level, c.i0, c.i1) && (!manual ==> GapFree(c.i0 + c.i1))
      modifies this`running, this`grandparents
      ensures Valid() && Steps(old(State()), BeginCompaction(c.i0, c.i1, manual, c.level), State())
      ensures grandparents == c.grandparents
    {
      hide Inv, Steps, ValidInputs, GapFree;
      BeginStep(State(), c, manual);
      var smallestSnapshot := if snapshots == [] then lastSequence else snapshots[0];
      running := Some(Running(c.level, c.i0, c.i1, smallestSnapshot, current, manual));
      grandparents := c.grandparents;
    }

    /** The memtable first; otherwise a compaction the store picks itself, as a plain move when that is cheap. */
    method BackgroundCompaction(trigger: Trigger, size: nat, maxFileSize: nat)
      returns (ghost step: Option<Action>, ghost picked: Option<Picked>)
      requires Valid() && running.None? && TriggerOk(current, trigger)
      modifies this
      ensures Valid() && StepsTo(old(State()), step, State())
      ensures step.None? <==> old(imm).None? && trigger.Nothing?
      ensures old(imm).Some? ==> FlushedAs(step, old(State()), maxFileSize)
      ensures picked.Some? <==> old(imm).None? && !trigger.Nothing?
      ensures picked.None? ==> pointers == old(pointers)
      ensures picked.Some? ==>
                && Answered(old(current), trigger, old(pointers), maxFileSize, picked.value, pointers)
                && PerformedAs(step, picked.value, maxFileSize)
    {
      hide Inv, VersionOk, Tidy, Steps, Tables, ValidInputs, GapFree, LevelSorted, Triggered, Sought, LevelChosen, OverlapInLevel;
      ValidFacts(State());
      picked := None;
      if imm.Some? {
        ghost var level := CompactMemTable(size, maxFileSize);
        step := Some(FlushMemtable(level, size));
        return;
      }
      var c := PickCompaction(current, trigger, pointers, maxFileSize);
      if c.None? {
        step := None;
        return;
      }
      picked := c;
      TriggeredLevel(current, trigger, pointers, maxFileSize, c.value);
      pointers := pointers[c.value.level := Some(c.value.largest)];
      if |c.value.i0| == 1 && |c.value.i1| == 0 && TotalFileSize(c.value.grandparents) <= 10 * maxFileSize {
        var f := c.value.i0[0];
        assert c.value.i0 == [f] && c.value.i1 == [];
        MoveToNextLevel(c.value.level, f);
        step := Some(TrivialMove(c.value.level, f));
        return;
      }
      StartWork(c.value, false);
      step := Some(BeginCompaction(c.value.i0, c.value.i1, false, c.value.level));
    }

    /** A manual compaction of a key range; `done` when no table is left in it. */
    method ManualCompaction(level: nat, begin: Option<UserKey>, end: Option<UserKey>, maxFileSize: nat)
      returns (done: bool, ghost c: Option<Picked>)
      requires Valid() && running.None? && imm.None? && level + 1 < NUM_LEVELS
      modifies this
      ensures Valid()
      ensures done <==> forall f :: f in old(current)[level] ==> !Overlaps(f, begin, end)
      ensures done ==> State() == old(State()) && pointers == old(pointers)
      ensures c.Some? <==> !done
      ensures !done ==>
                && Requested(old(current), level, begin, end, maxFileSize, c.value)
                && Steps(old(State()), BeginCompaction(c.value.i0, c.value.i1, true, level), State())
                && grandparents == c.value.grandparents && pointers == old(pointers)[level := Some(c.value.largest)]
    {
      hide Inv, VersionOk, Tidy, Steps, Tables, ValidInputs, GapFree, LevelSorted, Requested, Overlaps;
      ValidFacts(State());
      var picked := CompactRange(current, level, begin, end, maxFileSize);
      done, c := picked.None?, picked;
      if picked.Some? {
        RequestedLevel(current, level, begin, end, maxFileSize, picked.value);
        pointers := pointers[level := Some(picked.value.largest)];
        StartWork(picked.value, true);
      }
    }

    /** The loop of the compaction, and numbers for the tables it has cut. */
    method CutOutputs(input: seq<Entry>, full: seq<Entry> -> bool, size: seq<Entry> -> nat, maxFileSize: nat)
      returns (files: seq<File>)
      requires Valid() && running.Some? && running.value.level + 1 < NUM_LEVELS
      requires Sorted(input) && Elems(input) == FileSet(running.value.i0 + running.value.i1)
      ensures OutputsOk(State(), files, nextFile + |files|) && TablesCut(grandparents, maxFileSize, full, Contents(files))
      ensures Numbers(running.value.i1) !! Numbers(files) && Addable(current, running.value.level, files)
    {
      hide Inv, VersionOk, Tidy, Tables, OutputsOk, Sorted, Survivors, Flatten, LevelSorted, Addable, Numbers, Stands, FileSet, TablesCut;
      ValidFacts(State());
      var tables := RunLoop(running.value, grandparents, input, full, maxFileSize);
      files := NumberTables(tables, nextFile, size);
      OutputsReady(State(), input, tables, files);
    }

    /**
      Merge the inputs, drop what no reader needs, cut output tables, install them.  `input` is what the
      merging iterator yields over the input tables; see module Merger.
     */
    method DoCompactionWork(input: seq<Entry>, full: seq<Entry> -> bool, size: seq<Entry> -> nat, maxFileSize: nat)
      returns (ghost outputs: seq<File>)
      requires Valid() && running.Some? && running.value.level + 1 < NUM_LEVELS
      requires running.value.manual ==> SurvivorsClear(current, running.value)
      requires Sorted(input) && Elems(input) == FileSet(running.value.i0 + running.value.i1)
      modifies this
      ensures Valid() && Steps(old(State()), FinishCompaction(outputs, nextFile), State())
      ensures TablesCut(old(grandparents), maxFileSize, full, Contents(outputs))
    {
      hide TablesCut, Contents, Inv, VersionOk, Tidy, Steps, Tables, Compacted, ExposedKeys, SurvivorsClear, OutputsOk, Sorted, Addable, Numbers,
        Stands, FileSet;
      ghost var st := State();
      var c := running.value;
      var files := CutOutputs(input, full, size, maxFileSize);
      outputs := files;
      nextFile := nextFile + |files|;
      InstallCompactionResults(c.level, c.i0, c.i1, files);
      running := None;
      uncovered := uncovered + ExposedKeys(st);
      FinishStep(st, current, files, nextFile);
    }

    /** Replay the logs that the manifest has not retired. */
    method ReplayLogs(full: seq<Entry> -> bool)
      returns (tables: seq<File>, ghost chunks: seq<seq<Entry>>, last: SequenceNumber, newLog: nat)
      requires Valid()
      ensures ReplayedWithin(tables, chunks, manifest.nextFile + 1, newLog) && Flatten(chunks) == LiveLog(State())
      ensures last == MaxSequence(LiveLog(State()), manifest.lastSequence)
      ensures memLog < newLog && manifest.nextFile < newLog
    {
      hide Inv, Tables, ReplayedWithin, Flatten, LiveLog, MaxSequence, ConcatLogs, Chronological, Logged, Ascending;
      ReplayFacts(State());
      var numbers := SortNumbers(set n | n in logs && n >= manifest.logNumber);
      LiveNumbers(State(), numbers);
      tables, chunks, last, newLog := RecoverLogs(logs, numbers, full, manifest.nextFile + 1, manifest.lastSequence);
      assert memLog in numbers;
    }

    /** What was only in memory is lost. */
    method LoseMemory()
      modifies this`mem, this`imm, this`pending, this`snapshots, this`running, this`grandparents, this`pointers
      ensures mem == [] && imm == None && pending == [] && snapshots == [] && running == None && |pointers| == NUM_LEVELS
    {
      mem, imm, pending := [], None, [];
      snapshots, running := [], None;
      grandparents, pointers := [], [None, None, None, None, None, None, None];
    }

    /** The version and the counters start from the manifest, under a new log. */
    method StartOver(last: SequenceNumber, newLog: nat)
      modifies this`current, this`lastSequence, this`target, this`nextFile, this`logs, this`memLog, this`immLog
      ensures current == manifest.levels && lastSequence == target == last && nextFile == newLog + 1
      ensures logs == old(logs)[newLog := []] && memLog == immLog == newLog
    {
      hide *;
      current, lastSequence, target, nextFile := manifest.levels, last, last, newLog + 1;
      logs, memLog, immLog := logs[newLog := []], newLog, newLog;
    }

    method Restart(last: SequenceNumber, newLog: nat)
      modifies this`mem, this`imm, this`pending, this`snapshots, this`running, this`grandparents, this`pointers,
               this`current, this`lastSequence, this`target, this`nextFile, this`logs, this`memLog, this`immLog
      ensures State() == Db([], None, manifest.levels, last, last, [], [], None, newLog + 1, newLog, newLog,
                            old(logs)[newLog := []], manifest, history, uncovered)
      ensures |pointers| == NUM_LEVELS
    {
      LoseMemory();
      StartOver(last, newLog);
    }

    method InstallReplayed(tables: seq<File>, ghost chunks: seq<seq<Entry>>, ghost floor: nat, newLog: nat)
      requires Tables(current, floor) && ReplayedWithin(tables, chunks, floor + 1, newLog)
      modifies this`current, this`manifest
      ensures var w := old(current)[0 := InsertFiles(old(current)[0], tables)];
              State() == old(State()).(levels := w, manifest := Manifest(w, newLog, nextFile, lastSequence))
    {
      ReplayedFiles(current, tables, chunks, floor, newLog);
      LogAndApply(Edit({}, AddAll(0, tables)), newLog);
      AddedByEdit(old(current), current, 0, tables);
    }

    /** A crash loses everything but the files; opening the store again replays the live logs. */
    method CrashAndReopen(full: seq<Entry> -> bool) returns (ghost crash: Action)
      requires Valid()
      modifies this
      ensures Valid() && crash.CrashAndRecover? && Steps(old(State()), crash, State())
    {
      hide Inv, Steps, Tables, ReplayedWithin, InsertFiles, Flatten, LiveLog, MaxSequence, Logged, Chronological;
      ghost var st := State();
      ReplayFacts(st);
      var tables, chunks, last, newLog := ReplayLogs(full);
      Restart(last, newLog);
      InstallReplayed(tables, chunks, st.manifest.nextFile, newLog);
      crash := RecoverStep(st, State(), tables, chunks, newLog);
    }
  }

  /** Every table is cut where the loop has to, and only there. */
  ghost predicate TablesCut(grandparents: seq<File>, maxFileSize: nat, full: seq<Entry> -> bool, tables: seq<seq<Entry>>) {
    AllCut(grandparents, maxFileSize, full, tables, if tables == [] then 0 else |tables| - 1)
  }

  method RunLoop(c: Running, grandparents: seq<File>, input: seq<Entry>, full: seq<Entry> -> bool, maxFileSize: nat)
    returns (tables: seq<seq<Entry>>)
    requires Sorted(input) && c.oldest < MAX_SEQUENCE && forall i :: 1 <= i < NUM_LEVELS ==> LevelSorted(c.version[i])
    ensures Flatten(tables) == Survivors(input, |input|, c.oldest, c.version, c.level)
    ensures forall t :: t in tables ==> t != [] && Sorted(t)
    ensures TablesCut(grandparents, maxFileSize, full, tables)
  {
    var work := new Compaction(c.level, c.version, grandparents, maxFileSize);
    tables := CompactionWork.DoCompactionWork(work, input, c.oldest, full);
    SurvivorsSorted(input, |input|, c.oldest, c.version, c.level);
    PiecesSorted(tables);
  }
}
