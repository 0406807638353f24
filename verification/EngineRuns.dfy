/**
  Whole runs: every state that any sequence of enabled steps reaches satisfies the invariant, so every
  read the store still serves returns what the write history says, before and after crashes, save for
  keys that a compaction has uncovered; which those are is said exactly.
 */
module EngineRuns {
  import opened Wrappers
  import opened DbFormat
  import opened Versions
  import opened CompactionWork
  import opened CompactionReads
  import opened VersionBuilder
  import opened Engine
  import opened EngineWrites
  import opened EngineFlush
  import opened EngineCompaction
  import opened EngineInstall
  import opened EngineRecovery

  lemma StepKeepsInv(st: Db, a: Action)
    requires Inv(st) && Enabled(st, a)
    ensures Inv(Apply(st, a))
  {
    hide Inv, Enabled, Apply;
    match a
    case LogBatch(batch) => LogBatchKeepsInv(st, batch);
    case InsertNext => InsertNextKeepsInv(st);
    case Publish => PublishKeepsInv(st);
    case SwitchMemtable => SwitchKeepsInv(st);
    case FlushMemtable(level, size) => FlushKeepsInv(st, level, size);
    case BeginCompaction(i0, i1, manual, at) => BeginKeepsInv(st, i0, i1, manual, at);
    case FinishCompaction(outputs, next) => FinishKeepsInv(st, outputs, next);
    case AbortCompaction => AbortKeepsInv(st);
    case TrivialMove(from, file) => MoveKeepsInv(st, from, file);
    case TakeSnapshot => SnapshotKeepsInv(st);
    case ReleaseSnapshot(i) => ReleasedKeepsInv(st, i);
    case CrashAndRecover(chunks, numbers, newLog) => RecoverKeepsInv(st, chunks, numbers, newLog);
  }

  lemma ReleasedKeepsInv(st: Db, i: nat)
    requires Inv(st) && Enabled(st, ReleaseSnapshot(i))
    ensures Inv(Apply(st, ReleaseSnapshot(i)))
  {
    ReleaseKeepsInv(st, i);
  }

  /** The state a run ends in, if each of its steps was enabled when its turn came. */
  ghost function After(run: seq<Action>): (r: Option<Db>)
    ensures r.Some? ==> Inv(r.value)
  {
    if run == [] then
      InitialInv();
      Some(Initial())
    else
      var n := |run| - 1;
      var before := After(run[..n]);
      if before.Some? && Enabled(before.value, run[n]) then
        StepKeepsInv(before.value, run[n]);
        Some(Apply(before.value, run[n]))
      else None
  }

  /* ---- Reads ---- */

  /** DBImpl::Get: the memtable, then the immutable one, then the version. */
  ghost function Lookup(mem: seq<Entry>, imm: Option<seq<Entry>>, v: Levels, k: UserKey, s: SequenceNumber): Option<Value> {
    var m := SeekGet(mem, k, s);
    var i := if imm.Some? then SeekGet(imm.value, k, s) else None;
    if m.Some? then Outcome(m.value.op)
    else if i.Some? then Outcome(i.value.op)
    else ReadSet(LevelsSet(v), k, s)
  }

  /** An entry found in the upper of two layers is the newest of both. */
  lemma UpperAnswers(upper: set<Entry>, lower: set<Entry>, k: UserKey, s: SequenceNumber, e: Entry)
    requires Newer(upper, lower) && IsNewest(upper, k, s, e)
    ensures IsNewest(upper + lower, k, s, e)
  {
  }

  lemma LowerAnswers(upper: set<Entry>, lower: set<Entry>, k: UserKey, s: SequenceNumber)
    requires forall x :: x in upper ==> !Visible(x, k, s)
    requires Unique(upper + lower)
    ensures ReadSet(upper + lower, k, s) == ReadSet(lower, k, s)
  {
    ReadSetAgree(upper + lower, lower, k, s);
  }

  lemma LookupReadsStored(mem: seq<Entry>, imm: Option<seq<Entry>>, v: Levels, k: UserKey, s: SequenceNumber)
    requires Layers(mem, imm, v)
    ensures Lookup(mem, imm, v, k, s) == ReadSet(Stored(mem, imm, v), k, s)
  {
    var lower := ImmSet(imm) + LevelsSet(v);
    assert Stored(mem, imm, v) == Elems(mem) + lower;
    SeekGetNewest(mem, k, s);
    if SeekGet(mem, k, s).Some? {
      var e := SeekGet(mem, k, s).value;
      UpperAnswers(Elems(mem), lower, k, s, e);
      ReadSetFound(Stored(mem, imm, v), k, s, e);
    } else {
      LowerAnswers(Elems(mem), lower, k, s);
      BelowMemtable(imm, v, k, s);
    }
  }

  lemma BelowMemtable(imm: Option<seq<Entry>>, v: Levels, k: UserKey, s: SequenceNumber)
    requires (imm.Some? ==> Sorted(imm.value)) && Newer(ImmSet(imm), LevelsSet(v)) && Unique(ImmSet(imm) + LevelsSet(v))
    ensures Lookup([], imm, v, k, s) == ReadSet(ImmSet(imm) + LevelsSet(v), k, s)
  {
    if imm.Some? && SeekGet(imm.value, k, s).Some? {
      SeekGetNewest(imm.value, k, s);
      var e := SeekGet(imm.value, k, s).value;
      UpperAnswers(ImmSet(imm), LevelsSet(v), k, s, e);
      ReadSetFound(ImmSet(imm) + LevelsSet(v), k, s, e);
    } else {
      if imm.Some? {
        SeekGetNewest(imm.value, k, s);
      }
      LowerAnswers(ImmSet(imm), LevelsSet(v), k, s);
    }
  }

  /** What is logged but not yet inserted is invisible to every reader. */
  lemma PendingInvisible(st: Db, k: UserKey, s: SequenceNumber)
    requires Inv(st) && s <= st.lastSequence
    ensures ReadSet(Held(st), k, s) == ReadSet(Stored(st.mem, st.imm, st.levels), k, s)
  {
    HeldUnique(st);
    var stored := Stored(st.mem, st.imm, st.levels);
    assert Held(st) == Elems(st.pending) + stored;
    LowerAnswers(Elems(st.pending), stored, k, s);
  }

  /** The sequences a reader may use: the latest published one, or any at or above the oldest snapshot. */
  ghost predicate Readable(st: Db, s: SequenceNumber) {
    Oldest(st) <= s <= st.lastSequence
  }

  lemma LookupIsView(st: Db, k: UserKey, s: SequenceNumber)
    requires Inv(st) && Readable(st, s) && k !in st.uncovered
    ensures Lookup(st.mem, st.imm, st.levels, k, s) == View(st.history, k, s)
  {
    LookupReadsStored(st.mem, st.imm, st.levels, k, s);
    PendingInvisible(st, k, s);
  }

  lemma SnapshotsReadable(st: Db, s: SequenceNumber)
    requires Inv(st) && (s in st.snapshots || s == st.lastSequence)
    ensures Readable(st, s)
  {
  }

  /**
    In every reachable state, reading a key at a live snapshot or at the latest sequence returns what the
    history says, unless a compaction has uncovered an older value of the key; see UncoveredIff.
   */
  lemma ReadsAreHistory(run: seq<Action>, k: UserKey, s: SequenceNumber)
    requires After(run).Some? && k !in After(run).value.uncovered
    requires var st := After(run).value; s in st.snapshots || s == st.lastSequence
    ensures var st := After(run).value; Lookup(st.mem, st.imm, st.levels, k, s) == View(st.history, k, s)
  {
    SnapshotsReadable(After(run).value, s);
    LookupIsView(After(run).value, k, s);
  }

  /**
    A reader captures the memtables and the version under the mutex and searches after releasing it.
    Later inserts into the captured memtable do not change what it finds.
   */
  lemma CapturedRead(st: Db, mem: seq<Entry>, k: UserKey, s: SequenceNumber)
    requires Inv(st) && Readable(st, s) && Sorted(mem) && k !in st.uncovered
    requires (forall e :: e in st.mem ==> e in mem) && forall e :: e in mem ==> e in st.mem || e.sn > st.lastSequence
    ensures Lookup(mem, st.imm, st.levels, k, s) == View(st.history, k, s)
  {
    LookupIsView(st, k, s);
    SeekGetNewest(mem, k, s);
    SeekGetNewest(st.mem, k, s);
    if SeekGet(mem, k, s).Some? && SeekGet(st.mem, k, s).Some? {
      var a, b := SeekGet(mem, k, s).value, SeekGet(st.mem, k, s).value;
      assert a in Stored(st.mem, st.imm, st.levels) && b in Stored(st.mem, st.imm, st.levels);
    }
  }

  /* ---- The history along a run ---- */

  /** Sequence numbers are handed out without gaps, in log order. */
  ghost predicate Contiguous(target: SequenceNumber, h: seq<Entry>) {
    target == |h| && forall i :: 0 <= i < |h| ==> h[i].sn == i + 1
  }

  lemma RecoveredSequence(st: Db)
    requires Inv(st) && Contiguous(st.target, st.history)
    ensures MaxSequence(LiveLog(st), st.manifest.lastSequence) == st.target
  {
    var last := MaxSequence(LiveLog(st), st.manifest.lastSequence);
    LastBound(st, last);
    if st.history != [] {
      assert st.history[|st.history| - 1] in st.history;
    }
    if last != st.manifest.lastSequence {
      var e :| e in LiveLog(st) && e.sn == last;
      LiveLogIs(st);
      assert e in Elems(LiveLog(st)) && e in Held(st);
    }
  }

  lemma StepHistory(st: Db, a: Action)
    requires Inv(st) && Enabled(st, a) && Contiguous(st.target, st.history)
    ensures var t := Apply(st, a); Contiguous(t.target, t.history) && st.history <= t.history
    ensures var t := Apply(st, a);
            t.lastSequence == st.lastSequence || t.lastSequence == |st.history|
  {
    match a
    case CrashAndRecover(chunks, numbers, newLog) => RecoveredSequence(st);
    case Publish => assert st.pending == [];
    case _ =>
  }

  lemma {:induction false} RunContiguous(run: seq<Action>)
    requires After(run).Some?
    ensures Contiguous(After(run).value.target, After(run).value.history)
  {
    if run != [] {
      var n := |run| - 1;
      RunContiguous(run[..n]);
      StepHistory(After(run[..n]).value, run[n]);
    }
  }

  lemma {:induction false} HistoryGrows(run: seq<Action>, more: seq<Action>)
    requires After(run + more).Some?
    ensures After(run).Some? && After(run).value.history <= After(run + more).value.history
  {
    hide Inv, Enabled, Apply, Contiguous;
    if more == [] {
      assert run + more == run;
    } else {
      var n := |more| - 1;
      assert (run + more)[..|run + more| - 1] == run + more[..n];
      HistoryGrows(run, more[..n]);
      RunContiguous(run + more[..n]);
      StepHistory(After(run + more[..n]).value, more[n]);
    }
  }

  lemma {:induction false} ViewOfExtension(h: seq<Entry>, g: seq<Entry>, k: UserKey, s: SequenceNumber)
    requires h <= g && s <= |h| && forall i :: 0 <= i < |g| ==> g[i].sn == i + 1
    ensures View(g, k, s) == View(h, k, s)
    decreases |g|
  {
    if |g| == |h| {
      assert g == h;
    } else {
      ViewOfExtension(h, g[..|g| - 1], k, s);
    }
  }

  lemma {:induction false} UncoveredGrows(run: seq<Action>, more: seq<Action>)
    requires After(run + more).Some?
    ensures After(run).Some? && After(run).value.uncovered <= After(run + more).value.uncovered
  {
    hide Inv, Enabled, Apply;
    if more == [] {
      assert run + more == run;
    } else {
      var n := |more| - 1;
      assert (run + more)[..|run + more| - 1] == run + more[..n];
      UncoveredGrows(run, more[..n]);
      UncoveredStep(After(run + more[..n]).value, more[n]);
    }
  }

  /** Only installing a compaction uncovers keys. */
  lemma UncoveredStep(st: Db, a: Action)
    requires Inv(st) && Enabled(st, a)
    ensures Apply(st, a).uncovered == st.uncovered + LastExposed(st, a)
  {
    hide Inv, ExposedKeys, OutputsOk, FitsLevel;
  }

  /** Step `i` of the run installs a compaction and changes what readers at or above its oldest sequence see of `k`. */
  ghost predicate ChangesReads(run: seq<Action>, i: nat, k: UserKey) {
    && i < |run| && run[i].FinishCompaction? && After(run[..i]).Some? && After(run[..i + 1]).Some?
    && After(run[..i]).value.compaction.Some?
    && !SameReads(Held(After(run[..i + 1]).value), Held(After(run[..i]).value), k, After(run[..i]).value.compaction.value.oldest)
  }

  /** A key is uncovered exactly if installing some compaction has changed what readers see of it. */
  lemma {:induction false} UncoveredIff(run: seq<Action>, k: UserKey)
    requires After(run).Some?
    ensures k in After(run).value.uncovered <==> exists i :: ChangesReads(run, i, k)
  {
    hide Inv, Enabled, Apply, SameReads, Held;
    if run != [] {
      var n := |run| - 1;
      LastChanges(run, k);
      UncoveredIff(run[..n], k);
      forall i | 0 <= i < n ensures ChangesReads(run, i, k) <==> ChangesReads(run[..n], i, k) {
        assert run[..n][..i] == run[..i] && run[..n][..i + 1] == run[..i + 1];
      }
    }
  }

  lemma LastStep(run: seq<Action>)
    requires After(run).Some? && run != []
    ensures var n := |run| - 1;
            && After(run[..n]).Some? && Enabled(After(run[..n]).value, run[n])
            && After(run).value == Apply(After(run[..n]).value, run[n])
  {
    hide Inv, Enabled, Apply;
  }

  lemma FinishRuns(st: Db, a: Action)
    requires Enabled(st, a) && a.FinishCompaction?
    ensures st.compaction.Some? && st.compaction.value.level + 1 < NUM_LEVELS
  {
    hide OutputsOk, FitsLevel;
  }

  /** The keys that the last step of the run exposes. */
  ghost function LastExposed(st: Db, a: Action): set<UserKey> {
    if a.FinishCompaction? && st.compaction.Some? && st.compaction.value.level + 1 < NUM_LEVELS then ExposedKeys(st) else {}
  }

  lemma LastChanges(run: seq<Action>, k: UserKey)
    requires After(run).Some? && run != []
    ensures var n := |run| - 1;
            && After(run[..n]).Some?
            && After(run).value.uncovered == After(run[..n]).value.uncovered + LastExposed(After(run[..n]).value, run[n])
            && (ChangesReads(run, n, k) <==> k in LastExposed(After(run[..n]).value, run[n]))
  {
    hide Inv, Enabled, Apply, SameReads, ExposedKeys, Held, After;
    var n := |run| - 1;
    LastStep(run);
    var st := After(run[..n]).value;
    assert run[..n + 1] == run;
    UncoveredStep(st, run[n]);
    if run[n].FinishCompaction? {
      FinishRuns(st, run[n]);
      FinishReads(st, run[n].outputs, run[n].next, k);
    }
  }

  lemma FinishReads(st: Db, outputs: seq<File>, next: nat, k: UserKey)
    requires Inv(st) && Enabled(st, FinishCompaction(outputs, next))
    ensures SameReads(Held(Apply(st, FinishCompaction(outputs, next))), Held(st), k, st.compaction.value.oldest) <==>
            k !in ExposedKeys(st)
  {
    hide Inv, SameReads, ExposedKeys, OutputsOk;
    FinishKeepsReadsIff(st, outputs, next, k);
    var c := st.compaction.value;
    var t := Commit(st, Compacted(st.levels, c.level, c.i0, c.i1, outputs), st.manifest.logNumber, next);
    assert Held(Apply(st, FinishCompaction(outputs, next))) == Held(t);
  }

  /** Whatever happens in between, reading again at the same live sequence gives the same answer. */
  lemma ReadsAreStable(run: seq<Action>, more: seq<Action>, k: UserKey, s: SequenceNumber)
    requires After(run + more).Some? && After(run).Some?
    requires Readable(After(run).value, s) && Readable(After(run + more).value, s)
    requires k !in After(run + more).value.uncovered
    ensures var a, b := After(run).value, After(run + more).value;
            Lookup(b.mem, b.imm, b.levels, k, s) == Lookup(a.mem, a.imm, a.levels, k, s)
  {
    var a, b := After(run).value, After(run + more).value;
    HistoryGrows(run, more);
    UncoveredGrows(run, more);
    RunContiguous(run);
    RunContiguous(run + more);
    assert s <= a.lastSequence <= a.target == |a.history|;
    ViewOfExtension(a.history, b.history, k, s);
    LookupIsView(a, k, s);
    LookupIsView(b, k, s);
  }

  /** The published sequence is always the length the history had after some whole batch. */
  lemma {:induction false} WholeBatches(run: seq<Action>) returns (i: nat)
    requires After(run).Some?
    ensures i <= |run| && After(run[..i]).Some?
    ensures After(run).value.lastSequence == |After(run[..i]).value.history|
  {
    hide Inv, Apply, Enabled, Contiguous;
    if run == [] {
      i := 0;
    } else {
      var n := |run| - 1;
      RunContiguous(run[..n]);
      StepHistory(After(run[..n]).value, run[n]);
      if After(run).value.lastSequence == After(run[..n]).value.lastSequence {
        i := WholeBatches(run[..n]);
        assert run[..n][..i] == run[..i];
      } else {
        i := n;
      }
    }
  }

  /* ---- Crashes ---- */

  lemma OneTable(live: seq<Entry>)
    requires live != []
    ensures Flatten([live]) == live
  {
    assert [live][..0] == [];
  }

  lemma RecoverySteps(st: Db) returns (crash: Action)
    requires Inv(st)
    ensures crash.CrashAndRecover? && Enabled(st, crash)
  {
    hide Inv, LiveLog;
    var live := LiveLog(st);
    var newLog := st.manifest.nextFile + st.memLog + 1;
    if live == [] {
      crash := CrashAndRecover([], [], newLog);
    } else {
      OneTable(live);
      crash := CrashAndRecover([live], [st.manifest.nextFile], newLog);
    }
  }

  /** Recovery is possible after any run: one table for all that must be replayed is always a way. */
  lemma CanRecover(run: seq<Action>) returns (crash: Action)
    requires After(run).Some?
    ensures crash.CrashAndRecover? && After(run + [crash]).Some?
  {
    hide Inv, Enabled, Apply;
    crash := RecoverySteps(After(run).value);
    assert (run + [crash])[..|run|] == run;
  }

  /** After recovery the latest view is the view of everything logged before the crash, published or not. */
  lemma RecoveryRestoresLog(run: seq<Action>, crash: Action, k: UserKey)
    requires crash.CrashAndRecover? && After(run + [crash]).Some? && k !in After(run + [crash]).value.uncovered
    ensures After(run).Some?
    ensures var st, t := After(run).value, After(run + [crash]).value;
            && t.lastSequence == st.target && t.history == st.history
            && Lookup(t.mem, t.imm, t.levels, k, t.lastSequence) == View(st.history, k, st.target)
  {
    assert (run + [crash])[..|run|] == run;
    var st, t := After(run).value, After(run + [crash]).value;
    RunContiguous(run);
    RecoveredSequence(st);
    LookupIsView(t, k, t.lastSequence);
  }
}
