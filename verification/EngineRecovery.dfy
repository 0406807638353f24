/**
  A crash between any two steps, followed by recovery, keeps the engine invariant and the history.
 */
module EngineRecovery {
  import opened Wrappers
  import opened DbFormat
  import opened Versions
  import opened CompactionWork
  import opened VersionBuilder
  import opened Engine
  import opened EngineWrites
  import opened EngineFlush
  import opened EngineCompaction
  import opened EngineInstall

  lemma {:induction false} ChunksInOrder(chunks: seq<seq<Entry>>)
    requires Chronological(Flatten(chunks))
    ensures forall i, j, a, b :: 0 <= i < j < |chunks| && a in chunks[i] && b in chunks[j] ==> a.sn < b.sn
  {
    if chunks != [] {
      var n := |chunks| - 1;
      var front, back := Flatten(chunks[..n]), chunks[n];
      var all := Flatten(chunks);
      assert forall i :: 0 <= i < |front| ==> all[i] == front[i];
      assert forall i :: 0 <= i < |back| ==> all[|front| + i] == back[i];
      ChunksInOrder(chunks[..n]);
      FlattenMembers(chunks[..n]);
      forall i, a, b | 0 <= i < n && a in chunks[i] && b in chunks[n] ensures a.sn < b.sn {
        assert a in chunks[..n][i] && a in front;
      }
    }
  }

  /** The tables written from the replayed logs: their numbers, their order, their contents. */
  ghost predicate ReplayTables(tables: seq<File>, live: set<Entry>, floor: nat, next: nat) {
    && (forall i, j :: 0 <= i < j < |tables| ==> tables[i].number < tables[j].number)
    && (forall f :: f in tables ==> floor <= f.number < next)
    && (forall i, j :: 0 <= i < j < |tables| ==> Newer(Elems(tables[j].contents), Elems(tables[i].contents)))
    && FileSet(tables) == live
  }

  lemma TablesFromChunks(chunks: seq<seq<Entry>>, numbers: seq<nat>, live: seq<Entry>, floor: nat, next: nat)
    requires |numbers| == |chunks| && Chronological(live) && Flatten(chunks) == live
    requires forall c :: c in chunks ==> c != [] && Chronological(c)
    requires forall i :: 0 <= i < |numbers| ==> floor <= numbers[i] < next
    requires forall i, j :: 0 <= i < j < |numbers| ==> numbers[i] < numbers[j]
    ensures ReplayTables(RecoveredTables(chunks, numbers), Elems(live), floor, next)
  {
    hide Flatten, Chronological, FileSet, Newer, RecoveredTables, Sorted;
    var tables := RecoveredTables(chunks, numbers);
    TablesInOrder(tables, chunks);
    TablesCover(tables, chunks);
  }

  lemma TablesInOrder(tables: seq<File>, chunks: seq<seq<Entry>>)
    requires |tables| == |chunks| && Chronological(Flatten(chunks))
    requires forall i :: 0 <= i < |tables| ==> tables[i].contents == InsertAll([], chunks[i])
    ensures forall i, j :: 0 <= i < j < |tables| ==> Newer(Elems(tables[j].contents), Elems(tables[i].contents))
  {
    ChunksInOrder(chunks);
    hide Sorted, Flatten, Chronological;
    forall i, j | 0 <= i < j < |tables| ensures Newer(Elems(tables[j].contents), Elems(tables[i].contents)) {
      forall x, y | x in tables[j].contents && y in tables[i].contents ensures x.sn > y.sn {
        assert x in chunks[j] && y in chunks[i];
      }
    }
  }

  lemma TablesCover(tables: seq<File>, chunks: seq<seq<Entry>>)
    requires |tables| == |chunks|
    requires forall i :: 0 <= i < |tables| ==> tables[i].contents == InsertAll([], chunks[i])
    ensures FileSet(tables) == Elems(Flatten(chunks))
  {
    FlattenMembers(chunks);
    hide Sorted, Flatten;
    forall e ensures e in FileSet(tables) <==> e in Flatten(chunks) {
      if e in FileSet(tables) {
        var f :| f in tables && e in f.contents;
        var i :| 0 <= i < |tables| && tables[i] == f;
        assert e in chunks[i];
      }
      if i :| 0 <= i < |chunks| && e in chunks[i] {
        assert tables[i] in tables && e in tables[i].contents;
      }
    }
  }

  /* ---- The recovered version ---- */

  lemma ReplayedFresh(fs: seq<File>, tables: seq<File>, live: set<Entry>, floor: nat, next: nat)
    requires BySmallest(fs) && ReplayTables(tables, live, floor, next) && forall f :: f in fs ==> f.number < floor
    ensures BySmallest(InsertFiles(fs, tables))
    ensures forall f :: f in InsertFiles(fs, tables) <==> f in fs || f in tables
    ensures FileSet(InsertFiles(fs, tables)) == FileSet(fs) + live
  {
    InsertedMany(fs, tables);
  }

  lemma ReplayedLevel0(fs: seq<File>, w0: seq<File>, tables: seq<File>, live: set<Entry>, floor: nat, next: nat)
    requires NewestByNumber(fs) && DistinctNumbers(fs) && (forall f :: f in fs ==> f.number < floor)
    requires ReplayTables(tables, live, floor, next) && Newer(live, FileSet(fs))
    requires forall f :: f in w0 <==> f in fs || f in tables
    ensures NewestByNumber(w0) && DistinctNumbers(w0)
  {
    forall f, g | f in w0 && g in w0 && f.number > g.number ensures Newer(Elems(f.contents), Elems(g.contents)) {
      if f in tables && g in fs {
        NewerPair(tables, fs, f, g);
      } else if f in tables {
        var i :| 0 <= i < |tables| && tables[i] == f;
        var j :| 0 <= j < |tables| && tables[j] == g;
        assert j < i;
      }
    }
    forall f, g | f in w0 && g in w0 && f.number == g.number ensures f == g {
      if f in tables && g in tables {
        var i :| 0 <= i < |tables| && tables[i] == f;
        var j :| 0 <= j < |tables| && tables[j] == g;
      }
    }
  }

  lemma NewerPair(upper: seq<File>, lower: seq<File>, f: File, g: File)
    requires Newer(FileSet(upper), FileSet(lower)) && f in upper && g in lower
    ensures Newer(Elems(f.contents), Elems(g.contents))
  {
  }

  lemma ReplayedNumbers(v: Levels, tables: seq<File>, live: set<Entry>, floor: nat, next: nat)
    requires Tables(v, floor) && ReplayTables(tables, live, floor, next) && floor <= next
    requires BySmallest(InsertFiles(v[0], tables)) && forall f :: f in InsertFiles(v[0], tables) <==> f in v[0] || f in tables
    ensures Tables(v[0 := InsertFiles(v[0], tables)], next)
  {
    hide BySmallest, Newer, FileSet, NumbersDistinct, InsertFiles;
    var w := v[0 := InsertFiles(v[0], tables)];
    forall i, f | 0 <= i < NUM_LEVELS && f in w[i] ensures (i == 0 && f in tables) || (f in v[i] && f.number < floor) {
    }
    NumbersTwoRanges(v, w, tables, floor);
  }

  lemma NumbersTwoRanges(v: Levels, w: Levels, tables: seq<File>, floor: nat)
    requires NumbersDistinct(v) && (forall f :: f in tables ==> floor <= f.number)
    requires forall i, j :: 0 <= i < j < |tables| ==> tables[i].number < tables[j].number
    requires forall i, f :: 0 <= i < NUM_LEVELS && f in w[i] ==> (i == 0 && f in tables) || (f in v[i] && f.number < floor)
    ensures NumbersDistinct(w)
  {
    forall f, g | f in tables && g in tables && f.number == g.number ensures f == g {
      var i :| 0 <= i < |tables| && tables[i] == f;
      var j :| 0 <= j < |tables| && tables[j] == g;
    }
  }

  lemma ReplayedOrder(v: Levels, w0: seq<File>, live: set<Entry>)
    requires Ordered(v) && Newer(live, LevelsSet(v)) && FileSet(w0) == FileSet(v[0]) + live
    ensures Ordered(v[0 := w0]) && LevelsSet(v[0 := w0]) == LevelsSet(v) + live
  {
    var w := v[0 := w0];
    forall j | 0 < j < NUM_LEVELS ensures Newer(FileSet(w[0]), FileSet(w[j])) {
      assert FileSet(v[j]) <= LevelsSet(v) by {
        forall e | e in FileSet(v[j]) ensures e in LevelsSet(v) {
          InLevel(v, j, e);
        }
      }
    }
    forall e ensures e in LevelsSet(w) <==> e in LevelsSet(v) + live {
      if e in LevelsSet(w) {
        var i :| 0 <= i < NUM_LEVELS && e in FileSet(w[i]);
        assert e in FileSet(v[i]) || e in live;
      }
      if i :| 0 <= i < NUM_LEVELS && e in FileSet(v[i]) {
        assert e in FileSet(w[i]);
      }
      if e in live {
        assert e in FileSet(w[0]);
      }
    }
  }

  lemma ReplayedVersion(v: Levels, tables: seq<File>, live: set<Entry>, floor: nat, next: nat)
    requires VersionOk(v) && Tables(v, floor) && ReplayTables(tables, live, floor, next) && floor <= next
    requires Newer(live, LevelsSet(v)) && Unique(LevelsSet(v) + live)
    ensures var w := v[0 := InsertFiles(v[0], tables)];
            VersionOk(w) && Tables(w, next) && LevelsSet(w) == LevelsSet(v) + live
  {
    hide LevelSorted, Newer, ReplayTables, NumbersDistinct, BySmallest, LevelsSet, FileSet;
    var w0 := InsertFiles(v[0], tables);
    ReplayedFresh(v[0], tables, live, floor, next);
    ReplayedOrder(v, w0, live);
    ReplayedNumbers(v, tables, live, floor, next);
    NewerThanLevel(v, 0, live);
    ReplayedLevel0(v[0], w0, tables, live, floor, next);
  }

  lemma NewerThanLevel(v: Levels, n: nat, live: set<Entry>)
    requires n < NUM_LEVELS && Newer(live, LevelsSet(v))
    ensures Newer(live, FileSet(v[n]))
  {
    forall e | e in FileSet(v[n]) ensures e in LevelsSet(v) {
      InLevel(v, n, e);
    }
  }

  /* ---- Reads above every sequence number are the same ---- */

  lemma ReadAbove(E: set<Entry>, k: UserKey, s: SequenceNumber, s': SequenceNumber)
    requires Unique(E) && s <= s' && forall e :: e in E ==> e.sn <= s
    ensures ReadSet(E, k, s) == ReadSet(E, k, s')
  {
    forall e ensures IsNewest(E, k, s, e) <==> IsNewest(E, k, s', e) {
      assert forall x :: x in E ==> (Visible(x, k, s) <==> Visible(x, k, s'));
    }
    ReadSetAgree(E, E, k, s) by {
      assert forall e :: IsNewest(E, k, s, e) <==> IsNewest(E, k, s', e);
    }
    if e :| IsNewest(E, k, s, e) {
      assert IsNewest(E, k, s', e);
      ReadSetFound(E, k, s, e);
      ReadSetFound(E, k, s', e);
    }
  }

  lemma {:induction false} ViewAbove(h: seq<Entry>, k: UserKey, s: SequenceNumber, s': SequenceNumber)
    requires s <= s' && forall e :: e in h ==> e.sn <= s
    ensures View(h, k, s) == View(h, k, s')
  {
    if h != [] {
      assert h[|h| - 1] in h;
      ViewAbove(h[..|h| - 1], k, s, s');
    }
  }

  lemma FaithfulFrom(E: set<Entry>, h: seq<Entry>, target: SequenceNumber, oldest: SequenceNumber, uncovered: set<UserKey>,
                     last: SequenceNumber)
    requires Faithful(E, h, target, oldest, uncovered) && Unique(E) && forall e :: e in h ==> e.sn <= last
    ensures Faithful(E, h, last, last, uncovered)
  {
    forall k: UserKey, s: SequenceNumber | s >= last && k !in uncovered ensures ReadSet(E, k, s) == View(h, k, s) {
      var s': SequenceNumber := if s >= oldest then s else oldest;
      ReadAbove(E, k, s, s');
      ViewAbove(h, k, s, s');
    }
  }

  /* ---- The step ---- */

  lemma RecoveredLogged(st: Db, t: Db, newLog: nat)
    requires Logged(st) && st.memLog < newLog
    requires t.mem == [] && t.imm == None && t.pending == [] && t.memLog == newLog && t.nextFile == newLog + 1
    requires t.logs == st.logs[newLog := []] && t.levels == t.manifest.levels
    requires t.manifest.logNumber == newLog && t.manifest.nextFile == newLog + 1
    ensures Logged(t) && LiveLog(t) == []
  {
    assert Elems(t.mem) + Elems(t.pending) == {};
  }

  lemma LiveIsNewest(st: Db)
    requires Layers(st.mem, st.imm, st.levels) && PendingOk(st.mem, st.pending, st.lastSequence, st.target)
    requires PublishedOk(st.imm, st.levels, st.lastSequence, st.manifest.lastSequence)
    requires Elems(LiveLog(st)) == ImmSet(st.imm) + Elems(st.mem) + Elems(st.pending)
    ensures Newer(Elems(LiveLog(st)), LevelsSet(st.levels))
    ensures Held(st) == LevelsSet(st.levels) + Elems(LiveLog(st))
  {
    MemoryIsNewer(st.mem, st.imm, st.levels, st.pending, st.lastSequence, st.target, st.manifest.lastSequence,
                  LevelsSet(st.levels));
  }

  /** Nothing but the version, the counters and the history is left in memory. */
  lemma EmptyMemory(w: Levels, last: SequenceNumber)
    requires VersionOk(w) && last < MAX_SEQUENCE && forall e :: e in LevelsSet(w) ==> e.sn <= last
    ensures Layers([], None, w) && PendingOk([], [], last, last) && PublishedOk(None, w, last, last)
    ensures Stored([], None, w) + Elems([]) == LevelsSet(w)
  {
    assert Elems([]) == {} && ImmSet(None) == {};
    assert Stored([], None, w) == LevelsSet(w);
  }

  lemma LastBound(st: Db, last: SequenceNumber)
    requires Inv(st) && last == MaxSequence(LiveLog(st), st.manifest.lastSequence)
    ensures last < MAX_SEQUENCE && (forall e :: e in st.history ==> e.sn <= last)
    ensures forall e :: e in Held(st) ==> e.sn <= last
  {
    if last != st.manifest.lastSequence {
      var e :| e in LiveLog(st) && e.sn == last;
      LiveLogIs(st);
      assert e in Elems(LiveLog(st)) && e in Held(st);
    }
  }

  lemma RecoverPieces(st: Db, chunks: seq<seq<Entry>>, numbers: seq<nat>, newLog: nat)
    requires Inv(st) && Enabled(st, CrashAndRecover(chunks, numbers, newLog))
    requires forall c :: c in chunks ==> c != [] && Chronological(c)
    ensures var w := st.levels[0 := InsertFiles(st.levels[0], RecoveredTables(chunks, numbers))];
            VersionOk(w) && Tables(w, newLog + 1) && LevelsSet(w) == Held(st)
  {
    LiveLogIs(st);
    LiveIsNewest(st);
    HeldUnique(st);
    TablesFromChunks(chunks, numbers, LiveLog(st), st.manifest.nextFile, newLog + 1);
    RecoverVersion(st, RecoveredTables(chunks, numbers), newLog);
  }

  lemma RecoverVersion(st: Db, tables: seq<File>, newLog: nat)
    requires VersionOk(st.levels) && Tables(st.levels, st.manifest.nextFile) && st.manifest.nextFile < newLog
    requires ReplayTables(tables, Elems(LiveLog(st)), st.manifest.nextFile, newLog + 1)
    requires Newer(Elems(LiveLog(st)), LevelsSet(st.levels)) && Unique(Held(st))
    requires Held(st) == LevelsSet(st.levels) + Elems(LiveLog(st))
    ensures var w := st.levels[0 := InsertFiles(st.levels[0], tables)];
            VersionOk(w) && Tables(w, newLog + 1) && LevelsSet(w) == Held(st)
  {
    hide VersionOk, Newer, LevelsSet, LiveLog, Held, Unique, Tables, ReplayTables;
    ReplayedVersion(st.levels, tables, Elems(LiveLog(st)), st.manifest.nextFile, newLog + 1);
  }

  lemma RecoveredKeepsInv(st: Db, t: Db, w: Levels, newLog: nat, last: SequenceNumber)
    requires Faithful(Held(st), st.history, st.target, Oldest(st), st.uncovered) && Logged(st) && st.memLog < newLog
    requires last < MAX_SEQUENCE && (forall e :: e in st.history ==> e.sn <= last)
    requires (forall e :: e in Held(st) ==> e.sn <= last) && Unique(Held(st))
    requires VersionOk(w) && Tables(w, newLog + 1) && LevelsSet(w) == Held(st)
    requires t == Db([], None, w, last, last, [], [], None, newLog + 1, newLog, newLog, st.logs[newLog := []],
                     Manifest(w, newLog, newLog + 1, last), st.history, st.uncovered)
    ensures Inv(t)
  {
    hide Layers, Tables, PendingOk, PublishedOk, Faithful, Logged, VersionOk, LevelsSet, Unique, LiveLog, Stored;
    RecoveredLogged(st, t, newLog);
    EmptyMemory(w, last);
    FaithfulFrom(Held(st), st.history, st.target, Oldest(st), st.uncovered, last);
  }

  lemma RecoverInstalled(st: Db, chunks: seq<seq<Entry>>, numbers: seq<nat>, newLog: nat)
    requires Faithful(Held(st), st.history, st.target, Oldest(st), st.uncovered) && Logged(st) && st.memLog < newLog
    requires |numbers| == |chunks| && (forall c :: c in chunks ==> c != [] && Chronological(c)) && Unique(Held(st))
    requires var last := MaxSequence(LiveLog(st), st.manifest.lastSequence);
             last < MAX_SEQUENCE && (forall e :: e in st.history ==> e.sn <= last) && (forall e :: e in Held(st) ==> e.sn <= last)
    requires var w := st.levels[0 := InsertFiles(st.levels[0], RecoveredTables(chunks, numbers))];
             VersionOk(w) && Tables(w, newLog + 1) && LevelsSet(w) == Held(st)
    ensures Inv(Recovered(st, chunks, numbers, newLog))
  {
    assert st.manifest.levels == st.levels;
    hide Faithful, Logged, VersionOk, LevelsSet, Unique, LiveLog, Held, Tables, RecoveredTables, Inv, InsertFiles, Chronological;
    var w := st.levels[0 := InsertFiles(st.levels[0], RecoveredTables(chunks, numbers))];
    RecoveredKeepsInv(st, Recovered(st, chunks, numbers, newLog), w, newLog, MaxSequence(LiveLog(st), st.manifest.lastSequence));
  }

  lemma RecoverKeepsInv(st: Db, chunks: seq<seq<Entry>>, numbers: seq<nat>, newLog: nat)
    requires Inv(st) && Enabled(st, CrashAndRecover(chunks, numbers, newLog))
    ensures Inv(Apply(st, CrashAndRecover(chunks, numbers, newLog)))
  {
    ChunksChronological(chunks);
    RecoverPieces(st, chunks, numbers, newLog);
    LastBound(st, MaxSequence(LiveLog(st), st.manifest.lastSequence));
    HeldUnique(st);
    RecoverInstalled(st, chunks, numbers, newLog);
  }
}
