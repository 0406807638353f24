/**
  Writing the immutable memtable as a table, at level 0 or deeper, keeps the engine invariant, also
  while a compaction is under way.
 */
module EngineFlush {
  import opened Wrappers
  import opened DbFormat
  import opened Versions
  import opened CompactionPick
  import opened CompactionInputs
  import opened CompactionWork
  import opened VersionBuilder
  import opened Engine
  import opened EngineWrites

  lemma Inserted(fs: seq<File>, f: File)
    requires BySmallest(fs) && forall g :: g in fs ==> g.number != f.number
    ensures BySmallest(InsertFile(fs, f))
    ensures forall g :: g in InsertFile(fs, f) <==> g == f || g in fs
    ensures FileSet(InsertFile(fs, f)) == FileSet(fs) + Elems(f.contents)
  {
    InsertFileSorted(fs, f);
  }

  lemma {:induction false} InsertedMany(fs: seq<File>, added: seq<File>)
    requires BySmallest(fs) && FreshNumbers(fs, added)
    ensures BySmallest(InsertFiles(fs, added))
    ensures forall f :: f in InsertFiles(fs, added) <==> f in fs || f in added
    ensures FileSet(InsertFiles(fs, added)) == FileSet(fs) + FileSet(added)
  {
    InsertFilesMembers(fs, added);
  }

  /** Files listed by smallest key whose ranges do not meet form a sorted level. */
  lemma SortedIfDisjoint(fs: seq<File>)
    requires BySmallest(fs) && forall f, g :: f in fs && g in fs && f != g ==> Disjoint(f, g)
    ensures LevelSorted(fs)
  {
    forall i, j | 0 <= i < j < |fs| ensures Before(Largest(fs[i]), Smallest(fs[j])) {
      assert FileBefore(fs[i], fs[j]);
      FileBounds(fs[j]);
      assert fs[i] in fs && fs[j] in fs;
    }
  }

  lemma DisjointInLevel(fs: seq<File>, f: File, g: File)
    requires LevelSorted(fs) && f in fs && g in fs && f != g
    ensures Disjoint(f, g)
  {
    var i :| 0 <= i < |fs| && fs[i] == f;
    var j :| 0 <= j < |fs| && fs[j] == g;
    assert i != j;
  }

  /** `f` shares no user key with the level. */
  ghost predicate NoSharedKey(fs: seq<File>, f: File) {
    forall x, y :: x in FileSet(fs) && y in f.contents ==> x.key != y.key
  }

  lemma NoOverlapNoSharedKey(fs: seq<File>, f: File)
    requires !OverlapInLevel(fs, Lo(f), Hi(f))
    ensures NoSharedKey(fs, f) && forall g :: g in fs ==> Disjoint(f, g)
  {
    forall x, y | x in FileSet(fs) && y in f.contents ensures x.key != y.key {
      var g :| g in fs && x in g.contents;
      WithinFile(g, x);
      WithinFile(f, y);
      assert !Overlaps(g, Some(Lo(f)), Some(Hi(f)));
    }
    forall g | g in fs ensures Disjoint(f, g) {
      assert !Overlaps(g, Some(Lo(f)), Some(Hi(f)));
    }
  }

  /** A new table that is newer than everything and fits its level. */
  ghost predicate NewTable(v: Levels, n: nat, f: File, next: nat) {
    && n < NUM_LEVELS && next <= f.number
    && Newer(Elems(f.contents), LevelsSet(v)) && Unique(LevelsSet(v) + Elems(f.contents))
    && (n > 0 ==> forall i :: 0 <= i <= n ==> !OverlapInLevel(v[i], Lo(f), Hi(f)))
  }

  lemma AddTable(v: Levels, n: nat, f: File, next: nat)
    requires VersionOk(v) && Tables(v, next) && NewTable(v, n, f, next)
    ensures var w := v[n := InsertFile(v[n], f)];
            VersionOk(w) && Tables(w, f.number + 1) && LevelsSet(w) == LevelsSet(v) + Elems(f.contents)
  {
    var w := v[n := InsertFile(v[n], f)];
    Inserted(v[n], f);
    AddedSet(v, n, f);
    AddTableOrder(v, n, f, next);
    AddTableSortedness(v, n, f, next);
    AddTableNumbers(v, n, f, next);
  }

  lemma AddTableOrder(v: Levels, n: nat, f: File, next: nat)
    requires (forall i, j :: 0 <= i < j < NUM_LEVELS ==> Newer(FileSet(v[i]), FileSet(v[j]))) && NewTable(v, n, f, next)
    requires FileSet(InsertFile(v[n], f)) == FileSet(v[n]) + Elems(f.contents)
    ensures var w := v[n := InsertFile(v[n], f)];
            forall i, j :: 0 <= i < j < NUM_LEVELS ==> Newer(FileSet(w[i]), FileSet(w[j]))
  {
    var w := v[n := InsertFile(v[n], f)];
    forall i, j | 0 <= i < j < NUM_LEVELS ensures Newer(FileSet(w[i]), FileSet(w[j])) {
      AddTableNewer(v, n, f, next, i, j);
    }
  }

  lemma AddTableSortedness(v: Levels, n: nat, f: File, next: nat)
    requires VersionOk(v) && Tables(v, next) && NewTable(v, n, f, next)
    requires BySmallest(InsertFile(v[n], f)) && forall g :: g in InsertFile(v[n], f) <==> g == f || g in v[n]
    ensures var w := v[n := InsertFile(v[n], f)];
            (forall i :: 1 <= i < NUM_LEVELS ==> LevelSorted(w[i])) && NewestByNumber(w[0]) && DistinctNumbers(w[0])
  {
    if n > 0 {
      AddTableSorted(v[n], f);
    } else {
      AddTableLevel0(v, f, next);
    }
  }

  lemma AddedSet(v: Levels, n: nat, f: File)
    requires n < NUM_LEVELS && FileSet(InsertFile(v[n], f)) == FileSet(v[n]) + Elems(f.contents)
    ensures LevelsSet(v[n := InsertFile(v[n], f)]) == LevelsSet(v) + Elems(f.contents)
  {
    var w := v[n := InsertFile(v[n], f)];
    forall e | e in LevelsSet(w) ensures e in LevelsSet(v) + Elems(f.contents) {
      var i :| 0 <= i < NUM_LEVELS && e in FileSet(w[i]);
      assert e in FileSet(v[i]) || e in Elems(f.contents);
    }
    forall e | e in Elems(f.contents) ensures e in LevelsSet(w) {
      assert e in FileSet(w[n]);
    }
    forall e | e in LevelsSet(v) ensures e in LevelsSet(w) {
      var i :| 0 <= i < NUM_LEVELS && e in FileSet(v[i]);
      assert e in FileSet(w[i]);
    }
  }

  lemma InLevel(v: Levels, i: nat, e: Entry)
    requires i < NUM_LEVELS && e in FileSet(v[i])
    ensures e in LevelsSet(v)
  {
  }

  lemma AddTableNewer(v: Levels, n: nat, f: File, next: nat, i: nat, j: nat)
    requires i < j < NUM_LEVELS && Newer(FileSet(v[i]), FileSet(v[j])) && NewTable(v, n, f, next)
    requires FileSet(InsertFile(v[n], f)) == FileSet(v[n]) + Elems(f.contents)
    ensures var w := v[n := InsertFile(v[n], f)]; Newer(FileSet(w[i]), FileSet(w[j]))
  {
    var w := v[n := InsertFile(v[n], f)];
    if n == j {
      NoOverlapNoSharedKey(v[i], f);
    } else if n == i {
      forall x, y | x in Elems(f.contents) && y in FileSet(v[j]) && x.key == y.key ensures x.sn > y.sn {
        InLevel(v, j, y);
      }
    }
  }

  lemma AddTableSorted(fs: seq<File>, f: File)
    requires LevelSorted(fs) && BySmallest(InsertFile(fs, f)) && !OverlapInLevel(fs, Lo(f), Hi(f))
    requires forall g :: g in InsertFile(fs, f) <==> g == f || g in fs
    ensures LevelSorted(InsertFile(fs, f))
  {
    NoOverlapNoSharedKey(fs, f);
    forall g, h | g in InsertFile(fs, f) && h in InsertFile(fs, f) && g != h ensures Disjoint(g, h) {
      if g in fs && h in fs {
        DisjointInLevel(fs, g, h);
      }
    }
    SortedIfDisjoint(InsertFile(fs, f));
  }

  lemma AddTableLevel0(v: Levels, f: File, next: nat)
    requires NewestByNumber(v[0]) && DistinctNumbers(v[0]) && NewTable(v, 0, f, next)
    requires forall g :: g in v[0] ==> g.number < next
    requires forall g :: g in InsertFile(v[0], f) <==> g == f || g in v[0]
    ensures NewestByNumber(InsertFile(v[0], f)) && DistinctNumbers(InsertFile(v[0], f))
  {
    forall g | g in v[0] ensures Newer(Elems(f.contents), Elems(g.contents)) {
      NewerThanStored(v, 0, f, g);
    }
  }

  lemma AddTableNumbers(v: Levels, n: nat, f: File, next: nat)
    requires Tables(v, next) && n < NUM_LEVELS && next <= f.number
    requires BySmallest(InsertFile(v[n], f)) && forall g :: g in InsertFile(v[n], f) <==> g == f || g in v[n]
    ensures Tables(v[n := InsertFile(v[n], f)], f.number + 1)
  {
    var w := v[n := InsertFile(v[n], f)];
    forall i, g | 0 <= i < NUM_LEVELS && g in w[i] ensures (g == f && i == n) || g in v[i] {
    }
  }

  /* ---- The running compaction is not disturbed ---- */

  lemma MissesInputs(v: Levels, c: Running, n: nat, f: File)
    requires Stands(v, c.level, c.i0, c.i1) && c.level < n < NUM_LEVELS
    requires forall i :: 0 <= i <= n ==> !OverlapInLevel(v[i], Lo(f), Hi(f))
    ensures Misses(c.i0 + c.i1, Lo(f), Hi(f))
  {
    forall g | g in c.i0 + c.i1 ensures Hi(g) < Lo(f) || Hi(f) < Lo(g) {
      var i := if g in c.i0 then c.level else c.level + 1;
      assert g in v[i];
      assert !Overlaps(g, Some(Lo(f)), Some(Hi(f)));
    }
  }

  /** A gap-free compaction has every new table of its output level on one side. */
  lemma ApartFromRunning(v: Levels, c: Running, f: File)
    requires Stands(v, c.level, c.i0, c.i1) && GapFree(c.i0 + c.i1)
    requires forall i :: 0 <= i <= c.level + 1 ==> !OverlapInLevel(v[i], Lo(f), Hi(f))
    ensures Apart(f, c.i0 + c.i1)
  {
    MissesInputs(v, c, c.level + 1, f);
    FileBounds(f);
    assert OneSide(c.i0 + c.i1, Lo(f), Hi(f));
  }

  lemma SharesNothingBelow(v: Levels, c: Running, n: nat, f: File, x: Entry, e: Entry)
    requires Stands(v, c.level, c.i0, c.i1) && c.level + 2 <= n < NUM_LEVELS
    requires forall i :: 0 <= i <= n ==> !OverlapInLevel(v[i], Lo(f), Hi(f))
    requires x in f.contents && e in FileSet(c.i0 + c.i1)
    ensures x.key != e.key
  {
    MissesInputs(v, c, n, f);
    var g :| g in c.i0 + c.i1 && e in g.contents;
    WithinFile(g, e);
    WithinFile(f, x);
  }

  lemma CompactionUndisturbed(v: Levels, c: Running, n: nat, f: File, next: nat, oldest: SequenceNumber)
    requires CompactionOk(v, Some(c), oldest) && Tables(v, next) && NewTable(v, n, f, next)
    ensures CompactionOk(v[n := InsertFile(v[n], f)], Some(c), oldest)
  {
    Inserted(v[n], f);
    InputsUndisturbed(v, c, n, f, next);
    BelowUndisturbed(v, c, n, f, next);
  }

  lemma BelowUndisturbed(v: Levels, c: Running, n: nat, f: File, next: nat)
    requires Stands(v, c.level, c.i0, c.i1) && NothingNewBelow(v, c) && NewTable(v, n, f, next)
    requires forall g :: g in InsertFile(v[n], f) <==> g == f || g in v[n]
    ensures NothingNewBelow(v[n := InsertFile(v[n], f)], c)
  {
    var w := v[n := InsertFile(v[n], f)];
    forall j, g: File, x: Entry, e: Entry |
      c.level + 2 <= j < NUM_LEVELS && g in w[j] && x in g.contents && e in FileSet(c.i0 + c.i1) && e.key == x.key
      ensures g in c.version[j]
    {
      if j == n && g == f {
        SharesNothingBelow(v, c, n, f, x, e);
      }
      assert g in v[j];
    }
  }

  lemma InputsUndisturbed(v: Levels, c: Running, n: nat, f: File, next: nat)
    requires Stands(v, c.level, c.i0, c.i1) && NewTable(v, n, f, next)
    requires !c.manual ==> ValidInputs(v, c.level, c.i0, c.i1) && GapFree(c.i0 + c.i1)
    requires forall g :: g in InsertFile(v[n], f) <==> g == f || g in v[n]
    ensures var w := v[n := InsertFile(v[n], f)];
            Stands(w, c.level, c.i0, c.i1) && (!c.manual ==> ValidInputs(w, c.level, c.i0, c.i1))
  {
    if n == c.level {
      forall g | g in c.i0 ensures Newer(Elems(f.contents), Elems(g.contents)) {
        NewerThanStored(v, c.level, f, g);
      }
    } else if n == c.level + 1 {
      MissesInputs(v, c, n, f);
      if !c.manual { ApartFromRunning(v, c, f); }
    }
  }

  lemma NewerThanStored(v: Levels, n: nat, f: File, g: File)
    requires n < NUM_LEVELS && g in v[n] && Newer(Elems(f.contents), LevelsSet(v))
    ensures Newer(Elems(f.contents), Elems(g.contents))
  {
    forall y | y in g.contents ensures y in LevelsSet(v) {
      InLevels(v, n, g, y);
    }
  }

  /* ---- The step ---- */

  lemma FlushLogged(st: Db, t: Db)
    requires Logged(st) && st.imm.Some?
    requires t == Commit(st, t.levels, st.memLog, st.nextFile + 1).(imm := None)
    ensures Logged(t) && LiveLog(t) == st.logs[st.memLog]
  {
    assert ImmSet(t.imm) == {};
    assert LiveLog(t) == [] + st.logs[st.memLog];
  }

  lemma FlushReplayable(st: Db)
    requires Logged(st) && st.imm.Some? && Replayable(LiveLog(st), st.history, st.manifest.lastSequence)
    requires PublishedOk(st.imm, st.levels, st.lastSequence, st.manifest.lastSequence)
    ensures Replayable(st.logs[st.memLog], st.history, st.lastSequence)
  {
    var a, b := st.logs[st.immLog], st.logs[st.memLog];
    assert LiveLog(st) == a + b;
    assert forall i :: 0 <= i < |b| ==> LiveLog(st)[|a| + i] == b[i];
    forall e | e in st.history ensures e.sn <= st.lastSequence || e in b {
      if e in a {
        assert e in Elems(a);
      }
    }
  }

  lemma FlushedTable(st: Db, level: nat, size: nat)
    requires Inv(st) && Enabled(st, FlushMemtable(level, size)) && st.imm.value != []
    ensures NewTable(st.levels, level, ImmFile(st, size), st.manifest.nextFile)
  {
    var f := ImmFile(st, size);
    assert Elems(f.contents) == ImmSet(st.imm);
    assert LevelsSet(st.levels) + Elems(f.contents) <= Stored(st.mem, st.imm, st.levels);
  }

  lemma FlushLayers(mem: seq<Entry>, imm: seq<Entry>, v: Levels, w: Levels)
    requires Layers(mem, Some(imm), v) && VersionOk(w) && LevelsSet(w) == LevelsSet(v) + Elems(imm)
    ensures Layers(mem, None, w) && Stored(mem, None, w) == Stored(mem, Some(imm), v)
  {
    assert ImmSet(Some(imm)) == Elems(imm);
    assert Stored(mem, None, w) == Stored(mem, Some(imm), v);
  }

  lemma FlushPublished(imm: seq<Entry>, v: Levels, w: Levels, last: SequenceNumber, recorded: SequenceNumber)
    requires PublishedOk(Some(imm), v, last, recorded) && LevelsSet(w) == LevelsSet(v) + Elems(imm)
    ensures PublishedOk(None, w, last, last)
  {
  }

  lemma FlushVersion(v: Levels, n: nat, f: File, next: nat, compaction: Option<Running>, oldest: SequenceNumber)
    requires VersionOk(v) && Tables(v, next) && NewTable(v, n, f, next) && CompactionOk(v, compaction, oldest)
    ensures var w := v[n := InsertFile(v[n], f)];
            && VersionOk(w) && Tables(w, f.number + 1) && LevelsSet(w) == LevelsSet(v) + Elems(f.contents)
            && CompactionOk(w, compaction, oldest)
  {
    AddTable(v, n, f, next);
    if compaction.Some? {
      CompactionUndisturbed(v, compaction.value, n, f, next, oldest);
    }
  }

  /** With the new version in place, the rest of the invariant follows. */
  lemma FlushInstalled(st: Db, w: Levels)
    requires Inv(st) && st.imm.Some?
    requires VersionOk(w) && Tables(w, st.nextFile + 1) && LevelsSet(w) == LevelsSet(st.levels) + Elems(st.imm.value)
    requires CompactionOk(w, st.compaction, Oldest(st))
    ensures Inv(Commit(st, w, st.memLog, st.nextFile + 1).(imm := None))
  {
    hide Layers, Tables, PendingOk, PublishedOk, SnapshotsOk, Faithful, Logged, Replayable, CompactionOk, VersionOk;
    var t := Commit(st, w, st.memLog, st.nextFile + 1).(imm := None);
    FlushLogged(st, t);
    FlushReplayable(st);
    FlushLayers(st.mem, st.imm.value, st.levels, w);
    FlushPublished(st.imm.value, st.levels, w, st.lastSequence, st.manifest.lastSequence);
    assert Held(t) == Held(st);
  }

  lemma TablesMonotone(v: Levels, next: nat, next': nat)
    requires Tables(v, next) && next <= next'
    ensures Tables(v, next')
  {
  }

  lemma FlushFacts(st: Db)
    requires Inv(st)
    ensures VersionOk(st.levels) && st.manifest.nextFile <= st.nextFile && (st.imm.Some? ==> Sorted(st.imm.value))
  {
  }

  lemma FlushToKeepsInv(st: Db, n: nat, size: nat)
    requires Inv(st) && st.imm.Some? && Sorted(st.imm.value) && n < NUM_LEVELS
    requires VersionOk(st.levels) && st.manifest.nextFile <= st.nextFile
    requires st.imm.value != [] ==>
               NewTable(st.levels, n, ImmFile(st, size), st.manifest.nextFile)
    ensures Inv(FlushTo(st, n, size))
  {
    hide Layers, Tables, PendingOk, PublishedOk, SnapshotsOk, Faithful, Logged, Replayable, CompactionOk, VersionOk,
      NewTable, Sorted;
    if st.imm.value == [] {
      TablesMonotone(st.levels, st.manifest.nextFile, st.nextFile + 1);
      assert LevelsSet(st.levels) == LevelsSet(st.levels) + Elems(st.imm.value);
      FlushInstalled(st, st.levels);
    } else {
      FlushVersion(st.levels, n, ImmFile(st, size), st.manifest.nextFile, st.compaction, Oldest(st));
      FlushInstalled(st, st.levels[n := InsertFile(st.levels[n], ImmFile(st, size))]);
    }
  }

  lemma FlushKeepsInv(st: Db, level: nat, size: nat)
    requires Inv(st) && Enabled(st, FlushMemtable(level, size))
    ensures Inv(Apply(st, FlushMemtable(level, size)))
  {
    FlushFacts(st);
    if st.imm.value != [] {
      FlushedTable(st, level, size);
    }
    FlushToKeepsInv(st, if st.imm.value == [] then 0 else level, size);
  }
}
