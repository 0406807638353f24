/**
  Installing the outputs of the compaction loop: the reads the store still serves do not change, and
  the engine invariant holds again.
 */
module EngineInstall {
  import opened Wrappers
  import opened DbFormat
  import opened Versions
  import opened CompactionPick
  import opened CompactionInputs
  import opened CompactionWork
  import opened CompactionReads
  import opened VersionBuilder
  import opened Engine
  import opened EngineWrites
  import opened EngineFlush
  import opened EngineCompaction

  /* ---- The outputs ---- */

  lemma {:induction false} FlattenMembers(ts: seq<seq<Entry>>)
    ensures forall e :: e in Flatten(ts) <==> exists i :: 0 <= i < |ts| && e in ts[i]
  {
    if ts != [] {
      FlattenMembers(ts[..|ts| - 1]);
    }
  }

  lemma SortedParts(front: seq<Entry>, back: seq<Entry>)
    requires Sorted(front + back)
    ensures Sorted(front) && forall a, b :: a in front && b in back ==> Before(a.IKey(), b.IKey())
  {
    var all := front + back;
    assert forall i :: 0 <= i < |front| ==> all[i] == front[i];
    assert forall i :: 0 <= i < |back| ==> all[|front| + i] == back[i];
  }

  lemma {:induction false} FlattenInOrder(ts: seq<seq<Entry>>)
    requires Sorted(Flatten(ts))
    ensures forall i, j, a, b :: 0 <= i < j < |ts| && a in ts[i] && b in ts[j] ==> Before(a.IKey(), b.IKey())
  {
    hide Sorted, Before;
    if ts != [] {
      var n := |ts| - 1;
      var front, back := Flatten(ts[..n]), ts[n];
      SortedParts(front, back);
      FlattenInOrder(ts[..n]);
      FlattenMembers(ts[..n]);
      forall i, j, a, b | 0 <= i < j < |ts| && a in ts[i] && b in ts[j] ensures Before(a.IKey(), b.IKey()) {
        assert ts[..n][i] == ts[i];
        if j < n {
          assert ts[..n][j] == ts[j];
        } else {
          assert a in front;
        }
      }
    }
  }

  lemma OutputsSorted(outputs: seq<File>)
    requires Sorted(Flatten(Contents(outputs)))
    ensures LevelSorted(outputs)
  {
    var ts := Contents(outputs);
    FlattenInOrder(ts);
    forall i, j | 0 <= i < j < |outputs| ensures Before(Largest(outputs[i]), Smallest(outputs[j])) {
      var a, b := outputs[i].contents[|outputs[i].contents| - 1], outputs[j].contents[0];
      assert a in ts[i] && b in ts[j];
    }
  }

  lemma OutputsSet(outputs: seq<File>)
    ensures FileSet(outputs) == Elems(Flatten(Contents(outputs)))
  {
    var ts := Contents(outputs);
    FlattenMembers(ts);
    forall e ensures e in FileSet(outputs) <==> e in Flatten(ts) {
      if e in FileSet(outputs) {
        var f :| f in outputs && e in f.contents;
        var i :| 0 <= i < |outputs| && outputs[i] == f;
        assert e in ts[i];
      }
      if i :| 0 <= i < |ts| && e in ts[i] {
        assert outputs[i] in outputs && e in outputs[i].contents;
      }
    }
  }

  ghost function KeptSet(I: set<Entry>, oldest: SequenceNumber, v: Levels, level: nat): set<Entry> {
    set e | e in I && Kept(I, e, oldest, v, level)
  }

  /** The output tables hold exactly the kept entries, in order. */
  ghost predicate HoldSurvivors(c: Running, outputs: seq<File>) {
    exists input :: Sorted(input) && Elems(input) == FileSet(c.i0 + c.i1) &&
      Flatten(Contents(outputs)) == Survivors(input, |input|, c.oldest, c.version, c.level)
  }

  lemma OutputsHoldKept(c: Running, outputs: seq<File>)
    requires HoldSurvivors(c, outputs) && Unique(FileSet(c.i0 + c.i1))
    ensures LevelSorted(outputs)
    ensures FileSet(outputs) == KeptSet(FileSet(c.i0 + c.i1), c.oldest, c.version, c.level)
  {
    var input :| Sorted(input) && Elems(input) == FileSet(c.i0 + c.i1) &&
      Flatten(Contents(outputs)) == Survivors(input, |input|, c.oldest, c.version, c.level);
    SurvivorsSorted(input, |input|, c.oldest, c.version, c.level);
    SurvivorsAreKept(input, c.oldest, c.version, c.level);
    OutputsSorted(outputs);
    OutputsSet(outputs);
  }

  /* ---- The split around the compaction ---- */

  lemma BesideIsApart(v: Levels, level: nat, i0: seq<File>, i1: seq<File>)
    requires Stands(v, level, i0, i1)
    ensures FileSet(i0 + i1) !! RestSet(v[level + 1], i1)
  {
    forall x | x in FileSet(i0 + i1) && x in RestSet(v[level + 1], i1) ensures false {
      var f :| f in i0 + i1 && x in f.contents;
      var g :| g in v[level + 1] && g !in i1 && x in g.contents;
      assert Disjoint(g, f);
      WithinFile(f, x);
      WithinFile(g, x);
    }
  }

  lemma BelowNotBase(v: Levels, c: Running, x: Entry, y: Entry)
    requires NothingNewBelow(v, c) && x in FileSet(c.i0 + c.i1) && y in LowerSet(v, c.level) && x.key == y.key
    ensures !IsBaseLevel(c.version, c.level, x.key)
  {
    var j :| c.level + 2 <= j < NUM_LEVELS && y in FileSet(v[j]);
    var f :| f in v[j] && y in f.contents;
    WithinFile(f, y);
    assert f in c.version[j];
  }

  lemma AboveIsNewer(v: Levels, level: nat, i0: seq<File>, i1: seq<File>)
    requires Stands(v, level, i0, i1) && Ordered(v)
    ensures Newer(UpperSet(v, level) + RestSet(v[level], i0), FileSet(i0 + i1))
  {
    InputsBelong(v, level, i0, i1);
    forall x, y | x in UpperSet(v, level) + RestSet(v[level], i0) && y in FileSet(i0 + i1) && x.key == y.key
      ensures x.sn > y.sn
    {
      if x in RestSet(v[level], i0) {
        KeptIsNewer(v, level, i0, i1, x, y);
      } else {
        var i :| 0 <= i < level && i < NUM_LEVELS && x in FileSet(v[i]);
        var j := if y in FileSet(v[level]) then level else level + 1;
        assert Newer(FileSet(v[i]), FileSet(v[j]));
      }
    }
  }

  lemma InputsStored(v: Levels, level: nat, i0: seq<File>, i1: seq<File>)
    requires Stands(v, level, i0, i1)
    ensures FileSet(i0 + i1) <= LevelsSet(v)
  {
    InputsBelong(v, level, i0, i1);
  }

  lemma MemoryIsNewer(mem: seq<Entry>, imm: Option<seq<Entry>>, v: Levels, pending: seq<Entry>, last: SequenceNumber,
                      target: SequenceNumber, recorded: SequenceNumber, I: set<Entry>)
    requires Layers(mem, imm, v) && PendingOk(mem, pending, last, target) && PublishedOk(imm, v, last, recorded)
    requires I <= LevelsSet(v)
    ensures Newer(Elems(mem) + Elems(pending) + ImmSet(imm), I)
  {
  }

  lemma SplitIsOk(st: Db)
    requires Layers(st.mem, st.imm, st.levels) && PendingOk(st.mem, st.pending, st.lastSequence, st.target)
    requires PublishedOk(st.imm, st.levels, st.lastSequence, st.manifest.lastSequence)
    requires CompactionOk(st.levels, st.compaction, Oldest(st)) && st.compaction.Some?
    requires SplitOf(st).All() == Held(st)
    ensures SplitOk(SplitOf(st), st.compaction.value.version, st.compaction.value.level)
  {
    var c := st.compaction.value;
    var v, I := st.levels, FileSet(c.i0 + c.i1);
    HeldUnique(st);
    InputsStored(v, c.level, c.i0, c.i1);
    MemoryIsNewer(st.mem, st.imm, v, st.pending, st.lastSequence, st.target, st.manifest.lastSequence, I);
    AboveIsNewer(v, c.level, c.i0, c.i1);
    BesideIsApart(v, c.level, c.i0, c.i1);
    forall x, y | x in I && y in LowerSet(v, c.level) && x.key == y.key ensures !IsBaseLevel(c.version, c.level, x.key) {
      BelowNotBase(v, c, x, y);
    }
  }

  lemma SplitCovers(st: Db)
    requires st.compaction.Some? && st.compaction.value.level + 1 < NUM_LEVELS
    requires LevelsSet(st.levels) ==
             Untouched(st.levels, st.compaction.value.level, st.compaction.value.i0, st.compaction.value.i1) +
             FileSet(st.compaction.value.i0 + st.compaction.value.i1)
    ensures SplitOf(st).All() == Held(st)
  {
    hide LevelsSet, FileSet, UpperSet, LowerSet, RestSet;
  }

  lemma AfterIsHeld(st: Db, w: Levels, t: Db, kept: set<Entry>)
    requires st.compaction.Some? && st.compaction.value.level + 1 < NUM_LEVELS
    requires t.mem == st.mem && t.imm == st.imm && t.pending == st.pending && t.levels == w
    requires var c := st.compaction.value;
             && kept == KeptSet(FileSet(c.i0 + c.i1), c.oldest, c.version, c.level)
             && LevelsSet(w) == Untouched(st.levels, c.level, c.i0, c.i1) + kept
    ensures var c := st.compaction.value; Held(t) == After(SplitOf(st), c.oldest, c.version, c.level)
  {
    hide LevelsSet, FileSet, UpperSet, LowerSet, RestSet, Kept;
  }

  /* ---- The step ---- */

  lemma OutputsFit(st: Db, outputs: seq<File>, next: nat)
    requires st.compaction.Some? && OutputsOk(st, outputs, next) && st.compaction.value.level + 1 < NUM_LEVELS
    requires Unique(FileSet(st.compaction.value.i0 + st.compaction.value.i1))
    ensures var c := st.compaction.value;
            && Replacement(st.levels, c.level, c.i0, c.i1, outputs, next)
            && FileSet(outputs) == KeptSet(FileSet(c.i0 + c.i1), c.oldest, c.version, c.level)
  {
    assert HoldSurvivors(st.compaction.value, outputs);
    OutputsHoldKept(st.compaction.value, outputs);
  }

  lemma ExposedIs(st: Db, k: UserKey)
    requires st.compaction.Some? && st.compaction.value.level + 1 < NUM_LEVELS
    ensures var c := st.compaction.value;
            k in ExposedKeys(st) <==> Exposed(SplitOf(st), k, c.oldest, c.version, c.level)
  {
    var c := st.compaction.value;
    if Exposed(SplitOf(st), k, c.oldest, c.version, c.level) {
      var d, b :| Uncovers(SplitOf(st), k, c.oldest, c.version, c.level, d, b);
      assert d in FileSet(c.i0 + c.i1) && d.key == k;
    }
  }

  lemma FaithfulAfter(st: Db, t: Db)
    requires st.compaction.Some? && st.compaction.value.level + 1 < NUM_LEVELS
    requires Faithful(Held(st), st.history, st.target, Oldest(st), st.uncovered)
    requires var c := st.compaction.value;
             && SplitOk(SplitOf(st), c.version, c.level) && c.oldest <= Oldest(st)
             && SplitOf(st).All() == Held(st) && Held(t) == After(SplitOf(st), c.oldest, c.version, c.level)
    ensures Faithful(Held(t), st.history, st.target, Oldest(st), st.uncovered + ExposedKeys(st))
  {
    hide ExposedKeys, SplitOf, Exposed;
    var c := st.compaction.value;
    var p := SplitOf(st);
    assert Held(t) <= Held(st);
    forall k: UserKey, s: SequenceNumber | s >= Oldest(st) && k !in st.uncovered + ExposedKeys(st)
      ensures ReadSet(Held(t), k, s) == View(st.history, k, s)
    {
      ExposedIs(st, k);
      ReadAfter(p, k, s, c.oldest, c.version, c.level);
    }
  }

  lemma FinishFacts(st: Db, outputs: seq<File>, next: nat)
    requires Inv(st) && Enabled(st, FinishCompaction(outputs, next))
    ensures var c := st.compaction.value;
            && VersionOk(st.levels) && Stands(st.levels, c.level, c.i0, c.i1)
            && Unique(FileSet(c.i0 + c.i1)) && c.oldest <= Oldest(st) && OutputsOk(st, outputs, next)
            && FitsLevel(st.levels, c.level, c.i1, outputs) && next >= st.nextFile && st.nextFile >= st.manifest.nextFile
  {
    var c := st.compaction.value;
    InputsStored(st.levels, c.level, c.i0, c.i1);
  }

  lemma FinishInstalled(st: Db, outputs: seq<File>, next: nat)
    requires Inv(st) && st.compaction.Some? && st.compaction.value.level + 1 < NUM_LEVELS
    requires next >= st.nextFile >= st.manifest.nextFile && VersionOk(st.levels)
    requires var c := st.compaction.value;
             && Stands(st.levels, c.level, c.i0, c.i1) && c.oldest <= Oldest(st)
             && Replacement(st.levels, c.level, c.i0, c.i1, outputs, next) && FitsLevel(st.levels, c.level, c.i1, outputs)
             && FileSet(outputs) == KeptSet(FileSet(c.i0 + c.i1), c.oldest, c.version, c.level)
    ensures var c := st.compaction.value;
            Inv(Commit(st, Compacted(st.levels, c.level, c.i0, c.i1, outputs), st.manifest.logNumber, next).(
                  compaction := None, uncovered := st.uncovered + ExposedKeys(st)))
  {
    hide Layers, Tables, PendingOk, PublishedOk, SnapshotsOk, Faithful, Logged, Replayable, VersionOk, LevelsSet,
      CompactionOk, Replacement, Compacted, Untouched, Stands, FitsLevel, SplitOk, SplitOf, ExposedKeys, Held, FileSet, KeptSet;
    var c := st.compaction.value;
    var v := st.levels;
    var w := Compacted(v, c.level, c.i0, c.i1, outputs);
    var t := Commit(st, w, st.manifest.logNumber, next).(compaction := None, uncovered := st.uncovered + ExposedKeys(st));
    TablesMonotone(v, st.manifest.nextFile, next);
    CompactedVersion(v, c.level, c.i0, c.i1, outputs, next);
    CompactedTables(v, c.level, c.i0, c.i1, outputs, next);
    CompactedSet(v, c.level, c.i0, c.i1, outputs, next);
    SplitCovers(st);
    SplitIsOk(st);
    AfterIsHeld(st, w, t, FileSet(outputs));
    FaithfulAfter(st, t);
    Installed(st, w, next, st.uncovered + ExposedKeys(st));
  }

  lemma FinishKeepsInv(st: Db, outputs: seq<File>, next: nat)
    requires Inv(st) && Enabled(st, FinishCompaction(outputs, next))
    ensures Inv(Apply(st, FinishCompaction(outputs, next)))
  {
    FinishFacts(st, outputs, next);
    OutputsFit(st, outputs, next);
    FinishInstalled(st, outputs, next);
  }

  /** Installing leaves the reads of a key, at or above the oldest sequence, alone exactly when it does not expose it. */
  lemma FinishKeepsReadsIff(st: Db, outputs: seq<File>, next: nat, k: UserKey)
    requires Inv(st) && st.compaction.Some? && st.compaction.value.level + 1 < NUM_LEVELS && OutputsOk(st, outputs, next)
    ensures var c := st.compaction.value;
            var t := Commit(st, Compacted(st.levels, c.level, c.i0, c.i1, outputs), st.manifest.logNumber, next);
            SameReads(Held(t), Held(st), k, c.oldest) <==> k !in ExposedKeys(st)
  {
    hide SplitOf, Exposed, ExposedKeys, SameReads, Kept;
    var c := st.compaction.value;
    InputsStored(st.levels, c.level, c.i0, c.i1);
    OutputsFit(st, outputs, next);
    var t := Commit(st, Compacted(st.levels, c.level, c.i0, c.i1, outputs), st.manifest.logNumber, next);
    TablesMonotone(st.levels, st.manifest.nextFile, next);
    CompactedSet(st.levels, c.level, c.i0, c.i1, outputs, next);
    SplitCovers(st);
    SplitIsOk(st);
    AfterIsHeld(st, t.levels, t, FileSet(outputs));
    PreservesReadsIff(SplitOf(st), k, c.oldest, c.version, c.level);
    ExposedIs(st, k);
  }

  /* ---- When the outputs fit their level ---- */

  /** What installing needs of a state with a running compaction. */
  lemma RunningFacts(st: Db)
    requires Inv(st) && st.compaction.Some?
    ensures var c := st.compaction.value;
            && Stands(st.levels, c.level, c.i0, c.i1) && VersionOk(st.levels) && Unique(FileSet(c.i0 + c.i1))
            && Tables(st.levels, st.manifest.nextFile) && st.manifest.nextFile <= st.nextFile
            && (!c.manual ==> ValidInputs(st.levels, c.level, c.i0, c.i1))
  {
    var c := st.compaction.value;
    InputsStored(st.levels, c.level, c.i0, c.i1);
  }

  lemma SortedIff(v: Levels, level: nat, i0: seq<File>, i1: seq<File>, outputs: seq<File>, next: nat)
    requires VersionOk(v) && Tables(v, next) && Stands(v, level, i0, i1) && Replacement(v, level, i0, i1, outputs, next)
    requires forall f, g :: f in v[level + 1] && g in outputs ==> f.number != g.number
    ensures LevelSorted(Compacted(v, level, i0, i1, outputs)[level + 1]) <==> FitsLevel(v, level, i1, outputs)
  {
    hide LevelsSet, FileSet, Newer, Replacement, Tables, LevelSorted, Compacted, NewestByNumber, DistinctNumbers, Unique;
    var w := Compacted(v, level, i0, i1, outputs);
    CompactedFiles(v, level, i0, i1, outputs, next);
    if LevelSorted(w[level + 1]) {
      forall g, f | g in v[level + 1] && g !in i1 && f in outputs ensures Disjoint(g, f) {
        assert g.number != f.number;
        DisjointInLevel(w[level + 1], g, f);
      }
    } else if FitsLevel(v, level, i1, outputs) {
      CompactedSorted(v, level, i0, i1, outputs, next);
    }
  }

  /** The level stays sorted exactly when every output keeps clear of the tables that stay. */
  lemma InstallSortedIff(st: Db, outputs: seq<File>, next: nat)
    requires Inv(st) && st.compaction.Some? && st.compaction.value.level + 1 < NUM_LEVELS && OutputsOk(st, outputs, next)
    ensures var c := st.compaction.value;
            LevelSorted(Compacted(st.levels, c.level, c.i0, c.i1, outputs)[c.level + 1]) <==>
            FitsLevel(st.levels, c.level, c.i1, outputs)
  {
    hide Inv, Stands, VersionOk, Tables, LevelSorted, Compacted, FitsLevel, FileSet, KeptSet, Unique, Replacement;
    RunningFacts(st);
    OutputsFit(st, outputs, next);
    TablesMonotone(st.levels, st.manifest.nextFile, next);
    var c := st.compaction.value;
    SortedIff(st.levels, c.level, c.i0, c.i1, outputs, next);
  }

  /** All entries of `K` come before the table, or all come after it. */
  ghost predicate OnOneSide(K: set<Entry>, g: File) {
    (forall e :: e in K ==> Before(e.IKey(), Smallest(g))) || (forall e :: e in K ==> Before(Largest(g), e.IKey()))
  }

  /** The entries the running compaction keeps; fixed when it begins. */
  ghost function SurvivorsOf(c: Running): set<Entry> {
    KeptSet(FileSet(c.i0 + c.i1), c.oldest, c.version, c.level)
  }

  /** Every table that stays at the output level has all survivors on one side. */
  ghost predicate SurvivorsClear(v: Levels, c: Running)
    requires c.level + 1 < NUM_LEVELS
  {
    forall g :: g in v[c.level + 1] && g !in c.i1 ==> OnOneSide(SurvivorsOf(c), g)
  }

  lemma ClearFits(v: Levels, c: Running, outputs: seq<File>)
    requires c.level + 1 < NUM_LEVELS && SurvivorsClear(v, c) && FileSet(outputs) == SurvivorsOf(c)
    ensures FitsLevel(v, c.level, c.i1, outputs)
  {
    hide SurvivorsOf;
    forall g, f | g in v[c.level + 1] && g !in c.i1 && f in outputs ensures Disjoint(g, f) {
      var first, last := f.contents[0], f.contents[|f.contents| - 1];
      assert first in f.contents && last in f.contents;
      assert first in FileSet(outputs) && last in FileSet(outputs);
      assert OnOneSide(SurvivorsOf(c), g);
    }
  }

  lemma {:induction false} SomeOrder(E: set<Entry>) returns (s: seq<Entry>)
    requires Unique(E)
    ensures Sorted(s) && Elems(s) == E
  {
    if E == {} {
      s := [];
    } else {
      var e :| e in E;
      var r := SomeOrder(E - {e});
      forall x | x in r ensures x.IKey() != e.IKey() {
        assert x in Elems(r);
      }
      InsertSorted(r, e);
      s := Insert(r, e);
      assert forall x :: x in s <==> x == e || x in Elems(r);
    }
  }

  /** The cutting that writes one table of all survivors. */
  lemma OneTable(st: Db) returns (outputs: seq<File>)
    requires Inv(st) && st.compaction.Some? && st.compaction.value.level + 1 < NUM_LEVELS
    requires SurvivorsOf(st.compaction.value) != {}
    ensures OutputsOk(st, outputs, st.nextFile + 1) && |outputs| == 1 && FileSet(outputs) == SurvivorsOf(st.compaction.value)
  {
    hide Inv, Stands, VersionOk, Survivors, Flatten, NumbersDistinct, BySmallest, FileSet, Newer;
    RunningFacts(st);
    var c := st.compaction.value;
    var input := SomeOrder(FileSet(c.i0 + c.i1));
    var kept := Survivors(input, |input|, c.oldest, c.version, c.level);
    SurvivorsSorted(input, |input|, c.oldest, c.version, c.level);
    SurvivorsAreKept(input, c.oldest, c.version, c.level);
    assert kept != [] by {
      var e :| e in SurvivorsOf(c);
    }
    outputs := [FileData(st.nextFile, 0, kept)];
    OneTableFlat(outputs, kept);
  }

  lemma OneTableFlat(outputs: seq<File>, kept: seq<Entry>)
    requires |outputs| == 1 && outputs[0].contents == kept
    ensures Flatten(Contents(outputs)) == kept && FileSet(outputs) == Elems(kept)
  {
    assert Contents(outputs)[..0] == [];
    OutputsSet(outputs);
  }

  lemma BetweenSurvivors(st: Db, g: File, outputs: seq<File>)
    requires st.compaction.Some? && !OnOneSide(SurvivorsOf(st.compaction.value), g)
    requires |outputs| == 1 && FileSet(outputs) == SurvivorsOf(st.compaction.value)
    ensures !Disjoint(g, outputs[0])
  {
    hide SurvivorsOf;
    var K := SurvivorsOf(st.compaction.value);
    var a :| a in K && !Before(a.IKey(), Smallest(g));
    var b :| b in K && !Before(Largest(g), b.IKey());
    InOnly(outputs, a);
    InOnly(outputs, b);
    WithinFile(outputs[0], a);
    WithinFile(outputs[0], b);
  }

  lemma InOnly(outputs: seq<File>, e: Entry)
    requires |outputs| == 1 && e in FileSet(outputs)
    ensures e in outputs[0].contents
  {
  }

  lemma ClearOutputsFit(st: Db, outputs: seq<File>, next: nat)
    requires Inv(st) && st.compaction.Some? && st.compaction.value.level + 1 < NUM_LEVELS
    requires OutputsOk(st, outputs, next) && SurvivorsClear(st.levels, st.compaction.value)
    ensures FitsLevel(st.levels, st.compaction.value.level, st.compaction.value.i1, outputs)
  {
    var c := st.compaction.value;
    InputsStored(st.levels, c.level, c.i0, c.i1);
    OutputsFit(st, outputs, next);
    ClearFits(st.levels, c, outputs);
  }

  lemma UnclearCutting(st: Db) returns (outputs: seq<File>)
    requires Inv(st) && st.compaction.Some? && st.compaction.value.level + 1 < NUM_LEVELS
    requires !SurvivorsClear(st.levels, st.compaction.value)
    ensures OutputsOk(st, outputs, st.nextFile + 1)
    ensures !FitsLevel(st.levels, st.compaction.value.level, st.compaction.value.i1, outputs)
  {
    hide Inv, OutputsOk, SurvivorsOf;
    var c := st.compaction.value;
    var g :| g in st.levels[c.level + 1] && g !in c.i1 && !OnOneSide(SurvivorsOf(c), g);
    outputs := OneTable(st);
    BetweenSurvivors(st, g, outputs);
    assert outputs[0] in outputs;
  }

  /** However the survivors are cut into tables, the outputs fit, exactly when no staying table lies between survivors. */
  lemma EveryCuttingFitsIff(st: Db)
    requires Inv(st) && st.compaction.Some? && st.compaction.value.level + 1 < NUM_LEVELS
    ensures var c := st.compaction.value;
            (forall outputs, next :: OutputsOk(st, outputs, next) ==> FitsLevel(st.levels, c.level, c.i1, outputs)) <==>
            SurvivorsClear(st.levels, c)
  {
    hide Inv, OutputsOk, SurvivorsClear, FitsLevel;
    var c := st.compaction.value;
    if SurvivorsClear(st.levels, c) {
      forall outputs, next | OutputsOk(st, outputs, next) ensures FitsLevel(st.levels, c.level, c.i1, outputs) {
        ClearOutputsFit(st, outputs, next);
      }
    } else {
      var outputs := UnclearCutting(st);
    }
  }

  lemma ValidIsClear(v: Levels, c: Running)
    requires ValidInputs(v, c.level, c.i0, c.i1)
    ensures SurvivorsClear(v, c)
  {
    forall g | g in v[c.level + 1] && g !in c.i1 ensures OnOneSide(SurvivorsOf(c), g) {
      assert Apart(g, c.i0 + c.i1);
      ApartIsOneSide(c, g);
    }
  }

  lemma ApartIsOneSide(c: Running, g: File)
    requires Apart(g, c.i0 + c.i1)
    ensures OnOneSide(SurvivorsOf(c), g)
  {
    forall e | e in SurvivorsOf(c)
      ensures (forall f :: f in c.i0 + c.i1 ==> Before(Largest(g), Smallest(f))) ==> Before(Largest(g), e.IKey())
      ensures (forall f :: f in c.i0 + c.i1 ==> Before(Largest(f), Smallest(g))) ==> Before(e.IKey(), Smallest(g))
    {
      var f :| f in c.i0 + c.i1 && e in f.contents;
      WithinFile(f, e);
    }
  }

  /** Compactions that the store picks itself always fit: their inputs leave no gap. */
  lemma PickedIsClear(st: Db)
    requires Inv(st) && st.compaction.Some? && !st.compaction.value.manual
    ensures SurvivorsClear(st.levels, st.compaction.value)
  {
    hide Inv, ValidInputs, SurvivorsClear, Stands, VersionOk, Tables;
    RunningFacts(st);
    ValidIsClear(st.levels, st.compaction.value);
  }

  /** All keys of `K` are below the range, or all are above it. */
  ghost predicate KeysOneSide(K: set<Entry>, lo: UserKey, hi: UserKey) {
    (forall e :: e in K ==> e.key < lo) || (forall e :: e in K ==> hi < e.key)
  }

  lemma OneSideOfNew(v: Levels, c: Running, f: File)
    requires Stands(v, c.level, c.i0, c.i1) && forall i :: 0 <= i <= c.level + 1 ==> !OverlapInLevel(v[i], Lo(f), Hi(f))
    ensures OnOneSide(SurvivorsOf(c), f) <==> KeysOneSide(SurvivorsOf(c), Lo(f), Hi(f))
  {
    MissesInputs(v, c, c.level + 1, f);
    forall e | e in SurvivorsOf(c) ensures e.key < Lo(f) || Hi(f) < e.key {
      var g :| g in c.i0 + c.i1 && e in g.contents;
      WithinFile(g, e);
    }
    FileBounds(f);
  }

  lemma NotYet(v: Levels, n: nat, f: File, next: nat)
    requires Tables(v, next) && n < NUM_LEVELS && next <= f.number
    ensures BySmallest(v[n]) && f !in v[n] && forall g :: g in v[n] ==> g.number != f.number
  {
  }

  /** A flushed table changes which outputs fit only at the output level, and there by one more table to keep clear of. */
  lemma FlushedFitsIff(v: Levels, c: Running, n: nat, f: File, next: nat, outputs: seq<File>)
    requires c.level + 1 < NUM_LEVELS && Tables(v, next) && NewTable(v, n, f, next)
    requires forall x :: x in c.i1 ==> x in v[c.level + 1]
    ensures FitsLevel(v[n := InsertFile(v[n], f)], c.level, c.i1, outputs) <==>
            FitsLevel(v, c.level, c.i1, outputs) && (n == c.level + 1 ==> forall o :: o in outputs ==> Disjoint(f, o))
  {
    hide Disjoint, Newer, LevelsSet, OverlapInLevel, Unique, InsertFile, BySmallest, NumbersDistinct;
    NotYet(v, n, f, next);
    Inserted(v[n], f);
  }

  /**
    A flush while a compaction is running: whatever tables the loop cuts from the survivors, the output
    level stays sorted, exactly when the flushed table does not go to that level between two survivors.
   */
  lemma FlushDisturbsIff(st: Db, level: nat, size: nat)
    requires Inv(st) && Enabled(st, FlushMemtable(level, size)) && st.imm.value != []
    requires st.compaction.Some? && st.compaction.value.level + 1 < NUM_LEVELS
    requires SurvivorsClear(st.levels, st.compaction.value)
    ensures var c := st.compaction.value;
            var f := ImmFile(st, size);
            var t := Apply(st, FlushMemtable(level, size));
            (forall outputs, next :: OutputsOk(t, outputs, next) ==>
               LevelSorted(Compacted(t.levels, c.level, c.i0, c.i1, outputs)[c.level + 1])) <==>
            (level == c.level + 1 ==> KeysOneSide(SurvivorsOf(c), Lo(f), Hi(f)))
  {
    hide Inv, OutputsOk, SurvivorsClear, FitsLevel, SurvivorsOf, LevelSorted, Compacted, KeysOneSide;
    var c := st.compaction.value;
    var t := Apply(st, FlushMemtable(level, size));
    FlushKeepsInv(st, level, size);
    FlushedClear(st, level, size, t);
    EveryCuttingFitsIff(t);
    forall outputs, next | OutputsOk(t, outputs, next)
      ensures LevelSorted(Compacted(t.levels, c.level, c.i0, c.i1, outputs)[c.level + 1]) <==>
              FitsLevel(t.levels, c.level, c.i1, outputs)
    {
      InstallSortedIff(t, outputs, next);
    }
  }

  lemma FlushedClear(st: Db, level: nat, size: nat, t: Db)
    requires Inv(st) && Enabled(st, FlushMemtable(level, size)) && st.imm.value != []
    requires st.compaction.Some? && st.compaction.value.level + 1 < NUM_LEVELS
    requires SurvivorsClear(st.levels, st.compaction.value) && t == Apply(st, FlushMemtable(level, size))
    ensures t.compaction == st.compaction
    ensures var c := st.compaction.value;
            var f := ImmFile(st, size);
            SurvivorsClear(t.levels, c) <==> (level == c.level + 1 ==> KeysOneSide(SurvivorsOf(c), Lo(f), Hi(f)))
  {
    FlushFacts(st);
    FlushedTable(st, level, size);
    RunningFacts(st);
    hide Inv, SurvivorsOf, KeysOneSide, VersionOk, Tables, NewTable, Stands, SurvivorsClear, InsertFile;
    FlushedVersion(st.levels, st.compaction.value, level, ImmFile(st, size), st.manifest.nextFile);
  }

  lemma FlushedVersion(v: Levels, c: Running, n: nat, f: File, next: nat)
    requires Stands(v, c.level, c.i0, c.i1) && Tables(v, next) && NewTable(v, n, f, next) && SurvivorsClear(v, c)
    ensures SurvivorsClear(v[n := InsertFile(v[n], f)], c) <==>
            (n == c.level + 1 ==> KeysOneSide(SurvivorsOf(c), Lo(f), Hi(f)))
  {
    hide SurvivorsOf, KeysOneSide, OnOneSide, Newer, LevelsSet, Unique, InsertFile, BySmallest, Disjoint, Tables;
    NotYet(v, n, f, next);
    Inserted(v[n], f);
    if n == c.level + 1 {
      OneSideOfNew(v, c, f);
      assert f in v[n := InsertFile(v[n], f)][n] && f !in c.i1;
    }
  }

  /* ---- What compactions are for ---- */

  /** A compaction keeps what the oldest snapshot at its start needs, or without snapshots what was published then. */
  lemma OldestIsLeast(st: Db)
    requires Inv(st)
    ensures st.snapshots == [] ==> Oldest(st) == st.lastSequence
    ensures st.snapshots != [] ==> Oldest(st) in st.snapshots && forall s :: s in st.snapshots ==> Oldest(st) <= s
  {
    assert SnapshotsOk(st.snapshots, st.lastSequence);
  }

  /**
    Of each key the outputs hold one entry at most that was old enough at the start, and no deletion among
    these with nothing left to delete further down.
   */
  lemma GarbageGone(st: Db, outputs: seq<File>, next: nat, d: Entry, e: Entry)
    requires Inv(st) && st.compaction.Some? && OutputsOk(st, outputs, next)
    requires d in FileSet(outputs) && e in FileSet(outputs) && d.key == e.key
    requires d.sn <= st.compaction.value.oldest && e.sn <= st.compaction.value.oldest
    ensures d == e
    ensures e.op.Deletion? ==> !IsBaseLevel(st.compaction.value.version, st.compaction.value.level, e.key)
  {
    hide Inv, Survivors, Obsolete, Sorted, FileSet, IsBaseLevel;
    var c := st.compaction.value;
    var input :| Sorted(input) && Elems(input) == FileSet(c.i0 + c.i1) &&
      Flatten(Contents(outputs)) == Survivors(input, |input|, c.oldest, c.version, c.level);
    OutputsSet(outputs);
    SurvivorsOnce(input, c.oldest, c.version, c.level, d, e);
    NotObsolete(c, e);
  }

  lemma SurvivorsOnce(input: seq<Entry>, oldest: SequenceNumber, v: Levels, level: nat, d: Entry, e: Entry)
    requires var r := Survivors(input, |input|, oldest, v, level); d in r && e in r
    requires d.key == e.key && d.sn <= oldest && e.sn <= oldest
    ensures d == e && !Obsolete(e, oldest, v, level)
  {
    hide Survivors, Obsolete;
    SurvivorsUnhidden(input, |input|, oldest, v, level, d);
    SurvivorsUnhidden(input, |input|, oldest, v, level, e);
  }

  lemma NotObsolete(c: Running, e: Entry)
    requires e.sn <= c.oldest && !Obsolete(e, c.oldest, c.version, c.level)
    ensures e.op.Deletion? ==> !IsBaseLevel(c.version, c.level, e.key)
  {
  }

  lemma {:induction false} SurvivorsUnhidden(input: seq<Entry>, n: nat, oldest: SequenceNumber, v: Levels, level: nat, e: Entry)
    requires n <= |input| && e in Survivors(input, n, oldest, v, level)
    ensures exists i :: 0 <= i < n && input[i] == e && !Hidden(input, i, oldest) && !Obsolete(e, oldest, v, level)
    decreases n
  {
    hide Hidden, Obsolete;
    if !Hidden(input, n - 1, oldest) && !Obsolete(input[n - 1], oldest, v, level) && e == input[n - 1] {
    } else {
      SurvivorsUnhidden(input, n - 1, oldest, v, level, e);
    }
  }
}
