/**
  Installing the outputs of a compaction, or moving a table one level down, keeps the engine invariant.
 */
module EngineCompaction {
  import opened Wrappers
  import opened DbFormat
  import opened Versions
  import opened CompactionPick
  import opened CompactionInputs
  import opened CompactionWork
  import opened CompactionReads
  import opened VersionBuilder
  import opened Engine
  import opened EngineWrites
  import opened EngineFlush

  ghost predicate NumbersFree(v: Levels, level: nat, i0: seq<File>, i1: seq<File>, outputs: seq<File>) {
    forall i, f, g ::
      0 <= i < NUM_LEVELS && f in v[i] && !(i == level && f in i0) && !(i == level + 1 && f in i1) && g in outputs ==>
      f.number != g.number
  }

  /** Tables that may take the place of the inputs at level + 1. */
  ghost predicate Replacement(v: Levels, level: nat, i0: seq<File>, i1: seq<File>, outputs: seq<File>, next: nat) {
    && LevelSorted(outputs) && FileSet(outputs) <= FileSet(i0 + i1)
    && (forall f :: f in outputs ==> f.number < next)
    && (forall i, j :: 0 <= i < j < |outputs| ==> outputs[i].number != outputs[j].number)
    && NumbersFree(v, level, i0, i1, outputs)
  }

  lemma WithoutInputs(v: Levels, next: nat, i: nat, inputs: seq<File>)
    requires Tables(v, next) && i < NUM_LEVELS && forall f :: f in inputs ==> f in v[i]
    ensures BySmallest(Without(v[i], Numbers(inputs)))
    ensures forall f :: f in Without(v[i], Numbers(inputs)) <==> f in v[i] && f !in inputs
    ensures FileSet(Without(v[i], Numbers(inputs))) == RestSet(v[i], inputs)
  {
    WithoutSorted(v[i], Numbers(inputs));
    forall f | f in v[i] ensures f.number in Numbers(inputs) <==> f in inputs {
      NumbersAre(inputs, f.number);
    }
  }

  /** Which files the new version has. */
  lemma CompactedFiles(v: Levels, level: nat, i0: seq<File>, i1: seq<File>, outputs: seq<File>, next: nat)
    requires Tables(v, next) && Stands(v, level, i0, i1) && Replacement(v, level, i0, i1, outputs, next)
    ensures var w := Compacted(v, level, i0, i1, outputs);
            && BySmallest(w[level]) && BySmallest(w[level + 1])
            && (forall l :: 0 <= l < NUM_LEVELS && l != level && l != level + 1 ==> w[l] == v[l])
            && (forall f :: f in w[level] <==> f in v[level] && f !in i0)
            && (forall f :: f in w[level + 1] <==> (f in v[level + 1] && f !in i1) || f in outputs)
            && FileSet(w[level]) == RestSet(v[level], i0)
            && FileSet(w[level + 1]) == RestSet(v[level + 1], i1) + FileSet(outputs)
  {
    WithoutInputs(v, next, level, i0);
    WithoutInputs(v, next, level + 1, i1);
    hide Tables, LevelSorted, Newer, Apart, FileSet, RestSet, BySmallest;
    assert FreshNumbers(Without(v[level + 1], Numbers(i1)), outputs);
    InsertedMany(Without(v[level + 1], Numbers(i1)), outputs);
  }

  lemma CompactedTables(v: Levels, level: nat, i0: seq<File>, i1: seq<File>, outputs: seq<File>, next: nat)
    requires Tables(v, next) && Stands(v, level, i0, i1) && Replacement(v, level, i0, i1, outputs, next)
    ensures Tables(Compacted(v, level, i0, i1, outputs), next)
  {
    hide Compacted, LevelSorted, Newer, RestSet, Apart, FileSet, NumbersDistinct, NumbersFree, BySmallest;
    var w := Compacted(v, level, i0, i1, outputs);
    CompactedFiles(v, level, i0, i1, outputs, next);
    forall i, f | 0 <= i < NUM_LEVELS && f in w[i]
      ensures (i == level + 1 && f in outputs) || (f in v[i] && !(i == level && f in i0) && !(i == level + 1 && f in i1)) {
      assert i != level && i != level + 1 ==> w[i] == v[i];
    }
    SameNumber(v, w, level, i0, i1, outputs);
  }

  lemma SameNumber(v: Levels, w: Levels, level: nat, i0: seq<File>, i1: seq<File>, outputs: seq<File>)
    requires NumbersDistinct(v) && NumbersFree(v, level, i0, i1, outputs)
    requires forall i, j :: 0 <= i < j < |outputs| ==> outputs[i].number != outputs[j].number
    requires forall i, f :: 0 <= i < NUM_LEVELS && f in w[i] ==>
               (i == level + 1 && f in outputs) || (f in v[i] && !(i == level && f in i0) && !(i == level + 1 && f in i1))
    ensures NumbersDistinct(w)
  {
    forall f, g | f in outputs && g in outputs && f.number == g.number ensures f == g {
      var m :| 0 <= m < |outputs| && outputs[m] == f;
      var n :| 0 <= n < |outputs| && outputs[n] == g;
    }
  }

  /** An output lies within the inputs, so what is apart from the inputs is apart from it. */
  lemma OutputsDisjoint(i0: seq<File>, i1: seq<File>, outputs: seq<File>, g: File, f: File)
    requires Apart(g, i0 + i1) && f in outputs && FileSet(outputs) <= FileSet(i0 + i1)
    ensures Disjoint(g, f)
  {
    var first, last := f.contents[0], f.contents[|f.contents| - 1];
    assert first in f.contents && last in f.contents;
    assert first in FileSet(outputs) && last in FileSet(outputs);
    var a :| a in i0 + i1 && first in a.contents;
    var b :| b in i0 + i1 && last in b.contents;
    WithinFile(a, first);
    WithinFile(b, last);
  }

  /** Whatever is cut from inputs that ValidInputs describes fits the output level. */
  lemma ValidOutputsFit(v: Levels, level: nat, i0: seq<File>, i1: seq<File>, outputs: seq<File>)
    requires ValidInputs(v, level, i0, i1) && FileSet(outputs) <= FileSet(i0 + i1)
    ensures FitsLevel(v, level, i1, outputs)
  {
    forall g, f | g in v[level + 1] && g !in i1 && f in outputs ensures Disjoint(g, f) {
      OutputsDisjoint(i0, i1, outputs, g, f);
    }
  }

  lemma CompactedSorted(v: Levels, level: nat, i0: seq<File>, i1: seq<File>, outputs: seq<File>, next: nat)
    requires Tables(v, next) && Stands(v, level, i0, i1) && Replacement(v, level, i0, i1, outputs, next)
    requires FitsLevel(v, level, i1, outputs) && forall i :: 1 <= i < NUM_LEVELS ==> LevelSorted(v[i])
    ensures forall i :: 1 <= i < NUM_LEVELS ==> LevelSorted(Compacted(v, level, i0, i1, outputs)[i])
  {
    hide Tables, Compacted, Newer, RestSet, NumbersFree, FileSet, Apart, LevelSorted;
    var w := Compacted(v, level, i0, i1, outputs);
    CompactedFiles(v, level, i0, i1, outputs, next);
    if level >= 1 {
      forall f, g | f in w[level] && g in w[level] && f != g ensures Disjoint(f, g) {
        DisjointInLevel(v[level], f, g);
      }
      SortedIfDisjoint(w[level]);
    }
    forall f, g | f in w[level + 1] && g in w[level + 1] && f != g ensures Disjoint(f, g) {
      if f in outputs && g in outputs {
        DisjointInLevel(outputs, f, g);
      } else if f !in outputs && g !in outputs {
        DisjointInLevel(v[level + 1], f, g);
      }
    }
    SortedIfDisjoint(w[level + 1]);
  }

  lemma KeptIsNewer(v: Levels, level: nat, i0: seq<File>, i1: seq<File>, x: Entry, y: Entry)
    requires Stands(v, level, i0, i1) && Newer(FileSet(v[level]), FileSet(v[level + 1]))
    requires x in RestSet(v[level], i0) && y in FileSet(i0 + i1) && x.key == y.key
    ensures x.sn > y.sn
  {
    var g :| g in v[level] && g !in i0 && x in g.contents;
    var f :| f in i0 + i1 && y in f.contents;
    if f in i0 {
      assert x in Elems(g.contents) && y in Elems(f.contents);
    } else {
      assert x in FileSet(v[level]) && y in FileSet(v[level + 1]);
    }
  }

  lemma InputsBelong(v: Levels, level: nat, i0: seq<File>, i1: seq<File>)
    requires Stands(v, level, i0, i1)
    ensures FileSet(i0 + i1) <= FileSet(v[level]) + FileSet(v[level + 1])
  {
  }

  ghost predicate Ordered(v: Levels) {
    forall i, j :: 0 <= i < j < NUM_LEVELS ==> Newer(FileSet(v[i]), FileSet(v[j]))
  }

  lemma CompactedOrdered(v: Levels, level: nat, i0: seq<File>, i1: seq<File>, outputs: seq<File>, next: nat)
    requires Tables(v, next) && Stands(v, level, i0, i1) && Replacement(v, level, i0, i1, outputs, next)
    requires Ordered(v)
    ensures Ordered(Compacted(v, level, i0, i1, outputs))
  {
    hide Tables, Compacted, Newer, RestSet, LevelSorted, FileSet, Apart;
    var w := Compacted(v, level, i0, i1, outputs);
    CompactedFiles(v, level, i0, i1, outputs, next);
    InputsBelong(v, level, i0, i1);
    forall i, j | 0 <= i < j < NUM_LEVELS ensures Newer(FileSet(w[i]), FileSet(w[j])) {
      CompactedOrderedPair(v, w, level, i0, i1, FileSet(outputs), i, j);
    }
  }

  lemma CompactedOrderedPair(v: Levels, w: Levels, level: nat, i0: seq<File>, i1: seq<File>, out: set<Entry>, i: nat, j: nat)
    requires Stands(v, level, i0, i1) && Ordered(v) && i < j < NUM_LEVELS
    requires forall l :: 0 <= l < NUM_LEVELS && l != level && l != level + 1 ==> w[l] == v[l]
    requires FileSet(w[level]) == RestSet(v[level], i0)
    requires FileSet(w[level + 1]) == RestSet(v[level + 1], i1) + out
    requires out <= FileSet(i0 + i1) <= FileSet(v[level]) + FileSet(v[level + 1])
    ensures Newer(FileSet(w[i]), FileSet(w[j]))
  {
    assert RestSet(v[level], i0) <= FileSet(v[level]) && RestSet(v[level + 1], i1) <= FileSet(v[level + 1]);
    forall x, y | x in FileSet(w[i]) && y in FileSet(w[j]) && x.key == y.key ensures x.sn > y.sn {
      if i == level && j == level + 1 && y in out {
        KeptIsNewer(v, level, i0, i1, x, y);
      } else {
        var a := if x in FileSet(v[i]) then i else level;
        var b := if y in FileSet(v[j]) then j else level;
        assert a < b && x in FileSet(v[a]) && y in FileSet(v[b]);
      }
    }
  }

  /** What the compaction leaves alone. */
  ghost function Untouched(v: Levels, level: nat, i0: seq<File>, i1: seq<File>): set<Entry>
    requires level + 1 < NUM_LEVELS
  {
    UpperSet(v, level) + RestSet(v[level], i0) + RestSet(v[level + 1], i1) + LowerSet(v, level)
  }

  lemma LevelsAround(v: Levels, level: nat)
    requires level + 1 < NUM_LEVELS
    ensures LevelsSet(v) == UpperSet(v, level) + FileSet(v[level]) + FileSet(v[level + 1]) + LowerSet(v, level)
  {
    forall e ensures e in LevelsSet(v) <==>
              e in UpperSet(v, level) + FileSet(v[level]) + FileSet(v[level + 1]) + LowerSet(v, level) {
      if e in LevelsSet(v) {
        var i :| 0 <= i < NUM_LEVELS && e in FileSet(v[i]);
        assert i < level || i == level || i == level + 1 || level + 2 <= i;
      }
    }
  }

  lemma SameAround(v: Levels, w: Levels, level: nat)
    requires forall l :: 0 <= l < NUM_LEVELS && l != level && l != level + 1 ==> w[l] == v[l]
    ensures UpperSet(w, level) == UpperSet(v, level) && LowerSet(w, level) == LowerSet(v, level)
  {
    forall e ensures e in UpperSet(w, level) <==> e in UpperSet(v, level) {
      if i :| 0 <= i < level && i < NUM_LEVELS && e in FileSet(v[i]) {
        assert e in FileSet(w[i]);
      }
      if i :| 0 <= i < level && i < NUM_LEVELS && e in FileSet(w[i]) {
        assert e in FileSet(v[i]);
      }
    }
    forall e ensures e in LowerSet(w, level) <==> e in LowerSet(v, level) {
      if i :| level + 2 <= i < NUM_LEVELS && e in FileSet(v[i]) {
        assert e in FileSet(w[i]);
      }
      if i :| level + 2 <= i < NUM_LEVELS && e in FileSet(w[i]) {
        assert e in FileSet(v[i]);
      }
    }
  }

  lemma CompactedSet(v: Levels, level: nat, i0: seq<File>, i1: seq<File>, outputs: seq<File>, next: nat)
    requires Tables(v, next) && Stands(v, level, i0, i1) && Replacement(v, level, i0, i1, outputs, next)
    ensures LevelsSet(v) == Untouched(v, level, i0, i1) + FileSet(i0 + i1)
    ensures LevelsSet(Compacted(v, level, i0, i1, outputs)) == Untouched(v, level, i0, i1) + FileSet(outputs)
  {
    hide Tables, Compacted, Newer, Replacement, RestSet, LevelSorted, FileSet, LevelsSet, UpperSet, LowerSet, Apart;
    var w := Compacted(v, level, i0, i1, outputs);
    CompactedFiles(v, level, i0, i1, outputs, next);
    LevelsAround(v, level);
    LevelsAround(w, level);
    SameAround(v, w, level);
    InputsCover(v, level, i0, i1);
  }

  lemma InputsCover(v: Levels, level: nat, i0: seq<File>, i1: seq<File>)
    requires Stands(v, level, i0, i1)
    ensures FileSet(v[level]) + FileSet(v[level + 1]) == RestSet(v[level], i0) + RestSet(v[level + 1], i1) + FileSet(i0 + i1)
  {
  }

  lemma CompactedLevel0(v: Levels, level: nat, i0: seq<File>, i1: seq<File>, outputs: seq<File>, next: nat)
    requires Tables(v, next) && Stands(v, level, i0, i1) && Replacement(v, level, i0, i1, outputs, next)
    requires NewestByNumber(v[0]) && DistinctNumbers(v[0])
    ensures var w := Compacted(v, level, i0, i1, outputs); NewestByNumber(w[0]) && DistinctNumbers(w[0])
  {
    hide Tables, Compacted, Newer, Replacement, RestSet, LevelSorted, FileSet, Apart;
    CompactedFiles(v, level, i0, i1, outputs, next);
  }

  lemma CompactedVersion(v: Levels, level: nat, i0: seq<File>, i1: seq<File>, outputs: seq<File>, next: nat)
    requires VersionOk(v) && level + 1 < NUM_LEVELS && FitsLevel(v, level, i1, outputs)
    requires Tables(v, next) && Stands(v, level, i0, i1) && Replacement(v, level, i0, i1, outputs, next)
    ensures VersionOk(Compacted(v, level, i0, i1, outputs))
    ensures LevelsSet(Compacted(v, level, i0, i1, outputs)) <= LevelsSet(v)
  {
    hide Tables, Stands, FitsLevel, Replacement, LevelSorted, Newer, Compacted, NewestByNumber, DistinctNumbers, Untouched, FileSet;
    CompactedSorted(v, level, i0, i1, outputs, next);
    CompactedOrdered(v, level, i0, i1, outputs, next);
    CompactedLevel0(v, level, i0, i1, outputs, next);
    CompactedSet(v, level, i0, i1, outputs, next);
    OutputsWithin(v, level, i0, i1, outputs, next);
  }

  lemma OutputsWithin(v: Levels, level: nat, i0: seq<File>, i1: seq<File>, outputs: seq<File>, next: nat)
    requires level + 1 < NUM_LEVELS && Replacement(v, level, i0, i1, outputs, next)
    ensures FileSet(outputs) <= FileSet(i0 + i1)
  {
  }

  /* ---- Installing a version that holds no more than before ---- */

  lemma LayersShrink(mem: seq<Entry>, imm: Option<seq<Entry>>, v: Levels, w: Levels)
    requires Layers(mem, imm, v) && VersionOk(w) && LevelsSet(w) <= LevelsSet(v)
    ensures Layers(mem, imm, w)
  {
    assert Stored(mem, imm, w) <= Stored(mem, imm, v);
  }

  lemma PublishedShrink(imm: Option<seq<Entry>>, v: Levels, w: Levels, last: SequenceNumber, recorded: SequenceNumber)
    requires PublishedOk(imm, v, last, recorded) && LevelsSet(w) <= LevelsSet(v)
    ensures PublishedOk(imm, w, last, last)
  {
  }

  lemma ReplayableLater(live: seq<Entry>, h: seq<Entry>, recorded: SequenceNumber, last: SequenceNumber)
    requires Replayable(live, h, recorded) && recorded <= last
    ensures Replayable(live, h, last)
  {
  }

  lemma CommitLogged(st: Db, w: Levels, next: nat, uncovered: set<UserKey>)
    requires Logged(st) && next >= st.nextFile
    ensures var t := Commit(st, w, st.manifest.logNumber, next).(compaction := None, uncovered := uncovered);
            Logged(t) && LiveLog(t) == LiveLog(st)
  {
  }

  lemma RecordedBound(st: Db)
    requires Inv(st)
    ensures st.manifest.lastSequence <= st.lastSequence && st.manifest.nextFile <= st.nextFile
  {
  }

  lemma Installed(st: Db, w: Levels, next: nat, uncovered: set<UserKey>)
    requires Inv(st) && VersionOk(w) && Tables(w, next) && LevelsSet(w) <= LevelsSet(st.levels) && next >= st.nextFile
    requires var t := Commit(st, w, st.manifest.logNumber, next).(compaction := None, uncovered := uncovered);
             Faithful(Held(t), st.history, st.target, Oldest(st), uncovered)
    ensures Inv(Commit(st, w, st.manifest.logNumber, next).(compaction := None, uncovered := uncovered))
  {
    RecordedBound(st);
    hide Layers, Tables, PendingOk, PublishedOk, SnapshotsOk, Faithful, Logged, Replayable, VersionOk, LevelsSet;
    CommitLogged(st, w, next, uncovered);
    LayersShrink(st.mem, st.imm, st.levels, w);
    PublishedShrink(st.imm, st.levels, w, st.lastSequence, st.manifest.lastSequence);
    ReplayableLater(LiveLog(st), st.history, st.manifest.lastSequence, st.lastSequence);
  }

  /* ---- Trivial move ---- */

  lemma MoveFits(v: Levels, level: nat, f: File, next: nat)
    requires Tables(v, next) && ValidInputs(v, level, [f], [])
    ensures Replacement(v, level, [f], [], [f], next) && Stands(v, level, [f], []) && FitsLevel(v, level, [], [f])
  {
    assert [f] + [] == [f];
    assert f in [f];
    ValidStands(v, level, [f], []);
    ValidOutputsFit(v, level, [f], [], [f]);
  }

  lemma MoveFacts(st: Db, level: nat, f: File)
    requires Inv(st) && Enabled(st, TrivialMove(level, f))
    ensures ValidInputs(st.levels, level, [f], []) && Tables(st.levels, st.manifest.nextFile) && VersionOk(st.levels)
    ensures st.manifest.nextFile <= st.nextFile && st.compaction == None
  {
  }

  lemma MoveKeepsInv(st: Db, level: nat, f: File)
    requires Inv(st) && Enabled(st, TrivialMove(level, f))
    ensures Inv(Apply(st, TrivialMove(level, f)))
  {
    hide Inv, Tables, ValidInputs, VersionOk, Stands, Replacement, FitsLevel, Compacted, OutputsOk, LevelForFlush, LiveLog;
    MoveFacts(st, level, f);
    var v, next := st.levels, st.nextFile;
    TablesMonotone(v, st.manifest.nextFile, next);
    MoveFits(v, level, f, next);
    MoveInstalled(st, level, f);
    assert Apply(st, TrivialMove(level, f)) ==
           Commit(st, Compacted(v, level, [f], [], [f]), st.manifest.logNumber, next).(
             compaction := None, uncovered := st.uncovered);
  }

  lemma MoveInstalled(st: Db, level: nat, f: File)
    requires Inv(st) && Stands(st.levels, level, [f], []) && Tables(st.levels, st.nextFile)
    requires FitsLevel(st.levels, level, [], [f])
    requires Replacement(st.levels, level, [f], [], [f], st.nextFile) && VersionOk(st.levels)
    ensures Inv(Commit(st, Compacted(st.levels, level, [f], [], [f]), st.manifest.logNumber, st.nextFile).(
                  compaction := None, uncovered := st.uncovered))
  {
    hide Layers, Tables, PendingOk, PublishedOk, SnapshotsOk, Faithful, Logged, Replayable, VersionOk, LevelsSet,
      CompactionOk, Replacement, Compacted, Untouched;
    var v, next := st.levels, st.nextFile;
    var w := Compacted(v, level, [f], [], [f]);
    assert [f] + [] == [f];
    CompactedVersion(v, level, [f], [], [f], next);
    CompactedTables(v, level, [f], [], [f], next);
    CompactedSet(v, level, [f], [], [f], next);
    assert LevelsSet(w) == LevelsSet(v);
    Installed(st, w, next, st.uncovered);
  }
}
