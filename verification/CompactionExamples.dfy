/**
  Two concrete stores on which the code, as written, breaks the promise that compactions are invisible.
 */
module CompactionExamples {
  import opened Wrappers
  import opened DbFormat
  import opened Versions
  import opened CompactionInputs
  import opened CompactionPick
  import opened CompactionWork
  import opened VersionBuilder
  import opened Engine
  import opened EngineInstall

  /* ---- A deletion dropped over an older value in a neighbouring table ---- */

  const NEW_ONE := Entry(1, 30, Put("b"))
  const OLD_ONE := Entry(1, 20, Put("a"))
  const DELETED := Entry(5, 10, Deletion)
  const BURIED := Entry(5, 5, Put("old"))

  /** Level 1 holds key 1; in level 2 the entries of key 5 are split over two tables. */
  ghost function Store(upper: File, left: File, right: File): Levels {
    [[], [upper], [left, right], [], [], [], []]
  }

  lemma NoFiles()
    ensures FileSet([]) == {}
  {
  }

  lemma OneFile(f: File)
    ensures FileSet([f]) == Elems(f.contents)
  {
    assert f in [f];
  }

  lemma TwoFiles(f: File, g: File)
    ensures FileSet([f, g]) == Elems(f.contents) + Elems(g.contents)
  {
    assert f in [f, g] && g in [f, g];
  }

  /** A version with tables in levels 1 and 2 only. */
  lemma TwoLevelsOk(v: Levels)
    requires forall i :: 0 <= i < NUM_LEVELS && i != 1 && i != 2 ==> v[i] == []
    requires LevelSorted(v[1]) && LevelSorted(v[2])
    requires Newer(FileSet(v[1]), FileSet(v[2])) && Unique(FileSet(v[1]) + FileSet(v[2]))
    ensures VersionOk(v) && Tidy(v)
  {
    NoFiles();
    forall i | 0 <= i < NUM_LEVELS && i != 1 && i != 2 ensures FileSet(v[i]) == {} {}
    forall e | e in LevelsSet(v) ensures e in FileSet(v[1]) + FileSet(v[2]) {
      var i :| 0 <= i < NUM_LEVELS && e in FileSet(v[i]);
      assert i == 1 || i == 2;
    }
  }

  /** The store is one that a point lookup may rely on. */
  lemma StoreOk(upper: File, left: File, right: File)
    requires upper.contents == [NEW_ONE] && left.contents == [OLD_ONE, DELETED] && right.contents == [BURIED]
    ensures VersionOk(Store(upper, left, right)) && Tidy(Store(upper, left, right))
  {
    hide FileSet, LevelsSet, VersionOk, Tidy;
    var v := Store(upper, left, right);
    assert v[1] == [upper] && v[2] == [left, right];
    OneFile(upper);
    TwoFiles(left, right);
    assert Elems([NEW_ONE]) == {NEW_ONE} && Elems([OLD_ONE, DELETED]) == {OLD_ONE, DELETED} && Elems([BURIED]) == {BURIED};
    TwoLevelsOk(v);
  }

  /** What PickCompaction assembles when level 1 is too big is the upper table and, of level 2, the left one only. */
  method PicksLeftOnly(upper: File, left: File, right: File, pointers: seq<Option<InternalKey>>, maxFileSize: nat)
    returns (c: Picked)
    requires upper.contents == [NEW_ONE] && left.contents == [OLD_ONE, DELETED] && right.contents == [BURIED]
    requires |pointers| == NUM_LEVELS
    ensures VersionOk(Store(upper, left, right))
    ensures c.level == 1 && (forall f :: f in c.i0 <==> f == upper) && (forall f :: f in c.i1 <==> f == left)
    ensures ValidInputs(Store(upper, left, right), 1, c.i0, c.i1)
  {
    hide VersionOk, Tidy, ValidInputs, GapFree, Sorted, Triggered, Sought, TriggerOk;
    StoreOk(upper, left, right);
    var v := [[], [upper], [left, right], [], [], [], []];
    LevelOneTooBig(upper, left, right);
    var picked := PickCompaction(v, TooBig(1), pointers, maxFileSize);
    c := picked.value;
    LeftOnly(upper, left, right, pointers, maxFileSize, c);
  }

  lemma LevelOneTooBig(upper: File, left: File, right: File)
    ensures TriggerOk(Store(upper, left, right), TooBig(1))
    ensures Store(upper, left, right) == [[], [upper], [left, right], [], [], [], []]
  {
  }

  lemma LeftOnly(upper: File, left: File, right: File, pointers: seq<Option<InternalKey>>, maxFileSize: nat, c: Picked)
    requires upper.contents == [NEW_ONE] && left.contents == [OLD_ONE, DELETED] && right.contents == [BURIED]
    requires Triggered(Store(upper, left, right), TooBig(1), pointers, maxFileSize, c)
    requires ValidInputs(Store(upper, left, right), 1, c.i0, c.i1)
    ensures c.level == 1 && (forall f :: f in c.i0 <==> f == upper) && (forall f :: f in c.i1 <==> f == left)
  {
    hide ValidInputs, Triggered, Meets, Sorted;
    var v := Store(upper, left, right);
    InputsInLevel(v, 1, c.i0, c.i1);
    TriggeredLevel(v, TooBig(1), pointers, maxFileSize, c);
    assert c.i0[0] in c.i0;
    OnlyUpper(upper, left, right, c.i0);
  }

  lemma OnlyUpper(upper: File, left: File, right: File, i0: seq<File>)
    requires upper.contents == [NEW_ONE] && left.contents == [OLD_ONE, DELETED] && right.contents == [BURIED]
    requires forall f :: f in i0 <==> f == upper
    ensures Meets(left, i0) && !Meets(right, i0)
  {
    assert upper in i0;
  }

  lemma InputsInLevel(v: Levels, level: nat, i0: seq<File>, i1: seq<File>)
    requires ValidInputs(v, level, i0, i1)
    ensures i0 != [] && (forall f :: f in i0 ==> f in v[level]) && forall f :: f in i1 ==> f in v[level + 1]
  {
  }

  lemma LoopDropsDeletion(upper: File, left: File, right: File)
    ensures Survivors([NEW_ONE, OLD_ONE, DELETED], 3, 40, Store(upper, left, right), 1) == [NEW_ONE]
  {
    var v, input := Store(upper, left, right), [NEW_ONE, OLD_ONE, DELETED];
    assert forall i :: 3 <= i < NUM_LEVELS ==> v[i] == [];
    assert Obsolete(DELETED, 40, v, 1);
    assert input[0].key == input[1].key;
    assert Hidden(input, 1, 40) && !Hidden(input, 0, 40);
    assert Survivors(input, 1, 40, v, 1) == [NEW_ONE];
    assert Survivors(input, 2, 40, v, 1) == [NEW_ONE];
  }

  lemma ThreeTables(upper: File, left: File, right: File)
    ensures LevelsSet(Store(upper, left, right)) == Elems(upper.contents) + Elems(left.contents) + Elems(right.contents)
  {
    var v := Store(upper, left, right);
    assert v[1] == [upper] && v[2] == [left, right];
    forall e ensures e in LevelsSet(v) <==> e in upper.contents || e in left.contents || e in right.contents {
      if e in upper.contents {
        InLevels(v, 1, upper, e);
      }
      if e in left.contents {
        InLevels(v, 2, left, e);
      }
      if e in right.contents {
        InLevels(v, 2, right, e);
      }
    }
  }

  /** Key 5 reads as deleted before the compaction and as its old value after it. */
  lemma DeletionUncovered(upper: File, left: File, right: File, out: File)
    requires upper.contents == [NEW_ONE] && left.contents == [OLD_ONE, DELETED] && right.contents == [BURIED]
    requires out.contents == Survivors([NEW_ONE, OLD_ONE, DELETED], 3, 40, Store(upper, left, right), 1)
    requires upper.number == 12 && left.number == 10 && right.number == 11 && out.number == 13
    ensures ReadSet(LevelsSet(Store(upper, left, right)), 5, 40) == None
    ensures ReadSet(LevelsSet(Compacted(Store(upper, left, right), 1, [upper], [left], [out])), 5, 40) == Some("old")
  {
    hide LevelsSet, Compacted, Store, Sorted, ReadSet;
    LoopDropsDeletion(upper, left, right);
    ThreeTables(upper, left, right);
    ReadsDeletion(LevelsSet(Store(upper, left, right)));
    CompactedStore(upper, left, right, out);
    ReadsBuried(LevelsSet(Compacted(Store(upper, left, right), 1, [upper], [left], [out])));
  }

  lemma ReadsDeletion(E: set<Entry>)
    requires E == Elems([NEW_ONE]) + Elems([OLD_ONE, DELETED]) + Elems([BURIED])
    ensures ReadSet(E, 5, 40) == None
  {
    assert E == {NEW_ONE, OLD_ONE, DELETED, BURIED};
    ReadSetFound(E, 5, 40, DELETED);
  }

  lemma ReadsBuried(E: set<Entry>)
    requires E == Elems([BURIED]) + Elems([NEW_ONE])
    ensures ReadSet(E, 5, 40) == Some("old")
  {
    assert E == {NEW_ONE, BURIED};
    ReadSetFound(E, 5, 40, BURIED);
  }

  lemma CompactedStore(upper: File, left: File, right: File, out: File)
    requires upper.number == 12 && left.number == 10 && right.number == 11 && out.number == 13
    ensures LevelsSet(Compacted(Store(upper, left, right), 1, [upper], [left], [out])) ==
            Elems(right.contents) + Elems(out.contents)
  {
    hide Sorted, Elems;
    var w := Compacted(Store(upper, left, right), 1, [upper], [left], [out]);
    CompactedLevels(upper, left, right, out);
    forall e ensures e in LevelsSet(w) <==> e in Elems(right.contents) || e in Elems(out.contents) {
      LevelsTwo(w, right, out, e);
    }
  }

  lemma CompactedLevels(upper: File, left: File, right: File, out: File)
    requires upper.number == 12 && left.number == 10 && right.number == 11 && out.number == 13
    ensures var w := Compacted(Store(upper, left, right), 1, [upper], [left], [out]);
            && (forall i :: 0 <= i < NUM_LEVELS && i != 1 && i != 2 ==> w[i] == [])
            && (forall f :: f !in w[1]) && (forall f :: f in w[2] <==> f == right || f == out)
  {
    hide Sorted;
    NumbersAre([upper], 12);
    NumbersAre([left], 10);
    NumbersAre([left], 11);
    assert upper in [upper] && left in [left];
    var rest := Without([left, right], Numbers([left]));
    assert forall f :: f in rest <==> f == right by {
      assert left in [left, right] && right in [left, right];
    }
    assert [out][..0] == [];
    assert InsertFiles(rest, [out]) == InsertFile(rest, out);
  }

  lemma LevelsTwo(w: Levels, a: File, b: File, e: Entry)
    requires (forall i :: 0 <= i < NUM_LEVELS && i != 1 && i != 2 ==> w[i] == [])
    requires (forall f :: f !in w[1]) && (forall f :: f in w[2] <==> f == a || f == b)
    ensures e in LevelsSet(w) <==> e in Elems(a.contents) || e in Elems(b.contents)
  {
    if e in a.contents {
      InLevels(w, 2, a, e);
    }
    if e in b.contents {
      InLevels(w, 2, b, e);
    }
  }

  /* ---- A flush into the gap of a manual compaction ---- */

  const LOW := Entry(1, 10, Put("a"))
  const HIGH := Entry(9, 11, Put("b"))
  const BETWEEN := Entry(5, 30, Put("c"))

  ghost function GapStore(low: File, high: File): Levels {
    [[], [low, high], [], [], [], [], []]
  }

  lemma GapStoreOk(low: File, high: File)
    requires low.contents[0].key == 1 && |low.contents| == 1 && high.contents == [HIGH]
    requires low.contents[0].sn == 10
    ensures VersionOk(GapStore(low, high)) && Tidy(GapStore(low, high))
  {
    var v := GapStore(low, high);
    assert v[1] == [low, high] && v[2] == [];
    TwoFiles(low, high);
    NoFiles();
    assert Elems(low.contents) == {low.contents[0]} && Elems(high.contents) == {HIGH};
    hide FileSet, LevelsSet, VersionOk, Tidy;
    TwoLevelsOk(v);
  }

  /** Compacting the whole of level 1 by hand takes both tables. */
  method CompactRangeTakesBoth(low: File, high: File, maxFileSize: nat) returns (c: Picked)
    requires low.contents[0].key == 1 && |low.contents| == 1 && high.contents == [HIGH]
    requires low.contents[0].sn == 10 && low.size < maxFileSize
    ensures c.level == 1 && (forall f :: f in c.i0 <==> f == low || f == high) && c.i1 == []
    ensures ValidInputs(GapStore(low, high), 1, c.i0, c.i1)
  {
    GapStoreOk(low, high);
    hide VersionOk, Tidy, ValidInputs, GapFree, Sorted, BigEnough, Requested;
    var v: Levels := [[], [low, high], [], [], [], [], []];
    assert v == GapStore(low, high) && v[1] == [low, high] && v[2] == [];
    assert !(low in v[1] ==> !Overlaps(low, None, None));
    var picked := CompactRange(v, 1, None, None, maxFileSize);
    c := picked.value;
    InputsInLevel(v, 1, c.i0, c.i1);
    RequestedLevel(v, 1, None, None, maxFileSize, c);
    BothFound(low, high);
    ghost var n: nat :| BigEnough([low, high], n, maxFileSize) && forall f :: f in [low, high][..n] ==> f in c.i0;
    TakesTwo(low, high, n, maxFileSize);
    assert low in [low, high][..n] && high in [low, high][..n];
    SomeMember(c.i1);
  }

  lemma SomeMember(fs: seq<File>)
    ensures fs == [] || exists f :: f in fs
  {
    if fs != [] {
      assert fs[0] in fs;
    }
  }

  lemma BothFound(low: File, high: File)
    ensures Overlapping([low, high], None, None) == [low, high]
  {
    assert [low, high][..1] == [low] && [low][..0] == [];
    assert Overlapping([low], None, None) == [low];
  }

  lemma TakesTwo(low: File, high: File, n: nat, maxFileSize: nat)
    requires BigEnough([low, high], n, maxFileSize) && low.size < maxFileSize
    ensures n == 2 && [low, high][..n] == [low, high]
  {
    assert [low, high][..1] == [low] && [low][1..] == [];
    assert TotalFileSize([low]) == low.size;
  }

  /** Meanwhile a memtable with a key between the two tables may go to level 2: between two survivors. */
  lemma FlushAllowed(low: File, high: File, flushed: File)
    requires low.contents == [LOW] && high.contents == [HIGH] && flushed.contents == [BETWEEN]
    ensures var v := GapStore(low, high);
            && LevelForFlush(v, 2, flushed)
            && !SurvivorsClear(v[2 := [flushed]], Running(1, [low, high], [], 40, v, true))
  {
    var v := GapStore(low, high);
    MayFlush(low, high, flushed);
    var c := Running(1, [low, high], [], 40, v, true);
    BothTables(c, low, high);
    assert FileSet(c.i0 + c.i1) == {LOW, HIGH};
    assert LOW in SurvivorsOf(c) && HIGH in SurvivorsOf(c);
    assert !Before(HIGH.IKey(), Smallest(flushed)) && !Before(Largest(flushed), LOW.IKey());
    assert v[2 := [flushed]][2] == [flushed] && flushed in [flushed];
    assert !OnOneSide(SurvivorsOf(c), flushed);
  }

  lemma BothTables(c: Running, low: File, high: File)
    requires c.i0 == [low, high] && c.i1 == [] && |low.contents| == 1 && |high.contents| == 1
    ensures FileSet(c.i0 + c.i1) == {low.contents[0], high.contents[0]}
  {
    assert c.i0 + c.i1 == [low, high];
    TwoFiles(low, high);
    assert Elems(low.contents) == {low.contents[0]} && Elems(high.contents) == {high.contents[0]};
  }

  lemma MayFlush(low: File, high: File, flushed: File)
    requires low.contents[0].key == 1 && |low.contents| == 1 && high.contents == [HIGH] && flushed.contents == [BETWEEN]
    ensures LevelForFlush(GapStore(low, high), 2, flushed)
  {
    var v := GapStore(low, high);
    assert v[1] == [low, high] && v[0] == v[2] == [];
    forall i | 0 <= i <= 2 ensures !OverlapInLevel(v[i], Lo(flushed), Hi(flushed)) {
      assert i != 1 ==> v[i] == [];
    }
  }

  /** If the lower table held a deletion only, the same flush would do no harm: nothing of that table survives. */
  lemma FlushHarmless(low: File, high: File, flushed: File)
    requires low.contents == [Entry(1, 10, Deletion)] && high.contents == [HIGH] && flushed.contents == [BETWEEN]
    ensures var v := GapStore(low, high);
            && LevelForFlush(v, 2, flushed)
            && SurvivorsClear(v[2 := [flushed]], Running(1, [low, high], [], 40, v, true))
            && !OneSide([low, high], Lo(flushed), Hi(flushed))
  {
    var v := GapStore(low, high);
    MayFlush(low, high, flushed);
    var c := Running(1, [low, high], [], 40, v, true);
    BothTables(c, low, high);
    assert forall i :: 3 <= i < NUM_LEVELS ==> v[i] == [];
    assert Obsolete(Entry(1, 10, Deletion), 40, v, 1);
    assert SurvivorsOf(c) <= {HIGH};
    assert v[2 := [flushed]][2] == [flushed];
    assert low in [low, high] && high in [low, high];
  }

  /** The merged table then spans the flushed one: level 2 is no longer disjoint, and the search for key 5 goes wrong. */
  lemma FlushedIntoGap(low: File, high: File, flushed: File, out: File)
    requires low.contents == [LOW] && high.contents == [HIGH] && flushed.contents == [BETWEEN]
    requires out.contents == [LOW, HIGH] && out.number == 13 && flushed.number == 12
    ensures var w := Compacted(GapStore(low, high)[2 := [flushed]], 1, [low, high], [], [out]);
            && w[2] == [out, flushed] && !LevelSorted(w[2])
            && !Before(Largest(w[2][0]), LookupKey(5, 40)) && SeekGet(w[2][0].contents, 5, 40) == None
            && Visible(BETWEEN, 5, 40) && BETWEEN in w[2][1].contents
  {
    var v := GapStore(low, high)[2 := [flushed]];
    var w := Compacted(v, 1, [low, high], [], [out]);
    assert Numbers([]) == {};
    assert v[2] == [flushed] && [flushed][..0] == [];
    assert Without([], {}) == [];
    assert Without([flushed], {}) == [flushed];
    assert [out][..0] == [];
    assert InsertFiles([flushed], [out]) == InsertFile([flushed], out) == [out, flushed];
    assert Seek([LOW, HIGH], LookupKey(5, 40)) == 1 + Seek([HIGH], LookupKey(5, 40));
    assert Before(Largest(out), Smallest(flushed)) == false;
    assert w[2][0] == out && w[2][1] == flushed;
  }
}
