/**
  Iterating over the store: the children that NewInternalIterator merges, and why the rows the user
  iterator shows are exactly the view of the history.
 */
module EngineScan {
  import opened Wrappers
  import opened DbFormat
  import opened Versions
  import opened CompactionWork
  import opened VersionBuilder
  import opened Engine
  import opened EngineWrites
  import opened EngineFlush
  import opened EngineInstall
  import opened EngineRuns
  import opened Merger
  import DbIter

  /** One child for each sorted level from `i` on. */
  function DeepChildren(v: Levels, i: nat): seq<seq<Entry>>
    requires i <= NUM_LEVELS
    decreases NUM_LEVELS - i
  {
    if i == NUM_LEVELS then [] else [Flatten(Contents(v[i]))] + DeepChildren(v, i + 1)
  }

  /** The memtables, every level-0 table, and one concatenation for each deeper level. */
  function Children(mem: seq<Entry>, imm: Option<seq<Entry>>, v: Levels): seq<seq<Entry>> {
    [mem] + ((if imm.Some? then [imm.value] else []) + (Contents(v[0]) + DeepChildren(v, 1)))
  }

  ghost predicate SortedChildren(children: seq<seq<Entry>>) {
    forall c :: 0 <= c < |children| ==> Sorted(children[c])
  }

  ghost predicate Cover(children: seq<seq<Entry>>, E: set<Entry>) {
    forall e :: e in E <==> exists c :: 0 <= c < |children| && e in children[c]
  }

  /** Children that are sorted, never repeat a key, and hold `E` between them. */
  ghost predicate Mergeable(children: seq<seq<Entry>>, E: set<Entry>) {
    SortedChildren(children) && DistinctKeys(children) && Cover(children, E)
  }

  lemma Join(a: seq<seq<Entry>>, A: set<Entry>, b: seq<seq<Entry>>, B: set<Entry>)
    requires Mergeable(a, A) && Mergeable(b, B) && Newer(A, B)
    ensures Mergeable(a + b, A + B)
  {
    var ab := a + b;
    forall c | 0 <= c < |ab| ensures Sorted(ab[c]) && forall e :: e in ab[c] ==> if c < |a| then e in A else e in B {
      assert ab[c] == if c < |a| then a[c] else b[c - |a|];
    }
    forall e ensures e in A + B <==> exists c :: 0 <= c < |ab| && e in ab[c] {
      if c :| 0 <= c < |a| && e in a[c] {
        assert e in ab[c];
      }
      if c :| 0 <= c < |b| && e in b[c] {
        assert e in ab[|a| + c];
      }
    }
    JoinDistinct(a, A, b, B);
  }

  lemma JoinDistinct(a: seq<seq<Entry>>, A: set<Entry>, b: seq<seq<Entry>>, B: set<Entry>)
    requires Mergeable(a, A) && Mergeable(b, B) && Newer(A, B)
    ensures DistinctKeys(a + b)
  {
    var ab := a + b;
    forall c, d, x: Entry, y: Entry | 0 <= c < |ab| && 0 <= d < |ab| && x in ab[c] && y in ab[d] && x.IKey() == y.IKey()
      ensures c == d && x == y
    {
      assert x in (if c < |a| then a[c] else b[c - |a|]) && y in (if d < |a| then a[d] else b[d - |a|]);
      assert c < |a| <==> d < |a|;
    }
  }

  lemma Single(s: seq<Entry>)
    requires Sorted(s)
    ensures Mergeable([s], Elems(s))
  {
    forall x, y | x in s && y in s && x.IKey() == y.IKey() ensures x == y {
      var i :| 0 <= i < |s| && s[i] == x;
      var j :| 0 <= j < |s| && s[j] == y;
      OrderIs(s, i, j);
      OrderIs(s, j, i);
    }
    assert [s][0] == s;
  }

  lemma NoChildren()
    ensures Mergeable([], {})
  {
  }

  lemma {:induction false} LevelFlattens(fs: seq<File>)
    requires LevelSorted(fs)
    ensures Sorted(Flatten(Contents(fs))) && Elems(Flatten(Contents(fs))) == FileSet(fs)
  {
    OutputsSet(fs);
    if fs != [] {
      var n := |fs| - 1;
      assert Contents(fs)[..n] == Contents(fs[..n]);
      LevelFlattens(fs[..n]);
      FlattenSorted(fs);
    }
  }

  lemma FlattenSorted(fs: seq<File>)
    requires LevelSorted(fs) && fs != [] && Sorted(Flatten(Contents(fs[..|fs| - 1])))
    requires Elems(Flatten(Contents(fs[..|fs| - 1]))) == FileSet(fs[..|fs| - 1])
    requires Contents(fs)[..|fs| - 1] == Contents(fs[..|fs| - 1])
    ensures Sorted(Flatten(Contents(fs)))
  {
    var n := |fs| - 1;
    var front, back := Flatten(Contents(fs[..n])), fs[n].contents;
    forall i, j | 0 <= i < |front| && 0 <= j < |back| ensures Before(front[i].IKey(), back[j].IKey()) {
      assert front[i] in Elems(front) && back[j] in back;
      var f :| f in fs[..n] && front[i] in f.contents;
      var m :| 0 <= m < n && fs[m] == f;
      WithinFile(f, front[i]);
      WithinFile(fs[n], back[j]);
    }
  }

  ghost function From(v: Levels, i: nat): set<Entry> {
    set j, e | i <= j < NUM_LEVELS && e in FileSet(v[j]) :: e
  }

  lemma {:induction false} DeepMergeable(v: Levels, i: nat)
    requires VersionOk(v) && 1 <= i <= NUM_LEVELS
    ensures Mergeable(DeepChildren(v, i), From(v, i))
    decreases NUM_LEVELS - i
  {
    if i == NUM_LEVELS {
      NoChildren();
      assert From(v, i) == {};
    } else {
      DeepMergeable(v, i + 1);
      LevelFlattens(v[i]);
      Single(Flatten(Contents(v[i])));
      FromStep(v, i);
      Join([Flatten(Contents(v[i]))], FileSet(v[i]), DeepChildren(v, i + 1), From(v, i + 1));
    }
  }

  lemma FromStep(v: Levels, i: nat)
    requires VersionOk(v) && i < NUM_LEVELS
    ensures From(v, i) == FileSet(v[i]) + From(v, i + 1) && Newer(FileSet(v[i]), From(v, i + 1))
  {
  }

  lemma Level0Mergeable(fs: seq<File>)
    requires NewestByNumber(fs) && DistinctNumbers(fs) && BySmallest(fs)
    ensures Mergeable(Contents(fs), FileSet(fs))
  {
    Level0Distinct(fs);
    Level0Covers(fs);
  }

  lemma Level0Distinct(fs: seq<File>)
    requires NewestByNumber(fs) && DistinctNumbers(fs) && BySmallest(fs)
    ensures DistinctKeys(Contents(fs))
  {
    hide NewestByNumber, DistinctNumbers, BySmallest, Sorted;
    var cs := Contents(fs);
    forall c, d, x: Entry, y: Entry | 0 <= c < |cs| && 0 <= d < |cs| && x in cs[c] && y in cs[d] && x.IKey() == y.IKey()
      ensures c == d && x == y
    {
      SameTable(fs, c, d, x, y);
    }
  }

  lemma Level0Covers(fs: seq<File>)
    ensures Cover(Contents(fs), FileSet(fs))
  {
    var cs := Contents(fs);
    forall e ensures e in FileSet(fs) <==> exists c :: 0 <= c < |cs| && e in cs[c] {
      if e in FileSet(fs) {
        var f :| f in fs && e in f.contents;
        var c :| 0 <= c < |fs| && fs[c] == f;
        assert e in cs[c];
      }
      if c :| 0 <= c < |cs| && e in cs[c] {
        assert fs[c] in fs && e in fs[c].contents;
      }
    }
  }

  lemma SameTable(fs: seq<File>, c: nat, d: nat, x: Entry, y: Entry)
    requires NewestByNumber(fs) && DistinctNumbers(fs) && BySmallest(fs) && c < |fs| && d < |fs|
    requires x in fs[c].contents && y in fs[d].contents && x.IKey() == y.IKey()
    ensures c == d && x == y
  {
    var f, g := fs[c], fs[d];
    assert f in fs && g in fs && x in Elems(f.contents) && y in Elems(g.contents);
    assert f.number == g.number;
    assert c < d ==> FileBefore(f, g);
    assert d < c ==> FileBefore(g, f);
    Single(f.contents);
    assert [f.contents][0] == f.contents;
  }

  lemma VersionMergeable(v: Levels, next: nat)
    requires VersionOk(v) && Tables(v, next)
    ensures Mergeable(Contents(v[0]) + DeepChildren(v, 1), LevelsSet(v))
  {
    hide Mergeable, Contents, FileSet, DeepChildren, From, Newer, Unique, LevelSorted, LevelsSet;
    Level0Mergeable(v[0]);
    DeepMergeable(v, 1);
    FromStep(v, 0);
    Join(Contents(v[0]), FileSet(v[0]), DeepChildren(v, 1), From(v, 1));
    FromZero(v);
  }

  lemma FromZero(v: Levels)
    ensures From(v, 0) == LevelsSet(v)
  {
  }

  lemma ChildrenMergeable(mem: seq<Entry>, imm: Option<seq<Entry>>, v: Levels, next: nat)
    requires Layers(mem, imm, v) && Tables(v, next)
    ensures Mergeable(Children(mem, imm, v), Stored(mem, imm, v))
  {
    hide Mergeable, Sorted, VersionOk, Tables, Newer, Unique, LevelsSet;
    VersionMergeable(v, next);
    Single(mem);
    var below := Contents(v[0]) + DeepChildren(v, 1);
    var imms := if imm.Some? then [imm.value] else [];
    if imm.Some? {
      Single(imm.value);
    } else {
      NoChildren();
    }
    Join(imms, ImmSet(imm), below, LevelsSet(v));
    NewerBoth(Elems(mem), ImmSet(imm), LevelsSet(v));
    Join([mem], Elems(mem), imms + below, ImmSet(imm) + LevelsSet(v));
    assert Stored(mem, imm, v) == Elems(mem) + (ImmSet(imm) + LevelsSet(v));
  }

  lemma NewerBoth(A: set<Entry>, B: set<Entry>, C: set<Entry>)
    requires Newer(A, B) && Newer(A, C)
    ensures Newer(A, B + C)
  {
  }

  /** What the user iterator shows at a readable sequence is the view of the history, row for row. */
  lemma IterationIsHistory(st: Db, all: seq<Entry>, s: SequenceNumber, k: UserKey, v: Value)
    requires Inv(st) && Readable(st, s) && Union(Children(st.mem, st.imm, st.levels), all) && k !in st.uncovered
    ensures DistinctKeys(Children(st.mem, st.imm, st.levels))
    ensures DbIter.Row(k, v) in DbIter.Rows(all, s) <==> View(st.history, k, s) == Some(v)
  {
    var children := Children(st.mem, st.imm, st.levels);
    ChildrenMergeable(st.mem, st.imm, st.levels, st.manifest.nextFile);
    UnionHoldsAll(children, all, Stored(st.mem, st.imm, st.levels));
    PendingInvisible(st, k, s);
    DbIter.RowsAreView(all, st.history, s, k, v);
  }

  /**
    While an iterator is in use, writers insert into the memtable it has captured.  The union of its
    children then grows by entries that are too new for it, so the rows stay the view of the history;
    what each move shows then is said by DbIter.Drive.
   */
  lemma IterationWhileWriting(st: Db, mem: seq<Entry>, all: seq<Entry>, more: seq<Entry>, s: SequenceNumber, k: UserKey, v: Value)
    requires Inv(st) && Readable(st, s) && k !in st.uncovered && Sorted(mem)
    requires (forall e :: e in st.mem ==> e in mem) && forall e :: e in mem ==> e in st.mem || e.sn > st.lastSequence
    requires DistinctKeys(Children(st.mem, st.imm, st.levels)) && Union(Children(st.mem, st.imm, st.levels), all)
    requires DistinctKeys(Children(mem, st.imm, st.levels)) && Union(Children(mem, st.imm, st.levels), more)
    ensures DbIter.Grows(all, more, s) && DbIter.Rows(more, s) == DbIter.Rows(all, s)
    ensures DbIter.Row(k, v) in DbIter.Rows(more, s) <==> View(st.history, k, s) == Some(v)
  {
    IterationIsHistory(st, all, s, k, v);
    ChildrenMergeable(st.mem, st.imm, st.levels, st.manifest.nextFile);
    UnionHoldsAll(Children(st.mem, st.imm, st.levels), all, Stored(st.mem, st.imm, st.levels));
    GrownUnion(st.mem, mem, st.imm, st.levels, all, more);
    DbIter.SameRows(all, more, s);
  }

  /** The unions differ by what was inserted. */
  lemma GrownUnion(mem: seq<Entry>, grown: seq<Entry>, imm: Option<seq<Entry>>, v: Levels, all: seq<Entry>, more: seq<Entry>)
    requires DistinctKeys(Children(mem, imm, v)) && Union(Children(mem, imm, v), all)
    requires DistinctKeys(Children(grown, imm, v)) && Union(Children(grown, imm, v), more)
    requires forall e :: e in mem ==> e in grown
    ensures Sorted(more) && (forall e :: e in all ==> e in more) && forall e :: e in more && e !in all ==> e in grown && e !in mem
  {
    var a, b := Children(mem, imm, v), Children(grown, imm, v);
    assert |a| == |b| && a[1..] == b[1..] && a[0] == mem && b[0] == grown;
    assert forall c :: 0 < c < |a| ==> a[c] == a[1..][c - 1] == b[1..][c - 1] == b[c];
    forall e | e in all ensures e in more {
      var c :| 0 <= c < |a| && e in a[c];
      assert e in b[c];
    }
    forall e | e in more && e !in all ensures e in grown && e !in mem {
      var c :| 0 <= c < |b| && e in b[c];
      assert e !in a[c];
    }
  }

  lemma UnionHoldsAll(children: seq<seq<Entry>>, all: seq<Entry>, E: set<Entry>)
    requires Union(children, all) && Cover(children, E)
    ensures Elems(all) == E && Sorted(all)
  {
  }

  /** Children with distinct keys have a sorted union. */
  lemma {:induction false} UnionExists(children: seq<seq<Entry>>) returns (all: seq<Entry>)
    requires SortedChildren(children) && DistinctKeys(children)
    ensures Union(children, all)
  {
    if children == [] {
      all := [];
    } else {
      var n := |children| - 1;
      var rest := UnionExists(children[..n]);
      all := InsertAll(rest, children[n]);
      InsertDistinct(rest, children[n], children, n);
    }
  }

  lemma {:induction false} InsertDistinct(rest: seq<Entry>, s: seq<Entry>, children: seq<seq<Entry>>, n: nat)
    requires Sorted(rest) && Sorted(s) && n < |children| && DistinctKeys(children)
    requires forall e :: e in s ==> e in children[n]
    requires forall e :: e in rest ==> exists c :: 0 <= c < n && e in children[c]
    ensures Sorted(InsertAll(rest, s))
    decreases |s|
  {
    if s != [] {
      var m := |s| - 1;
      InsertDistinct(rest, s[..m], children, n);
      var r := InsertAll(rest, s[..m]);
      assert s[m] in s;
      forall x | x in r ensures x.IKey() != s[m].IKey() {
        if x in s[..m] {
          var i :| 0 <= i < m && s[i] == x;
          assert Before(s[i].IKey(), s[m].IKey());
        }
      }
      InsertSorted(r, s[m]);
    }
  }
}
