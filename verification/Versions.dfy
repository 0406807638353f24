/**
  A version: seven levels of sorted tables, and the point lookup through them.
 */
module Versions {
  import opened Wrappers
  import opened DbFormat

  datatype FileData = FileData(number: nat, size: nat, contents: seq<Entry>)

  /** A table file with its metadata.  A table that reaches a version is sorted and not empty. */
  type File = f: FileData | f.contents != [] && Sorted(f.contents)
    witness FileData(0, 0, [Entry(0, 0, Deletion)])

  function Smallest(f: File): InternalKey {
    f.contents[0].IKey()
  }

  function Largest(f: File): InternalKey {
    f.contents[|f.contents| - 1].IKey()
  }

  function Lo(f: File): UserKey {
    Smallest(f).user
  }

  function Hi(f: File): UserKey {
    Largest(f).user
  }

  type Levels = v: seq<seq<File>> | |v| == NUM_LEVELS witness [[], [], [], [], [], [], []]

  ghost function FileSet(fs: seq<File>): set<Entry> {
    set f, e | f in fs && e in f.contents :: e
  }

  ghost function LevelsSet(v: Levels): set<Entry> {
    set i, e | 0 <= i < NUM_LEVELS && e in FileSet(v[i]) :: e
  }

  /** Levels above 0: files in key order with disjoint ranges of internal keys. */
  ghost predicate LevelSorted(fs: seq<File>) {
    forall i, j :: 0 <= i < j < |fs| ==> Before(Largest(fs[i]), Smallest(fs[j]))
  }

  /** Level 0: file numbers say which of two files is newer. */
  ghost predicate NewestByNumber(fs: seq<File>) {
    forall f, g :: f in fs && g in fs && f.number > g.number ==> Newer(Elems(f.contents), Elems(g.contents))
  }

  ghost predicate DistinctNumbers(fs: seq<File>) {
    forall f, g :: f in fs && g in fs && f.number == g.number ==> f == g
  }

  /** "Entries never hop across levels": what a point lookup relies on. */
  ghost predicate VersionOk(v: Levels) {
    && (forall i :: 1 <= i < NUM_LEVELS ==> LevelSorted(v[i]))
    && (forall i, j :: 0 <= i < j < NUM_LEVELS ==> Newer(FileSet(v[i]), FileSet(v[j])))
    && NewestByNumber(v[0]) && DistinctNumbers(v[0])
    && Unique(LevelsSet(v))
  }

  lemma WithinFile(f: File, e: Entry)
    requires e in f.contents
    ensures Lo(f) <= e.key <= Hi(f)
    ensures !Before(e.IKey(), Smallest(f)) && !Before(Largest(f), e.IKey())
  {
    var i :| 0 <= i < |f.contents| && f.contents[i] == e;
    assert i > 0 ==> Before(f.contents[0].IKey(), f.contents[i].IKey());
    var n := |f.contents| - 1;
    assert i < n ==> Before(f.contents[i].IKey(), f.contents[n].IKey());
  }

  lemma FileBounds(f: File)
    ensures Lo(f) <= Hi(f) && !Before(Largest(f), Smallest(f))
  {
    WithinFile(f, f.contents[0]);
  }

  lemma InLevels(v: Levels, i: nat, f: File, e: Entry)
    requires i < NUM_LEVELS && f in v[i] && e in f.contents
    ensures e in FileSet(v[i]) && e in LevelsSet(v)
  {
  }

  /* ---- Lookup inside one table ---- */

  /** Index of the first entry at or after `key`. */
  function Seek(c: seq<Entry>, key: InternalKey): (i: nat)
    ensures i <= |c|
    ensures forall j :: 0 <= j < i ==> Before(c[j].IKey(), key)
    ensures i < |c| ==> !Before(c[i].IKey(), key)
  {
    if c == [] || !Before(c[0].IKey(), key) then 0 else 1 + Seek(c[1..], key)
  }

  /** What a table or memtable lookup hands to its caller: the entry it lands on if the user key matches. */
  function SeekGet(c: seq<Entry>, k: UserKey, s: SequenceNumber): Option<Entry> {
    var i := Seek(c, LookupKey(k, s));
    if i < |c| && c[i].key == k then Some(c[i]) else None
  }

  lemma SeekGetNewest(c: seq<Entry>, k: UserKey, s: SequenceNumber)
    requires Sorted(c)
    ensures SeekGet(c, k, s).Some? ==> IsNewest(Elems(c), k, s, SeekGet(c, k, s).value)
    ensures SeekGet(c, k, s).None? ==> forall x :: x in c ==> !Visible(x, k, s)
  {
    var i := Seek(c, LookupKey(k, s));
    forall x | x in c && Visible(x, k, s)
      ensures i < |c| && c[i].key == k && x.sn <= c[i].sn
    {
      var j :| 0 <= j < |c| && c[j] == x;
      assert j >= i;
      assert j > i ==> Before(c[i].IKey(), c[j].IKey());
    }
  }

  /* ---- FindFile and range overlap ---- */

  method FindFile(files: seq<File>, key: InternalKey) returns (right: nat)
    requires LevelSorted(files)
    ensures right <= |files|
    ensures forall i :: 0 <= i < right ==> Before(Largest(files[i]), key)
    ensures forall i :: right <= i < |files| ==> !Before(Largest(files[i]), key)
  {
    var left: nat := 0;
    right := |files|;
    while left < right
      invariant left <= right <= |files|
      invariant forall i :: 0 <= i < left ==> Before(Largest(files[i]), key)
      invariant forall i :: right <= i < |files| ==> !Before(Largest(files[i]), key)
    {
      var mid := (left + right) / 2;
      LargestAscending(files, mid);
      if Before(Largest(files[mid]), key) {
        left := mid + 1;
      } else {
        right := mid;
      }
    }
  }

  lemma LargestAscending(files: seq<File>, m: nat)
    requires LevelSorted(files) && m < |files|
    ensures forall i :: 0 <= i < m ==> Before(Largest(files[i]), Largest(files[m]))
    ensures forall i :: m < i < |files| ==> Before(Largest(files[m]), Largest(files[i]))
  {
    forall i | 0 <= i < |files| ensures !Before(Largest(files[i]), Smallest(files[i])) {
      FileBounds(files[i]);
    }
  }

  /** An absent bound is unbounded. */
  predicate AfterFile(lo: Option<UserKey>, f: File) {
    lo.Some? && lo.value > Hi(f)
  }

  predicate BeforeFile(hi: Option<UserKey>, f: File) {
    hi.Some? && hi.value < Lo(f)
  }

  predicate Overlaps(f: File, lo: Option<UserKey>, hi: Option<UserKey>) {
    !AfterFile(lo, f) && !BeforeFile(hi, f)
  }

  method SomeFileOverlapsRange(disjointSorted: bool, files: seq<File>, lo: Option<UserKey>, hi: Option<UserKey>)
    returns (overlap: bool)
    requires disjointSorted ==> LevelSorted(files)
    ensures overlap <==> exists f :: f in files && Overlaps(f, lo, hi)
  {
    if !disjointSorted {
      for i := 0 to |files|
        invariant forall j :: 0 <= j < i ==> !Overlaps(files[j], lo, hi)
      {
        if AfterFile(lo, files[i]) || BeforeFile(hi, files[i]) {
        } else {
          assert Overlaps(files[i], lo, hi) && files[i] in files;
          return true;
        }
      }
      return false;
    }
    var index: nat := 0;
    if lo.Some? {
      index := FindFile(files, InternalKey(lo.value, MAX_SEQUENCE, 1));
    }
    assert forall i :: 0 <= i < index ==> AfterFile(lo, files[i]);
    if index >= |files| {
      return false;
    }
    FirstCandidateDecides(files, index, lo, hi);
    return !BeforeFile(hi, files[index]);
  }

  lemma FirstCandidateDecides(files: seq<File>, index: nat, lo: Option<UserKey>, hi: Option<UserKey>)
    requires LevelSorted(files) && index < |files|
    requires forall i :: 0 <= i < index ==> AfterFile(lo, files[i])
    requires lo.Some? ==> Hi(files[index]) >= lo.value
    ensures !BeforeFile(hi, files[index]) <==> exists f :: f in files && Overlaps(f, lo, hi)
  {
    if BeforeFile(hi, files[index]) {
      forall i | index <= i < |files| ensures BeforeFile(hi, files[i]) {
        FileBounds(files[index]);
        assert i > index ==> Before(Largest(files[index]), Smallest(files[i]));
      }
    } else {
      assert Overlaps(files[index], lo, hi);
    }
  }

  /* ---- Version::Get ---- */

  /** std::sort with NewestFirst. */
  function InsertNewest(f: File, fs: seq<File>): (r: seq<File>)
    ensures forall g :: g in r <==> g == f || g in fs
  {
    if fs == [] || f.number > fs[0].number then [f] + fs else [fs[0]] + InsertNewest(f, fs[1..])
  }

  function NewestFirst(fs: seq<File>): (r: seq<File>)
    ensures forall g :: g in r <==> g in fs
  {
    if fs == [] then [] else InsertNewest(fs[0], NewestFirst(fs[1..]))
  }

  ghost predicate Descending(fs: seq<File>) {
    forall i, j :: 0 <= i < j < |fs| ==> fs[i].number >= fs[j].number
  }

  lemma {:induction false} InsertNewestDescending(f: File, fs: seq<File>)
    requires Descending(fs)
    ensures Descending(InsertNewest(f, fs))
  {
    if fs != [] && f.number <= fs[0].number {
      InsertNewestDescending(f, fs[1..]);
      var r := InsertNewest(f, fs[1..]);
      forall j | 0 <= j < |r| ensures fs[0].number >= r[j].number {
        assert r[j] in r;
      }
    }
  }

  lemma {:induction false} NewestFirstDescending(fs: seq<File>)
    ensures Descending(NewestFirst(fs))
  {
    if fs != [] {
      NewestFirstDescending(fs[1..]);
      InsertNewestDescending(fs[0], NewestFirst(fs[1..]));
    }
  }

  ghost predicate HasNewer(f: File, k: UserKey, s: SequenceNumber, x: Entry) {
    exists y :: y in f.contents && Visible(y, k, s) && x.sn <= y.sn
  }

  /**
    The files a lookup of `k` searches in one level, in search order.  A file left out holds no
    entry the lookup could answer with, save ones that the first searched file supersedes.
   */
  ghost predicate Candidates(fs: seq<File>, k: UserKey, s: SequenceNumber, files: seq<File>) {
    && (forall f :: f in files ==> f in fs)
    && (forall f, x :: f in fs && f !in files && x in f.contents && Visible(x, k, s) ==>
         files != [] && HasNewer(files[0], k, s, x))
    && (forall i, j :: 0 <= i < j < |files| ==>
         files[i] == files[j] || Newer(Elems(files[i].contents), Elems(files[j].contents)))
  }

  method FilesToSearch(v: Levels, level: nat, k: UserKey, s: SequenceNumber) returns (files: seq<File>)
    requires VersionOk(v) && level < NUM_LEVELS
    ensures Candidates(v[level], k, s, files)
  {
    if level == 0 {
      var tmp: seq<File> := [];
      for i := 0 to |v[0]|
        invariant forall f :: f in tmp ==> f in v[0][..i]
        invariant forall f :: f in v[0][..i] && Lo(f) <= k <= Hi(f) ==> f in tmp
      {
        var f := v[0][i];
        if k >= Lo(f) && k <= Hi(f) {
          tmp := tmp + [f];
        }
      }
      files := NewestFirst(tmp);
      NewestFirstDescending(tmp);
      SearchedAtLevel0(v[0], k, s, files);
    } else {
      var index := FindFile(v[level], LookupKey(k, s));
      files := [];
      if index < |v[level]| {
        var f := v[level][index];
        if k < Lo(f) {
        } else {
          files := [f];
        }
      }
      SearchedAbove(v[level], k, s, index, files);
    }
  }

  lemma SearchedAtLevel0(fs: seq<File>, k: UserKey, s: SequenceNumber, files: seq<File>)
    requires NewestByNumber(fs) && DistinctNumbers(fs) && Descending(files)
    requires forall f :: f in files ==> f in fs
    requires forall f :: f in fs && Lo(f) <= k <= Hi(f) ==> f in files
    ensures Candidates(fs, k, s, files)
  {
    forall f, x | f in fs && f !in files && x in f.contents ensures !Visible(x, k, s) {
      WithinFile(f, x);
    }
  }

  lemma SearchedAbove(fs: seq<File>, k: UserKey, s: SequenceNumber, index: nat, files: seq<File>)
    requires LevelSorted(fs) && index <= |fs|
    requires forall i :: 0 <= i < index ==> Before(Largest(fs[i]), LookupKey(k, s))
    requires index < |fs| ==> !Before(Largest(fs[index]), LookupKey(k, s))
    requires files == if index < |fs| && Lo(fs[index]) <= k then [fs[index]] else []
    ensures Candidates(fs, k, s, files)
  {
    forall f, x | f in fs && f !in files && x in f.contents && Visible(x, k, s)
      ensures files != [] && HasNewer(files[0], k, s, x)
    {
      var i :| 0 <= i < |fs| && fs[i] == f;
      LeftOutAbove(fs, k, s, index, i, x);
    }
  }

  lemma LeftOutAbove(fs: seq<File>, k: UserKey, s: SequenceNumber, index: nat, i: nat, x: Entry)
    requires LevelSorted(fs) && i < |fs| && index <= |fs| && x in fs[i].contents && Visible(x, k, s)
    requires i < index ==> Before(Largest(fs[i]), LookupKey(k, s))
    requires index < |fs| ==> !Before(Largest(fs[index]), LookupKey(k, s))
    ensures i >= index && Lo(fs[index]) <= k
    ensures i > index ==> HasNewer(fs[index], k, s, x)
  {
    WithinFile(fs[i], x);
    assert i >= index;
    var g := fs[index];
    FileBounds(g);
    if i > index {
      assert Before(Largest(g), Smallest(fs[i]));
      assert g.contents[|g.contents| - 1] in g.contents;
    }
  }

  /** Finding `e` in a candidate, with nothing visible in the candidates before it, settles the level. */
  lemma NewestOfLevel(fs: seq<File>, k: UserKey, s: SequenceNumber, files: seq<File>, i: nat, e: Entry, x: Entry)
    requires Candidates(fs, k, s, files)
    requires i < |files| && IsNewest(Elems(files[i].contents), k, s, e)
    requires forall j, x :: 0 <= j < i && x in files[j].contents ==> !Visible(x, k, s)
    requires x in FileSet(fs) && Visible(x, k, s)
    ensures x.sn <= e.sn
  {
    var g :| g in fs && x in g.contents;
    var y, j := x, 0;
    if g in files {
      j :| 0 <= j < |files| && files[j] == g;
    } else {
      y :| y in files[0].contents && Visible(y, k, s) && x.sn <= y.sn;
    }
    assert y in Elems(files[j].contents) && e in Elems(files[i].contents);
    assert i <= j;
  }

  lemma FoundIsNewest(v: Levels, level: nat, k: UserKey, s: SequenceNumber, files: seq<File>, i: nat, e: Entry)
    requires VersionOk(v) && level < NUM_LEVELS && Candidates(v[level], k, s, files)
    requires i < |files| && IsNewest(Elems(files[i].contents), k, s, e)
    requires forall j, x :: 0 <= j < i && x in files[j].contents ==> !Visible(x, k, s)
    requires forall j, x :: 0 <= j < level && x in FileSet(v[j]) ==> !Visible(x, k, s)
    ensures ReadSet(LevelsSet(v), k, s) == Outcome(e.op)
  {
    InLevels(v, level, files[i], e);
    forall x | x in LevelsSet(v) && Visible(x, k, s) ensures x.sn <= e.sn {
      var l :| 0 <= l < NUM_LEVELS && x in FileSet(v[l]);
      if l == level {
        NewestOfLevel(v[l], k, s, files, i, e, x);
      } else {
        assert Newer(FileSet(v[level]), FileSet(v[l]));
      }
    }
    ReadSetFound(LevelsSet(v), k, s, e);
  }

  lemma NotInLevel(fs: seq<File>, k: UserKey, s: SequenceNumber, files: seq<File>)
    requires Candidates(fs, k, s, files)
    requires forall j, x :: 0 <= j < |files| && x in files[j].contents ==> !Visible(x, k, s)
    ensures forall x :: x in FileSet(fs) ==> !Visible(x, k, s)
  {
    forall x | x in FileSet(fs) ensures !Visible(x, k, s) {
      var g :| g in fs && x in g.contents;
      assert g !in files && Visible(x, k, s) ==> files != [] && HasNewer(files[0], k, s, x);
    }
  }

  /** Version::Get searches level by level and stops at the first entry of the user key it lands on. */
  method Get(v: Levels, k: UserKey, s: SequenceNumber) returns (r: Option<Value>)
    requires VersionOk(v)
    ensures r == ReadSet(LevelsSet(v), k, s)
  {
    for level := 0 to NUM_LEVELS
      invariant forall l, x :: 0 <= l < level && x in FileSet(v[l]) ==> !Visible(x, k, s)
    {
      var files := FilesToSearch(v, level, k, s);
      for i := 0 to |files|
        invariant forall j, x :: 0 <= j < i && x in files[j].contents ==> !Visible(x, k, s)
      {
        SeekGetNewest(files[i].contents, k, s);
        var saved := SeekGet(files[i].contents, k, s);
        if saved.Some? {
          FoundIsNewest(v, level, k, s, files, i, saved.value);
          return Outcome(saved.value.op);
        }
      }
      NotInLevel(v[level], k, s, files);
    }
    ReadSetMissing(LevelsSet(v), k, s);
    return None;
  }
}
