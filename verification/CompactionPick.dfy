/**
  Assembling a compaction: PickCompaction, CompactRange and SetupOtherInputs, and what every
  assembled compaction guarantees to the step that installs its outputs.
 */
module CompactionPick {
  import opened Wrappers
  import opened DbFormat
  import opened Versions
  import opened CompactionInputs

  /** `g` reaches the user-key hull of `fs`. */
  ghost predicate Meets(g: File, fs: seq<File>) {
    exists a, b :: a in fs && b in fs && Lo(a) <= Hi(g) && Lo(g) <= Hi(b)
  }

  /** Every file of the level that reaches the hull of `fs` belongs to `fs`. */
  ghost predicate UserClosed(level: seq<File>, fs: seq<File>) {
    forall g :: g in level && Meets(g, fs) ==> g in fs
  }

  /** `g` comes before all of `fs`, or after all of it. */
  ghost predicate Apart(g: File, fs: seq<File>) {
    || (forall f :: f in fs ==> Before(Largest(g), Smallest(f)))
    || (forall f :: f in fs ==> Before(Largest(f), Smallest(g)))
  }

  predicate Disjoint(f: File, g: File) {
    Before(Largest(f), Smallest(g)) || Before(Largest(g), Smallest(f))
  }

  /** What SetupOtherInputs is handed in its own level. */
  ghost predicate Chosen(v: Levels, level: nat, fs: seq<File>)
    requires level < NUM_LEVELS
  {
    && fs != [] && (forall f :: f in fs ==> f in v[level])
    && (if level == 0 then UserClosed(v[0], fs) else Convex(v[level], fs))
  }

  /**
    Inputs that may be replaced by their merge at level + 1: what stays behind in the level is newer,
    and what stays in the level below them is entirely to one side.
   */
  ghost predicate ValidInputs(v: Levels, level: nat, i0: seq<File>, i1: seq<File>) {
    && level + 1 < NUM_LEVELS && i0 != []
    && (forall f :: f in i0 ==> f in v[level]) && (forall f :: f in i1 ==> f in v[level + 1])
    && (forall g, f :: g in v[level] && g !in i0 && f in i0 ==> Newer(Elems(g.contents), Elems(f.contents)))
    && (forall g :: g in v[level + 1] && g !in i1 ==> Apart(g, i0 + i1))
  }

  ghost predicate Tidy(v: Levels) {
    forall i :: 0 <= i < NUM_LEVELS ==> (i > 0 ==> LevelSorted(v[i])) && Unique(FileSet(v[i]))
  }

  /* ---- Why what stays in the level is newer ---- */

  lemma NewerIfUserClosed(level: seq<File>, fs: seq<File>, g: File, f: File)
    requires UserClosed(level, fs) && g in level && g !in fs && f in fs
    ensures Newer(Elems(g.contents), Elems(f.contents))
  {
    forall x, y | x in g.contents && y in f.contents ensures x.key != y.key {
      WithinFile(g, x);
      WithinFile(f, y);
      assert !Meets(g, fs);
    }
  }

  lemma UserClosedHasNoBoundary(level: seq<File>, fs: seq<File>)
    requires UserClosed(level, fs) && forall f :: f in fs ==> f in level
    ensures BoundaryClosed(level, fs)
  {
    forall key, f | IsLargestKey(fs, key) && f in level ensures !IsBoundary(f, key) {
      FileBounds(f);
      var last :| last in fs && Largest(last) == key;
      FileBounds(last);
      assert IsBoundary(f, key) ==> Meets(f, fs);
    }
  }

  lemma NewerIfBoundaryClosed(level: seq<File>, fs: seq<File>, g: File, f: File)
    requires LevelSorted(level) && Convex(level, fs) && BoundaryClosed(level, fs) && Unique(FileSet(level))
    requires g in level && g !in fs && f in fs
    ensures Newer(Elems(g.contents), Elems(f.contents))
  {
    var gi :| 0 <= gi < |level| && level[gi] == g;
    var fi :| 0 <= fi < |level| && level[fi] == f;
    forall x, y | x in g.contents && y in f.contents && x.key == y.key ensures x.sn > y.sn {
      WithinFile(g, x);
      WithinFile(f, y);
      if fi < gi {
        LaterSharesNoKey(level, fs, fi, gi);
      }
      InOrder(level, gi, fi);
      assert x in FileSet(level) && y in FileSet(level);
    }
  }

  lemma LaterSharesNoKey(level: seq<File>, fs: seq<File>, fi: nat, gi: nat)
    requires LevelSorted(level) && Convex(level, fs) && BoundaryClosed(level, fs)
    requires fi < gi < |level| && level[fi] in fs && level[gi] !in fs
    ensures Hi(level[fi]) < Lo(level[gi])
  {
    var key := LargestOf(fs, level[fi]);
    var last :| last in fs && Largest(last) == key;
    var li :| 0 <= li < |level| && level[li] == last;
    InOrder(level, li, fi);
    InOrder(level, fi, gi);
    assert fi <= li < gi;
    InOrder(level, li, gi);
    assert !IsBoundary(level[gi], key);
    FileBounds(last);
    if fi < li {
      InOrder(level, fi, li);
    }
  }

  lemma LargestOf(fs: seq<File>, f: File) returns (key: InternalKey)
    requires f in fs
    ensures IsLargestKey(fs, key)
  {
    key := Largest(f);
    var best := f;
    for i := 0 to |fs|
      invariant best in fs && Largest(best) == key
      invariant forall j :: 0 <= j < i ==> !Before(key, Largest(fs[j]))
    {
      if Before(key, Largest(fs[i])) {
        key, best := Largest(fs[i]), fs[i];
      }
    }
  }

  /* ---- Why level + 1 splits around the inputs ---- */

  lemma ApartFromInputs(below: seq<File>, i0: seq<File>, i1: seq<File>, g: File)
    requires LevelSorted(below) && i0 != []
    requires forall f :: f in i1 <==> f in below && Meets(f, i0)
    requires g in below && g !in i1
    ensures Apart(g, i0 + i1)
  {
    var f0 := i0[0];
    FileBounds(g);
    FileBounds(f0);
    assert !Meets(g, i0);
    assert f0 in i0;
    forall f | f in i0 ensures Hi(g) < Lo(f0) ==> Hi(g) < Lo(f)
      ensures Hi(f0) < Lo(g) ==> Hi(f) < Lo(g) {
      FileBounds(f);
    }
    forall f | f in i1 ensures Hi(g) < Lo(f0) ==> Before(Largest(g), Smallest(f))
      ensures Hi(f0) < Lo(g) ==> Before(Largest(f), Smallest(g)) {
      FileBounds(f);
      var a, b :| a in i0 && b in i0 && Lo(a) <= Hi(f) && Lo(f) <= Hi(b);
      var gi :| 0 <= gi < |below| && below[gi] == g;
      var fi :| 0 <= fi < |below| && below[fi] == f;
      InOrder(below, gi, fi);
      InOrder(below, fi, gi);
    }
  }

  lemma OverlappingIsMeeting(level: seq<File>, fs: seq<File>, smallest: InternalKey, largest: InternalKey)
    requires IsRange(fs, smallest, largest)
    ensures forall f :: f in Overlapping(level, Some(smallest.user), Some(largest.user)) <==> f in level && Meets(f, fs)
  {
    var a :| a in fs && Smallest(a) == smallest;
    var b :| b in fs && Largest(b) == largest;
    forall f | f in level
      ensures Overlaps(f, Some(smallest.user), Some(largest.user)) <==> Meets(f, fs)
    {
      if x, y :| x in fs && y in fs && Lo(x) <= Hi(f) && Lo(f) <= Hi(y) {
        assert !Before(Smallest(x), smallest) && !Before(largest, Largest(y));
      }
      if Overlaps(f, Some(smallest.user), Some(largest.user)) {
        assert Lo(a) <= Hi(f) && Lo(f) <= Hi(b);
      }
    }
  }

  lemma OverlappingIsConvex(level: seq<File>, lo: Option<UserKey>, hi: Option<UserKey>)
    requires LevelSorted(level)
    ensures Convex(level, Overlapping(level, lo, hi))
  {
    var r := Overlapping(level, lo, hi);
    forall a, b, c | 0 <= a < b < c < |level| && level[a] in r && level[c] in r ensures level[b] in r {
      InOrder(level, a, b);
      InOrder(level, b, c);
      FileBounds(level[b]);
    }
  }

  /** Widening the range of a search keeps the files found; with no more of them, they are the same. */
  lemma {:induction false} OverlappingGrows(fs: seq<File>, lo: UserKey, hi: UserKey, lo': UserKey, hi': UserKey)
    requires lo' <= lo && hi <= hi'
    ensures |Overlapping(fs, Some(lo), Some(hi))| <= |Overlapping(fs, Some(lo'), Some(hi'))|
    ensures |Overlapping(fs, Some(lo), Some(hi))| == |Overlapping(fs, Some(lo'), Some(hi'))| ==>
              Overlapping(fs, Some(lo), Some(hi)) == Overlapping(fs, Some(lo'), Some(hi'))
  {
    if fs != [] {
      OverlappingGrows(fs[..|fs| - 1], lo, hi, lo', hi');
    }
  }

  lemma LeastClosedIsUserClosed(level: seq<File>, begin: Option<UserKey>, end: Option<UserKey>,
                                lo: Option<UserKey>, hi: Option<UserKey>)
    requires LeastClosed(level, begin, end, lo, hi)
    ensures UserClosed(level, Overlapping(level, lo, hi))
  {
    var r := Overlapping(level, lo, hi);
    forall g | g in level && Meets(g, r) ensures g in r {
      var a, b :| a in r && b in r && Lo(a) <= Hi(g) && Lo(g) <= Hi(b);
      assert Inside(a, lo, hi) && Inside(b, lo, hi);
    }
  }

  /* ---- SetupOtherInputs ---- */

  /** The least closed range of level 0, or the range itself. */
  ghost predicate Searched(level: nat, files: seq<File>, begin: UserKey, end: UserKey, lo: Option<UserKey>, hi: Option<UserKey>) {
    if level == 0 then LeastClosed(files, Some(begin), Some(end), lo, hi) else lo == Some(begin) && hi == Some(end)
  }

  /** The files of the level that GetOverlappingInputs finds for the range of `fs`. */
  ghost predicate Reached(level: nat, files: seq<File>, fs: seq<File>, r: seq<File>) {
    exists s, l, lo, hi :: IsRange(fs, s, l) && Searched(level, files, s.user, l.user, lo, hi) && r == Overlapping(files, lo, hi)
  }

  /** The files that the whole compaction reaches in its own level, with those that continue their last key. */
  ghost predicate Expansion(v: Levels, level: nat, i0: seq<File>, i1: seq<File>, e: seq<File>)
    requires level < NUM_LEVELS
  {
    BoundaryClosed(v[level], e) && exists found :: Reached(level, v[level], i0 + i1, found) && Chained(v[level], found, e)
  }

  /** Files of `level` meeting the whole compaction, with their boundary files; still one gap-free block. */
  method ExpandedInputs(v: Levels, level: nat, i0: seq<File>, i1: seq<File>)
    returns (expanded0: seq<File>)
    requires level + 1 < NUM_LEVELS && Tidy(v) && Chosen(v, level, i0)
    ensures Chosen(v, level, expanded0) && Expansion(v, level, i0, i1, expanded0)
    ensures forall f :: f in i0 ==> f in expanded0
    ensures GapFree(i0 + i1) ==> GapFree(expanded0 + i1)
  {
    var allStart, allLimit := GetRange(i0 + i1);
    var found;
    ghost var lo, hi;
    found, lo, hi := GetOverlappingInputs(level, v[level], Some(allStart.user), Some(allLimit.user));
    forall f | f in i0 ensures f in found {
      assert f in i0 + i1;
      FileBounds(f);
    }
    assert i0[0] in found;
    assert Reached(level, v[level], i0 + i1, found);
    if GapFree(i0 + i1) {
      GapFreeExpansion(v, level, i0, i1, allStart, allLimit, lo, hi);
    }
    if level == 0 {
      LeastClosedIsUserClosed(v[0], Some(allStart.user), Some(allLimit.user), lo, hi);
      UserClosedHasNoBoundary(v[0], found);
    } else {
      OverlappingIsConvex(v[level], lo, hi);
    }
    expanded0 := AddBoundaryInputs(v[level], found, i1);
  }

  lemma GapFreeExpansion(v: Levels, level: nat, i0: seq<File>, i1: seq<File>, allStart: InternalKey,
                         allLimit: InternalKey, lo: Option<UserKey>, hi: Option<UserKey>)
    requires level < NUM_LEVELS && i0 != [] && IsRange(i0 + i1, allStart, allLimit) && GapFree(i0 + i1)
    requires level > 0 ==> lo == Some(allStart.user) && hi == Some(allLimit.user)
    requires level == 0 ==> LeastClosed(v[0], Some(allStart.user), Some(allLimit.user), lo, hi)
    requires forall f :: f in i0 ==> f in Overlapping(v[level], lo, hi)
    ensures GapFree(Overlapping(v[level], lo, hi) + i1)
  {
    var found := Overlapping(v[level], lo, hi);
    var all := i0 + i1;
    var a :| a in all && Smallest(a) == allStart;
    var b :| b in all && Largest(b) == allLimit;
    if level == 0 {
      GapFreeLeastClosed(all, v[0], allStart.user, allLimit.user, lo, hi);
    } else {
      GapFreeAddAll(all, found, a, b);
    }
    GapFreeSame(all + found, found + i1);
  }

  lemma ValidAssembly(v: Levels, level: nat, i0: seq<File>, i1: seq<File>)
    requires level + 1 < NUM_LEVELS && Tidy(v) && Chosen(v, level, i0) && BoundaryClosed(v[level], i0)
    requires forall f :: f in i1 <==> f in v[level + 1] && Meets(f, i0)
    ensures ValidInputs(v, level, i0, i1)
  {
    forall g, f | g in v[level] && g !in i0 && f in i0 ensures Newer(Elems(g.contents), Elems(f.contents)) {
      if level == 0 {
        NewerIfUserClosed(v[0], i0, g, f);
      } else {
        NewerIfBoundaryClosed(v[level], i0, g, f);
      }
    }
    forall g | g in v[level + 1] && g !in i1 ensures Apart(g, i0 + i1) {
      ApartFromInputs(v[level + 1], i0, i1, g);
    }
  }

  datatype Picked = Picked(level: nat, i0: seq<File>, i1: seq<File>, grandparents: seq<File>, largest: InternalKey)

  method FilesReached(level: nat, files: seq<File>, fs: seq<File>) returns (r: seq<File>)
    requires level > 0 && fs != []
    ensures Reached(level, files, fs, r)
    ensures forall f :: f in r <==> f in files && Meets(f, fs)
    ensures exists s, l :: IsRange(fs, s, l) && r == Overlapping(files, Some(s.user), Some(l.user))
  {
    var smallest, largest := GetRange(fs);
    var found, lo, hi := GetOverlappingInputs(level, files, Some(smallest.user), Some(largest.user));
    OverlappingIsMeeting(files, fs, smallest, largest);
    r := found;
  }

  /** More files in the level that meet no more files below meet the same files below. */
  lemma SameBelow(below: seq<File>, i0: seq<File>, i1: seq<File>, e0: seq<File>, e1: seq<File>)
    requires exists s, l :: IsRange(i0, s, l) && i1 == Overlapping(below, Some(s.user), Some(l.user))
    requires exists s, l :: IsRange(e0, s, l) && e1 == Overlapping(below, Some(s.user), Some(l.user))
    requires (forall f :: f in i0 ==> f in e0) && |e1| == |i1|
    ensures e1 == i1
  {
    var s, l :| IsRange(i0, s, l) && i1 == Overlapping(below, Some(s.user), Some(l.user));
    var s', l' :| IsRange(e0, s', l') && e1 == Overlapping(below, Some(s'.user), Some(l'.user));
    WiderRange(i0, s, l, e0, s', l');
    OverlappingGrows(below, s.user, l.user, s'.user, l'.user);
  }

  /** Searches that find the same files find the same list. */
  lemma {:induction false} SameFound(fs: seq<File>, lo: Option<UserKey>, hi: Option<UserKey>, lo': Option<UserKey>, hi': Option<UserKey>)
    requires forall f :: f in fs ==> (Overlaps(f, lo, hi) <==> Overlaps(f, lo', hi'))
    ensures Overlapping(fs, lo, hi) == Overlapping(fs, lo', hi')
  {
    if fs != [] {
      SameFound(fs[..|fs| - 1], lo, hi, lo', hi');
    }
  }

  /** With no further file met below, as many as before are found there. */
  lemma NoMoreBelow(below: seq<File>, i0: seq<File>, i1: seq<File>, e0: seq<File>, e1: seq<File>)
    requires exists s, l :: IsRange(i0, s, l) && i1 == Overlapping(below, Some(s.user), Some(l.user))
    requires exists s, l :: IsRange(e0, s, l) && e1 == Overlapping(below, Some(s.user), Some(l.user))
    requires (forall f :: f in i0 ==> f in e0) && forall f :: f in e1 ==> f in i1
    ensures e1 == i1
  {
    var s, l :| IsRange(i0, s, l) && i1 == Overlapping(below, Some(s.user), Some(l.user));
    var s', l' :| IsRange(e0, s', l') && e1 == Overlapping(below, Some(s'.user), Some(l'.user));
    WiderRange(i0, s, l, e0, s', l');
    forall f | f in below ensures Overlaps(f, Some(s.user), Some(l.user)) <==> Overlaps(f, Some(s'.user), Some(l'.user)) {
      assert f in i1 <==> Overlaps(f, Some(s.user), Some(l.user));
      assert f in e1 <==> Overlaps(f, Some(s'.user), Some(l'.user));
    }
    SameFound(below, Some(s.user), Some(l.user), Some(s'.user), Some(l'.user));
  }

  /** The inputs are grown to `e` if those are more, not too big, and reach no further file of the level below. */
  ghost predicate Grows(v: Levels, level: nat, i0: seq<File>, i1: seq<File>, e: seq<File>, maxFileSize: nat)
    requires level + 1 < NUM_LEVELS
  {
    && i1 != [] && |e| > |i0| && TotalFileSize(i1) + TotalFileSize(e) < 25 * maxFileSize
    && forall f :: f in v[level + 1] && Meets(f, e) ==> f in i1
  }

  lemma ExpansionClosed(v: Levels, level: nat, i0: seq<File>, i1: seq<File>, e: seq<File>)
    requires level < NUM_LEVELS && Expansion(v, level, i0, i1, e)
    ensures BoundaryClosed(v[level], e)
  {
  }

  /** Grow the inputs of the level when that drags in no further file of the level below. */
  method GrowInputs(v: Levels, level: nat, i0: seq<File>, i1: seq<File>, maxFileSize: nat)
    returns (r0: seq<File>, r1: seq<File>, ghost e: seq<File>)
    requires level + 1 < NUM_LEVELS && Tidy(v) && Chosen(v, level, i0) && BoundaryClosed(v[level], i0)
    requires forall f :: f in i1 <==> f in v[level + 1] && Meets(f, i0)
    requires exists s, l :: IsRange(i0, s, l) && i1 == Overlapping(v[level + 1], Some(s.user), Some(l.user))
    ensures Chosen(v, level, r0) && BoundaryClosed(v[level], r0)
    ensures forall f :: f in i0 ==> f in r0
    ensures r1 == i1 && forall f :: f in r1 <==> f in v[level + 1] && Meets(f, r0)
    ensures GapFree(i0 + i1) ==> GapFree(r0 + r1)
    ensures i1 != [] ==> Expansion(v, level, i0, i1, e)
    ensures r0 == if Grows(v, level, i0, i1, e, maxFileSize) then e else i0
  {
    hide Expansion, Tidy, GapFree, IsRange, Meets;
    r0, r1, e := i0, i1, i0;
    if i1 != [] {
      var expanded0 := ExpandedInputs(v, level, i0, i1);
      e := expanded0;
      ExpansionClosed(v, level, i0, i1, e);
      if |expanded0| > |i0| && TotalFileSize(i1) + TotalFileSize(expanded0) < 25 * maxFileSize {
        var expanded1 := FilesReached(level + 1, v[level + 1], expanded0);
        if |expanded1| == |i1| {
          SameBelow(v[level + 1], i0, i1, expanded0, expanded1);
          r0, r1 := expanded0, expanded1;
        } else if Grows(v, level, i0, i1, e, maxFileSize) {
          NoMoreBelow(v[level + 1], i0, i1, expanded0, expanded1);
        }
      }
    }
  }

  lemma ChosenIs(v: Levels, level: nat, fs: seq<File>)
    requires level < NUM_LEVELS && Tidy(v) && Chosen(v, level, fs)
    ensures fs != [] && (forall f :: f in fs ==> f in v[level])
    ensures if level == 0 then UserClosed(v[0], fs) else LevelSorted(v[level]) && Convex(v[level], fs)
  {
    hide LevelSorted, Convex, UserClosed, Unique;
  }

  lemma StillChosen(v: Levels, level: nat, fs: seq<File>, r: seq<File>)
    requires level < NUM_LEVELS && Chosen(v, level, fs) && fs <= r && forall f :: f in r ==> f in fs || f in v[level]
    requires if level == 0 then r == fs else Convex(v[level], r)
    ensures Chosen(v, level, r) && r != [] && forall f :: f in fs ==> f in r
  {
    hide Convex, UserClosed;
  }

  method InitialInputs(v: Levels, level: nat, inputs: seq<File>) returns (i0: seq<File>, i1: seq<File>)
    requires level + 1 < NUM_LEVELS && Chosen(v, level, inputs) && Tidy(v)
    ensures Chosen(v, level, i0) && Chained(v[level], inputs, i0) && BoundaryClosed(v[level], i0)
    ensures forall f :: f in inputs ==> f in i0
    ensures forall f :: f in i1 <==> f in v[level + 1] && Meets(f, i0)
    ensures exists s, l :: IsRange(i0, s, l) && i1 == Overlapping(v[level + 1], Some(s.user), Some(l.user))
    ensures GapFree(inputs) ==> GapFree(i0 + i1)
  {
    hide Chained, GapFree, Meets, IsRange, Overlapping, BoundaryClosed, Tidy, Chosen, Convex, LevelSorted;
    ChosenIs(v, level, inputs);
    if level == 0 {
      UserClosedHasNoBoundary(v[0], inputs);
    }
    i0 := AddBoundaryInputs(v[level], inputs, []);
    assert inputs + [] == inputs && i0 + [] == i0;
    StillChosen(v, level, inputs, i0);
    i1 := FilesReached(level + 1, v[level + 1], i0);
    if GapFree(inputs) {
      JoinsWithoutGap(i0, i1);
    }
  }

  /**
    `c` is what is made of the files `start`: those that continue them, grown if possible, with all files of the
    level below that they meet; and for later, the files two levels below and the key to go on behind.
   */
  ghost predicate Assembled(v: Levels, level: nat, start: seq<File>, maxFileSize: nat, c: Picked) {
    && level + 1 < NUM_LEVELS && c.level == level
    && (exists i0, e ::
         && Chained(v[level], start, i0) && BoundaryClosed(v[level], i0)
         && (c.i1 != [] ==> Expansion(v, level, i0, c.i1, e))
         && c.i0 == (if Grows(v, level, i0, c.i1, e, maxFileSize) then e else i0))
    && (forall f :: f in c.i1 <==> f in v[level + 1] && Meets(f, c.i0))
    && (if level + 2 < NUM_LEVELS then Reached(level + 2, v[level + 2], c.i0 + c.i1, c.grandparents) else c.grandparents == [])
    && exists s :: IsRange(c.i0, s, c.largest)
  }

  method SetupOtherInputs(v: Levels, level: nat, inputs: seq<File>, maxFileSize: nat) returns (c: Picked)
    requires level + 1 < NUM_LEVELS && Tidy(v) && Chosen(v, level, inputs)
    ensures Assembled(v, level, inputs, maxFileSize, c) && ValidInputs(v, level, c.i0, c.i1)
    ensures forall f :: f in inputs ==> f in c.i0
    ensures GapFree(inputs) ==> GapFree(c.i0 + c.i1)
  {
    hide Tidy, ValidInputs, GapFree, Chosen, Expansion, Meets, BoundaryClosed, Overlapping, Grows, Reached, Chained, Assembled, IsRange;
    var i0, i1 := InitialInputs(v, level, inputs);
    var r0, r1, e := GrowInputs(v, level, i0, i1, maxFileSize);
    ValidAssembly(v, level, r0, r1);
    var grandparents: seq<File> := [];
    NotEmpty(v, level, r0, r1);
    if level + 2 < NUM_LEVELS {
      grandparents := FilesReached(level + 2, v[level + 2], r0 + r1);
    }
    var smallest, largest := GetRange(r0);
    c := Picked(level, r0, r1, grandparents, largest);
    AssembledFrom(v, level, inputs, maxFileSize, c, i0, e, smallest);
  }

  lemma AssembledFrom(v: Levels, level: nat, start: seq<File>, maxFileSize: nat, c: Picked, i0: seq<File>, e: seq<File>,
                      smallest: InternalKey)
    requires level + 1 < NUM_LEVELS && c.level == level
    requires Chained(v[level], start, i0) && BoundaryClosed(v[level], i0)
    requires c.i1 != [] ==> Expansion(v, level, i0, c.i1, e)
    requires c.i0 == if Grows(v, level, i0, c.i1, e, maxFileSize) then e else i0
    requires forall f :: f in c.i1 <==> f in v[level + 1] && Meets(f, c.i0)
    requires if level + 2 < NUM_LEVELS then Reached(level + 2, v[level + 2], c.i0 + c.i1, c.grandparents) else c.grandparents == []
    requires IsRange(c.i0, smallest, c.largest)
    ensures Assembled(v, level, start, maxFileSize, c)
  {
    hide Chained, BoundaryClosed, Expansion, Grows, Meets, Reached, IsRange;
  }

  lemma NotEmpty(v: Levels, level: nat, i0: seq<File>, i1: seq<File>)
    requires ValidInputs(v, level, i0, i1)
    ensures i0 != []
  {
  }

  lemma JoinsWithoutGap(i0: seq<File>, i1: seq<File>)
    requires GapFree(i0) && i0 != [] && forall f :: f in i1 ==> Meets(f, i0)
    ensures GapFree(i0 + i1)
  {
    if i1 == [] {
      assert i0 + i1 == i0;
    } else {
      var smallest, largest := RangeOf(i0);
      var a :| a in i0 && Smallest(a) == smallest;
      var b :| b in i0 && Largest(b) == largest;
      forall g | g in i1 ensures Lo(a) <= Hi(g) && Lo(g) <= Hi(b) {
        var x, y :| x in i0 && y in i0 && Lo(x) <= Hi(g) && Lo(g) <= Hi(y);
        assert !Before(Smallest(x), smallest) && !Before(largest, Largest(y));
      }
      GapFreeAddAll(i0, i1, a, b);
    }
  }

  lemma {:induction false} RangeOf(fs: seq<File>) returns (smallest: InternalKey, largest: InternalKey)
    requires fs != []
    ensures IsRange(fs, smallest, largest)
  {
    if |fs| == 1 {
      smallest, largest := Smallest(fs[0]), Largest(fs[0]);
      FileBounds(fs[0]);
      assert fs[0] in fs;
    } else {
      var n := |fs| - 1;
      var s, l := RangeOf(fs[..n]);
      assert fs == fs[..n] + [fs[n]];
      smallest := if Before(Smallest(fs[n]), s) then Smallest(fs[n]) else s;
      largest := if Before(l, Largest(fs[n])) then Largest(fs[n]) else l;
      RangeAdd(fs[..n], fs[n], s, l, smallest, largest);
    }
  }

  lemma WiderRange(fs: seq<File>, s: InternalKey, l: InternalKey, gs: seq<File>, s': InternalKey, l': InternalKey)
    requires IsRange(fs, s, l) && IsRange(gs, s', l') && forall f :: f in fs ==> f in gs
    ensures s'.user <= s.user && l.user <= l'.user
  {
    var a :| a in fs && Smallest(a) == s;
    var b :| b in fs && Largest(b) == l;
    assert !Before(Smallest(a), s') && !Before(l', Largest(b));
  }

  /* ---- PickCompaction and CompactRange ---- */

  /** Why a compaction starts: a level is too big, a file cost too many seeks, or neither. */
  datatype Trigger = TooBig(level: nat) | TooManySeeks(level: nat, file: File) | Nothing

  ghost predicate TriggerOk(v: Levels, t: Trigger) {
    match t
    case TooBig(level) => level + 1 < NUM_LEVELS && v[level] != []
    case TooManySeeks(level, f) => level + 1 < NUM_LEVELS && f in v[level]
    case Nothing => true
  }

  predicate IsPast(f: File, pointer: Option<InternalKey>) {
    pointer.None? || Before(pointer.value, Largest(f))
  }

  /** Place `i` holds the first file past the compaction pointer, or the first file of all if none is past it. */
  ghost predicate StartsAt(files: seq<File>, pointer: Option<InternalKey>, i: nat) {
    && i < |files| && (forall j :: 0 <= j < i ==> !IsPast(files[j], pointer))
    && (IsPast(files[i], pointer) || (i == 0 && forall j :: 0 <= j < |files| ==> !IsPast(files[j], pointer)))
  }

  method FirstPastPointer(files: seq<File>, pointer: Option<InternalKey>) returns (i: nat)
    requires files != []
    ensures StartsAt(files, pointer, i)
  {
    for k := 0 to |files|
      invariant forall j :: 0 <= j < k ==> !IsPast(files[j], pointer)
    {
      if IsPast(files[k], pointer) {
        return k;
      }
    }
    return 0;
  }

  /** A compaction for the file `f` starts from it; in level 0 from all that reach it, directly or through others. */
  ghost predicate StartsWith(v: Levels, level: nat, f: File, start: seq<File>)
    requires level < NUM_LEVELS
  {
    f in start && if level == 0 then Reached(0, v[0], [f], start) else start == [f]
  }

  /** The file that a trigger calls for. */
  ghost predicate Sought(v: Levels, trigger: Trigger, pointers: seq<Option<InternalKey>>, f: File) {
    match trigger
    case TooBig(l) => l < |pointers| && l < NUM_LEVELS && exists i: nat :: StartsAt(v[l], pointers[l], i) && f == v[l][i]
    case TooManySeeks(_, file) => f == file
    case Nothing => false
  }

  /** The compaction that a trigger asks for, assembled around the file it calls for. */
  ghost predicate Triggered(v: Levels, trigger: Trigger, pointers: seq<Option<InternalKey>>, maxFileSize: nat, c: Picked) {
    && c.level < NUM_LEVELS && !trigger.Nothing? && c.level == trigger.level
    && exists f, start :: && Sought(v, trigger, pointers, f) && StartsWith(v, c.level, f, start)
                          && Assembled(v, c.level, start, maxFileSize, c)
  }

  /** Level 0: replace the picked file by everything that overlaps it, directly or through others. */
  method CloseLevel0(level0: seq<File>, f: File) returns (inputs: seq<File>)
    requires f in level0
    ensures f in inputs && Reached(0, level0, [f], inputs) && (forall g :: g in inputs ==> g in level0)
    ensures UserClosed(level0, inputs) && GapFree(inputs)
  {
    GapFreeSingle(f);
    FileBounds(f);
    var smallest, largest := GetRange([f]);
    assert f in [f] && Lo(f) == smallest.user && Hi(f) == largest.user;
    var found, lo, hi := GetOverlappingInputs(0, level0, Some(smallest.user), Some(largest.user));
    assert f in found;
    GapFreeLeastClosed([f], level0, smallest.user, largest.user, lo, hi);
    GapFreeSame([f] + found, found);
    LeastClosedIsUserClosed(level0, Some(smallest.user), Some(largest.user), lo, hi);
    inputs := found;
  }

  /** The file a compaction starts from, and with it the files of its level that must go along. */
  method StartInputs(v: Levels, trigger: Trigger, pointers: seq<Option<InternalKey>>) returns (inputs: seq<File>, ghost f: File)
    requires Tidy(v) && TriggerOk(v, trigger) && !trigger.Nothing? && |pointers| == NUM_LEVELS
    ensures Chosen(v, trigger.level, inputs) && GapFree(inputs)
    ensures Sought(v, trigger, pointers, f) && StartsWith(v, trigger.level, f, inputs)
  {
    hide Reached, StartsAt;
    var sought: File;
    match trigger {
      case TooBig(l) =>
        var i := FirstPastPointer(v[l], pointers[l]);
        WithinLevel(v[l], pointers[l], i);
        sought := v[l][i];
      case TooManySeeks(l, file) =>
        sought := file;
    }
    f := sought;
    if trigger.level == 0 {
      inputs := CloseLevel0(v[0], sought);
    } else {
      GapFreeSingle(sought);
      SingleIsConvex(v[trigger.level], sought);
      inputs := [sought];
    }
  }

  lemma WithinLevel(files: seq<File>, pointer: Option<InternalKey>, i: nat)
    requires StartsAt(files, pointer, i)
    ensures i < |files|
  {
  }

  method PickCompaction(v: Levels, trigger: Trigger, pointers: seq<Option<InternalKey>>, maxFileSize: nat)
    returns (c: Option<Picked>)
    requires Tidy(v) && TriggerOk(v, trigger) && |pointers| == NUM_LEVELS
    ensures c.Some? <==> !trigger.Nothing?
    ensures c.Some? ==> Triggered(v, trigger, pointers, maxFileSize, c.value)
    ensures c.Some? ==> ValidInputs(v, trigger.level, c.value.i0, c.value.i1) && GapFree(c.value.i0 + c.value.i1)
    ensures c.Some? ==> exists f :: f in c.value.i0 && Sought(v, trigger, pointers, f)
  {
    hide Tidy, ValidInputs, GapFree, Chosen, LevelSorted, Assembled, Sought, Reached;
    if trigger.Nothing? {
      return None;
    }
    var inputs, f := StartInputs(v, trigger, pointers);
    var picked := SetupOtherInputs(v, trigger.level, inputs, maxFileSize);
    LevelOf(v, trigger.level, inputs, maxFileSize, picked);
    c := Some(picked);
  }

  lemma LevelOf(v: Levels, level: nat, start: seq<File>, maxFileSize: nat, c: Picked)
    requires Assembled(v, level, start, maxFileSize, c)
    ensures c.level == level && (forall f :: f in c.i1 <==> f in v[level + 1] && Meets(f, c.i0))
  {
  }

  lemma TriggeredLevel(v: Levels, trigger: Trigger, pointers: seq<Option<InternalKey>>, maxFileSize: nat, c: Picked)
    requires Triggered(v, trigger, pointers, maxFileSize, c)
    ensures c.level + 1 < NUM_LEVELS && c.level == trigger.level
    ensures forall f :: f in c.i1 <==> f in v[c.level + 1] && Meets(f, c.i0)
  {
    hide Meets, Sought, StartsWith, Expansion, Grows, Chained, BoundaryClosed, Reached, IsRange;
  }

  lemma SingleIsConvex(level: seq<File>, f: File)
    requires LevelSorted(level) && f in level
    ensures Convex(level, [f])
  {
    forall a, c | 0 <= a < c < |level| && level[a] == f ensures level[c] != f {
      InOrder(level, a, c);
      FileBounds(f);
    }
  }

  lemma EmptySearch(files: seq<File>, level: nat, begin: Option<UserKey>, end: Option<UserKey>,
                    lo: Option<UserKey>, hi: Option<UserKey>)
    requires level > 0 ==> lo == begin && hi == end
    requires level == 0 ==> LeastClosed(files, begin, end, lo, hi)
    ensures Overlapping(files, lo, hi) == [] <==> forall f :: f in files ==> !Overlaps(f, begin, end)
  {
    var r := Overlapping(files, lo, hi);
    if forall f :: f in files ==> !Overlaps(f, begin, end) {
      if level == 0 {
        assert Closed(files, begin, end);
      }
      assert forall i :: 0 <= i < |r| ==> r[i] in r;
    } else {
      var f :| f in files && Overlaps(f, begin, end);
      assert f in r;
    }
  }

  /** Cutting a search short amounts to searching fewer files. */
  lemma {:induction false} SearchPrefix(fs: seq<File>, lo: Option<UserKey>, hi: Option<UserKey>, m: nat)
    returns (k: nat)
    requires m <= |Overlapping(fs, lo, hi)|
    ensures k <= |fs| && Overlapping(fs, lo, hi)[..m] == Overlapping(fs[..k], lo, hi)
  {
    hide Overlaps, Sorted;
    var r := Overlapping(fs, lo, hi);
    if m == |r| {
      k := |fs|;
      assert r[..m] == r && fs[..k] == fs;
    } else {
      var n := |fs| - 1;
      var front := Overlapping(fs[..n], lo, hi);
      k := SearchPrefix(fs[..n], lo, hi, m);
      assert fs[..n][..k] == fs[..k];
      assert r[..|front|] == front;
      assert r[..m] == front[..m];
    }
  }

  lemma PrefixIsConvex(level: seq<File>, lo: Option<UserKey>, hi: Option<UserKey>, m: nat)
    requires LevelSorted(level) && m <= |Overlapping(level, lo, hi)|
    ensures Convex(level, Overlapping(level, lo, hi)[..m])
  {
    var k := SearchPrefix(level, lo, hi, m);
    var r := Overlapping(level[..k], lo, hi);
    OverlappingIsConvex(level, lo, hi);
    forall a, b, c | 0 <= a < b < c < |level| && level[a] in r && level[c] in r ensures level[b] in r {
      var j :| 0 <= j < k && level[j] == level[c];
      InOrder(level, c, j);
      InOrder(level, j, c);
      assert level[b] in level[..k];
    }
  }

  /** The first `n` files found are what a manual compaction starts from: all of them, or as many as are big enough. */
  ghost predicate BigEnough(found: seq<File>, n: nat, maxFileSize: nat) {
    0 < n <= |found| && (n < |found| ==> TotalFileSize(found[..n]) >= maxFileSize)
    && forall m :: 0 < m < n ==> TotalFileSize(found[..m]) < maxFileSize
  }

  lemma {:induction false} TotalSizeNext(fs: seq<File>, i: nat)
    requires i < |fs|
    ensures TotalFileSize(fs[..i + 1]) == TotalFileSize(fs[..i]) + fs[i].size
  {
    if i > 0 {
      TotalSizeNext(fs[1..], i - 1);
      assert fs[1..][..i] == fs[..i + 1][1..] && fs[1..][..i - 1] == fs[..i][1..];
    }
  }

  /** A manual compaction starts from all files that reach the range in level 0, and from the first of them elsewhere. */
  ghost predicate StartsInRange(v: Levels, level: nat, begin: Option<UserKey>, end: Option<UserKey>, maxFileSize: nat, start: seq<File>)
    requires level < NUM_LEVELS
  {
    if level == 0 then exists lo, hi :: LeastClosed(v[0], begin, end, lo, hi) && start == Overlapping(v[0], lo, hi)
    else
      var found := Overlapping(v[level], begin, end);
      exists n: nat :: BigEnough(found, n, maxFileSize) && start == found[..n]
  }

  ghost predicate Requested(v: Levels, level: nat, begin: Option<UserKey>, end: Option<UserKey>, maxFileSize: nat, c: Picked) {
    level < NUM_LEVELS
    && exists start :: StartsInRange(v, level, begin, end, maxFileSize, start) && Assembled(v, level, start, maxFileSize, c)
  }

  /** A manual compaction: the files of a range, cut short above level 0 once they are big enough. */
  method CompactRange(v: Levels, level: nat, begin: Option<UserKey>, end: Option<UserKey>, maxFileSize: nat)
    returns (c: Option<Picked>)
    requires Tidy(v) && level + 1 < NUM_LEVELS
    ensures c.None? <==> forall f :: f in v[level] ==> !Overlaps(f, begin, end)
    ensures c.Some? ==> Requested(v, level, begin, end, maxFileSize, c.value)
    ensures c.Some? ==> ValidInputs(v, level, c.value.i0, c.value.i1)
    ensures c.Some? && level > 0 ==>
              var found := Overlapping(v[level], begin, end);
              exists n: nat :: BigEnough(found, n, maxFileSize) && forall f :: f in found[..n] ==> f in c.value.i0
  {
    hide Assembled, ValidInputs, BigEnough, Overlapping, GapFree;
    var found, lo, hi := GetOverlappingInputs(level, v[level], begin, end);
    EmptySearch(v[level], level, begin, end, lo, hi);
    if found == [] {
      return None;
    }
    var inputs := found;
    assert inputs[0] in inputs;
    if level > 0 {
      OverlappingIsConvex(v[level], lo, hi);
      inputs := CutShort(v[level], found, begin, end, maxFileSize);
    } else {
      LeastClosedIsUserClosed(v[0], begin, end, lo, hi);
    }
    var picked := SetupOtherInputs(v, level, inputs, maxFileSize);
    c := Some(picked);
  }

  lemma RequestedLevel(v: Levels, level: nat, begin: Option<UserKey>, end: Option<UserKey>, maxFileSize: nat, c: Picked)
    requires Requested(v, level, begin, end, maxFileSize, c)
    ensures c.level == level
  {
    hide StartsInRange;
  }

  /** The loop that cuts a manual compaction short. */
  method CutShort(level: seq<File>, found: seq<File>, begin: Option<UserKey>, end: Option<UserKey>, maxFileSize: nat)
    returns (inputs: seq<File>)
    requires LevelSorted(level) && found == Overlapping(level, begin, end) && found != []
    ensures Convex(level, inputs) && inputs != [] && forall f :: f in inputs ==> f in level
    ensures exists n: nat :: BigEnough(found, n, maxFileSize) && inputs == found[..n]
  {
    hide Overlapping, Convex, LevelSorted, TotalFileSize, BigEnough;
    NothingCut(level, found, begin, end, maxFileSize);
    var total, i: nat := 0, 0;
    while i < |found|
      invariant i <= |found| && total == TotalFileSize(found[..i])
      invariant forall m :: 0 < m <= i ==> TotalFileSize(found[..m]) < maxFileSize
    {
      TotalSizeNext(found, i);
      total := total + found[i].size;
      if total >= maxFileSize {
        PrefixIsConvex(level, begin, end, i + 1);
        CutAt(level, found, i + 1, begin, end, maxFileSize);
        return found[..i + 1];
      }
      i := i + 1;
    }
    assert found[..|found|] == found;
    CutAt(level, found, |found|, begin, end, maxFileSize);
    return found;
  }

  lemma NothingCut(level: seq<File>, found: seq<File>, begin: Option<UserKey>, end: Option<UserKey>, maxFileSize: nat)
    requires LevelSorted(level) && found == Overlapping(level, begin, end)
    ensures Convex(level, found) && TotalFileSize(found[..0]) == 0
  {
    OverlappingIsConvex(level, begin, end);
  }

  lemma CutAt(level: seq<File>, found: seq<File>, n: nat, begin: Option<UserKey>, end: Option<UserKey>, maxFileSize: nat)
    requires found == Overlapping(level, begin, end) && 0 < n <= |found|
    requires n < |found| ==> TotalFileSize(found[..n]) >= maxFileSize
    requires forall m :: 0 < m < n ==> TotalFileSize(found[..m]) < maxFileSize
    ensures BigEnough(found, n, maxFileSize) && found[..n] != [] && forall f :: f in found[..n] ==> f in level
  {
    assert forall f :: f in found[..n] ==> f in found;
  }

  /* ---- Where a flushed memtable goes ---- */

  ghost predicate OverlapInLevel(fs: seq<File>, lo: UserKey, hi: UserKey) {
    exists f :: f in fs && Overlaps(f, Some(lo), Some(hi))
  }

  /** Something keeps a flushed table of range [lo, hi] from sinking below `level`. */
  ghost predicate Blocked(v: Levels, level: nat, lo: UserKey, hi: UserKey, maxFileSize: nat)
    requires level < MAX_MEM_COMPACT_LEVEL
  {
    || (level == 0 && OverlapInLevel(v[0], lo, hi))
    || OverlapInLevel(v[level + 1], lo, hi)
    || TotalFileSize(Overlapping(v[level + 2], Some(lo), Some(hi))) > 10 * maxFileSize
  }

  method PickLevelForMemTableOutput(v: Levels, lo: UserKey, hi: UserKey, maxFileSize: nat) returns (level: nat)
    requires Tidy(v)
    ensures level <= MAX_MEM_COMPACT_LEVEL
    ensures level > 0 ==> forall i :: 0 <= i <= level ==> !OverlapInLevel(v[i], lo, hi)
    ensures level < MAX_MEM_COMPACT_LEVEL ==> Blocked(v, level, lo, hi, maxFileSize)
  {
    level := 0;
    var overlap := SomeFileOverlapsRange(false, v[0], Some(lo), Some(hi));
    if !overlap {
      while level < MAX_MEM_COMPACT_LEVEL
        invariant level <= MAX_MEM_COMPACT_LEVEL
        invariant forall i :: 0 <= i <= level ==> !OverlapInLevel(v[i], lo, hi)
      {
        overlap := SomeFileOverlapsRange(true, v[level + 1], Some(lo), Some(hi));
        if overlap {
          break;
        }
        if level + 2 < NUM_LEVELS {
          var overlaps, l, h := GetOverlappingInputs(level + 2, v[level + 2], Some(lo), Some(hi));
          if TotalFileSize(overlaps) > 10 * maxFileSize {
            break;
          }
        }
        level := level + 1;
      }
    }
  }
}
