/**
  Choosing the inputs of a compaction, and the level a flushed memtable goes to.
 */
module CompactionInputs {
  import opened Wrappers
  import opened DbFormat
  import opened Versions

  function TotalFileSize(fs: seq<File>): nat {
    if fs == [] then 0 else fs[0].size + TotalFileSize(fs[1..])
  }

  /** The files of a level, in order, that meet the user-key range. */
  function Overlapping(fs: seq<File>, lo: Option<UserKey>, hi: Option<UserKey>): (r: seq<File>)
    ensures forall f :: f in r <==> f in fs && Overlaps(f, lo, hi)
  {
    if fs == [] then []
    else
      var n := |fs| - 1;
      Overlapping(fs[..n], lo, hi) + if Overlaps(fs[n], lo, hi) then [fs[n]] else []
  }

  predicate Inside(f: File, lo: Option<UserKey>, hi: Option<UserKey>) {
    (lo.Some? ==> lo.value <= Lo(f)) && (hi.Some? ==> Hi(f) <= hi.value)
  }

  /** No file straddles an end of the range. */
  ghost predicate Closed(fs: seq<File>, lo: Option<UserKey>, hi: Option<UserKey>) {
    forall f :: f in fs && Overlaps(f, lo, hi) ==> Inside(f, lo, hi)
  }

  predicate Covers(lo: Option<UserKey>, hi: Option<UserKey>, lo': Option<UserKey>, hi': Option<UserKey>) {
    && lo.Some? == lo'.Some? && (lo.Some? ==> lo.value <= lo'.value)
    && hi.Some? == hi'.Some? && (hi.Some? ==> hi'.value <= hi.value)
  }

  /** [lo, hi] is the least closed range around [begin, end]. */
  ghost predicate LeastClosed(fs: seq<File>, begin: Option<UserKey>, end: Option<UserKey>,
                              lo: Option<UserKey>, hi: Option<UserKey>) {
    && Covers(lo, hi, begin, end) && Closed(fs, lo, hi)
    && forall l, h :: Closed(fs, l, h) && Covers(l, h, begin, end) ==> Covers(l, h, lo, hi)
  }

  /* ---- GetOverlappingInputs ---- */

  function CountBelow(fs: seq<File>, lo: Option<UserKey>): nat {
    if fs == [] || lo.None? then 0 else (if Lo(fs[0]) < lo.value then 1 else 0) + CountBelow(fs[1..], lo)
  }

  function CountAbove(fs: seq<File>, hi: Option<UserKey>): nat {
    if fs == [] || hi.None? then 0 else (if Hi(fs[0]) > hi.value then 1 else 0) + CountAbove(fs[1..], hi)
  }

  lemma {:induction false} CountBelowDrops(fs: seq<File>, lo: UserKey, lo': UserKey)
    requires lo' < lo
    ensures CountBelow(fs, Some(lo')) <= CountBelow(fs, Some(lo))
    ensures (exists f :: f in fs && lo' == Lo(f)) ==> CountBelow(fs, Some(lo')) < CountBelow(fs, Some(lo))
  {
    if fs != [] {
      CountBelowDrops(fs[1..], lo, lo');
    }
  }

  lemma {:induction false} CountAboveDrops(fs: seq<File>, hi: UserKey, hi': UserKey)
    requires hi < hi'
    ensures CountAbove(fs, Some(hi')) <= CountAbove(fs, Some(hi))
    ensures (exists f :: f in fs && hi' == Hi(f)) ==> CountAbove(fs, Some(hi')) < CountAbove(fs, Some(hi))
  {
    if fs != [] {
      CountAboveDrops(fs[1..], hi, hi');
    }
  }

  /** Every closed range around [begin, end] covers [lo, hi]. */
  ghost predicate Needed(fs: seq<File>, begin: Option<UserKey>, end: Option<UserKey>, lo: Option<UserKey>, hi: Option<UserKey>) {
    && Covers(lo, hi, begin, end)
    && forall l, h :: Closed(fs, l, h) && Covers(l, h, begin, end) ==> Covers(l, h, lo, hi)
  }

  /** A file that meets a needed range and sticks out of it makes the wider range needed. */
  lemma WideningIsNeeded(fs: seq<File>, begin: Option<UserKey>, end: Option<UserKey>, lo: Option<UserKey>, hi: Option<UserKey>, f: File)
    requires Needed(fs, begin, end, lo, hi) && f in fs && Overlaps(f, lo, hi)
    ensures lo.Some? && Lo(f) < lo.value ==>
              Needed(fs, begin, end, Some(Lo(f)), hi) && CountBelow(fs, Some(Lo(f))) < CountBelow(fs, lo)
    ensures hi.Some? && Hi(f) > hi.value ==>
              Needed(fs, begin, end, lo, Some(Hi(f))) && CountAbove(fs, Some(Hi(f))) < CountAbove(fs, hi)
  {
    if lo.Some? && Lo(f) < lo.value {
      CountBelowDrops(fs, lo.value, Lo(f));
    }
    if hi.Some? && Hi(f) > hi.value {
      CountAboveDrops(fs, hi.value, Hi(f));
    }
  }

  lemma NextOverlapping(fs: seq<File>, i: nat, lo: Option<UserKey>, hi: Option<UserKey>)
    requires i < |fs|
    ensures Overlapping(fs[..i + 1], lo, hi) == Overlapping(fs[..i], lo, hi) + if Overlaps(fs[i], lo, hi) then [fs[i]] else []
    ensures var f := fs[i];
            var inside := (lo.None? || Lo(f) >= lo.value) && (hi.None? || Hi(f) <= hi.value);
            Closed(fs[..i], lo, hi) && (Overlaps(f, lo, hi) ==> inside) ==> Closed(fs[..i + 1], lo, hi)
  {
    assert fs[..i + 1] == fs[..i] + [fs[i]];
  }

  /**
    Level-0 files may overlap each other, so there a file that sticks out of the range widens it and
    the search starts over.  The range it ends with is returned as well.
   */
  method GetOverlappingInputs(level: nat, files: seq<File>, begin: Option<UserKey>, end: Option<UserKey>)
    returns (inputs: seq<File>, lo: Option<UserKey>, hi: Option<UserKey>)
    ensures inputs == Overlapping(files, lo, hi)
    ensures level > 0 ==> lo == begin && hi == end
    ensures level == 0 ==> LeastClosed(files, begin, end, lo, hi)
  {
    hide Overlapping, Closed, Needed, LeastClosed, CountBelow, CountAbove, Covers, Lo, Hi, Inside;
    inputs := [];
    var userBegin, userEnd := begin, end;
    NothingScanned(files, begin, end);
    var i := 0;
    while i < |files|
      invariant 0 <= i <= |files|
      invariant inputs == Overlapping(files[..i], userBegin, userEnd)
      invariant level > 0 ==> userBegin == begin && userEnd == end
      invariant level == 0 ==> Closed(files[..i], userBegin, userEnd) && Needed(files, begin, end, userBegin, userEnd)
      decreases CountBelow(files, userBegin) + CountAbove(files, userEnd), |files| - i
    {
      var f := files[i];
      NextOverlapping(files, i, userBegin, userEnd);
      i := i + 1;
      if AfterFile(userBegin, f) {
      } else if BeforeFile(userEnd, f) {
      } else {
        inputs := inputs + [f];
        if level == 0 {
          WideningIsNeeded(files, begin, end, userBegin, userEnd, f);
          if userBegin.Some? && Lo(f) < userBegin.value {
            userBegin, inputs, i := Some(Lo(f)), [], 0;
            NothingScanned(files, userBegin, userEnd);
          } else if userEnd.Some? && Hi(f) > userEnd.value {
            userEnd, inputs, i := Some(Hi(f)), [], 0;
            NothingScanned(files, userBegin, userEnd);
          }
        }
      }
    }
    assert files[..i] == files;
    lo, hi := userBegin, userEnd;
    if level == 0 {
      NeededIsLeast(files, begin, end, lo, hi);
    }
  }

  lemma NothingScanned(fs: seq<File>, lo: Option<UserKey>, hi: Option<UserKey>)
    ensures Overlapping(fs[..0], lo, hi) == [] && Closed(fs[..0], lo, hi) && Needed(fs, lo, hi, lo, hi)
  {
  }

  lemma NeededIsLeast(fs: seq<File>, begin: Option<UserKey>, end: Option<UserKey>, lo: Option<UserKey>, hi: Option<UserKey>)
    requires Needed(fs, begin, end, lo, hi) && Closed(fs, lo, hi)
    ensures LeastClosed(fs, begin, end, lo, hi)
  {
  }

  /* ---- Key ranges ---- */

  ghost predicate IsRange(fs: seq<File>, smallest: InternalKey, largest: InternalKey) {
    && (exists f :: f in fs && Smallest(f) == smallest)
    && (exists f :: f in fs && Largest(f) == largest)
    && (forall f :: f in fs ==> !Before(Smallest(f), smallest) && !Before(largest, Largest(f)))
  }

  method GetRange(inputs: seq<File>) returns (smallest: InternalKey, largest: InternalKey)
    requires inputs != []
    ensures IsRange(inputs, smallest, largest)
  {
    smallest, largest := Smallest(inputs[0]), Largest(inputs[0]);
    for i := 1 to |inputs|
      invariant IsRange(inputs[..i], smallest, largest)
    {
      var f := inputs[i];
      assert inputs[..i + 1] == inputs[..i] + [f];
      ghost var s, l := smallest, largest;
      if Before(Smallest(f), smallest) {
        smallest := Smallest(f);
      }
      if Before(largest, Largest(f)) {
        largest := Largest(f);
      }
      RangeAdd(inputs[..i], f, s, l, smallest, largest);
    }
    assert inputs[..|inputs|] == inputs;
  }

  lemma RangeAdd(fs: seq<File>, f: File, s: InternalKey, l: InternalKey, s': InternalKey, l': InternalKey)
    requires IsRange(fs, s, l)
    requires s' == if Before(Smallest(f), s) then Smallest(f) else s
    requires l' == if Before(l, Largest(f)) then Largest(f) else l
    ensures IsRange(fs + [f], s', l')
  {
    var a :| a in fs && Smallest(a) == s;
    var b :| b in fs && Largest(b) == l;
    assert a in fs + [f] && b in fs + [f] && f in fs + [f];
    assert Smallest(if Before(Smallest(f), s) then f else a) == s';
    assert Largest(if Before(l, Largest(f)) then f else b) == l';
  }

  /* ---- Boundary files ---- */

  /** `f` continues the user key that ends at `key`. */
  predicate IsBoundary(f: File, key: InternalKey) {
    Before(key, Smallest(f)) && Lo(f) == key.user
  }

  ghost predicate IsLargestKey(fs: seq<File>, key: InternalKey) {
    && (exists f :: f in fs && Largest(f) == key)
    && (forall f :: f in fs ==> !Before(key, Largest(f)))
  }

  /** No file of the level continues the last user key of `fs`. */
  ghost predicate BoundaryClosed(level: seq<File>, fs: seq<File>) {
    forall key, f :: IsLargestKey(fs, key) && f in level ==> !IsBoundary(f, key)
  }

  method FindLargestKey(fs: seq<File>) returns (key: InternalKey)
    requires fs != []
    ensures IsLargestKey(fs, key)
  {
    key := Largest(fs[0]);
    ghost var best := fs[0];
    for i := 1 to |fs|
      invariant best in fs && Largest(best) == key
      invariant forall j :: 0 <= j < i ==> !Before(key, Largest(fs[j]))
    {
      if Before(key, Largest(fs[i])) {
        key, best := Largest(fs[i]), fs[i];
      }
    }
  }

  method FindSmallestBoundaryFile(level: seq<File>, key: InternalKey) returns (r: Option<File>)
    ensures r.None? ==> forall f :: f in level ==> !IsBoundary(f, key)
    ensures r.Some? ==> r.value in level && IsBoundary(r.value, key)
    ensures r.Some? ==> forall f :: f in level && IsBoundary(f, key) ==> !Before(Smallest(f), Smallest(r.value))
  {
    r := None;
    for i := 0 to |level|
      invariant r.None? ==> forall f :: f in level[..i] ==> !IsBoundary(f, key)
      invariant r.Some? ==> r.value in level && IsBoundary(r.value, key)
      invariant r.Some? ==> forall f :: f in level[..i] && IsBoundary(f, key) ==> !Before(Smallest(f), Smallest(r.value))
    {
      var f := level[i];
      assert level[..i + 1] == level[..i] + [f];
      if IsBoundary(f, key) {
        if r.None? || Before(Smallest(f), Smallest(r.value)) {
          r := Some(f);
        }
      }
    }
    assert level[..|level|] == level;
  }

  /** Chosen files of a sorted level leave no unchosen file between them. */
  ghost predicate Convex(level: seq<File>, fs: seq<File>) {
    && (forall f :: f in fs ==> f in level)
    && forall a, b, c :: 0 <= a < b < c < |level| && level[a] in fs && level[c] in fs ==> level[b] in fs
  }

  /** Every range [p, q] that misses all files of `fs` lies to one side of them all. */
  ghost predicate Misses(fs: seq<File>, p: UserKey, q: UserKey) {
    forall f :: f in fs ==> Hi(f) < p || q < Lo(f)
  }

  ghost predicate OneSide(fs: seq<File>, p: UserKey, q: UserKey) {
    (forall f :: f in fs ==> Hi(f) < p) || (forall f :: f in fs ==> q < Lo(f))
  }

  ghost predicate GapFree(fs: seq<File>) {
    forall p, q :: p <= q && Misses(fs, p, q) ==> OneSide(fs, p, q)
  }

  function CountAfter(fs: seq<File>, key: InternalKey): nat {
    if fs == [] then 0 else (if Before(key, Smallest(fs[0])) then 1 else 0) + CountAfter(fs[1..], key)
  }

  lemma {:induction false} CountAfterDrops(fs: seq<File>, key: InternalKey, key': InternalKey)
    requires Before(key, key')
    ensures CountAfter(fs, key') <= CountAfter(fs, key)
    ensures (exists f :: f in fs && Before(key, Smallest(f)) && !Before(key', Smallest(f))) ==>
              CountAfter(fs, key') < CountAfter(fs, key)
  {
    if fs != [] {
      CountAfterDrops(fs[1..], key, key');
    }
  }

  /** `f` continues the last user key of `fs`. */
  ghost predicate Continues(fs: seq<File>, f: File) {
    exists key :: IsLargestKey(fs, key) && IsBoundary(f, key)
  }

  /** `r` is `fs` and behind it files of the level each of which continues what comes before it. */
  ghost predicate Chained(level: seq<File>, fs: seq<File>, r: seq<File>) {
    fs <= r && forall i :: |fs| <= i < |r| ==> r[i] in level && Continues(r[..i], r[i])
  }

  lemma NoChain(level: seq<File>, fs: seq<File>)
    ensures Chained(level, fs, fs)
  {
  }

  lemma ChainLonger(level: seq<File>, fs: seq<File>, r: seq<File>, key: InternalKey, f: File)
    requires Chained(level, fs, r) && f in level && IsLargestKey(r, key) && IsBoundary(f, key)
    ensures Chained(level, fs, r + [f])
  {
    hide IsLargestKey, IsBoundary;
    var all := r + [f];
    assert all[..|r|] == r && forall i :: 0 <= i < |r| ==> all[..i] == r[..i];
  }

  /** `context` is whatever else takes part in the compaction; adding boundary files opens no gap in it. */
  method AddBoundaryInputs(level: seq<File>, fs: seq<File>, ghost context: seq<File>) returns (r: seq<File>)
    ensures fs == [] ==> r == []
    ensures Chained(level, fs, r) && BoundaryClosed(level, r)
    ensures fs <= r && forall f :: f in r ==> f in fs || f in level
    ensures BoundaryClosed(level, fs) ==> r == fs
    ensures LevelSorted(level) && Convex(level, fs) ==> Convex(level, r)
    ensures GapFree(fs + context) ==> GapFree(r + context)
  {
    hide Chained;
    r := fs;
    NoChain(level, fs);
    if fs == [] {
      return;
    }
    var key := FindLargestKey(fs);
    var searching := true;
    while searching
      invariant Chained(level, fs, r) && fs <= r && forall f :: f in r ==> f in fs || f in level
      invariant IsLargestKey(r, key)
      invariant BoundaryClosed(level, fs) ==> r == fs
      invariant LevelSorted(level) && Convex(level, fs) ==> Convex(level, r)
      invariant GapFree(fs + context) ==> GapFree(r + context)
      invariant !searching ==> forall f :: f in level ==> !IsBoundary(f, key)
      decreases searching, CountAfter(level, key)
    {
      var b := FindSmallestBoundaryFile(level, key);
      if b.Some? {
        BoundaryStep(level, r, key, b.value, context);
        ChainLonger(level, fs, r, key, b.value);
        FileBounds(b.value);
        CountAfterDrops(level, key, Largest(b.value));
        r := r + [b.value];
        key := Largest(b.value);
      } else {
        searching := false;
      }
    }
    forall k | IsLargestKey(r, k) ensures k == key {
      LargestKeyUnique(r, k, key);
    }
  }

  lemma LargestKeyUnique(fs: seq<File>, a: InternalKey, b: InternalKey)
    requires IsLargestKey(fs, a) && IsLargestKey(fs, b)
    ensures a == b
  {
    var f :| f in fs && Largest(f) == a;
    var g :| g in fs && Largest(g) == b;
  }

  lemma BoundaryStep(level: seq<File>, fs: seq<File>, key: InternalKey, b: File, context: seq<File>)
    requires IsLargestKey(fs, key) && b in level && IsBoundary(b, key)
    requires forall f :: f in level && IsBoundary(f, key) ==> !Before(Smallest(f), Smallest(b))
    ensures Before(key, Largest(b)) && IsLargestKey(fs + [b], Largest(b))
    ensures LevelSorted(level) && Convex(level, fs) ==> Convex(level, fs + [b])
    ensures GapFree(fs + context) ==> GapFree(fs + [b] + context)
  {
    FileBounds(b);
    assert b in fs + [b];
    var last :| last in fs && Largest(last) == key;
    FileBounds(last);
    if GapFree(fs + context) {
      GapFreeAdd(fs + context, b, last, last);
      GapFreeSame(fs + context + [b], fs + [b] + context);
    }
    if LevelSorted(level) && Convex(level, fs) {
      ConvexStep(level, fs, key, last, b);
    }
  }

  /** In a sorted level the smallest boundary file is the one right after the last chosen file. */
  lemma ConvexStep(level: seq<File>, fs: seq<File>, key: InternalKey, last: File, b: File)
    requires LevelSorted(level) && Convex(level, fs)
    requires last in fs && Largest(last) == key && IsLargestKey(fs, key)
    requires b in level && IsBoundary(b, key)
    requires forall f :: f in level && IsBoundary(f, key) ==> !Before(Smallest(f), Smallest(b))
    ensures Convex(level, fs + [b])
  {
    var li :| 0 <= li < |level| && level[li] == last;
    var bi :| 0 <= bi < |level| && level[bi] == b;
    BoundaryIsNext(level, key, li, bi);
    forall x | 0 <= x < |level| && level[x] in fs ensures x <= li {
      InOrder(level, li, x);
    }
    forall x | 0 <= x < |level| && level[x] == b ensures x == bi {
      InOrder(level, bi, x);
      InOrder(level, x, bi);
    }
    ConvexAppend(level, fs, li);
  }

  lemma BoundaryIsNext(level: seq<File>, key: InternalKey, li: nat, bi: nat)
    requires LevelSorted(level) && li < |level| && bi < |level| && Largest(level[li]) == key && IsBoundary(level[bi], key)
    requires forall f :: f in level && IsBoundary(f, key) ==> !Before(Smallest(f), Smallest(level[bi]))
    ensures bi == li + 1
  {
    InOrder(level, li, bi);
    if li + 1 < bi {
      NextIsBoundary(level, li, bi, key);
    }
  }

  lemma ConvexAppend(level: seq<File>, fs: seq<File>, li: nat)
    requires Convex(level, fs) && li + 1 < |level| && level[li] in fs
    requires forall x :: 0 <= x < |level| && level[x] in fs ==> x <= li
    requires forall x :: 0 <= x < |level| && level[x] == level[li + 1] ==> x == li + 1
    ensures Convex(level, fs + [level[li + 1]])
  {
    var gs := fs + [level[li + 1]];
    forall a, b, c | 0 <= a < b < c < |level| && level[a] in gs && level[c] in gs ensures level[b] in gs {
      assert c <= li + 1 && a <= li && level[a] in fs;
      assert b != li ==> level[b] in fs;
    }
  }

  /** Positions follow the keys in a sorted level. */
  lemma InOrder(level: seq<File>, i: nat, j: nat)
    requires LevelSorted(level) && i < |level| && j < |level|
    ensures i < j <==> Before(Largest(level[i]), Largest(level[j]))
    ensures i < j <==> Before(Largest(level[i]), Smallest(level[j]))
  {
    FileBounds(level[i]);
    FileBounds(level[j]);
  }

  lemma NextIsBoundary(level: seq<File>, li: nat, bi: nat, key: InternalKey)
    requires LevelSorted(level) && li + 1 < bi < |level|
    requires Largest(level[li]) == key && IsBoundary(level[bi], key)
    ensures IsBoundary(level[li + 1], key) && Before(Smallest(level[li + 1]), Smallest(level[bi]))
  {
    FileBounds(level[li + 1]);
    InOrder(level, li, li + 1);
    InOrder(level, li + 1, bi);
  }

  /* ---- Facts about gap-free sets ---- */

  lemma GapFreeSingle(f: File)
    ensures GapFree([f])
  {
    FileBounds(f);
  }

  /** Adding a file that reaches the hull of a gap-free set keeps it gap-free. */
  lemma GapFreeAdd(fs: seq<File>, f: File, a: File, b: File)
    requires GapFree(fs) && a in fs && b in fs && Lo(a) <= Hi(f) && Lo(f) <= Hi(b)
    ensures GapFree(fs + [f])
  {
    FileBounds(f);
    assert !OneSide(fs, Lo(f), Hi(f));
    var x :| x in fs && Lo(x) <= Hi(f) && Lo(f) <= Hi(x);
    forall p, q | p <= q && Misses(fs + [f], p, q) ensures OneSide(fs + [f], p, q) {
      assert x in fs + [f] && f in fs + [f];
      assert forall g :: g in fs ==> g in fs + [f];
      assert Misses(fs, p, q) && OneSide(fs, p, q);
    }
  }

  lemma {:induction false} GapFreeAddAll(fs: seq<File>, gs: seq<File>, a: File, b: File)
    requires GapFree(fs) && a in fs && b in fs
    requires forall g :: g in gs ==> Lo(a) <= Hi(g) && Lo(g) <= Hi(b)
    ensures GapFree(fs + gs)
    decreases |gs|
  {
    if gs == [] {
      assert fs + gs == fs;
    } else {
      GapFreeAdd(fs, gs[0], a, b);
      GapFreeAddAll(fs + [gs[0]], gs[1..], a, b);
      assert fs + gs == fs + [gs[0]] + gs[1..];
    }
  }

  lemma GapFreeSame(fs: seq<File>, gs: seq<File>)
    requires GapFree(fs) && forall f :: f in fs <==> f in gs
    ensures GapFree(gs)
  {
    forall p, q | p <= q && Misses(gs, p, q) ensures OneSide(gs, p, q) {
      assert Misses(fs, p, q);
    }
  }

  /** The files meeting the least closed range around a gap-free set join it without a gap. */
  lemma GapFreeLeastClosed(xs: seq<File>, level: seq<File>, begin: UserKey, end: UserKey,
                           lo: Option<UserKey>, hi: Option<UserKey>)
    requires GapFree(xs) && xs != []
    requires forall x :: x in xs ==> begin <= Lo(x) && Hi(x) <= end
    requires exists x :: x in xs && Lo(x) == begin
    requires exists x :: x in xs && Hi(x) == end
    requires LeastClosed(level, Some(begin), Some(end), lo, hi)
    ensures GapFree(xs + Overlapping(level, lo, hi))
  {
    var rs := Overlapping(level, lo, hi);
    var all := xs + rs;
    forall p, q | p <= q && Misses(all, p, q) ensures OneSide(all, p, q) {
      assert Misses(xs, p, q) by {
        assert forall x :: x in xs ==> x in all;
      }
      assert forall r :: r in rs ==> r in all;
      if forall x :: x in xs ==> Hi(x) < p {
        NothingBeyond(level, begin, end, lo, hi, p, q);
      } else {
        NothingBefore(level, begin, end, lo, hi, p, q);
      }
    }
  }

  lemma NothingBeyond(level: seq<File>, begin: UserKey, end: UserKey, lo: Option<UserKey>, hi: Option<UserKey>,
                      p: UserKey, q: UserKey)
    requires LeastClosed(level, Some(begin), Some(end), lo, hi) && begin <= end < p <= q
    requires Misses(Overlapping(level, lo, hi), p, q)
    ensures forall f :: f in Overlapping(level, lo, hi) ==> Hi(f) < p
  {
    forall r | r in Overlapping(level, lo, hi) ensures Hi(r) < p {
      if Hi(r) >= p {
        ClosedBelow(level, lo, hi, p, q, r);
      }
    }
  }

  lemma ClosedBelow(level: seq<File>, lo: Option<UserKey>, hi: Option<UserKey>, p: UserKey, q: UserKey, r: File)
    requires Closed(level, lo, hi) && hi.Some? && p <= q && Misses(Overlapping(level, lo, hi), p, q)
    requires r in Overlapping(level, lo, hi) && Hi(r) >= p
    ensures Closed(level, lo, Some(p - 1)) && hi.value >= p
  {
    forall f | f in level && Overlaps(f, lo, Some(p - 1)) ensures Inside(f, lo, Some(p - 1)) {
      FileBounds(f);
      FileBounds(r);
      assert f in Overlapping(level, lo, hi);
    }
  }

  lemma NothingBefore(level: seq<File>, begin: UserKey, end: UserKey, lo: Option<UserKey>, hi: Option<UserKey>,
                      p: UserKey, q: UserKey)
    requires LeastClosed(level, Some(begin), Some(end), lo, hi) && p <= q < begin <= end
    requires Misses(Overlapping(level, lo, hi), p, q)
    ensures forall f :: f in Overlapping(level, lo, hi) ==> q < Lo(f)
  {
    forall r | r in Overlapping(level, lo, hi) ensures q < Lo(r) {
      if Lo(r) <= q {
        ClosedAbove(level, lo, hi, p, q, r);
      }
    }
  }

  lemma ClosedAbove(level: seq<File>, lo: Option<UserKey>, hi: Option<UserKey>, p: UserKey, q: UserKey, r: File)
    requires Closed(level, lo, hi) && lo.Some? && p <= q && Misses(Overlapping(level, lo, hi), p, q)
    requires r in Overlapping(level, lo, hi) && Lo(r) <= q
    ensures Closed(level, Some(q + 1), hi) && lo.value <= q
  {
    forall f | f in level && Overlaps(f, Some(q + 1), hi) ensures Inside(f, Some(q + 1), hi) {
      FileBounds(f);
      FileBounds(r);
      assert f in Overlapping(level, lo, hi);
    }
  }
}
