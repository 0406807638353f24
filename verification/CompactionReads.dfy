/**
  When a compaction is invisible to readers.

  Rule (B) drops a deletion once no table below level + 1 can hold its key.  It does not look at the
  tables of level + 1 that stay behind, and boundary files are added to the inputs of the upper level
  only.  So a deletion may be dropped while an older value of the same key survives in a level + 1
  table next to the inputs, and that value becomes readable again.  The lemmas below say that this is
  the only way a read at or above the oldest snapshot can change.
 */
module CompactionReads {
  import opened Wrappers
  import opened DbFormat
  import opened Versions
  import opened CompactionInputs
  import opened CompactionPick
  import opened CompactionWork

  /**
    The stored entries around a compaction: newer ones above the inputs, the inputs, what stays
    beside them in level + 1, and what lies below.
   */
  datatype Split = Split(above: set<Entry>, inputs: set<Entry>, beside: set<Entry>, below: set<Entry>) {
    ghost function All(): set<Entry> {
      above + inputs + beside + below
    }
  }

  ghost predicate SplitOk(p: Split, v: Levels, level: nat) {
    && Unique(p.All()) && Newer(p.above, p.inputs) && p.inputs !! p.beside
    && forall x, y :: x in p.inputs && y in p.below && x.key == y.key ==> !IsBaseLevel(v, level, x.key)
  }

  ghost function After(p: Split, oldest: SequenceNumber, v: Levels, level: nat): set<Entry> {
    p.above + (set e | e in p.inputs && Kept(p.inputs, e, oldest, v, level)) + p.beside + p.below
  }

  /** The dropped deletion `d` is what readers of `k` see, and the newest older entry beside it is a value. */
  ghost predicate Uncovers(p: Split, k: UserKey, oldest: SequenceNumber, v: Levels, level: nat, d: Entry, b: Entry) {
    && IsNewest(p.All(), k, oldest, d) && d in p.inputs && d.op.Deletion? && IsBaseLevel(v, level, k)
    && IsNewest(p.beside, k, d.sn - 1, b) && b.op.Put?
  }

  ghost predicate Exposed(p: Split, k: UserKey, oldest: SequenceNumber, v: Levels, level: nat) {
    exists d, b :: Uncovers(p, k, oldest, v, level, d, b)
  }

  /** Readers of `k` at or above `oldest` cannot tell `E` from `F`. */
  ghost predicate SameReads(E: set<Entry>, F: set<Entry>, k: UserKey, oldest: SequenceNumber) {
    forall s: SequenceNumber :: s >= oldest ==> ReadSet(E, k, s) == ReadSet(F, k, s)
  }

  /** If the newest visible entry is dropped, it is an obsolete deletion that is also newest at `oldest`. */
  lemma DroppedNewest(p: Split, k: UserKey, s: SequenceNumber, oldest: SequenceNumber, v: Levels, level: nat, d: Entry)
    requires SplitOk(p, v, level) && s >= oldest
    requires IsNewest(p.All(), k, s, d) && d !in After(p, oldest, v, level)
    ensures d in p.inputs && Obsolete(d, oldest, v, level) && IsNewest(p.All(), k, oldest, d)
  {
    assert d in p.inputs;
    if x :| x in p.inputs && x.key == d.key && x.sn > d.sn && x.sn <= oldest {
      assert x in p.All() && Visible(x, k, s);
    }
    forall x | x in p.All() && Visible(x, k, oldest) ensures x.sn <= d.sn {
      assert Visible(x, k, s);
    }
  }

  /** With the visible deletion gone, only entries beside the inputs can answer. */
  lemma OnlyBeside(p: Split, k: UserKey, s: SequenceNumber, oldest: SequenceNumber, v: Levels, level: nat, d: Entry, x: Entry)
    requires SplitOk(p, v, level) && s >= oldest
    requires IsNewest(p.All(), k, s, d) && d in p.inputs && Obsolete(d, oldest, v, level)
    requires x in After(p, oldest, v, level) && Visible(x, k, s)
    ensures x in p.beside && x.sn < d.sn
  {
    assert x in p.All() && d in p.All();
    assert !Kept(p.inputs, d, oldest, v, level);
    assert x in p.above ==> x.sn > d.sn;
    assert x in p.inputs && Kept(p.inputs, x, oldest, v, level) && x.sn < d.sn ==> d.sn > oldest;
    assert x in p.below ==> !IsBaseLevel(v, level, d.key);
    assert x != d ==> x.sn != d.sn;
  }

  lemma ReadAfter(p: Split, k: UserKey, s: SequenceNumber, oldest: SequenceNumber, v: Levels, level: nat)
    requires SplitOk(p, v, level) && s >= oldest && !Exposed(p, k, oldest, v, level)
    ensures ReadSet(After(p, oldest, v, level), k, s) == ReadSet(p.All(), k, s)
  {
    var E, F := p.All(), After(p, oldest, v, level);
    assert F <= E;
    if x :| x in E && Visible(x, k, s) {
      var d := NewestExists(E, k, s, x);
      ReadSetFound(E, k, s, d);
      if d in F {
        assert IsNewest(F, k, s, d);
        ReadSetFound(F, k, s, d);
      } else {
        DroppedNewest(p, k, s, oldest, v, level, d);
        ReadBeside(p, k, s, oldest, v, level, d);
      }
    } else {
      ReadSetMissing(E, k, s);
      ReadSetMissing(F, k, s);
    }
  }

  lemma ReadBeside(p: Split, k: UserKey, s: SequenceNumber, oldest: SequenceNumber, v: Levels, level: nat, d: Entry)
    requires SplitOk(p, v, level) && s >= oldest
    requires IsNewest(p.All(), k, s, d) && IsNewest(p.All(), k, oldest, d)
    requires d in p.inputs && Obsolete(d, oldest, v, level)
    ensures ReadSet(After(p, oldest, v, level), k, s) == None <==> !Exposed(p, k, oldest, v, level)
  {
    var F := After(p, oldest, v, level);
    if x :| x in F && Visible(x, k, s) {
      OnlyBeside(p, k, s, oldest, v, level, d, x);
      var b := NewestExists(p.beside, k, d.sn - 1, x);
      assert b in F && Visible(b, k, s);
      forall y | y in F && Visible(y, k, s) ensures y.sn <= b.sn {
        OnlyBeside(p, k, s, oldest, v, level, d, y);
        assert Visible(y, k, d.sn - 1);
      }
      ReadSetFound(F, k, s, b);
      if b.op.Put? {
        assert Uncovers(p, k, oldest, v, level, d, b);
      } else {
        NotUncovered(p, k, oldest, v, level, d, b);
      }
    } else {
      ReadSetMissing(F, k, s);
      forall d', b' ensures !Uncovers(p, k, oldest, v, level, d', b') {
        if Uncovers(p, k, oldest, v, level, d', b') {
          assert d' in p.All() && d in p.All() && Visible(d', k, oldest) && Visible(d, k, oldest);
          assert b' in F && Visible(b', k, d'.sn - 1);
          assert Visible(b', k, s);
        }
      }
    }
  }

  lemma NotUncovered(p: Split, k: UserKey, oldest: SequenceNumber, v: Levels, level: nat, d: Entry, b: Entry)
    requires Unique(p.All()) && IsNewest(p.All(), k, oldest, d) && IsNewest(p.beside, k, d.sn - 1, b) && !b.op.Put?
    ensures !Exposed(p, k, oldest, v, level)
  {
    forall d' | IsNewest(p.All(), k, oldest, d') ensures d' == d {
      assert Visible(d', k, oldest) && Visible(d, k, oldest);
    }
    var m := d.sn - 1;
    forall b' | IsNewest(p.beside, k, m, b') ensures b' == b {
      assert Visible(b', k, m) && Visible(b, k, m);
      assert b in p.All() && b' in p.All();
    }
  }

  /** A compaction changes no read of `k` at or above the oldest snapshot exactly when it uncovers no old value. */
  lemma PreservesReadsIff(p: Split, k: UserKey, oldest: SequenceNumber, v: Levels, level: nat)
    requires SplitOk(p, v, level)
    ensures SameReads(After(p, oldest, v, level), p.All(), k, oldest) <==> !Exposed(p, k, oldest, v, level)
  {
    if Exposed(p, k, oldest, v, level) {
      var d, b :| Uncovers(p, k, oldest, v, level, d, b);
      ReadSetFound(p.All(), k, oldest, d);
      ReadBeside(p, k, oldest, oldest, v, level, d);
      assert ReadSet(After(p, oldest, v, level), k, oldest) != ReadSet(p.All(), k, oldest);
    } else {
      forall s: SequenceNumber | s >= oldest
        ensures ReadSet(After(p, oldest, v, level), k, s) == ReadSet(p.All(), k, s)
      {
        ReadAfter(p, k, s, oldest, v, level);
      }
    }
  }

  lemma MeetingIsConvex(below: seq<File>, i0: seq<File>, i1: seq<File>)
    requires LevelSorted(below) && forall f :: f in i1 <==> f in below && Meets(f, i0)
    ensures Convex(below, i1)
  {
    forall a, b, c | 0 <= a < b < c < |below| && below[a] in i1 && below[c] in i1 ensures below[b] in i1 {
      var x, y :| x in i0 && y in i0 && Lo(x) <= Hi(below[a]) && Lo(below[a]) <= Hi(y);
      var z, w :| z in i0 && w in i0 && Lo(z) <= Hi(below[c]) && Lo(below[c]) <= Hi(w);
      InOrder(below, a, b);
      InOrder(below, b, c);
      FileBounds(below[b]);
      assert Lo(x) <= Hi(below[b]) && Lo(below[b]) <= Hi(w);
    }
  }

  /** A table that does not reach the hull of the upper inputs shares no key with them. */
  lemma SharesNoKey(i0: seq<File>, g: File, d: Entry, b: Entry)
    requires !Meets(g, i0) && d in FileSet(i0) && b in g.contents
    ensures d.key != b.key
  {
    var f :| f in i0 && d in f.contents;
    WithinFile(f, d);
    WithinFile(g, b);
  }

  /**
    If boundary files were added to the inputs of level + 1 as they are to those of the level, nothing
    could be uncovered: `i0` and `i1` are inputs as SetupOtherInputs leaves them.
   */
  lemma BoundaryClosedBelowSuffices(p: Split, below: seq<File>, i0: seq<File>, i1: seq<File>, k: UserKey,
                                    oldest: SequenceNumber, v: Levels, level: nat)
    requires LevelSorted(below) && Unique(FileSet(below)) && forall f :: f in i1 <==> f in below && Meets(f, i0)
    requires BoundaryClosed(below, i1)
    requires p.inputs == FileSet(i0) + FileSet(i1) && p.beside == set g, e | g in below && g !in i1 && e in g.contents :: e
    ensures !Exposed(p, k, oldest, v, level)
  {
    MeetingIsConvex(below, i0, i1);
    forall d, b ensures !Uncovers(p, k, oldest, v, level, d, b) {
      if Uncovers(p, k, oldest, v, level, d, b) {
        assert Visible(b, k, d.sn - 1);
        var g :| g in below && g !in i1 && b in g.contents;
        if d in FileSet(i0) {
          SharesNoKey(i0, g, d, b);
        } else {
          var f :| f in i1 && d in f.contents;
          assert b in Elems(g.contents) && d in Elems(f.contents);
          NewerIfBoundaryClosed(below, i1, g, f);
        }
      }
    }
  }
}
