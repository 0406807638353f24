/**
  Version edits and the builder that applies a run of them to a version in one merge per level.
 */
module VersionBuilder {
  import opened Wrappers
  import opened DbFormat
  import opened Versions

  datatype NewFile = NewFile(level: nat, file: File)
  datatype DeletedFile = DeletedFile(level: nat, number: nat)
  datatype Edit = Edit(deleted: set<DeletedFile>, added: seq<NewFile>)

  predicate EditOk(e: Edit) {
    (forall d :: d in e.deleted ==> d.level < NUM_LEVELS) && (forall a :: a in e.added ==> a.level < NUM_LEVELS)
  }

  /** BySmallestKey: smallest key first, ties by file number. */
  predicate FileBefore(f: File, g: File) {
    Before(Smallest(f), Smallest(g)) || (Smallest(f) == Smallest(g) && f.number < g.number)
  }

  ghost predicate BySmallest(fs: seq<File>) {
    forall i, j :: 0 <= i < j < |fs| ==> FileBefore(fs[i], fs[j])
  }

  /** A std::set insertion: an element that compares equal is already there and stays. */
  function InsertFile(fs: seq<File>, f: File): (r: seq<File>)
    ensures forall g :: g in r ==> g == f || g in fs
    ensures forall g :: g in fs ==> g in r
  {
    if fs == [] || FileBefore(f, fs[0]) then [f] + fs
    else if FileBefore(fs[0], f) then [fs[0]] + InsertFile(fs[1..], f)
    else fs
  }

  lemma {:induction false} InsertFileSorted(fs: seq<File>, f: File)
    requires BySmallest(fs)
    ensures BySmallest(InsertFile(fs, f))
    ensures (forall g :: g in fs ==> g.number != f.number) ==> f in InsertFile(fs, f)
  {
    if fs != [] && FileBefore(fs[0], f) {
      InsertFileSorted(fs[1..], f);
      var r := InsertFile(fs[1..], f);
      forall i | 0 <= i < |r| ensures FileBefore(fs[0], r[i]) {
        assert r[i] in r;
      }
    }
  }

  function InsertFiles(fs: seq<File>, added: seq<File>): seq<File>
    decreases |added|
  {
    if added == [] then fs else InsertFile(InsertFiles(fs, added[..|added| - 1]), added[|added| - 1])
  }

  function Without(fs: seq<File>, numbers: set<nat>): (r: seq<File>)
    ensures forall f :: f in r <==> f in fs && f.number !in numbers
  {
    if fs == [] then []
    else Without(fs[..|fs| - 1], numbers) + if fs[|fs| - 1].number in numbers then [] else [fs[|fs| - 1]]
  }

  lemma {:induction false} WithoutSorted(fs: seq<File>, numbers: set<nat>)
    requires BySmallest(fs)
    ensures BySmallest(Without(fs, numbers))
  {
    if fs != [] {
      var n := |fs| - 1;
      WithoutSorted(fs[..n], numbers);
      var r := Without(fs[..n], numbers);
      forall i | 0 <= i < |r| ensures FileBefore(r[i], fs[n]) {
        assert r[i] in r;
      }
    }
  }

  /** Two sorted lists of the same files are the same list. */
  lemma {:induction false} SortedListUnique(a: seq<File>, b: seq<File>)
    requires BySmallest(a) && BySmallest(b) && forall f :: f in a <==> f in b
    ensures a == b
  {
    if a == [] {
      assert forall i :: 0 <= i < |b| ==> b[i] in b;
    } else {
      assert a[0] in b && (b != [] ==> b[0] in a);
      assert a[0] == b[0] by {
        var i :| 0 <= i < |b| && b[i] == a[0];
        var j :| 0 <= j < |a| && a[j] == b[0];
      }
      forall f ensures f in a[1..] <==> f in b[1..] {
        assert f in a[1..] <==> f in a && f != a[0];
        assert f in b[1..] <==> f in b && f != b[0];
      }
      SortedListUnique(a[1..], b[1..]);
    }
  }

  /* ---- What the builder accumulates ---- */

  function DeletedAt(e: Edit, level: nat): set<nat> {
    set d | d in e.deleted && d.level == level :: d.number
  }

  function AddedAt(added: seq<NewFile>, level: nat): (r: seq<File>)
    ensures forall f :: f in r <==> NewFile(level, f) in added
  {
    if added == [] then []
    else AddedAt(added[..|added| - 1], level) + if added[|added| - 1].level == level then [added[|added| - 1].file] else []
  }

  lemma NoneAdded(a: seq<NewFile>, l: nat)
    requires a == []
    ensures AddedAt(a, l) == []
  {
  }

  lemma AddedAtLast(a: seq<NewFile>, x: NewFile, l: nat)
    ensures AddedAt(a + [x], l) == AddedAt(a, l) + if x.level == l then [x.file] else []
  {
    assert (a + [x])[..|a|] == a;
  }

  function Numbers(fs: seq<File>): set<nat> {
    set i | 0 <= i < |fs| :: fs[i].number
  }

  datatype LevelState = LevelState(deleted: set<nat>, added: seq<File>)

  function WithAdded(s: LevelState, added: seq<File>): LevelState {
    LevelState(s.deleted - Numbers(added), InsertFiles(s.added, added))
  }

  function Accumulate(s: LevelState, e: Edit, level: nat): LevelState {
    WithAdded(LevelState(s.deleted + DeletedAt(e, level), s.added), AddedAt(e.added, level))
  }

  class Builder {
    const base: Levels
    var levels: seq<LevelState>

    constructor (base: Levels)
      ensures this.base == base && levels == seq(NUM_LEVELS, i => LevelState({}, []))
    {
      this.base := base;
      levels := seq(NUM_LEVELS, i => LevelState({}, []));
    }

    method Apply(e: Edit)
      requires EditOk(e) && |levels| == NUM_LEVELS
      modifies this
      ensures |levels| == NUM_LEVELS
      ensures forall l :: 0 <= l < NUM_LEVELS ==> levels[l] == Accumulate(old(levels[l]), e, l)
    {
      DeleteFiles(e.deleted);
      assert forall l :: 0 <= l < NUM_LEVELS ==> levels[l].deleted == old(levels[l]).deleted + DeletedAt(e, l);
      AddFiles(e.added);
    }

    method DeleteFiles(deleted: set<DeletedFile>)
      requires |levels| == NUM_LEVELS && forall d :: d in deleted ==> d.level < NUM_LEVELS
      modifies this
      ensures |levels| == NUM_LEVELS
      ensures forall l :: 0 <= l < NUM_LEVELS ==> levels[l].added == old(levels[l]).added
      ensures forall l, n :: 0 <= l < NUM_LEVELS ==>
                (n in levels[l].deleted <==> n in old(levels[l]).deleted || DeletedFile(l, n) in deleted)
    {
      var pending := deleted;
      while pending != {}
        invariant pending <= deleted && |levels| == NUM_LEVELS
        invariant forall l :: 0 <= l < NUM_LEVELS ==> levels[l].added == old(levels[l]).added
        invariant forall l, n :: 0 <= l < NUM_LEVELS ==>
                    (n in levels[l].deleted <==> n in old(levels[l]).deleted || DeletedFile(l, n) in deleted - pending)
        decreases pending
      {
        var d :| d in pending;
        pending := pending - {d};
        levels := levels[d.level := LevelState(levels[d.level].deleted + {d.number}, levels[d.level].added)];
      }
    }

    method AddFiles(added: seq<NewFile>)
      requires |levels| == NUM_LEVELS && forall a :: a in added ==> a.level < NUM_LEVELS
      modifies this
      ensures |levels| == NUM_LEVELS
      ensures forall l :: 0 <= l < NUM_LEVELS ==> levels[l] == WithAdded(old(levels[l]), AddedAt(added, l))
    {
      for i := 0 to |added|
        invariant |levels| == NUM_LEVELS
        invariant forall l :: 0 <= l < NUM_LEVELS ==> levels[l] == WithAdded(old(levels[l]), AddedAt(added[..i], l))
      {
        assert added[..i + 1][..i] == added[..i];
        var level, f := added[i].level, added[i].file;
        assert forall l :: AddedAt(added[..i + 1], l) == if l == level then AddedAt(added[..i], l) + [f] else AddedAt(added[..i], l);
        var s := levels[level];
        WithAddedStep(old(levels[level]), AddedAt(added[..i], level), f);
        levels := levels[level := LevelState(s.deleted - {f.number}, InsertFile(s.added, f))];
      }
      assert added[..|added|] == added;
    }

    /** One merge per level of the base files with the added ones, leaving out what was deleted. */
    method SaveTo() returns (v: Levels)
      requires |levels| == NUM_LEVELS
      requires forall l :: 0 <= l < NUM_LEVELS ==> BySmallest(base[l]) && BySmallest(levels[l].added)
      requires forall l, f, g :: 0 <= l < NUM_LEVELS && f in base[l] && g in levels[l].added ==> f.number != g.number
      ensures forall l :: 0 <= l < NUM_LEVELS ==> BySmallest(v[l])
      ensures forall l, f :: 0 <= l < NUM_LEVELS ==>
                (f in v[l] <==> (f in base[l] || f in levels[l].added) && f.number !in levels[l].deleted)
    {
      v := [[], [], [], [], [], [], []];
      for level := 0 to NUM_LEVELS
        invariant forall l :: 0 <= l < level ==> BySmallest(v[l])
        invariant forall l, f :: 0 <= l < level ==>
                    (f in v[l] <==> (f in base[l] || f in levels[l].added) && f.number !in levels[l].deleted)
      {
        var files := MergeLevel(base[level], levels[level].added, levels[level].deleted);
        assert Merged(files, base[level], levels[level].added, levels[level].deleted);
        v := v[level := files];
      }
    }
  }

  lemma WithAddedStep(s: LevelState, added: seq<File>, f: File)
    ensures WithAdded(s, added + [f]) ==
            LevelState(WithAdded(s, added).deleted - {f.number}, InsertFile(WithAdded(s, added).added, f))
  {
    assert (added + [f])[..|added|] == added;
    assert Numbers(added + [f]) == Numbers(added) + {f.number} by {
      forall n | n in Numbers(added) ensures n in Numbers(added + [f]) {
        var i :| 0 <= i < |added| && added[i].number == n;
        assert (added + [f])[i].number == n;
      }
      assert (added + [f])[|added|].number == f.number;
    }
  }

  ghost predicate AllBefore(fs: seq<File>, f: File) {
    forall g :: g in fs ==> FileBefore(g, f)
  }

  lemma AllBeforeTransitive(fs: seq<File>, f: File, g: File)
    requires AllBefore(fs, f) && FileBefore(f, g)
    ensures AllBefore(fs + [f], g)
  {
  }

  lemma PrefixBefore(fs: seq<File>, i: nat)
    requires BySmallest(fs) && i < |fs|
    ensures AllBefore(fs[..i], fs[i])
  {
  }

  ghost predicate Merged(files: seq<File>, mine: seq<File>, others: seq<File>, deleted: set<nat>) {
    BySmallest(files) && forall f :: f in files <==> (f in mine || f in others) && f.number !in deleted
  }

  method MergeLevel(base: seq<File>, added: seq<File>, deleted: set<nat>) returns (files: seq<File>)
    requires BySmallest(base) && BySmallest(added)
    requires forall f, g :: f in base && g in added ==> f.number != g.number
    ensures Merged(files, base, added, deleted)
  {
    files := [];
    var bi := 0;
    for ai := 0 to |added|
      invariant 0 <= bi <= |base| && Merged(files, base[..bi], added[..ai], deleted)
      invariant ai < |added| ==> AllBefore(base[..bi], added[ai])
      invariant bi < |base| ==> AllBefore(added[..ai], base[bi])
    {
      var a := added[ai];
      files, bi := CopySmaller(files, base, bi, added, ai, deleted);
      PrefixBefore(added, ai);
      files := MaybeAddFile(files, a, deleted, added[..ai], base[..bi]);
      assert added[..ai + 1] == added[..ai] + [a];
      if ai + 1 < |added| {
        AllBeforeTransitive(base[..bi], a, added[ai + 1]);
      }
    }
    assert added[..|added|] == added;
    files := CopyRest(files, base, bi, added, deleted);
  }

  method CopyRest(before: seq<File>, base: seq<File>, start: nat, added: seq<File>, deleted: set<nat>)
    returns (files: seq<File>)
    requires BySmallest(base) && start <= |base|
    requires Merged(before, base[..start], added, deleted)
    requires start < |base| ==> AllBefore(added, base[start])
    ensures Merged(files, base, added, deleted)
  {
    files := before;
    var bi := start;
    while bi < |base|
      invariant bi <= |base| && Merged(files, base[..bi], added, deleted)
      invariant bi < |base| ==> AllBefore(added, base[bi])
    {
      PrefixBefore(base, bi);
      files := MaybeAddFile(files, base[bi], deleted, base[..bi], added);
      assert base[..bi + 1] == base[..bi] + [base[bi]];
      if bi + 1 < |base| {
        AllBeforeTransitive(added, base[bi], base[bi + 1]);
      }
      bi := bi + 1;
    }
    assert base[..bi] == base;
  }

  /** Take the base files up to the upper bound of the next added file. */
  method CopySmaller(before: seq<File>, base: seq<File>, start: nat, added: seq<File>, ai: nat, deleted: set<nat>)
    returns (files: seq<File>, bi: nat)
    requires BySmallest(base) && start <= |base| && ai < |added|
    requires forall f, g :: f in base && g in added ==> f.number != g.number
    requires Merged(before, base[..start], added[..ai], deleted)
    requires AllBefore(base[..start], added[ai])
    requires start < |base| ==> AllBefore(added[..ai], base[start])
    ensures bi <= |base| && Merged(files, base[..bi], added[..ai], deleted)
    ensures AllBefore(base[..bi], added[ai])
    ensures bi < |base| ==> AllBefore(added[..ai], base[bi]) && FileBefore(added[ai], base[bi])
  {
    files, bi := before, start;
    var a := added[ai];
    while bi < |base| && !FileBefore(a, base[bi])
      invariant bi <= |base| && Merged(files, base[..bi], added[..ai], deleted)
      invariant AllBefore(base[..bi], a)
      invariant bi < |base| ==> AllBefore(added[..ai], base[bi])
    {
      assert base[bi] in base && a in added;
      PrefixBefore(base, bi);
      files := MaybeAddFile(files, base[bi], deleted, base[..bi], added[..ai]);
      assert base[..bi + 1] == base[..bi] + [base[bi]];
      if bi + 1 < |base| {
        AllBeforeTransitive(added[..ai], base[bi], base[bi + 1]);
      }
      bi := bi + 1;
    }
  }

  method MaybeAddFile(files: seq<File>, f: File, deleted: set<nat>, ghost mine: seq<File>, ghost others: seq<File>)
    returns (r: seq<File>)
    requires Merged(files, mine, others, deleted) || Merged(files, others, mine, deleted)
    requires AllBefore(mine, f) && AllBefore(others, f)
    ensures Merged(r, mine + [f], others, deleted)
    ensures Merged(r, others, mine + [f], deleted)
  {
    r := files;
    if f.number in deleted {
    } else {
      forall i | 0 <= i < |files| ensures FileBefore(files[i], f) {
        assert files[i] in files;
      }
      r := files + [f];
    }
  }

  /* ---- One merge for many edits ---- */

  function ApplyOne(fs: seq<File>, e: Edit, level: nat): seq<File> {
    var added := AddedAt(e.added, level);
    InsertFiles(Without(fs, DeletedAt(e, level) - Numbers(added)), added)
  }

  /** The level after the edits take effect one version at a time. */
  function OneByOne(base: seq<File>, es: seq<Edit>, level: nat): seq<File> {
    if es == [] then base else ApplyOne(OneByOne(base, es[..|es| - 1], level), es[|es| - 1], level)
  }

  function AccumulateAll(es: seq<Edit>, level: nat): LevelState {
    if es == [] then LevelState({}, []) else Accumulate(AccumulateAll(es[..|es| - 1], level), es[|es| - 1], level)
  }

  /** `added` brings in files under numbers that neither `fs` nor each other uses. */
  ghost predicate FreshNumbers(fs: seq<File>, added: seq<File>) {
    && (forall f, g :: f in fs && g in added ==> f.number != g.number)
    && (forall i, j :: 0 <= i < j < |added| ==> added[i].number != added[j].number)
  }

  /** At this level a file number is added at most once over the base and the edits. */
  ghost predicate AddedOnce(base: seq<File>, es: seq<Edit>, level: nat) {
    if es == [] then true
    else
      && AddedOnce(base, es[..|es| - 1], level)
      && FreshNumbers(base + AccumulateAll(es[..|es| - 1], level).added, AddedAt(es[|es| - 1].added, level))
  }

  lemma {:induction false} InsertFilesMembers(fs: seq<File>, added: seq<File>)
    requires BySmallest(fs) && FreshNumbers(fs, added)
    ensures BySmallest(InsertFiles(fs, added))
    ensures forall f :: f in InsertFiles(fs, added) <==> f in fs || f in added
    decreases |added|
  {
    if added != [] {
      var n := |added| - 1;
      InsertFilesMembers(fs, added[..n]);
      InsertFileSorted(InsertFiles(fs, added[..n]), added[n]);
      assert added == added[..n] + [added[n]];
    }
  }

  lemma NumbersAre(fs: seq<File>, n: nat)
    ensures n in Numbers(fs) <==> exists f :: f in fs && f.number == n
  {
    if n in Numbers(fs) {
      var i :| 0 <= i < |fs| && fs[i].number == n;
      assert fs[i] in fs;
    }
  }

  lemma {:induction false} BatchMembers(base: seq<File>, es: seq<Edit>, level: nat)
    requires BySmallest(base) && AddedOnce(base, es, level)
    ensures BySmallest(AccumulateAll(es, level).added)
    ensures BySmallest(OneByOne(base, es, level))
    ensures var s := AccumulateAll(es, level);
            forall f :: f in OneByOne(base, es, level) <==> (f in base || f in s.added) && f.number !in s.deleted
  {
    if es != [] {
      var n := |es| - 1;
      BatchMembers(base, es[..n], level);
      var s := AccumulateAll(es[..n], level);
      var prev := OneByOne(base, es[..n], level);
      var added := AddedAt(es[n].added, level);
      var kept := Without(prev, DeletedAt(es[n], level) - Numbers(added));
      WithoutSorted(prev, DeletedAt(es[n], level) - Numbers(added));
      assert FreshNumbers(s.added, added) && FreshNumbers(kept, added) by {
        assert forall f :: f in s.added || f in prev ==> f in base + s.added;
      }
      InsertFilesMembers(s.added, added);
      InsertFilesMembers(kept, added);
      forall f ensures f in OneByOne(base, es, level) <==>
                (f in base || f in AccumulateAll(es, level).added) && f.number !in AccumulateAll(es, level).deleted {
        NumbersAre(added, f.number);
        assert f in base || f in s.added ==> f in base + s.added;
      }
    }
  }

  /** The builder's one merge per level gives the version that applying the edits one by one gives. */
  lemma BatchIsOneByOne(base: seq<File>, es: seq<Edit>, level: nat, merged: seq<File>)
    requires BySmallest(base) && AddedOnce(base, es, level)
    requires var s := AccumulateAll(es, level); Merged(merged, base, s.added, s.deleted)
    ensures merged == OneByOne(base, es, level)
  {
    BatchMembers(base, es, level);
    SortedListUnique(merged, OneByOne(base, es, level));
  }

  /** Deleting file 7 and later adding another file under number 7. */
  function DeleteSeven(): Edit {
    Edit({DeletedFile(1, 7)}, [])
  }

  function AddSeven(g: File): Edit {
    Edit({}, [NewFile(1, g)])
  }

  lemma SevenAlone(f: File, g: File)
    requires f.number == 7 && g.number == 7
    ensures DeletedAt(DeleteSeven(), 1) == {7} && AddedAt(DeleteSeven().added, 1) == []
    ensures DeletedAt(AddSeven(g), 1) == {} && AddedAt(AddSeven(g).added, 1) == [g] && Numbers([g]) == {7}
    ensures Without([f], {7}) == []
  {
    assert DeletedFile(1, 7) in DeleteSeven().deleted;
    assert AddSeven(g).added[..0] == [];
    assert [g][0].number == 7;
    var r := Without([f], {7});
    assert forall h :: h in r ==> h == f;
    assert forall i :: 0 <= i < |r| ==> r[i] in r;
  }

  lemma SevenDeleted(f: File)
    requires f.number == 7
    ensures OneByOne([f], [DeleteSeven()], 1) == []
    ensures AccumulateAll([DeleteSeven()], 1).deleted == {7}
  {
    SevenAlone(f, f);
    var e := DeleteSeven();
    assert [e][..0] == [];
    assert Numbers([]) == {};
    assert DeletedAt(e, 1) - Numbers(AddedAt(e.added, 1)) == {7};
  }

  /**
    Without that, the batch brings a deleted file back when a later edit reuses its number: one by
    one the old file is gone, yet the builder no longer lists its number as deleted.
   */
  lemma ReusedNumberRevives(f: File, g: File)
    requires f.number == 7 && g.number == 7 && f != g
    ensures f !in OneByOne([f], [DeleteSeven(), AddSeven(g)], 1)
    ensures f.number !in AccumulateAll([DeleteSeven(), AddSeven(g)], 1).deleted
  {
    var es := [DeleteSeven(), AddSeven(g)];
    assert es[..1] == [DeleteSeven()];
    SevenAlone(f, g);
    SevenDeleted(f);
    assert [g][..0] == [];
    assert InsertFiles([], [g]) == [g];
  }
}
