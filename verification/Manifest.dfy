/**
  The manifest: a log of version edits.  Reading it back, as far as it goes, and applying the edits in one
  batch gives the version that they led to one by one.
 */
module Manifest {
  import opened Wrappers
  import opened ByteCoding
  import opened LogFormat
  import opened DbFormat
  import opened Versions
  import LogReader
  import VE = VersionEdit
  import VB = VersionBuilder

  /** The table that the metadata in the manifest stands for. */
  type Load = VE.FileMeta -> File

  function MeaningOfNew(added: seq<VE.New>, load: Load): (r: seq<VB.NewFile>)
    ensures |r| == |added| && forall i :: 0 <= i < |r| ==> r[i] == VB.NewFile(added[i].level, load(added[i].file))
  {
    if added == [] then []
    else
      var n := |added| - 1;
      MeaningOfNew(added[..n], load) + [VB.NewFile(added[n].level, load(added[n].file))]
  }

  function Meaning(e: VE.Edit, load: Load): VB.Edit {
    VB.Edit(set d | d in e.deletedFiles :: VB.DeletedFile(d.level, d.number), MeaningOfNew(e.newFiles, load))
  }

  function Meanings(es: seq<VE.Edit>, load: Load): (r: seq<VB.Edit>)
    ensures |r| == |es|
  {
    if es == [] then [] else Meanings(es[..|es| - 1], load) + [Meaning(es[|es| - 1], load)]
  }

  /** One record per edit. */
  function Records(es: seq<VE.Edit>): (r: seq<Bytes>)
    ensures |r| == |es|
  {
    if es == [] then [] else Records(es[..|es| - 1]) + [VE.EncodeFields(VE.Fields(es[|es| - 1]))]
  }

  lemma {:induction false} RecordAt(es: seq<VE.Edit>, i: nat)
    requires i < |es|
    ensures Records(es)[i] == VE.EncodeFields(VE.Fields(es[i])) && Records(es)[..i] == Records(es[..i])
    decreases |es|
  {
    hide VE.EncodeFields, VE.Fields;
    var n := |es| - 1;
    if i < n {
      RecordAt(es[..n], i);
      assert es[..n][..i] == es[..i];
      assert Records(es)[..i] == Records(es[..n])[..i];
    }
  }

  /* ---- The counters ---- */

  /** The last number of each kind read so far. */
  datatype Numbers = Numbers(logNumber: Option<nat>, prevLogNumber: Option<nat>, nextFile: Option<nat>, lastSequence: Option<nat>)

  function Latest<T>(before: Option<T>, now: Option<T>): Option<T> {
    if now.Some? then now else before
  }

  function Update(n: Numbers, e: VE.Edit): Numbers {
    Numbers(Latest(n.logNumber, e.logNumber), Latest(n.prevLogNumber, e.prevLogNumber),
            Latest(n.nextFile, e.nextFileNumber), Latest(n.lastSequence, e.lastSequence))
  }

  datatype Counter = LogNumber | PrevLogNumber | NextFile | LastSequence

  function Recorded(e: VE.Edit, c: Counter): Option<nat> {
    match c
    case LogNumber => e.logNumber
    case PrevLogNumber => e.prevLogNumber
    case NextFile => e.nextFileNumber
    case LastSequence => e.lastSequence
  }

  ghost predicate IsRecorded(es: seq<VE.Edit>, c: Counter) {
    exists i: nat :: i < |es| && Recorded(es[i], c).Some?
  }

  /** Some edit records `v`, and none behind it records another number. */
  ghost predicate LastRecorded(es: seq<VE.Edit>, c: Counter, v: nat) {
    exists i: nat :: LastAt(es, c, v, i)
  }

  ghost predicate LastAt(es: seq<VE.Edit>, c: Counter, v: nat, i: nat) {
    i < |es| && Recorded(es[i], c) == Some(v) && forall j :: i < j < |es| ==> Recorded(es[j], c).None?
  }

  ghost predicate Known(es: seq<VE.Edit>, c: Counter, v: Option<nat>) {
    if v.Some? then LastRecorded(es, c, v.value) else !IsRecorded(es, c)
  }

  ghost predicate AllKnown(es: seq<VE.Edit>, n: Numbers) {
    && Known(es, LogNumber, n.logNumber) && Known(es, PrevLogNumber, n.prevLogNumber)
    && Known(es, NextFile, n.nextFile) && Known(es, LastSequence, n.lastSequence)
  }

  lemma KnownNext(es: seq<VE.Edit>, e: VE.Edit, c: Counter, v: Option<nat>)
    requires Known(es, c, v)
    ensures Known(es + [e], c, if Recorded(e, c).Some? then Recorded(e, c) else v)
  {
    var all := es + [e];
    hide Recorded;
    if Recorded(e, c).Some? {
      assert LastAt(all, c, Recorded(e, c).value, |es|);
    } else if v.Some? {
      var i: nat :| LastAt(es, c, v.value, i);
      assert forall j :: i < j < |all| ==> all[j] == e || all[j] == es[j];
      assert LastAt(all, c, v.value, i);
    }
  }

  lemma AllKnownNext(es: seq<VE.Edit>, e: VE.Edit, n: Numbers)
    requires AllKnown(es, n)
    ensures AllKnown(es + [e], Update(n, e))
  {
    hide Known;
    KnownNext(es, e, LogNumber, n.logNumber);
    KnownNext(es, e, PrevLogNumber, n.prevLogNumber);
    KnownNext(es, e, NextFile, n.nextFile);
    KnownNext(es, e, LastSequence, n.lastSequence);
  }

  predicate SameComparator(e: VE.Edit, name: Bytes) {
    e.comparator == None || e.comparator == Some(name)
  }

  datatype Recovered = Recovered(version: Levels, manifestNumber: nat, nextFileNumber: nat, lastSequence: nat,
                                 logNumber: nat, prevLogNumber: nat)

  /** What recovery must find recorded. */
  ghost predicate Complete(es: seq<VE.Edit>) {
    IsRecorded(es, NextFile) && IsRecorded(es, LogNumber) && IsRecorded(es, LastSequence)
  }

  /** Each counter is the last one recorded; the manifest itself takes the next file number. */
  ghost predicate LastNumbers(es: seq<VE.Edit>, r: Recovered) {
    && LastRecorded(es, NextFile, r.manifestNumber) && r.nextFileNumber == r.manifestNumber + 1
    && LastRecorded(es, LastSequence, r.lastSequence) && LastRecorded(es, LogNumber, r.logNumber)
    && if IsRecorded(es, PrevLogNumber) then LastRecorded(es, PrevLogNumber, r.prevLogNumber) else r.prevLogNumber == 0
  }

  lemma CompleteIfKnown(es: seq<VE.Edit>, n: Numbers)
    requires AllKnown(es, n)
    ensures Complete(es) <==> n.nextFile.Some? && n.logNumber.Some? && n.lastSequence.Some?
    ensures IsRecorded(es, PrevLogNumber) <==> n.prevLogNumber.Some?
  {
  }

  ghost predicate EditsOk(es: seq<VE.Edit>, load: Load) {
    && (forall i :: 0 <= i < |es| ==> VE.WellFormed(es[i]))
    && (forall l :: 0 <= l < NUM_LEVELS ==> VB.AddedOnce([], Meanings(es, load), l))
  }

  lemma LevelsExist(e: VE.Edit, load: Load)
    requires VE.WellFormed(e)
    ensures VB.EditOk(Meaning(e, load))
  {
    var fs := VE.Fields(e);
    var p := |VE.Scalars(e, 5)| + |e.compactPointers|;
    forall i | 0 <= i < |e.deletedFiles| ensures e.deletedFiles[i].level < NUM_LEVELS {
      assert fs[p + i] == VE.DeletedFile(e.deletedFiles[i].level, e.deletedFiles[i].number);
      assert VE.Sized(fs[p + i]);
    }
    forall i | 0 <= i < |e.newFiles| ensures e.newFiles[i].level < NUM_LEVELS {
      assert fs[p + |e.deletedFiles| + i] == VE.NewFile(e.newFiles[i].level, e.newFiles[i].file);
      assert VE.Sized(fs[p + |e.deletedFiles| + i]);
    }
  }

  lemma {:induction false} AddedOncePrefix(base: seq<File>, es: seq<VB.Edit>, level: nat, i: nat)
    requires i <= |es| && VB.AddedOnce(base, es, level)
    ensures VB.AddedOnce(base, es[..i], level)
    decreases |es|
  {
    if i < |es| {
      AddedOncePrefix(base, es[..|es| - 1], level, i);
      assert es[..|es| - 1][..i] == es[..i];
    } else {
      assert es[..i] == es;
    }
  }

  lemma {:induction false} MeaningsPrefix(es: seq<VE.Edit>, load: Load, i: nat)
    requires i <= |es|
    ensures Meanings(es, load)[..i] == Meanings(es[..i], load)
    decreases |es|
  {
    if i < |es| {
      MeaningsPrefix(es[..|es| - 1], load, i);
      assert es[..|es| - 1][..i] == es[..i];
      assert Meanings(es, load)[..i] == Meanings(es[..|es| - 1], load)[..i];
    } else {
      assert es[..i] == es;
    }
  }

  method SaveVersion(builder: VB.Builder, ghost es: seq<VB.Edit>) returns (v: Levels)
    requires builder.base == [[], [], [], [], [], [], []] && |builder.levels| == NUM_LEVELS
    requires forall l :: 0 <= l < NUM_LEVELS ==> builder.levels[l] == VB.AccumulateAll(es, l) && VB.AddedOnce([], es, l)
    ensures forall l :: 0 <= l < NUM_LEVELS ==> v[l] == VB.OneByOne([], es, l)
  {
    hide VB.AccumulateAll, VB.AddedOnce, VB.OneByOne;
    forall l | 0 <= l < NUM_LEVELS ensures VB.BySmallest(builder.levels[l].added) {
      VB.BatchMembers([], es, l);
    }
    v := builder.SaveTo();
    forall l | 0 <= l < NUM_LEVELS ensures v[l] == VB.OneByOne([], es, l) {
      assert VB.Merged(v[l], [], builder.levels[l].added, builder.levels[l].deleted);
      VB.BatchIsOneByOne([], es, l, v[l]);
    }
  }

  /** What the builder and the numbers have to be after some edits. */
  ghost predicate ReadSoFar(levels: seq<VB.LevelState>, numbers: Numbers, es: seq<VE.Edit>, load: Load) {
    && |levels| == NUM_LEVELS && AllKnown(es, numbers)
    && forall l :: 0 <= l < NUM_LEVELS ==> levels[l] == VB.AccumulateAll(Meanings(es, load), l)
  }

  lemma NothingRead(levels: seq<VB.LevelState>, load: Load)
    requires levels == seq(NUM_LEVELS, i => VB.LevelState({}, []))
    ensures ReadSoFar(levels, Numbers(None, None, None, None), [], load)
  {
  }

  lemma OneMoreRead(levels: seq<VB.LevelState>, numbers: Numbers, es: seq<VE.Edit>, e: VE.Edit, load: Load, levels': seq<VB.LevelState>)
    requires ReadSoFar(levels, numbers, es, load) && |levels'| == NUM_LEVELS
    requires forall l :: 0 <= l < NUM_LEVELS ==> levels'[l] == VB.Accumulate(levels[l], Meaning(e, load), l)
    ensures ReadSoFar(levels', Update(numbers, e), es + [e], load)
  {
    hide Meaning, VB.Accumulate, AllKnown, Update;
    AllKnownNext(es, e, numbers);
    var ms, m := Meanings(es, load), Meaning(e, load);
    assert (es + [e])[..|es|] == es && (ms + [m])[..|ms|] == ms;
    assert Meanings(es + [e], load) == ms + [m];
    forall l | 0 <= l < NUM_LEVELS ensures levels'[l] == VB.AccumulateAll(ms + [m], l) {
      assert VB.AccumulateAll(ms + [m], l) == VB.Accumulate(VB.AccumulateAll(ms, l), m, l);
    }
  }

  /** Decode records and hand their edits to the builder, until one is for another comparator. */
  method ReadEdits(records: seq<Bytes>, builder: VB.Builder, name: Bytes, load: Load, ghost edits: seq<VE.Edit>)
    returns (numbers: Numbers, ok: bool)
    requires records == Records(edits) && forall i :: 0 <= i < |edits| ==> VE.WellFormed(edits[i])
    requires builder.levels == seq(NUM_LEVELS, i => VB.LevelState({}, []))
    modifies builder
    ensures ok <==> forall i :: 0 <= i < |edits| ==> SameComparator(edits[i], name)
    ensures ok ==> ReadSoFar(builder.levels, numbers, edits, load)
  {
    hide VE.WellFormed, VE.Fields, VE.EncodeFields, VE.Decode, Meaning, ReadSoFar, Update, Records, Meanings;
    numbers := Numbers(None, None, None, None);
    NothingRead(builder.levels, load);
    for i := 0 to |records|
      invariant |builder.levels| == NUM_LEVELS && ReadSoFar(builder.levels, numbers, edits[..i], load)
      invariant forall j :: 0 <= j < i ==> SameComparator(edits[j], name)
    {
      var edit := new VE.VersionEdit();
      RecordAt(edits, i);
      VE.RoundTrip(edits[i], edit.State());
      var decoded := edit.DecodeFrom(records[i]);
      assert edit.State() == edits[i] && decoded;
      if !decoded || (edit.comparator.Some? && edit.comparator.value != name) {
        assert !SameComparator(edits[i], name);
        return numbers, false;
      }
      ghost var levels := builder.levels;
      LevelsExist(edits[i], load);
      var e := edit.State();
      builder.Apply(Meaning(e, load));
      OneMoreRead(levels, numbers, edits[..i], e, load, builder.levels);
      assert edits[..i + 1] == edits[..i] + [e];
      numbers := Update(numbers, e);
    }
    assert edits[..|edits|] == edits;
    ok := true;
  }

  /**
    Recovery from a manifest of which a crash may have cut off the end: of the edits wholly in the file it
    gives the version they add up to and the last numbers they record, or an error if one is for another
    comparator or a number is missing.
   */
  method Recover(crc: Checksum, file: Bytes, name: Bytes, load: Load, ghost edits: seq<VE.Edit>)
    returns (r: Option<Recovered>, n: nat)
    requires EditsOk(edits, load) && file <= Encode(crc, 0, Records(edits))
    ensures n <= |edits| && |Encode(crc, 0, Records(edits)[..n])| <= |file|
    ensures n < |edits| ==> |file| < |Encode(crc, 0, Records(edits)[..n + 1])|
    ensures var es := edits[..n];
            && (r.Some? <==> (forall i :: 0 <= i < n ==> SameComparator(edits[i], name)) && Complete(es))
            && (r.Some? ==>
                  && (forall l :: 0 <= l < NUM_LEVELS ==> r.value.version[l] == VB.OneByOne([], Meanings(es, load), l))
                  && LastNumbers(es, r.value))
  {
    hide Encode, VE.WellFormed, VB.AccumulateAll, VB.AddedOnce, VB.OneByOne, Meanings, Records, IsRecorded, LastRecorded;
    var got, corruptions := LogReader.ReadAll(crc, file, Records(edits));
    n := |got|;
    ghost var es := edits[..n];
    RecordsPrefix(edits, n);
    EditsOkPrefix(edits, load, n);
    var builder := new VB.Builder([[], [], [], [], [], [], []]);
    r := None;
    var numbers, ok := ReadEdits(got, builder, name, load, es);
    if ok {
      CompleteIfKnown(es, numbers);
    }
    if !ok || numbers.nextFile.None? || numbers.logNumber.None? || numbers.lastSequence.None? {
      return;
    }
    var v := SaveVersion(builder, Meanings(es, load));
    r := Some(Recovered(v, numbers.nextFile.value, numbers.nextFile.value + 1, numbers.lastSequence.value,
                        numbers.logNumber.value, if numbers.prevLogNumber.Some? then numbers.prevLogNumber.value else 0));
  }

  lemma RecordsPrefix(es: seq<VE.Edit>, n: nat)
    requires n <= |es|
    ensures Records(es)[..n] == Records(es[..n])
  {
    hide VE.EncodeFields, VE.Fields;
    if n < |es| {
      RecordAt(es, n);
    } else {
      assert es[..n] == es;
    }
  }

  lemma EditsOkPrefix(es: seq<VE.Edit>, load: Load, n: nat)
    requires EditsOk(es, load) && n <= |es|
    ensures EditsOk(es[..n], load)
  {
    hide VE.WellFormed, VB.AddedOnce, Meanings;
    MeaningsPrefix(es, load, n);
    forall l | 0 <= l < NUM_LEVELS ensures VB.AddedOnce([], Meanings(es[..n], load), l) {
      AddedOncePrefix([], Meanings(es, load), l, n);
    }
  }

  /* ---- A new manifest ---- */

  function FilesOf(fs: seq<File>, level: nat, meta: File -> VE.FileMeta): (r: seq<VE.New>)
    ensures |r| == |fs| && forall i :: 0 <= i < |r| ==> r[i] == VE.New(level, meta(fs[i]))
  {
    if fs == [] then [] else FilesOf(fs[..|fs| - 1], level, meta) + [VE.New(level, meta(fs[|fs| - 1]))]
  }

  /** The files of the first levels of a version, level by level. */
  function FilesBelow(v: Levels, levels: nat, meta: File -> VE.FileMeta): seq<VE.New>
    requires levels <= NUM_LEVELS
  {
    if levels == 0 then [] else FilesBelow(v, levels - 1, meta) + FilesOf(v[levels - 1], levels - 1, meta)
  }

  /** The record a new manifest starts with. */
  method WriteSnapshot(v: Levels, name: Bytes, pointers: seq<VE.Pointer>, meta: File -> VE.FileMeta) returns (edit: VE.VersionEdit)
    ensures fresh(edit) && edit.newFiles == FilesBelow(v, NUM_LEVELS, meta) && edit.deletedFiles == []
    ensures edit.comparator == Some(name) && edit.compactPointers == pointers
    ensures edit.logNumber == edit.prevLogNumber == edit.nextFileNumber == edit.lastSequence == None
    ensures IsSnapshot(edit.State(), v, name, meta)
  {
    edit := new VE.VersionEdit();
    edit.comparator := Some(name);
    edit.compactPointers := pointers;
    for level := 0 to NUM_LEVELS
      invariant edit.newFiles == FilesBelow(v, level, meta) && edit.deletedFiles == [] && fresh(edit)
      invariant edit.comparator == Some(name) && edit.compactPointers == pointers
      invariant edit.logNumber == edit.prevLogNumber == edit.nextFileNumber == edit.lastSequence == None
    {
      edit.newFiles := edit.newFiles + FilesOf(v[level], level, meta);
    }
  }

  lemma Associative<T>(p: seq<T>, q: seq<T>, x: seq<T>)
    ensures p + (q + x) == p + q + x
  {
  }

  lemma {:induction false} AddedAtConcat(a: seq<VB.NewFile>, b: seq<VB.NewFile>, l: nat)
    ensures VB.AddedAt(a + b, l) == VB.AddedAt(a, l) + VB.AddedAt(b, l)
    decreases |b|
  {
    hide VB.AddedAt;
    if b == [] {
      VB.NoneAdded(b, l);
      assert a + b == a;
    } else {
      var b0, x := b[..|b| - 1], b[|b| - 1];
      var added := if x.level == l then [x.file] else [];
      assert b == b0 + [x];
      AddedAtConcat(a, b0, l);
      VB.AddedAtLast(a + b0, x, l);
      VB.AddedAtLast(b0, x, l);
      Associative(a, b0, [x]);
      Associative(VB.AddedAt(a, l), VB.AddedAt(b0, l), added);
    }
  }

  lemma {:induction false} AddedAtOneLevel(fs: seq<File>, level: nat, meta: File -> VE.FileMeta, load: Load, l: nat)
    requires forall f :: f in fs ==> load(meta(f)) == f
    ensures VB.AddedAt(MeaningOfNew(FilesOf(fs, level, meta), load), l) == if l == level then fs else []
  {
    if fs != [] {
      var n := |fs| - 1;
      AddedAtOneLevel(fs[..n], level, meta, load, l);
      var all := MeaningOfNew(FilesOf(fs, level, meta), load);
      assert all[..n] == MeaningOfNew(FilesOf(fs[..n], level, meta), load);
      assert all[n] == VB.NewFile(level, load(meta(fs[n]))) && load(meta(fs[n])) == fs[n];
    }
  }

  lemma MeaningOfConcat(a: seq<VE.New>, b: seq<VE.New>, load: Load)
    ensures MeaningOfNew(a + b, load) == MeaningOfNew(a, load) + MeaningOfNew(b, load)
  {
  }

  /** The metadata recorded for the files of a version leads back to them. */
  ghost predicate Loads(v: Levels, meta: File -> VE.FileMeta, load: Load) {
    forall i, f :: 0 <= i < NUM_LEVELS && f in v[i] ==> load(meta(f)) == f
  }

  lemma NoFiles(load: Load, l: nat)
    ensures VB.AddedAt(MeaningOfNew([], load), l) == []
  {
  }

  lemma OneLevelMore(below: seq<VE.New>, v: Levels, level: nat, meta: File -> VE.FileMeta, load: Load, l: nat)
    requires level < NUM_LEVELS && Loads(v, meta, load)
    ensures VB.AddedAt(MeaningOfNew(below + FilesOf(v[level], level, meta), load), l) ==
            VB.AddedAt(MeaningOfNew(below, load), l) + if l == level then v[level] else []
  {
    hide VB.AddedAt, MeaningOfNew, FilesOf;
    var b := FilesOf(v[level], level, meta);
    AddedAtOneLevel(v[level], level, meta, load, l);
    MeaningOfConcat(below, b, load);
    AddedAtConcat(MeaningOfNew(below, load), MeaningOfNew(b, load), l);
  }

  lemma {:induction false} SnapshotFiles(v: Levels, levels: nat, meta: File -> VE.FileMeta, load: Load, l: nat)
    requires levels <= NUM_LEVELS && l < NUM_LEVELS && Loads(v, meta, load)
    ensures VB.AddedAt(MeaningOfNew(FilesBelow(v, levels, meta), load), l) == if l < levels then v[l] else []
  {
    hide VB.AddedAt, MeaningOfNew, FilesOf, Loads;
    if levels == 0 {
      NoFiles(load, l);
    } else {
      SnapshotFiles(v, levels - 1, meta, load, l);
      OneLevelMore(FilesBelow(v, levels - 1, meta), v, levels - 1, meta, load, l);
    }
  }

  /** A manifest that starts with a snapshot of a version and goes on with edits leads where the edits lead from that version. */
  lemma {:induction false} SnapshotThenEdits(base: seq<File>, snapshot: VB.Edit, es: seq<VB.Edit>, l: nat)
    requires snapshot.deleted == {} && VB.AddedAt(snapshot.added, l) == base
    requires VB.BySmallest(base) && VB.FreshNumbers([], base)
    ensures VB.OneByOne([], [snapshot] + es, l) == VB.OneByOne(base, es, l)
    decreases |es|
  {
    var all := [snapshot] + es;
    if es == [] {
      assert all[..0] == [] && VB.OneByOne([], [], l) == [];
      VB.InsertFilesMembers([], base);
      VB.SortedListUnique(VB.InsertFiles([], base), base);
    } else {
      var n := |es| - 1;
      SnapshotThenEdits(base, snapshot, es[..n], l);
      assert all[..|all| - 1] == [snapshot] + es[..n];
    }
  }

  /** A snapshot adds its files once, and so do the edits behind it if they do from the version on. */
  lemma {:induction false} SnapshotAddedOnce(base: seq<File>, snapshot: VB.Edit, es: seq<VB.Edit>, l: nat)
    requires VB.AddedAt(snapshot.added, l) == base && VB.BySmallest(base) && VB.FreshNumbers([], base)
    requires VB.AddedOnce(base, es, l)
    ensures VB.AddedOnce([], [snapshot] + es, l)
    ensures VB.BySmallest(VB.AccumulateAll([snapshot] + es, l).added) && VB.BySmallest(VB.AccumulateAll(es, l).added)
    ensures forall f :: f in VB.AccumulateAll([snapshot] + es, l).added <==> f in base || f in VB.AccumulateAll(es, l).added
    decreases |es|
  {
    hide VB.AddedAt, VB.DeletedAt, VB.FreshNumbers, VB.AddedOnce, VB.AccumulateAll, VB.BySmallest, VB.InsertFiles;
    var all := [snapshot] + es;
    if es == [] {
      SnapshotAlone(base, snapshot, l);
      assert all == [snapshot];
    } else {
      var n := |es| - 1;
      LastEdit(base, es, l);
      LastEdit([], all, l);
      SnapshotAddedOnce(base, snapshot, es[..n], l);
      assert all[..|all| - 1] == [snapshot] + es[..n];
      SnapshotStep(base, VB.AccumulateAll(es[..n], l).added, VB.AccumulateAll(all[..|all| - 1], l).added, VB.AddedAt(es[n].added, l));
    }
  }

  lemma SnapshotAlone(base: seq<File>, snapshot: VB.Edit, l: nat)
    requires VB.AddedAt(snapshot.added, l) == base && VB.BySmallest(base) && VB.FreshNumbers([], base)
    ensures VB.AddedOnce([], [snapshot], l)
    ensures VB.BySmallest(VB.AccumulateAll([snapshot], l).added) && VB.BySmallest(VB.AccumulateAll([], l).added)
    ensures forall f :: f in VB.AccumulateAll([snapshot], l).added <==> f in base || f in VB.AccumulateAll([], l).added
  {
    hide VB.AddedAt, VB.DeletedAt;
    assert [snapshot][..0] == [];
    assert VB.AddedOnce([], [], l);
    VB.InsertFilesMembers([], base);
    var none: seq<File> := [];
    assert none + none == none;
  }

  lemma LastEdit(base: seq<File>, es: seq<VB.Edit>, l: nat)
    requires es != []
    ensures var n := |es| - 1;
            var before, added := VB.AccumulateAll(es[..n], l).added, VB.AddedAt(es[n].added, l);
            && VB.AccumulateAll(es, l).added == VB.InsertFiles(before, added)
            && (VB.AddedOnce(base, es, l) <==> VB.AddedOnce(base, es[..n], l) && VB.FreshNumbers(base + before, added))
  {
    hide VB.AddedAt, VB.DeletedAt, VB.FreshNumbers, VB.InsertFiles, VB.Numbers;
  }

  lemma SnapshotStep(base: seq<File>, some: seq<File>, all: seq<File>, added: seq<File>)
    requires VB.BySmallest(some) && VB.BySmallest(all) && VB.FreshNumbers(base + some, added)
    requires forall f :: f in all <==> f in base || f in some
    ensures VB.FreshNumbers([] + all, added)
    ensures VB.BySmallest(VB.InsertFiles(some, added)) && VB.BySmallest(VB.InsertFiles(all, added))
    ensures forall f :: f in VB.InsertFiles(all, added) <==> f in base || f in VB.InsertFiles(some, added)
  {
    assert forall f :: f in all || f in some ==> f in base + some;
    assert [] + all == all;
    VB.InsertFilesMembers(some, added);
    VB.InsertFilesMembers(all, added);
  }

  /** An edit as WriteSnapshot leaves it. */
  ghost predicate IsSnapshot(e: VE.Edit, v: Levels, name: Bytes, meta: File -> VE.FileMeta) {
    && e.newFiles == FilesBelow(v, NUM_LEVELS, meta) && e.deletedFiles == [] && e.comparator == Some(name)
    && e.logNumber == e.prevLogNumber == e.nextFileNumber == e.lastSequence == None
  }

  /** The edits after the snapshot can be applied to the version, one after the other. */
  ghost predicate FollowOn(v: Levels, es: seq<VE.Edit>, load: Load) {
    && (forall i :: 0 <= i < |es| ==> VE.WellFormed(es[i]))
    && forall l :: 0 <= l < NUM_LEVELS ==>
         VB.BySmallest(v[l]) && VB.FreshNumbers([], v[l]) && VB.AddedOnce(v[l], Meanings(es, load), l)
  }

  lemma MeaningsOfFirst(e: VE.Edit, es: seq<VE.Edit>, load: Load)
    ensures Meanings([e] + es, load) == [Meaning(e, load)] + Meanings(es, load)
  {
    hide Meaning;
    if es == [] {
      assert [e] + es == [e] && [e][..0] == [];
    } else {
      var n := |es| - 1;
      MeaningsOfFirst(e, es[..n], load);
      assert ([e] + es)[..|es|] == [e] + es[..n];
    }
  }

  lemma SnapshotLevel(snapshot: VE.Edit, v: Levels, name: Bytes, meta: File -> VE.FileMeta, load: Load, l: nat)
    requires IsSnapshot(snapshot, v, name, meta) && Loads(v, meta, load) && l < NUM_LEVELS
    ensures Meaning(snapshot, load).deleted == {} && VB.AddedAt(Meaning(snapshot, load).added, l) == v[l]
  {
    SnapshotFiles(v, NUM_LEVELS, meta, load, l);
  }

  lemma SnapshotEditsOk(snapshot: VE.Edit, v: Levels, name: Bytes, meta: File -> VE.FileMeta, load: Load, es: seq<VE.Edit>)
    requires IsSnapshot(snapshot, v, name, meta) && Loads(v, meta, load) && VE.WellFormed(snapshot) && FollowOn(v, es, load)
    ensures EditsOk([snapshot] + es, load)
  {
    hide VE.WellFormed, IsSnapshot, Loads, Meaning, Meanings, VB.AddedOnce, VB.BySmallest, VB.FreshNumbers;
    MeaningsOfFirst(snapshot, es, load);
    forall l | 0 <= l < NUM_LEVELS ensures VB.AddedOnce([], Meanings([snapshot] + es, load), l) {
      SnapshotLevel(snapshot, v, name, meta, load, l);
      SnapshotAddedOnce(v[l], Meaning(snapshot, load), Meanings(es, load), l);
    }
  }

  lemma SnapshotLeads(snapshot: VE.Edit, v: Levels, name: Bytes, meta: File -> VE.FileMeta, load: Load, es: seq<VE.Edit>, l: nat)
    requires IsSnapshot(snapshot, v, name, meta) && Loads(v, meta, load) && FollowOn(v, es, load) && l < NUM_LEVELS
    ensures VB.OneByOne([], Meanings([snapshot] + es, load), l) == VB.OneByOne(v[l], Meanings(es, load), l)
  {
    hide VE.WellFormed, IsSnapshot, Loads, Meaning, Meanings, VB.AddedOnce, VB.BySmallest, VB.FreshNumbers, VB.OneByOne;
    MeaningsOfFirst(snapshot, es, load);
    SnapshotLevel(snapshot, v, name, meta, load, l);
    SnapshotThenEdits(v[l], Meaning(snapshot, load), Meanings(es, load), l);
  }

  lemma LastAtBehind(e: VE.Edit, es: seq<VE.Edit>, c: Counter, v: nat, i: nat)
    requires Recorded(e, c).None?
    ensures LastAt([e] + es, c, v, i) <==> i > 0 && LastAt(es, c, v, i - 1)
  {
    hide Recorded;
    var all := [e] + es;
    assert all[0] == e && forall j :: 0 < j < |all| ==> all[j] == es[j - 1];
    if LastAt(all, c, v, i) {
      assert forall j :: i - 1 < j < |es| ==> es[j] == all[j + 1];
    }
  }

  /** A snapshot records no counter, so the last ones recorded are those of the edits behind it. */
  lemma SnapshotCounter(snapshot: VE.Edit, es: seq<VE.Edit>, c: Counter)
    requires Recorded(snapshot, c).None?
    ensures IsRecorded([snapshot] + es, c) <==> IsRecorded(es, c)
    ensures forall v: nat :: LastRecorded([snapshot] + es, c, v) <==> LastRecorded(es, c, v)
  {
    hide Recorded, LastAt;
    var all := [snapshot] + es;
    forall v: nat ensures LastRecorded(all, c, v) <==> LastRecorded(es, c, v) {
      if i: nat :| LastAt(all, c, v, i) {
        LastAtBehind(snapshot, es, c, v, i);
      }
      if i: nat :| LastAt(es, c, v, i) {
        LastAtBehind(snapshot, es, c, v, i + 1);
      }
    }
    assert all[0] == snapshot && forall i :: 0 <= i < |es| ==> all[i + 1] == es[i];
    if i: nat :| i < |es| && Recorded(es[i], c).Some? {
      assert Recorded(all[i + 1], c).Some?;
    }
  }

  lemma SnapshotCounters(snapshot: VE.Edit, es: seq<VE.Edit>, r: Recovered)
    requires snapshot.logNumber == snapshot.prevLogNumber == snapshot.nextFileNumber == snapshot.lastSequence == None
    ensures Complete([snapshot] + es) <==> Complete(es)
    ensures LastNumbers([snapshot] + es, r) <==> LastNumbers(es, r)
  {
    hide IsRecorded, LastRecorded;
    SnapshotCounter(snapshot, es, LogNumber);
    SnapshotCounter(snapshot, es, PrevLogNumber);
    SnapshotCounter(snapshot, es, NextFile);
    SnapshotCounter(snapshot, es, LastSequence);
  }

  /**
    Recovery from the manifest that a process has started with a snapshot of its version `v` and gone on
    with its edits: with `n` of them wholly in the file it gives exactly the version that these edits lead
    to from `v`, which with all of them is the current one.
   */
  method RecoverSnapshot(crc: Checksum, file: Bytes, name: Bytes, load: Load, ghost v: Levels, ghost meta: File -> VE.FileMeta,
                         ghost snapshot: VE.Edit, ghost edits: seq<VE.Edit>)
    returns (r: Option<Recovered>, n: nat)
    requires IsSnapshot(snapshot, v, name, meta) && VE.WellFormed(snapshot) && Loads(v, meta, load) && FollowOn(v, edits, load)
    requires file <= Encode(crc, 0, Records([snapshot] + edits))
    requires |Encode(crc, 0, Records([snapshot] + edits)[..1])| <= |file|
    ensures n <= |edits| && (file == Encode(crc, 0, Records([snapshot] + edits)) ==> n == |edits|)
    ensures r.Some? <==> (forall i :: 0 <= i < n ==> SameComparator(edits[i], name)) && Complete(edits[..n])
    ensures r.Some? ==> LastNumbers(edits[..n], r.value)
    ensures r.Some? ==> forall l :: 0 <= l < NUM_LEVELS ==>
              r.value.version[l] == VB.OneByOne(v[l], Meanings(edits[..n], load), l)
  {
    hide Encode, VE.WellFormed, VB.AccumulateAll, VB.AddedOnce, VB.OneByOne, Meanings, Records, Complete, LastNumbers, EditsOk, Loads, IsSnapshot,
      FollowOn;
    ghost var all := [snapshot] + edits;
    SnapshotEditsOk(snapshot, v, name, meta, load, edits);
    var m;
    r, m := Recover(crc, file, name, load, all);
    SnapshotRead(crc, file, all, m);
    n := m - 1;
    assert all[..m] == [snapshot] + edits[..n];
    FollowOnPrefix(v, edits, load, n);
    ComparatorOf(snapshot, v, name, meta);
    SnapshotCounters(snapshot, edits[..n], if r.Some? then r.value else Recovered([[], [], [], [], [], [], []], 0, 0, 0, 0, 0));
    assert all[0] == snapshot && forall i :: 0 <= i < n ==> all[i + 1] == edits[i];
    if r.Some? {
      forall l | 0 <= l < NUM_LEVELS ensures r.value.version[l] == VB.OneByOne(v[l], Meanings(edits[..n], load), l) {
        SnapshotLeads(snapshot, v, name, meta, load, edits[..n], l);
      }
    }
  }

  lemma ComparatorOf(snapshot: VE.Edit, v: Levels, name: Bytes, meta: File -> VE.FileMeta)
    requires IsSnapshot(snapshot, v, name, meta)
    ensures SameComparator(snapshot, name)
    ensures snapshot.logNumber == snapshot.prevLogNumber == snapshot.nextFileNumber == snapshot.lastSequence == None
  {
  }

  /** A file that holds the snapshot yields it, and a whole file yields everything. */
  lemma SnapshotRead(crc: Checksum, file: Bytes, all: seq<VE.Edit>, m: nat)
    requires all != [] && m <= |all| && file <= Encode(crc, 0, Records(all))
    requires |Encode(crc, 0, Records(all)[..1])| <= |file|
    requires m < |all| ==> |file| < |Encode(crc, 0, Records(all)[..m + 1])|
    ensures m > 0 && (file == Encode(crc, 0, Records(all)) ==> m == |all|)
  {
    hide Encode, Records;
    if m < |all| {
      LogReader.EncodeMonotone(crc, 0, Records(all), m + 1);
    }
  }

  lemma FollowOnPrefix(v: Levels, es: seq<VE.Edit>, load: Load, n: nat)
    requires FollowOn(v, es, load) && n <= |es|
    ensures FollowOn(v, es[..n], load)
  {
    hide VE.WellFormed, VB.AddedOnce, Meanings, VB.BySmallest, VB.FreshNumbers;
    MeaningsPrefix(es, load, n);
    forall l | 0 <= l < NUM_LEVELS ensures VB.AddedOnce(v[l], Meanings(es[..n], load), l) {
      AddedOncePrefix(v[l], Meanings(es, load), l, n);
    }
  }
}
