/**
  Version edits as manifest records: a tag and a value per field, in any order.
 */
module VersionEdit {
  import opened Wrappers
  import opened ByteCoding

  const NUM_LEVELS: nat := 7

  datatype FileMeta = FileMeta(number: nat, size: nat, smallest: Bytes, largest: Bytes)

  datatype Field =
    | Comparator(name: Bytes)
    | LogNumber(number: nat)
    | PrevLogNumber(number: nat)
    | NextFileNumber(number: nat)
    | LastSequence(number: nat)
    | CompactPointer(level: nat, key: Bytes)
    | DeletedFile(level: nat, number: nat)
    | NewFile(level: nat, file: FileMeta)

  datatype Pointer = Pointer(level: nat, key: Bytes)
  datatype Deleted = Deleted(level: nat, number: nat)
  datatype New = New(level: nat, file: FileMeta)

  /** The contents of an edit; deleted files are a set, kept in order. */
  datatype Edit = Edit(comparator: Option<Bytes>, logNumber: Option<nat>, prevLogNumber: Option<nat>,
                       nextFileNumber: Option<nat>, lastSequence: Option<nat>,
                       compactPointers: seq<Pointer>, deletedFiles: seq<Deleted>, newFiles: seq<New>)

  /* ---- Fields as bytes ---- */

  function Tag(f: Field): nat {
    match f
    case Comparator(_) => 1
    case LogNumber(_) => 2
    case NextFileNumber(_) => 3
    case LastSequence(_) => 4
    case CompactPointer(_, _) => 5
    case DeletedFile(_, _) => 6
    case NewFile(_, _) => 7
    case PrevLogNumber(_) => 9
  }

  function EncodeValue(f: Field): Bytes {
    match f
    case Comparator(name) => LengthPrefixed(name)
    case LogNumber(n) => Varint(n)
    case NextFileNumber(n) => Varint(n)
    case LastSequence(n) => Varint(n)
    case PrevLogNumber(n) => Varint(n)
    case CompactPointer(level, key) => Varint(level) + LengthPrefixed(key)
    case DeletedFile(level, n) => Varint(level) + Varint(n)
    case NewFile(level, file) =>
      Varint(level) + (Varint(file.number) + (Varint(file.size) + (LengthPrefixed(file.smallest) + LengthPrefixed(file.largest))))
  }

  function EncodeField(f: Field): (r: Bytes)
    ensures r != []
  {
    Varint(Tag(f)) + EncodeValue(f)
  }

  function EncodeFields(fs: seq<Field>): Bytes {
    if fs == [] then [] else EncodeField(fs[0]) + EncodeFields(fs[1..])
  }

  /** Numbers of 64 bits, levels there are, and strings shorter than 4 GB. */
  predicate Sized(f: Field) {
    match f
    case Comparator(name) => |name| < TWO_32
    case LogNumber(n) => n < TWO_64
    case NextFileNumber(n) => n < TWO_64
    case LastSequence(n) => n < TWO_64
    case PrevLogNumber(n) => n < TWO_64
    case CompactPointer(level, key) => level < NUM_LEVELS && |key| < TWO_32
    case DeletedFile(level, n) => level < NUM_LEVELS && n < TWO_64
    case NewFile(level, file) =>
      && level < NUM_LEVELS && file.number < TWO_64 && file.size < TWO_64
      && |file.smallest| < TWO_32 && |file.largest| < TWO_32
  }

  function GetLevel(s: Bytes): (r: Option<Front<nat>>)
    ensures r.Some? ==> |r.value.rest| < |s| && r.value.value < NUM_LEVELS
  {
    var v := GetVarint32(s);
    if v.None? || v.value.value >= NUM_LEVELS then None else v
  }

  function GetFile(s: Bytes): (r: Option<Front<FileMeta>>)
    ensures r.Some? ==> |r.value.rest| < |s|
  {
    var number := GetVarint64(s);
    if number.None? then None
    else
      var size := GetVarint64(number.value.rest);
      if size.None? then None
      else
        var smallest := GetLengthPrefixed(size.value.rest);
        if smallest.None? then None
        else
          var largest := GetLengthPrefixed(smallest.value.rest);
          if largest.None? then None
          else Some(Front(FileMeta(number.value.value, size.value.value, smallest.value.value, largest.value.value), largest.value.rest))
  }

  /** The value after a tag; nothing if the tag is unknown or the value malformed. */
  function GetValue(tag: nat, s: Bytes): (r: Option<Front<Field>>)
    ensures r.Some? ==> |r.value.rest| < |s|
  {
    if tag == 1 then
      var name := GetLengthPrefixed(s);
      if name.None? then None else Some(Front(Comparator(name.value.value), name.value.rest))
    else if tag == 2 || tag == 3 || tag == 4 || tag == 9 then
      var n := GetVarint64(s);
      if n.None? then None
      else
        var v := n.value.value;
        Some(Front(if tag == 2 then LogNumber(v) else if tag == 3 then NextFileNumber(v)
                 else if tag == 4 then LastSequence(v) else PrevLogNumber(v), n.value.rest))
    else if tag == 5 || tag == 6 || tag == 7 then
      var level := GetLevel(s);
      if level.None? then None
      else if tag == 5 then
        var key := GetLengthPrefixed(level.value.rest);
        if key.None? then None else Some(Front(CompactPointer(level.value.value, key.value.value), key.value.rest))
      else if tag == 6 then
        var n := GetVarint64(level.value.rest);
        if n.None? then None else Some(Front(DeletedFile(level.value.value, n.value.value), n.value.rest))
      else
        var file := GetFile(level.value.rest);
        if file.None? then None else Some(Front(NewFile(level.value.value, file.value.value), file.value.rest))
    else None
  }

  function GetField(s: Bytes): (r: Option<Front<Field>>)
    ensures r.Some? ==> |r.value.rest| < |s|
  {
    var tag := GetVarint32(s);
    if tag.None? then None else GetValue(tag.value.value, tag.value.rest)
  }

  lemma GetFileInverts(file: FileMeta, rest: Bytes)
    requires Sized(NewFile(0, file))
    ensures GetFile(Varint(file.number) + (Varint(file.size) + (LengthPrefixed(file.smallest) + LengthPrefixed(file.largest))) + rest)
            == Some(Front(file, rest))
  {
    hide Varint, LengthPrefixed, GetVarint64, GetLengthPrefixed;
    var d := LengthPrefixed(file.largest) + rest;
    var c := LengthPrefixed(file.smallest) + d;
    var b := Varint(file.size) + c;
    assert Varint(file.number) + (Varint(file.size) + (LengthPrefixed(file.smallest) + LengthPrefixed(file.largest))) + rest
        == Varint(file.number) + b;
    GetVarint64Inverts(file.number, b);
    GetVarint64Inverts(file.size, c);
    GetLengthPrefixedInverts(file.smallest, d);
    GetLengthPrefixedInverts(file.largest, rest);
  }

  lemma GetLevelInverts(level: nat, rest: Bytes)
    requires level < NUM_LEVELS
    ensures GetLevel(Varint(level) + rest) == Some(Front(level, rest))
  {
    hide Varint, GetVarint32;
    GetVarint32Inverts(level, rest);
  }

  lemma GetValueInverts(f: Field, rest: Bytes)
    requires Sized(f)
    ensures GetValue(Tag(f), EncodeValue(f) + rest) == Some(Front(f, rest))
  {
    hide Varint, LengthPrefixed, GetVarint64, GetLengthPrefixed, GetLevel, GetFile;
    match f
    case Comparator(name) => GetLengthPrefixedInverts(name, rest);
    case LogNumber(n) => GetVarint64Inverts(n, rest);
    case NextFileNumber(n) => GetVarint64Inverts(n, rest);
    case LastSequence(n) => GetVarint64Inverts(n, rest);
    case PrevLogNumber(n) => GetVarint64Inverts(n, rest);
    case CompactPointer(level, key) =>
      assert EncodeValue(f) + rest == Varint(level) + (LengthPrefixed(key) + rest);
      GetLevelInverts(level, LengthPrefixed(key) + rest);
      GetLengthPrefixedInverts(key, rest);
    case DeletedFile(level, n) =>
      assert EncodeValue(f) + rest == Varint(level) + (Varint(n) + rest);
      GetLevelInverts(level, Varint(n) + rest);
      GetVarint64Inverts(n, rest);
    case NewFile(level, file) =>
      var bytes := Varint(file.number) + (Varint(file.size) + (LengthPrefixed(file.smallest) + LengthPrefixed(file.largest)));
      assert EncodeValue(f) + rest == Varint(level) + (bytes + rest);
      GetLevelInverts(level, bytes + rest);
      GetFileInverts(file, rest);
  }

  /** A field written is a field read, and nothing of what follows is touched. */
  lemma GetFieldInverts(f: Field, rest: Bytes)
    requires Sized(f)
    ensures GetField(EncodeField(f) + rest) == Some(Front(f, rest))
  {
    hide Varint, EncodeValue, GetValue, GetVarint32;
    assert EncodeField(f) + rest == Varint(Tag(f)) + (EncodeValue(f) + rest);
    GetVarint32Inverts(Tag(f), EncodeValue(f) + rest);
    GetValueInverts(f, rest);
  }

  /* ---- An edit as a sequence of fields ---- */

  predicate Before(a: Deleted, b: Deleted) {
    a.level < b.level || (a.level == b.level && a.number < b.number)
  }

  predicate Ordered(s: seq<Deleted>) {
    forall i, j :: 0 <= i < j < |s| ==> Before(s[i], s[j])
  }

  function Insert(s: seq<Deleted>, x: Deleted): seq<Deleted> {
    if s == [] || Before(x, s[0]) then [x] + s
    else if x == s[0] then s
    else [s[0]] + Insert(s[1..], x)
  }

  function Apply(e: Edit, f: Field): Edit {
    match f
    case Comparator(name) => e.(comparator := Some(name))
    case LogNumber(n) => e.(logNumber := Some(n))
    case PrevLogNumber(n) => e.(prevLogNumber := Some(n))
    case NextFileNumber(n) => e.(nextFileNumber := Some(n))
    case LastSequence(n) => e.(lastSequence := Some(n))
    case CompactPointer(level, key) => e.(compactPointers := e.compactPointers + [Pointer(level, key)])
    case DeletedFile(level, n) => e.(deletedFiles := Insert(e.deletedFiles, Deleted(level, n)))
    case NewFile(level, file) => e.(newFiles := e.newFiles + [New(level, file)])
  }

  function ApplyAll(e: Edit, fs: seq<Field>): Edit
    decreases |fs|
  {
    if fs == [] then e else ApplyAll(Apply(e, fs[0]), fs[1..])
  }

  /** Everything but the compaction pointers is forgotten. */
  function Cleared(e: Edit): Edit {
    Edit(None, None, None, None, None, e.compactPointers, [], [])
  }

  /** The fields that occur at most once, where they are set, in the order they are written. */
  function Scalar(e: Edit, k: nat): Option<Field>
    requires k < 5
  {
    if k == 0 && e.comparator.Some? then Some(Comparator(e.comparator.value))
    else if k == 1 && e.logNumber.Some? then Some(LogNumber(e.logNumber.value))
    else if k == 2 && e.prevLogNumber.Some? then Some(PrevLogNumber(e.prevLogNumber.value))
    else if k == 3 && e.nextFileNumber.Some? then Some(NextFileNumber(e.nextFileNumber.value))
    else if k == 4 && e.lastSequence.Some? then Some(LastSequence(e.lastSequence.value))
    else None
  }

  /** The first `k` of them. */
  function Scalars(e: Edit, k: nat): seq<Field>
    requires k <= 5
  {
    if k == 0 then []
    else Scalars(e, k - 1) + if Scalar(e, k - 1).None? then [] else [Scalar(e, k - 1).value]
  }

  function Pointers(s: seq<Pointer>): seq<Field> {
    seq(|s|, i requires 0 <= i < |s| => CompactPointer(s[i].level, s[i].key))
  }

  function Deletions(s: seq<Deleted>): seq<Field> {
    seq(|s|, i requires 0 <= i < |s| => DeletedFile(s[i].level, s[i].number))
  }

  function Additions(s: seq<New>): seq<Field> {
    seq(|s|, i requires 0 <= i < |s| => NewFile(s[i].level, s[i].file))
  }

  function Fields(e: Edit): seq<Field> {
    Scalars(e, 5) + Pointers(e.compactPointers) + Deletions(e.deletedFiles) + Additions(e.newFiles)
  }

  lemma {:induction false} ApplyConcat(e: Edit, a: seq<Field>, b: seq<Field>)
    ensures ApplyAll(e, a + b) == ApplyAll(ApplyAll(e, a), b)
    decreases |a|
  {
    hide Apply;
    if a == [] {
      assert a + b == b;
    } else {
      assert (a + b)[1..] == a[1..] + b;
      ApplyConcat(Apply(e, a[0]), a[1..], b);
    }
  }

  lemma ApplyOne(e: Edit, f: Field)
    ensures ApplyAll(e, [f]) == Apply(e, f)
  {
    assert [f][1..] == [];
    assert ApplyAll(Apply(e, f), []) == Apply(e, f);
  }

  lemma ApplyLast(e: Edit, fs: seq<Field>, f: Field)
    ensures ApplyAll(e, fs + [f]) == Apply(ApplyAll(e, fs), f)
  {
    hide Apply;
    ApplyConcat(e, fs, [f]);
    ApplyOne(ApplyAll(e, fs), f);
  }

  lemma {:induction false} ApplyScalars(e0: Edit, e: Edit, k: nat)
    requires k <= 5
    ensures ApplyAll(Cleared(e0), Scalars(e, k)) ==
            Edit(if k > 0 then e.comparator else None, if k > 1 then e.logNumber else None,
                 if k > 2 then e.prevLogNumber else None, if k > 3 then e.nextFileNumber else None,
                 if k > 4 then e.lastSequence else None, e0.compactPointers, [], [])
  {
    if k > 0 {
      ApplyScalars(e0, e, k - 1);
      var f := Scalar(e, k - 1);
      if f.Some? {
        ApplyLast(Cleared(e0), Scalars(e, k - 1), f.value);
      } else {
        assert Scalars(e, k) == Scalars(e, k - 1);
      }
    }
  }

  lemma {:induction false} ApplyPointers(e: Edit, s: seq<Pointer>)
    ensures ApplyAll(e, Pointers(s)) == e.(compactPointers := e.compactPointers + s)
    decreases |s|
  {
    if s != [] {
      ApplyPointers(Apply(e, CompactPointer(s[0].level, s[0].key)), s[1..]);
      assert Pointers(s)[1..] == Pointers(s[1..]);
      assert s == [s[0]] + s[1..];
    }
  }

  lemma {:induction false} ApplyAdditions(e: Edit, s: seq<New>)
    ensures ApplyAll(e, Additions(s)) == e.(newFiles := e.newFiles + s)
    decreases |s|
  {
    if s != [] {
      ApplyAdditions(Apply(e, NewFile(s[0].level, s[0].file)), s[1..]);
      assert Additions(s)[1..] == Additions(s[1..]);
      assert s == [s[0]] + s[1..];
    }
  }

  lemma {:induction false} InsertLast(s: seq<Deleted>, x: Deleted)
    requires forall i :: 0 <= i < |s| ==> Before(s[i], x)
    ensures Insert(s, x) == s + [x]
  {
    if s != [] {
      InsertLast(s[1..], x);
    }
  }

  lemma {:induction false} ApplyDeletions(e: Edit, s: seq<Deleted>)
    requires Ordered(e.deletedFiles + s)
    ensures ApplyAll(e, Deletions(s)) == e.(deletedFiles := e.deletedFiles + s)
    decreases |s|
  {
    if s != [] {
      var all := e.deletedFiles + s;
      forall i | 0 <= i < |e.deletedFiles| ensures Before(e.deletedFiles[i], s[0]) {
        assert Before(all[i], all[|e.deletedFiles|]);
      }
      InsertLast(e.deletedFiles, s[0]);
      assert e.deletedFiles + [s[0]] + s[1..] == all;
      ApplyDeletions(Apply(e, DeletedFile(s[0].level, s[0].number)), s[1..]);
      assert Deletions(s)[1..] == Deletions(s[1..]);
    }
  }

  /** The fields of an edit, applied to a cleared one, give the edit; only its compaction pointers come on top of others. */
  lemma FieldsRestore(e0: Edit, e: Edit)
    requires Ordered(e.deletedFiles)
    ensures ApplyAll(Cleared(e0), Fields(e)) == e.(compactPointers := e0.compactPointers + e.compactPointers)
  {
    hide Scalars, Pointers, Deletions, Additions, ApplyAll;
    var c := Cleared(e0);
    var a, p, d, n := Scalars(e, 5), Pointers(e.compactPointers), Deletions(e.deletedFiles), Additions(e.newFiles);
    ApplyConcat(c, a + p + d, n);
    ApplyConcat(c, a + p, d);
    ApplyConcat(c, a, p);
    ApplyScalars(e0, e, 5);
    ApplyPointers(ApplyAll(c, a), e.compactPointers);
    assert [] + e.deletedFiles == e.deletedFiles && [] + e.newFiles == e.newFiles;
    ApplyDeletions(ApplyAll(ApplyAll(c, a), p), e.deletedFiles);
    ApplyAdditions(ApplyAll(ApplyAll(ApplyAll(c, a), p), d), e.newFiles);
  }

  /* ---- Records ---- */

  /** The edit built up from a record, and whether the record is well formed. */
  function Decode(s: Bytes, e: Edit): (r: (Edit, bool))
    decreases |s|
  {
    if s == [] then (e, true)
    else
      var f := GetField(s);
      if f.None? then (e, false) else Decode(f.value.rest, Apply(e, f.value.value))
  }

  lemma {:induction false} DecodeInverts(fs: seq<Field>, e: Edit)
    requires forall i :: 0 <= i < |fs| ==> Sized(fs[i])
    ensures Decode(EncodeFields(fs), e) == (ApplyAll(e, fs), true)
    decreases |fs|
  {
    hide EncodeField, GetField, Apply, Sized;
    if fs != [] {
      GetFieldInverts(fs[0], EncodeFields(fs[1..]));
      DecodeInverts(fs[1..], Apply(e, fs[0]));
    }
  }

  predicate WellFormed(e: Edit) {
    Ordered(e.deletedFiles) && forall i :: 0 <= i < |Fields(e)| ==> Sized(Fields(e)[i])
  }

  /**
    The edit a manifest record was made from comes back.  Decoding clears all but the compaction pointers,
    so the record is recovered exactly when the edit decoded into has none.
   */
  lemma RoundTrip(e: Edit, into: Edit)
    requires WellFormed(e)
    ensures var (d, ok) := Decode(EncodeFields(Fields(e)), Cleared(into));
            ok && d == e.(compactPointers := into.compactPointers + e.compactPointers)
                && (d == e <==> into.compactPointers == [])
  {
    hide Fields, Sized, EncodeFields, Decode;
    DecodeInverts(Fields(e), Cleared(into));
    FieldsRestore(into, e);
    assert into.compactPointers == [] ==> into.compactPointers + e.compactPointers == e.compactPointers;
    assert |into.compactPointers + e.compactPointers| == |into.compactPointers| + |e.compactPointers|;
  }

  lemma {:induction false} EncodeLast(fs: seq<Field>, f: Field)
    ensures EncodeFields(fs + [f]) == EncodeFields(fs) + EncodeField(f)
    decreases |fs|
  {
    hide EncodeField;
    if fs == [] {
      assert [f][1..] == [];
      assert EncodeFields([f]) == EncodeField(f) + EncodeFields([]);
      assert fs + [f] == [f];
    } else {
      assert (fs + [f])[1..] == fs[1..] + [f];
      EncodeLast(fs[1..], f);
    }
  }

  lemma NoScalars(e: Edit)
    ensures EncodeFields(Scalars(e, 0)) == []
  {
  }

  /** Writing a list of fields after others, one by one. */
  lemma Listed(before: seq<Field>, fs: seq<Field>, i: nat)
    requires i < |fs|
    ensures EncodeFields(before + fs[..i + 1]) == EncodeFields(before + fs[..i]) + EncodeField(fs[i])
  {
    hide EncodeFields, EncodeField;
    EncodeLast(before + fs[..i], fs[i]);
    assert before + fs[..i + 1] == before + fs[..i] + [fs[i]];
  }

  lemma Ends(before: seq<Field>, fs: seq<Field>)
    ensures before + fs[..0] == before && before + fs[..|fs|] == before + fs
  {
  }

  class VersionEdit {
    var comparator: Option<Bytes>
    var logNumber: Option<nat>
    var prevLogNumber: Option<nat>
    var nextFileNumber: Option<nat>
    var lastSequence: Option<nat>
    var compactPointers: seq<Pointer>
    var deletedFiles: seq<Deleted>
    var newFiles: seq<New>

    function State(): Edit
      reads this
    {
      Edit(comparator, logNumber, prevLogNumber, nextFileNumber, lastSequence, compactPointers, deletedFiles, newFiles)
    }

    constructor ()
      ensures State() == Edit(None, None, None, None, None, [], [], [])
    {
      comparator, logNumber, prevLogNumber, nextFileNumber, lastSequence := None, None, None, None, None;
      compactPointers, deletedFiles, newFiles := [], [], [];
    }

    method Clear()
      modifies this
      ensures State() == Cleared(old(State()))
    {
      comparator, logNumber, prevLogNumber, nextFileNumber, lastSequence := None, None, None, None, None;
      deletedFiles, newFiles := [], [];
    }

    method EncodeTo() returns (dst: Bytes)
      ensures dst == EncodeFields(Fields(State()))
    {
      hide EncodeFields, EncodeField, Scalars;
      dst := EncodeScalars();
      ghost var fs := Scalars(State(), 5);
      ghost var ps, ds, ns := Pointers(compactPointers), Deletions(deletedFiles), Additions(newFiles);
      ghost var gs, hs := fs + ps, fs + ps + ds;
      Ends(fs, ps);
      for i := 0 to |compactPointers|
        invariant dst == EncodeFields(fs + ps[..i])
      {
        Listed(fs, ps, i);
        dst := dst + EncodeField(CompactPointer(compactPointers[i].level, compactPointers[i].key));
      }
      Ends(gs, ds);
      for i := 0 to |deletedFiles|
        invariant dst == EncodeFields(gs + ds[..i])
      {
        Listed(gs, ds, i);
        dst := dst + EncodeField(DeletedFile(deletedFiles[i].level, deletedFiles[i].number));
      }
      Ends(hs, ns);
      for i := 0 to |newFiles|
        invariant dst == EncodeFields(hs + ns[..i])
      {
        Listed(hs, ns, i);
        dst := dst + EncodeField(NewFile(newFiles[i].level, newFiles[i].file));
      }
    }

    /** The fields that occur at most once. */
    method EncodeScalars() returns (dst: Bytes)
      ensures dst == EncodeFields(Scalars(State(), 5))
    {
      hide EncodeFields, EncodeField, Scalars;
      dst := [];
      ghost var e := State();
      NoScalars(e);
      if comparator.Some? {
        dst := dst + EncodeField(Comparator(comparator.value));
      }
      assert dst == EncodeFields(Scalars(e, 1)) by { ScalarEncoded(e, 0); }
      if logNumber.Some? {
        dst := dst + EncodeField(LogNumber(logNumber.value));
      }
      assert dst == EncodeFields(Scalars(e, 2)) by { ScalarEncoded(e, 1); }
      if prevLogNumber.Some? {
        dst := dst + EncodeField(PrevLogNumber(prevLogNumber.value));
      }
      assert dst == EncodeFields(Scalars(e, 3)) by { ScalarEncoded(e, 2); }
      if nextFileNumber.Some? {
        dst := dst + EncodeField(NextFileNumber(nextFileNumber.value));
      }
      assert dst == EncodeFields(Scalars(e, 4)) by { ScalarEncoded(e, 3); }
      if lastSequence.Some? {
        dst := dst + EncodeField(LastSequence(lastSequence.value));
      }
      assert dst == EncodeFields(Scalars(e, 5)) by { ScalarEncoded(e, 4); }
    }

    /** Read fields until the record ends or one is malformed. */
    method DecodeFrom(src: Bytes) returns (ok: bool)
      modifies this
      ensures (State(), ok) == Decode(src, Cleared(old(State())))
    {
      hide GetValue, GetVarint32;
      Clear();
      var input := src;
      ok := true;
      while ok && input != []
        invariant Decode(src, Cleared(old(State()))) == if ok then Decode(input, State()) else (State(), false)
        decreases ok, |input|
      {
        var tag := GetVarint32(input);
        var f := if tag.None? then None else GetValue(tag.value.value, tag.value.rest);
        if f.None? {
          ok := false;
        } else {
          Set(f.value.value);
          input := f.value.rest;
        }
      }
    }

    method Set(f: Field)
      modifies this
      ensures State() == Apply(old(State()), f)
    {
      match f
      case Comparator(name) => comparator := Some(name);
      case LogNumber(n) => logNumber := Some(n);
      case PrevLogNumber(n) => prevLogNumber := Some(n);
      case NextFileNumber(n) => nextFileNumber := Some(n);
      case LastSequence(n) => lastSequence := Some(n);
      case CompactPointer(level, key) => compactPointers := compactPointers + [Pointer(level, key)];
      case DeletedFile(level, n) => deletedFiles := Insert(deletedFiles, Deleted(level, n));
      case NewFile(level, file) => newFiles := newFiles + [New(level, file)];
    }
  }

  lemma ScalarEncoded(e: Edit, k: nat)
    requires k < 5
    ensures EncodeFields(Scalars(e, k + 1)) ==
            EncodeFields(Scalars(e, k)) + if Scalar(e, k).None? then [] else EncodeField(Scalar(e, k).value)
  {
    hide EncodeFields, EncodeField;
    if Scalar(e, k).Some? {
      EncodeLast(Scalars(e, k), Scalar(e, k).value);
    } else {
      assert Scalars(e, k + 1) == Scalars(e, k);
    }
  }
}
