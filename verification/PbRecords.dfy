/**
  nanopb: the input of the decoder as a list of records, and decoding as a walk over that list.

  Reading a record depends on nothing but its own bytes, so decoding one input behind another is decoding
  the second one from where the first one has led.
 */
module PbRecords {
  import opened Wrappers
  import opened ByteCoding
  import opened PbWire
  import opened PbMessage
  import opened PbDecode

  /* ---- Reading depends on the bytes that are read ---- */

  lemma {:induction false} Rest32Local(s: Bytes, s': Bytes, bitpos: nat, result: nat)
    requires result < TWO_32 && bitpos % 7 == 0
    requires ReadRest32(s, bitpos, result).Some? && Agree(s, s', ReadRest32(s, bitpos, result).value.used)
    ensures ReadRest32(s', bitpos, result) == ReadRest32(s, bitpos, result)
    decreases |s|
  {
    hide Shift;
    var n := ReadRest32(s, bitpos, result).value.used;
    AgreeBehind(s, s', n, 0);
    var b: int := s[0];
    var next := if bitpos >= 32 then result else (result + b % 128 * Shift(bitpos)) % TWO_32;
    if b >= 128 {
      AgreeBehind(s, s', n, 1);
      Rest32Local(s[1..], s'[1..], bitpos + 7, next);
    }
  }

  lemma Number32Local(s: Bytes, s': Bytes)
    requires ReadVarint32(s).Some? && Agree(s, s', ReadVarint32(s).value.used)
    ensures ReadVarint32(s') == ReadVarint32(s)
  {
    hide ReadRest32;
    var n := ReadVarint32(s).value.used;
    AgreeBehind(s, s', n, 0);
    if s[0] >= 128 {
      AgreeBehind(s, s', n, 1);
      Rest32Local(s[1..], s'[1..], 7, s[0] - 128);
    }
  }

  lemma Number64Local(s: Bytes, s': Bytes)
    requires ReadVarint64(s).Some? && Agree(s, s', ReadVarint64(s).value.used)
    ensures ReadVarint64(s') == ReadVarint64(s)
  {
    VarintLocal(s, s', 10);
  }

  lemma DelimitedLocal(s: Bytes, s': Bytes)
    requires Delimited(s).Done? && Agree(s, s', |s| - |Delimited(s).rest|)
    ensures Delimited(s') == Done(Delimited(s).value, s'[|s| - |Delimited(s).rest|..])
  {
    hide ReadVarint32;
    var n := |s| - |Delimited(s).rest|;
    var u := ReadVarint32(s).value.used;
    AgreeBehind(s, s', n, u);
    Number32Local(s, s');
    assert s[u..n] == s[..n][u..] && s'[u..n] == s'[..n][u..];
  }

  lemma {:induction false} SkipVarintLocal(s: Bytes, s': Bytes)
    requires PbDecode.SkipVarint(s).Some? && Agree(s, s', |s| - |PbDecode.SkipVarint(s).value|)
    ensures PbDecode.SkipVarint(s') == Some(s'[|s| - |PbDecode.SkipVarint(s).value|..])
    decreases |s|
  {
    var n := |s| - |PbDecode.SkipVarint(s).value|;
    AgreeBehind(s, s', n, 0);
    if s[0] >= 128 {
      AgreeBehind(s, s', n, 1);
      SkipVarintLocal(s[1..], s'[1..]);
      assert s'[1..][n - 1..] == s'[n..];
    }
  }

  lemma SkipLocal(wireType: nat, s: Bytes, s': Bytes)
    requires SkipField(wireType, s).Some? && Agree(s, s', |s| - |SkipField(wireType, s).value|)
    ensures SkipField(wireType, s') == Some(s'[|s| - |SkipField(wireType, s).value|..])
  {
    hide ReadVarint32, PbDecode.SkipVarint;
    match wireType
    case 0 => SkipVarintLocal(s, s');
    case 2 =>
      AgreeBehind(s, s', |s| - |SkipField(wireType, s).value|, ReadVarint32(s).value.used);
      Number32Local(s, s');
    case _ =>
  }

  lemma ValueLocal(ty: Type, cur: Value, s: Bytes, s': Bytes)
    requires DecodeValue(ty, cur, s).Done? && Agree(s, s', |s| - |DecodeValue(ty, cur, s).rest|)
    ensures DecodeValue(ty, cur, s') == Done(DecodeValue(ty, cur, s).value, s'[|s| - |DecodeValue(ty, cur, s).rest|..])
  {
    hide ReadVarint32, ReadVarint64, Delimited, DecodeMessage, DefaultsFrom, DefaultValue, ReadFixed, IsSuffix, UnZigZag, Low32, ToSigned, Limit;
    match ty {
      case Bool => Number32Local(s, s');
      case VarInt(_) => Number64Local(s, s');
      case UVarInt(_) => Number64Local(s, s');
      case SVarInt(_) => Number64Local(s, s');
      case Fixed32 =>
      case Fixed64 =>
      case _ => DelimitedLocal(s, s');
    }
  }

  lemma SlotLocal(f: Field, wireType: nat, slot: Slot, count: nat, s: Bytes, s': Bytes)
    requires DecodeSlot(f, wireType, slot, count, s).Done?
    requires Agree(s, s', |s| - |DecodeSlot(f, wireType, slot, count, s).rest|)
    ensures DecodeSlot(f, wireType, slot, count, s') ==
            Done(DecodeSlot(f, wireType, slot, count, s).value, s'[|s| - |DecodeSlot(f, wireType, slot, count, s).rest|..])
  {
    hide Delimited, DecodeValue, DecodePacked, DecodePackedFixed, DefaultValue, IsSuffix;
    if (f.rule.Repeated? || f.rule.FixedCount?) && wireType == 2 && Packable(f.ty) {
      DelimitedLocal(s, s');
    } else if f.rule.Repeated? || f.rule.FixedCount? || slot.vs == [] {
      ValueLocal(f.ty, DefaultValue(f.ty), s, s');
    } else {
      ValueLocal(f.ty, slot.vs[0], s, s');
    }
  }

  lemma RecordLocal(fields: seq<Field>, tag: nat, wireType: nat, s: Bytes, s': Bytes, st: State)
    requires |st.slots| == |fields| && DecodeRecord(fields, tag, wireType, s, st).Done?
    requires Agree(s, s', |s| - |DecodeRecord(fields, tag, wireType, s, st).rest|)
    ensures DecodeRecord(fields, tag, wireType, s', st) ==
            Done(DecodeRecord(fields, tag, wireType, s, st).value, s'[|s| - |DecodeRecord(fields, tag, wireType, s, st).rest|..])
  {
    hide DecodeSlot, PbDecode.SkipField, FieldIndex, ClearUnion, IsSuffix;
    var found := FieldIndex(fields, tag);
    if found.None? {
      SkipLocal(wireType, s, s');
    } else {
      var i := found.value;
      var count := if fields[i].rule.FixedCount? && st.fixed != Some(i) then 0 else st.count;
      SlotLocal(fields[i], wireType, ClearUnion(fields, st.slots, i)[i], count, s, s');
    }
  }

  /* ---- How far a record reaches ---- */

  lemma {:induction false} VarintReaches(s: Bytes, left: nat)
    requires ReadVarint(s, left).Some?
    ensures SkipVarint(s) == Some(s[ReadVarint(s, left).value.used..])
    decreases left
  {
    if s[0] >= 128 {
      VarintReaches(s[1..], left - 1);
    }
  }

  lemma {:induction false} Rest32Reaches(s: Bytes, bitpos: nat, result: nat)
    requires result < TWO_32 && bitpos % 7 == 0 && ReadRest32(s, bitpos, result).Some?
    ensures SkipVarint(s) == Some(s[ReadRest32(s, bitpos, result).value.used..])
    decreases |s|
  {
    hide Shift;
    var b: int := s[0];
    var next := if bitpos >= 32 then result else (result + b % 128 * Shift(bitpos)) % TWO_32;
    if b >= 128 {
      Rest32Reaches(s[1..], bitpos + 7, next);
    }
  }

  lemma Number32Reaches(s: Bytes)
    requires ReadVarint32(s).Some?
    ensures SkipVarint(s) == Some(s[ReadVarint32(s).value.used..])
  {
    if s[0] >= 128 {
      Rest32Reaches(s[1..], 7, s[0] - 128);
    }
  }

  /** A value takes the bytes that its wire type says, whatever they hold. */
  lemma ValueReaches(ty: Type, cur: Value, s: Bytes)
    requires DecodeValue(ty, cur, s).Done?
    ensures SkipField(WireType(ty), s) == Some(DecodeValue(ty, cur, s).rest)
  {
    hide ReadVarint32, ReadVarint, SkipVarint, DecodeMessage, DefaultsFrom, DefaultValue, ReadFixed, IsSuffix, UnZigZag, Low32, ToSigned, Limit;
    match ty {
      case Bool => Number32Reaches(s);
      case VarInt(_) => VarintReaches(s, 10);
      case UVarInt(_) => VarintReaches(s, 10);
      case SVarInt(_) => VarintReaches(s, 10);
      case _ =>
    }
  }

  /** The wire type that tells how far a record reaches: its own if the field is unknown or a packed array, else the field's. */
  function Shape(fields: seq<Field>, tag: nat, wireType: nat): nat {
    var i := FieldIndex(fields, tag);
    if i.None? then wireType
    else
      var f := fields[i.value];
      if wireType == 2 && (f.rule.Repeated? || f.rule.FixedCount?) && Packable(f.ty) then 2 else WireType(f.ty)
  }

  lemma SlotReaches(f: Field, wireType: nat, slot: Slot, count: nat, s: Bytes)
    requires DecodeSlot(f, wireType, slot, count, s).Done?
    ensures var packed := wireType == 2 && (f.rule.Repeated? || f.rule.FixedCount?) && Packable(f.ty);
            SkipField(if packed then 2 else WireType(f.ty), s) == Some(DecodeSlot(f, wireType, slot, count, s).rest)
  {
    hide DecodeValue, DecodePacked, DecodePackedFixed, DefaultValue, IsSuffix, ReadVarint32, WireType, SkipVarint;
    if (f.rule.Repeated? || f.rule.FixedCount?) && wireType == 2 && Packable(f.ty) {
    } else if f.rule.Repeated? || f.rule.FixedCount? || slot.vs == [] {
      ValueReaches(f.ty, DefaultValue(f.ty), s);
    } else {
      ValueReaches(f.ty, slot.vs[0], s);
    }
  }

  lemma RecordReaches(fields: seq<Field>, tag: nat, wireType: nat, s: Bytes, st: State)
    requires |st.slots| == |fields| && DecodeRecord(fields, tag, wireType, s, st).Done?
    ensures SkipField(Shape(fields, tag, wireType), s) == Some(DecodeRecord(fields, tag, wireType, s, st).rest)
  {
    hide DecodeSlot, SkipField, FieldIndex, ClearUnion, IsSuffix, WireType;
    var found := FieldIndex(fields, tag);
    if found.Some? {
      var i := found.value;
      var count := if fields[i].rule.FixedCount? && st.fixed != Some(i) then 0 else st.count;
      SlotReaches(fields[i], wireType, ClearUnion(fields, st.slots, i)[i], count, s);
    }
  }

  /* ---- The records of an input ---- */

  datatype Record = Record(tag: nat, wireType: nat, body: Bytes)

  /** The records up to the end of the input or a zero tag, and what is behind that. */
  datatype Splitting = Splitting(records: seq<Record>, stopped: bool, rest: Bytes)

  function WithFirst(r: Record, p: Option<Splitting>): Option<Splitting> {
    if p.None? then None else Some(Splitting([r] + p.value.records, p.value.stopped, p.value.rest))
  }

  function Split(fields: seq<Field>, s: Bytes): (r: Option<Splitting>)
    ensures r.Some? && !r.value.stopped ==> r.value.rest == []
    decreases |s|
  {
    if s == [] then Some(Splitting([], false, []))
    else
      var t := ReadVarint32(s);
      if t.None? then None
      else if t.value.value == 0 then Some(Splitting([], true, s[t.value.used..]))
      else
        var tag, wireType, more := t.value.value / 8, t.value.value % 8, s[t.value.used..];
        var rest := SkipField(Shape(fields, tag, wireType), more);
        if rest.None? then None
        else WithFirst(Record(tag, wireType, more[..|more| - |rest.value|]), Split(fields, rest.value))
  }

  /** What a record does to the message, or nothing if the decoder refuses it. */
  function Perform(fields: seq<Field>, r: Record, st: State): (t: Option<State>)
    requires |st.slots| == |fields|
    ensures t.Some? ==> |t.value.slots| == |fields|
  {
    var d := DecodeRecord(fields, r.tag, r.wireType, r.body, st);
    if d.Done? && d.rest == [] then Some(d.value) else None
  }

  function PerformAll(fields: seq<Field>, rs: seq<Record>, st: State): (t: Option<State>)
    requires |st.slots| == |fields|
    ensures t.Some? ==> |t.value.slots| == |fields|
  {
    if rs == [] then Some(st)
    else
      var t := Perform(fields, rs[0], st);
      if t.None? then None else PerformAll(fields, rs[1..], t.value)
  }

  /** One record at the front of an input is decoded as it would be alone. */
  lemma RecordAlone(fields: seq<Field>, tag: nat, wireType: nat, s: Bytes, st: State)
    requires |st.slots| == |fields|
    ensures var rest := SkipField(Shape(fields, tag, wireType), s);
            var d := DecodeRecord(fields, tag, wireType, s, st);
            if rest.None? then d.Fail?
            else
              var t := Perform(fields, Record(tag, wireType, s[..|s| - |rest.value|]), st);
              d == if t.Some? then Done(t.value, rest.value) else Fail
  {
    hide DecodeRecord, SkipField, Shape, WireType, Packable;
    var rest := SkipField(Shape(fields, tag, wireType), s);
    if DecodeRecord(fields, tag, wireType, s, st).Done? {
      RecordReaches(fields, tag, wireType, s, st);
    }
    if rest.Some? {
      var body := s[..|s| - |rest.value|];
      if DecodeRecord(fields, tag, wireType, s, st).Done? {
        RecordLocal(fields, tag, wireType, s, body, st);
        assert body[|body|..] == [];
      }
      if DecodeRecord(fields, tag, wireType, body, st).Done? && DecodeRecord(fields, tag, wireType, body, st).rest == [] {
        RecordLocal(fields, tag, wireType, body, s, st);
      }
    }
  }

  /** The decoder's loop walks over the records of its input, and fails if there is anything else. */
  lemma {:induction false} LoopPerforms(fields: seq<Field>, s: Bytes, st: State)
    requires |st.slots| == |fields|
    ensures var p := Split(fields, s);
            if p.None? then DecodeLoop(fields, s, st).Fail?
            else
              var t := PerformAll(fields, p.value.records, st);
              DecodeLoop(fields, s, st) == if t.Some? then Done(t.value, p.value.rest) else Fail
    decreases |s|
  {
    hide DecodeRecord, SkipField, Shape, WireType, Packable, Perform, ReadVarint32;
    if s != [] && ReadVarint32(s).Some? && ReadVarint32(s).value.value != 0 {
      var t := ReadVarint32(s).value;
      var tag, wireType, more := t.value / 8, t.value % 8, s[t.used..];
      RecordAlone(fields, tag, wireType, more, st);
      var rest := SkipField(Shape(fields, tag, wireType), more);
      if rest.Some? {
        var r := Record(tag, wireType, more[..|more| - |rest.value|]);
        var u := Perform(fields, r, st);
        if u.Some? {
          LoopPerforms(fields, rest.value, u.value);
        }
        var p := Split(fields, rest.value);
        if p.Some? {
          assert ([r] + p.value.records)[1..] == p.value.records;
        }
      }
    }
  }

  /* ---- One input behind another ---- */

  /** An input that is nothing but records. */
  predicate Whole(fields: seq<Field>, s: Bytes) {
    var p := Split(fields, s);
    p.Some? && !p.value.stopped
  }

  /** The first record of an input is the same with more behind the input. */
  lemma FirstRecord(fields: seq<Field>, a: Bytes, b: Bytes)
    requires a != [] && ReadVarint32(a).Some?
    ensures ReadVarint32(a + b) == ReadVarint32(a)
    ensures var t := ReadVarint32(a).value;
            var shape, more := Shape(fields, t.value / 8, t.value % 8), a[t.used..];
            && (a + b)[t.used..] == more + b
            && var rest := SkipField(shape, more);
               rest.Some? ==>
                 && SkipField(shape, more + b) == Some(rest.value + b)
                 && (more + b)[..|more + b| - |rest.value + b|] == more[..|more| - |rest.value|]
  {
    hide SkipField, Shape, ReadVarint32;
    var t := ReadVarint32(a).value;
    var all := a + b;
    assert all[..t.used] == a[..t.used];
    Number32Local(a, all);
    var shape, more := Shape(fields, t.value / 8, t.value % 8), a[t.used..];
    var rest := SkipField(shape, more);
    if rest.Some? {
      var n := |more| - |rest.value|;
      assert (more + b)[..n] == more[..n];
      SkipLocal(shape, more, more + b);
      assert (more + b)[n..] == rest.value + b;
    }
  }

  lemma SplitUnfolds(fields: seq<Field>, s: Bytes)
    requires s != [] && ReadVarint32(s).Some? && ReadVarint32(s).value.value != 0
    ensures var t := ReadVarint32(s).value;
            var tag, wireType, more := t.value / 8, t.value % 8, s[t.used..];
            var rest := SkipField(Shape(fields, tag, wireType), more);
            Split(fields, s) ==
            if rest.None? then None else WithFirst(Record(tag, wireType, more[..|more| - |rest.value|]), Split(fields, rest.value))
  {
    hide SkipField, Shape, ReadVarint32, WithFirst;
  }

  /** All that `p` splits into, and then all that `q` does. */
  function Both(p: Splitting, q: Option<Splitting>): Option<Splitting> {
    if q.None? then None else Some(Splitting(p.records + q.value.records, q.value.stopped, q.value.rest))
  }

  lemma FirstOfBoth(r: Record, p: Splitting, q: Option<Splitting>)
    ensures WithFirst(r, Both(p, q)) == Both(WithFirst(r, Some(p)).value, q)
  {
    if q.Some? {
      assert [r] + (p.records + q.value.records) == [r] + p.records + q.value.records;
    }
  }

  lemma NothingFirst(q: Option<Splitting>)
    ensures Both(Splitting([], false, []), q) == q
  {
    var none: seq<Record> := [];
    assert q.Some? ==> none + q.value.records == q.value.records;
  }

  lemma {:induction false} SplitConcat(fields: seq<Field>, a: Bytes, b: Bytes)
    requires Whole(fields, a)
    ensures Split(fields, a + b) == Both(Split(fields, a).value, Split(fields, b))
    decreases |a|
  {
    hide SkipField, Shape, ReadVarint32, WithFirst, Both;
    if a == [] {
      assert a + b == b;
      NothingFirst(Split(fields, b));
    } else {
      var t := ReadVarint32(a).value;
      var tag, wireType, more := t.value / 8, t.value % 8, a[t.used..];
      SplitUnfolds(fields, a);
      FirstRecord(fields, a, b);
      SplitUnfolds(fields, a + b);
      WholeBehind(fields, a);
      var rest := SkipField(Shape(fields, tag, wireType), more).value;
      SplitConcat(fields, rest, b);
      FirstOfBoth(Record(tag, wireType, more[..|more| - |rest|]), Split(fields, rest).value, Split(fields, b));
    }
  }

  /** An input that is nothing but records has a first one, and nothing but records behind it. */
  lemma WholeBehind(fields: seq<Field>, a: Bytes)
    requires Whole(fields, a) && a != []
    ensures ReadVarint32(a).Some? && ReadVarint32(a).value.value != 0
    ensures var t := ReadVarint32(a).value;
            var rest := SkipField(Shape(fields, t.value / 8, t.value % 8), a[t.used..]);
            rest.Some? && Whole(fields, rest.value) && |rest.value| < |a|
  {
    hide SkipField, Shape, ReadVarint32;
  }

  lemma {:induction false} PerformConcat(fields: seq<Field>, rs: seq<Record>, qs: seq<Record>, st: State)
    requires |st.slots| == |fields|
    ensures var t := PerformAll(fields, rs, st);
            PerformAll(fields, rs + qs, st) == if t.None? then None else PerformAll(fields, qs, t.value)
    decreases |rs|
  {
    hide Perform;
    if rs == [] {
      assert rs + qs == qs;
    } else {
      var t := Perform(fields, rs[0], st);
      assert (rs + qs)[0] == rs[0] && (rs + qs)[1..] == rs[1..] + qs;
      if t.Some? {
        PerformConcat(fields, rs[1..], qs, t.value);
      }
    }
  }

  /** Decoding one input behind another goes on from where the first has led. */
  lemma DecodeConcat(fields: seq<Field>, a: Bytes, b: Bytes, st: State)
    requires Whole(fields, a) && |st.slots| == |fields|
    ensures var t := DecodeLoop(fields, a, st);
            DecodeLoop(fields, a + b, st) == if t.Fail? then Fail else DecodeLoop(fields, b, t.value)
  {
    hide Split, PerformAll, DecodeLoop;
    SplitConcat(fields, a, b);
    LoopPerforms(fields, a, st);
    LoopPerforms(fields, a + b, st);
    var p := Split(fields, a).value;
    var t := PerformAll(fields, p.records, st);
    if t.Some? {
      LoopPerforms(fields, b, t.value);
    }
    var q := Split(fields, b);
    if q.Some? {
      PerformConcat(fields, p.records, q.value.records, st);
    }
  }

  /* ---- Unknown records ---- */

  predicate IsKnown(fields: seq<Field>, r: Record) {
    FieldIndex(fields, r.tag).Some?
  }

  function Known(fields: seq<Field>, rs: seq<Record>): (r: seq<Record>)
    ensures forall x :: x in r <==> x in rs && IsKnown(fields, x)
  {
    if rs == [] then [] else (if IsKnown(fields, rs[0]) then [rs[0]] else []) + Known(fields, rs[1..])
  }

  /** A record that can be skipped, as every record of an input can. */
  ghost predicate Skippable(fields: seq<Field>, r: Record) {
    SkipField(Shape(fields, r.tag, r.wireType), r.body) == Some([])
  }

  lemma {:induction false} SplitSkippable(fields: seq<Field>, s: Bytes)
    requires Split(fields, s).Some?
    ensures forall r :: r in Split(fields, s).value.records ==> Skippable(fields, r)
    decreases |s|
  {
    hide SkipField, Shape, ReadVarint32;
    if s != [] && ReadVarint32(s).value.value != 0 {
      var t := ReadVarint32(s).value;
      var shape, more := Shape(fields, t.value / 8, t.value % 8), s[t.used..];
      var rest := SkipField(shape, more).value;
      var body := more[..|more| - |rest|];
      SkipLocal(shape, more, body);
      assert body[|body|..] == [];
      SplitSkippable(fields, rest);
    }
  }

  /** Records with tags that the descriptor does not have change nothing. */
  lemma {:induction false} UnknownChangeNothing(fields: seq<Field>, rs: seq<Record>, st: State)
    requires |st.slots| == |fields| && forall r :: r in rs ==> Skippable(fields, r)
    ensures PerformAll(fields, rs, st) == PerformAll(fields, Known(fields, rs), st)
    decreases |rs|
  {
    if rs != [] {
      var r := rs[0];
      assert r in rs && forall x :: x in rs[1..] ==> x in rs;
      var t := Perform(fields, r, st);
      if IsKnown(fields, r) {
        assert Known(fields, rs)[0] == r && Known(fields, rs)[1..] == Known(fields, rs[1..]);
      } else {
        assert Skippable(fields, r) && t == Some(st);
        assert Known(fields, rs) == Known(fields, rs[1..]);
      }
      hide Perform, Skippable;
      if t.Some? {
        UnknownChangeNothing(fields, rs[1..], t.value);
      }
    }
  }

  /** Bytes of a record that the descriptor does not know can be put between records, or left out. */
  lemma UnknownRecord(fields: seq<Field>, a: Bytes, tag: nat, wireType: nat, body: Bytes, b: Bytes, st: State)
    requires Whole(fields, a) && |st.slots| == |fields|
    requires 1 <= tag < 0x2000_0000 && FieldIndex(fields, tag).None? && wireType < 8 && SkipField(wireType, body + b) == Some(b)
    ensures DecodeLoop(fields, a + TagBytes(tag, wireType) + body + b, st) == DecodeLoop(fields, a + b, st)
  {
    hide DecodeLoop, SkipField, Whole, TagBytes;
    var u := TagBytes(tag, wireType) + body;
    DecodeConcat(fields, a, u + b, st);
    DecodeConcat(fields, a, b, st);
    assert a + TagBytes(tag, wireType) + body + b == a + (u + b);
    var t := DecodeLoop(fields, a, st);
    if t.Done? {
      UnknownFirst(fields, tag, wireType, body, b, t.value);
    }
  }

  lemma TagRoundTrip(tag: nat, wireType: nat, more: Bytes)
    requires wireType < 8 && 1 <= tag < 0x2000_0000
    ensures var s := TagBytes(tag, wireType) + more;
            var t := ReadVarint32(s);
            && s != [] && t.Some? && t.value.value == 8 * tag + wireType
            && t.value.value / 8 == tag && t.value.value % 8 == wireType && s[t.value.used..] == more
  {
    Varint32RoundTrip(8 * tag + wireType, more);
  }

  lemma UnknownStep(fields: seq<Field>, tag: nat, wireType: nat, s: Bytes, st: State)
    requires |st.slots| == |fields| && FieldIndex(fields, tag).None? && SkipField(wireType, s).Some?
    ensures DecodeRecord(fields, tag, wireType, s, st) == Done(st, SkipField(wireType, s).value)
  {
  }

  lemma UnknownFirst(fields: seq<Field>, tag: nat, wireType: nat, body: Bytes, b: Bytes, st: State)
    requires |st.slots| == |fields|
    requires 1 <= tag < 0x2000_0000 && FieldIndex(fields, tag).None? && wireType < 8 && SkipField(wireType, body + b) == Some(b)
    ensures DecodeLoop(fields, TagBytes(tag, wireType) + body + b, st) == DecodeLoop(fields, b, st)
  {
    hide SkipField, TagBytes, ReadVarint32, FieldIndex, DecodeLoop, DecodeRecord, IsSuffix;
    TagRoundTrip(tag, wireType, body + b);
    assert TagBytes(tag, wireType) + body + b == TagBytes(tag, wireType) + (body + b);
    LoopUnfolds(fields, TagBytes(tag, wireType) + (body + b), st);
    UnknownStep(fields, tag, wireType, body + b, st);
  }

  lemma LoopUnfolds(fields: seq<Field>, s: Bytes, st: State)
    requires |st.slots| == |fields| && s != []
    ensures DecodeLoop(fields, s, st) ==
            var t := ReadVarint32(s);
            if t.None? then Fail
            else if t.value.value == 0 then Done(st, s[t.value.used..])
            else
              var d := DecodeRecord(fields, t.value.value / 8, t.value.value % 8, s[t.value.used..], st);
              if d.Fail? then Fail else DecodeLoop(fields, d.rest, d.value)
  {
    hide DecodeRecord;
  }
}
