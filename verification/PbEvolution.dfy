/**
  nanopb: messages between programs whose descriptors differ.  The wire type in front of each value lets a
  reader pass over fields that it does not know.
 */
module PbEvolution {
  import opened Wrappers
  import opened ByteCoding
  import opened PbWire
  import opened PbMessage
  import opened PbDecode
  import opened PbRoundTrip
  import opened PbRecords

  /* ---- What a wire type is for ---- */

  /** The wire type of a value tells where it ends, without regard to its type. */
  lemma ValueSkipped(ty: Type, v: Value, rest: Bytes)
    requires Storable(ty, v)
    ensures SkipField(WireType(ty), EncodeValue(ty, v) + rest) == Some(rest)
  {
    hide Varint, EncodeFrom, DecodeValue, Delimited, StorableMessage, SkipField, WireType;
    match v {
      case Int(_) =>
        PackableInts(ty, v);
        NumberRoundTrip(ty, v, v, rest);
        ValueReaches(ty, v, EncodeValue(ty, v) + rest);
      case Raw(b) =>
        BytesSkipped(b, rest);
        LengthFirst(ty);
      case Struct(slots) =>
        StructBytes(ty, slots);
        BytesSkipped(EncodeFrom(ty.fields, slots, 0), rest);
        LengthFirst(ty);
    }
  }

  lemma StructBytes(ty: Type, slots: seq<Slot>)
    requires Storable(ty, Struct(slots))
    ensures ty.Submessage? && |ty.fields| == |slots| && |EncodeFrom(ty.fields, slots, 0)| < TWO_32
    ensures var m := EncodeFrom(ty.fields, slots, 0); EncodeValue(ty, Struct(slots)) == Varint(|m|) + m
  {
    hide EncodeFrom, Varint;
  }

  lemma LengthFirst(ty: Type)
    requires ty.ByteArray? || ty.Text? || ty.FixedLength? || ty.Submessage?
    ensures WireType(ty) == 2
  {
  }

  /** Strings, submessages and packed arrays. */
  lemma BytesSkipped(b: Bytes, rest: Bytes)
    requires |b| < TWO_32
    ensures SkipField(2, Varint(|b|) + b + rest) == Some(rest)
  {
    hide Varint, ReadVarint32;
    DelimitedRoundTrip(b, rest);
  }

  /* ---- Fields as they stand in the Protocol Buffers encoding guide ---- */

  lemma NumberOnTheWire()
    ensures EncodeFrom([Field(1, Required, UVarInt(4))], [Slot([Int(150)])], 0) == [0x08, 0x96, 0x01]
    ensures EncodeFrom([Field(1, Required, SVarInt(4))], [Slot([Int(-2)])], 0) == [0x08, 3]
    ensures EncodeFrom([Field(1, Required, VarInt(4))], [Slot([Int(-2)])], 0) ==
            [0x08, 0xfe, 0xff, 0xff, 0xff, 0xff, 0xff, 0xff, 0xff, 0xff, 0x01]
    ensures EncodeFrom([Field(1, Required, Bool)], [Slot([Int(1)])], 0) == [0x08, 1]
  {
    hide EncodeFrom;
    OneField(1, UVarInt(4), Int(150));
    OneField(1, SVarInt(4), Int(-2));
    OneField(1, VarInt(4), Int(-2));
    OneField(1, Bool, Int(1));
    assert Varint(150) == [0x96, 0x01];
    MinusTwo();
  }

  lemma MinusTwo()
    ensures Varint(TWO_64 - 2) == [0xfe, 0xff, 0xff, 0xff, 0xff, 0xff, 0xff, 0xff, 0xff, 0x01]
  {
    hide Varint;
    SevenBits(0x1, 0x7f);
    SevenBits(0xff, 0x7f);
    SevenBits(0x7fff, 0x7f);
    SevenBits(0x3f_ffff, 0x7f);
    SevenBits(0x1fff_ffff, 0x7f);
    SevenBits(0xf_ffff_ffff, 0x7f);
    SevenBits(0x7ff_ffff_ffff, 0x7f);
    SevenBits(0x3_ffff_ffff_ffff, 0x7f);
    SevenBits(0x1ff_ffff_ffff_ffff, 0x7e);
    OneGroup(1, []);
  }

  lemma FixedOnTheWire()
    ensures EncodeFrom([Field(1, Required, Fixed64)], [Slot([Int(0)])], 0) == [0x09, 0, 0, 0, 0, 0, 0, 0, 0]
    ensures EncodeFrom([Field(1, Required, Fixed32)], [Slot([Int(1)])], 0) == [0x0d, 1, 0, 0, 0]
  {
    hide EncodeFrom;
    OneField(1, Fixed64, Int(0));
    OneField(1, Fixed32, Int(1));
    assert Fixed(0, 4) == [0, 0, 0, 0] && Fixed(0, 8) == [0, 0, 0, 0] + Fixed(0, 4);
  }

  lemma TextOnTheWire()
    ensures EncodeFrom([Field(2, Required, Text(8))], [Slot([Raw([0x74, 0x65, 0x73])])], 0) == [0x12, 3, 0x74, 0x65, 0x73]
  {
    hide EncodeFrom;
    OneField(2, Text(8), Raw([0x74, 0x65, 0x73]));
  }

  lemma PackedOnTheWire()
    ensures EncodeFrom([Field(4, Repeated(3), UVarInt(4))], [Slot([Int(3), Int(270), Int(86942)])], 0) ==
            [0x22, 6, 3, 0x8e, 0x02, 0x9e, 0xa7, 0x05]
  {
    var f, vs := Field(4, Repeated(3), UVarInt(4)), [Int(3), Int(270), Int(86942)];
    assert Varint(270) == [0x8e, 0x02];
    assert Varint(86942) == [0x9e, 0xa7, 0x05];
    assert EncodeAll(f.ty, vs, 2) == [0x9e, 0xa7, 0x05] + EncodeAll(f.ty, vs, 3);
    assert EncodeAll(f.ty, vs, 0) == [3] + ([0x8e, 0x02] + EncodeAll(f.ty, vs, 2));
    assert EncodeFrom([f], [Slot(vs)], 1) == [];
  }

  lemma OneField(tag: nat, ty: Type, v: Value)
    ensures EncodeFrom([Field(tag, Required, ty)], [Slot([v])], 0) == Varint(8 * tag + WireType(ty)) + EncodeValue(ty, v)
  {
    hide Varint, WireType, EncodeValue;
    var f, s := Field(tag, Required, ty), Slot([v]);
    assert EncodeTagged(f, s.vs, 1) == [];
    assert EncodeTagged(f, s.vs, 0) == TagBytes(tag, WireType(ty)) + EncodeValue(ty, v) + EncodeTagged(f, s.vs, 1);
    assert EncodeFrom([f], [s], 1) == [];
    assert EncodeFrom([f], [s], 0) == EncodeSlot(f, s) + EncodeFrom([f], [s], 1);
    assert EncodeSlot(f, s) == EncodeTagged(f, s.vs, 0);
  }

  /* ---- Readers that do not know every field ---- */

  /** The members at some places, in order. */
  function Pick<T>(xs: seq<T>, kept: seq<nat>): (r: seq<T>)
    requires forall m :: 0 <= m < |kept| ==> kept[m] < |xs|
    ensures |r| == |kept| && forall m :: 0 <= m < |r| ==> r[m] == xs[kept[m]]
  {
    seq(|kept|, m requires 0 <= m < |kept| => xs[kept[m]])
  }

  predicate Ascending(kept: seq<nat>, n: nat) {
    (forall m :: 0 <= m < |kept| ==> kept[m] < n) && forall m, k :: 0 <= m < k < |kept| ==> kept[m] < kept[k]
  }

  lemma PickedFields(fields: seq<Field>, slots: seq<Slot>, kept: seq<nat>)
    requires WellFormedFields(fields) && StorableMessage(fields, slots) && Ascending(kept, |fields|)
    ensures WellFormedFields(Pick(fields, kept)) && StorableMessage(Pick(fields, kept), Pick(slots, kept))
  {
    hide StorableSlot, WellFormedField;
  }

  lemma {:induction false} TaggedSkipped(known: seq<Field>, f: Field, vs: seq<Value>, j: nat, st: State, rest: Bytes)
    requires |st.slots| == |known| && FieldIndex(known, f.tag).None? && 1 <= f.tag < 0x2000_0000 && j <= |vs|
    requires forall k :: 0 <= k < |vs| ==> Storable(f.ty, vs[k])
    ensures DecodeLoop(known, EncodeTagged(f, vs, j) + rest, st) == DecodeLoop(known, rest, st)
    decreases |vs| - j
  {
    hide DecodeLoop, EncodeValue, Storable, SkipField, FieldIndex, TagBytes, WireType;
    if j == |vs| {
      assert EncodeTagged(f, vs, j) + rest == rest;
    } else {
      var w, b, more := WireType(f.ty), EncodeValue(f.ty, vs[j]), EncodeTagged(f, vs, j + 1) + rest;
      ValueSkipped(f.ty, vs[j], more);
      SmallWireType(f.ty);
      UnknownFirst(known, f.tag, w, b, more, st);
      TaggedSkipped(known, f, vs, j + 1, st, rest);
      assert EncodeTagged(f, vs, j) + rest == TagBytes(f.tag, w) + b + more;
    }
  }

  lemma SmallWireType(ty: Type)
    ensures WireType(ty) < 8
  {
  }

  /** The records of a field that the reader does not know change nothing. */
  lemma SlotSkipped(known: seq<Field>, f: Field, s: Slot, st: State, rest: Bytes)
    requires |st.slots| == |known| && FieldIndex(known, f.tag).None? && 1 <= f.tag < 0x2000_0000 && StorableSlot(f, s)
    ensures DecodeLoop(known, EncodeSlot(f, s) + rest, st) == DecodeLoop(known, rest, st)
  {
    hide DecodeLoop, EncodeValue, EncodeTagged, EncodeAll, Typed, Storable, SkipField, FieldIndex, TagBytes, WireType, IsDefault, Varint;
    var vs := s.vs;
    if (f.rule.Repeated? || f.rule.FixedCount?) && vs != [] && Packable(f.ty) {
      var body := EncodeAll(f.ty, vs, 0);
      BytesSkipped(body, rest);
      UnknownFirst(known, f.tag, 2, Varint(|body|) + body, rest, st);
      assert EncodeSlot(f, s) + rest == TagBytes(f.tag, 2) + (Varint(|body|) + body) + rest;
    } else if EncodeSlot(f, s) == [] {
      assert [] + rest == rest;
    } else {
      TaggedSkipped(known, f, vs, 0, st, rest);
    }
  }

  lemma NotPicked(fields: seq<Field>, kept: seq<nat>, i: nat)
    requires WellFormedFields(fields) && Ascending(kept, |fields|) && i < |fields| && i !in kept
    ensures FieldIndex(Pick(fields, kept), fields[i].tag).None? && WellFormedField(fields[i])
  {
  }

  lemma {:induction false} PickedLoop(fields: seq<Field>, slots: seq<Slot>, kept: seq<nat>, i: nat, j: nat, st: State) returns (t: State)
    requires WellFormedFields(fields) && StorableMessage(fields, slots) && Ascending(kept, |fields|) && i <= |fields| == |slots|
    requires j <= |kept| && forall m :: 0 <= m < |kept| ==> (kept[m] < i <==> m < j)
    requires Progress(Pick(fields, kept), Pick(slots, kept), j, st)
    ensures Progress(Pick(fields, kept), Pick(slots, kept), |kept|, t)
    ensures |st.slots| == |kept| && DecodeLoop(Pick(fields, kept), EncodeFrom(fields, slots, i), st) == Done(t, [])
    decreases |fields| - i
  {
    hide StorableSlot, StorableMessage, WellFormedFields, EncodeSlot, DecodeRecord, IsSuffix, RequiredBefore;
    var fs, ss := Pick(fields, kept), Pick(slots, kept);
    if i == |fields| {
      AllPassed(kept, i, j);
      t := st;
    } else {
      var rest := EncodeFrom(fields, slots, i + 1);
      PickedFields(fields, slots, kept);
      if j < |kept| && kept[j] == i {
        var u := FieldRoundTrip(fs, ss, j, st, rest);
        t := PickedLoop(fields, slots, kept, i + 1, j + 1, u);
      } else {
        assert i !in kept;
        NotPicked(fields, kept, i);
        SlotOf(fields, slots, i);
        SlotSkipped(fs, fields[i], slots[i], st, rest);
        t := PickedLoop(fields, slots, kept, i + 1, j, st);
      }
    }
  }

  lemma AllPassed(kept: seq<nat>, n: nat, j: nat)
    requires Ascending(kept, n) && j <= |kept| && forall m :: 0 <= m < |kept| ==> (kept[m] < n <==> m < j)
    ensures j == |kept|
  {
    if kept != [] {
      assert kept[|kept| - 1] < n;
    }
  }

  lemma SlotOf(fields: seq<Field>, slots: seq<Slot>, i: nat)
    requires StorableMessage(fields, slots) && i < |fields|
    ensures StorableSlot(fields[i], slots[i])
  {
  }

  /** A reader that knows only some of the fields decodes those, and passes over the others. */
  lemma PickedRoundTrip(fields: seq<Field>, slots: seq<Slot>, kept: seq<nat>)
    requires WellFormedFields(fields) && StorableMessage(fields, slots) && Ascending(kept, |fields|)
    ensures Decode(Pick(fields, kept), EncodeFrom(fields, slots, 0)) == Done(Pick(slots, kept), [])
  {
    hide StorableSlot, WellFormedFields, EncodeFrom, DecodeLoop;
    var fs, ss := Pick(fields, kept), Pick(slots, kept);
    var st := State(DefaultsFrom(fs, 0), {}, None, 0);
    assert Progress(fs, ss, 0, st);
    var t := PickedLoop(fields, slots, kept, 0, 0, st);
    assert t.slots == ss;
  }

  /** Records with another wire type, such as groups, are refused wherever they stand. */
  lemma OtherWireTypesRefused(fields: seq<Field>, a: Bytes, tag: nat, wireType: nat, b: Bytes, slots: seq<Slot>)
    requires |slots| == |fields| && Whole(fields, a) && 1 <= tag < 0x2000_0000 && FieldIndex(fields, tag).None?
    requires wireType in {3, 4, 6, 7}
    ensures DecodeMessage(fields, a + TagBytes(tag, wireType) + b, slots).Fail?
  {
    hide DecodeLoop, FieldIndex, TagBytes, Whole, ReadVarint32, Split;
    assert a + TagBytes(tag, wireType) + b == a + (TagBytes(tag, wireType) + b);
    DecodeConcat(fields, a, TagBytes(tag, wireType) + b, State(slots, {}, None, 0));
    var t := DecodeLoop(fields, a, State(slots, {}, None, 0));
    if t.Done? {
      TagRoundTrip(tag, wireType, b);
      LoopUnfolds(fields, TagBytes(tag, wireType) + b, t.value);
    }
  }

  /** The fields of one descriptor behind those of another are encoded one behind the other. */
  lemma {:induction false} FieldsInOrder(fs: seq<Field>, gs: seq<Field>, ss: seq<Slot>, ts: seq<Slot>, i: nat)
    requires |fs| == |ss| && |gs| == |ts| && i <= |fs|
    ensures EncodeFrom(fs + gs, ss + ts, i) == EncodeFrom(fs, ss, i) + EncodeFrom(gs, ts, 0)
    decreases |fs| - i
  {
    hide EncodeFrom, EncodeSlot;
    if i == |fs| {
      FieldsBehind(fs, gs, ss, ts, 0);
      EncodeUnfolds(fs, ss, i);
    } else {
      FieldsInOrder(fs, gs, ss, ts, i + 1);
      EncodeUnfolds(fs, ss, i);
      EncodeUnfolds(fs + gs, ss + ts, i);
    }
  }

  lemma {:induction false} FieldsBehind(fs: seq<Field>, gs: seq<Field>, ss: seq<Slot>, ts: seq<Slot>, k: nat)
    requires |fs| == |ss| && |gs| == |ts| && k <= |gs|
    ensures EncodeFrom(fs + gs, ss + ts, |fs| + k) == EncodeFrom(gs, ts, k)
    decreases |gs| - k
  {
    hide EncodeFrom, EncodeSlot;
    EncodeUnfolds(gs, ts, k);
    EncodeUnfolds(fs + gs, ss + ts, |fs| + k);
    if k < |gs| {
      FieldsBehind(fs, gs, ss, ts, k + 1);
    }
  }

  lemma EncodeUnfolds(fields: seq<Field>, slots: seq<Slot>, i: nat)
    requires |fields| == |slots| && i <= |fields|
    ensures EncodeFrom(fields, slots, i) ==
            if i == |fields| then [] else EncodeSlot(fields[i], slots[i]) + EncodeFrom(fields, slots, i + 1)
  {
  }
}
