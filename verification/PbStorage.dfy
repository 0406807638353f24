/**
  nanopb: decoded values and the storage they are put into.  Numbers that are too large for it are refused,
  and so are strings and arrays; what decoding any bytes leaves in a message fits the message.
 */
module PbStorage {
  import opened Wrappers
  import opened ByteCoding
  import opened PbWire
  import opened PbMessage
  import opened PbDecode
  import opened PbRoundTrip

  /* ---- Which numbers are refused ---- */

  lemma UnsignedRange(n: nat, cur: Value, rest: Bytes)
    requires n < 0x1_0000_0000_0000_0000
    ensures var s := Varint(n) + rest;
            && DecodeValue(UVarInt(1), cur, s) == (if n <= 255 then Done(Int(n), rest) else Fail)
            && DecodeValue(UVarInt(2), cur, s) == (if n <= 65535 then Done(Int(n), rest) else Fail)
            && DecodeValue(UVarInt(4), cur, s) == (if n <= 4294967295 then Done(Int(n), rest) else Fail)
            && DecodeValue(UVarInt(8), cur, s) == Done(Int(n), rest)
  {
    hide Varint, ReadVarint64, IsSuffix;
    Number64(n, rest);
  }

  lemma ZigZagRange(i: int, cur: Value, rest: Bytes)
    requires -0x8000_0000_0000_0000 <= i < 0x8000_0000_0000_0000
    ensures var s := Varint(if i < 0 then -2 * i - 1 else 2 * i) + rest;
            && DecodeValue(SVarInt(1), cur, s) == (if -128 <= i <= 127 then Done(Int(i), rest) else Fail)
            && DecodeValue(SVarInt(2), cur, s) == (if -32768 <= i <= 32767 then Done(Int(i), rest) else Fail)
            && DecodeValue(SVarInt(4), cur, s) == (if -2147483648 <= i <= 2147483647 then Done(Int(i), rest) else Fail)
            && DecodeValue(SVarInt(8), cur, s) == Done(Int(i), rest)
  {
    hide Varint, ReadVarint64, IsSuffix;
    Number64(if i < 0 then -2 * i - 1 else 2 * i, rest);
  }

  /**
    Signed numbers are read as 64 bits in two's complement.  A field of 64 bits takes them all; for a smaller one
    all but the low 32 bits, `j`, are lost before the range is looked at.
   */
  lemma SignedRange(i: int, j: int, k: int, cur: Value, rest: Bytes)
    requires -0x8000_0000_0000_0000 <= i < 0x8000_0000_0000_0000
    requires i == j + k * 0x1_0000_0000 && -2147483648 <= j <= 2147483647
    ensures var s := Varint(if i < 0 then i + 0x1_0000_0000_0000_0000 else i) + rest;
            && DecodeValue(VarInt(1), cur, s) == (if -128 <= j <= 127 then Done(Int(j), rest) else Fail)
            && DecodeValue(VarInt(2), cur, s) == (if -32768 <= j <= 32767 then Done(Int(j), rest) else Fail)
            && DecodeValue(VarInt(4), cur, s) == Done(Int(j), rest)
            && DecodeValue(VarInt(8), cur, s) == Done(Int(i), rest)
  {
    hide Varint, ReadVarint64, IsSuffix, Low32;
    var n := if i < 0 then i + TWO_64 else i;
    Number64(n, rest);
    LowWord(n, j, if i < 0 then k + 0x1_0000_0000 else k);
  }

  lemma LowWord(n: nat, j: int, k: int)
    requires n == j + k * 0x1_0000_0000 && -2147483648 <= j <= 2147483647
    ensures Low32(n) == j
  {
    if j >= 0 {
      assert n % TWO_32 == j;
    } else {
      assert n == (j + TWO_32) + (k - 1) * TWO_32;
      assert n % TWO_32 == j + TWO_32;
    }
  }

  lemma BoolRange(n: nat, cur: Value, rest: Bytes)
    requires n < 0x1_0000_0000
    ensures DecodeValue(Bool, cur, Varint(n) + rest) == Done(Int(if n == 0 then 0 else 1), rest)
  {
    hide Varint, ReadVarint32, IsSuffix;
    Varint32RoundTrip(n, rest);
    assert (Varint(n) + rest)[|Varint(n)|..] == rest;
  }

  /** A string needs room for its terminator; no bytes at all stand for a fixed-length field of zeros. */
  lemma StringRange(b: Bytes, max: nat, cur: Value, rest: Bytes)
    requires |b| < 0x1_0000_0000
    ensures var s := Varint(|b|) + b + rest;
            && DecodeValue(Text(max), cur, s) == (if |b| < max then Done(Raw(b), rest) else Fail)
            && DecodeValue(ByteArray(max), cur, s) == (if |b| <= max && |b| <= 65535 then Done(Raw(b), rest) else Fail)
            && DecodeValue(FixedLength(max), cur, s) ==
               (if b == [] then Done(Raw(seq(max, i => 0)), rest)
                else if |b| == max && |b| <= 65535 then Done(Raw(b), rest) else Fail)
  {
    hide Varint, Delimited, IsSuffix;
    DelimitedRoundTrip(b, rest);
    var zeros := DefaultValue(FixedLength(max));
    assert zeros.b == seq(max, i => 0);
  }

  /* ---- What decoding leaves behind ---- */

  ghost predicate Fits(ty: Type, v: Value)
    decreases v, 0
  {
    match ty
    case Bool => v.Int? && 0 <= v.i <= 1
    case VarInt(w) => v.Int? && -(Limit(w) / 2) <= v.i < Limit(w) / 2
    case UVarInt(w) => v.Int? && 0 <= v.i < Limit(w)
    case SVarInt(w) => v.Int? && -(Limit(w) / 2) <= v.i < Limit(w) / 2
    case Fixed32 => v.Int? && 0 <= v.i < 0x1_0000_0000
    case Fixed64 => v.Int? && 0 <= v.i < 0x1_0000_0000_0000_0000
    case ByteArray(max) => v.Raw? && |v.b| <= max
    case Text(max) => v.Raw? && (|v.b| < max || v.b == [])
    case FixedLength(n) => v.Raw? && |v.b| == n
    case Submessage(fields) => v.Struct? && FitsMessage(fields, v.slots)
  }

  ghost predicate AllFit(ty: Type, vs: seq<Value>)
    decreases vs
  {
    forall j :: 0 <= j < |vs| ==> Fits(ty, vs[j])
  }

  ghost predicate FitsSlot(f: Field, s: Slot)
    decreases s
  {
    && AllFit(f.ty, s.vs)
    && match f.rule
       case Required => |s.vs| == 1
       case Optional => |s.vs| <= 1
       case Singular => |s.vs| == 1
       case Repeated(max) => |s.vs| <= max
       case FixedCount(n) => |s.vs| == n
       case OneOf(_) => |s.vs| <= 1
  }

  /** Of each union at most one member is set. */
  ghost predicate UnionsFit(fields: seq<Field>, slots: seq<Slot>) {
    |slots| == |fields| &&
    forall i, j :: 0 <= i < j < |fields| && fields[i].rule.OneOf? && fields[i].rule == fields[j].rule ==> slots[i].vs == [] || slots[j].vs == []
  }

  ghost predicate FitsMessage(fields: seq<Field>, slots: seq<Slot>)
    decreases slots
  {
    |slots| == |fields| && UnionsFit(fields, slots) && forall i :: 0 <= i < |fields| ==> FitsSlot(fields[i], slots[i])
  }

  lemma {:induction false} DefaultFits(ty: Type)
    ensures Fits(ty, DefaultValue(ty))
    decreases ty
  {
    if ty.Submessage? {
      DefaultsFit(ty.fields);
    }
  }

  lemma {:induction false} DefaultsFit(fields: seq<Field>)
    ensures FitsMessage(fields, DefaultsFrom(fields, 0))
    decreases fields
  {
    forall i | 0 <= i < |fields| ensures FitsSlot(fields[i], DefaultSlot(fields[i])) {
      DefaultSlotFits(fields[i]);
    }
  }

  lemma {:induction false} DefaultSlotFits(f: Field)
    ensures FitsSlot(f, DefaultSlot(f))
    decreases f
  {
    DefaultFits(f.ty);
  }

  /** The value that memory holds, where it matters. */
  ghost predicate CurrentFits(ty: Type, cur: Value) {
    ty.Submessage? && cur.Struct? && |cur.slots| == |ty.fields| ==> FitsMessage(ty.fields, cur.slots)
  }

  lemma FitsAsCurrent(ty: Type, v: Value)
    requires Fits(ty, v)
    ensures CurrentFits(ty, v)
  {
  }

  lemma FixedFits(s: Bytes, k: nat)
    requires k <= |s|
    ensures 0 <= ReadFixed(s[..k]) < Power256(k)
  {
    FixedBelow(s[..k]);
  }

  lemma {:induction false} FixedBelow(b: Bytes)
    ensures 0 <= ReadFixed(b) < Power256(|b|)
  {
    if b != [] {
      FixedBelow(b[1..]);
    }
  }

  lemma {:induction false} ValueFits(ty: Type, cur: Value, s: Bytes)
    requires DecodeValue(ty, cur, s).Done? && CurrentFits(ty, cur)
    ensures Fits(ty, DecodeValue(ty, cur, s).value)
    decreases |s|, 0
  {
    hide ReadVarint32, ReadVarint64, DecodeMessage, IsSuffix, Delimited, UnZigZag, ToSigned, Low32, FitsMessage, ReadFixed, Power256;
    match ty {
      case Fixed32 =>
        FixedFits(s, 4);
        Powers256();
      case Fixed64 =>
        FixedFits(s, 8);
        Powers256();
      case Submessage(fields) =>
        DefaultsFit(fields);
        var slots := if cur.Struct? && |cur.slots| == |fields| then cur.slots else DefaultsFrom(fields, 0);
        MessageFits(fields, Delimited(s).value, slots);
      case _ =>
    }
  }

  lemma {:induction false} PackedFits(ty: Type, vs: seq<Value>, max: nat, s: Bytes)
    requires DecodePacked(ty, vs, max, s).Done? && AllFit(ty, vs)
    ensures var r := DecodePacked(ty, vs, max, s).value;
            AllFit(ty, r) && (|vs| <= max ==> |r| <= max)
    decreases |s|, 1
  {
    hide DecodeValue, DefaultValue, Fits;
    if s != [] {
      var v := DecodeValue(ty, DefaultValue(ty), s);
      DefaultFits(ty);
      FitsAsCurrent(ty, DefaultValue(ty));
      ValueFits(ty, DefaultValue(ty), s);
      PackedFits(ty, vs + [v.value], max, v.rest);
    }
  }

  lemma {:induction false} PackedFixedFits(ty: Type, vs: seq<Value>, count: nat, s: Bytes)
    requires DecodePackedFixed(ty, vs, count, s).Done? && AllFit(ty, vs)
    ensures var r := DecodePackedFixed(ty, vs, count, s).value.0;
            AllFit(ty, r) && |r| == |vs|
    decreases |s|, 1
  {
    hide DecodeValue, Fits;
    if s != [] {
      var v := DecodeValue(ty, vs[count], s);
      FitsAsCurrent(ty, vs[count]);
      ValueFits(ty, vs[count], s);
      PackedFixedFits(ty, vs[count := v.value], count + 1, v.rest);
    }
  }

  lemma {:induction false} SlotFits(f: Field, wireType: nat, slot: Slot, count: nat, s: Bytes)
    requires DecodeSlot(f, wireType, slot, count, s).Done? && (FitsSlot(f, slot) || (f.rule.OneOf? && slot.vs == []))
    ensures FitsSlot(f, DecodeSlot(f, wireType, slot, count, s).value.0)
    decreases |s|, 2
  {
    hide DecodeValue, DecodePacked, DecodePackedFixed, DefaultValue, IsSuffix, Delimited, Fits;
    var packed := wireType == 2 && Packable(f.ty);
    var d := Delimited(s);
    DefaultFits(f.ty);
    FitsAsCurrent(f.ty, DefaultValue(f.ty));
    if f.rule.Repeated? && packed {
      PackedFits(f.ty, slot.vs, f.rule.max, d.value);
    } else if f.rule.FixedCount? && packed {
      PackedFixedFits(f.ty, slot.vs, count, d.value);
    } else if f.rule.Repeated? || f.rule.FixedCount? || slot.vs == [] {
      ValueFits(f.ty, DefaultValue(f.ty), s);
    } else {
      FitsAsCurrent(f.ty, slot.vs[0]);
      ValueFits(f.ty, slot.vs[0], s);
    }
  }

  lemma {:induction false} RecordFits(fields: seq<Field>, tag: nat, wireType: nat, s: Bytes, st: State)
    requires FitsMessage(fields, st.slots) && DecodeRecord(fields, tag, wireType, s, st).Done?
    ensures FitsMessage(fields, DecodeRecord(fields, tag, wireType, s, st).value.slots)
    decreases |s|, 3
  {
    hide DecodeSlot, SkipField, FieldIndex, IsSuffix, AllFit, RequiredBefore;
    var found := FieldIndex(fields, tag);
    if found.Some? {
      var i := found.value;
      var count := if fields[i].rule.FixedCount? && st.fixed != Some(i) then 0 else st.count;
      var slots := ClearUnion(fields, st.slots, i);
      SlotFits(fields[i], wireType, slots[i], count, s);
      NoneFit(fields);
    }
  }

  lemma NoneFit(fields: seq<Field>)
    ensures forall f: Field :: f.rule.OneOf? ==> FitsSlot(f, Slot([]))
  {
  }

  lemma {:induction false} LoopFits(fields: seq<Field>, s: Bytes, st: State)
    requires FitsMessage(fields, st.slots) && DecodeLoop(fields, s, st).Done?
    ensures FitsMessage(fields, DecodeLoop(fields, s, st).value.slots)
    decreases |s|, 4
  {
    hide DecodeRecord, FitsMessage, ReadVarint32;
    assert |st.slots| == |fields| by {
      SameLength(fields, st.slots);
    }
    if s != [] && ReadVarint32(s).value.value != 0 {
      var t := ReadVarint32(s).value;
      var d := DecodeRecord(fields, t.value / 8, t.value % 8, s[t.used..], st);
      RecordFits(fields, t.value / 8, t.value % 8, s[t.used..], st);
      LoopFits(fields, d.rest, d.value);
    }
  }

  lemma SameLength(fields: seq<Field>, slots: seq<Slot>)
    requires FitsMessage(fields, slots)
    ensures |slots| == |fields|
  {
  }

  /** Whatever the bytes: what is decoded into a message that fits, fits. */
  lemma {:induction false} MessageFits(fields: seq<Field>, s: Bytes, slots: seq<Slot>)
    requires |slots| == |fields| && FitsMessage(fields, slots) && DecodeMessage(fields, s, slots).Done?
    ensures FitsMessage(fields, DecodeMessage(fields, s, slots).value)
    decreases |s|, 5
  {
    hide FitsMessage, DecodeLoop;
    LoopFits(fields, s, State(slots, {}, None, 0));
  }

  lemma DecodedFits(fields: seq<Field>, s: Bytes)
    requires Decode(fields, s).Done?
    ensures FitsMessage(fields, Decode(fields, s).value)
  {
    hide DecodeMessage, FitsMessage;
    DefaultsFit(fields);
    MessageFits(fields, s, DefaultsFrom(fields, 0));
  }

  /* ---- What the encoder takes ---- */

  /** What a decoder needs and the encoder does not look at: terminators, lengths, and one member to a union. */
  ghost predicate Unchecked(ty: Type, v: Value)
    decreases v, 0
  {
    match v
    case Int(_) => true
    case Raw(b) => |b| < 0x1_0000_0000 && (ty.ByteArray? ==> |b| <= 65535) && (ty.Text? ==> |b| < ty.max)
    case Struct(slots) =>
      ty.Submessage? && |slots| == |ty.fields| && UncheckedMessage(ty.fields, slots) && |EncodeFrom(ty.fields, slots, 0)| < 0x1_0000_0000
  }

  ghost predicate UncheckedSlot(f: Field, s: Slot)
    decreases s
  {
    && (forall j :: 0 <= j < |s.vs| ==> Unchecked(f.ty, s.vs[j]))
    && (Packable(f.ty) ==> |EncodeAll(f.ty, s.vs, 0)| < 0x1_0000_0000)
  }

  ghost predicate UncheckedMessage(fields: seq<Field>, slots: seq<Slot>)
    decreases slots, 1
  {
    |slots| == |fields| && UnionsFit(fields, slots) && forall i :: 0 <= i < |fields| ==> UncheckedSlot(fields[i], slots[i])
  }

  lemma {:induction false} DefaultEncodable(ty: Type, v: Value)
    requires Typed(ty, v) && IsDefault(ty, v)
    ensures Encodable(ty, v)
    decreases v, 0
  {
    if v.Struct? {
      forall k | 0 <= k < |v.slots| ensures EncodableSlot(ty.fields[k], v.slots[k]) {
        assert IsDefaultSlot(ty.fields[k], v.slots[k]) && TypedSlot(ty.fields[k], v.slots[k]);
      }
    }
  }

  lemma {:induction false} ValueTaken(ty: Type, v: Value)
    requires Typed(ty, v)
    ensures Storable(ty, v) <==> Encodable(ty, v) && Unchecked(ty, v)
    decreases v, 0
  {
    hide EncodeFrom;
    if v.Struct? {
      MessageTaken(ty.fields, v.slots);
    }
  }

  lemma {:induction false} SlotTaken(f: Field, s: Slot)
    requires TypedSlot(f, s)
    ensures StorableSlot(f, s) <==> EncodableSlot(f, s) && UncheckedSlot(f, s)
    decreases s
  {
    hide Encodable, Storable, Unchecked, Typed, EncodeAll, IsDefault;
    forall j | 0 <= j < |s.vs| ensures Storable(f.ty, s.vs[j]) <==> Encodable(f.ty, s.vs[j]) && Unchecked(f.ty, s.vs[j]) {
      ValueTaken(f.ty, s.vs[j]);
    }
    forall j | 0 <= j < |s.vs| && IsDefault(f.ty, s.vs[j]) ensures Encodable(f.ty, s.vs[j]) {
      DefaultEncodable(f.ty, s.vs[j]);
    }
  }

  /** Messages that the encoder takes come back exactly if they meet what it does not check. */
  lemma {:induction false} MessageTaken(fields: seq<Field>, slots: seq<Slot>)
    requires TypedMessage(fields, slots)
    ensures StorableMessage(fields, slots) <==> EncodableFrom(fields, slots, 0) && UncheckedMessage(fields, slots)
    decreases slots, 1
  {
    hide EncodableSlot, StorableSlot, UncheckedSlot, TypedSlot;
    forall i | 0 <= i < |fields|
      ensures StorableSlot(fields[i], slots[i]) <==> EncodableSlot(fields[i], slots[i]) && UncheckedSlot(fields[i], slots[i]) {
      SlotTaken(fields[i], slots[i]);
    }
  }

  /* ---- What is not written ---- */

  lemma TagIsWritten(f: Field, vs: seq<Value>)
    requires vs != []
    ensures EncodeTagged(f, vs, 0) != []
  {
    hide EncodeValue, Varint;
  }

  lemma SlotIsSilent(f: Field, s: Slot)
    requires TypedSlot(f, s) && (f.rule.FixedCount? ==> f.rule.count > 0)
    ensures EncodeSlot(f, s) == [] <==> IsDefaultSlot(f, s)
  {
    hide EncodeValue, EncodeAll, Varint, IsDefault, Typed;
    if s.vs != [] {
      TagIsWritten(f, s.vs);
    }
  }

  /** Nothing at all is written exactly for a message in which every field is absent or has its default value. */
  lemma {:induction false} SilentIff(fields: seq<Field>, slots: seq<Slot>, i: nat)
    requires TypedMessage(fields, slots) && i <= |fields|
    requires forall k :: 0 <= k < |fields| && fields[k].rule.FixedCount? ==> fields[k].rule.count > 0
    ensures EncodeFrom(fields, slots, i) == [] <==> forall k :: i <= k < |fields| ==> IsDefaultSlot(fields[k], slots[k])
    decreases |fields| - i
  {
    hide EncodeSlot, IsDefaultSlot, TypedSlot;
    if i < |fields| {
      SlotIsSilent(fields[i], slots[i]);
      SilentIff(fields, slots, i + 1);
    }
  }
}
