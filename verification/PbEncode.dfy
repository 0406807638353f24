/**
  nanopb's encoder: the same code runs on a sizing stream, which only counts, and on a writing stream.
 */
module PbEncode {
  import opened Wrappers
  import opened ByteCoding
  import opened PbWire
  import opened PbMessage

  datatype Error = StreamFull | ArraySizeExceeded | BytesSizeExceeded | SizeChanged

  class OStream {
    const sizing: bool     // no callback: nothing is written, only counted
    const maxSize: nat
    var written: nat
    var buffer: Bytes

    constructor (sizing: bool, maxSize: nat)
      ensures this.sizing == sizing && this.maxSize == maxSize && written == 0 && buffer == []
    {
      this.sizing, this.maxSize, written, buffer := sizing, maxSize, 0, [];
    }

    ghost predicate Valid()
      reads this
    {
      !sizing ==> written <= maxSize
    }

    /** pb_write; a sizing stream looks at the length only. */
    method Write(b: Bytes) returns (err: Option<Error>)
      requires Valid()
      modifies this
      ensures Valid() && Emitted(sizing, maxSize, old(written), old(buffer), written, buffer, true, b, err)
    {
      if |b| > 0 && !sizing {
        if written + |b| > maxSize {
          return Some(StreamFull);
        }
        buffer := buffer + b;
      }
      written := written + |b|;
      assert |b| == 0 ==> buffer + b == buffer;
      return None;
    }

    /** pb_write without data, on a sizing stream. */
    method Count(n: nat)
      requires sizing
      modifies this`written
      ensures written == old(written) + n
    {
      written := written + n;
    }
  }

  /**
    Success exactly when the value may be encoded and, on a writing stream, its bytes fit; then these
    bytes, neither more nor fewer, have been counted, and on a writing stream written.
   */
  ghost predicate Emitted(sizing: bool, maxSize: nat, written: nat, buffer: Bytes, written': nat, buffer': Bytes,
                          encodable: bool, bytes: Bytes, err: Option<Error>) {
    && (err.None? <==> encodable && (sizing || written + |bytes| <= maxSize))
    && (err.None? ==> written' == written + |bytes| && (sizing || buffer' == buffer + bytes))
    && err != Some(SizeChanged)
  }

  function Number(ty: Type, i: int): nat {
    match ty
    case SVarInt(_) => ZigZag(i)
    case _ => if -TWO_63 <= i < TWO_63 then ToUnsigned(i) else if i < 0 then 0 else i
  }

  method EncodeVarint(s: OStream, n: nat) returns (err: Option<Error>)
    requires s.Valid()
    modifies s
    ensures s.Valid()
    ensures Emitted(s.sizing, s.maxSize, old(s.written), old(s.buffer), s.written, s.buffer, true, Varint(n), err)
  {
    var b := VarintBytes(n);
    err := s.Write(b);
  }

  method EncodeString(s: OStream, b: Bytes) returns (err: Option<Error>)
    requires s.Valid()
    modifies s
    ensures s.Valid()
    ensures Emitted(s.sizing, s.maxSize, old(s.written), old(s.buffer), s.written, s.buffer, true, Varint(|b|) + b, err)
  {
    err := EncodeVarint(s, |b|);
    if err.None? {
      err := s.Write(b);
    }
  }

  /** The field encoders. */
  method EncodeValue(s: OStream, ty: Type, v: Value) returns (err: Option<Error>)
    requires s.Valid() && Typed(ty, v)
    modifies s
    ensures s.Valid()
    ensures Emitted(s.sizing, s.maxSize, old(s.written), old(s.buffer), s.written, s.buffer, Encodable(ty, v),
                    PbMessage.EncodeValue(ty, v), err)
    decreases v, 0
  {
    match v {
      case Int(i) =>
        if ty == Fixed32 {
          err := s.Write(Fixed(i, 4));
        } else if ty == Fixed64 {
          err := s.Write(Fixed(i, 8));
        } else {
          err := EncodeVarint(s, Number(ty, i));
        }
      case Raw(b) =>
        if ty.ByteArray? && |b| > ty.max {
          return Some(BytesSizeExceeded);
        }
        err := EncodeString(s, b);
      case Struct(slots) =>
        err := EncodeSubmessage(s, ty.fields, slots);
    }
  }

  /** One pass to find the size, one to write; the second never differs from the first. */
  method EncodeSubmessage(s: OStream, fields: seq<Field>, slots: seq<Slot>) returns (err: Option<Error>)
    requires s.Valid() && TypedMessage(fields, slots)
    modifies s
    ensures s.Valid()
    ensures var m := EncodeFrom(fields, slots, 0);
            Emitted(s.sizing, s.maxSize, old(s.written), old(s.buffer), s.written, s.buffer, EncodableFrom(fields, slots, 0),
                    Varint(|m|) + m, err)
    decreases slots, 4, 0
  {
    ghost var m := EncodeFrom(fields, slots, 0);
    var sizes := new OStream(true, 0);
    err := EncodeMessage(sizes, fields, slots);
    if err.Some? {
      return;
    }
    var size := sizes.written;
    err := EncodeVarint(s, size);
    if err.Some? {
      return;
    }
    if s.sizing {
      s.Count(size);
      return None;
    }
    if s.written + size > s.maxSize {
      return Some(StreamFull);
    }
    var sub := new OStream(false, size);
    err := EncodeMessage(sub, fields, slots);
    s.written := s.written + sub.written;
    s.buffer := s.buffer + sub.buffer;
    if sub.written != size {
      return Some(SizeChanged);
    }
  }

  /** pb_encode. */
  method EncodeMessage(s: OStream, fields: seq<Field>, slots: seq<Slot>) returns (err: Option<Error>)
    requires s.Valid() && TypedMessage(fields, slots)
    modifies s
    ensures s.Valid()
    ensures Emitted(s.sizing, s.maxSize, old(s.written), old(s.buffer), s.written, s.buffer, EncodableFrom(fields, slots, 0),
                    EncodeFrom(fields, slots, 0), err)
    decreases slots, 3, 0
  {
    hide Typed, Encodable, EncodeSlot, EncodableSlot, TypedSlot, PbMessage.EncodeValue;
    err := None;
    ghost var done: Bytes := [];
    for i := 0 to |fields|
      invariant s.Valid() && err.None? && done + EncodeFrom(fields, slots, i) == EncodeFrom(fields, slots, 0)
      invariant s.written == old(s.written) + |done| && (s.sizing || s.buffer == old(s.buffer) + done)
      invariant EncodableFrom(fields, slots, i) <==> EncodableFrom(fields, slots, 0)
    {
      ghost var e := EncodeSlot(fields[i], slots[i]);
      err := EncodeField(s, fields[i], slots[i]);
      if err.Some? {
        return;
      }
      assert done + (e + EncodeFrom(fields, slots, i + 1)) == done + e + EncodeFrom(fields, slots, i + 1);
      done := done + e;
    }
  }

  /** encode_basic_field. */
  method EncodeField(s: OStream, f: Field, slot: Slot) returns (err: Option<Error>)
    requires s.Valid() && TypedSlot(f, slot)
    modifies s
    ensures s.Valid()
    ensures Emitted(s.sizing, s.maxSize, old(s.written), old(s.buffer), s.written, s.buffer, EncodableSlot(f, slot),
                    EncodeSlot(f, slot), err)
    decreases slot, 2, 0
  {
    var vs := slot.vs;
    match f.rule {
      case Repeated(max) =>
        err := EncodeArray(s, f, vs, max);
      case FixedCount(n) =>
        err := EncodeArray(s, f, vs, n);
      case Singular =>
        if IsDefault(f.ty, vs[0]) {
          return None;
        }
        err := EncodeEach(s, f, vs);
      case _ =>
        err := EncodeEach(s, f, vs);
    }
  }

  /** encode_array: packed when the type allows it, with the packed size known in advance. */
  method EncodeArray(s: OStream, f: Field, vs: seq<Value>, max: nat) returns (err: Option<Error>)
    requires s.Valid() && forall j :: 0 <= j < |vs| ==> Typed(f.ty, vs[j])
    modifies s
    ensures s.Valid()
    ensures Emitted(s.sizing, s.maxSize, old(s.written), old(s.buffer), s.written, s.buffer,
                    |vs| <= max && forall j :: 0 <= j < |vs| ==> Encodable(f.ty, vs[j]),
                    if vs == [] then []
                    else if Packable(f.ty) then
                      TagBytes(f.tag, 2) + Varint(|EncodeAll(f.ty, vs, 0)|) + EncodeAll(f.ty, vs, 0)
                    else EncodeTagged(f, vs, 0), err)
    decreases vs, 3, 0
  {
    hide Typed, Encodable, EncodeAll, EncodeTagged, PbMessage.EncodeValue, Varint;
    if vs == [] {
      return None;
    }
    if |vs| > max {
      return Some(ArraySizeExceeded);
    }
    if !Packable(f.ty) {
      err := EncodeEach(s, f, vs);
      return;
    }
    err := EncodeVarint(s, 8 * f.tag + 2);
    if err.Some? {
      return;
    }
    var size: nat;
    if f.ty == Fixed32 {
      size := 4 * |vs|;
      FixedSizes(f.ty, vs, 0);
    } else if f.ty == Fixed64 {
      size := 8 * |vs|;
      FixedSizes(f.ty, vs, 0);
    } else {
      var sizes := new OStream(true, 0);
      err := EncodeItems(sizes, f.ty, vs);
      size := sizes.written;
    }
    PackableEncodes(f.ty, vs);
    err := EncodeVarint(s, size);
    if err.Some? {
      return;
    }
    if s.sizing {
      s.Count(size);
      return None;
    }
    err := EncodeItems(s, f.ty, vs);
  }

  lemma PackableEncodes(ty: Type, vs: seq<Value>)
    requires Packable(ty) && forall j :: 0 <= j < |vs| ==> Typed(ty, vs[j])
    ensures forall j :: 0 <= j < |vs| ==> Encodable(ty, vs[j])
  {
  }

  lemma {:induction false} FixedSizes(ty: Type, vs: seq<Value>, j: nat)
    requires (ty == Fixed32 || ty == Fixed64) && j <= |vs| && forall j :: 0 <= j < |vs| ==> Typed(ty, vs[j])
    ensures |EncodeAll(ty, vs, j)| == (if ty == Fixed32 then 4 else 8) * (|vs| - j)
    decreases |vs| - j
  {
    if j < |vs| {
      FixedSizes(ty, vs, j + 1);
    }
  }

  method EncodeItems(s: OStream, ty: Type, vs: seq<Value>) returns (err: Option<Error>)
    requires s.Valid() && Packable(ty) && forall j :: 0 <= j < |vs| ==> Typed(ty, vs[j])
    modifies s
    ensures s.Valid()
    ensures Emitted(s.sizing, s.maxSize, old(s.written), old(s.buffer), s.written, s.buffer, true, EncodeAll(ty, vs, 0), err)
    decreases vs, 2, 0
  {
    hide Typed, Encodable, PbMessage.EncodeValue;
    PackableEncodes(ty, vs);
    err := None;
    ghost var done: Bytes := [];
    for j := 0 to |vs|
      invariant s.Valid() && err.None? && done + EncodeAll(ty, vs, j) == EncodeAll(ty, vs, 0)
      invariant s.written == old(s.written) + |done| && (s.sizing || s.buffer == old(s.buffer) + done)
    {
      ghost var e := PbMessage.EncodeValue(ty, vs[j]);
      err := EncodeValue(s, ty, vs[j]);
      if err.Some? {
        return;
      }
      assert done + (e + EncodeAll(ty, vs, j + 1)) == done + e + EncodeAll(ty, vs, j + 1);
      done := done + e;
    }
  }

  /** Every value under a tag of its own. */
  method EncodeEach(s: OStream, f: Field, vs: seq<Value>) returns (err: Option<Error>)
    requires s.Valid() && forall j :: 0 <= j < |vs| ==> Typed(f.ty, vs[j])
    modifies s
    ensures s.Valid()
    ensures Emitted(s.sizing, s.maxSize, old(s.written), old(s.buffer), s.written, s.buffer,
                    forall j :: 0 <= j < |vs| ==> Encodable(f.ty, vs[j]), EncodeTagged(f, vs, 0), err)
    decreases vs, 2, 0
  {
    hide Typed, Encodable, PbMessage.EncodeValue, Varint, WireType;
    err := None;
    ghost var done: Bytes := [];
    for j := 0 to |vs|
      invariant s.Valid() && err.None? && done + EncodeTagged(f, vs, j) == EncodeTagged(f, vs, 0)
      invariant s.written == old(s.written) + |done| && (s.sizing || s.buffer == old(s.buffer) + done)
      invariant forall i :: 0 <= i < j ==> Encodable(f.ty, vs[i])
    {
      ghost var t, e := TagBytes(f.tag, WireType(f.ty)), PbMessage.EncodeValue(f.ty, vs[j]);
      err := EncodeVarint(s, 8 * f.tag + WireType(f.ty));
      if err.Some? {
        return;
      }
      err := EncodeValue(s, f.ty, vs[j]);
      if err.Some? {
        return;
      }
      assert done + (t + e + EncodeTagged(f, vs, j + 1)) == done + t + e + EncodeTagged(f, vs, j + 1);
      done := done + t + e;
    }
  }

  /** pb_get_encoded_size. */
  method GetEncodedSize(fields: seq<Field>, slots: seq<Slot>) returns (size: Option<nat>)
    requires TypedMessage(fields, slots)
    ensures size == if EncodableFrom(fields, slots, 0) then Some(|EncodeFrom(fields, slots, 0)|) else None
  {
    var sizes := new OStream(true, 0);
    var err := EncodeMessage(sizes, fields, slots);
    size := if err.None? then Some(sizes.written) else None;
  }

  /** Encoding into a buffer succeeds exactly when the size found in advance fits it. */
  method EncodeToBuffer(fields: seq<Field>, slots: seq<Slot>, capacity: nat) returns (r: Option<Bytes>, size: Option<nat>)
    requires TypedMessage(fields, slots)
    ensures r.Some? <==> size.Some? && size.value <= capacity
    ensures r.Some? ==> r.value == EncodeFrom(fields, slots, 0) && |r.value| == size.value
    ensures size.Some? <==> EncodableFrom(fields, slots, 0)
  {
    size := GetEncodedSize(fields, slots);
    var s := new OStream(false, capacity);
    var err := EncodeMessage(s, fields, slots);
    r := if err.None? then Some(s.buffer) else None;
  }
}
