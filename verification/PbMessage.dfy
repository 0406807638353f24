/**
  nanopb: message descriptors, the values a message structure holds, and the bytes they stand for.

  A slot lists the values a field holds: one for a required field or a field without presence, none or
  one for an optional field or a member of a oneof, any number for an array.  What memory holds behind an
  absent field is thereby not represented.
 */
module PbMessage {
  import opened Wrappers
  import opened ByteCoding
  import opened PbWire

  /** Widths are in bytes, as data_size is. */
  datatype Type =
    | Bool
    | VarInt(width: nat)
    | UVarInt(width: nat)
    | SVarInt(width: nat)
    | Fixed32
    | Fixed64
    | ByteArray(max: nat)
    | Text(max: nat)             // max counts the terminator
    | FixedLength(size: nat)
    | Submessage(fields: seq<Field>)

  datatype Rule =
    | Required
    | Optional
    | Singular                   // no presence: written unless it has its default value
    | Repeated(max: nat)
    | FixedCount(count: nat)
    | OneOf(union: nat)

  datatype Field = Field(tag: nat, rule: Rule, ty: Type)

  datatype Value = Int(i: int) | Raw(b: Bytes) | Struct(slots: seq<Slot>)

  datatype Slot = Slot(vs: seq<Value>)

  /* ---- Well-typed values ---- */

  function Limit(width: nat): int {
    match width
    case 1 => 0x100
    case 2 => 0x1_0000
    case 4 => TWO_32
    case _ => TWO_64
  }

  predicate WidthOk(width: nat) {
    width in {1, 2, 4, 8}
  }

  ghost predicate Typed(ty: Type, v: Value)
    decreases v, 0
  {
    match ty
    case Bool => v.Int? && 0 <= v.i < 2
    case VarInt(w) => WidthOk(w) && v.Int? && -(Limit(w) / 2) <= v.i < Limit(w) / 2
    case UVarInt(w) => WidthOk(w) && v.Int? && 0 <= v.i < Limit(w)
    case SVarInt(w) => WidthOk(w) && v.Int? && -(Limit(w) / 2) <= v.i < Limit(w) / 2
    case Fixed32 => v.Int? && 0 <= v.i < TWO_32
    case Fixed64 => v.Int? && 0 <= v.i < TWO_64
    case ByteArray(max) => v.Raw?
    case Text(max) => v.Raw? && |v.b| <= max && 0 !in v.b
    case FixedLength(n) => v.Raw? && |v.b| == n
    case Submessage(fields) => v.Struct? && TypedMessage(fields, v.slots)
  }

  ghost predicate TypedMessage(fields: seq<Field>, slots: seq<Slot>)
    decreases slots, 1
  {
    |slots| == |fields| && forall i :: 0 <= i < |fields| ==> TypedSlot(fields[i], slots[i])
  }

  ghost predicate TypedSlot(f: Field, s: Slot)
    decreases s
  {
    var vs := s.vs;
    && (forall j :: 0 <= j < |vs| ==> Typed(f.ty, vs[j]))
    && match f.rule
       case Required => |vs| == 1
       case Optional => |vs| <= 1
       case Singular => |vs| == 1
       case Repeated(max) => true
       case FixedCount(n) => |vs| == n
       case OneOf(_) => |vs| <= 1
  }

  /** pb_check_proto3_default_value. */
  predicate IsDefault(ty: Type, v: Value)
    decreases v, 0
  {
    match v
    case Int(i) => i == 0
    case Raw(b) => if ty.FixedLength? then ty.size == 0 else b == []
    case Struct(slots) =>
      ty.Submessage? && |slots| == |ty.fields| && forall i :: 0 <= i < |slots| ==> IsDefaultSlot(ty.fields[i], slots[i])
  }

  predicate IsDefaultSlot(f: Field, s: Slot)
    decreases s
  {
    match f.rule
    case Required => false
    case Singular => forall j :: 0 <= j < |s.vs| ==> IsDefault(f.ty, s.vs[j])
    case FixedCount(_) => false
    case _ => s.vs == []
  }

  /* ---- The encoding ---- */

  function WireType(ty: Type): nat {
    match ty
    case Bool => 0
    case VarInt(_) => 0
    case UVarInt(_) => 0
    case SVarInt(_) => 0
    case Fixed64 => 1
    case Fixed32 => 5
    case _ => 2
  }

  predicate Packable(ty: Type) {
    WireType(ty) != 2
  }

  function TagBytes(tag: nat, wireType: nat): Bytes {
    Varint(8 * tag + wireType)
  }

  function EncodeValue(ty: Type, v: Value): Bytes
    decreases v, 0
  {
    match v
    case Int(i) =>
      (match ty
       case Fixed32 => Fixed(if i < 0 then 0 else i, 4)
       case Fixed64 => Fixed(if i < 0 then 0 else i, 8)
       case SVarInt(_) => Varint(ZigZag(i))
       case _ => Varint(if -TWO_63 <= i < TWO_63 then ToUnsigned(i) else if i < 0 then 0 else i))
    case Raw(b) => Varint(|b|) + b
    case Struct(slots) =>
      if !ty.Submessage? || |ty.fields| != |slots| then []
      else
        var m := EncodeFrom(ty.fields, slots, 0);
        Varint(|m|) + m
  }

  function EncodeAll(ty: Type, vs: seq<Value>, j: nat): Bytes
    requires j <= |vs|
    decreases vs, 1, |vs| - j
  {
    if j == |vs| then [] else EncodeValue(ty, vs[j]) + EncodeAll(ty, vs, j + 1)
  }

  /** Each value under a tag of its own. */
  function EncodeTagged(f: Field, vs: seq<Value>, j: nat): Bytes
    requires j <= |vs|
    decreases vs, 1, |vs| - j
  {
    if j == |vs| then [] else TagBytes(f.tag, WireType(f.ty)) + EncodeValue(f.ty, vs[j]) + EncodeTagged(f, vs, j + 1)
  }

  function EncodeSlot(f: Field, s: Slot): Bytes
    decreases s
  {
    var vs := s.vs;
    if f.rule.Repeated? || f.rule.FixedCount? then
      if vs == [] then []
      else if Packable(f.ty) then
        var body := EncodeAll(f.ty, vs, 0);
        TagBytes(f.tag, 2) + Varint(|body|) + body
      else EncodeTagged(f, vs, 0)
    else if f.rule.Singular? && vs != [] && IsDefault(f.ty, vs[0]) then []
    else EncodeTagged(f, vs, 0)
  }

  /** The fields from `i` on, in the order of the descriptor. */
  function EncodeFrom(fields: seq<Field>, slots: seq<Slot>, i: nat): Bytes
    requires |fields| == |slots| && i <= |slots|
    decreases slots, 3, |slots| - i
  {
    if i == |slots| then [] else EncodeSlot(fields[i], slots[i]) + EncodeFrom(fields, slots, i + 1)
  }

  /** What the encoder refuses: arrays and byte strings larger than their storage. */
  ghost predicate Encodable(ty: Type, v: Value)
    decreases v, 0
  {
    match v
    case Int(_) => true
    case Raw(b) => ty.ByteArray? ==> |b| <= ty.max
    case Struct(slots) => ty.Submessage? && |slots| == |ty.fields| && EncodableFrom(ty.fields, slots, 0)
  }

  ghost predicate EncodableSlot(f: Field, s: Slot)
    decreases s
  {
    var vs := s.vs;
    && (f.rule.Repeated? ==> |vs| <= f.rule.max)
    && ((f.rule.Singular? && vs != [] && IsDefault(f.ty, vs[0])) ||
        forall j :: 0 <= j < |vs| ==> Encodable(f.ty, vs[j]))
  }

  ghost predicate EncodableFrom(fields: seq<Field>, slots: seq<Slot>, i: nat)
    requires |fields| == |slots|
    decreases slots, 2
  {
    forall k :: i <= k < |slots| ==> EncodableSlot(fields[k], slots[k])
  }
}
