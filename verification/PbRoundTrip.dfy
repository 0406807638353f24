/**
  nanopb: decoding what was encoded gives the message back and leaves nothing over.
 */
module PbRoundTrip {
  import opened Wrappers
  import opened ByteCoding
  import opened PbWire
  import opened PbMessage
  import opened PbDecode
  import PbRecords

  /* ---- What comes back ---- */

  /** Values that fit their storage, with lengths that fit a 32-bit prefix. */
  ghost predicate Storable(ty: Type, v: Value)
    decreases v, 0
  {
    && Typed(ty, v)
    && match v
       case Int(_) => true
       case Raw(b) =>
         |b| < TWO_32 && (ty.ByteArray? ==> |b| <= ty.max && |b| <= SIZE_MAX) && (ty.Text? ==> |b| < ty.max)
       case Struct(slots) => StorableMessage(ty.fields, slots) && |EncodeFrom(ty.fields, slots, 0)| < TWO_32
  }

  ghost predicate StorableMessage(fields: seq<Field>, slots: seq<Slot>)
    decreases slots, 1
  {
    && |slots| == |fields| && (forall i :: 0 <= i < |fields| ==> StorableSlot(fields[i], slots[i]))
    && (forall i, j :: 0 <= i < j < |fields| && fields[i].rule.OneOf? && fields[i].rule == fields[j].rule ==>
         slots[i].vs == [] || slots[j].vs == [])
  }

  ghost predicate StorableSlot(f: Field, s: Slot)
    decreases s
  {
    && TypedSlot(f, s) && (forall j :: 0 <= j < |s.vs| ==> Storable(f.ty, s.vs[j]))
    && (f.rule.Repeated? ==> |s.vs| <= f.rule.max)
    && (Packable(f.ty) ==> |EncodeAll(f.ty, s.vs, 0)| < TWO_32)
  }

  /* ---- Scalars and strings ---- */

  lemma DelimitedRoundTrip(b: Bytes, rest: Bytes)
    requires |b| < TWO_32
    ensures Delimited(Varint(|b|) + b + rest) == Done(b, rest)
  {
    var s := Varint(|b|) + b + rest;
    assert s == Varint(|b|) + (b + rest);
    Varint32RoundTrip(|b|, b + rest);
    var u := |Varint(|b|)|;
    assert s[u..] == b + rest;
    assert s[u..u + |b|] == b && s[u + |b|..] == rest;
  }

  lemma Number64(n: nat, rest: Bytes)
    requires n < TWO_64
    ensures ReadVarint64(Varint(n) + rest) == Some(Read(n, |Varint(n)|))
    ensures (Varint(n) + rest)[|Varint(n)|..] == rest
  {
    VarintRoundTrip(n, rest);
  }

  lemma FixedParts(n: nat, k: nat, rest: Bytes)
    requires n < Power256(k)
    ensures (Fixed(n, k) + rest)[k..] == rest && ReadFixed((Fixed(n, k) + rest)[..k]) == n
  {
    FixedRoundTrip(n, k);
    assert (Fixed(n, k) + rest)[..k] == Fixed(n, k);
  }

  lemma SignedRoundTrip(ty: Type, v: Value, cur: Value, rest: Bytes)
    requires Typed(ty, v) && ty.VarInt?
    ensures DecodeValue(ty, cur, EncodeValue(ty, v) + rest) == Done(v, rest)
  {
    hide Varint, ReadVarint64, DecodeMessage, Delimited, ReadVarint32, EncodeFrom, IsSuffix;
    Number64(ToUnsigned(v.i), rest);
  }

  lemma UnsignedRoundTrip(ty: Type, v: Value, cur: Value, rest: Bytes)
    requires Typed(ty, v) && ty.UVarInt?
    ensures DecodeValue(ty, cur, EncodeValue(ty, v) + rest) == Done(v, rest)
  {
    hide Varint, ReadVarint64, DecodeMessage, Delimited, ReadVarint32, EncodeFrom, IsSuffix;
    Number64(v.i, rest);
  }

  lemma ZigZagTypeRoundTrip(ty: Type, v: Value, cur: Value, rest: Bytes)
    requires Typed(ty, v) && ty.SVarInt?
    ensures DecodeValue(ty, cur, EncodeValue(ty, v) + rest) == Done(v, rest)
  {
    hide Varint, ReadVarint64, DecodeMessage, Delimited, ReadVarint32, EncodeFrom, IsSuffix;
    ZigZagRoundTrip(v.i);
    Number64(ZigZag(v.i), rest);
  }

  lemma OtherNumbers(ty: Type, v: Value, cur: Value, rest: Bytes)
    requires Typed(ty, v) && (ty.Bool? || ty.Fixed32? || ty.Fixed64?)
    ensures DecodeValue(ty, cur, EncodeValue(ty, v) + rest) == Done(v, rest)
  {
    Powers256();
    hide Varint, ReadVarint64, DecodeMessage, Delimited, ReadVarint32, EncodeFrom, Fixed, ReadFixed, Power256;
    match ty {
      case Bool =>
        Varint32RoundTrip(v.i, rest);
      case Fixed32 =>
        FixedParts(v.i, 4, rest);
      case Fixed64 =>
        FixedParts(v.i, 8, rest);
    }
  }

  lemma RawRoundTrip(ty: Type, v: Value, cur: Value, rest: Bytes)
    requires WellFormed(ty) && Storable(ty, v) && v.Raw?
    ensures DecodeValue(ty, cur, EncodeValue(ty, v) + rest) == Done(v, rest)
  {
    hide Varint, ReadVarint64, DecodeMessage, Delimited, ReadVarint32, EncodeFrom;
    assert ty.FixedLength? && ty.size == 0 ==> DefaultValue(ty) == Raw([]);
    DelimitedRoundTrip(v.b, rest);
  }

  /* ---- One record ---- */

  /** The loop reads a tag and hands the record over. */
  lemma LoopStep(fields: seq<Field>, i: nat, wireType: nat, body: Bytes, rest: Bytes, st: State, t: State)
    requires i < |fields| == |st.slots| && wireType < 8 && 1 <= fields[i].tag < 0x2000_0000 && |t.slots| == |fields|
    requires DecodeRecord(fields, fields[i].tag, wireType, body + rest, st) == Done(t, rest)
    ensures DecodeLoop(fields, TagBytes(fields[i].tag, wireType) + body + rest, st) == DecodeLoop(fields, rest, t)
  {
    hide DecodeRecord, Varint, ReadVarint32, TagBytes, IsSuffix;
    PbRecords.TagRoundTrip(fields[i].tag, wireType, body + rest);
    assert TagBytes(fields[i].tag, wireType) + body + rest == TagBytes(fields[i].tag, wireType) + (body + rest);
  }

  /* ---- How far decoding has come ---- */

  /** The slot of a field of which `j` values have been decoded. */
  ghost function Partial(f: Field, vs: seq<Value>, j: nat): Slot
    requires j <= |vs|
  {
    match f.rule
    case Repeated(_) => Slot(vs[..j])
    case FixedCount(_) => Slot(vs[..j] + seq(|vs| - j, k => DefaultValue(f.ty)))
    case _ => if j == 0 then DefaultSlot(f) else Slot([vs[j - 1]])
  }

  ghost predicate SeenBefore(fields: seq<Field>, i: nat, seen: set<nat>)
    requires i <= |fields|
  {
    forall r :: 0 <= r < RequiredBefore(fields, i) && r < MAX_REQUIRED_FIELDS ==> r in seen
  }

  ghost predicate FixedBefore(fields: seq<Field>, i: nat, st: State) {
    FixedComplete(fields, st) && (st.fixed.Some? ==> st.fixed.value < i)
  }

  /** All fields before `i` are decoded, all from `i` on have their initial values. */
  ghost predicate Progress(fields: seq<Field>, slots: seq<Slot>, i: nat, st: State) {
    && |fields| == |slots| == |st.slots| && i <= |fields|
    && (forall k :: 0 <= k < i ==> st.slots[k] == slots[k])
    && (forall k :: i <= k < |fields| ==> st.slots[k] == DefaultSlot(fields[k]))
    && SeenBefore(fields, i, st.seen) && FixedBefore(fields, i, st)
  }

  /** In addition, `j` values of field `i` are decoded. */
  ghost predicate Within(fields: seq<Field>, slots: seq<Slot>, i: nat, j: nat, st: State) {
    && |fields| == |slots| == |st.slots| && i < |fields| && j <= |slots[i].vs|
    && (forall k :: 0 <= k < i ==> st.slots[k] == slots[k])
    && (forall k :: i < k < |fields| ==> st.slots[k] == DefaultSlot(fields[k]))
    && st.slots[i] == Partial(fields[i], slots[i].vs, j)
    && SeenBefore(fields, i, st.seen)
    && (j > 0 && fields[i].rule.Required? && RequiredBefore(fields, i) < MAX_REQUIRED_FIELDS ==>
         RequiredBefore(fields, i) in st.seen)
    && (if j > 0 && fields[i].rule.FixedCount? then st.fixed == Some(i) && st.count == j else FixedBefore(fields, i, st))
  }

  lemma BeginField(fields: seq<Field>, slots: seq<Slot>, i: nat, st: State)
    requires Progress(fields, slots, i, st) && i < |fields| && StorableMessage(fields, slots)
    ensures Within(fields, slots, i, 0, st)
  {
    assert StorableSlot(fields[i], slots[i]);
    var f, vs := fields[i], slots[i].vs;
    if f.rule.FixedCount? {
      assert vs[..0] + seq(|vs|, k => DefaultValue(f.ty)) == DefaultSlot(f).vs;
    }
  }

  lemma EndField(fields: seq<Field>, slots: seq<Slot>, i: nat, st: State)
    requires StorableMessage(fields, slots) && i < |fields| && Within(fields, slots, i, |slots[i].vs|, st)
    ensures Progress(fields, slots, i + 1, st)
  {
    hide StorableSlot, SeenBefore, Partial, DefaultSlot, RequiredBefore;
    assert StorableSlot(fields[i], slots[i]);
    AllDecoded(fields[i], slots[i]);
    FilledSlot(fields[i], slots[i]);
    SeenNext(fields, i, st.seen);
  }

  lemma FilledSlot(f: Field, s: Slot)
    requires StorableSlot(f, s)
    ensures f.rule.Required? ==> |s.vs| > 0
    ensures f.rule.FixedCount? ==> |s.vs| == f.rule.count
  {
    hide Typed, Storable, EncodeAll;
  }

  lemma SeenNext(fields: seq<Field>, i: nat, seen: set<nat>)
    requires i < |fields| && SeenBefore(fields, i, seen)
    requires fields[i].rule.Required? && RequiredBefore(fields, i) < MAX_REQUIRED_FIELDS ==> RequiredBefore(fields, i) in seen
    ensures SeenBefore(fields, i + 1, seen)
  {
    assert RequiredBefore(fields, i + 1) == RequiredBefore(fields, i) + if fields[i].rule.Required? then 1 else 0;
  }

  lemma AllDecoded(f: Field, s: Slot)
    requires StorableSlot(f, s)
    ensures Partial(f, s.vs, |s.vs|) == s
  {
    hide Typed, Storable, EncodeAll;
    assert s.vs[..|s.vs|] == s.vs;
    if f.rule.FixedCount? {
      assert s.vs[..|s.vs|] + seq(0, k => DefaultValue(f.ty)) == s.vs;
    }
  }

  /** The state after a record of field `i`. */
  ghost function Next(fields: seq<Field>, st: State, i: nat, slot: Slot, count: nat): State
    requires |fields| == |st.slots| && i < |fields|
  {
    var f := fields[i];
    State(st.slots[i := slot],
          if f.rule.Required? && RequiredBefore(fields, i) < MAX_REQUIRED_FIELDS then st.seen + {RequiredBefore(fields, i)} else st.seen,
          if f.rule.FixedCount? then Some(i) else st.fixed, count)
  }

  /** The count a record of field `i` starts from. */
  ghost function CountAt(fields: seq<Field>, st: State, i: nat): nat
    requires i < |fields|
  {
    if fields[i].rule.FixedCount? && st.fixed != Some(i) then 0 else st.count
  }

  lemma UnionUntouched(fields: seq<Field>, slots: seq<Slot>, i: nat, j: nat, st: State)
    requires StorableMessage(fields, slots) && Within(fields, slots, i, j, st) && slots[i].vs != []
    ensures ClearUnion(fields, st.slots, i) == st.slots
  {
    var r := ClearUnion(fields, st.slots, i);
    forall k | 0 <= k < |r| ensures r[k] == st.slots[k] {
      if k != i && fields[i].rule.OneOf? && fields[k].rule == fields[i].rule {
        if k < i {
          assert slots[k].vs == [];
        }
      }
    }
  }

  lemma RecordStep(fields: seq<Field>, slots: seq<Slot>, i: nat, j: nat, wireType: nat, s: Bytes, st: State,
                   slot: Slot, count: nat, rest: Bytes)
    requires WellFormedFields(fields) && StorableMessage(fields, slots) && Within(fields, slots, i, j, st)
    requires slots[i].vs != []
    requires DecodeSlot(fields[i], wireType, st.slots[i], CountAt(fields, st, i), s) == Done((slot, count), rest)
    ensures DecodeRecord(fields, fields[i].tag, wireType, s, st) == Done(Next(fields, st, i, slot, count), rest)
  {
    hide DecodeSlot, StorableMessage, Partial, ClearUnion, IsSuffix;
    UnionUntouched(fields, slots, i, j, st);
    IndexOfTag(fields, i);
  }

  lemma NextWithin(fields: seq<Field>, slots: seq<Slot>, i: nat, j: nat, j': nat, st: State)
    requires StorableMessage(fields, slots) && Within(fields, slots, i, j, st) && j < j' <= |slots[i].vs|
    ensures var f := fields[i];
            Within(fields, slots, i, j', Next(fields, st, i, Partial(f, slots[i].vs, j'), if f.rule.FixedCount? then j' else st.count))
  {
    hide Typed, StorableSlot, Partial;
  }

  /** One value under a tag of its own. */
  lemma TaggedSlot(f: Field, vs: seq<Value>, j: nat, count: nat, s: Bytes, rest: Bytes)
    requires StorableSlot(f, Slot(vs)) && j < |vs|
    requires Packable(f.ty) ==> !f.rule.Repeated? && !f.rule.FixedCount?
    requires f.rule.FixedCount? ==> count == j
    requires DecodeValue(f.ty, DefaultValue(f.ty), s) == Done(vs[j], rest)
    ensures DecodeSlot(f, WireType(f.ty), Partial(f, vs, j), count, s) ==
            Done((Partial(f, vs, j + 1), if f.rule.FixedCount? then j + 1 else count), rest)
  {
    hide DecodeValue, EncodeAll, IsSuffix, WireType, DefaultValue;
    if f.rule.Repeated? {
      assert vs[..j + 1] == vs[..j] + [vs[j]];
    } else if f.rule.FixedCount? {
      FixedItems(f, vs, j);
    }
  }

  lemma FixedItems(f: Field, vs: seq<Value>, j: nat)
    requires f.rule.FixedCount? && j < |vs|
    ensures var p := Partial(f, vs, j).vs;
            |p| == |vs| && p[j] == DefaultValue(f.ty) && p[j := vs[j]] == Partial(f, vs, j + 1).vs
  {
  }

  /* ---- Packed arrays ---- */

  lemma {:induction false} PackedItems(ty: Type, vs: seq<Value>, j: nat, max: nat)
    requires Packable(ty) && j <= |vs| <= max && forall k :: 0 <= k < |vs| ==> Typed(ty, vs[k])
    ensures DecodePacked(ty, vs[..j], max, EncodeAll(ty, vs, j)) == Done(vs, [])
    decreases |vs| - j
  {
    if j == |vs| {
      assert vs[..j] == vs;
    } else {
      NumberRoundTrip(ty, vs[j], DefaultValue(ty), EncodeAll(ty, vs, j + 1));
      assert vs[..j + 1] == vs[..j] + [vs[j]];
      PackedItems(ty, vs, j + 1, max);
      hide DecodeValue, EncodeValue, DefaultValue, IsSuffix;
    }
  }

  lemma {:induction false} PackedFixedItems(f: Field, vs: seq<Value>, j: nat)
    requires Packable(f.ty) && f.rule.FixedCount? && j <= |vs| && forall k :: 0 <= k < |vs| ==> Typed(f.ty, vs[k])
    ensures DecodePackedFixed(f.ty, Partial(f, vs, j).vs, j, EncodeAll(f.ty, vs, j)) == Done((vs, |vs|), [])
    decreases |vs| - j
  {
    if j == |vs| {
      assert vs[..j] + seq(0, k => DefaultValue(f.ty)) == vs;
    } else {
      NumberRoundTrip(f.ty, vs[j], DefaultValue(f.ty), EncodeAll(f.ty, vs, j + 1));
      FixedItems(f, vs, j);
      PackedFixedItems(f, vs, j + 1);
      hide DecodeValue, EncodeValue, DefaultValue, IsSuffix;
    }
  }

  lemma NumberRoundTrip(ty: Type, v: Value, cur: Value, rest: Bytes)
    requires Packable(ty) && Typed(ty, v)
    ensures DecodeValue(ty, cur, EncodeValue(ty, v) + rest) == Done(v, rest) && EncodeValue(ty, v) != []
  {
    hide DecodeValue, EncodeValue;
    match ty {
      case VarInt(_) => SignedRoundTrip(ty, v, cur, rest);
      case UVarInt(_) => UnsignedRoundTrip(ty, v, cur, rest);
      case SVarInt(_) => ZigZagTypeRoundTrip(ty, v, cur, rest);
      case _ => OtherNumbers(ty, v, cur, rest);
    }
    assert DecodeValue(ty, cur, EncodeValue(ty, v) + rest).Done?;
  }

  lemma PackedSlot(f: Field, vs: seq<Value>, count: nat, rest: Bytes)
    requires Packable(f.ty) && StorableSlot(f, Slot(vs)) && vs != [] && (f.rule.Repeated? || f.rule.FixedCount?)
    requires f.rule.FixedCount? ==> count == 0
    ensures var body := EncodeAll(f.ty, vs, 0);
            DecodeSlot(f, 2, Partial(f, vs, 0), count, Varint(|body|) + body + rest) ==
            Done((Partial(f, vs, |vs|), if f.rule.FixedCount? then |vs| else count), rest)
  {
    hide DecodeValue, EncodeValue, DefaultValue, IsSuffix, Varint, Delimited, EncodeAll;
    DelimitedRoundTrip(EncodeAll(f.ty, vs, 0), rest);
    assert vs[..|vs|] == vs;
    if f.rule.Repeated? {
      assert vs[..0] == [];
      PackedItems(f.ty, vs, 0, f.rule.max);
    } else {
      PackedFixedItems(f, vs, 0);
      assert vs[..|vs|] + seq(0, k => DefaultValue(f.ty)) == vs;
    }
  }

  /* ---- Default values that are not written ---- */

  lemma {:induction false} DefaultIsDefault(ty: Type, v: Value)
    requires Typed(ty, v) && IsDefault(ty, v)
    ensures v == DefaultValue(ty)
    decreases v, 0
  {
    if v.Struct? {
      forall i | 0 <= i < |v.slots| ensures v.slots[i] == DefaultSlot(ty.fields[i]) {
        DefaultSlotIsDefault(ty.fields[i], v.slots[i]);
      }
      assert v.slots == DefaultsFrom(ty.fields, 0);
    }
  }

  lemma {:induction false} DefaultSlotIsDefault(f: Field, s: Slot)
    requires TypedSlot(f, s) && IsDefaultSlot(f, s)
    ensures s == DefaultSlot(f)
    decreases s
  {
    if f.rule.Singular? {
      DefaultIsDefault(f.ty, s.vs[0]);
      assert s.vs == [s.vs[0]];
    }
  }

  /* ---- The round trip ---- */

  lemma {:induction false} ValueRoundTrip(ty: Type, v: Value, rest: Bytes)
    requires WellFormed(ty) && Storable(ty, v)
    ensures DecodeValue(ty, DefaultValue(ty), EncodeValue(ty, v) + rest) == Done(v, rest)
    decreases v, 0
  {
    match v {
      case Int(_) =>
        PackableInts(ty, v);
        NumberRoundTrip(ty, v, DefaultValue(ty), rest);
      case Raw(_) =>
        RawRoundTrip(ty, v, DefaultValue(ty), rest);
      case Struct(slots) =>
        DelimitedRoundTrip(EncodeFrom(ty.fields, slots, 0), rest);
        MessageRoundTrip(ty.fields, slots);
        StructRoundTrip(ty, slots, rest);
    }
  }

  lemma PackableInts(ty: Type, v: Value)
    requires Typed(ty, v) && v.Int?
    ensures Packable(ty)
  {
  }

  lemma StructRoundTrip(ty: Type, slots: seq<Slot>, rest: Bytes)
    requires ty.Submessage? && |ty.fields| == |slots|
    requires var m := EncodeFrom(ty.fields, slots, 0);
             && Delimited(Varint(|m|) + m + rest) == Done(m, rest)
             && DecodeMessage(ty.fields, m, DefaultsFrom(ty.fields, 0)) == Done(slots, [])
    ensures DecodeValue(ty, DefaultValue(ty), EncodeValue(ty, Struct(slots)) + rest) == Done(Struct(slots), rest)
  {
    hide Delimited, DecodeMessage, EncodeFrom, Varint, IsSuffix;
  }

  /** The values of a field from `j` on, each under a tag of its own. */
  lemma {:induction false} TaggedRoundTrip(fields: seq<Field>, slots: seq<Slot>, i: nat, j: nat, st: State, rest: Bytes)
    returns (t: State)
    requires WellFormedFields(fields) && StorableMessage(fields, slots) && Within(fields, slots, i, j, st)
    requires Packable(fields[i].ty) ==> !fields[i].rule.Repeated? && !fields[i].rule.FixedCount?
    ensures Within(fields, slots, i, |slots[i].vs|, t)
    ensures DecodeLoop(fields, EncodeTagged(fields[i], slots[i].vs, j) + rest, st) == DecodeLoop(fields, rest, t)
    decreases slots, 1, |slots[i].vs| - j
  {
    hide DecodeValue, EncodeValue, DefaultValue, IsSuffix, Varint, TagBytes, WireType, Storable, Typed, StorableMessage, WellFormed,
      DecodeSlot, DecodeRecord, DecodeLoop, Next, Partial;
    var f, vs := fields[i], slots[i].vs;
    if j == |vs| {
      t := st;
      assert EncodeTagged(f, vs, j) + rest == rest;
    } else {
      var more := EncodeTagged(f, vs, j + 1) + rest;
      StorableParts(fields, slots, i, j);
      ValueRoundTrip(f.ty, vs[j], more);
      OneTagged(fields, slots, i, j, st, more);
      var u := Next(fields, st, i, Partial(f, vs, j + 1), if f.rule.FixedCount? then j + 1 else st.count);
      NextWithin(fields, slots, i, j, j + 1, st);
      t := TaggedRoundTrip(fields, slots, i, j + 1, u, rest);
      assert EncodeTagged(f, vs, j) + rest == TagBytes(f.tag, WireType(f.ty)) + EncodeValue(f.ty, vs[j]) + more;
    }
  }

  lemma StorableParts(fields: seq<Field>, slots: seq<Slot>, i: nat, j: nat)
    requires WellFormedFields(fields) && StorableMessage(fields, slots) && i < |fields| && j < |slots[i].vs|
    ensures WellFormed(fields[i].ty) && Storable(fields[i].ty, slots[i].vs[j]) && 1 <= fields[i].tag < 0x2000_0000
    ensures StorableSlot(fields[i], slots[i])
  {
    assert WellFormedField(fields[i]) && StorableSlot(fields[i], slots[i]);
  }

  lemma OneTagged(fields: seq<Field>, slots: seq<Slot>, i: nat, j: nat, st: State, rest: Bytes)
    requires WellFormedFields(fields) && StorableMessage(fields, slots) && Within(fields, slots, i, j, st) && j < |slots[i].vs|
    requires Packable(fields[i].ty) ==> !fields[i].rule.Repeated? && !fields[i].rule.FixedCount?
    requires var f, v := fields[i], slots[i].vs[j];
             DecodeValue(f.ty, DefaultValue(f.ty), EncodeValue(f.ty, v) + rest) == Done(v, rest)
    ensures var f, vs := fields[i], slots[i].vs;
            DecodeLoop(fields, TagBytes(f.tag, WireType(f.ty)) + EncodeValue(f.ty, vs[j]) + rest, st) ==
            DecodeLoop(fields, rest, Next(fields, st, i, Partial(f, vs, j + 1), if f.rule.FixedCount? then j + 1 else st.count))
  {
    hide DecodeValue, EncodeValue, DefaultValue, IsSuffix, Varint, TagBytes, Storable, Typed, StorableMessage, WellFormed,
      WellFormedFields, DecodeSlot, DecodeRecord, DecodeLoop, Partial;
    var f, vs := fields[i], slots[i].vs;
    StorableParts(fields, slots, i, j);
    var s := EncodeValue(f.ty, vs[j]) + rest;
    var count := CountAt(fields, st, i);
    assert slots[i] == Slot(vs);
    TaggedSlot(f, vs, j, count, s, rest);
    var slot := Partial(f, vs, j + 1);
    RecordStep(fields, slots, i, j, WireType(f.ty), s, st, slot, if f.rule.FixedCount? then j + 1 else count, rest);
    LoopStep(fields, i, WireType(f.ty), EncodeValue(f.ty, vs[j]), rest, st,
             Next(fields, st, i, slot, if f.rule.FixedCount? then j + 1 else st.count));
  }

  lemma PackedRoundTrip(fields: seq<Field>, slots: seq<Slot>, i: nat, st: State, rest: Bytes) returns (t: State)
    requires WellFormedFields(fields) && StorableMessage(fields, slots) && Within(fields, slots, i, 0, st)
    requires Packable(fields[i].ty) && (fields[i].rule.Repeated? || fields[i].rule.FixedCount?) && slots[i].vs != []
    ensures Within(fields, slots, i, |slots[i].vs|, t)
    ensures DecodeLoop(fields, EncodeSlot(fields[i], slots[i]) + rest, st) == DecodeLoop(fields, rest, t)
  {
    hide DecodeValue, EncodeValue, DefaultValue, IsSuffix, Varint, TagBytes, Storable, Typed, StorableMessage, WellFormed,
      WellFormedFields, DecodeSlot, DecodeRecord, DecodeLoop, Partial, EncodeAll;
    var f, vs := fields[i], slots[i].vs;
    StorableParts(fields, slots, i, 0);
    var body := EncodeAll(f.ty, vs, 0);
    var count := CountAt(fields, st, i);
    assert slots[i] == Slot(vs);
    FreshCount(fields, slots, i, st);
    PackedSlot(f, vs, count, rest);
    var n := if f.rule.FixedCount? then |vs| else count;
    var b := Varint(|body|) + body;
    RecordStep(fields, slots, i, 0, 2, b + rest, st, Partial(f, vs, |vs|), n, rest);
    t := Next(fields, st, i, Partial(f, vs, |vs|), n);
    LoopStep(fields, i, 2, b, rest, st, t);
    NextWithin(fields, slots, i, 0, |vs|, st);
    assert EncodeSlot(f, slots[i]) == TagBytes(f.tag, 2) + Varint(|body|) + body;
    assert EncodeSlot(f, slots[i]) + rest == TagBytes(f.tag, 2) + b + rest;
  }

  lemma FreshCount(fields: seq<Field>, slots: seq<Slot>, i: nat, st: State)
    requires Within(fields, slots, i, 0, st)
    ensures fields[i].rule.FixedCount? ==> CountAt(fields, st, i) == 0
  {
  }

  lemma {:induction false} FieldRoundTrip(fields: seq<Field>, slots: seq<Slot>, i: nat, st: State, rest: Bytes) returns (t: State)
    requires |fields| == |slots|
    requires WellFormedFields(fields) && StorableMessage(fields, slots) && Progress(fields, slots, i, st) && i < |fields|
    ensures Progress(fields, slots, i + 1, t)
    ensures DecodeLoop(fields, EncodeSlot(fields[i], slots[i]) + rest, st) == DecodeLoop(fields, rest, t)
    decreases slots, 2
  {
    hide DecodeValue, EncodeValue, DefaultValue, IsSuffix, Varint, TagBytes, Storable, Typed, WellFormed, WellFormedFields,
      DecodeSlot, DecodeRecord, DecodeLoop, EncodeAll, EncodeTagged, Progress, Within, StorableMessage, IsDefault, WireType;
    var f, s := fields[i], slots[i];
    BeginField(fields, slots, i, st);
    if (f.rule.Repeated? || f.rule.FixedCount?) && s.vs != [] && Packable(f.ty) {
      t := PackedRoundTrip(fields, slots, i, st, rest);
    } else if (f.rule.Repeated? || f.rule.FixedCount?) && s.vs == [] {
      t := st;
      assert EncodeSlot(f, s) + rest == rest;
    } else if f.rule.Singular? && s.vs != [] && IsDefault(f.ty, s.vs[0]) {
      t := st;
      assert EncodeSlot(f, s) + rest == rest;
      SkippedDefault(fields, slots, i, st);
      return;
    } else {
      t := TaggedRoundTrip(fields, slots, i, 0, st, rest);
    }
    EndField(fields, slots, i, t);
  }

  lemma SkippedDefault(fields: seq<Field>, slots: seq<Slot>, i: nat, st: State)
    requires StorableMessage(fields, slots) && Progress(fields, slots, i, st) && i < |fields|
    requires fields[i].rule.Singular? && slots[i].vs != [] && IsDefault(fields[i].ty, slots[i].vs[0])
    ensures Progress(fields, slots, i + 1, st)
  {
    assert StorableSlot(fields[i], slots[i]);
    DefaultSlotIsDefault(fields[i], slots[i]);
  }

  lemma {:induction false} FieldsRoundTrip(fields: seq<Field>, slots: seq<Slot>, i: nat, st: State) returns (t: State)
    requires |fields| == |slots| && i <= |fields|
    requires WellFormedFields(fields) && StorableMessage(fields, slots) && Progress(fields, slots, i, st)
    ensures Progress(fields, slots, |fields|, t)
    ensures DecodeLoop(fields, EncodeFrom(fields, slots, i), st) == Done(t, [])
    decreases slots, 3, |fields| - i
  {
    hide StorableMessage, WellFormedFields, Progress, EncodeSlot, DecodeRecord, IsSuffix;
    if i == |fields| {
      t := st;
    } else {
      var u := FieldRoundTrip(fields, slots, i, st, EncodeFrom(fields, slots, i + 1));
      t := FieldsRoundTrip(fields, slots, i + 1, u);
    }
  }

  /** Decoding the encoding of a message gives the message and uses every byte. */
  lemma {:induction false} MessageRoundTrip(fields: seq<Field>, slots: seq<Slot>)
    requires WellFormedFields(fields) && StorableMessage(fields, slots)
    ensures Decode(fields, EncodeFrom(fields, slots, 0)) == Done(slots, [])
    decreases slots, 4
  {
    var st := State(DefaultsFrom(fields, 0), {}, None, 0);
    assert Progress(fields, slots, 0, st);
    var t := FieldsRoundTrip(fields, slots, 0, st);
    assert t.slots == slots;
  }
}
