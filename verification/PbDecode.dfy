/**
  nanopb's decoder on arbitrary input: what pb_decode makes of any bytes, for any descriptor.
 */
module PbDecode {
  import opened Wrappers
  import opened ByteCoding
  import opened PbWire
  import opened PbMessage

  const MAX_REQUIRED_FIELDS: nat := 64
  const SIZE_MAX: nat := 0xffff

  datatype Result<T> = Done(value: T, rest: Bytes) | Fail

  predicate IsSuffix(rest: Bytes, s: Bytes) {
    |rest| <= |s| && rest == s[|s| - |rest|..]
  }

  lemma SuffixOf(s: Bytes, n: nat, rest: Bytes)
    requires n <= |s| && IsSuffix(rest, s[n..])
    ensures IsSuffix(rest, s)
  {
  }

  /* ---- Descriptors ---- */

  ghost predicate WellFormed(ty: Type)
    decreases ty
  {
    match ty
    case FixedLength(n) => n <= SIZE_MAX
    case Submessage(fields) => WellFormedFields(fields)
    case _ => true
  }

  /** Tags are distinct and within the range of the wire format. */
  ghost predicate WellFormedFields(fields: seq<Field>)
    decreases fields
  {
    && (forall i :: 0 <= i < |fields| ==> WellFormedField(fields[i]))
    && (forall i, j :: 0 <= i < j < |fields| ==> fields[i].tag != fields[j].tag)
  }

  ghost predicate WellFormedField(f: Field)
    decreases f
  {
    1 <= f.tag < 0x2000_0000 && WellFormed(f.ty)
  }

  /* ---- Initial values ---- */

  function DefaultValue(ty: Type): Value
    decreases ty
  {
    match ty
    case ByteArray(_) => Raw([])
    case Text(_) => Raw([])
    case FixedLength(n) => Raw(seq(n, i => 0))
    case Submessage(fields) => Struct(DefaultsFrom(fields, 0))
    case _ => Int(0)
  }

  function DefaultSlot(f: Field): Slot
    decreases f
  {
    match f.rule
    case Required => Slot([DefaultValue(f.ty)])
    case Singular => Slot([DefaultValue(f.ty)])
    case FixedCount(n) => var d := DefaultValue(f.ty); Slot(seq(n, i => d))
    case _ => Slot([])
  }

  function DefaultsFrom(fields: seq<Field>, i: nat): (r: seq<Slot>)
    requires i <= |fields|
    ensures |r| == |fields| - i && forall k :: 0 <= k < |r| ==> r[k] == DefaultSlot(fields[i + k])
    decreases fields, |fields| - i
  {
    if i == |fields| then [] else [DefaultSlot(fields[i])] + DefaultsFrom(fields, i + 1)
  }

  /* ---- Fields by tag ---- */

  function FieldIndex(fields: seq<Field>, tag: nat): (r: Option<nat>)
    ensures r.Some? ==> r.value < |fields| && fields[r.value].tag == tag
    ensures r.None? ==> forall i :: 0 <= i < |fields| ==> fields[i].tag != tag
  {
    if fields == [] then None
    else if fields[0].tag == tag then Some(0)
    else
      var r := FieldIndex(fields[1..], tag);
      if r.Some? then Some(r.value + 1) else None
  }

  lemma {:induction false} IndexOfTag(fields: seq<Field>, i: nat)
    requires i < |fields| && forall j :: 0 <= j < i ==> fields[j].tag != fields[i].tag
    ensures FieldIndex(fields, fields[i].tag) == Some(i)
  {
    if i > 0 {
      IndexOfTag(fields[1..], i - 1);
    }
  }

  /** How many required fields come before field `i`. */
  function RequiredBefore(fields: seq<Field>, i: nat): nat
    requires i <= |fields|
  {
    if i == 0 then 0 else RequiredBefore(fields, i - 1) + if fields[i - 1].rule.Required? then 1 else 0
  }

  lemma {:induction false} RequiredGrows(fields: seq<Field>, i: nat, n: nat)
    requires i < n <= |fields| && fields[i].rule.Required?
    ensures RequiredBefore(fields, i) < RequiredBefore(fields, n)
    decreases n
  {
    if n > i + 1 {
      RequiredGrows(fields, i, n - 1);
    }
  }

  /* ---- Skipping unknown fields ---- */

  function SkipVarint(s: Bytes): (r: Option<Bytes>)
    ensures r.Some? ==> IsSuffix(r.value, s)
    decreases |s|
  {
    if s == [] then None else if s[0] < 128 then Some(s[1..])
    else
      var r := SkipVarint(s[1..]);
      if r.Some? then (SuffixOf(s, 1, r.value); r) else None
  }

  function Drop(s: Bytes, n: nat): (r: Option<Bytes>)
    ensures r.Some? ==> IsSuffix(r.value, s)
  {
    if n <= |s| then Some(s[n..]) else None
  }

  function SkipField(wireType: nat, s: Bytes): (r: Option<Bytes>)
    ensures r.Some? ==> IsSuffix(r.value, s)
  {
    match wireType
    case 0 => SkipVarint(s)
    case 1 => Drop(s, 8)
    case 2 =>
      var n := ReadVarint32(s);
      if n.None? then None else Drop(s, n.value.used + n.value.value)
    case 5 => Drop(s, 4)
    case _ => None
  }

  /* ---- Decoding ---- */

  /** What the decoder keeps besides the message: required fields seen, and the fixed-count array under way. */
  datatype State = State(slots: seq<Slot>, seen: set<nat>, fixed: Option<nat>, count: nat)

  /** A length-delimited stretch of the input. */
  function Delimited(s: Bytes): (r: Result<Bytes>)
    ensures r.Done? ==> IsSuffix(r.rest, s) && |r.rest| < |s| && |r.value| + |r.rest| < |s|
  {
    var n := ReadVarint32(s);
    if n.None? || |s| - n.value.used < n.value.value then Fail
    else Done(s[n.value.used..n.value.used + n.value.value], s[n.value.used + n.value.value..])
  }

  function IfSome<T>(b: bool, v: T, rest: Bytes): Result<T> {
    if b then Done(v, rest) else Fail
  }

  /** The field decoders; `cur` is what memory holds already, which a submessage is merged into. */
  function DecodeValue(ty: Type, cur: Value, s: Bytes): (r: Result<Value>)
    ensures r.Done? ==> IsSuffix(r.rest, s) && |r.rest| < |s|
    decreases |s|, 0
  {
    match ty
    case Bool =>
      var n := ReadVarint32(s);
      if n.None? then Fail else Done(Int(if n.value.value != 0 then 1 else 0), s[n.value.used..])
    case VarInt(w) =>
      var n := ReadVarint64(s);
      if n.None? || !WidthOk(w) then Fail
      else
        var i := if w == 8 then ToSigned(n.value.value) else Low32(n.value.value);
        IfSome(-(Limit(w) / 2) <= i < Limit(w) / 2, Int(i), s[n.value.used..])
    case UVarInt(w) =>
      var n := ReadVarint64(s);
      if n.None? || !WidthOk(w) then Fail else IfSome(n.value.value < Limit(w), Int(n.value.value), s[n.value.used..])
    case SVarInt(w) =>
      var n := ReadVarint64(s);
      if n.None? || !WidthOk(w) then Fail
      else
        var i := UnZigZag(n.value.value);
        IfSome(-(Limit(w) / 2) <= i < Limit(w) / 2, Int(i), s[n.value.used..])
    case Fixed32 => if |s| < 4 then Fail else Done(Int(ReadFixed(s[..4])), s[4..])
    case Fixed64 => if |s| < 8 then Fail else Done(Int(ReadFixed(s[..8])), s[8..])
    case ByteArray(max) =>
      var d := Delimited(s);
      if d.Fail? then Fail else IfSome(|d.value| <= SIZE_MAX && |d.value| <= max, Raw(d.value), d.rest)
    case Text(max) =>
      var d := Delimited(s);
      if d.Fail? then Fail else IfSome(|d.value| + 1 <= max, Raw(d.value), d.rest)
    case FixedLength(size) =>
      var d := Delimited(s);
      if d.Fail? then Fail
      else if d.value == [] then Done(DefaultValue(ty), d.rest)
      else IfSome(|d.value| <= SIZE_MAX && |d.value| == size, Raw(d.value), d.rest)
    case Submessage(fields) =>
      var d := Delimited(s);
      if d.Fail? then Fail
      else
        var slots := if cur.Struct? && |cur.slots| == |fields| then cur.slots else DefaultsFrom(fields, 0);
        var m := DecodeMessage(fields, d.value, slots);
        if m.Fail? then Fail else Done(Struct(m.value), d.rest)
  }

  /** The items of a packed array, as long as there is room. */
  function DecodePacked(ty: Type, vs: seq<Value>, max: nat, s: Bytes): Result<seq<Value>>
    decreases |s|, 1
  {
    if s == [] then Done(vs, [])
    else if |vs| >= max then Fail
    else
      var v := DecodeValue(ty, DefaultValue(ty), s);
      if v.Fail? then Fail else DecodePacked(ty, vs + [v.value], max, v.rest)
  }

  /** Like DecodePacked, into an array whose items all exist already. */
  function DecodePackedFixed(ty: Type, vs: seq<Value>, count: nat, s: Bytes): Result<(seq<Value>, nat)>
    decreases |s|, 1
  {
    if s == [] then Done((vs, count), [])
    else if count >= |vs| then Fail
    else
      var v := DecodeValue(ty, vs[count], s);
      if v.Fail? then Fail else DecodePackedFixed(ty, vs[count := v.value], count + 1, v.rest)
  }

  /** decode_static_field: the new slot and, for fixed-count arrays, the new count. */
  function DecodeSlot(f: Field, wireType: nat, slot: Slot, count: nat, s: Bytes): (r: Result<(Slot, nat)>)
    ensures r.Done? ==> IsSuffix(r.rest, s)
    decreases |s|, 2
  {
    match f.rule
    case Repeated(max) =>
      if wireType == 2 && Packable(f.ty) then
        var d := Delimited(s);
        if d.Fail? then Fail
        else
          var vs := DecodePacked(f.ty, slot.vs, max, d.value);
          if vs.Fail? then Fail else Done((Slot(vs.value), count), d.rest)
      else if |slot.vs| >= max then Fail
      else
        var v := DecodeValue(f.ty, DefaultValue(f.ty), s);
        if v.Fail? then Fail else Done((Slot(slot.vs + [v.value]), count), v.rest)
    case FixedCount(n) =>
      if wireType == 2 && Packable(f.ty) then
        var d := Delimited(s);
        if d.Fail? then Fail
        else
          var vs := DecodePackedFixed(f.ty, slot.vs, count, d.value);
          if vs.Fail? then Fail else Done((Slot(vs.value.0), vs.value.1), d.rest)
      else if count >= |slot.vs| then Fail
      else
        var v := DecodeValue(f.ty, DefaultValue(f.ty), s);
        if v.Fail? then Fail else Done((Slot(slot.vs[count := v.value]), count + 1), v.rest)
    case _ =>
      var v := DecodeValue(f.ty, if slot.vs == [] then DefaultValue(f.ty) else slot.vs[0], s);
      if v.Fail? then Fail else Done((Slot([v.value]), count), v.rest)
  }

  /** Setting one member of a union overwrites the others. */
  function ClearUnion(fields: seq<Field>, slots: seq<Slot>, i: nat): (r: seq<Slot>)
    requires |fields| == |slots| && i < |fields|
    ensures |r| == |slots|
    ensures forall k :: 0 <= k < |r| ==>
              r[k] == if k != i && fields[i].rule.OneOf? && fields[k].rule == fields[i].rule then Slot([]) else slots[k]
  {
    seq(|slots|, k requires 0 <= k < |slots| =>
      if k != i && fields[i].rule.OneOf? && fields[k].rule == fields[i].rule then Slot([]) else slots[k])
  }

  /** The fixed-count array under way has all its items. */
  predicate FixedComplete(fields: seq<Field>, st: State) {
    st.fixed.Some? && st.fixed.value < |fields| && fields[st.fixed.value].rule.FixedCount? ==>
      st.count == fields[st.fixed.value].rule.count
  }

  /** One tagged record, once its tag is read. */
  function DecodeRecord(fields: seq<Field>, tag: nat, wireType: nat, s: Bytes, st: State): (r: Result<State>)
    requires |st.slots| == |fields|
    ensures r.Done? ==> IsSuffix(r.rest, s) && |r.value.slots| == |fields|
    decreases |s|, 3
  {
    var found := FieldIndex(fields, tag);
    if found.None? then
      var rest := SkipField(wireType, s);
      if rest.None? then Fail else Done(st, rest.value)
    else
      var i := found.value;
      var f := fields[i];
      var restart := f.rule.FixedCount? && st.fixed != Some(i);
      if restart && !FixedComplete(fields, st) then Fail
      else
        var count := if restart then 0 else st.count;
        var fixed := if restart then Some(i) else st.fixed;
        var seen := if f.rule.Required? && RequiredBefore(fields, i) < MAX_REQUIRED_FIELDS
                    then st.seen + {RequiredBefore(fields, i)} else st.seen;
        var slots := ClearUnion(fields, st.slots, i);
        var d := DecodeSlot(f, wireType, slots[i], count, s);
        if d.Fail? then Fail else Done(State(slots[i := d.value.0], seen, fixed, d.value.1), d.rest)
  }

  function DecodeLoop(fields: seq<Field>, s: Bytes, st: State): (r: Result<State>)
    requires |st.slots| == |fields|
    ensures r.Done? ==> IsSuffix(r.rest, s) && |r.value.slots| == |fields|
    decreases |s|, 4
  {
    if s == [] then Done(st, [])
    else
      var t := ReadVarint32(s);
      if t.None? then Fail
      else if t.value.value == 0 then Done(st, s[t.value.used..])
      else
        var d := DecodeRecord(fields, t.value.value / 8, t.value.value % 8, s[t.value.used..], st);
        if d.Fail? then Fail
        else
          SuffixOf(s, t.value.used, d.rest);
          var r := DecodeLoop(fields, d.rest, d.value);
          if r.Fail? then Fail else (SuffixOf(s, |s| - |d.rest|, r.rest); r)
  }

  /** Every one of the first 64 required fields was seen. */
  predicate RequiredSeen(fields: seq<Field>, seen: set<nat>) {
    var n := RequiredBefore(fields, |fields|);
    forall i :: 0 <= i < n && i < MAX_REQUIRED_FIELDS ==> i in seen
  }

  /** pb_decode_noinit: merge the input into a message. */
  function DecodeMessage(fields: seq<Field>, s: Bytes, slots: seq<Slot>): (r: Result<seq<Slot>>)
    requires |slots| == |fields|
    ensures r.Done? ==> IsSuffix(r.rest, s) && |r.value| == |fields|
    decreases |s|, 5
  {
    var r := DecodeLoop(fields, s, State(slots, {}, None, 0));
    if r.Fail? || !FixedComplete(fields, r.value) || !RequiredSeen(fields, r.value.seen) then Fail
    else Done(r.value.slots, r.rest)
  }

  /** pb_decode. */
  function Decode(fields: seq<Field>, s: Bytes): Result<seq<Slot>> {
    DecodeMessage(fields, s, DefaultsFrom(fields, 0))
  }
}
