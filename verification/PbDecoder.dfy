/**
  nanopb's decoder as it runs: streams, substreams and the loops over them, proved against the functions
  that say what the bytes mean.
 */
module PbDecoder {
  import opened Wrappers
  import opened ByteCoding
  import opened PbWire
  import opened PbMessage
  import opened PbDecode
  import opened PbBits
  import opened PbStream
  import opened PbRecords
  import opened PbLaws
  import opened PbStorage

  /** A value decoded and the bytes left, or nothing. */
  ghost predicate Decoded<T>(r: Option<T>, s: InStream, d: Result<T>)
    reads s
  {
    if d.Done? then r == Some(d.value) && s.Valid() && s.Left() == d.rest else r == None
  }

  /** pb_skip_varint. */
  method SkipVarint(s: InStream) returns (ok: bool)
    requires s.Valid()
    modifies s
    ensures s.Valid()
    ensures var d := PbDecode.SkipVarint(old(s.Left())); ok == d.Some? && (ok ==> s.Left() == d.value)
  {
    ok := true;
    var more := true;
    while more
      invariant s.Valid()
      invariant PbDecode.SkipVarint(old(s.Left())) == if more then PbDecode.SkipVarint(s.Left()) else Some(s.Left())
      decreases more, |s.Left()|
    {
      var b := s.ReadByte();
      if b.None? {
        return false;
      }
      more := b.value >= 128;
    }
  }

  /** pb_read without a destination. */
  method Skip(s: InStream, count: nat) returns (ok: bool)
    requires s.Valid()
    modifies s
    ensures s.Valid()
    ensures var d := Drop(old(s.Left()), count); ok == d.Some? && (ok ==> s.Left() == d.value)
  {
    var r := s.Read(count);
    ok := r.Some?;
  }

  /** pb_skip_string. */
  method SkipString(s: InStream) returns (ok: bool)
    requires s.Valid()
    modifies s
    ensures s.Valid()
    ensures var n := ReadVarint32(old(s.Left()));
            var d := if n.None? then None else Drop(old(s.Left()), n.value.used + n.value.value);
            ok == d.Some? && (ok ==> s.Left() == d.value)
  {
    hide ReadVarint32;
    var n := s.DecodeVarint32();
    if n.None? {
      return false;
    }
    ok := Skip(s, n.value);
  }

  method SkipField(s: InStream, wireType: nat) returns (ok: bool)
    requires s.Valid()
    modifies s
    ensures s.Valid()
    ensures var d := PbDecode.SkipField(wireType, old(s.Left())); ok == d.Some? && (ok ==> s.Left() == d.value)
  {
    hide PbDecode.SkipVarint, ReadVarint32, Drop;
    match wireType
    case 0 => ok := SkipVarint(s);
    case 1 => ok := Skip(s, 8);
    case 2 => ok := SkipString(s);
    case 5 => ok := Skip(s, 4);
    case _ => ok := false;
  }

  /* ---- Substreams ---- */

  /** The parent has given up the substream's bytes, but stands still before them. */
  ghost predicate Opened(s: InStream, sub: InStream, d: Result<Bytes>)
    reads s, sub
  {
    && d.Done? && sub.buffer == s.buffer && sub.Valid() && sub.Left() == d.value
    && sub.end + s.bytesLeft == s.end <= |s.buffer| && s.buffer[sub.end..s.end] == d.rest
  }

  lemma Middle(s: Bytes, left: Bytes, n: nat)
    requires n <= |left| <= |s| && left == s[|s| - |left|..]
    ensures var u := |s| - |left|; s[u..u + n] == left[..n] && s[u + n..] == left[n..]
  {
  }

  /** pb_make_string_substream. */
  method MakeSubstream(s: InStream) returns (sub: InStream?)
    requires s.Valid()
    modifies s
    ensures var d := Delimited(old(s.Left()));
            if d.Done? then sub != null && fresh(sub) && Opened(s, sub, d) && sub.bytesLeft < old(s.bytesLeft) else sub == null
  {
    hide ReadVarint32;
    var size := s.DecodeVarint32();
    if size.None? || s.bytesLeft < size.value {
      return null;
    }
    ghost var left := s.Left();
    assert left[..size.value] == s.buffer[s.state..s.state + size.value] && left[size.value..] == s.buffer[s.state + size.value..s.end];
    Middle(old(s.Left()), left, size.value);
    sub := new InStream(s.buffer, s.state, size.value);
    s.bytesLeft := s.bytesLeft - size.value;
  }

  /** pb_close_string_substream: what the substream leaves unread is skipped. */
  method CloseSubstream(s: InStream, sub: InStream, ghost end: nat)
    requires s != sub && sub.Valid() && sub.buffer == s.buffer && sub.end == end && end + s.bytesLeft == s.end <= |s.buffer|
    modifies s, sub
    ensures s.Valid() && s.Left() == s.buffer[end..s.end]
  {
    if sub.bytesLeft > 0 {
      var rest := sub.Read(sub.bytesLeft);
    }
    s.state := sub.state;
  }

  /* ---- Scalars and strings ---- */

  method DecodeInteger(s: InStream, ty: Type, cur: Value) returns (r: Option<Value>)
    requires s.Valid() && (ty.VarInt? || ty.UVarInt? || ty.SVarInt?)
    modifies s
    ensures Decoded(r, s, PbDecode.DecodeValue(ty, cur, old(s.Left())))
  {
    hide ReadVarint64, UnZigZag, ToSigned, Low32, Limit;
    var n := s.DecodeVarint();
    if n.None? || !WidthOk(ty.width) {
      return None;
    }
    var i: int := if ty.UVarInt? then n.value else if ty.SVarInt? then UnZigZag(n.value)
                  else if ty.width == 8 then ToSigned(n.value) else Low32(n.value);
    var fits := if ty.UVarInt? then i < Limit(ty.width) else -(Limit(ty.width) / 2) <= i < Limit(ty.width) / 2;
    r := if fits then Some(Int(i)) else None;
  }

  method DecodeFixed(s: InStream, ty: Type, cur: Value) returns (r: Option<Value>)
    requires s.Valid() && (ty.Fixed32? || ty.Fixed64?)
    modifies s
    ensures Decoded(r, s, PbDecode.DecodeValue(ty, cur, old(s.Left())))
  {
    hide ReadFixed;
    var b := s.Read(if ty.Fixed32? then 4 else 8);
    r := if b.Some? then Some(Int(ReadFixed(b.value))) else None;
  }

  /** A length and as many bytes; their number may be refused before they are read. */
  method ReadDelimited(s: InStream, max: nat) returns (r: Option<Bytes>)
    requires s.Valid()
    modifies s
    ensures var d := Delimited(old(s.Left()));
            if d.Done? && |d.value| <= max then r == Some(d.value) && s.Valid() && s.Left() == d.rest else r == None
  {
    hide ReadVarint32;
    var size := s.DecodeVarint32();
    if size.None? || size.value > max {
      return None;
    }
    ghost var left := s.Left();
    if size.value <= |left| {
      Middle(old(s.Left()), left, size.value);
    }
    r := s.Read(size.value);
  }

  method DecodeString(s: InStream, ty: Type, cur: Value) returns (r: Option<Value>)
    requires s.Valid() && (ty.ByteArray? || ty.Text?)
    modifies s
    ensures Decoded(r, s, PbDecode.DecodeValue(ty, cur, old(s.Left())))
  {
    hide Delimited;
    if ty.Text? && ty.max == 0 {
      return None;
    }
    var max := if ty.Text? then ty.max - 1 else if ty.max < SIZE_MAX then ty.max else SIZE_MAX;
    var b := ReadDelimited(s, max);
    r := if b.Some? then Some(Raw(b.value)) else None;
  }

  /** No bytes stand for all zeros. */
  method DecodeFixedLength(s: InStream, ty: Type, cur: Value) returns (r: Option<Value>)
    requires s.Valid() && ty.FixedLength?
    modifies s
    ensures Decoded(r, s, PbDecode.DecodeValue(ty, cur, old(s.Left())))
  {
    hide Delimited, DefaultValue;
    var b := ReadDelimited(s, if ty.size < SIZE_MAX then ty.size else SIZE_MAX);
    r := if b.None? || (b.value != [] && |b.value| != ty.size) then None
         else Some(if b.value == [] then DefaultValue(ty) else Raw(b.value));
  }

  /* ---- Values ---- */

  method DecodeValue(s: InStream, ty: Type, cur: Value) returns (r: Option<Value>)
    requires WellFormed(ty)
    requires s.Valid()
    modifies s
    ensures Decoded(r, s, PbDecode.DecodeValue(ty, cur, old(s.Left())))
    decreases s.bytesLeft, 2
  {
    hide ReadVarint32;
    match ty
    case Bool =>
      var n := s.DecodeVarint32();
      r := if n.Some? then Some(Int(if n.value != 0 then 1 else 0)) else None;
    case VarInt(_) => r := DecodeInteger(s, ty, cur);
    case UVarInt(_) => r := DecodeInteger(s, ty, cur);
    case SVarInt(_) => r := DecodeInteger(s, ty, cur);
    case Fixed32 => r := DecodeFixed(s, ty, cur);
    case Fixed64 => r := DecodeFixed(s, ty, cur);
    case Submessage(fields) => r := DecodeSubmessage(s, fields, cur);
    case FixedLength(_) => r := DecodeFixedLength(s, ty, cur);
    case _ => r := DecodeString(s, ty, cur);
  }

  /** pb_dec_submessage: merge a length-delimited stretch into a message. */
  method DecodeSubmessage(s: InStream, fields: seq<Field>, cur: Value) returns (r: Option<Value>)
    requires WellFormedFields(fields)
    requires s.Valid()
    modifies s
    ensures Decoded(r, s, PbDecode.DecodeValue(Submessage(fields), cur, old(s.Left())))
    decreases s.bytesLeft, 1
  {
    hide Delimited, DefaultsFrom, DecodeMessage;
    var sub := MakeSubstream(s);
    if sub == null {
      return None;
    }
    var slots := if cur.Struct? && |cur.slots| == |fields| then cur.slots else DefaultsFrom(fields, 0);
    var m := DecodeNoinit(sub, fields, slots);
    if m.None? {
      return None;
    }
    CloseSubstream(s, sub, sub.end);
    r := Some(Struct(m.value));
  }

  /* ---- Fields ---- */

  /** A packed array, into the room there is. */
  method DecodePackedArray(s: InStream, ty: Type, vs0: seq<Value>, max: nat) returns (r: Option<seq<Value>>)
    requires WellFormed(ty)
    requires s.Valid()
    modifies s
    ensures var d := Delimited(old(s.Left()));
            var p := if d.Done? then PbDecode.DecodePacked(ty, vs0, max, d.value) else Fail;
            if p.Done? then r == Some(p.value) && s.Valid() && s.Left() == d.rest else r == None
    decreases s.bytesLeft, 3
  {
    hide Delimited, DefaultValue, PbDecode.DecodeValue;
    ghost var d := Delimited(s.Left());
    var sub := MakeSubstream(s);
    if sub == null {
      return None;
    }
    var vs := vs0;
    while sub.bytesLeft > 0 && |vs| < max
      invariant fresh(sub) && Unmoved(s, sub, d) && s.bytesLeft < old(s.bytesLeft) && sub.bytesLeft < old(s.bytesLeft)
      invariant PbDecode.DecodePacked(ty, vs0, max, d.value) == PbDecode.DecodePacked(ty, vs, max, sub.Left())
      decreases sub.bytesLeft
    {
      var v := DecodeValue(sub, ty, DefaultValue(ty));
      if v.None? {
        return None;
      }
      vs := vs + [v.value];
    }
    if sub.bytesLeft != 0 {
      return None;
    }
    CloseSubstream(s, sub, sub.end);
    r := Some(vs);
  }

  /** The substream may have moved, but not its parent. */
  ghost predicate Unmoved(s: InStream, sub: InStream, d: Result<Bytes>)
    reads s, sub
  {
    && d.Done? && sub.buffer == s.buffer && sub.Valid()
    && sub.end + s.bytesLeft == s.end <= |s.buffer| && s.buffer[sub.end..s.end] == d.rest
  }

  /** A packed array whose items all exist already. */
  method DecodePackedFixed(s: InStream, ty: Type, vs0: seq<Value>, count0: nat) returns (r: Option<(seq<Value>, nat)>)
    requires WellFormed(ty)
    requires s.Valid()
    modifies s
    ensures var d := Delimited(old(s.Left()));
            var p := if d.Done? then PbDecode.DecodePackedFixed(ty, vs0, count0, d.value) else Fail;
            if p.Done? then r == Some(p.value) && s.Valid() && s.Left() == d.rest else r == None
    decreases s.bytesLeft, 3
  {
    hide Delimited, PbDecode.DecodeValue;
    ghost var d := Delimited(s.Left());
    var sub := MakeSubstream(s);
    if sub == null {
      return None;
    }
    var vs, count: nat := vs0, count0;
    while sub.bytesLeft > 0 && count < |vs|
      invariant fresh(sub) && Unmoved(s, sub, d) && s.bytesLeft < old(s.bytesLeft) && sub.bytesLeft < old(s.bytesLeft)
      invariant PbDecode.DecodePackedFixed(ty, vs0, count0, d.value) == PbDecode.DecodePackedFixed(ty, vs, count, sub.Left())
      decreases sub.bytesLeft
    {
      var v := DecodeValue(sub, ty, vs[count]);
      if v.None? {
        return None;
      }
      vs, count := vs[count := v.value], count + 1;
    }
    if sub.bytesLeft != 0 {
      return None;
    }
    CloseSubstream(s, sub, sub.end);
    r := Some((vs, count));
  }

  /** decode_static_field. */
  method DecodeSlot(s: InStream, f: Field, wireType: nat, slot: Slot, count: nat) returns (r: Option<(Slot, nat)>)
    requires WellFormedField(f)
    requires s.Valid()
    modifies s
    ensures Decoded(r, s, PbDecode.DecodeSlot(f, wireType, slot, count, old(s.Left())))
    decreases s.bytesLeft, 4
  {
    hide Delimited, PbDecode.DecodeValue, PbDecode.DecodePacked, PbDecode.DecodePackedFixed, DefaultValue;
    var packed := wireType == 2 && Packable(f.ty);
    match f.rule
    case Repeated(max) =>
      if packed {
        var vs := DecodePackedArray(s, f.ty, slot.vs, max);
        r := if vs.Some? then Some((Slot(vs.value), count)) else None;
      } else if |slot.vs| >= max {
        r := None;
      } else {
        var v := DecodeValue(s, f.ty, DefaultValue(f.ty));
        r := if v.Some? then Some((Slot(slot.vs + [v.value]), count)) else None;
      }
    case FixedCount(_) =>
      if packed {
        var vs := DecodePackedFixed(s, f.ty, slot.vs, count);
        r := if vs.Some? then Some((Slot(vs.value.0), vs.value.1)) else None;
      } else if count >= |slot.vs| {
        r := None;
      } else {
        var v := DecodeValue(s, f.ty, DefaultValue(f.ty));
        r := if v.Some? then Some((Slot(slot.vs[count := v.value]), count + 1)) else None;
      }
    case _ =>
      var v := DecodeValue(s, f.ty, if slot.vs == [] then DefaultValue(f.ty) else slot.vs[0]);
      r := if v.Some? then Some((Slot([v.value]), count)) else None;
  }

  /* ---- Required fields ---- */

  /** The two words say which of the first 64 required fields have been seen. */
  ghost predicate Noted(words: seq<nat>, seen: set<nat>) {
    words == [Word(seen, 0, WORD_BITS), Word(seen, WORD_BITS, WORD_BITS)]
  }

  /** Each of the words fits 32 bits. */
  lemma WordsFit(words: seq<nat>, seen: set<nat>)
    requires Noted(words, seen)
    ensures |words| == 2 && words[0] < 0x1_0000_0000 && words[1] < 0x1_0000_0000
  {
    hide Word;
    assert Power2(32) == 0x1_0000_0000 by {
      assert Power2(8) == 256;
      assert Power2(16) == 0x1_0000;
      assert Power2(24) == 0x100_0000;
    }
  }

  method NoteRequired(words: seq<nat>, index: nat, ghost seen: set<nat>) returns (words': seq<nat>)
    requires Noted(words, seen) && index < MAX_REQUIRED_FIELDS
    ensures Noted(words', seen + {index})
  {
    hide Word, WithBit;
    var w, k := index / WORD_BITS, index % WORD_BITS;
    if index < WORD_BITS {
      WithBitIsSeen(seen, 0, index, WORD_BITS);
      OtherWord(seen, WORD_BITS, index, WORD_BITS);
    } else {
      WithBitIsSeen(seen, WORD_BITS, index - WORD_BITS, WORD_BITS);
      OtherWord(seen, 0, index, WORD_BITS);
    }
    words' := words[w := WithBit(words[w], k)];
  }

  /** Whole words first, then what is left of the bits. */
  method AllRequired(words: seq<nat>, required: nat, ghost seen: set<nat>) returns (ok: bool)
    requires Noted(words, seen) && forall i :: i in seen ==> i < required && i < MAX_REQUIRED_FIELDS
    ensures ok <==> forall i :: 0 <= i < required && i < MAX_REQUIRED_FIELDS ==> i in seen
  {
    hide Word, LowBits;
    var n := if required > MAX_REQUIRED_FIELDS then MAX_REQUIRED_FIELDS else required;
    var whole, left := n / WORD_BITS, n % WORD_BITS;
    for w := 0 to whole
      invariant forall i :: 0 <= i < w * WORD_BITS ==> i in seen
    {
      AllSeen(seen, w * WORD_BITS, WORD_BITS, WORD_BITS);
      if words[w] != LowBits(WORD_BITS) {
        return false;
      }
    }
    ok := true;
    if left != 0 {
      AllSeen(seen, whole * WORD_BITS, left, WORD_BITS);
      ok := words[whole] == LowBits(left);
    }
  }

  /* ---- Finding fields ---- */

  /** pb_field_iter_t. */
  class FieldIter {
    const fields: seq<Field>
    var pos: nat
    var requiredFieldIndex: nat

    ghost predicate Valid()
      reads this
    {
      && (if fields == [] then pos == 0 else pos < |fields|)
      && requiredFieldIndex == RequiredBefore(fields, pos)
    }

    constructor (fields: seq<Field>)
      ensures Valid() && this.fields == fields && pos == 0
    {
      this.fields, pos, requiredFieldIndex := fields, 0, 0;
    }

    /** On to the next field, or back to the first. */
    method Next() returns (more: bool)
      requires Valid()
      modifies this
      ensures Valid() && more == (old(pos) + 1 < |fields|) && pos == if more then old(pos) + 1 else 0
    {
      if fields == [] {
        return false;
      }
      var required := fields[pos].rule.Required?;
      pos := pos + 1;
      if pos == |fields| {
        pos, requiredFieldIndex := 0, 0;
        return false;
      }
      if required {
        requiredFieldIndex := requiredFieldIndex + 1;
      }
      more := true;
    }

    /** Look for a tag from the current field on, all the way round. */
    method Find(tag: nat) returns (found: bool)
      requires Valid() && WellFormedFields(fields)
      modifies this
      ensures Valid() && found == FieldIndex(fields, tag).Some? && (found ==> FieldIndex(fields, tag) == Some(pos))
    {
      if fields == [] {
        return false;
      }
      var start := pos;
      ghost var seen := 0;
      while true
        invariant Valid() && 0 <= seen < |fields| && pos == if start + seen < |fields| then start + seen else start + seen - |fields|
        invariant forall i :: start <= i < start + seen && i < |fields| ==> fields[i].tag != tag
        invariant forall i :: 0 <= i < start + seen - |fields| ==> fields[i].tag != tag
        decreases |fields| - seen
      {
        if fields[pos].tag == tag {
          IndexOfTag(fields, pos);
          return true;
        }
        var more := Next();
        seen := seen + 1;
        if pos == start {
          return false;
        }
      }
    }

    /** The number of required fields, by going on to the last field. */
    method CountRequired() returns (required: nat)
      requires Valid()
      modifies this
      ensures Valid() && required == RequiredBefore(fields, |fields|)
    {
      if fields == [] {
        return 0;
      }
      var last: nat := pos;
      required := requiredFieldIndex;
      var more := Next();
      while more
        invariant Valid() && last < |fields| && required == RequiredBefore(fields, last)
        invariant if more then pos == last + 1 else last == |fields| - 1
        decreases |fields| - last
      {
        last, required := pos, requiredFieldIndex;
        more := Next();
      }
      if fields[last].rule.Required? {
        required := required + 1;
      }
    }
  }

  /* ---- Messages ---- */

  /** What pb_decode_noinit keeps: the message, the words of required fields, the fixed-count array under way. */
  datatype Progress = Progress(slots: seq<Slot>, words: seq<nat>, fixed: Option<nat>, count: nat)

  ghost predicate Stands(fields: seq<Field>, p: Progress, st: State) {
    && p.slots == st.slots && |p.slots| == |fields| && p.fixed == st.fixed && p.count == st.count
    && Noted(p.words, st.seen)
    && forall i :: i in st.seen ==> i < RequiredBefore(fields, |fields|) && i < MAX_REQUIRED_FIELDS
  }

  lemma FieldOf(fields: seq<Field>, i: nat)
    requires WellFormedFields(fields) && i < |fields|
    ensures WellFormedField(fields[i])
  {
  }

  /** One record, once its tag is read. */
  method DecodeRecord(s: InStream, iter: FieldIter, tag: nat, wireType: nat, p0: Progress, ghost st: State)
    returns (ok: bool, p: Progress, ghost st': State)
    requires s.Valid() && iter.Valid() && WellFormedFields(iter.fields) && Stands(iter.fields, p0, st)
    modifies s, iter
    ensures iter.Valid()
    ensures var d := PbDecode.DecodeRecord(iter.fields, tag, wireType, old(s.Left()), st);
            ok == d.Done? && (ok ==> s.Valid() && s.Left() == d.rest && st' == d.value && Stands(iter.fields, p, st'))
    decreases s.bytesLeft, 5
  {
    hide PbDecode.DecodeSlot, PbDecode.SkipField, WellFormedFields, Noted, FieldIndex;
    ok, p, st' := false, p0, st;
    var fields := iter.fields;
    var found := iter.Find(tag);
    if !found {
      ok := SkipField(s, wireType);
      return;
    }
    var i := iter.pos;
    var f := fields[i];
    FieldOf(fields, i);
    var fixed, count, words := p.fixed, p.count, p.words;
    if f.rule.FixedCount? && fixed != Some(i) {
      if fixed.Some? && fixed.value < |fields| && fields[fixed.value].rule.FixedCount? && count != fields[fixed.value].rule.count {
        return;
      }
      fixed, count := Some(i), 0;
    }
    ghost var seen := st.seen;
    if f.rule.Required? && iter.requiredFieldIndex < MAX_REQUIRED_FIELDS {
      RequiredGrows(fields, i, |fields|);
      words := NoteRequired(words, iter.requiredFieldIndex, seen);
      seen := seen + {iter.requiredFieldIndex};
    }
    var slots := ClearUnion(fields, p.slots, i);
    var d := DecodeSlot(s, f, wireType, slots[i], count);
    if d.Some? {
      ok, p := true, Progress(slots[i := d.value.0], words, fixed, d.value.1);
      st' := State(p.slots, seen, fixed, d.value.1);
    }
  }

  /** pb_decode_noinit. */
  method DecodeNoinit(s: InStream, fields: seq<Field>, slots0: seq<Slot>) returns (r: Option<seq<Slot>>)
    requires s.Valid() && |slots0| == |fields| && WellFormedFields(fields)
    modifies s
    ensures Decoded(r, s, DecodeMessage(fields, old(s.Left()), slots0))
    ensures r.Some? ==> Split(fields, old(s.Left())).Some? && RequiredPresent(fields, Split(fields, old(s.Left())).value.records)
    decreases s.bytesLeft, 6
  {
    hide PbDecode.DecodeRecord, DecodeLoop, DecodeMessage, WellFormedFields, Noted, Split, RequiredPresent, Acceptable;
    ghost var input := s.Left();
    DecodesIff(fields, input, slots0);
    MessageOfLoop(fields, input, slots0);
    var iter := new FieldIter(fields);
    var p := Progress(slots0, [0, 0], None, 0);
    ghost var st := State(slots0, {}, None, 0);
    NothingNoted();
    var more := true;
    while more && s.bytesLeft > 0
      invariant fresh(iter) && iter.Valid() && iter.fields == fields && s.Valid() && s.bytesLeft <= |input|
      invariant Stands(fields, p, st)
      invariant DecodeLoop(fields, input, State(slots0, {}, None, 0)) ==
                if more then DecodeLoop(fields, s.Left(), st) else Done(st, s.Left())
      decreases more, s.bytesLeft
    {
      LoopUnfolds(fields, s.Left(), st);
      var t := s.DecodeVarint32();
      if t.None? {
        return None;
      }
      if t.value == 0 {
        more := false;
      } else {
        var ok;
        ok, p, st := DecodeRecord(s, iter, t.value / 8, t.value % 8, p, st);
        if !ok {
          return None;
        }
      }
    }
    LoopEnd(fields, st);
    if p.fixed.Some? && p.fixed.value < |fields| && fields[p.fixed.value].rule.FixedCount? && p.count != fields[p.fixed.value].rule.count {
      return None;
    }
    var required := iter.CountRequired();
    var complete := AllRequired(p.words, required, st.seen);
    assert s.bytesLeft == 0 ==> s.Left() == [];
    assert complete <==> RequiredSeen(fields, st.seen);
    r := if complete then Some(p.slots) else None;
  }

  lemma MessageOfLoop(fields: seq<Field>, s: Bytes, slots: seq<Slot>)
    requires |slots| == |fields|
    ensures var r := DecodeLoop(fields, s, State(slots, {}, None, 0));
            DecodeMessage(fields, s, slots) ==
            if r.Fail? || !FixedComplete(fields, r.value) || !RequiredSeen(fields, r.value.seen) then Fail
            else Done(r.value.slots, r.rest)
  {
    hide DecodeLoop, FixedComplete, RequiredSeen;
  }

  lemma NothingNoted()
    ensures Noted([0, 0], {})
  {
    NoBits(0, WORD_BITS);
    NoBits(WORD_BITS, WORD_BITS);
  }

  lemma {:induction false} NoBits(base: nat, n: nat)
    ensures Word({}, base, n) == 0
    decreases n
  {
    if n > 0 {
      NoBits(base + 1, n - 1);
    }
  }

  lemma LoopEnd(fields: seq<Field>, st: State)
    requires |st.slots| == |fields|
    ensures DecodeLoop(fields, [], st) == Done(st, [])
  {
  }

  /** pb_decode on a buffer: exactly what the bytes mean, whatever they are. */
  method DecodeBuffer(fields: seq<Field>, buffer: Bytes) returns (r: Option<seq<Slot>>, unread: nat)
    requires WellFormedFields(fields)
    ensures var d := Decode(fields, buffer);
            if d.Done? then r == Some(d.value) && unread == |d.rest| else r == None
    ensures r.Some? <==> Acceptable(fields, buffer, DefaultsFrom(fields, 0))
    ensures r.Some? ==> Split(fields, buffer).Some? && RequiredPresent(fields, Split(fields, buffer).value.records)
    ensures r.Some? ==> FitsMessage(fields, r.value)
  {
    hide DecodeMessage, DefaultsFrom, WellFormedFields, Split, RequiredPresent, FitsMessage, Acceptable;
    DecodesIff(fields, buffer, DefaultsFrom(fields, 0));
    if Decode(fields, buffer).Done? {
      DecodedFits(fields, buffer);
    }
    var s := new InStream(buffer, 0, |buffer|);
    assert s.Left() == buffer;
    r := DecodeNoinit(s, fields, DefaultsFrom(fields, 0));
    unread := s.bytesLeft;
  }
}
