/**
  nanopb: what decoding makes of any bytes, field by field and without regard to how the decoder keeps count.

  Everything is said about the records that the input consists of; see PbRecords.
 */
module PbLaws {
  import opened Wrappers
  import opened ByteCoding
  import opened PbWire
  import opened PbMessage
  import opened PbDecode
  import opened PbRecords

  /* ---- Required fields ---- */

  ghost predicate HasRecord(rs: seq<Record>, tag: nat) {
    exists r :: r in rs && r.tag == tag
  }

  /** Fewer than 64 required fields come before field `i`. */
  ghost predicate AmongFirst64(fields: seq<Field>, i: nat)
    requires i < |fields|
  {
    |set k | 0 <= k < i && fields[k].rule.Required?| < 64
  }

  /** Each of the first 64 required fields has a record. */
  ghost predicate RequiredPresent(fields: seq<Field>, rs: seq<Record>) {
    forall i :: 0 <= i < |fields| && fields[i].rule.Required? && AmongFirst64(fields, i) ==> HasRecord(rs, fields[i].tag)
  }

  lemma {:induction false} RequiredCounts(fields: seq<Field>, i: nat)
    requires i <= |fields|
    ensures RequiredBefore(fields, i) == |set k | 0 <= k < i && fields[k].rule.Required?|
    decreases i
  {
    if i > 0 {
      RequiredCounts(fields, i - 1);
      var before := set k | 0 <= k < i - 1 && fields[k].rule.Required?;
      var all := set k | 0 <= k < i && fields[k].rule.Required?;
      assert all == if fields[i - 1].rule.Required? then before + {i - 1} else before;
    }
  }

  lemma {:induction false} NthRequired(fields: seq<Field>, n: nat, m: nat) returns (i: nat)
    requires m <= |fields| && n < RequiredBefore(fields, m)
    ensures i < m && fields[i].rule.Required? && RequiredBefore(fields, i) == n
    decreases m
  {
    if n < RequiredBefore(fields, m - 1) {
      i := NthRequired(fields, n, m - 1);
    } else {
      i := m - 1;
    }
  }

  /** The record is one of the required field with `n` others before it. */
  ghost predicate Marks(fields: seq<Field>, r: Record, n: nat) {
    var i := FieldIndex(fields, r.tag);
    i.Some? && fields[i.value].rule.Required? && RequiredBefore(fields, i.value) == n && n < 64
  }

  lemma OneMarks(fields: seq<Field>, r: Record, st: State, t: State)
    requires |st.slots| == |fields| && Perform(fields, r, st) == Some(t)
    ensures forall n: nat :: n in t.seen <==> n in st.seen || Marks(fields, r, n)
  {
    hide DecodeSlot, SkipField, RequiredBefore, FieldIndex, ClearUnion, IsSuffix;
  }

  lemma {:induction false} AllMark(fields: seq<Field>, rs: seq<Record>, st: State, t: State)
    requires |st.slots| == |fields| && PerformAll(fields, rs, st) == Some(t)
    ensures forall n: nat :: n in t.seen <==> n in st.seen || exists r :: r in rs && Marks(fields, r, n)
    decreases |rs|
  {
    hide Perform, Marks;
    if rs != [] {
      var u := Perform(fields, rs[0], st).value;
      OneMarks(fields, rs[0], st, u);
      AllMark(fields, rs[1..], u, t);
      assert forall r :: r in rs <==> r == rs[0] || r in rs[1..];
    }
  }

  lemma RequiredIff(fields: seq<Field>, rs: seq<Record>, st: State, t: State)
    requires WellFormedFields(fields) && |st.slots| == |fields| && st.seen == {} && PerformAll(fields, rs, st) == Some(t)
    ensures RequiredSeen(fields, t.seen) <==> RequiredPresent(fields, rs)
  {
    hide PerformAll, RequiredBefore;
    AllMark(fields, rs, st, t);
    if RequiredSeen(fields, t.seen) {
      forall i | 0 <= i < |fields| && fields[i].rule.Required? && AmongFirst64(fields, i) ensures HasRecord(rs, fields[i].tag) {
        RequiredCounts(fields, i);
        RequiredGrows(fields, i, |fields|);
        var n := RequiredBefore(fields, i);
        assert n < 64 && n in t.seen;
        var r :| r in rs && Marks(fields, r, n);
        SamePlace(fields, FieldIndex(fields, r.tag).value, i);
      }
    }
    if RequiredPresent(fields, rs) {
      var all := RequiredBefore(fields, |fields|);
      forall n | 0 <= n < all && n < MAX_REQUIRED_FIELDS ensures n in t.seen {
        var i := NthRequired(fields, n, |fields|);
        RequiredCounts(fields, i);
        var r :| r in rs && r.tag == fields[i].tag;
        IndexOfTag(fields, i);
        assert Marks(fields, r, n);
      }
    }
  }

  lemma SamePlace(fields: seq<Field>, i: nat, j: nat)
    requires i < |fields| && j < |fields| && fields[i].rule.Required? && fields[j].rule.Required?
    requires RequiredBefore(fields, i) == RequiredBefore(fields, j)
    ensures i == j
  {
    if i < j {
      RequiredGrows(fields, i, j);
    } else if j < i {
      RequiredGrows(fields, j, i);
    }
  }

  /**
    The input splits into records that can all be performed, the fixed-count array under way at the end is
    full, and each of the first 64 required fields has a record.
   */
  ghost predicate Acceptable(fields: seq<Field>, s: Bytes, slots: seq<Slot>)
    requires |slots| == |fields|
  {
    var p := Split(fields, s);
    && p.Some? && RequiredPresent(fields, p.value.records)
    && var t := PerformAll(fields, p.value.records, State(slots, {}, None, 0));
       t.Some? && FixedComplete(fields, t.value)
  }

  lemma DecodesIff(fields: seq<Field>, s: Bytes, slots: seq<Slot>)
    requires WellFormedFields(fields) && |slots| == |fields|
    ensures DecodeMessage(fields, s, slots).Done? <==> Acceptable(fields, s, slots)
    ensures Acceptable(fields, s, slots) ==> Split(fields, s).Some? && RequiredPresent(fields, Split(fields, s).value.records)
  {
    hide Split, PerformAll, DecodeLoop, WellFormedFields, RequiredPresent, FixedComplete;
    var st := State(slots, {}, None, 0);
    LoopPerforms(fields, s, st);
    var p := Split(fields, s);
    if p.Some? && PerformAll(fields, p.value.records, st).Some? {
      RequiredIff(fields, p.value.records, st, PerformAll(fields, p.value.records, st).value);
    }
  }

  /* ---- The values in a record ---- */

  /** Values one after the other, up to the end of the bytes. */
  function Items(ty: Type, s: Bytes): Option<seq<Value>>
    decreases |s|
  {
    if s == [] then Some([])
    else
      var v := DecodeValue(ty, DefaultValue(ty), s);
      if v.Fail? then None
      else
        var more := Items(ty, v.rest);
        if more.None? then None else Some([v.value] + more.value)
  }

  /** What a record of an array adds to it: several values if it is packed, else one. */
  function ItemsOf(f: Field, r: Record): Option<seq<Value>> {
    if r.wireType == 2 && Packable(f.ty) then
      var d := Delimited(r.body);
      if d.Fail? then None else Items(f.ty, d.value)
    else
      var v := DecodeValue(f.ty, DefaultValue(f.ty), r.body);
      if v.Fail? then None else Some([v.value])
  }

  /** What all records of a field add up to. */
  function AllItems(f: Field, rs: seq<Record>): seq<Value> {
    if rs == [] then []
    else
      var items := ItemsOf(f, rs[0]);
      (if rs[0].tag == f.tag && items.Some? then items.value else []) + AllItems(f, rs[1..])
  }

  lemma {:induction false} PackedAppends(ty: Type, vs: seq<Value>, max: nat, s: Bytes)
    ensures var items := Items(ty, s);
            DecodePacked(ty, vs, max, s) ==
            if items.Some? && (items.value == [] || |vs| + |items.value| <= max) then Done(vs + items.value, []) else Fail
    decreases |s|
  {
    hide DecodeValue, DefaultValue;
    if s == [] {
      assert vs + [] == vs;
    } else {
      var v := DecodeValue(ty, DefaultValue(ty), s);
      if v.Done? {
        PackedAppends(ty, vs + [v.value], max, v.rest);
        var more := Items(ty, v.rest);
        if more.Some? {
          assert vs + [v.value] + more.value == vs + ([v.value] + more.value);
        }
      }
    }
  }

  /** What is in memory matters to submessages only. */
  lemma CurrentIgnored(ty: Type, cur: Value, cur': Value, s: Bytes)
    requires !ty.Submessage?
    ensures DecodeValue(ty, cur, s) == DecodeValue(ty, cur', s)
  {
  }

  function Fill(vs: seq<Value>, at: nat, items: seq<Value>): (r: seq<Value>)
    ensures |r| == |vs|
  {
    if items != [] && at + |items| <= |vs| then vs[..at] + items + vs[at + |items|..] else vs
  }

  lemma FillNext(vs: seq<Value>, at: nat, v: Value, more: seq<Value>)
    requires at + 1 + |more| <= |vs|
    ensures Fill(vs[at := v], at + 1, more) == Fill(vs, at, [v] + more)
  {
    if more == [] {
      assert [v] + more == [v];
    }
  }

  lemma {:induction false} PackedFills(ty: Type, vs: seq<Value>, count: nat, s: Bytes)
    requires Packable(ty)
    ensures var items := Items(ty, s);
            DecodePackedFixed(ty, vs, count, s) ==
            if items.Some? && (items.value == [] || count + |items.value| <= |vs|)
            then Done((Fill(vs, count, items.value), count + |items.value|), []) else Fail
    decreases |s|
  {
    hide DecodeValue, DefaultValue, Fill;
    if s == [] {
      NoneFilled(vs, count);
    } else if count < |vs| {
      CurrentIgnored(ty, vs[count], DefaultValue(ty), s);
      var v := DecodeValue(ty, DefaultValue(ty), s);
      if v.Done? {
        PackedFills(ty, vs[count := v.value], count + 1, v.rest);
        var more := Items(ty, v.rest);
        if more.Some? && count + 1 + |more.value| <= |vs| {
          FillNext(vs, count, v.value, more.value);
        }
        if more.Some? && more.value == [] {
          assert [v.value] + more.value == [v.value];
        }
      }
    }
  }

  lemma NoneFilled(vs: seq<Value>, at: nat)
    ensures Fill(vs, at, []) == vs
  {
  }

  /* ---- What one record does to one field ---- */

  /** The record sets another member of the union that field `i` belongs to. */
  ghost predicate Displaces(fields: seq<Field>, r: Record, i: nat)
    requires i < |fields|
  {
    fields[i].rule.OneOf? && r.tag != fields[i].tag && exists k :: 0 <= k < |fields| && fields[k].tag == r.tag && fields[k].rule == fields[i].rule
  }

  ghost predicate Touches(fields: seq<Field>, r: Record, i: nat)
    requires i < |fields|
  {
    r.tag == fields[i].tag || Displaces(fields, r, i)
  }

  lemma Elsewhere(fields: seq<Field>, r: Record, st: State, t: State, i: nat)
    requires WellFormedFields(fields) && |st.slots| == |fields| && i < |fields| && Perform(fields, r, st) == Some(t)
    requires r.tag != fields[i].tag
    ensures t.slots[i] == if Displaces(fields, r, i) then Slot([]) else st.slots[i]
  {
    hide DecodeSlot, SkipField, RequiredBefore, IsSuffix;
    if k :| 0 <= k < |fields| && fields[k].tag == r.tag && fields[k].rule == fields[i].rule {
      IndexOfTag(fields, k);
    }
  }

  /** The count that a record of a fixed-count array starts from. */
  function CountFor(i: nat, st: State): nat {
    if st.fixed == Some(i) then st.count else 0
  }

  lemma OwnRecord(fields: seq<Field>, r: Record, st: State, t: State, i: nat)
    requires WellFormedFields(fields) && |st.slots| == |fields| && i < |fields| && Perform(fields, r, st) == Some(t)
    requires r.tag == fields[i].tag
    ensures var f := fields[i];
            var count := if f.rule.FixedCount? then CountFor(i, st) else st.count;
            && DecodeSlot(f, r.wireType, st.slots[i], count, r.body) == Done((t.slots[i], t.count), [])
            && t.fixed == (if f.rule.FixedCount? then Some(i) else st.fixed)
  {
    hide DecodeSlot, SkipField, RequiredBefore, FieldIndex, IsSuffix;
    IndexOfTag(fields, i);
  }

  lemma ArrayAppends(f: Field, slot: Slot, count: nat, r: Record, after: Slot, count': nat)
    requires f.rule.Repeated?
    requires DecodeSlot(f, r.wireType, slot, count, r.body) == Done((after, count'), [])
    ensures var items := ItemsOf(f, r);
            items.Some? && after.vs == slot.vs + items.value && (items.value == [] || |after.vs| <= f.rule.max)
  {
    hide DecodeValue, DecodePacked, Delimited, Items, DefaultValue, IsSuffix;
    if r.wireType == 2 && Packable(f.ty) {
      PackedAppends(f.ty, slot.vs, f.rule.max, Delimited(r.body).value);
    }
  }

  lemma ArrayFills(f: Field, slot: Slot, count: nat, r: Record, after: Slot, count': nat)
    requires f.rule.FixedCount?
    requires DecodeSlot(f, r.wireType, slot, count, r.body) == Done((after, count'), [])
    ensures var items := ItemsOf(f, r);
            && items.Some? && after.vs == Fill(slot.vs, count, items.value) && count' == count + |items.value|
            && (items.value == [] || count' <= |slot.vs|)
  {
    hide DecodeValue, DecodePackedFixed, Delimited, Items, DefaultValue, IsSuffix;
    if r.wireType == 2 && Packable(f.ty) {
      PackedFills(f.ty, slot.vs, count, Delimited(r.body).value);
    }
  }

  /* ---- What all records do to one field ---- */

  /** A field depends on its own records and on those of its union only. */
  lemma {:induction false} Untouched(fields: seq<Field>, rs: seq<Record>, st: State, t: State, i: nat)
    requires WellFormedFields(fields) && |st.slots| == |fields| && i < |fields| && PerformAll(fields, rs, st) == Some(t)
    requires forall r :: r in rs ==> !Touches(fields, r, i)
    ensures t.slots[i] == st.slots[i]
    decreases |rs|
  {
    hide Perform, Displaces, WellFormedFields;
    if rs != [] {
      var u := Perform(fields, rs[0], st).value;
      assert rs[0] in rs && !Touches(fields, rs[0], i) && forall r :: r in rs[1..] ==> r in rs;
      Elsewhere(fields, rs[0], st, u, i);
      Untouched(fields, rs[1..], u, t, i);
    }
  }

  /** The states around one of the records. */
  lemma Around(fields: seq<Field>, p: seq<Record>, r: Record, q: seq<Record>, st: State, t: State) returns (u: State, w: State)
    requires |st.slots| == |fields| && PerformAll(fields, p + [r] + q, st) == Some(t)
    ensures PerformAll(fields, p, st) == Some(u) && |u.slots| == |fields| && Perform(fields, r, u) == Some(w)
    ensures |w.slots| == |fields| && PerformAll(fields, q, w) == Some(t)
  {
    hide Perform;
    assert p + [r] + q == p + ([r] + q) && ([r] + q)[1..] == q;
    PerformConcat(fields, p, [r] + q, st);
    u := PerformAll(fields, p, st).value;
    w := Perform(fields, r, u).value;
  }

  /** The last record of a scalar or a string wins: the field has its value, whatever came before. */
  lemma LastWins(fields: seq<Field>, p: seq<Record>, r: Record, q: seq<Record>, st: State, t: State, i: nat) returns (v: Value)
    requires WellFormedFields(fields) && |st.slots| == |fields| && i < |fields| && PerformAll(fields, p + [r] + q, st) == Some(t)
    requires r.tag == fields[i].tag && forall x :: x in q ==> !Touches(fields, x, i)
    requires !fields[i].rule.Repeated? && !fields[i].rule.FixedCount? && !fields[i].ty.Submessage?
    ensures t.slots[i] == Slot([v]) && forall cur :: DecodeValue(fields[i].ty, cur, r.body) == Done(v, [])
  {
    hide Perform, PerformAll, DecodeValue, WellFormedFields, Touches;
    var u, w := Around(fields, p, r, q, st, t);
    OwnRecord(fields, r, u, w, i);
    Untouched(fields, q, w, t, i);
    v := w.slots[i].vs[0];
    var before := if u.slots[i].vs == [] then DefaultValue(fields[i].ty) else u.slots[i].vs[0];
    forall cur ensures DecodeValue(fields[i].ty, cur, r.body) == Done(v, []) {
      CurrentIgnored(fields[i].ty, cur, before, r.body);
    }
  }

  /** The submessage that a slot holds, or a fresh one. */
  function Held(sub: seq<Field>, slot: Slot): (r: seq<Slot>)
    ensures |r| == |sub|
  {
    if slot.vs != [] && slot.vs[0].Struct? && |slot.vs[0].slots| == |sub| then slot.vs[0].slots else DefaultsFrom(sub, 0)
  }

  /** The record of a submessage is merged into what the records before it have left. */
  lemma SubmessagesMerge(fields: seq<Field>, p: seq<Record>, r: Record, q: seq<Record>, st: State, u: State, t: State, i: nat)
    requires WellFormedFields(fields) && |st.slots| == |fields| && i < |fields| && PerformAll(fields, p + [r] + q, st) == Some(t)
    requires PerformAll(fields, p, st) == Some(u)
    requires r.tag == fields[i].tag && forall x :: x in q ==> !Touches(fields, x, i)
    requires !fields[i].rule.Repeated? && !fields[i].rule.FixedCount? && fields[i].ty.Submessage?
    ensures var sub := fields[i].ty.fields;
            var d := Delimited(r.body);
            && d.Done? && d.rest == []
            && var m := DecodeMessage(sub, d.value, Held(sub, u.slots[i]));
               m.Done? && t.slots[i] == Slot([Struct(m.value)])
  {
    hide Perform, PerformAll, DecodeMessage, Delimited, WellFormedFields, Touches, DefaultsFrom;
    var u', w := Around(fields, p, r, q, st, t);
    OwnRecord(fields, r, u, w, i);
    Untouched(fields, q, w, t, i);
  }

  /** A record of another member of the union leaves the field without a value. */
  lemma UnionMemberDisplaced(fields: seq<Field>, p: seq<Record>, r: Record, q: seq<Record>, st: State, t: State, i: nat)
    requires WellFormedFields(fields) && |st.slots| == |fields| && i < |fields| && PerformAll(fields, p + [r] + q, st) == Some(t)
    requires Displaces(fields, r, i) && forall x :: x in q ==> !Touches(fields, x, i)
    ensures t.slots[i] == Slot([])
  {
    hide Perform, PerformAll, WellFormedFields, Touches;
    var u, w := Around(fields, p, r, q, st, t);
    Elsewhere(fields, r, u, w, i);
    Untouched(fields, q, w, t, i);
  }

  /** An array has what it had and behind that the values of all its records in order, if there is room. */
  lemma {:induction false} ArraysAppend(fields: seq<Field>, rs: seq<Record>, st: State, t: State, i: nat)
    requires WellFormedFields(fields) && |st.slots| == |fields| && i < |fields| && PerformAll(fields, rs, st) == Some(t)
    requires fields[i].rule.Repeated?
    ensures t.slots[i].vs == st.slots[i].vs + AllItems(fields[i], rs)
    ensures |t.slots[i].vs| <= fields[i].rule.max || AllItems(fields[i], rs) == []
    ensures forall r :: r in rs && r.tag == fields[i].tag ==> ItemsOf(fields[i], r).Some?
    decreases |rs|
  {
    hide Perform, ItemsOf, DecodeSlot, WellFormedFields;
    var f := fields[i];
    if rs != [] {
      var u := Perform(fields, rs[0], st).value;
      if rs[0].tag == f.tag {
        OwnRecord(fields, rs[0], st, u, i);
        ArrayAppends(f, st.slots[i], st.count, rs[0], u.slots[i], u.count);
      } else {
        Elsewhere(fields, rs[0], st, u, i);
      }
      ArraysAppend(fields, rs[1..], u, t, i);
    }
  }

  /* ---- Fixed-count arrays ---- */

  /** The record is one of a fixed-count array other than field `i`. */
  ghost predicate OtherFixed(fields: seq<Field>, r: Record, i: nat) {
    exists k :: 0 <= k < |fields| && k != i && fields[k].rule.FixedCount? && r.tag == fields[k].tag
  }

  /** Records of no fixed-count array leave alone which one is under way. */
  lemma NotFixed(fields: seq<Field>, r: Record, st: State, t: State, i: nat)
    requires WellFormedFields(fields) && |st.slots| == |fields| && i < |fields| && Perform(fields, r, st) == Some(t)
    requires r.tag != fields[i].tag && !OtherFixed(fields, r, i)
    ensures t.fixed == st.fixed && t.count == st.count
  {
    hide SkipField, RequiredBefore, IsSuffix, DecodeSlot;
    var found := FieldIndex(fields, r.tag);
    if found.Some? {
      CountKept(fields[found.value], r.wireType, ClearUnion(fields, st.slots, found.value)[found.value], st.count, r.body);
    }
  }

  lemma CountKept(f: Field, wireType: nat, slot: Slot, count: nat, s: Bytes)
    requires !f.rule.FixedCount? && DecodeSlot(f, wireType, slot, count, s).Done?
    ensures DecodeSlot(f, wireType, slot, count, s).value.1 == count
  {
    hide DecodeValue, DecodePacked, Delimited, DefaultValue, IsSuffix;
  }

  lemma SwitchFixed(fields: seq<Field>, r: Record, st: State, t: State, i: nat)
    requires WellFormedFields(fields) && |st.slots| == |fields| && i < |fields| && Perform(fields, r, st) == Some(t)
    requires OtherFixed(fields, r, i)
    ensures t.fixed != Some(i) && (st.fixed == Some(i) ==> FixedComplete(fields, st))
  {
    hide SkipField, RequiredBefore, IsSuffix, DecodeSlot, WellFormedField;
    var k :| 0 <= k < |fields| && k != i && fields[k].rule.FixedCount? && r.tag == fields[k].tag;
    IndexOfTag(fields, k);
  }

  /** Records of a fixed-count array, with none of another one between them, fill it from the front. */
  lemma {:induction false} RunFills(fields: seq<Field>, rs: seq<Record>, st: State, t: State, i: nat)
    requires WellFormedFields(fields) && |st.slots| == |fields| && i < |fields| && PerformAll(fields, rs, st) == Some(t)
    requires fields[i].rule.FixedCount? && forall r :: r in rs ==> !OtherFixed(fields, r, i)
    ensures !HasRecord(rs, fields[i].tag) ==> t.fixed == st.fixed && t.count == st.count && AllItems(fields[i], rs) == []
    ensures HasRecord(rs, fields[i].tag) ==> t.fixed == Some(i) && t.count == CountFor(i, st) + |AllItems(fields[i], rs)|
    ensures t.slots[i].vs == Fill(st.slots[i].vs, CountFor(i, st), AllItems(fields[i], rs))
    ensures AllItems(fields[i], rs) == [] || CountFor(i, st) + |AllItems(fields[i], rs)| <= |st.slots[i].vs|
    decreases |rs|
  {
    hide Perform, ItemsOf, DecodeSlot, WellFormedFields, OtherFixed, Fill, Displaces;
    var f, vs, c := fields[i], st.slots[i].vs, CountFor(i, st);
    if rs == [] {
      NoneFilled(vs, c);
    } else {
      var r, more := rs[0], AllItems(fields[i], rs[1..]);
      assert r in rs && forall x :: x in rs <==> x == r || x in rs[1..];
      var u := Perform(fields, r, st).value;
      if r.tag == f.tag {
        OwnRecord(fields, r, st, u, i);
        ArrayFills(f, st.slots[i], c, r, u.slots[i], u.count);
        FillOnward(vs, c, ItemsOf(f, r).value, more);
      } else {
        assert !Displaces(fields, r, i) by {
          NoDisplacing(fields, r, i);
        }
        Elsewhere(fields, r, st, u, i);
        NotFixed(fields, r, st, u, i);
        assert AllItems(f, rs) == more;
      }
      RunFills(fields, rs[1..], u, t, i);
    }
  }

  lemma NoDisplacing(fields: seq<Field>, r: Record, i: nat)
    requires i < |fields| && !fields[i].rule.OneOf?
    ensures !Displaces(fields, r, i)
  {
  }

  lemma FillOnward(vs: seq<Value>, at: nat, items: seq<Value>, more: seq<Value>)
    requires items == [] || at + |items| <= |vs|
    ensures more == [] || at + |items| + |more| <= |vs| ==> Fill(Fill(vs, at, items), at + |items|, more) == Fill(vs, at, items + more)
  {
    if items == [] {
      assert items + more == more;
    } else if more == [] {
      assert items + more == items;
    } else if at + |items| + |more| <= |vs| {
      var once := vs[..at] + items + vs[at + |items|..];
      assert once[..at + |items|] == vs[..at] + items && once[at + |items| + |more|..] == vs[at + |items| + |more|..];
      assert vs[..at] + items + more == vs[..at] + (items + more);
    }
  }

  /**
    A stretch `q` of the records that no other fixed-count array interrupts, and that starts and ends with the
    input or at another such array, has exactly as many values as the array has items; the last one is its contents.
   */
  lemma FixedCountIsExact(fields: seq<Field>, p: seq<Record>, q: seq<Record>, x: seq<Record>, st: State, t: State, i: nat)
    requires WellFormedFields(fields) && |st.slots| == |fields| && i < |fields| && fields[i].rule.FixedCount?
    requires st.fixed == None && |st.slots[i].vs| == fields[i].rule.count
    requires PerformAll(fields, p + q + x, st) == Some(t) && FixedComplete(fields, t)
    requires HasRecord(q, fields[i].tag) && forall r :: r in q ==> !OtherFixed(fields, r, i)
    requires p == [] || OtherFixed(fields, p[|p| - 1], i)
    requires x == [] || OtherFixed(fields, x[0], i)
    ensures |AllItems(fields[i], q)| == fields[i].rule.count
    ensures !HasRecord(x, fields[i].tag) ==> t.slots[i].vs == AllItems(fields[i], q)
  {
    hide Perform, OtherFixed, WellFormedFields, Fill, AllItems, Displaces;
    assert p + q + x == p + (q + x);
    PerformConcat(fields, p, q + x, st);
    var u := PerformAll(fields, p, st).value;
    PerformConcat(fields, q, x, u);
    var w := PerformAll(fields, q, u).value;
    NotUnderWay(fields, p, st, u, i);
    SameSize(fields, p, st, u, i);
    RunFills(fields, q, u, w, i);
    if x != [] {
      SwitchFixed(fields, x[0], w, Perform(fields, x[0], w).value, i);
    }
    FilledWhole(u.slots[i].vs, AllItems(fields[i], q));
    if !HasRecord(x, fields[i].tag) {
      NoDisplacingAny(fields, i);
      Untouched(fields, x, w, t, i);
    }
  }

  lemma NoDisplacingAny(fields: seq<Field>, i: nat)
    requires i < |fields| && !fields[i].rule.OneOf?
    ensures forall r :: !Displaces(fields, r, i)
  {
  }

  lemma FilledWhole(vs: seq<Value>, items: seq<Value>)
    requires |items| == |vs|
    ensures Fill(vs, 0, items) == items
  {
  }

  lemma {:induction false} NotUnderWay(fields: seq<Field>, p: seq<Record>, st: State, u: State, i: nat)
    requires WellFormedFields(fields) && |st.slots| == |fields| && i < |fields| && PerformAll(fields, p, st) == Some(u)
    requires if p == [] then st.fixed != Some(i) else OtherFixed(fields, p[|p| - 1], i)
    ensures u.fixed != Some(i)
  {
    hide Perform, OtherFixed, WellFormedFields;
    if p != [] {
      var n := |p| - 1;
      assert p == p[..n] + [p[n]] && [p[n]][1..] == [];
      PerformConcat(fields, p[..n], [p[n]], st);
      SwitchFixed(fields, p[n], PerformAll(fields, p[..n], st).value, u, i);
    }
  }

  lemma {:induction false} SameSize(fields: seq<Field>, rs: seq<Record>, st: State, t: State, i: nat)
    requires WellFormedFields(fields) && |st.slots| == |fields| && i < |fields| && PerformAll(fields, rs, st) == Some(t)
    requires fields[i].rule.FixedCount?
    ensures |t.slots[i].vs| == |st.slots[i].vs|
    decreases |rs|
  {
    hide Perform, DecodeSlot, ItemsOf, WellFormedFields, Displaces;
    if rs != [] {
      var u := Perform(fields, rs[0], st).value;
      if rs[0].tag == fields[i].tag {
        OwnRecord(fields, rs[0], st, u, i);
        ArrayFills(fields[i], st.slots[i], CountFor(i, st), rs[0], u.slots[i], u.count);
      } else {
        NoDisplacing(fields, rs[0], i);
        Elsewhere(fields, rs[0], st, u, i);
      }
      SameSize(fields, rs[1..], u, t, i);
    }
  }

  /* ---- Inputs decoded one after the other ---- */

  /** `a` has seen what `b` has, and counts the same array or one that is full and has no more records. */
  ghost predicate Ahead(fields: seq<Field>, rs: seq<Record>, a: State, b: State) {
    && |a.slots| == |fields| && a.slots == b.slots && b.seen <= a.seen
    && ((a.fixed == b.fixed && a.count == b.count) ||
        (b.fixed == None && FixedComplete(fields, a) && a.fixed.Some? && a.fixed.value < |fields| &&
         fields[a.fixed.value].rule.FixedCount? && !HasRecord(rs, fields[a.fixed.value].tag)))
  }

  lemma AheadStep(fields: seq<Field>, rs: seq<Record>, a: State, b: State)
    requires WellFormedFields(fields) && rs != [] && Ahead(fields, rs, a, b) && Perform(fields, rs[0], b).Some?
    ensures Perform(fields, rs[0], a).Some?
    ensures Ahead(fields, rs[1..], Perform(fields, rs[0], a).value, Perform(fields, rs[0], b).value)
  {
    hide DecodeSlot, SkipField, RequiredBefore, IsSuffix, FieldIndex;
    var r := rs[0];
    var found := FieldIndex(fields, r.tag);
    assert r in rs && forall x :: x in rs[1..] ==> x in rs;
    if found.Some? && !fields[found.value].rule.FixedCount? {
      var f, slot := fields[found.value], ClearUnion(fields, a.slots, found.value)[found.value];
      CountIgnored(f, r.wireType, slot, a.count, b.count, r.body);
    }
  }

  lemma CountIgnored(f: Field, wireType: nat, slot: Slot, count: nat, count': nat, s: Bytes)
    requires !f.rule.FixedCount?
    ensures var d, d' := DecodeSlot(f, wireType, slot, count, s), DecodeSlot(f, wireType, slot, count', s);
            if d.Fail? then d'.Fail? else d' == Done((d.value.0, count'), d.rest) && d.value.1 == count
  {
    hide DecodeValue, DecodePacked, Delimited, DefaultValue, IsSuffix;
  }

  lemma {:induction false} AheadToTheEnd(fields: seq<Field>, rs: seq<Record>, a: State, b: State)
    requires WellFormedFields(fields) && Ahead(fields, rs, a, b) && PerformAll(fields, rs, b).Some?
    ensures PerformAll(fields, rs, a).Some?
    ensures Ahead(fields, [], PerformAll(fields, rs, a).value, PerformAll(fields, rs, b).value)
    decreases |rs|
  {
    hide Perform, WellFormedFields, Ahead, FixedComplete;
    if rs != [] {
      AheadSlots(fields, rs, a, b);
      AheadStep(fields, rs, a, b);
      AheadSlots(fields, rs[1..], Perform(fields, rs[0], a).value, Perform(fields, rs[0], b).value);
      AheadToTheEnd(fields, rs[1..], Perform(fields, rs[0], a).value, Perform(fields, rs[0], b).value);
    }
  }

  lemma AheadSlots(fields: seq<Field>, rs: seq<Record>, a: State, b: State)
    requires Ahead(fields, rs, a, b)
    ensures |a.slots| == |b.slots| == |fields|
  {
  }

  /** No fixed-count array has records in both lists. */
  ghost predicate NoneContinued(fields: seq<Field>, rs: seq<Record>, qs: seq<Record>) {
    forall i :: 0 <= i < |fields| && fields[i].rule.FixedCount? && HasRecord(rs, fields[i].tag) ==> !HasRecord(qs, fields[i].tag)
  }

  lemma {:induction false} UnderWayHasRecord(fields: seq<Field>, rs: seq<Record>, st: State, t: State)
    requires WellFormedFields(fields) && |st.slots| == |fields| && PerformAll(fields, rs, st) == Some(t)
    ensures t.fixed == st.fixed ||
            (t.fixed.Some? && t.fixed.value < |fields| && fields[t.fixed.value].rule.FixedCount? && HasRecord(rs, fields[t.fixed.value].tag))
    decreases |rs|
  {
    hide DecodeSlot, SkipField, RequiredBefore, IsSuffix;
    if rs != [] {
      var u := Perform(fields, rs[0], st).value;
      assert rs[0] in rs && forall x :: x in rs[1..] ==> x in rs;
      UnderWayHasRecord(fields, rs[1..], u, t);
    }
  }

  /** While no fixed-count array is under way nothing is counted. */
  lemma {:induction false} NoneCounted(fields: seq<Field>, rs: seq<Record>, st: State, t: State)
    requires |st.slots| == |fields| && PerformAll(fields, rs, st) == Some(t) && t.fixed == None
    ensures st.fixed == None && t.count == st.count
    decreases |rs|
  {
    hide DecodeSlot, SkipField, RequiredBefore, IsSuffix;
    if rs != [] {
      var r, u := rs[0], Perform(fields, rs[0], st).value;
      NoneCounted(fields, rs[1..], u, t);
      var found := FieldIndex(fields, r.tag);
      if found.Some? {
        CountKept(fields[found.value], r.wireType, ClearUnion(fields, st.slots, found.value)[found.value], st.count, r.body);
      }
    }
  }

  /**
    Decoding into a message one input and then another gives what decoding both together gives, as long as no
    fixed-count array goes on from one to the other.
   */
  lemma MergeInputs(fields: seq<Field>, a: Bytes, b: Bytes, slots: seq<Slot>, x: seq<Slot>, y: seq<Slot>, rest: Bytes)
    requires WellFormedFields(fields) && |slots| == |fields| == |x| && Whole(fields, a) && Split(fields, b).Some?
    requires NoneContinued(fields, Split(fields, a).value.records, Split(fields, b).value.records)
    requires DecodeMessage(fields, a, slots) == Done(x, []) && DecodeMessage(fields, b, x) == Done(y, rest)
    ensures DecodeMessage(fields, a + b, slots) == Done(y, rest)
  {
    hide Split, PerformAll, DecodeLoop, DecodeMessage, WellFormedFields, NoneContinued, FixedComplete, RequiredSeen, Ahead;
    var clean := State(x, {}, None, 0);
    var rs, qs := Split(fields, a).value.records, Split(fields, b).value.records;
    DecodeConcat(fields, a, b, State(slots, {}, None, 0));
    var u := Ended(fields, a, slots, x, []);
    var v := Ended(fields, b, x, y, rest);
    StartsAhead(fields, rs, qs, State(slots, {}, None, 0), u, clean);
    AheadToTheEnd(fields, qs, u, clean);
    var w := PerformAll(fields, qs, u).value;
    EndsAhead(fields, w, v);
    LoopPerforms(fields, b, u);
    MessageOf(fields, a + b, slots, w, rest);
  }

  /** The state in which a successful decoding ends. */
  lemma Ended(fields: seq<Field>, s: Bytes, slots: seq<Slot>, x: seq<Slot>, rest: Bytes) returns (u: State)
    requires |slots| == |fields| && DecodeMessage(fields, s, slots) == Done(x, rest)
    ensures u.slots == x && |x| == |fields| && FixedComplete(fields, u) && RequiredSeen(fields, u.seen)
    ensures Split(fields, s).Some? && Split(fields, s).value.rest == rest
    ensures PerformAll(fields, Split(fields, s).value.records, State(slots, {}, None, 0)) == Some(u)
    ensures DecodeLoop(fields, s, State(slots, {}, None, 0)) == Done(u, rest)
  {
    hide Split, PerformAll, DecodeLoop, FixedComplete, RequiredSeen;
    u := DecodeLoop(fields, s, State(slots, {}, None, 0)).value;
    LoopPerforms(fields, s, State(slots, {}, None, 0));
  }

  lemma MessageOf(fields: seq<Field>, s: Bytes, slots: seq<Slot>, t: State, rest: Bytes)
    requires |slots| == |fields| && DecodeLoop(fields, s, State(slots, {}, None, 0)) == Done(t, rest)
    requires FixedComplete(fields, t) && RequiredSeen(fields, t.seen)
    ensures DecodeMessage(fields, s, slots) == Done(t.slots, rest)
  {
    hide DecodeLoop, FixedComplete, RequiredSeen;
  }

  lemma StartsAhead(fields: seq<Field>, rs: seq<Record>, qs: seq<Record>, st: State, u: State, clean: State)
    requires WellFormedFields(fields) && |st.slots| == |fields| && PerformAll(fields, rs, st) == Some(u)
    requires st.fixed == None && FixedComplete(fields, u) && NoneContinued(fields, rs, qs) && |u.slots| == |fields|
    requires st.count == 0 && clean == State(u.slots, {}, None, 0)
    ensures Ahead(fields, qs, u, clean)
  {
    hide WellFormedFields, HasRecord, Perform;
    UnderWayHasRecord(fields, rs, st, u);
    if u.fixed == None {
      NoneCounted(fields, rs, st, u);
    }
  }

  lemma EndsAhead(fields: seq<Field>, a: State, b: State)
    requires Ahead(fields, [], a, b) && FixedComplete(fields, b) && RequiredSeen(fields, b.seen)
    ensures a.slots == b.slots && FixedComplete(fields, a) && RequiredSeen(fields, a.seen)
  {
    hide HasRecord, RequiredBefore;
  }
}
