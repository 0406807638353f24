/**
  Table blocks as bytes: prefix-compressed entries, an array of restart points, its length.
 */
module BlockFormat {
  import opened Wrappers
  import opened ByteCoding

  datatype Entry = Entry(key: Bytes, value: Bytes)

  /** An opened block: the bytes of its entries and its restart points. */
  datatype Block = Block(data: Bytes, restarts: seq<nat>)

  /** How a block came about: its entries, where each starts, what each shares, and which are restart points. */
  datatype Shape = Shape(entries: seq<Entry>, starts: seq<nat>, shares: seq<nat>, marks: seq<nat>)

  /* ---- One entry ---- */

  function EncodeEntry(shared: nat, e: Entry): (r: Bytes)
    requires shared <= |e.key|
    ensures |r| >= 3
  {
    Varint(shared) + Varint(|e.key| - shared) + Varint(|e.value|) + e.key[shared..] + e.value
  }

  lemma EntryBytes(shared: nat, e: Entry)
    requires shared <= |e.key|
    ensures EncodeEntry(shared, e) ==
            Varint(shared) + Varint(|e.key| - shared) + Varint(|e.value|) + e.key[shared..] + e.value
  {
  }

  /** The three lengths of an entry, and where its key bytes start. */
  datatype Lengths = Lengths(shared: nat, nonShared: nat, value: nat, delta: nat)

  function ReadLengths(s: Bytes): (r: Option<Lengths>)
    ensures r.Some? ==> 3 <= r.value.delta <= |s|
  {
    if |s| < 3 then None
    else if s[0] < 128 && s[1] < 128 && s[2] < 128 then Some(Lengths(s[0], s[1], s[2], 3))
    else
      var a := GetVarint32Ptr(s);
      if a.None? then None
      else
        var t := s[a.value.used..];
        var b := GetVarint32Ptr(t);
        if b.None? then None
        else
          var u := t[b.value.used..];
          var c := GetVarint32Ptr(u);
          if c.None? then None
          else Some(Lengths(a.value.value, b.value.value, c.value.value, a.value.used + b.value.used + c.value.used))
  }

  /** The entry at `p`, if its lengths can be read and its bytes are there. */
  function DecodeEntry(data: Bytes, p: nat): (r: Option<Lengths>)
    ensures r.Some? ==> p + 3 <= r.value.delta && r.value.delta + r.value.nonShared + r.value.value <= |data|
  {
    if p > |data| then None
    else
      var r := ReadLengths(data[p..]);
      if r.None? || |data| - p - r.value.delta < r.value.nonShared + r.value.value then None
      else Some(r.value.(delta := p + r.value.delta))
  }

  datatype Parsed = Parsed(entry: Entry, next: nat)

  /** The entry at `p`, given the key before it. */
  function ParseEntry(data: Bytes, p: nat, previous: Bytes): (r: Option<Parsed>)
    ensures r.Some? ==> p < r.value.next <= |data|
  {
    var d := DecodeEntry(data, p);
    if d.None? || |previous| < d.value.shared then None
    else
      var Lengths(shared, nonShared, length, delta) := d.value;
      var end := delta + nonShared;
      Some(Parsed(Entry(previous[..shared] + data[delta..end], data[end..end + length]), end + length))
  }

  lemma VarintHead(n: nat)
    ensures Varint(n)[0] < 128 <==> n < 128
    ensures n < 128 ==> Varint(n) == [n]
  {
  }

  /** Lengths written are lengths read, on the fast path and on the slow one. */
  lemma ReadLengthsInverts(a: nat, b: nat, c: nat, rest: Bytes)
    requires a < TWO_32 && b < TWO_32 && c < TWO_32
    ensures var s := Varint(a) + Varint(b) + Varint(c);
            ReadLengths(s + rest) == Some(Lengths(a, b, c, |s|))
  {
    hide Varint, ReadLengths;
    var s3 := Varint(c) + rest;
    var s2 := Varint(b) + s3;
    var s := Varint(a) + s2;
    assert s == Varint(a) + Varint(b) + Varint(c) + rest;
    ReadLengthsOf(a, b, c, s, s2, s3, rest);
  }

  lemma ReadLengthsOf(a: nat, b: nat, c: nat, s: Bytes, s2: Bytes, s3: Bytes, rest: Bytes)
    requires a < TWO_32 && b < TWO_32 && c < TWO_32
    requires s == Varint(a) + s2 && s2 == Varint(b) + s3 && s3 == Varint(c) + rest
    ensures ReadLengths(s) == Some(Lengths(a, b, c, |Varint(a)| + |Varint(b)| + |Varint(c)|))
  {
    hide GetVarint32Ptr, Varint;
    VarintHead(a);
    VarintHead(b);
    VarintHead(c);
    GetVarint32PtrInverts(a, s2);
    GetVarint32PtrInverts(b, s3);
    GetVarint32PtrInverts(c, rest);
    assert s[|Varint(a)|..] == s2 && s2[|Varint(b)|..] == s3;
    if a >= 128 || b >= 128 || c >= 128 {
      SlowPath(a, b, c, s, s2, s3);
    }
  }

  /** Three bytes below 128 would be three whole varints. */
  lemma SlowPath(a: nat, b: nat, c: nat, s: Bytes, s2: Bytes, s3: Bytes)
    requires s == Varint(a) + s2 && s2 == Varint(b) + s3 && |s3| > 0 && s3[0] == Varint(c)[0]
    requires a >= 128 || b >= 128 || c >= 128
    ensures |s| >= 3 && !(s[0] < 128 && s[1] < 128 && s[2] < 128)
  {
    hide Varint;
    VarintHead(a);
    VarintHead(b);
    VarintHead(c);
  }

  /** Wherever an entry is stored its lengths are decoded as they were written, and its bytes are found. */
  lemma DecodeInverts(data: Bytes, p: nat, q: nat, shared: nat, e: Entry)
    requires shared <= |e.key| < TWO_32 && |e.value| < TWO_32
    requires p <= q <= |data| && data[p..q] == EncodeEntry(shared, e)
    ensures var delta := q - |e.value| - (|e.key| - shared);
            && p <= delta && DecodeEntry(data, p) == Some(Lengths(shared, |e.key| - shared, |e.value|, delta))
            && data[delta..q - |e.value|] == e.key[shared..] && data[q - |e.value|..q] == e.value
  {
    hide Varint, ReadLengths;
    var lengths := Varint(shared) + Varint(|e.key| - shared) + Varint(|e.value|);
    var body := e.key[shared..] + e.value;
    ReadLengthsInverts(shared, |e.key| - shared, |e.value|, body + data[q..]);
    assert EncodeEntry(shared, e) == lengths + e.key[shared..] + e.value;
    ThreeParts(data, p, q, lengths, e.key[shared..], e.value);
  }

  lemma ThreeParts(data: Bytes, p: nat, q: nat, a: Bytes, b: Bytes, c: Bytes)
    requires p <= q <= |data| && data[p..q] == a + b + c
    ensures data[p..] == a + (b + c + data[q..])
    ensures q == p + |a| + |b| + |c| && data[p + |a|..q - |c|] == b && data[q - |c|..q] == c
  {
    assert data[p..] == data[p..q] + data[q..];
    assert data[p + |a|..q - |c|] == data[p..q][|a|..|a| + |b|];
    assert data[q - |c|..q] == data[p..q][|a| + |b|..];
  }

  lemma ParseInverts(data: Bytes, p: nat, q: nat, shared: nat, e: Entry, previous: Bytes)
    requires shared <= |e.key| < TWO_32 && |e.value| < TWO_32
    requires p <= q <= |data| && data[p..q] == EncodeEntry(shared, e)
    requires shared <= |previous| && previous[..shared] == e.key[..shared]
    ensures ParseEntry(data, p, previous) == Some(Parsed(e, q))
  {
    hide EncodeEntry, DecodeEntry;
    DecodeInverts(data, p, q, shared, e);
    assert e.key == e.key[..shared] + e.key[shared..];
  }

  /* ---- A whole block ---- */

  function Previous(s: Shape, i: nat): Bytes
    requires i <= |s.entries|
  {
    if i == 0 then [] else s.entries[i - 1].key
  }

  ghost predicate EntryLaid(data: Bytes, s: Shape, i: nat)
    requires |s.starts| == |s.entries| + 1 && |s.shares| == |s.entries| && i < |s.entries|
  {
    var e, shared, previous := s.entries[i], s.shares[i], Previous(s, i);
    && shared <= |e.key| < TWO_32 && |e.value| < TWO_32
    && shared <= |previous| && previous[..shared] == e.key[..shared]
    && s.starts[i] <= s.starts[i + 1] <= |data|
    && data[s.starts[i]..s.starts[i + 1]] == EncodeEntry(shared, e)
  }

  ghost predicate EntriesLaid(data: Bytes, s: Shape) {
    && |s.starts| == |s.entries| + 1 && |s.shares| == |s.entries|
    && s.starts[0] == 0 && s.starts[|s.entries|] == |data|
    && (forall i, j :: 0 <= i < j < |s.starts| ==> s.starts[i] < s.starts[j])
    && (forall i :: 0 <= i < |s.entries| ==> EntryLaid(data, s, i))
  }

  /** The first entry is a restart point; restart points ascend and share nothing with the key before. */
  ghost predicate RestartsLaid(restarts: seq<nat>, s: Shape)
    requires |s.starts| == |s.entries| + 1 && |s.shares| == |s.entries|
  {
    && |restarts| == |s.marks| > 0 && s.marks[0] == 0
    && (forall r :: 0 <= r < |s.marks| ==> s.marks[r] < |s.starts| && restarts[r] == s.starts[s.marks[r]])
    && (forall r :: 0 <= r < |s.marks| ==> s.marks[r] < |s.entries| || s.entries == [])
    && (forall r :: 0 <= r < |s.marks| ==> s.marks[r] < |s.entries| ==> s.shares[s.marks[r]] == 0)
    && (forall r, t :: 0 <= r < t < |s.marks| ==> s.marks[r] < s.marks[t])
  }

  ghost predicate Laid(b: Block, s: Shape) {
    EntriesLaid(b.data, s) && RestartsLaid(b.restarts, s)
  }

  /** An entry of a block parses after the key before it, and after no key at all if it is a restart point. */
  lemma ParseAt(b: Block, s: Shape, i: nat, previous: Bytes)
    requires Laid(b, s) && i < |s.entries| && (previous == Previous(s, i) || s.shares[i] == 0)
    ensures ParseEntry(b.data, s.starts[i], previous) == Some(Parsed(s.entries[i], s.starts[i + 1]))
  {
    hide EncodeEntry, DecodeEntry, ParseEntry, RestartsLaid;
    assert EntryLaid(b.data, s, i);
    assert previous[..s.shares[i]] == s.entries[i].key[..s.shares[i]];
    ParseInverts(b.data, s.starts[i], s.starts[i + 1], s.shares[i], s.entries[i], previous);
  }

  /** At a restart point the key itself is stored. */
  lemma RestartKey(b: Block, s: Shape, r: nat)
    requires Laid(b, s) && s.entries != [] && r < |s.marks|
    ensures var d := DecodeEntry(b.data, b.restarts[r]);
            && d.Some? && d.value.shared == 0
            && b.data[d.value.delta..d.value.delta + d.value.nonShared] == s.entries[s.marks[r]].key
  {
    hide EncodeEntry, DecodeEntry, ParseEntry;
    var i := s.marks[r];
    assert EntryLaid(b.data, s, i);
    DecodeInverts(b.data, s.starts[i], s.starts[i + 1], 0, s.entries[i]);
  }

  /** One more entry at the end of a block leaves those before it where they are. */
  lemma EntryAdded(data: Bytes, s: Shape, e: Entry, shared: nat, more: Bytes, t: Shape)
    requires EntriesLaid(data, s) && |e.key| < TWO_32 && |e.value| < TWO_32
    requires shared <= |e.key| && shared <= |Previous(s, |s.entries|)|
    requires Previous(s, |s.entries|)[..shared] == e.key[..shared] && more == EncodeEntry(shared, e)
    requires t.entries == s.entries + [e] && t.shares == s.shares + [shared] && t.starts == s.starts + [|data| + |more|]
    ensures EntriesLaid(data + more, t)
  {
    hide EncodeEntry;
    var n := |s.entries|;
    assert (data + more)[|data|..|data| + |more|] == more;
    assert EntryLaid(data + more, t, n);
    forall i | 0 <= i < n
      ensures EntryLaid(data + more, t, i)
    {
      assert EntryLaid(data, s, i);
      assert (data + more)[s.starts[i]..s.starts[i + 1]] == data[s.starts[i]..s.starts[i + 1]];
    }
  }

  /* ---- The array of restart points ---- */

  /** Restart points as decoded: none if the block is too short for as many as it says. */
  function Open(contents: Bytes): (r: Option<Block>) {
    var size := |contents|;
    if size < 4 then None
    else
      var num := NumRestarts(contents);
      if num > (size - 4) / 4 then None
      else
        var offset: nat := size - (1 + num) * 4;
        Some(Block(contents[..offset], seq(num, i requires 0 <= i < num => RestartPoint(contents, offset, i))))
  }

  function NumRestarts(contents: Bytes): nat
    requires |contents| >= 4
  {
    ReadFixed(contents[|contents| - 4..])
  }

  function RestartPoint(contents: Bytes, offset: nat, i: nat): nat
    requires offset + 4 * i + 4 <= |contents|
  {
    ReadFixed(contents[offset + 4 * i..offset + 4 * i + 4])
  }

  /** A finished block opens as what it was built from. */
  lemma OpenInverts(data: Bytes, restarts: seq<nat>)
    requires |restarts| < TWO_32 && forall r :: 0 <= r < |restarts| ==> restarts[r] < TWO_32
    ensures Open(data + FixedArray(restarts) + Fixed(|restarts|, 4)) == Some(Block(data, restarts))
  {
    hide Fixed, FixedArray, RestartPoint, NumRestarts, Open, TWO_32;
    var n, tail := |restarts|, Fixed(|restarts|, 4);
    var c := data + FixedArray(restarts) + tail;
    NumRestartsAt(data + FixedArray(restarts), n);
    forall i | 0 <= i < n
      ensures |data| + 4 * i + 4 <= |c| && RestartPoint(c, |data|, i) == restarts[i]
    {
      RestartPointAt(data, restarts, tail, i);
    }
    OpensAs(c, data, restarts);
  }

  lemma OpensAs(c: Bytes, data: Bytes, restarts: seq<nat>)
    requires |c| == |data| + 4 * |restarts| + 4 && c[..|data|] == data && NumRestarts(c) == |restarts|
    requires forall i :: 0 <= i < |restarts| ==> RestartPoint(c, |data|, i) == restarts[i]
    ensures Open(c) == Some(Block(data, restarts))
  {
    hide RestartPoint, NumRestarts;
    var b := Open(c);
    assert b.Some? && b.value.data == data;
    assert b.value.restarts == restarts;
  }

  lemma NumRestartsAt(before: Bytes, n: nat)
    requires n < TWO_32
    ensures NumRestarts(before + Fixed(n, 4)) == n
  {
    hide Fixed, ReadFixed;
    Powers256();
    FixedRoundTrip(n, 4);
    var c := before + Fixed(n, 4);
    assert c[|c| - 4..] == Fixed(n, 4);
  }

  lemma RestartPointAt(data: Bytes, restarts: seq<nat>, tail: Bytes, i: nat)
    requires i < |restarts| && restarts[i] < TWO_32
    ensures RestartPoint(data + FixedArray(restarts) + tail, |data|, i) == restarts[i]
  {
    hide Fixed, ReadFixed, FixedArray, TWO_32;
    var c, points := data + FixedArray(restarts) + tail, FixedArray(restarts);
    FixedArrayAt(restarts, i);
    assert c[|data| + 4 * i..|data| + 4 * i + 4] == points[4 * i..4 * i + 4];
  }
}
