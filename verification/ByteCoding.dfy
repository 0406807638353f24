/**
  Numbers as bytes: base-128 varints and fixed widths, least significant part first.
 */
module ByteCoding {
  import opened Wrappers

  type Byte = b: int | 0 <= b < 256
  type Bytes = seq<Byte>

  const TWO_32: nat := 0x1_0000_0000
  const TWO_63: int := 0x8000_0000_0000_0000
  const TWO_64: int := 0x1_0000_0000_0000_0000

  /* ---- Base 128 ---- */

  function Varint(n: nat): (r: Bytes)
    ensures |r| > 0
  {
    if n < 128 then [n] else [n % 128 + 128] + Varint(n / 128)
  }

  datatype Read = Read(value: nat, used: nat)

  /** A varint of at most `left` bytes. */
  function ReadVarint(s: Bytes, left: nat): (r: Option<Read>)
    ensures r.Some? ==> 0 < r.value.used <= |s| && r.value.used <= left
    decreases left
  {
    if left == 0 || s == [] then None
    else if s[0] < 128 then Some(Read(s[0], 1))
    else
      var r := ReadVarint(s[1..], left - 1);
      if r.None? then None else Some(Read(s[0] - 128 + 128 * r.value.value, r.value.used + 1))
  }

  function Power128(k: nat): nat {
    if k == 0 then 1 else 128 * Power128(k - 1)
  }

  lemma {:induction false} ReadVarintInverts(v: nat, left: nat, rest: Bytes)
    requires left > 0 && v < Power128(left)
    ensures ReadVarint(Varint(v) + rest, left) == Some(Read(v, |Varint(v)|))
    decreases v
  {
    var s := Varint(v) + rest;
    assert Power128(1) == 128;
    if v >= 128 {
      assert Power128(left) == 128 * Power128(left - 1);
      ReadVarintInverts(v / 128, left - 1, rest);
      assert s[1..] == Varint(v / 128) + rest;
    }
  }

  lemma VarintFits(v: nat, left: nat)
    requires left > 0 && v < Power128(left)
    ensures |Varint(v)| <= left
  {
    hide Varint, ReadVarint;
    ReadVarintInverts(v, left, []);
    assert Varint(v) + [] == Varint(v);
  }

  /** Five bytes hold 32 bits, ten hold 64. */
  lemma VarintSizes()
    ensures TWO_32 <= Power128(5) && TWO_64 <= Power128(10)
  {
    assert Power128(1) == 128 && Power128(2) == 0x4000 && Power128(3) == 0x20_0000;
    assert Power128(5) == 0x8_0000_0000 && Power128(8) == 0x100_0000_0000_0000;
    assert Power128(10) == 0x40_0000_0000_0000_0000;
  }

  /** A varint of at most five bytes, kept in 32 bits. */
  function GetVarint32Ptr(s: Bytes): (r: Option<Read>)
    ensures r.Some? ==> 0 < r.value.used <= |s|
  {
    var r := ReadVarint(s, 5);
    if r.None? then None else Some(Read(r.value.value % TWO_32, r.value.used))
  }

  lemma GetVarint32PtrInverts(v: nat, rest: Bytes)
    requires v < TWO_32
    ensures GetVarint32Ptr(Varint(v) + rest) == Some(Read(v, |Varint(v)|))
  {
    hide Varint, ReadVarint, Power128;
    VarintSizes();
    ReadVarintInverts(v, 5, rest);
  }

  /* Reading depends on the bytes that are read, and on no others. */

  /** Two inputs agree on their first `n` bytes. */
  predicate Agree(s: Bytes, s': Bytes, n: nat) {
    n <= |s| && n <= |s'| && s[..n] == s'[..n]
  }

  lemma AgreeBehind(s: Bytes, s': Bytes, n: nat, k: nat)
    requires Agree(s, s', n) && k <= n
    ensures Agree(s[k..], s'[k..], n - k) && (k < n ==> s[k] == s'[k]) && s[..k] == s'[..k]
  {
    assert s[k..][..n - k] == s[..n][k..] && s'[k..][..n - k] == s'[..n][k..];
    assert s[..k] == s[..n][..k] && s'[..k] == s'[..n][..k];
    assert k < n ==> s[k] == s[..n][k] && s'[k] == s'[..n][k];
  }

  lemma {:induction false} VarintLocal(s: Bytes, s': Bytes, left: nat)
    requires ReadVarint(s, left).Some? && Agree(s, s', ReadVarint(s, left).value.used)
    ensures ReadVarint(s', left) == ReadVarint(s, left)
    decreases left
  {
    var n := ReadVarint(s, left).value.used;
    AgreeBehind(s, s', n, 0);
    if s[0] >= 128 {
      AgreeBehind(s, s', n, 1);
      VarintLocal(s[1..], s'[1..], left - 1);
    }
  }

  /* ---- Taking values off the front of a slice ---- */

  datatype Front<+T> = Front(value: T, rest: Bytes)

  function GetVarint32(s: Bytes): (r: Option<Front<nat>>)
    ensures r.Some? ==> |r.value.rest| < |s|
  {
    var r := GetVarint32Ptr(s);
    if r.None? then None else Some(Front(r.value.value, s[r.value.used..]))
  }

  /** At most ten bytes, kept in 64 bits. */
  function GetVarint64(s: Bytes): (r: Option<Front<nat>>)
    ensures r.Some? ==> |r.value.rest| < |s|
  {
    var r := ReadVarint(s, 10);
    if r.None? then None else Some(Front(r.value.value % TWO_64, s[r.value.used..]))
  }

  function LengthPrefixed(s: Bytes): (r: Bytes)
    ensures r != []
  {
    Varint(|s|) + s
  }

  function GetLengthPrefixed(s: Bytes): (r: Option<Front<Bytes>>)
    ensures r.Some? ==> |r.value.rest| < |s|
  {
    var r := GetVarint32(s);
    if r.None? || |r.value.rest| < r.value.value then None
    else Some(Front(r.value.rest[..r.value.value], r.value.rest[r.value.value..]))
  }

  /** What follows a length-prefixed string is left alone. */
  lemma GetLengthPrefixedLocal(s: Bytes, more: Bytes)
    requires GetLengthPrefixed(s).Some?
    ensures GetLengthPrefixed(s + more) == Some(Front(GetLengthPrefixed(s).value.value, GetLengthPrefixed(s).value.rest + more))
  {
    hide ReadVarint;
    var r := ReadVarint(s, 5).value;
    assert s[..r.used] == (s + more)[..r.used];
    VarintLocal(s, s + more, 5);
    var n := r.value % TWO_32;
    assert (s + more)[r.used..] == s[r.used..] + more;
    assert (s[r.used..] + more)[..n] == s[r.used..][..n] && (s[r.used..] + more)[n..] == s[r.used..][n..] + more;
  }

  lemma GetVarint32Inverts(v: nat, rest: Bytes)
    requires v < TWO_32
    ensures GetVarint32(Varint(v) + rest) == Some(Front(v, rest))
  {
    hide Varint, GetVarint32Ptr;
    GetVarint32PtrInverts(v, rest);
    assert (Varint(v) + rest)[|Varint(v)|..] == rest;
  }

  lemma GetVarint64Inverts(v: nat, rest: Bytes)
    requires v < TWO_64
    ensures GetVarint64(Varint(v) + rest) == Some(Front(v, rest))
  {
    hide Varint, ReadVarint, Power128;
    VarintSizes();
    ReadVarintInverts(v, 10, rest);
    assert (Varint(v) + rest)[|Varint(v)|..] == rest;
  }

  lemma GetLengthPrefixedInverts(s: Bytes, rest: Bytes)
    requires |s| < TWO_32
    ensures GetLengthPrefixed(LengthPrefixed(s) + rest) == Some(Front(s, rest))
  {
    hide Varint, GetVarint32;
    GetVarint32Inverts(|s|, s + rest);
    assert LengthPrefixed(s) + rest == Varint(|s|) + (s + rest);
    assert (s + rest)[..|s|] == s && (s + rest)[|s|..] == rest;
  }

  /* ---- Fixed width ---- */

  function Fixed(n: nat, k: nat): (r: Bytes)
    ensures |r| == k
  {
    if k == 0 then [] else [n % 256] + Fixed(n / 256, k - 1)
  }

  function ReadFixed(s: Bytes): nat {
    if s == [] then 0 else s[0] + 256 * ReadFixed(s[1..])
  }

  function Power256(k: nat): nat {
    if k == 0 then 1 else 256 * Power256(k - 1)
  }

  lemma {:induction false} FixedRoundTrip(n: nat, k: nat)
    requires n < Power256(k)
    ensures ReadFixed(Fixed(n, k)) == n
  {
    if k > 0 {
      FixedRoundTrip(n / 256, k - 1);
    }
  }

  lemma Powers256()
    ensures Power256(4) == TWO_32 && Power256(8) == TWO_64
  {
    assert Power256(2) == 0x1_0000 && Power256(5) == 0x100_0000_0000;
  }

  /* ---- Arrays of 32-bit numbers ---- */

  function FixedArray(a: seq<nat>): (r: Bytes)
    ensures |r| == 4 * |a|
  {
    if a == [] then [] else FixedArray(a[..|a| - 1]) + Fixed(a[|a| - 1], 4)
  }

  lemma FixedArrayLast(a: seq<nat>, x: nat)
    ensures FixedArray(a + [x]) == FixedArray(a) + Fixed(x, 4)
  {
    assert (a + [x])[..|a|] == a;
  }

  lemma {:induction false} FixedArrayAt(a: seq<nat>, i: nat)
    requires i < |a| && a[i] < TWO_32
    ensures ReadFixed(FixedArray(a)[4 * i..4 * i + 4]) == a[i]
    decreases |a|
  {
    hide Fixed, ReadFixed;
    var n := |a| - 1;
    if i == n {
      Powers256();
      FixedRoundTrip(a[n], 4);
      assert FixedArray(a)[4 * n..4 * n + 4] == Fixed(a[n], 4);
    } else {
      FixedArrayAt(a[..n], i);
      assert FixedArray(a)[4 * i..4 * i + 4] == FixedArray(a[..n])[4 * i..4 * i + 4];
    }
  }

  /* ---- Bits ---- */

  function Power2(k: nat): (r: nat)
    ensures r > 0
  {
    if k == 0 then 1 else 2 * Power2(k - 1)
  }

  function ShiftRight(n: nat, k: nat): nat
    decreases k
  {
    if k == 0 then n else ShiftRight(n / 2, k - 1)
  }

  predicate Bit(n: nat, k: nat) {
    ShiftRight(n, k) % 2 == 1
  }

  /** The bits of two numbers one above the other. */
  lemma {:induction false} BitAbove(low: nat, high: nat, k: nat, p: nat)
    requires low < Power2(k)
    ensures Bit(low + high * Power2(k), p) <==> if p < k then Bit(low, p) else Bit(high, p - k)
    decreases p
  {
    if k > 0 {
      var half := high * Power2(k - 1);
      assert low + high * Power2(k) == low + 2 * half;
      if p > 0 {
        BitAbove(low / 2, high, k - 1, p - 1);
        assert (low + 2 * half) / 2 == low / 2 + half;
      }
    }
  }

  lemma Powers()
    ensures Power2(15) == 0x8000 && Power2(17) == 0x2_0000
  {
    assert Power2(5) == 32 && Power2(10) == 1024;
  }
}
