/**
  nanopb: scalars on the wire, as the Protocol Buffers encoding guide lays them out.
 */
module PbWire {
  import opened Wrappers
  import opened ByteCoding

  const TWO_31: nat := 0x8000_0000

  /* ---- Base 128 varints ---- */

  /** The loop of pb_encode_varint: continuation bits everywhere, then one taken back. */
  method VarintBytes(value: nat) returns (buffer: Bytes)
    ensures buffer == Varint(value)
  {
    hide Varint;
    OneGroup(value, []);
    if value <= 0x7f {
      return [value];
    }
    var v: nat := value;
    buffer := [];
    assert [] + Varint(value) == Varint(value);
    while v > 0
      invariant v > 0 ==> Varint(value) == buffer + Varint(v)
      invariant v == 0 ==> buffer != [] && buffer[|buffer| - 1] >= 128
      invariant v == 0 ==> Varint(value) == buffer[..|buffer| - 1] + [buffer[|buffer| - 1] - 128]
    {
      OneGroup(v, buffer);
      buffer, v := buffer + [v % 128 + 128], v / 128;
    }
    buffer := buffer[|buffer| - 1 := buffer[|buffer| - 1] - 128];
  }

  /** Seven bits of a varint, after others. */
  lemma OneGroup(v: nat, before: Bytes)
    ensures if v < 128 then Varint(v) == [v] else before + Varint(v) == before + [v % 128 + 128] + Varint(v / 128)
  {
  }

  lemma SevenBits(m: nat, low: nat)
    requires m > 0 && low < 128
    ensures Varint(128 * m + low) == [128 + low] + Varint(m)
  {
    var v := 128 * m + low;
    assert v % 128 == low && v / 128 == m;
    hide *;
    OneGroup(v, []);
    assert [] + Varint(v) == Varint(v);
  }

  /** pb_decode_varint: up to ten bytes; what exceeds 64 bits is lost. */
  function ReadVarint64(s: Bytes): (r: Option<Read>)
    ensures r.Some? ==> r.value.value < TWO_64 && 0 < r.value.used <= |s|
  {
    var r := ReadVarint(s, 10);
    if r.None? then None else Some(Read(r.value.value % TWO_64, r.value.used))
  }

  lemma {:induction false} NeverEnds(s: Bytes, left: nat)
    requires left <= |s| && forall i :: 0 <= i < left ==> s[i] >= 128
    ensures ReadVarint(s, left) == None
    decreases left
  {
    if left > 0 {
      assert forall i :: 0 <= i < left - 1 ==> s[1..][i] == s[i + 1];
      NeverEnds(s[1..], left - 1);
    }
  }

  /** Ten bytes that all say that another follows are refused, nine may be followed by a tenth. */
  lemma TenBytesAtMost(s: Bytes)
    requires |s| >= 10 && forall i :: 0 <= i < 9 ==> s[i] >= 128
    ensures ReadVarint64(s) == None <==> s[9] >= 128
  {
    if s[9] >= 128 {
      NeverEnds(s, 10);
    } else {
      EndsAt(s, 9, 10);
    }
  }

  lemma {:induction false} EndsAt(s: Bytes, k: nat, left: nat)
    requires k < left && k < |s| && (forall i :: 0 <= i < k ==> s[i] >= 128) && s[k] < 128
    ensures ReadVarint(s, left).Some? && ReadVarint(s, left).value.used == k + 1
    decreases k
  {
    if k > 0 {
      assert forall i :: 0 <= i < k ==> s[1..][i] == s[i + 1];
      EndsAt(s[1..], k - 1, left - 1);
    }
  }

  /** The rest of pb_decode_varint32: bits beyond 32 must be a sign extension or zero. */
  function ReadRest32(s: Bytes, bitpos: nat, result: nat): (r: Option<Read>)
    requires result < TWO_32 && bitpos % 7 == 0
    ensures r.Some? ==> r.value.value < TWO_32 && 0 < r.value.used <= |s|
    decreases |s|
  {
    if s == [] then None
    else
      var b: int := s[0];
      var sign := if bitpos < 63 then 0xff else 0x01;
      if bitpos >= 32 && b % 128 != 0 && (result < TWO_31 || b != sign) then None
      else
        var next := if bitpos >= 32 then result else (result + b % 128 * Shift(bitpos)) % TWO_32;
        if b >= 128 then
          var r := ReadRest32(s[1..], bitpos + 7, next);
          if r.None? then None else Some(Read(r.value.value, r.value.used + 1))
        else if bitpos == 28 && b / 16 % 8 != 0 then None
        else Some(Read(next, 1))
  }

  /** 2 to the power of a bit position below 32, in steps of 7. */
  function Shift(bitpos: nat): nat {
    match bitpos
    case 0 => 1
    case 7 => 0x80
    case 14 => 0x4000
    case 21 => 0x20_0000
    case _ => 0x1000_0000
  }

  function ReadVarint32(s: Bytes): (r: Option<Read>)
    ensures r.Some? ==> r.value.value < TWO_32 && 0 < r.value.used <= |s|
  {
    if s == [] then None
    else if s[0] < 128 then Some(Read(s[0], 1))
    else
      var r := ReadRest32(s[1..], 7, s[0] - 128);
      if r.None? then None else Some(Read(r.value.value, r.value.used + 1))
  }

  /** Every 64-bit value comes back, whatever follows it. */
  lemma VarintRoundTrip(v: nat, rest: Bytes)
    requires v < TWO_64
    ensures ReadVarint64(Varint(v) + rest) == Some(Read(v, |Varint(v)|))
  {
    hide Varint, ReadVarint, Power128;
    VarintSizes();
    ReadVarintInverts(v, 10, rest);
  }

  /** The first of several bytes of a number; `add` is what it contributes. */
  lemma Rest32Next(v: nat, bitpos: nat, result: nat, add: nat, rest: Bytes)
    requires v >= 128 && bitpos < 32 && bitpos % 7 == 0 && add == v % 128 * Shift(bitpos) && result + add < TWO_32
    ensures var more := ReadRest32(Varint(v / 128) + rest, bitpos + 7, result + add);
            ReadRest32(Varint(v) + rest, bitpos, result) ==
            if more.None? then None else Some(Read(more.value.value, more.value.used + 1))
    ensures |Varint(v)| == |Varint(v / 128)| + 1
  {
    hide Shift, Varint, ReadRest32;
    SevenBits(v / 128, v % 128);
    var s := Varint(v) + rest;
    assert v == 128 * (v / 128) + v % 128;
    assert s[1..] == Varint(v / 128) + rest;
    LowByte(s, v % 128, bitpos, result, add);
  }

  lemma LowByte(s: Bytes, low: nat, bitpos: nat, result: nat, add: nat)
    requires s != [] && s[0] == low + 128 && low < 128 && bitpos < 32 && bitpos % 7 == 0
    requires add == low * Shift(bitpos) && result + add < TWO_32
    ensures var more := ReadRest32(s[1..], bitpos + 7, result + add);
            ReadRest32(s, bitpos, result) == if more.None? then None else Some(Read(more.value.value, more.value.used + 1))
  {
    hide Shift;
    var b: int := s[0];
    assert b % 128 == low;
  }

  lemma Rest32Last(v: nat, bitpos: nat, result: nat, add: nat, rest: Bytes)
    requires v < 128 && bitpos < 32 && bitpos % 7 == 0 && add == v * Shift(bitpos) && result + add < TWO_32
    ensures ReadRest32(Varint(v) + rest, bitpos, result) ==
            if bitpos == 28 && v >= 16 then None else Some(Read(result + add, 1))
    ensures |Varint(v)| == 1
  {
    hide Shift;
    var s := Varint(v) + rest;
    var b: int := s[0];
    assert b == v && b % 128 == v;
  }

  /* One lemma for each place a further byte may have. */

  lemma FifthByte(v: nat, result: nat, rest: Bytes)
    requires v < 16 && result < 0x1000_0000
    ensures ReadRest32(Varint(v) + rest, 28, result) == Some(Read(result + v * 0x1000_0000, |Varint(v)|))
  {
    hide ReadRest32, Varint;
    Rest32Last(v, 28, result, v * 0x1000_0000, rest);
  }

  lemma FourthByte(v: nat, result: nat, rest: Bytes)
    requires v < 0x800 && result < 0x20_0000
    ensures ReadRest32(Varint(v) + rest, 21, result) == Some(Read(result + v * 0x20_0000, |Varint(v)|))
  {
    hide ReadRest32, Varint;
    if v >= 128 {
      Rest32Next(v, 21, result, v % 128 * 0x20_0000, rest);
      FifthByte(v / 128, result + v % 128 * 0x20_0000, rest);
    } else {
      Rest32Last(v, 21, result, v * 0x20_0000, rest);
    }
  }

  lemma ThirdByte(v: nat, result: nat, rest: Bytes)
    requires v < 0x4_0000 && result < 0x4000
    ensures ReadRest32(Varint(v) + rest, 14, result) == Some(Read(result + v * 0x4000, |Varint(v)|))
  {
    hide ReadRest32, Varint;
    if v >= 128 {
      Rest32Next(v, 14, result, v % 128 * 0x4000, rest);
      FourthByte(v / 128, result + v % 128 * 0x4000, rest);
    } else {
      Rest32Last(v, 14, result, v * 0x4000, rest);
    }
  }

  lemma SecondByte(v: nat, result: nat, rest: Bytes)
    requires v < 0x200_0000 && result < 0x80
    ensures ReadRest32(Varint(v) + rest, 7, result) == Some(Read(result + v * 0x80, |Varint(v)|))
  {
    hide ReadRest32, Varint;
    if v >= 128 {
      Rest32Next(v, 7, result, v % 128 * 0x80, rest);
      ThirdByte(v / 128, result + v % 128 * 0x80, rest);
    } else {
      Rest32Last(v, 7, result, v * 0x80, rest);
    }
  }

  lemma FirstNext(n: nat, rest: Bytes)
    requires n >= 128
    ensures var more := ReadRest32(Varint(n / 128) + rest, 7, n % 128);
            ReadVarint32(Varint(n) + rest) == if more.None? then None else Some(Read(more.value.value, more.value.used + 1))
    ensures |Varint(n)| == |Varint(n / 128)| + 1
  {
    hide ReadRest32;
    var s := Varint(n) + rest;
    assert s[1..] == Varint(n / 128) + rest;
  }

  lemma Varint32RoundTrip(v: nat, rest: Bytes)
    requires v < TWO_32
    ensures ReadVarint32(Varint(v) + rest) == Some(Read(v, |Varint(v)|))
  {
    hide ReadRest32;
    if v >= 128 {
      hide Varint;
      FirstNext(v, rest);
      SecondByte(v / 128, v % 128, rest);
    }
  }

  /* What the 32-bit reader makes of any bytes: the low 32 bits of the number that they stand for. */

  lemma {:induction false} HighBytes(s: Bytes, bitpos: nat, result: nat)
    requires result < TWO_32 && bitpos % 7 == 0 && bitpos >= 35 && ReadRest32(s, bitpos, result).Some?
    ensures var r := ReadRest32(s, bitpos, result).value;
            r.value == result && ReadVarint(s, |s|).Some? && ReadVarint(s, |s|).value.used == r.used
    decreases |s|
  {
    if s[0] >= 128 {
      HighBytes(s[1..], bitpos + 7, result);
    }
  }

  lemma Bytewise(s: Bytes, bitpos: nat, result: nat)
    requires bitpos in {7, 14, 21, 28} && result < TWO_32 && ReadRest32(s, bitpos, result).Some?
    ensures s != []
    ensures var r, n := ReadRest32(s, bitpos, result).value, ReadVarint(s, |s|);
            var b: int := s[0];
            var next := (result + b % 128 * Shift(bitpos)) % TWO_32;
            if b < 128 then r == Read(next, 1) && n == Some(Read(b, 1))
            else
              var r', n' := ReadRest32(s[1..], bitpos + 7, next), ReadVarint(s[1..], |s[1..]|);
              && r'.Some? && r == Read(r'.value.value, r'.value.used + 1)
              && n == if n'.None? then None else Some(Read(b - 128 + 128 * n'.value.value, n'.value.used + 1))
  {
    hide Shift;
  }

  lemma LowFrom28(s: Bytes, result: nat)
    requires result < 0x1000_0000 && ReadRest32(s, 28, result).Some?
    ensures var r, n := ReadRest32(s, 28, result).value, ReadVarint(s, |s|);
            n.Some? && n.value.used == r.used && r.value == (result + n.value.value * 0x1000_0000) % TWO_32
  {
    hide ReadRest32, ReadVarint;
    Bytewise(s, 28, result);
    var b: int := s[0];
    if b >= 128 {
      HighBytes(s[1..], 35, (result + (b - 128) * 0x1000_0000) % TWO_32);
      LostBits(result + (b - 128) * 0x1000_0000, ReadVarint(s[1..], |s[1..]|).value.value);
    }
  }

  lemma LostBits(x: nat, n: nat)
    ensures (x + n * 0x8_0000_0000) % TWO_32 == x % TWO_32
  {
    LostWhole(x, 8 * n);
  }

  lemma {:induction false} LostWhole(x: nat, k: nat)
    ensures (x + k * TWO_32) % TWO_32 == x % TWO_32
    decreases k
  {
    if k > 0 {
      LostWhole(x, k - 1);
      assert x + k * TWO_32 == x + (k - 1) * TWO_32 + TWO_32;
    }
  }

  lemma LowFrom21(s: Bytes, result: nat)
    requires result < 0x20_0000 && ReadRest32(s, 21, result).Some?
    ensures var r, n := ReadRest32(s, 21, result).value, ReadVarint(s, |s|);
            n.Some? && n.value.used == r.used && r.value == (result + n.value.value * 0x20_0000) % TWO_32
  {
    hide ReadRest32, ReadVarint;
    Bytewise(s, 21, result);
    var b: int := s[0];
    if b >= 128 {
      LowFrom28(s[1..], result + (b - 128) * 0x20_0000);
    }
  }

  lemma LowFrom14(s: Bytes, result: nat)
    requires result < 0x4000 && ReadRest32(s, 14, result).Some?
    ensures var r, n := ReadRest32(s, 14, result).value, ReadVarint(s, |s|);
            n.Some? && n.value.used == r.used && r.value == (result + n.value.value * 0x4000) % TWO_32
  {
    hide ReadRest32, ReadVarint;
    Bytewise(s, 14, result);
    var b: int := s[0];
    if b >= 128 {
      LowFrom21(s[1..], result + (b - 128) * 0x4000);
    }
  }

  lemma LowFrom7(s: Bytes, result: nat)
    requires result < 0x80 && ReadRest32(s, 7, result).Some?
    ensures var r, n := ReadRest32(s, 7, result).value, ReadVarint(s, |s|);
            n.Some? && n.value.used == r.used && r.value == (result + n.value.value * 0x80) % TWO_32
  {
    hide ReadRest32, ReadVarint;
    Bytewise(s, 7, result);
    var b: int := s[0];
    if b >= 128 {
      LowFrom14(s[1..], result + (b - 128) * 0x80);
    }
  }

  lemma FirstOfMany(s: Bytes)
    requires s != [] && s[0] >= 128 && ReadVarint32(s).Some?
    ensures var b: int := s[0];
            var r := ReadRest32(s[1..], 7, b - 128);
            && r.Some? && ReadVarint32(s) == Some(Read(r.value.value, r.value.used + 1))
            && var n := ReadVarint(s[1..], |s[1..]|);
               ReadVarint(s, |s|) == if n.None? then None else Some(Read(b - 128 + 128 * n.value.value, n.value.used + 1))
  {
    hide ReadRest32;
  }

  lemma LowBits32(s: Bytes)
    requires ReadVarint32(s).Some?
    ensures var r, n := ReadVarint32(s).value, ReadVarint(s, |s|);
            n.Some? && n.value.used == r.used && r.value == n.value.value % 0x1_0000_0000
  {
    hide ReadRest32;
    if s[0] >= 128 {
      var b: int := s[0];
      FirstOfMany(s);
      LowFrom7(s[1..], b - 128);
      hide ReadVarint, ReadVarint32;
    }
  }

  /** What is left of a positive number behind its low 35 bits is refused. */
  lemma {:induction false} HighRefused(v: nat, bitpos: nat, k: nat, result: nat, rest: Bytes)
    requires 0 < v < Power128(k) && bitpos >= 35 && bitpos + 7 * k == 63 && result < TWO_32
    ensures ReadRest32(Varint(v) + rest, bitpos, result) == None
    decreases k
  {
    var s := Varint(v) + rest;
    if v >= 128 {
      assert Power128(k) == 128 * Power128(k - 1);
      HighRefused(v / 128, bitpos + 7, k - 1, result, rest);
      assert s[1..] == Varint(v / 128) + rest;
    }
  }

  lemma FifthRefused(v: nat, result: nat, rest: Bytes)
    requires 16 <= v < 0x8_0000_0000 && result < 0x1000_0000
    ensures ReadRest32(Varint(v) + rest, 28, result) == None
  {
    hide Varint, ReadRest32;
    if v >= 128 {
      var s := Varint(v) + rest;
      assert v == 128 * (v / 128) + v % 128;
      SevenBits(v / 128, v % 128);
      assert s[0] == v % 128 + 128 && s[1..] == Varint(v / 128) + rest;
      assert Power128(4) == 0x1000_0000 by {
        assert Power128(2) == 0x4000;
      }
      HighRefused(v / 128, 35, 4, (result + v % 128 * 0x1000_0000) % TWO_32, rest);
      FifthContinues(s, v % 128, result);
    } else {
      OneByteRefused(v, result, rest);
    }
  }

  lemma OneByteRefused(v: nat, result: nat, rest: Bytes)
    requires 16 <= v < 128 && result < TWO_32
    ensures ReadRest32(Varint(v) + rest, 28, result) == None
  {
    assert (Varint(v) + rest)[0] == v;
  }

  /** Positive numbers of more than 32 bits are refused. */
  lemma Large32Refused(n: nat, rest: Bytes)
    requires 0x1_0000_0000 <= n < 0x8000_0000_0000_0000
    ensures ReadVarint32(Varint(n) + rest) == None
  {
    hide ReadRest32, Varint, ReadVarint32;
    FirstNext(n, rest);
    var a := n / 128;
    var b := a / 128;
    var c := b / 128;
    var r := n % 128 + a % 128 * 0x80;
    Rest32Next(a, 7, n % 128, a % 128 * 0x80, rest);
    Rest32Next(b, 14, r, b % 128 * 0x4000, rest);
    Rest32Next(c, 21, r + b % 128 * 0x4000, c % 128 * 0x20_0000, rest);
    FifthRefused(c / 128, r + b % 128 * 0x4000 + c % 128 * 0x20_0000, rest);
  }

  /** The rest of a negative number behind its low 35 bits. */
  lemma SignExtension(result: nat, rest: Bytes)
    requires TWO_31 <= result < TWO_32
    ensures ReadRest32(Varint(0x1fff_ffff) + rest, 35, result) == Some(Read(result, 5))
  {
    hide Varint;
    SevenBits(0x3f_ffff, 0x7f);
    SevenBits(0x7fff, 0x7f);
    SevenBits(0xff, 0x7f);
    SevenBits(0x1, 0x7f);
    OneGroup(1, []);
    var t1 := [1] + rest;
    var t2 := [0xff] + t1;
    var t3 := [0xff] + t2;
    var t4 := [0xff] + t3;
    assert Varint(0x1fff_ffff) + rest == [0xff] + t4;
    assert ReadRest32(t1, 63, result) == Some(Read(result, 1));
    hide ReadRest32;
    OneOfSign(t1, 56, result);
    OneOfSign(t2, 49, result);
    OneOfSign(t3, 42, result);
    OneOfSign(t4, 35, result);
  }

  lemma OneOfSign(t: Bytes, bitpos: nat, result: nat)
    requires TWO_31 <= result < TWO_32 && bitpos in {35, 42, 49, 56}
    ensures var more := ReadRest32(t, bitpos + 7, result);
            ReadRest32([0xff] + t, bitpos, result) == if more.None? then None else Some(Read(more.value.value, more.value.used + 1))
  {
    assert ([0xff] + t)[1..] == t;
  }

  /** Negative numbers that 32 bits hold are taken, in two's complement. */
  lemma Negative32(m: nat, rest: Bytes)
    requires 1 <= m <= 0x8000_0000
    ensures ReadVarint32(Varint(0x1_0000_0000_0000_0000 - m) + rest) == Some(Read(0x1_0000_0000 - m, 10))
  {
    hide ReadRest32, Varint, ReadVarint32;
    var n := 0x1_0000_0000_0000_0000 - m;
    var a := n / 128;
    var b := a / 128;
    var c := b / 128;
    var r := n % 128 + a % 128 * 0x80;
    var t := r + b % 128 * 0x4000;
    FirstNext(n, rest);
    Rest32Next(a, 7, n % 128, a % 128 * 0x80, rest);
    Rest32Next(b, 14, r, b % 128 * 0x4000, rest);
    Rest32Next(c, 21, t, c % 128 * 0x20_0000, rest);
    LowDigits(n, c / 128, t + c % 128 * 0x20_0000);
    FifthNegative(c / 128, t + c % 128 * 0x20_0000, rest);
  }

  lemma LowDigits(n: nat, v: nat, low: nat)
    requires n == low + v * 0x1000_0000 && low < 0x1000_0000 && TWO_64 - TWO_31 <= n < TWO_64
    ensures 0xf_ffff_fff8 <= v < 0x10_0000_0000 && low + v % 16 * 0x1000_0000 == n - 0xffff_ffff * TWO_32
  {
    assert v / 16 == 0xffff_ffff;
  }

  lemma FifthNegative(v: nat, result: nat, rest: Bytes)
    requires 0xf_ffff_fff8 <= v < 0x10_0000_0000 && result < 0x1000_0000
    ensures ReadRest32(Varint(v) + rest, 28, result) == Some(Read(result + v % 16 * 0x1000_0000, 6))
  {
    hide Varint;
    SevenBits(v / 128, v % 128);
    var s := Varint(v) + rest;
    assert v == 128 * (v / 128) + v % 128 && v / 128 == 0x1fff_ffff;
    assert s[1..] == Varint(v / 128) + rest;
    Wraps(v, result);
    SignExtension(result + v % 16 * 0x1000_0000, rest);
    hide ReadRest32;
    FifthContinues(s, v % 128, result);
  }

  lemma Wraps(v: nat, result: nat)
    requires result < 0x1000_0000
    ensures (result + v % 128 * 0x1000_0000) % TWO_32 == result + v % 16 * 0x1000_0000
  {
    var k := v % 128 / 16;
    assert v % 128 == v % 16 + 16 * k;
    LostWhole(result + v % 16 * 0x1000_0000, k);
  }

  lemma FifthContinues(s: Bytes, low: nat, result: nat)
    requires s != [] && s[0] == low + 128 && low < 128 && result < TWO_32
    ensures var more := ReadRest32(s[1..], 35, (result + low * 0x1000_0000) % TWO_32);
            ReadRest32(s, 28, result) == if more.None? then None else Some(Read(more.value.value, more.value.used + 1))
  {
    var b: int := s[0];
    assert b % 128 == low;
  }

  /* ---- Signed integers ---- */

  function ToUnsigned(i: int): nat
    requires -TWO_63 <= i < TWO_63
  {
    if i < 0 then i + TWO_64 else i
  }

  function ToSigned(n: nat): int
    requires n < TWO_64
  {
    if n < TWO_63 then n else n - TWO_64
  }

  function Low32(n: nat): int {
    var m := n % TWO_32;
    if m < TWO_31 then m else m - TWO_32
  }

  function ZigZag(i: int): nat {
    if i < 0 then -2 * i - 1 else 2 * i
  }

  function UnZigZag(n: nat): int {
    if n % 2 == 1 then -(n / 2) - 1 else n / 2
  }

  lemma ZigZagRoundTrip(i: int)
    requires -TWO_63 <= i < TWO_63
    ensures UnZigZag(ZigZag(i)) == i && ZigZag(i) < TWO_64
  {
  }
}
