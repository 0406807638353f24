/**
  nanopb's input stream: a cursor and a count of bytes left, and the scalar readers on top of it.
 */
module PbStream {
  import opened Wrappers
  import opened ByteCoding
  import opened PbWire
  import opened PbDecode

  class InStream {
    const buffer: Bytes
    ghost const end: nat     // where the stream's part of the buffer ends
    var state: nat
    var bytesLeft: nat

    ghost predicate Valid()
      reads this
    {
      state + bytesLeft == end <= |buffer|
    }

    ghost function Left(): Bytes
      reads this
      requires Valid()
    {
      buffer[state..end]
    }

    constructor (buffer: Bytes, state: nat, bytesLeft: nat)
      requires state + bytesLeft <= |buffer|
      ensures Valid() && this.buffer == buffer && this.state == state && this.bytesLeft == bytesLeft
      ensures end == state + bytesLeft
    {
      this.buffer, this.state, this.bytesLeft, end := buffer, state, bytesLeft, state + bytesLeft;
    }

    /** pb_read. */
    method Read(count: nat) returns (r: Option<Bytes>)
      requires Valid()
      modifies this
      ensures Valid()
      ensures if count <= |old(Left())| then r == Some(old(Left())[..count]) && Left() == old(Left())[count..]
              else r == None && Left() == old(Left())
    {
      if count == 0 {
        assert Left()[..0] == [] && Left()[0..] == Left();
        return Some([]);
      }
      if bytesLeft < count {
        return None;
      }
      assert Left()[..count] == buffer[state..state + count] && Left()[count..] == buffer[state + count..end];
      r := Some(buffer[state..state + count]);
      state := state + count;
      bytesLeft := bytesLeft - count;
    }

    /** pb_readbyte. */
    method ReadByte() returns (r: Option<Byte>)
      requires Valid()
      modifies this
      ensures Valid()
      ensures if old(Left()) != [] then r == Some(old(Left())[0]) && Left() == old(Left())[1..]
              else r == None && Left() == old(Left())
    {
      if bytesLeft == 0 {
        return None;
      }
      r := Some(buffer[state]);
      state := state + 1;
      bytesLeft := bytesLeft - 1;
    }

    /** pb_decode_varint32. */
    method DecodeVarint32() returns (r: Option<nat>)
      requires Valid()
      modifies this
      ensures Valid()
      ensures Taken(r, Left(), ReadVarint32(old(Left())), old(Left()))
    {
      var first := ReadByte();
      if first.None? {
        return None;
      }
      if first.value < 128 {
        return Some(first.value);
      }
      r := DecodeRest32(first.value - 128);
    }

    /** pb_decode_varint: bits beyond 64 are lost. */
    method DecodeVarint() returns (r: Option<nat>)
      requires Valid()
      modifies this
      ensures Valid()
      ensures Taken(r, Left(), ReadVarint64(old(Left())), old(Left()))
    {
      hide ReadVarint, Power128;
      var result: nat, more := 0, true;
      var k := 0;
      ghost var s, acc: nat := Left(), 0;
      StartVarint(s);
      while more
        invariant Valid() && k <= 10 && k <= |s| && Left() == s[k..] && result == acc % TWO_64
        invariant more ==> ReadVarint(s, 10) == Joined(acc, k, ReadVarint(Left(), 10 - k))
        invariant !more ==> k > 0 && ReadVarint(s, 10) == Some(ByteCoding.Read(acc, k))
        decreases more, |Left()|
      {
        VarintStep(Left(), 10 - k, acc, k);
        if k == 10 {
          return None;
        }
        var b := ReadByte();
        if b.None? {
          return None;
        }
        WordSum(acc, b.value as int % 128 * Power128(k));
        result := (result + b.value as int % 128 * Power128(k)) % TWO_64;
        acc := acc + b.value as int % 128 * Power128(k);
        k := k + 1;
        more := b.value >= 128;
      }
      r := Some(result);
    }

    /** The multibyte case. */
    method DecodeRest32(start: nat) returns (r: Option<nat>)
      requires Valid() && start < 128
      modifies this
      ensures Valid()
      ensures Taken(r, Left(), ReadRest32(old(Left()), 7, start), old(Left()))
    {
      hide ReadRest32;
      var result: nat, bitpos, last: int, more := start, 7, 0, true;
      ghost var s, used := Left(), 0;
      while more
        invariant Valid() && result < TWO_32 && bitpos % 7 == 0 && bitpos >= 7
        invariant used <= |s| && Left() == s[used..]
        invariant more ==> ReadRest32(s, 7, start) == Advanced(ReadRest32(Left(), bitpos, result), used)
        invariant !more ==> used > 0 && ReadRest32(s, 7, start) == Ended(last, bitpos, result, used)
        decreases more, |Left()|
      {
        if Left() == [] {
          NoRest32(bitpos, result);
        } else {
          Rest32Step(Left(), bitpos, result);
        }
        var b := ReadByte();
        if b.None? {
          return None;
        }
        last := b.value;
        if bitpos >= 32 {
          var signExtension := if bitpos < 63 then 0xff else 0x01;
          if last % 128 != 0 && (result < TWO_31 || last != signExtension) {
            return None;
          }
        } else {
          result := (result + last % 128 * Shift(bitpos)) % TWO_32;
        }
        bitpos := bitpos + 7;
        more := last >= 128;
        used := used + 1;
      }
      if bitpos == 35 && last / 16 % 8 != 0 {
        return None;
      }
      r := Some(result);
    }
  }

  /** What stands before a varint's remaining bytes: a value, and the place of the next byte. */
  function Joined(acc: nat, k: nat, d: Option<ByteCoding.Read>): Option<ByteCoding.Read> {
    if d.None? then None else Some(ByteCoding.Read(acc + Power128(k) * d.value.value, d.value.used + k))
  }

  /** The last byte at bit 28 may hold four more bits only. */
  function Ended(last: int, bitpos: nat, result: nat, used: nat): Option<ByteCoding.Read> {
    if bitpos == 35 && last / 16 % 8 != 0 then None else Some(ByteCoding.Read(result, used))
  }

  lemma NoRest32(bitpos: nat, result: nat)
    requires result < TWO_32 && bitpos % 7 == 0
    ensures ReadRest32([], bitpos, result) == None
  {
  }

  /** What one more byte does to a varint. */
  lemma Rest32Step(s: Bytes, bitpos: nat, result: nat)
    requires s != [] && result < TWO_32 && bitpos % 7 == 0
    ensures var b: int := s[0];
            var sign := if bitpos < 63 then 0xff else 0x01;
            var next := if bitpos >= 32 then result else (result + b % 128 * Shift(bitpos)) % TWO_32;
            ReadRest32(s, bitpos, result) ==
            if bitpos >= 32 && b % 128 != 0 && (result < TWO_31 || b != sign) then None
            else if b >= 128 then Advanced(ReadRest32(s[1..], bitpos + 7, next), 1)
            else Ended(b, bitpos + 7, next, 1)
  {
  }

  /** A value read and the bytes after it, or nothing. */
  ghost predicate Taken(r: Option<nat>, left: Bytes, d: Option<Read>, s: Bytes) {
    if d.Some? then d.value.used <= |s| && r == Some(d.value.value) && left == s[d.value.used..] else r == None
  }

  function Advanced(d: Option<Read>, n: nat): Option<Read> {
    if d.None? then None else Some(Read(d.value.value, d.value.used + n))
  }

  lemma StartVarint(s: Bytes)
    ensures ReadVarint(s, 10) == Joined(0, 0, ReadVarint(s[0..], 10))
  {
    hide ReadVarint;
    assert s[0..] == s;
  }

  lemma WordSum(acc: nat, more: nat)
    ensures (acc % TWO_64 + more) % TWO_64 == (acc + more) % TWO_64
  {
    assert acc == acc / TWO_64 * TWO_64 + acc % TWO_64;
  }

  lemma VarintStep(s: Bytes, left: nat, acc: nat, k: nat)
    ensures left == 0 || s == [] ==> ReadVarint(s, left) == None
    ensures left > 0 && s != [] ==>
              Joined(acc, k, ReadVarint(s, left)) ==
              if s[0] < 128 then Some(ByteCoding.Read(acc + s[0] as int % 128 * Power128(k), k + 1))
              else Joined(acc + s[0] as int % 128 * Power128(k), k + 1, ReadVarint(s[1..], left - 1))
  {
    if left > 0 && s != [] && s[0] >= 128 {
      var d := ReadVarint(s[1..], left - 1);
      if d.Some? {
        Distribute(s[0] as int - 128, 128 * d.value.value, Power128(k));
        Reassociate(d.value.value, Power128(k));
      }
    }
  }

  lemma Distribute(a: int, b: int, d: int)
    ensures d * (a + b) == a * d + d * b
  {
  }

  lemma Reassociate(v: int, p: int)
    ensures p * (128 * v) == 128 * p * v
  {
  }
}
