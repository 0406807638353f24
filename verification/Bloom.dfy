/**
  The Bloom filter policy: whatever the hash function, a key a filter was built from always matches.
 */
module Bloom {
  import opened ByteCoding
  import opened LogFormat
  import opened ByteKeys
  import opened FilterBlock

  type Hash = Key -> Word

  /** A filter's bit array and the number of probes stored behind it. */
  datatype Filter = Filter(bits: seq<bv8>, probes: nat)

  /* ---- Bits ---- */

  function Mask(p: nat): bv8 {
    match p
    case 0 => 1
    case 1 => 2
    case 2 => 4
    case 3 => 8
    case 4 => 16
    case 5 => 32
    case 6 => 64
    case _ => 128
  }

  /** Bit `p` of a byte is the one worth two to the power of `p`. */
  lemma MaskIsShift(p: nat)
    requires p < 8
    ensures Mask(p) == (1 as bv8) << p
  {
  }

  predicate BitSet(a: seq<bv8>, bit: nat)
    requires bit < 8 * |a|
  {
    a[bit / 8] & Mask(bit % 8) != 0
  }

  lemma OrSets(x: bv8, p: nat)
    requires p < 8
    ensures (x | Mask(p)) & Mask(p) != 0
  {
  }

  lemma OrKeeps(x: bv8, m: bv8, p: nat)
    requires p < 8 && x & Mask(p) != 0
    ensures (x | m) & Mask(p) != 0
  {
  }

  lemma OrNoOther(x: bv8, p: nat, q: nat)
    requires p < 8 && q < 8 && p != q
    ensures (x | Mask(p)) & Mask(q) == x & Mask(q)
  {
  }

  /* ---- Probes ---- */

  /** Rotate right 17 bits. */
  function Delta(h: Word): Word {
    h / 0x2_0000 + h % 0x2_0000 * 0x8000
  }

  /** Every bit of the increment is the bit of the hash value 17 places further up, round and round. */
  lemma DeltaRotates(h: Word, p: nat)
    requires p < 32
    ensures Bit(Delta(h), p) <==> Bit(h, (p + 17) % 32)
  {
    hide Bit, Power2;
    Powers();
    var low, high := h % 0x2_0000, h / 0x2_0000;
    BitAbove(low, high, 17, (p + 17) % 32);
    BitAbove(high, low, 15, p);
  }

  /** Probes are evenly spaced. */
  lemma {:induction false} ProbeSpacing(h: Word, j: nat)
    ensures Probe(h, j) == (h + j * Delta(h)) % 0x1_0000_0000
    decreases j
  {
    hide Delta;
    if j > 0 {
      ProbeSpacing(h, j - 1);
      NextSpacing(h, Delta(h), j, Probe(h, j - 1));
    }
  }

  lemma NextSpacing(h: nat, d: nat, j: nat, x: nat)
    requires j > 0 && x == (h + (j - 1) * d) % TWO_32
    ensures (x + d) % TWO_32 == (h + j * d) % TWO_32
  {
    OneMore(j, d);
    AddMod(h + (j - 1) * d, d);
  }

  lemma OneMore(j: nat, d: nat)
    requires j > 0
    ensures (j - 1) * d >= 0 && (j - 1) * d + d == j * d
  {
  }

  lemma AddMod(x: nat, d: nat)
    ensures (x % TWO_32 + d) % TWO_32 == (x + d) % TWO_32
  {
    var q := x / TWO_32;
    assert x + d == (x % TWO_32 + d) + q * TWO_32;
  }

  /** The hash value of probe `j`. */
  function Probe(h: Word, j: nat): Word {
    if j == 0 then h else (Probe(h, j - 1) + Delta(h)) % TWO_32
  }

  /** KeyMayMatch as a property: the first `n` probe bits are set. */
  ghost predicate ProbesSet(a: seq<bv8>, h: Word, n: nat)
    requires a != []
  {
    forall j :: 0 <= j < n ==> BitSet(a, Probe(h, j) % (8 * |a|))
  }

  ghost predicate Grows(a: seq<bv8>, b: seq<bv8>) {
    |a| == |b| && forall bit: nat :: bit < 8 * |a| && BitSet(a, bit) ==> BitSet(b, bit)
  }

  /** The array with the first `k` probe bits of a key set. */
  function WithKey(a: seq<bv8>, h: Word, k: nat): (b: seq<bv8>)
    requires a != []
    ensures |b| == |a|
  {
    if k == 0 then a
    else
      var b := WithKey(a, h, k - 1);
      var bit := Probe(h, k - 1) % (8 * |a|);
      b[bit / 8 := b[bit / 8] | Mask(bit % 8)]
  }

  function WithKeys(a: seq<bv8>, hash: Hash, keys: seq<Key>, k: nat): (b: seq<bv8>)
    requires a != []
    ensures |b| == |a|
  {
    if keys == [] then a else WithKey(WithKeys(a, hash, keys[..|keys| - 1], k), hash(keys[|keys| - 1]), k)
  }

  lemma {:induction false} WithKeySets(a: seq<bv8>, h: Word, k: nat)
    requires a != []
    ensures ProbesSet(WithKey(a, h, k), h, k) && Grows(a, WithKey(a, h, k))
  {
    if k > 0 {
      WithKeySets(a, h, k - 1);
      var b, bit := WithKey(a, h, k - 1), Probe(h, k - 1) % (8 * |a|);
      SetBitGrows(b, WithKey(a, h, k), bit);
      StillSet(b, WithKey(a, h, k), h, k - 1);
    }
  }

  /** Set the bits of one key. */
  method AddKey(a: array<bv8>, h: Word, k: nat)
    requires a.Length > 0
    modifies a
    ensures a[..] == WithKey(old(a[..]), h, k)
    ensures ProbesSet(a[..], h, k) && Grows(old(a[..]), a[..])
  {
    hide BitSet, Grows, ProbesSet;
    var bits := 8 * a.Length;
    var v := h;
    for j := 0 to k
      invariant v == Probe(h, j) && a[..] == WithKey(old(a[..]), h, j)
    {
      var bitpos := v % bits;
      a[bitpos / 8] := a[bitpos / 8] | Mask(bitpos % 8);
      v := (v + Delta(h)) % TWO_32;
    }
    WithKeySets(old(a[..]), h, k);
  }

  lemma SetBitGrows(a: seq<bv8>, b: seq<bv8>, bit: nat)
    requires bit < 8 * |a| && b == a[bit / 8 := a[bit / 8] | Mask(bit % 8)]
    ensures Grows(a, b) && BitSet(b, bit)
  {
    OrSets(a[bit / 8], bit % 8);
    forall other: nat | other < 8 * |a| && BitSet(a, other) ensures BitSet(b, other) {
      OrKeeps(a[other / 8], Mask(bit % 8), other % 8);
    }
  }

  function FilterBytes(n: nat, bitsPerKey: nat): (b: nat)
    ensures 8 * b >= 64 && 8 * b >= n * bitsPerKey && (8 * b <= 64 || 8 * b < n * bitsPerKey + 8)
  {
    var bits := n * bitsPerKey;
    ((if bits < 64 then 64 else bits) + 7) / 8
  }

  function Zeros(n: nat): (r: seq<bv8>)
    ensures |r| == n && forall i :: 0 <= i < n ==> r[i] == 0
  {
    seq(n, i => 0)
  }

  function Filtered(hash: Hash, keys: seq<Key>, bitsPerKey: nat, k: nat): Filter {
    Filter(WithKeys(Zeros(FilterBytes(|keys|, bitsPerKey)), hash, keys, k), k)
  }

  ghost predicate ProbedBy(h: Word, k: nat, bits: nat, bit: nat)
    requires bits > 0
  {
    exists j: nat :: j < k && Probe(h, j) % bits == bit
  }

  /** Some key of the set has a probe there. */
  ghost predicate Probed(hash: Hash, keys: seq<Key>, k: nat, bits: nat, bit: nat)
    requires bits > 0
  {
    exists key :: key in keys && ProbedBy(hash(key), k, bits, bit)
  }

  lemma SetsNoOther(a: seq<bv8>, bit: nat, other: nat)
    requires bit < 8 * |a| && other < 8 * |a|
    ensures BitSet(a[bit / 8 := a[bit / 8] | Mask(bit % 8)], other) <==> other == bit || BitSet(a, other)
  {
    hide Mask;
    var b := a[bit / 8 := a[bit / 8] | Mask(bit % 8)];
    if other / 8 == bit / 8 {
      assert b[other / 8] == a[bit / 8] | Mask(bit % 8);
      OrOnly(a[bit / 8], bit % 8, other % 8);
      assert other % 8 == bit % 8 <==> other == bit;
    } else {
      assert b[other / 8] == a[other / 8] && other != bit;
    }
  }

  lemma OrOnly(x: bv8, p: nat, q: nat)
    requires p < 8 && q < 8
    ensures (x | Mask(p)) & Mask(q) != 0 <==> p == q || x & Mask(q) != 0
  {
    if p == q {
      OrSets(x, p);
    } else {
      OrNoOther(x, p, q);
    }
  }

  lemma NextProbe(h: Word, k: nat, bits: nat, bit: nat)
    requires bits > 0 && k > 0
    ensures ProbedBy(h, k, bits, bit) <==> ProbedBy(h, k - 1, bits, bit) || Probe(h, k - 1) % bits == bit
  {
    hide Probe;
  }

  lemma {:induction false} WithKeyOnly(a: seq<bv8>, h: Word, k: nat, bit: nat)
    requires a != [] && bit < 8 * |a|
    ensures BitSet(WithKey(a, h, k), bit) <==> BitSet(a, bit) || ProbedBy(h, k, 8 * |a|, bit)
  {
    hide Probe, BitSet;
    if k > 0 {
      WithKeyOnly(a, h, k - 1, bit);
      SetsNoOther(WithKey(a, h, k - 1), Probe(h, k - 1) % (8 * |a|), bit);
      NextProbe(h, k, 8 * |a|, bit);
    }
  }

  lemma LastKey(hash: Hash, keys: seq<Key>, k: nat, bits: nat, bit: nat)
    requires bits > 0 && keys != []
    ensures var n := |keys| - 1;
            Probed(hash, keys, k, bits, bit) <==> Probed(hash, keys[..n], k, bits, bit) || ProbedBy(hash(keys[n]), k, bits, bit)
  {
    hide ProbedBy;
    var n := |keys| - 1;
    assert forall key :: key in keys <==> key == keys[n] || key in keys[..n];
  }

  lemma {:induction false} WithKeysOnly(a: seq<bv8>, hash: Hash, keys: seq<Key>, k: nat, bit: nat)
    requires a != [] && bit < 8 * |a|
    ensures BitSet(WithKeys(a, hash, keys, k), bit) <==> BitSet(a, bit) || Probed(hash, keys, k, 8 * |a|, bit)
  {
    hide WithKey, ProbedBy, BitSet;
    if keys != [] {
      var n := |keys| - 1;
      WithKeysOnly(a, hash, keys[..n], k, bit);
      WithKeyOnly(WithKeys(a, hash, keys[..n], k), hash(keys[n]), k, bit);
      LastKey(hash, keys, k, 8 * |a|, bit);
    }
  }

  /** The bits of a filter are those that its keys probe, and no others. */
  lemma BitsAreProbes(hash: Hash, keys: seq<Key>, bitsPerKey: nat, k: nat)
    ensures var f := Filtered(hash, keys, bitsPerKey, k);
            && |f.bits| == FilterBytes(|keys|, bitsPerKey)
            && forall bit: nat :: bit < 8 * |f.bits| ==> (BitSet(f.bits, bit) <==> Probed(hash, keys, k, 8 * |f.bits|, bit))
  {
    hide BitSet, Probed, WithKeys;
    var zeros := Zeros(FilterBytes(|keys|, bitsPerKey));
    var f := Filtered(hash, keys, bitsPerKey, k);
    forall bit: nat | bit < 8 * |f.bits| ensures BitSet(f.bits, bit) <==> Probed(hash, keys, k, 8 * |f.bits|, bit) {
      WithKeysOnly(zeros, hash, keys, k, bit);
      NothingSet(zeros, bit);
    }
  }

  lemma NothingSet(a: seq<bv8>, bit: nat)
    requires bit < 8 * |a| && forall i :: 0 <= i < |a| ==> a[i] == 0
    ensures !BitSet(a, bit)
  {
  }

  /** `k` is 0.69 times the bits per key, within 1 and 30. */
  method CreateFilter(hash: Hash, keys: seq<Key>, bitsPerKey: nat, k: nat) returns (f: Filter)
    requires 1 <= k <= 30
    ensures f == Filtered(hash, keys, bitsPerKey, k)
    ensures |f.bits| == FilterBytes(|keys|, bitsPerKey) && f.probes == k
    ensures forall bit: nat :: bit < 8 * |f.bits| ==> (BitSet(f.bits, bit) <==> Probed(hash, keys, k, 8 * |f.bits|, bit))
    ensures forall key :: key in keys ==> ProbesSet(f.bits, hash(key), f.probes)
  {
    hide BitSet, Probed;
    BitsAreProbes(hash, keys, bitsPerKey, k);
    var a := new bv8[FilterBytes(|keys|, bitsPerKey)](i => 0);
    ghost var zeros := Zeros(a.Length);
    assert a[..] == zeros;
    for i := 0 to |keys|
      invariant a[..] == WithKeys(zeros, hash, keys[..i], k)
      invariant forall j :: 0 <= j < i ==> ProbesSet(a[..], hash(keys[j]), k)
    {
      ghost var before := a[..];
      AddKey(a, hash(keys[i]), k);
      assert keys[..i + 1][..i] == keys[..i];
      forall j | 0 <= j < i ensures ProbesSet(a[..], hash(keys[j]), k) {
        StillSet(before, a[..], hash(keys[j]), k);
      }
    }
    assert keys[..|keys|] == keys;
    f := Filter(a[..], k);
  }

  lemma StillSet(a: seq<bv8>, b: seq<bv8>, h: Word, k: nat)
    requires a != [] && Grows(a, b) && ProbesSet(a, h, k)
    ensures ProbesSet(b, h, k)
  {
    forall j | 0 <= j < k ensures BitSet(b, Probe(h, j) % (8 * |b|)) {
      assert BitSet(a, Probe(h, j) % (8 * |a|));
    }
  }

  /** Filters of an unknown kind match everything, empty ones nothing. */
  ghost predicate Matches(hash: Hash, key: Key, f: Filter) {
    f.bits != [] && (f.probes > 30 || ProbesSet(f.bits, hash(key), f.probes))
  }

  method KeyMayMatch(hash: Hash, key: Key, f: Filter) returns (r: bool)
    ensures r <==> Matches(hash, key, f)
  {
    if f.bits == [] {
      return false;
    }
    if f.probes > 30 {
      return true;
    }
    var bits := 8 * |f.bits|;
    var v := hash(key);
    for j := 0 to f.probes
      invariant v == Probe(hash(key), j) && ProbesSet(f.bits, hash(key), j)
    {
      var bitpos := v % bits;
      if f.bits[bitpos / 8] & Mask(bitpos % 8) == 0 {
        assert !BitSet(f.bits, Probe(hash(key), j) % bits);
        return false;
      }
      v := (v + Delta(hash(key))) % TWO_32;
    }
    return true;
  }

  /** No key is ever denied by a filter that was built from it. */
  method NoFalseNegative(hash: Hash, keys: seq<Key>, key: Key, bitsPerKey: nat, k: nat) returns (r: bool)
    requires key in keys && 1 <= k <= 30
    ensures r
  {
    var f := CreateFilter(hash, keys, bitsPerKey, k);
    r := KeyMayMatch(hash, key, f);
  }

  /* ---- The policy that a filter block is built with ---- */

  function ToByte(b: bv8): Byte {
    b as int
  }

  function ToBits(b: Byte): bv8 {
    b as bv8
  }

  lemma SameByte(b: bv8)
    ensures ToBits(ToByte(b)) == b
  {
  }

  /** The bytes of a filter: the bit array, and behind it the number of probes. */
  function Written(f: Filter): Bytes
    requires f.probes <= 30
  {
    seq(|f.bits|, i requires 0 <= i < |f.bits| => ToByte(f.bits[i])) + [f.probes]
  }

  function Read(bytes: Bytes): Filter {
    if |bytes| < 2 then Filter([], 0)
    else
      var n := |bytes| - 1;
      Filter(seq(n, i requires 0 <= i < n => ToBits(bytes[i])), bytes[n])
  }

  lemma ReadInverts(f: Filter)
    requires f.bits != [] && f.probes <= 30
    ensures Read(Written(f)) == f
  {
    forall i | 0 <= i < |f.bits| ensures ToBits(ToByte(f.bits[i])) == f.bits[i] {
      SameByte(f.bits[i]);
    }
  }

  ghost function BloomPolicy(hash: Hash, bitsPerKey: nat, k: nat): Policy
    requires 1 <= k <= 30
  {
    Policy(keys => Written(Filtered(hash, keys, bitsPerKey, k)), (key, bytes) => Matches(hash, key, Read(bytes)))
  }

  lemma {:induction false} WithKeysSets(a: seq<bv8>, hash: Hash, keys: seq<Key>, k: nat, key: Key)
    requires a != [] && key in keys
    ensures ProbesSet(WithKeys(a, hash, keys, k), hash(key), k)
  {
    var n := |keys| - 1;
    var b := WithKeys(a, hash, keys[..n], k);
    WithKeySets(b, hash(keys[n]), k);
    if key != keys[n] {
      WithKeysSets(a, hash, keys[..n], k, key);
      StillSet(b, WithKeys(a, hash, keys, k), hash(key), k);
    }
  }

  /** The Bloom filter is a policy as the filter block asks for: it denies no key that a filter was created from. */
  lemma BloomNeverDenies(hash: Hash, bitsPerKey: nat, k: nat)
    requires 1 <= k <= 30
    ensures NeverDenies(BloomPolicy(hash, bitsPerKey, k))
  {
    var p := BloomPolicy(hash, bitsPerKey, k);
    forall keys, key | key in keys ensures p.mayMatch(key, p.create(keys)) {
      var f := Filtered(hash, keys, bitsPerKey, k);
      WithKeysSets(Zeros(FilterBytes(|keys|, bitsPerKey)), hash, keys, k, key);
      ReadInverts(f);
    }
  }
}
