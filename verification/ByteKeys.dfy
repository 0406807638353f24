/**
  Keys as byte strings: the bytewise comparator, internal keys on top of it, and the two ways of finding
  a short key between others.
 */
module ByteKeys {
  import opened ByteCoding
  import opened LogFormat

  type Key = seq<Byte>

  /** Lexicographic order of unsigned bytes. */
  predicate Less(a: Key, b: Key) {
    if b == [] then false
    else if a == [] then true
    else if a[0] != b[0] then a[0] < b[0]
    else Less(a[1..], b[1..])
  }

  lemma {:induction false} LessIsTotal(a: Key, b: Key)
    ensures (a == b && !Less(a, b) && !Less(b, a)) || (a != b && (Less(a, b) <==> !Less(b, a)))
    decreases |a|
  {
    if a != [] && b != [] && a[0] == b[0] {
      LessIsTotal(a[1..], b[1..]);
      assert a == [a[0]] + a[1..] && b == [b[0]] + b[1..];
    }
  }

  lemma {:induction false} LessTransitive(a: Key, b: Key, c: Key)
    requires Less(a, b) && Less(b, c)
    ensures Less(a, c)
    decreases |a|
  {
    if a != [] && a[0] == b[0] && b[0] == c[0] {
      LessTransitive(a[1..], b[1..], c[1..]);
    }
  }

  /** Keys that differ first at byte `d`. */
  lemma {:induction false} LessAt(a: Key, b: Key, d: nat)
    requires d < |a| && d < |b| && a[..d] == b[..d] && a[d] != b[d]
    ensures Less(a, b) <==> a[d] < b[d]
    decreases d
  {
    if d > 0 {
      assert a[0] == a[..d][0] == b[..d][0] == b[0];
      assert a[1..][..d - 1] == a[..d][1..] && b[1..][..d - 1] == b[..d][1..];
      LessAt(a[1..], b[1..], d - 1);
    }
  }

  /** Nothing shorter than what two keys have in common lies between them. */
  lemma {:induction false} NothingBetween(a: Key, b: Key, d: nat, k: Key)
    requires d <= |a| && d <= |b| && a[..d] == b[..d] && |k| <= d
    ensures !(Less(a, k) && Less(k, b))
    decreases d
  {
    if k != [] && a[0] == k[0] {
      assert a[0] == a[..d][0] == b[..d][0] == b[0];
      assert a[1..][..d - 1] == a[..d][1..] && b[1..][..d - 1] == b[..d][1..];
      NothingBetween(a[1..], b[1..], d - 1, k[1..]);
    } else if k != [] {
      assert a[0] == a[..d][0] == b[..d][0] == b[0];
    }
  }

  lemma SamePrefix(a: Key, b: Key, n: nat)
    requires n <= |a| && n <= |b| && a[..n] == b[..n]
    ensures forall k :: 0 <= k < n ==> a[k] == b[k]
  {
    assert forall k :: 0 <= k < n ==> a[..n][k] == b[..n][k];
  }

  /** The keys differ first at byte `d`, and by more than one. */
  predicate Parts(start: Key, limit: Key, d: nat) {
    d < |start| && d < |limit| && start[..d] == limit[..d] && start[d] as int + 1 < limit[d] as int
  }

  /**
    The shortest key between the two if their first different bytes leave room for one; otherwise `start`.
   */
  method FindShortestSeparator(start: Key, limit: Key) returns (r: Key)
    ensures r == start || (Less(start, r) && Less(r, limit) && |r| <= |start|)
    ensures r != start <==> exists d: nat :: Parts(start, limit, d)
    ensures forall d: nat :: Parts(start, limit, d) ==> |r| == d + 1
    ensures r != start ==> forall k :: Less(start, k) && Less(k, limit) ==> |r| <= |k|
  {
    var minLength := if |start| < |limit| then |start| else |limit|;
    var d := 0;
    while d < minLength && start[d] == limit[d]
      invariant 0 <= d <= minLength && start[..d] == limit[..d]
    {
      d := d + 1;
    }
    r := start;
    SamePrefix(start, limit, d);
    forall e: nat | Parts(start, limit, e) ensures e == d {
      SamePrefix(start, limit, e);
    }
    if d >= minLength {
    } else {
      var byte: int := start[d];
      if byte < 0xff && byte + 1 < limit[d] {
        r := start[..d] + [byte + 1];
        LessAt(start, r, d);
        LessAt(r, limit, d);
        assert Parts(start, limit, d);
        forall k | Less(start, k) && Less(k, limit) ensures |r| <= |k| {
          if |k| <= d {
            NothingBetween(start, limit, d, k);
          }
        }
      }
    }
  }

  lemma {:induction false} NothingAfter(key: Key, i: nat, k: Key)
    requires i <= |key| && (forall j :: 0 <= j < i ==> key[j] == 0xff) && |k| <= i
    ensures !Less(key, k)
    decreases i
  {
    if k != [] && key[0] == k[0] {
      NothingAfter(key[1..], i - 1, k[1..]);
    }
  }

  /** The shortest key after `key`, unless that is a run of 0xff, which stays as it is. */
  method FindShortSuccessor(key: Key) returns (r: Key)
    ensures r == key || (Less(key, r) && |r| <= |key|)
    ensures r == key <==> forall i :: 0 <= i < |key| ==> key[i] == 0xff
    ensures r != key ==> forall k :: Less(key, k) ==> |r| <= |k|
  {
    for i := 0 to |key|
      invariant forall j :: 0 <= j < i ==> key[j] == 0xff
    {
      var byte: int := key[i];
      if byte != 0xff {
        r := key[..i] + [byte + 1];
        LessAt(key, r, i);
        forall k | Less(key, k) ensures |r| <= |k| {
          if |k| <= i {
            NothingAfter(key, i, k);
          }
        }
        return;
      }
    }
    r := key;
  }

  /* ---- Internal keys ---- */

  const MAX_SEQUENCE: nat := 0xff_ffff_ffff_ffff
  const SEEK_NUMBER: nat := MAX_SEQUENCE * 256 + 1

  /** A user key with its packed sequence and type. */
  datatype IKey = IKey(user: Key, number: nat)

  predicate Before(a: IKey, b: IKey) {
    Less(a.user, b.user) || (a.user == b.user && a.number > b.number)
  }

  function Pack(sequence: nat, kind: nat): nat {
    sequence * 256 + kind
  }

  /** The order of packed numbers is the order of sequences, then types. */
  lemma PackedOrder(s: nat, k: nat, t: nat, l: nat)
    requires k < 256 && l < 256
    ensures Pack(s, k) > Pack(t, l) <==> s > t || (s == t && k > l)
  {
  }

  function Fixed64(n: nat): (r: seq<Byte>)
    ensures |r| == 8
  {
    Fixed32(n % TWO_32) + Fixed32(n / TWO_32 % TWO_32)
  }

  function Append(k: IKey): seq<Byte> {
    k.user + Fixed64(k.number)
  }

  function Extract(b: seq<Byte>): IKey
    requires |b| >= 8
  {
    var n := |b| - 8;
    IKey(b[..n], ReadFixed32(b[n..]) + TWO_32 * ReadFixed32(b[n + 4..]))
  }

  /** The user key and the packed number come back from the bytes. */
  lemma ExtractInvertsAppend(k: IKey)
    requires k.number < TWO_32 * TWO_32
    ensures Extract(Append(k)) == k
  {
    hide Fixed32, ReadFixed32;
    var b, n := Append(k), |k.user|;
    var lo, hi := Fixed32(k.number % TWO_32), Fixed32(k.number / TWO_32 % TWO_32);
    assert b[..n] == k.user && b[n..] == lo + hi && b[n + 4..] == hi + [];
    Fixed32RoundTrip(k.number % TWO_32);
    Fixed32RoundTrip(k.number / TWO_32 % TWO_32);
  }

  lemma BeforeIsTotal(a: IKey, b: IKey)
    ensures (a == b && !Before(a, b) && !Before(b, a)) || (a != b && (Before(a, b) <==> !Before(b, a)))
  {
    LessIsTotal(a.user, b.user);
  }

  lemma BeforeTransitive(a: IKey, b: IKey, c: IKey)
    requires Before(a, b) && Before(b, c)
    ensures Before(a, c)
  {
    if Less(a.user, b.user) && Less(b.user, c.user) {
      LessTransitive(a.user, b.user, c.user);
    }
  }

  /**
    A separator is the left key itself unless its user key can be shortened; then it has the shortest user key
    strictly between, with the number that comes before all others.
   */
  method FindInternalSeparator(start: IKey, limit: IKey) returns (r: IKey)
    ensures r == start || (Less(start.user, r.user) && Less(r.user, limit.user))
    ensures Before(start, limit) ==> !Before(r, start) && Before(r, limit)
    ensures (exists d: nat :: d + 1 < |start.user| && Parts(start.user, limit.user, d)) ==>
              |r.user| < |start.user| && r.number == 0xffff_ffff_ffff_ff01
    ensures (forall d: nat :: d + 1 < |start.user| ==> !Parts(start.user, limit.user, d)) ==> r == start
    ensures r != start ==> forall k :: Less(start.user, k) && Less(k, limit.user) ==> |r.user| <= |k|
  {
    var tmp := FindShortestSeparator(start.user, limit.user);
    r := start;
    if |tmp| < |start.user| && Less(start.user, tmp) {
      r := IKey(tmp, SEEK_NUMBER);
    }
    BeforeIsTotal(r, start);
    LessIsTotal(tmp, start.user);
  }

  method FindInternalSuccessor(key: IKey) returns (r: IKey)
    ensures r == key || Less(key.user, r.user)
    ensures !Before(r, key)
    ensures (exists i :: 0 <= i && i + 1 < |key.user| && key.user[i] != 0xff) <==> r != key
    ensures r != key ==> r.number == 0xffff_ffff_ffff_ff01 && forall k :: Less(key.user, k) ==> |r.user| <= |k|
  {
    var tmp := FindShortSuccessor(key.user);
    r := key;
    if |tmp| < |key.user| && Less(key.user, tmp) {
      r := IKey(tmp, SEEK_NUMBER);
    }
    BeforeIsTotal(r, key);
    if i :| 0 <= i && i + 1 < |key.user| && key.user[i] != 0xff {
      ShorterAfter(key.user, i);
    } else if key.user != [] {
      forall k: Key | |k| < |key.user| ensures !Less(key.user, k) {
        NothingAfter(key.user, |key.user| - 1, k);
      }
    }
  }

  lemma ShorterAfter(key: Key, i: nat)
    requires i < |key| && key[i] != 0xff
    ensures exists k :: Less(key, k) && |k| == i + 1
  {
    var byte: int := key[i];
    var k := key[..i] + [byte + 1];
    LessAt(key, k, i);
  }
}
