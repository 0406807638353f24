/**
  User keys, internal keys and the history that the whole store refines.

  The engine never looks inside a user key: it only asks the user comparator for an order.  A run
  mentions finitely many keys, and any finite set of keys under a total order can be numbered in that
  order, so integers stand for user keys here; the byte strings themselves and their comparator are
  the subject of module ByteKeys.
 */
module DbFormat {
  import opened Wrappers

  const NUM_LEVELS: nat := 7
  const MAX_MEM_COMPACT_LEVEL: nat := 2
  const MAX_SEQUENCE: nat := 0xff_ffff_ffff_ffff

  type SequenceNumber = s: int | 0 <= s <= MAX_SEQUENCE
  type UserKey = int
  type Value = string

  datatype Op = Deletion | Put(value: Value)

  /** Type bytes of internal keys: kTypeDeletion is 0; kTypeValue, also used for seeks, is 1. */
  function Kind(op: Op): nat {
    if op.Deletion? then 0 else 1
  }

  datatype InternalKey = InternalKey(user: UserKey, sn: SequenceNumber, kind: nat)

  /** The strict order of internal keys: user key ascending, then sequence and kind descending. */
  predicate Before(a: InternalKey, b: InternalKey) {
    || a.user < b.user
    || (a.user == b.user && (a.sn > b.sn || (a.sn == b.sn && a.kind > b.kind)))
  }

  /** The internal key that precedes every entry of user key `k` visible at sequence `s`. */
  function LookupKey(k: UserKey, s: SequenceNumber): InternalKey {
    InternalKey(k, s, 1)
  }

  datatype Entry = Entry(key: UserKey, sn: SequenceNumber, op: Op) {
    function IKey(): InternalKey {
      InternalKey(key, sn, Kind(op))
    }
  }

  /** What a reader sees of an operation: nothing of a deletion. */
  function Outcome(op: Op): Option<Value> {
    match op
    case Deletion => None
    case Put(v) => Some(v)
  }

  ghost predicate Sorted(s: seq<Entry>) {
    forall i, j :: 0 <= i < j < |s| ==> Before(s[i].IKey(), s[j].IKey())
  }

  ghost function Elems(s: seq<Entry>): set<Entry> {
    set e | e in s
  }

  /** Entries of `a` are newer than entries of `b` that share a user key. */
  ghost predicate Newer(a: set<Entry>, b: set<Entry>) {
    forall x, y :: x in a && y in b && x.key == y.key ==> x.sn > y.sn
  }

  /** No two entries of one user key carry the same sequence number. */
  ghost predicate Unique(E: set<Entry>) {
    forall x, y :: x in E && y in E && x.key == y.key && x.sn == y.sn ==> x == y
  }

  /* ---- The specification: reading a write history ---- */

  /** A history lists the entries in the order they were written. */
  ghost predicate Chronological(h: seq<Entry>) {
    forall i, j :: 0 <= i < j < |h| ==> h[i].sn < h[j].sn
  }

  /** The value of `k` at sequence `s`: the last write of `k` that is not later than `s`. */
  function View(h: seq<Entry>, k: UserKey, s: SequenceNumber): Option<Value> {
    if h == [] then None
    else
      var e := h[|h| - 1];
      if e.key == k && e.sn <= s then Outcome(e.op) else View(h[..|h| - 1], k, s)
  }

  /* ---- Reading a set of entries ---- */

  ghost predicate Visible(e: Entry, k: UserKey, s: int) {
    e.key == k && e.sn <= s
  }

  /** `e` is the newest entry of `k` in `E` that a reader at `s` may see. */
  ghost predicate IsNewest(E: set<Entry>, k: UserKey, s: int, e: Entry) {
    && e in E && Visible(e, k, s)
    && forall x :: x in E && Visible(x, k, s) ==> x.sn <= e.sn
  }

  ghost function ReadSet(E: set<Entry>, k: UserKey, s: int): Option<Value> {
    if exists e :: IsNewest(E, k, s, e) then var e :| IsNewest(E, k, s, e); Outcome(e.op) else None
  }

  lemma ReadSetFound(E: set<Entry>, k: UserKey, s: int, e: Entry)
    requires Unique(E) && IsNewest(E, k, s, e)
    ensures ReadSet(E, k, s) == Outcome(e.op)
  {
    forall d | IsNewest(E, k, s, d)
      ensures d == e
    {
      assert Visible(d, k, s) && Visible(e, k, s);
    }
  }

  lemma ReadSetMissing(E: set<Entry>, k: UserKey, s: int)
    requires forall x :: x in E ==> !Visible(x, k, s)
    ensures ReadSet(E, k, s) == None
  {
  }

  lemma ReadSetAgree(E: set<Entry>, F: set<Entry>, k: UserKey, s: int)
    requires Unique(E) && Unique(F)
    requires forall e :: IsNewest(E, k, s, e) <==> IsNewest(F, k, s, e)
    ensures ReadSet(E, k, s) == ReadSet(F, k, s)
  {
    if e :| IsNewest(E, k, s, e) {
      ReadSetFound(E, k, s, e);
      ReadSetFound(F, k, s, e);
    }
  }

  lemma {:induction false} NewestExists(E: set<Entry>, k: UserKey, s: int, x: Entry) returns (e: Entry)
    requires x in E && Visible(x, k, s)
    ensures IsNewest(E, k, s, e) && e.sn >= x.sn
    decreases E
  {
    if y :| y in E && Visible(y, k, s) && y.sn > x.sn {
      e := NewestExists(E - {x}, k, s, y);
      assert IsNewest(E, k, s, e);
    } else {
      e := x;
    }
  }

  /** Adding an entry newer than all others of its key changes exactly the reads that see it. */
  lemma ReadSetAdd(E: set<Entry>, e: Entry, k: UserKey, s: int)
    requires Unique(E) && Newer({e}, E)
    ensures Unique(E + {e})
    ensures ReadSet(E + {e}, k, s) == if Visible(e, k, s) then Outcome(e.op) else ReadSet(E, k, s)
  {
    var F := E + {e};
    if Visible(e, k, s) {
      assert e in {e};
      assert IsNewest(F, k, s, e);
      ReadSetFound(F, k, s, e);
    } else {
      forall x ensures IsNewest(E, k, s, x) <==> IsNewest(F, k, s, x) {
      }
      ReadSetAgree(E, F, k, s);
    }
  }

  /** The history specification and the set reading agree. */
  lemma {:induction false} ViewIsReadSet(h: seq<Entry>, k: UserKey, s: SequenceNumber)
    requires Chronological(h)
    ensures Unique(Elems(h))
    ensures View(h, k, s) == ReadSet(Elems(h), k, s)
  {
    if h != [] {
      var n := |h| - 1;
      var e := h[n];
      assert h == h[..n] + [e];
      assert Elems(h) == Elems(h[..n]) + {e};
      ViewIsReadSet(h[..n], k, s);
      ReadSetAdd(Elems(h[..n]), e, k, s);
    }
  }
}
