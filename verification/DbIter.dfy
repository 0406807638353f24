/**
  The user-visible iterator.  It walks an internal iterator over all entries, versions and deletions
  included, and shows one row for each user key that has a value at its sequence number.
 */
module DbIter {
  import opened Wrappers
  import opened DbFormat
  import Versions

  /* ---- The rows a reader at sequence `s` sees ---- */

  predicate Seen(e: Entry, s: SequenceNumber) {
    e.sn <= s
  }

  /** Entry `i` is the newest visible one of its key, and a value. */
  ghost predicate Shown(es: seq<Entry>, s: SequenceNumber, i: int) {
    && 0 <= i < |es| && Seen(es[i], s) && es[i].op.Put?
    && forall j :: 0 <= j < i && es[j].key == es[i].key ==> !Seen(es[j], s)
  }

  /** Positions of the shown entries among the first `n`. */
  ghost function ShownUpTo(es: seq<Entry>, s: SequenceNumber, n: nat): seq<nat>
    requires n <= |es|
  {
    if n == 0 then [] else ShownUpTo(es, s, n - 1) + if Shown(es, s, n - 1) then [n - 1] else []
  }

  ghost function Positions(es: seq<Entry>, s: SequenceNumber): seq<nat> {
    ShownUpTo(es, s, |es|)
  }

  lemma {:induction false} ShownUpToIs(es: seq<Entry>, s: SequenceNumber, n: nat)
    requires n <= |es|
    ensures var r := ShownUpTo(es, s, n);
            && (forall i :: i in r <==> 0 <= i < n && Shown(es, s, i))
            && forall a, b :: 0 <= a < b < |r| ==> r[a] < r[b]
  {
    if n > 0 {
      ShownUpToIs(es, s, n - 1);
      var r := ShownUpTo(es, s, n - 1);
      assert forall a :: 0 <= a < |r| ==> r[a] in r;
    }
  }

  datatype Row = Row(key: UserKey, value: Value)

  /** The visible key/value pairs in key order: the sorted map that the iterator is a cursor on. */
  ghost function Rows(es: seq<Entry>, s: SequenceNumber): (r: seq<Row>)
    ensures |r| == |Positions(es, s)|
    ensures forall a :: 0 <= a < |r| ==>
              var i := Positions(es, s)[a]; i < |es| && es[i].op.Put? && r[a] == Row(es[i].key, es[i].op.value)
  {
    ShownUpToIs(es, s, |es|);
    var p := Positions(es, s);
    assert forall a :: 0 <= a < |p| ==> p[a] in p;
    seq(|p|, a requires 0 <= a < |p| => Row(es[p[a]].key, es[p[a]].op.value))
  }

  lemma KeyOrder(es: seq<Entry>, i: nat, j: nat)
    requires Sorted(es) && i <= j < |es|
    ensures es[i].key <= es[j].key && (i < j && es[i].key == es[j].key ==> es[i].sn >= es[j].sn)
  {
    assert i < j ==> Before(es[i].IKey(), es[j].IKey());
  }

  lemma RowsAscend(es: seq<Entry>, s: SequenceNumber)
    requires Sorted(es)
    ensures forall a, b :: 0 <= a < b < |Rows(es, s)| ==> Rows(es, s)[a].key < Rows(es, s)[b].key
  {
    ShownUpToIs(es, s, |es|);
    var p := Positions(es, s);
    forall a, b | 0 <= a < b < |p| ensures Rows(es, s)[a].key < Rows(es, s)[b].key {
      assert p[a] in p && p[b] in p;
      KeyOrder(es, p[a], p[b]);
    }
  }

  lemma ShownIsNewest(es: seq<Entry>, s: SequenceNumber, i: nat)
    requires Sorted(es) && i < |es|
    ensures Shown(es, s, i) ==> IsNewest(Elems(es), es[i].key, s, es[i])
    ensures IsNewest(Elems(es), es[i].key, s, es[i]) && es[i].op.Put? && Unique(Elems(es)) ==> Shown(es, s, i)
  {
    if Shown(es, s, i) {
      forall x | x in es && Visible(x, es[i].key, s) ensures x.sn <= es[i].sn {
        var j :| 0 <= j < |es| && es[j] == x;
        assert j >= i;
        KeyOrder(es, i, j);
      }
    }
    if IsNewest(Elems(es), es[i].key, s, es[i]) && es[i].op.Put? && Unique(Elems(es)) {
      forall j | 0 <= j < i && es[j].key == es[i].key ensures !Seen(es[j], s) {
        KeyOrder(es, j, i);
        assert Before(es[j].IKey(), es[i].IKey());
        assert es[j] in Elems(es) && es[i] in Elems(es);
        assert Seen(es[j], s) ==> Visible(es[j], es[i].key, s);
      }
    }
  }

  /** Every pair the specification has, and no other, is a row: hidden versions and deletions never show. */
  lemma RowsAreReads(es: seq<Entry>, s: SequenceNumber, k: UserKey, v: Value)
    requires Sorted(es) && Unique(Elems(es))
    ensures Row(k, v) in Rows(es, s) <==> ReadSet(Elems(es), k, s) == Some(v)
  {
    ShownUpToIs(es, s, |es|);
    var p := Positions(es, s);
    if Row(k, v) in Rows(es, s) {
      var a :| 0 <= a < |p| && Rows(es, s)[a] == Row(k, v);
      assert p[a] in p;
      ShownIsNewest(es, s, p[a]);
      ReadSetFound(Elems(es), k, s, es[p[a]]);
    }
    if ReadSet(Elems(es), k, s) == Some(v) {
      var e :| IsNewest(Elems(es), k, s, e);
      ReadSetFound(Elems(es), k, s, e);
      var i :| 0 <= i < |es| && es[i] == e;
      ShownIsNewest(es, s, i);
      assert i in p;
      var a :| 0 <= a < |p| && p[a] == i;
      assert Rows(es, s)[a] == Row(k, v);
    }
  }

  /** With the history as the specification: the rows at `s` are exactly its view at `s`. */
  lemma RowsAreView(es: seq<Entry>, h: seq<Entry>, s: SequenceNumber, k: UserKey, v: Value)
    requires Sorted(es) && Unique(Elems(es)) && ReadSet(Elems(es), k, s) == View(h, k, s)
    ensures Row(k, v) in Rows(es, s) <==> View(h, k, s) == Some(v)
  {
    RowsAreReads(es, s, k, v);
  }

  /* ---- The reference cursor ---- */

  datatype Move = SeekToFirst | SeekToLast | Seek(target: UserKey) | Next | Prev

  function LowerBound(rows: seq<Row>, target: UserKey): (r: nat)
    ensures r <= |rows| && (forall a :: 0 <= a < r ==> rows[a].key < target) && (r < |rows| ==> rows[r].key >= target)
  {
    if rows == [] || rows[0].key >= target then 0 else 1 + LowerBound(rows[1..], target)
  }

  function AtRow(rows: seq<Row>, r: int): Option<nat> {
    if 0 <= r < |rows| then Some(r) else None
  }

  predicate Legal(at: Option<nat>, m: Move) {
    m.Next? || m.Prev? ==> at.Some?
  }

  function Moved(rows: seq<Row>, at: Option<nat>, m: Move): Option<nat>
    requires Legal(at, m)
  {
    match m
    case SeekToFirst => AtRow(rows, 0)
    case SeekToLast => AtRow(rows, |rows| - 1)
    case Seek(target) => AtRow(rows, LowerBound(rows, target))
    case Next => AtRow(rows, at.value + 1)
    case Prev => AtRow(rows, at.value - 1)
  }

  /* ---- From entry positions to rows ---- */

  /** The position of a row, or the end. */
  ghost function PositionOf(es: seq<Entry>, s: SequenceNumber, r: Option<nat>): nat {
    if r.Some? && r.value < |Positions(es, s)| then Positions(es, s)[r.value] else |es|
  }

  ghost predicate NoneShown(es: seq<Entry>, s: SequenceNumber, lo: int, hi: int) {
    forall j :: lo <= j < hi ==> !Shown(es, s, j)
  }

  /** The first shown entry after `r` rows. */
  lemma FirstAfter(es: seq<Entry>, s: SequenceNumber, r: nat, i: nat)
    requires r <= |Positions(es, s)| && i <= |es| && (i < |es| ==> Shown(es, s, i))
    requires NoneShown(es, s, if r == 0 then 0 else Positions(es, s)[r - 1] + 1, i)
    requires r > 0 ==> Positions(es, s)[r - 1] < i
    ensures if i < |es| then r < |Positions(es, s)| && Positions(es, s)[r] == i else r == |Positions(es, s)|
  {
    ShownUpToIs(es, s, |es|);
    var p := Positions(es, s);
    if r < |p| {
      assert p[r] in p;
      assert p[r] >= i;
    }
    if i < |es| {
      assert i in p;
      var a :| 0 <= a < |p| && p[a] == i;
      assert a >= r;
      assert r < |p|;
    }
  }

  /** The last shown entry before row `r`. */
  lemma LastBefore(es: seq<Entry>, s: SequenceNumber, r: nat, found: Option<nat>)
    requires r <= |Positions(es, s)|
    requires var limit := if r < |Positions(es, s)| then Positions(es, s)[r] else |es|;
             && (found.Some? ==> found.value < limit && Shown(es, s, found.value))
             && NoneShown(es, s, if found.Some? then found.value + 1 else 0, limit)
    ensures if found.Some? then r > 0 && Positions(es, s)[r - 1] == found.value else r == 0
  {
    ShownUpToIs(es, s, |es|);
    var p := Positions(es, s);
    if r > 0 {
      assert p[r - 1] in p;
    }
    if found.Some? {
      assert found.value in p;
      var a :| 0 <= a < |p| && p[a] == found.value;
      assert a < r;
    }
  }

  /** The first shown entry at or after a key is the row a binary search for the key would give. */
  lemma FirstNotBelow(es: seq<Entry>, s: SequenceNumber, target: UserKey, i: nat)
    requires Sorted(es) && i <= |es| && (i < |es| ==> Shown(es, s, i) && es[i].key >= target)
    requires forall j :: 0 <= j < i && Shown(es, s, j) ==> es[j].key < target
    ensures PositionOf(es, s, AtRow(Rows(es, s), LowerBound(Rows(es, s), target))) == i
  {
    ShownUpToIs(es, s, |es|);
    var p, rows := Positions(es, s), Rows(es, s);
    var r := LowerBound(rows, target);
    if r < |p| {
      assert p[r] in p;
      assert p[r] >= i;
    }
    if i < |es| {
      assert i in p;
      var a :| 0 <= a < |p| && p[a] == i;
      assert a >= r;
    }
  }

  /* ---- The forward scan ---- */

  /**
    Where the forward scan stands: looking for the first shown entry at or after `from`, it is at `pos`
    and passes over keys up to `skip` if there is one.
   */
  ghost predicate Scanning(es: seq<Entry>, s: SequenceNumber, from: nat, pos: nat, skip: Option<UserKey>) {
    && NoneShown(es, s, from, pos)
    && (forall j :: pos <= j < from && j < |es| && Seen(es[j], s) ==> skip == Some(es[j].key))
    && (forall i, j :: 0 <= i < pos <= j < |es| && es[i].key == es[j].key && Seen(es[i], s) ==>
         skip.Some? && es[j].key <= skip.value)
    && (skip.Some? ==> forall j :: pos <= j < |es| && from <= j && es[j].key <= skip.value ==> !Shown(es, s, j))
  }

  /** The entry the scan stops at is shown; any other it may pass. */
  lemma ScanStep(es: seq<Entry>, s: SequenceNumber, from: nat, pos: nat, skip: Option<UserKey>)
    requires Sorted(es) && pos < |es| && Scanning(es, s, from, pos, skip)
    ensures var e := es[pos];
            var stops := Seen(e, s) && e.op.Put? && (skip.None? || e.key > skip.value);
            var next := if Seen(e, s) && e.op.Deletion? then Some(e.key) else skip;
            if stops then Shown(es, s, pos) && from <= pos else Scanning(es, s, from, pos + 1, next)
  {
    forall j | pos <= j < |es| ensures es[pos].key <= es[j].key {
      KeyOrder(es, pos, j);
    }
    forall i, j | 0 <= i <= j < |es| ensures es[i].key <= es[j].key {
      KeyOrder(es, i, j);
    }
  }

  /* ---- The backward scan ---- */

  /** What the backward scan from `top` down to `q` has collected: the lowest visible entry so far. */
  ghost predicate Collected(es: seq<Entry>, s: SequenceNumber, q: nat, top: nat, low: Option<nat>) {
    && q <= top <= |es|
    && (low.None? ==> forall j :: q <= j < top ==> !Seen(es[j], s))
    && (low.Some? ==> q <= low.value < top && Seen(es[low.value], s) && forall j :: q <= j < low.value ==> !Seen(es[j], s))
    && (forall j :: q <= j < top && Shown(es, s, j) ==> low == Some(j))
  }

  lemma CollectStep(es: seq<Entry>, s: SequenceNumber, q: nat, top: nat, low: Option<nat>)
    requires Sorted(es) && 0 < q && Collected(es, s, q, top, low)
    ensures !Seen(es[q - 1], s) ==> Collected(es, s, q - 1, top, low)
    ensures Seen(es[q - 1], s) && (low.None? || es[low.value].op.Deletion? || es[q - 1].key >= es[low.value].key) ==>
              Collected(es, s, q - 1, top, Some(q - 1))
  {
    var p := q - 1;
    if Seen(es[p], s) && (low.None? || es[low.value].op.Deletion? || es[p].key >= es[low.value].key) {
      if low.Some? {
        KeyOrder(es, p, low.value);
      }
      assert forall j :: p <= j < top && Shown(es, s, j) ==> j == p;
    }
  }

  /** Once a lower key, or the beginning, is reached, a collected value is shown, and it is the last one. */
  lemma CollectedIsLast(es: seq<Entry>, s: SequenceNumber, q: nat, top: nat, low: Option<nat>)
    requires Sorted(es) && Collected(es, s, q, top, low)
    requires low.Some? && es[low.value].op.Put? ==> q == 0 || es[q - 1].key < es[low.value].key
    requires low.None? || es[low.value].op.Deletion? ==> q == 0
    ensures low.Some? && es[low.value].op.Put? ==> Shown(es, s, low.value) && NoneShown(es, s, low.value + 1, top)
    ensures low.Some? && es[low.value].op.Put? ==> forall j :: 0 <= j < q ==> es[j].key < es[low.value].key
    ensures low.None? || es[low.value].op.Deletion? ==> NoneShown(es, s, 0, top)
  {
    if low.Some? && es[low.value].op.Put? {
      forall j | 0 <= j < q ensures es[j].key < es[low.value].key {
        KeyOrder(es, j, q - 1);
      }
    }
  }

  class DBIter {
    var entries: seq<Entry>        // what the internal iterator walks; see Grow
    const sequence: SequenceNumber
    var pos: nat                   // of the internal iterator; |entries| when it is not valid
    var forward: bool
    var valid: bool
    var savedKey: Option<UserKey>  // the current key when moving backward
    var savedValue: Option<Value>  // the current value when moving backward
    ghost var row: Option<nat>

    /** The number of entries before the internal iterator's gap when moving backward. */
    ghost function Below(): nat
      reads this`pos, this`entries
    {
      if pos < |entries| then pos + 1 else 0
    }

    ghost predicate AtForward(i: nat)
      reads this`pos
    {
      pos == i
    }

    ghost predicate AtBackward(i: nat)
      reads this`pos, this`entries, this`savedKey, this`savedValue
    {
      && i < |entries| && Below() <= i && entries[i].op.Put?
      && (forall j :: Below() <= j < i ==> !Seen(entries[j], sequence))
      && (forall j :: 0 <= j < Below() ==> entries[j].key < entries[i].key)
      && savedKey == Some(entries[i].key) && savedValue == Some(entries[i].op.value)
    }

    ghost predicate Valid()
      reads this
    {
      && Sorted(entries) && pos <= |entries| && (valid <==> row.Some?)
      && (row.Some? ==>
           && row.value < |Positions(entries, sequence)|
           && var i := Positions(entries, sequence)[row.value];
             if forward then AtForward(i) else AtBackward(i))
    }

    constructor (entries: seq<Entry>, sequence: SequenceNumber)
      requires Sorted(entries)
      ensures Valid() && this.entries == entries && this.sequence == sequence && row == None
    {
      this.entries, this.sequence := entries, sequence;
      pos, forward, valid, savedKey, savedValue, row := |entries|, true, false, None, None, None;
    }

    method Key() returns (k: UserKey)
      requires Valid() && valid
      ensures row.value < |Rows(entries, sequence)| && k == Rows(entries, sequence)[row.value].key
    {
      CurrentPosition();
      k := if forward then entries[pos].key else savedKey.value;
    }

    method Value() returns (v: DbFormat.Value)
      requires Valid() && valid
      ensures row.value < |Rows(entries, sequence)| && v == Rows(entries, sequence)[row.value].value
    {
      CurrentPosition();
      v := if forward then entries[pos].op.value else savedValue.value;
    }

    lemma CurrentPosition()
      requires Valid() && valid
      ensures row.value < |Rows(entries, sequence)|
      ensures Shown(entries, sequence, Positions(entries, sequence)[row.value])
    {
      ShownUpToIs(entries, sequence, |entries|);
      assert Positions(entries, sequence)[row.value] in Positions(entries, sequence);
    }

    /** Go forward to the first entry at or after `from` that shows. */
    method FindNextUserEntry(skipped: Option<UserKey>, ghost from: nat)
      requires Sorted(entries) && pos <= |entries| && Scanning(entries, sequence, from, pos, skipped) && from <= |entries|
      modifies this`pos, this`valid, this`savedKey
      ensures pos <= |entries| && (valid <==> pos < |entries|) && NoneShown(entries, sequence, from, pos)
      ensures valid ==> from <= pos && Shown(entries, sequence, pos)
    {
      var skip := skipped;
      while pos < |entries|
        invariant pos <= |entries| && Scanning(entries, sequence, from, pos, skip)
        decreases |entries| - pos
      {
        ScanStep(entries, sequence, from, pos, skip);
        var e := entries[pos];
        if Seen(e, sequence) {
          match e.op {
            case Deletion =>
              skip := Some(e.key);
            case Put(_) =>
              if skip.Some? && e.key <= skip.value {
              } else {
                valid, savedKey := true, None;
                return;
              }
          }
        }
        pos := pos + 1;
      }
      valid, savedKey := false, None;
    }

    /** Go backward over the `Below()` entries before the gap to the last one that shows. */
    method FindPrevUserEntry() returns (ghost found: Option<nat>)
      requires Sorted(entries) && pos <= |entries| && !forward
      modifies this`pos, this`valid, this`savedKey, this`savedValue, this`forward
      ensures pos <= |entries| && (valid <==> found.Some?)
      ensures found.Some? ==> found.value < old(Below()) && Shown(entries, sequence, found.value) && !forward && AtBackward(found.value)
      ensures NoneShown(entries, sequence, if found.Some? then found.value + 1 else 0, old(Below()))
    {
      hide Sorted, Shown, ShownUpTo, NoneShown;
      ghost var top := Below();
      found := None;
      var value := false;  // the last visible entry passed is a value
      while pos < |entries|
        invariant pos <= |entries| && !forward && Collected(entries, sequence, Below(), top, found)
        invariant value <==> found.Some? && entries[found.value].op.Put?
        invariant value ==> savedKey == Some(entries[found.value].key) && savedValue == Some(entries[found.value].op.value)
        decreases Below()
      {
        CollectStep(entries, sequence, Below(), top, found);
        var e := entries[pos];
        if Seen(e, sequence) {
          if value && e.key < savedKey.value {
            break;
          }
          found := Some(pos);
          match e.op {
            case Deletion =>
              value, savedKey, savedValue := false, None, None;
            case Put(v) =>
              value, savedKey, savedValue := true, Some(e.key), Some(v);
          }
        }
        pos := if pos == 0 then |entries| else pos - 1;
      }
      CollectedIsLast(entries, sequence, Below(), top, found);
      if !value {
        found := None;
        valid, savedKey, savedValue, forward := false, None, None, true;
      } else {
        valid := true;
      }
    }

    ghost function Table(): seq<Row>
      reads this`entries
    {
      Rows(entries, sequence)
    }

    method SeekToFirst()
      requires Valid()
      modifies this`pos, this`forward, this`valid, this`savedKey, this`savedValue, this`row
      ensures Valid() && row == Moved(Table(), old(row), Move.SeekToFirst)
    {
      forward, savedValue, pos := true, None, 0;
      FindNextUserEntry(None, 0);
      FirstAfter(entries, sequence, 0, pos);
      row := AtRow(Table(), 0);
    }

    method Seek(target: UserKey)
      requires Valid()
      modifies this`pos, this`forward, this`valid, this`savedKey, this`savedValue, this`row
      ensures Valid() && row == Moved(Table(), old(row), Move.Seek(target))
    {
      hide Versions.Seek, LowerBound, Rows, Shown, ShownUpTo, Scanning, NoneShown, Sorted;
      forward, savedKey, savedValue := true, None, None;
      pos := Versions.Seek(entries, LookupKey(target, sequence));
      ghost var start := pos;
      SeekStarts(entries, sequence, target, pos);
      FindNextUserEntry(None, pos);
      SeekLands(entries, sequence, target, start, pos);
      FirstNotBelow(entries, sequence, target, pos);
      row := AtRow(Table(), LowerBound(Table(), target));
    }

    method SeekToLast()
      requires Valid()
      modifies this`pos, this`forward, this`valid, this`savedKey, this`savedValue, this`row
      ensures Valid() && row == Moved(Table(), old(row), Move.SeekToLast)
    {
      hide Rows, ShownUpTo, Shown, Sorted;
      forward, savedValue := false, None;
      pos := if entries == [] then 0 else |entries| - 1;
      ghost var found := FindPrevUserEntry();
      LastBefore(entries, sequence, |Table()|, found);
      row := AtRow(Table(), |Table()| - 1);
    }

    method Next()
      requires Valid() && valid
      modifies this`pos, this`forward, this`valid, this`savedKey, this`savedValue, this`row
      ensures Valid() && row == Moved(Table(), old(row), Move.Next)
    {
      hide LowerBound, Rows, ShownUpTo, Scanning, Sorted;
      CurrentPosition();
      ghost var i := Positions(entries, sequence)[row.value];
      if !forward {
        forward := true;
        pos := if pos < |entries| then pos + 1 else 0;
        assert pos <= i;
      } else {
        savedKey := Some(entries[pos].key);
      }
      NextStarts(entries, sequence, i, pos);
      FindNextUserEntry(savedKey, i + 1);
      FirstAfter(entries, sequence, row.value + 1, pos);
      row := AtRow(Table(), row.value + 1);
    }

    /** Leave the entries of the current key, which precede the current entry and are too new to see. */
    method LeaveCurrentKey(ghost i: nat)
      requires Sorted(entries) && Shown(entries, sequence, i) && pos == i
      modifies this`pos, this`savedKey
      ensures pos <= |entries| && Below() <= i && savedKey == Some(entries[i].key)
      ensures NoneShown(entries, sequence, Below(), i)
    {
      savedKey := Some(entries[pos].key);
      var scanning := true;
      while scanning
        invariant scanning ==> pos <= i && forall j :: pos <= j < i ==> entries[j].key == entries[i].key
        invariant !scanning ==> pos <= |entries| && Below() <= i && NoneShown(entries, sequence, Below(), i)
        invariant savedKey == Some(entries[i].key)
        decreases scanning, pos
      {
        if pos == 0 {
          pos, scanning := |entries|, false;
        } else {
          pos := pos - 1;
          KeyOrder(entries, pos, i);
          scanning := entries[pos].key >= savedKey.value;
        }
      }
    }

    method Prev()
      requires Valid() && valid
      modifies this`pos, this`forward, this`valid, this`savedKey, this`savedValue, this`row
      ensures Valid() && row == Moved(Table(), old(row), Move.Prev)
    {
      hide Rows, ShownUpTo, Shown, Sorted;
      CurrentPosition();
      ghost var i := Positions(entries, sequence)[row.value];
      if forward {
        LeaveCurrentKey(i);
        if pos == |entries| {
          LastBefore(entries, sequence, row.value, None);
          valid, savedKey, savedValue, row := false, None, None, None;
          return;
        }
        forward := false;
      } else {
        UnseenNotShown(entries, sequence, Below(), i);
      }
      ghost var found := FindPrevUserEntry();
      LastBefore(entries, sequence, row.value, found);
      row := AtRow(Table(), row.value - 1);
    }

    /**
      Writers insert into the memtable while the iterator is in use.  What they insert is too new for it to
      see, and its internal iterator stays at its entry, or stays invalid.
     */
    method Grow(more: seq<Entry>)
      requires Valid() && Grows(entries, more, sequence)
      modifies this`entries, this`pos
      ensures Valid() && entries == more && Table() == old(Table())
    {
      hide Rows, ShownUpTo;
      ghost var es := entries;
      SameRows(es, more, sequence);
      if valid { CurrentPosition(); }
      var at := if pos < |entries| then IndexOf(more, entries[pos]) else |more|;
      if row.Some? {
        SamePlace(es, more, sequence, row.value);
      }
      BackwardGrows(es, more, sequence, pos, at);
      entries, pos := more, at;
    }
  }

  /* ---- Entries that arrive while the iterator is in use ---- */

  /** `more` has the entries of `es` and others that are too new to see at `s`. */
  ghost predicate Grows(es: seq<Entry>, more: seq<Entry>, s: SequenceNumber) {
    && Sorted(more) && (forall e :: e in es ==> e in more)
    && forall e :: e in more && e !in es ==> !Seen(e, s)
  }

  function IndexOf(es: seq<Entry>, e: Entry): (i: nat)
    requires e in es
    ensures i < |es| && es[i] == e
  {
    if es[0] == e then 0 else 1 + IndexOf(es[1..], e)
  }

  lemma SameOrder(es: seq<Entry>, more: seq<Entry>, i: nat, j: nat, x: nat, y: nat)
    requires Sorted(es) && Sorted(more) && i < |es| && j < |es| && x < |more| && y < |more|
    requires es[i] == more[x] && es[j] == more[y]
    ensures i < j <==> x < y
  {
    assert i < j ==> Before(es[i].IKey(), es[j].IKey());
    assert j < i ==> Before(es[j].IKey(), es[i].IKey());
    assert x < y ==> Before(more[x].IKey(), more[y].IKey());
    assert y < x ==> Before(more[y].IKey(), more[x].IKey());
  }

  /** An entry shows among more entries exactly if it did before. */
  lemma SameShown(es: seq<Entry>, more: seq<Entry>, s: SequenceNumber, i: nat, x: nat)
    requires Sorted(es) && Grows(es, more, s) && i < |es| && x < |more| && es[i] == more[x]
    ensures Shown(es, s, i) <==> Shown(more, s, x)
  {
    if Shown(es, s, i) {
      forall y | 0 <= y < x && more[y].key == more[x].key ensures !Seen(more[y], s) {
        if more[y] in es {
          var j :| 0 <= j < |es| && es[j] == more[y];
          SameOrder(es, more, j, i, y, x);
        }
      }
    }
    if Shown(more, s, x) {
      forall j | 0 <= j < i && es[j].key == es[i].key ensures !Seen(es[j], s) {
        assert es[j] in more;
        var y :| 0 <= y < |more| && more[y] == es[j];
        SameOrder(es, more, j, i, y, x);
      }
    }
  }

  lemma SameRowSet(es: seq<Entry>, more: seq<Entry>, s: SequenceNumber, r: Row)
    requires Sorted(es) && Grows(es, more, s)
    ensures r in Rows(es, s) <==> r in Rows(more, s)
  {
    ShownUpToIs(es, s, |es|);
    ShownUpToIs(more, s, |more|);
    var p, q := Positions(es, s), Positions(more, s);
    if r in Rows(es, s) {
      var a :| 0 <= a < |p| && Rows(es, s)[a] == r;
      assert p[a] in p;
      var x := IndexOf(more, es[p[a]]);
      SameShown(es, more, s, p[a], x);
      assert x in q;
      var b :| 0 <= b < |q| && q[b] == x;
      assert Rows(more, s)[b] == r;
    }
    if r in Rows(more, s) {
      var b :| 0 <= b < |q| && Rows(more, s)[b] == r;
      assert q[b] in q;
      var i := IndexOf(es, more[q[b]]);
      SameShown(es, more, s, i, q[b]);
      assert i in p;
      var a :| 0 <= a < |p| && p[a] == i;
      assert Rows(es, s)[a] == r;
    }
  }

  ghost predicate AscendingRows(rs: seq<Row>) {
    forall a, b :: 0 <= a < b < |rs| ==> rs[a].key < rs[b].key
  }

  lemma SomeRow(rs: seq<Row>)
    ensures rs == [] || exists r :: r in rs
  {
    if rs != [] {
      assert rs[0] in rs;
    }
  }

  lemma SameHeads(a: seq<Row>, b: seq<Row>)
    requires AscendingRows(a) && AscendingRows(b) && (forall x :: x in a <==> x in b) && a != [] && b != []
    ensures a[0] == b[0]
  {
    assert a[0] in b && b[0] in a;
    var i :| 0 <= i < |b| && b[i] == a[0];
    var j :| 0 <= j < |a| && a[j] == b[0];
  }

  lemma SameTails(a: seq<Row>, b: seq<Row>, r: Row)
    requires AscendingRows(a) && AscendingRows(b) && (forall x :: x in a <==> x in b)
    requires a != [] && b != [] && a[0] == b[0] && r in a[1..]
    ensures r in b[1..]
  {
    var x :| 1 <= x < |a| && a[x] == r;
    assert r in b && r != b[0];
  }

  lemma TailAscends(a: seq<Row>)
    requires AscendingRows(a) && a != []
    ensures AscendingRows(a[1..])
  {
  }

  /** Rows in ascending order are known by their members. */
  lemma {:induction false} SameMembers(a: seq<Row>, b: seq<Row>)
    requires AscendingRows(a) && AscendingRows(b) && forall r :: r in a <==> r in b
    ensures a == b
  {
    hide AscendingRows;
    SomeRow(a);
    SomeRow(b);
    if a != [] {
      SameHeads(a, b);
      TailAscends(a);
      TailAscends(b);
      forall r ensures r in a[1..] <==> r in b[1..] {
        if r in a[1..] { SameTails(a, b, r); }
        if r in b[1..] { SameTails(b, a, r); }
      }
      SameMembers(a[1..], b[1..]);
      assert a == [a[0]] + a[1..] && b == [b[0]] + b[1..];
    }
  }

  /** What arrives is invisible: the rows stay the same. */
  lemma SameRows(es: seq<Entry>, more: seq<Entry>, s: SequenceNumber)
    requires Sorted(es) && Grows(es, more, s)
    ensures Rows(more, s) == Rows(es, s)
  {
    hide Grows, Sorted;
    RowsAscend(es, s);
    GrownIsSorted(es, more, s);
    RowsAscend(more, s);
    forall r ensures r in Rows(es, s) <==> r in Rows(more, s) {
      SameRowSet(es, more, s, r);
    }
    SameMembers(Rows(es, s), Rows(more, s));
  }

  lemma GrownIsSorted(es: seq<Entry>, more: seq<Entry>, s: SequenceNumber)
    requires Grows(es, more, s)
    ensures Sorted(more)
  {
  }

  /** A row is the same entry before and after. */
  lemma SamePlace(es: seq<Entry>, more: seq<Entry>, s: SequenceNumber, r: nat)
    requires Sorted(es) && Grows(es, more, s) && Rows(more, s) == Rows(es, s) && r < |Positions(es, s)|
    ensures r < |Positions(more, s)| && Positions(es, s)[r] < |es| && Positions(more, s)[r] < |more|
    ensures more[Positions(more, s)[r]] == es[Positions(es, s)[r]]
  {
    ShownUpToIs(es, s, |es|);
    ShownUpToIs(more, s, |more|);
    var p, q := Positions(es, s), Positions(more, s);
    assert |Rows(more, s)| == |Rows(es, s)| && p[r] in p && q[r] in q;
    var x := IndexOf(more, es[p[r]]);
    SameShown(es, more, s, p[r], x);
    assert Rows(es, s)[r] == Rows(more, s)[r];
    assert more[q[r]].key == more[x].key;
    OneShown(more, s, x, q[r]);
  }

  /** At most one entry of a key shows. */
  lemma OneShown(es: seq<Entry>, s: SequenceNumber, i: nat, j: nat)
    requires Shown(es, s, i) && Shown(es, s, j) && es[i].key == es[j].key
    ensures i == j
  {
  }

  /** Where an iterator that moves backward stands is told by its entry. */
  lemma BackwardGrows(es: seq<Entry>, more: seq<Entry>, s: SequenceNumber, pos: nat, at: nat)
    requires Sorted(es) && Grows(es, more, s) && pos <= |es|
    requires if pos < |es| then at < |more| && more[at] == es[pos] else at == |more|
    ensures var below, now := (if pos < |es| then pos + 1 else 0), if at < |more| then at + 1 else 0;
            forall i, x :: 0 <= i < |es| && 0 <= x < |more| && es[i] == more[x] && below <= i ==>
              && now <= x
              && ((forall j :: below <= j < i ==> !Seen(es[j], s)) ==> forall y :: now <= y < x ==> !Seen(more[y], s))
              && ((forall j :: 0 <= j < below ==> es[j].key < es[i].key) ==> forall y :: 0 <= y < now ==> more[y].key < more[x].key)
  {
    var below, now := (if pos < |es| then pos + 1 else 0), if at < |more| then at + 1 else 0;
    forall i, x | 0 <= i < |es| && 0 <= x < |more| && es[i] == more[x] && below <= i
      ensures now <= x
      ensures (forall j :: below <= j < i ==> !Seen(es[j], s)) ==> forall y :: now <= y < x ==> !Seen(more[y], s)
      ensures (forall j :: 0 <= j < below ==> es[j].key < es[i].key) ==> forall y :: 0 <= y < now ==> more[y].key < more[x].key
    {
      if pos < |es| { SameOrder(es, more, pos, i, at, x); }
      forall y | now <= y < x && (forall j :: below <= j < i ==> !Seen(es[j], s)) ensures !Seen(more[y], s) {
        if more[y] in es {
          var j := IndexOf(es, more[y]);
          SameOrder(es, more, j, i, y, x);
          if pos < |es| { SameOrder(es, more, pos, j, at, y); }
        }
      }
      if pos < |es| {
        forall y | 0 <= y < now ensures more[y].key <= more[at].key {
          KeyOrder(more, y, at);
        }
      }
    }
  }

  lemma UnseenNotShown(es: seq<Entry>, s: SequenceNumber, lo: nat, hi: nat)
    requires hi <= |es| && forall j :: lo <= j < hi ==> !Seen(es[j], s)
    ensures NoneShown(es, s, lo, hi)
  {
  }

  lemma SeekStarts(es: seq<Entry>, s: SequenceNumber, target: UserKey, pos: nat)
    requires Sorted(es) && pos == Versions.Seek(es, LookupKey(target, s))
    ensures Scanning(es, s, pos, pos, None)
  {
    forall i, j | 0 <= i < pos <= j < |es| && es[i].key == es[j].key ensures !Seen(es[i], s) {
      KeyOrder(es, pos, j);
    }
  }

  lemma SeekLands(es: seq<Entry>, s: SequenceNumber, target: UserKey, start: nat, pos: nat)
    requires Sorted(es) && start == Versions.Seek(es, LookupKey(target, s)) && start <= pos <= |es|
    requires NoneShown(es, s, start, pos) && (pos < |es| ==> Shown(es, s, pos))
    ensures pos < |es| ==> es[pos].key >= target
    ensures forall j :: 0 <= j < pos && Shown(es, s, j) ==> es[j].key < target
  {
    if pos < |es| {
      KeyOrder(es, start, pos);
    }
  }

  /** Whichever way the iterator was moving, it may scan on for the row after entry `i`. */
  lemma NextStarts(es: seq<Entry>, s: SequenceNumber, i: nat, pos: nat)
    requires Sorted(es) && Shown(es, s, i) && pos <= i
    requires forall j :: pos <= j < i ==> !Seen(es[j], s)
    requires pos == i || forall j :: 0 <= j < pos ==> es[j].key < es[i].key
    ensures Scanning(es, s, i + 1, pos, Some(es[i].key))
  {
    forall a, b | 0 <= a < pos <= b < |es| && es[a].key == es[b].key && Seen(es[a], s) ensures es[b].key <= es[i].key {
      if i <= b {
        KeyOrder(es, a, i);
        KeyOrder(es, i, b);
      } else {
        KeyOrder(es, b, i);
      }
    }
    forall j | i < j < |es| && es[j].key <= es[i].key ensures !Shown(es, s, j) {
      KeyOrder(es, i, j);
    }
  }

  /* ---- Any sequence of moves ---- */

  /** What a client that moves only where it may sees of a cursor on `rows`. */
  function Trace(rows: seq<Row>, at: Option<nat>, moves: seq<Move>): seq<Option<Row>>
    requires at.Some? ==> at.value < |rows|
    decreases |moves|
  {
    if moves == [] then []
    else
      var next := if Legal(at, moves[0]) then Moved(rows, at, moves[0]) else at;
      [if next.Some? then Some(rows[next.value]) else None] + Trace(rows, next, moves[1..])
  }

  method Do(it: DBIter, move: Move)
    requires it.Valid() && Legal(it.row, move)
    modifies it`pos, it`forward, it`valid, it`savedKey, it`savedValue, it`row
    ensures it.Valid() && it.row == Moved(it.Table(), old(it.row), move)
  {
    match move {
      case SeekToFirst => it.SeekToFirst();
      case SeekToLast => it.SeekToLast();
      case Seek(target) => it.Seek(target);
      case Next => it.Next();
      case Prev => it.Prev();
    }
  }

  method Observe(it: DBIter) returns (r: Option<Row>)
    requires it.Valid()
    ensures it.row.Some? ==> it.row.value < |it.Table()| && r == Some(it.Table()[it.row.value])
    ensures it.row.None? ==> r == None
  {
    if it.valid {
      var k := it.Key();
      var v := it.Value();
      r := Some(Row(k, v));
    } else {
      r := None;
    }
  }

  lemma TraceStep(rows: seq<Row>, before: Option<nat>, at: Option<nat>, next: Option<nat>, moves: seq<Move>, i: nat,
                  seen: seq<Option<Row>>, r: Option<Row>)
    requires i < |moves| && (before.Some? ==> before.value < |rows|) && (at.Some? ==> at.value < |rows|)
    requires next == if Legal(at, moves[i]) then Moved(rows, at, moves[i]) else at
    requires next.Some? ==> next.value < |rows| && r == Some(rows[next.value])
    requires next.None? ==> r == None
    requires Trace(rows, before, moves) == seen + Trace(rows, at, moves[i..])
    ensures Trace(rows, before, moves) == seen + [r] + Trace(rows, next, moves[i + 1..])
  {
    assert moves[i..][0] == moves[i] && moves[i..][1..] == moves[i + 1..];
  }

  /** The contents between moves: each is the one before with entries too new to see. */
  ghost predicate GrowsAlong(es: seq<Entry>, contents: seq<seq<Entry>>, s: SequenceNumber)
    decreases |contents|
  {
    contents == [] || (Grows(es, contents[0], s) && GrowsAlong(contents[0], contents[1..], s))
  }

  /**
    Any mix of moves, direction switches included, shows what a cursor on the sorted map shows, whatever
    writers insert before each move.
   */
  method Drive(it: DBIter, moves: seq<Move>, contents: seq<seq<Entry>>) returns (seen: seq<Option<Row>>)
    requires it.Valid() && |contents| == |moves| && GrowsAlong(it.entries, contents, it.sequence)
    modifies it
    ensures it.Valid() && it.Table() == old(it.Table()) && (old(it.row).Some? ==> old(it.row).value < |it.Table()|)
    ensures seen == Trace(old(it.Table()), old(it.row), moves)
  {
    hide Trace, Moved, Rows, Grows;
    seen := [];
    ghost var before, rows := it.row, it.Table();
    assert moves[0..] == moves && contents[0..] == contents;
    for i := 0 to |moves|
      invariant it.Valid() && it.Table() == rows && (before.Some? ==> before.value < |rows|)
      invariant Trace(rows, before, moves) == seen + Trace(rows, it.row, moves[i..])
      invariant GrowsAlong(it.entries, contents[i..], it.sequence)
    {
      assert contents[i..][0] == contents[i] && contents[i..][1..] == contents[i + 1..];
      it.Grow(contents[i]);
      ghost var at := it.row;
      if it.valid || !(moves[i].Next? || moves[i].Prev?) {
        Do(it, moves[i]);
      }
      var r := Observe(it);
      TraceStep(rows, before, at, it.row, moves, i, seen, r);
      seen := seen + [r];
    }
    assert moves[|moves|..] == [];
    TraceEnd(rows, it.row);
  }

  lemma TraceEnd(rows: seq<Row>, at: Option<nat>)
    requires at.Some? ==> at.value < |rows|
    ensures Trace(rows, at, []) == []
  {
  }
}
