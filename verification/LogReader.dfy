/**
  Reading a log file back, possibly one whose end a crash has cut off.
 */
module LogReader {
  import opened Wrappers
  import opened ByteCoding
  import opened LogFormat
  import LogWriter

  /** What ReadPhysicalRecord hands over: a record of some type, the end of the file, or a record not to be used. */
  datatype Physical = Got(code: Byte, payload: seq<Byte>) | Eof | BadRecord

  /** From `pos` on the file holds the beginning of `bytes`. */
  ghost predicate Ahead(file: seq<Byte>, pos: nat, bytes: seq<Byte>) {
    pos <= |file| && file[pos..] <= bytes
  }

  /** What ReadPhysicalRecord may expect: one more fragment with `tail` behind it, or the end of the file. */
  ghost predicate Expects(crc: Checksum, file: seq<Byte>, pos: nat, f: Fragment, tail: seq<Byte>) {
    Fits(pos, f) && Ahead(file, pos, Stored(crc, pos, f) + tail)
  }

  /** Trailing bytes of a block that cannot hold a header are padding. */
  lemma SkipPadding(crc: Checksum, file: seq<Byte>, pos: nat, q: nat, f: Fragment, tail: seq<Byte>)
    requires Expects(crc, file, pos, f, tail) && pos <= q <= |file| && q % BLOCK_SIZE == 0 && q - pos < HEADER_SIZE
    ensures Expects(crc, file, q, f, tail) && End(q, f) == End(pos, f) && Padding(q) == 0
  {
    PaddingToBoundary(pos, q);
    assert Stored(crc, pos, f) == Zeros(q - pos) + Stored(crc, q, f);
    assert file[q..] == file[pos..][q - pos..];
  }

  lemma PaddingToBoundary(pos: nat, q: nat)
    requires pos <= q && q % BLOCK_SIZE == 0 && q - pos < HEADER_SIZE
    ensures Padding(pos) == q - pos && Padding(q) == 0
  {
    if pos < q {
      SameOffset(q, BLOCK_SIZE, 0);
      var d := q - pos;
      assert pos == BLOCK_SIZE * (q / BLOCK_SIZE - 1) + (BLOCK_SIZE - d);
    }
  }

  /** A whole header in the file is the fragment's header, and a whole payload its payload. */
  lemma AtHeader(crc: Checksum, file: seq<Byte>, pos: nat, f: Fragment, tail: seq<Byte>)
    requires Expects(crc, file, pos, f, tail) && Padding(pos) == 0 && pos + HEADER_SIZE <= |file|
    ensures file[pos..pos + HEADER_SIZE] == Header(crc, f) && End(pos, f) == pos + HEADER_SIZE + |f.payload|
    ensures End(pos, f) <= |file| ==> file[pos + HEADER_SIZE..End(pos, f)] == f.payload && Ahead(file, End(pos, f), tail)
  {
    hide Header;
    var stored := Header(crc, f) + f.payload;
    assert Stored(crc, pos, f) == stored;
    var all := stored + tail;
    assert forall i :: 0 <= i < |file| - pos ==> file[pos..][i] == all[i];
    assert file[pos..pos + HEADER_SIZE] == all[..HEADER_SIZE];
    if End(pos, f) <= |file| {
      assert file[pos + HEADER_SIZE..End(pos, f)] == all[HEADER_SIZE..|stored|];
      assert file[End(pos, f)..] == file[pos..][|stored|..];
    }
  }

  /** The stored checksum of an intact fragment is the checksum of what is read. */
  lemma ChecksumMatches(crc: Checksum, f: Fragment)
    requires |f.payload| < 0x1_0000
    ensures var h := Header(crc, f);
            && Unmask(ReadFixed32(h)) == crc([h[6]] + f.payload) && h[6] == Code(f.kind)
            && h[4] as int + h[5] as int * 256 == |f.payload|
  {
    hide Fixed32, ReadFixed32, Mask, Unmask;
    var w, n := Mask(crc([Code(f.kind)] + f.payload)), |f.payload|;
    Fixed32RoundTrip(w);
    UnmaskInvertsMask(crc([Code(f.kind)] + f.payload));
    assert Header(crc, f) == Fixed32(w) + [n % 256, n / 256, Code(f.kind)];
  }

  /* ---- One physical record out of the buffer ---- */

  /** The record, how many bytes of the buffer it takes, and whether a corruption is reported. */
  datatype Parsed = Parsed(record: Physical, used: nat, report: bool)

  function Parse(crc: Checksum, b: seq<Byte>, eof: bool): (r: Parsed)
    requires |b| >= HEADER_SIZE
    ensures r.used <= |b|
  {
    var length := b[4] as int + b[5] as int * 256;
    if HEADER_SIZE + length > |b| then
      if eof then Parsed(Eof, |b|, false) else Parsed(BadRecord, |b|, true)
    else if b[6] == 0 && length == 0 then
      Parsed(BadRecord, |b|, false)
    else if crc(b[6..HEADER_SIZE + length]) != Unmask(ReadFixed32(b)) then
      Parsed(BadRecord, |b|, true)
    else
      Parsed(Got(b[6], b[HEADER_SIZE..HEADER_SIZE + length]), HEADER_SIZE + length, false)
  }

  /** An intact fragment parses as what was written; one that the end of the file cuts off ends the reading. */
  lemma ParseIntact(crc: Checksum, b: seq<Byte>, eof: bool, f: Fragment, tail: seq<Byte>)
    requires |b| >= HEADER_SIZE && |f.payload| < 0x1_0000 && b <= Header(crc, f) + f.payload + tail
    requires HEADER_SIZE + |f.payload| <= |b| || eof
    ensures Parse(crc, b, eof) ==
            if HEADER_SIZE + |f.payload| <= |b| then Parsed(Got(Code(f.kind), f.payload), HEADER_SIZE + |f.payload|, false)
            else Parsed(Eof, |b|, false)
  {
    hide Header, ReadFixed, Unmask;
    var h, n := Header(crc, f), HEADER_SIZE + |f.payload|;
    var all := h + f.payload + tail;
    ChecksumMatches(crc, f);
    assert forall i :: 0 <= i < HEADER_SIZE ==> b[i] == all[i] == h[i];
    assert b[..4] == h[..4];
    if n <= |b| {
      assert b[HEADER_SIZE..n] == all[HEADER_SIZE..n] == f.payload;
      assert b[6..n] == [h[6]] + f.payload;
    }
  }

  class Reader {
    const file: seq<Byte>
    const crc: Checksum
    var filePos: nat        // how much of the file has been read into buffers
    var buffer: seq<Byte>
    var eof: bool
    var corruptions: nat    // reports made so far
    ghost var pos: nat      // where in the file the buffer starts
    ghost var start: nat    // where the block it belongs to starts

    ghost predicate Valid()
      reads this
    {
      && start % BLOCK_SIZE == 0 && start <= pos <= filePos <= start + BLOCK_SIZE && filePos <= |file|
      && buffer == file[pos..filePos]
      && (if eof then filePos == |file| else filePos % BLOCK_SIZE == 0)
    }

    constructor (crc: Checksum, file: seq<Byte>)
      ensures Valid() && this.crc == crc && this.file == file && pos == 0 && corruptions == 0
    {
      this.crc, this.file := crc, file;
      filePos, buffer, eof, corruptions, pos, start := 0, [], false, 0, 0, 0;
    }

    /** Drop the rest of the block and read the next one, as far as the file goes. */
    method ReadBlock()
      requires Valid() && !eof
      modifies this`filePos, this`buffer, this`eof, this`pos, this`start
      ensures Valid() && pos == old(filePos) && (!eof ==> |buffer| == BLOCK_SIZE)
    {
      var n := if |file| - filePos < BLOCK_SIZE then |file| - filePos else BLOCK_SIZE;
      pos, start := filePos, filePos;
      buffer, filePos := file[filePos..filePos + n], filePos + n;
      if |buffer| < BLOCK_SIZE {
        eof := true;
      } else {
        BoundaryStep(start);
      }
    }

    method ReadPhysicalRecord(ghost next: Fragment, ghost tail: seq<Byte>) returns (r: Physical)
      requires Valid() && (pos == |file| || Expects(crc, file, pos, next, tail))
      modifies this
      ensures Valid() && corruptions == old(corruptions)
      ensures if old(pos) < |file| && End(old(pos), next) <= |file| then
                && r == Got(Code(next.kind), next.payload)
                && pos == End(old(pos), next) && Ahead(file, pos, tail)
              else r == Eof
    {
      hide Parse, Ahead, Expects, Padding;
      if |buffer| < HEADER_SIZE && !eof {
        if pos < |file| {
          SkipPadding(crc, file, pos, filePos, next, tail);
        }
        ReadBlock();
      }
      if |buffer| < HEADER_SIZE {
        buffer := [];
        pos := filePos;
        return Eof;
      }
      BufferIntact(crc, file, start, pos, filePos, eof, next, tail);
      var parsed := Parse(crc, buffer, eof);
      buffer := buffer[parsed.used..];
      pos := pos + parsed.used;
      corruptions := corruptions + if parsed.report then 1 else 0;
      r := parsed.record;
    }

    /**
      The next record, if the file holds all of it.  `records` are those whose encoding lies ahead, as
      far as the file goes.
     */
    method ReadRecord(ghost records: seq<seq<Byte>>) returns (r: Option<seq<Byte>>)
      requires Valid() && Ahead(file, pos, Encode(crc, pos, records))
      modifies this
      ensures Valid() && corruptions == old(corruptions)
      ensures if records != [] && old(pos) + |RecordBytes(crc, old(pos), records[0], true)| <= |file| then
                && r == Some(records[0]) && pos == old(pos) + |RecordBytes(crc, old(pos), records[0], true)|
                && Ahead(file, pos, Encode(crc, pos, records[1..]))
              else r == None
    {
      hide Ahead, Expects, RecordBytes, Encode, Stored, Fits, Padding, KindOf, Code;
      var scratch: seq<Byte>, inFragmented, more := [], false, true;
      ghost var wanted, tail := FirstRecord(crc, file, pos, records);
      ghost var data, end := wanted, pos + |RecordBytes(crc, pos, wanted, true)|;
      r := None;
      while more
        invariant Valid() && corruptions == old(corruptions)
        invariant more ==> Ahead(file, pos, RecordBytes(crc, pos, data, !inFragmented) + tail)
        invariant more ==> pos + |RecordBytes(crc, pos, data, !inFragmented)| == end && scratch + data == wanted
        invariant more && !inFragmented ==> scratch == []
        invariant !more ==> if end <= |file| then r == Some(wanted) && pos == end && Ahead(file, pos, tail) else r == None
        decreases more, |data|, pos % BLOCK_SIZE
      {
        ghost var n, f, rest := NextFragment(crc, file, pos, data, !inFragmented, tail);
        var p := ReadPhysicalRecord(f, rest + tail);
        if p != Eof {
          TakeNext(scratch, inFragmented, data, n, f);
          assert |data| == n ==> rest + tail == tail;
        }
        var step := Take(scratch, inFragmented, p);
        corruptions := corruptions + if step.report then 1 else 0;
        scratch, inFragmented := step.scratch, step.inFragmented;
        if step.outcome != More {
          more := false;
          r := if step.outcome.Record? then Some(step.outcome.data) else None;
        }
        data := data[n..];
      }
    }
  }

  /** The record to look for, and what follows it; with no record left, one that the file cannot hold. */
  lemma FirstRecord(crc: Checksum, file: seq<Byte>, pos: nat, records: seq<seq<Byte>>)
    returns (data: seq<Byte>, tail: seq<Byte>)
    requires Ahead(file, pos, Encode(crc, pos, records))
    ensures records != [] ==> data == records[0]
    ensures Ahead(file, pos, RecordBytes(crc, pos, data, true) + tail)
    ensures var end := pos + |RecordBytes(crc, pos, data, true)|;
            if records == [] then end > |file| else tail == Encode(crc, end, records[1..])
  {
    data := if records == [] then [] else records[0];
    tail := if records == [] then [] else Encode(crc, pos + |RecordBytes(crc, pos, data, true)|, records[1..]);
    var n, f, rest := FragmentOf(crc, pos, data, true);
  }

  lemma FragmentOf(crc: Checksum, pos: nat, data: seq<Byte>, begin: bool) returns (n: nat, f: Fragment, rest: seq<Byte>)
    ensures n <= |data| && f == Fragment(KindOf(begin, |data| == n), data[..n]) && Fits(pos, f)
    ensures RecordBytes(crc, pos, data, begin) == Stored(crc, pos, f) + rest
    ensures pos + |Stored(crc, pos, f)| == End(pos, f) && End(pos, f) > pos
    ensures rest == if |data| == n then [] else RecordBytes(crc, End(pos, f), data[n..], false)
    ensures |data| > n == 0 ==> End(pos, f) % BLOCK_SIZE < pos % BLOCK_SIZE
  {
    hide RecordBytes, Padding;
    n := if |data| < Room(pos) then |data| else Room(pos);
    f := Fragment(KindOf(begin, |data| == n), data[..n]);
    rest := if |data| == n then [] else RecordBytes(crc, End(pos, f), data[n..], false);
    SplitStep(crc, pos, data, begin, n, f);
    if |data| > n == 0 {
      HeaderFillsBlock(pos);
    }
  }

  lemma NextFragment(crc: Checksum, file: seq<Byte>, pos: nat, data: seq<Byte>, begin: bool, tail: seq<Byte>)
    returns (n: nat, f: Fragment, rest: seq<Byte>)
    requires Ahead(file, pos, RecordBytes(crc, pos, data, begin) + tail)
    ensures n <= |data| && f == Fragment(KindOf(begin, |data| == n), data[..n])
    ensures Expects(crc, file, pos, f, rest + tail)
    ensures pos + |RecordBytes(crc, pos, data, begin)| == End(pos, f) + |rest| && End(pos, f) > pos
    ensures rest == if |data| == n then [] else RecordBytes(crc, End(pos, f), data[n..], false)
    ensures |data| > n == 0 ==> End(pos, f) % BLOCK_SIZE < pos % BLOCK_SIZE
  {
    hide RecordBytes, Stored, Fits, Padding;
    n, f, rest := FragmentOf(crc, pos, data, begin);
    assert RecordBytes(crc, pos, data, begin) + tail == Stored(crc, pos, f) + (rest + tail);
  }

  /* ---- Putting records together ---- */

  datatype Outcome = More | Record(data: seq<Byte>) | NoMore

  datatype Taken = Taken(scratch: seq<Byte>, inFragmented: bool, report: bool, outcome: Outcome)

  /** What ReadRecord does with one physical record, whatever it is. */
  function Take(scratch: seq<Byte>, inFragmented: bool, p: Physical): Taken {
    match p
    case Eof => Taken([], inFragmented, false, NoMore)
    case BadRecord => if inFragmented then Taken([], false, true, More) else Taken(scratch, false, false, More)
    case Got(code, payload) =>
      if code == 1 then Taken([], inFragmented, inFragmented && scratch != [], Record(payload))
      else if code == 2 then Taken(payload, true, inFragmented && scratch != [], More)
      else if code == 3 then
        if inFragmented then Taken(scratch + payload, true, false, More) else Taken(scratch, false, true, More)
      else if code == 4 then
        if inFragmented then Taken(scratch + payload, true, false, Record(scratch + payload)) else Taken(scratch, false, true, More)
      else Taken([], false, true, More)
  }

  /** From the beginning of ReadRecord over the first `n` of any physical records, up to the one that decides. */
  function TakeAll(ps: seq<Physical>, n: nat): Taken
    requires n <= |ps|
  {
    if n == 0 then Taken([], false, false, More)
    else
      var t := TakeAll(ps, n - 1);
      if t.outcome != More then t
      else
        var u := Take(t.scratch, t.inFragmented, ps[n - 1]);
        u.(report := t.report || u.report)
  }

  function Payload(p: Physical): seq<Byte> {
    if p.Got? then p.payload else []
  }

  /** The payloads of the physical records from `a` to `b`. */
  function Payloads(ps: seq<Physical>, a: nat, b: nat): seq<Byte>
    requires a <= b <= |ps|
  {
    if a == b then [] else Payloads(ps, a, b - 1) + Payload(ps[b - 1])
  }

  predicate OfKind(p: Physical, code: Byte) {
    p.Got? && p.code == code
  }

  /** A first fragment and behind it only middle ones. */
  predicate Started(ps: seq<Physical>, a: nat, b: nat) {
    a < b <= |ps| && OfKind(ps[a], 2) && forall i :: a < i < b ==> OfKind(ps[i], 3)
  }

  /** One full fragment, or a first one, middle ones and a last one. */
  predicate MakeUp(ps: seq<Physical>, a: nat, b: nat, data: seq<Byte>) {
    && a < b <= |ps| && data == Payloads(ps, a, b)
    && ((a + 1 == b && OfKind(ps[a], 1)) || (Started(ps, a, b - 1) && OfKind(ps[b - 1], 4)))
  }

  lemma GoesOn(scratch: seq<Byte>, inFragmented: bool, p: Physical)
    requires Take(scratch, inFragmented, p).outcome == More && (!inFragmented ==> scratch == [])
    ensures var u := Take(scratch, inFragmented, p);
            && (!u.inFragmented ==> u.scratch == [])
            && (u.inFragmented ==> (OfKind(p, 2) && u.scratch == p.payload) ||
                                   (inFragmented && OfKind(p, 3) && u.scratch == scratch + p.payload))
  {
  }

  lemma Starts(ps: seq<Physical>, n: nat)
    requires n < |ps| && ps[n].Got?
    ensures Payloads(ps, n, n + 1) == ps[n].payload
  {
    assert Payloads(ps, n, n) == [];
  }

  /** While a record is under way its fragments are the last ones read. */
  lemma {:induction false} UnderWay(ps: seq<Physical>, n: nat)
    requires n <= |ps| && TakeAll(ps, n).outcome == More
    ensures !TakeAll(ps, n).inFragmented ==> TakeAll(ps, n).scratch == []
    ensures TakeAll(ps, n).inFragmented ==> exists k: nat :: Started(ps, k, n) && TakeAll(ps, n).scratch == Payloads(ps, k, n)
    decreases n
  {
    hide Take;
    if n > 0 {
      var x, t := ps[n - 1], TakeAll(ps, n - 1);
      UnderWay(ps, n - 1);
      GoesOn(t.scratch, t.inFragmented, x);
      if OfKind(x, 2) {
        Starts(ps, n - 1);
        assert Started(ps, n - 1, n);
      } else if t.inFragmented && OfKind(x, 3) {
        var k: nat :| Started(ps, k, n - 1) && t.scratch == Payloads(ps, k, n - 1);
        assert Started(ps, k, n);
      }
    }
  }

  lemma Completes(scratch: seq<Byte>, inFragmented: bool, p: Physical, data: seq<Byte>)
    requires Take(scratch, inFragmented, p).outcome == Record(data)
    ensures (OfKind(p, 1) && data == p.payload) || (inFragmented && OfKind(p, 4) && data == scratch + p.payload)
  {
  }

  /** Whatever the file holds: a record that is returned is made up of consecutive fragments of one record. */
  lemma RecordsAreWhole(ps: seq<Physical>, n: nat, data: seq<Byte>)
    requires 0 < n <= |ps| && TakeAll(ps, n - 1).outcome == More && TakeAll(ps, n).outcome == Record(data)
    ensures exists k: nat :: MakeUp(ps, k, n, data)
  {
    hide Take;
    var x, t := ps[n - 1], TakeAll(ps, n - 1);
    Completes(t.scratch, t.inFragmented, x, data);
    UnderWay(ps, n - 1);
    if OfKind(x, 1) && data == x.payload {
      Starts(ps, n - 1);
      assert MakeUp(ps, n - 1, n, data);
    } else {
      var k: nat :| Started(ps, k, n - 1) && t.scratch == Payloads(ps, k, n - 1);
      assert MakeUp(ps, k, n, data);
    }
  }

  lemma NothingDropped(scratch: seq<Byte>, inFragmented: bool, p: Physical)
    requires (!inFragmented ==> scratch == []) && !Take(scratch, inFragmented, p).report
    ensures var u := Take(scratch, inFragmented, p);
            && (u.outcome == More ==> u.scratch == scratch + Payload(p))
            && (u.outcome.Record? ==> u.outcome.data == scratch + Payload(p))
  {
    assert scratch + [] == scratch;
  }

  /** Whatever the file holds: unless a corruption is reported, no payload is left out of the record returned. */
  lemma {:induction false} NothingLost(ps: seq<Physical>, n: nat)
    requires n <= |ps| && (n > 0 ==> TakeAll(ps, n - 1).outcome == More) && !TakeAll(ps, n).report
    ensures TakeAll(ps, n).outcome == More ==> TakeAll(ps, n).scratch == Payloads(ps, 0, n)
    ensures TakeAll(ps, n).outcome.Record? ==> TakeAll(ps, n).outcome.data == Payloads(ps, 0, n)
    decreases n
  {
    hide Take;
    if n > 0 {
      var t := TakeAll(ps, n - 1);
      NothingLost(ps, n - 1);
      UnderWay(ps, n - 1);
      NothingDropped(t.scratch, t.inFragmented, ps[n - 1]);
    }
  }

  lemma BufferIntact(crc: Checksum, file: seq<Byte>, start: nat, pos: nat, filePos: nat, eof: bool, f: Fragment, tail: seq<Byte>)
    requires start % BLOCK_SIZE == 0 && start <= pos && pos + HEADER_SIZE <= filePos <= start + BLOCK_SIZE && filePos <= |file|
    requires if eof then filePos == |file| else filePos == start + BLOCK_SIZE
    requires Expects(crc, file, pos, f, tail)
    ensures Parse(crc, file[pos..filePos], eof) ==
            if End(pos, f) <= |file| then Parsed(Got(Code(f.kind), f.payload), End(pos, f) - pos, false)
            else Parsed(Eof, filePos - pos, false)
    ensures End(pos, f) <= |file| ==> End(pos, f) <= filePos && Ahead(file, End(pos, f), tail)
  {
    NoPadding(start, pos, filePos);
    AtHeader(crc, file, pos, f, tail);
    BufferPrefix(crc, file, pos, filePos, f, tail);
    ParseIntact(crc, file[pos..filePos], eof, f, tail);
  }

  lemma BufferPrefix(crc: Checksum, file: seq<Byte>, pos: nat, filePos: nat, f: Fragment, tail: seq<Byte>)
    requires Expects(crc, file, pos, f, tail) && Padding(pos) == 0 && pos <= filePos <= |file|
    ensures file[pos..filePos] <= Header(crc, f) + f.payload + tail
  {
    assert Stored(crc, pos, f) == Header(crc, f) + f.payload;
    assert file[pos..filePos] == file[pos..][..filePos - pos];
  }

  lemma BoundaryStep(start: nat)
    requires start % BLOCK_SIZE == 0
    ensures (start + BLOCK_SIZE) % BLOCK_SIZE == 0
  {
  }

  /** A place with room for a header in its block needs no padding, and a fragment there stays in the block. */
  lemma NoPadding(start: nat, pos: nat, end: nat)
    requires start % BLOCK_SIZE == 0 && start <= pos && pos + HEADER_SIZE <= end <= start + BLOCK_SIZE
    ensures Padding(pos) == 0 && pos % BLOCK_SIZE == pos - start
  {
    SameOffset(start, 0, pos - start);
  }

  /** A fragment of the wanted record is taken without complaint, and its last one completes the record. */
  lemma TakeNext(scratch: seq<Byte>, inFragmented: bool, data: seq<Byte>, n: nat, f: Fragment)
    requires n <= |data| && f == Fragment(KindOf(!inFragmented, |data| == n), data[..n])
    requires !inFragmented ==> scratch == []
    ensures var step := Take(scratch, inFragmented, Got(Code(f.kind), f.payload));
            && !step.report
            && step.outcome == (if |data| == n then Record(scratch + data) else More)
            && (|data| > n ==> step.inFragmented && step.scratch + data[n..] == scratch + data)
  {
    assert data[..n] + data[n..] == data;
    assert scratch + data[..n] + data[n..] == scratch + data;
  }

  /* ---- Round trip and crash prefix ---- */

  /** Reading a file cut at any byte gives exactly the records that lie wholly before the cut, and no complaint. */
  method ReadAll(crc: Checksum, file: seq<Byte>, ghost records: seq<seq<Byte>>)
    returns (got: seq<seq<Byte>>, corruptions: nat)
    requires file <= Encode(crc, 0, records)
    ensures corruptions == 0 && got <= records && |Encode(crc, 0, got)| <= |file|
    ensures |got| < |records| ==> |file| < |Encode(crc, 0, records[..|got| + 1])|
  {
    hide RecordBytes, Encode, Ahead;
    var reader := new Reader(crc, file);
    got := [];
    var more := true;
    ghost var rest := records;
    Beginning(crc, file, records);
    while more
      invariant reader.Valid() && reader.file == file && reader.crc == crc && reader.corruptions == 0
      invariant records == got + rest && |Encode(crc, 0, got)| <= |file|
      invariant more ==> Ahead(file, reader.pos, Encode(crc, reader.pos, rest)) && reader.pos == |Encode(crc, 0, got)|
      invariant !more ==> rest == [] || |file| < |Encode(crc, 0, got + [rest[0]])|
      decreases more, |rest|
    {
      if rest != [] {
        EncodeAppend(crc, 0, got, rest[0]);
        assert got + rest == got + [rest[0]] + rest[1..];
      }
      var r := reader.ReadRecord(rest);
      if r.Some? {
        got := got + [r.value];
        rest := rest[1..];
      } else {
        more := false;
      }
    }
    corruptions := reader.corruptions;
    assert rest != [] ==> records[..|got| + 1] == got + [rest[0]];
  }

  lemma Beginning(crc: Checksum, file: seq<Byte>, records: seq<seq<Byte>>)
    requires file <= Encode(crc, 0, records)
    ensures Ahead(file, 0, Encode(crc, 0, records)) && Encode(crc, 0, []) == []
  {
    assert file[0..] == file;
  }

  /** With nothing cut off, everything comes back. */
  method RoundTrip(crc: Checksum, records: seq<seq<Byte>>) returns (got: seq<seq<Byte>>, corruptions: nat)
    ensures got == records && corruptions == 0
  {
    var file := LogWriter.WriteAll(crc, records);
    got, corruptions := ReadAll(crc, file, records);
    if |got| < |records| {
      EncodeMonotone(crc, 0, records, |got| + 1);
    }
  }

  lemma {:induction false} EncodeMonotone(crc: Checksum, pos: nat, records: seq<seq<Byte>>, n: nat)
    requires n <= |records|
    ensures |Encode(crc, pos, records[..n])| <= |Encode(crc, pos, records)|
    decreases |records|
  {
    if n > 0 {
      EncodeMonotone(crc, pos + |RecordBytes(crc, pos, records[0], true)|, records[1..], n - 1);
      assert records[..n][1..] == records[1..][..n - 1];
    }
  }
}
