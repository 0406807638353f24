/**
  The record log: its bytes on disk.  The checksum itself is a parameter, an arbitrary function of the
  bytes it covers; what the log adds is how a checksum is masked, stored and compared.
 */
module LogFormat {
  import opened ByteCoding

  const BLOCK_SIZE: nat := 32768
  const HEADER_SIZE: nat := 7
  const MASK_DELTA: nat := 0xa282ead8

  type Word = w: int | 0 <= w < TWO_32
  type Checksum = seq<Byte> -> Word

  /* ---- Masked checksums in four bytes ---- */

  /** Rotate right by 15 bits and add a constant, in 32 bits. */
  function Mask(crc: Word): Word {
    (crc / 0x8000 + crc % 0x8000 * 0x2_0000 + MASK_DELTA) % TWO_32
  }

  function Unmask(masked: Word): Word {
    var rot := (masked - MASK_DELTA) % TWO_32;
    rot / 0x2_0000 + rot % 0x2_0000 * 0x8000
  }

  lemma UnmaskInvertsMask(crc: Word)
    ensures Unmask(Mask(crc)) == crc
  {
    var rot := crc / 0x8000 + crc % 0x8000 * 0x2_0000;
    assert rot < TWO_32;
    assert (Mask(crc) - MASK_DELTA) % TWO_32 == rot;
  }

  /** But for the constant, every bit of a masked checksum is the one 15 places further up, round and round. */
  lemma MaskRotates(crc: Word, p: nat)
    requires p < 32
    ensures Bit((Mask(crc) - 0xa282ead8) % 0x1_0000_0000, p) <==> Bit(crc, (p + 15) % 32)
  {
    hide Bit, Power2;
    var rot := crc / 0x8000 + crc % 0x8000 * 0x2_0000;
    assert (Mask(crc) - MASK_DELTA) % TWO_32 == rot;
    Powers();
    BitAbove(crc % 0x8000, crc / 0x8000, 15, (p + 15) % 32);
    BitAbove(crc / 0x8000, crc % 0x8000, 17, p);
  }

  function Fixed32(w: Word): (r: seq<Byte>)
    ensures |r| == 4
  {
    Fixed(w, 4)
  }

  function ReadFixed32(b: seq<Byte>): Word
    requires |b| >= 4
  {
    ReadFixed(b[..4]) % TWO_32
  }

  lemma Fixed32RoundTrip(w: Word)
    ensures forall rest :: ReadFixed32(Fixed32(w) + rest) == w
  {
    Powers256();
    FixedRoundTrip(w, 4);
    forall rest ensures ReadFixed32(Fixed32(w) + rest) == w {
      assert (Fixed32(w) + rest)[..4] == Fixed32(w);
    }
  }

  /* ---- Physical records ---- */

  datatype Kind = Full | First | Middle | Last

  function Code(k: Kind): Byte {
    match k
    case Full => 1
    case First => 2
    case Middle => 3
    case Last => 4
  }

  datatype Fragment = Fragment(kind: Kind, payload: seq<Byte>)

  /** Checksum, length and type. */
  function Header(crc: Checksum, f: Fragment): (r: seq<Byte>)
    requires |f.payload| < 0x1_0000
    ensures |r| == HEADER_SIZE
  {
    Fixed32(Mask(crc([Code(f.kind)] + f.payload))) + [|f.payload| % 256, |f.payload| / 256, Code(f.kind)]
  }

  /** Zero bytes that fill a block too full for another header. */
  function Padding(pos: nat): nat {
    var leftover := BLOCK_SIZE - pos % BLOCK_SIZE;
    if leftover < HEADER_SIZE then leftover else 0
  }

  function Zeros(n: nat): (r: seq<Byte>)
    ensures |r| == n
  {
    seq(n, i => 0)
  }

  /** A fragment must not cross a block boundary. */
  predicate Fits(pos: nat, f: Fragment) {
    (pos + Padding(pos)) % BLOCK_SIZE + HEADER_SIZE + |f.payload| <= BLOCK_SIZE
  }

  /** What one physical record adds to a file of `pos` bytes. */
  function Stored(crc: Checksum, pos: nat, f: Fragment): (r: seq<Byte>)
    requires Fits(pos, f)
    ensures |r| == Padding(pos) + HEADER_SIZE + |f.payload|
  {
    Zeros(Padding(pos)) + Header(crc, f) + f.payload
  }

  /** How a record, or the rest of one, is cut into fragments from a file position on. */
  function Split(pos: nat, data: seq<Byte>, begin: bool): (r: seq<Fragment>)
    ensures r != []
    decreases |data|, pos % BLOCK_SIZE
  {
    var start := pos + Padding(pos);
    var avail := BLOCK_SIZE - start % BLOCK_SIZE - HEADER_SIZE;
    var n := if |data| < avail then |data| else avail;
    var end := |data| == n;
    var f := Fragment(KindOf(begin, end), data[..n]);
    [f] + if end then [] else Split(start + HEADER_SIZE + n, data[n..], false)
  }

  /** The position after a fragment written at `pos`. */
  function End(pos: nat, f: Fragment): nat {
    pos + Padding(pos) + HEADER_SIZE + |f.payload|
  }

  /** Fragments that may be written one after the other from `pos` on. */
  predicate Laid(pos: nat, fs: seq<Fragment>)
    decreases |fs|
  {
    fs == [] || (Fits(pos, fs[0]) && Laid(End(pos, fs[0]), fs[1..]))
  }

  function Bytes(crc: Checksum, pos: nat, fs: seq<Fragment>): seq<Byte>
    requires Laid(pos, fs)
    decreases |fs|
  {
    if fs == [] then [] else Stored(crc, pos, fs[0]) + Bytes(crc, End(pos, fs[0]), fs[1..])
  }

  /** After padding there is room for a header, and if for nothing else, the next fragment starts a block. */
  lemma HeaderFits(pos: nat)
    ensures var start := pos + Padding(pos);
            && start % BLOCK_SIZE + HEADER_SIZE <= BLOCK_SIZE
            && (start % BLOCK_SIZE + HEADER_SIZE == BLOCK_SIZE ==> (start + HEADER_SIZE) % BLOCK_SIZE == 0 < pos % BLOCK_SIZE)
  {
    var r := pos % BLOCK_SIZE;
    if BLOCK_SIZE - r < HEADER_SIZE {
      assert pos + Padding(pos) == BLOCK_SIZE * (pos / BLOCK_SIZE + 1);
    } else if r + HEADER_SIZE == BLOCK_SIZE {
      assert pos + HEADER_SIZE == BLOCK_SIZE * (pos / BLOCK_SIZE + 1);
    }
  }

  lemma {:induction false} SplitIsLaid(pos: nat, data: seq<Byte>, begin: bool)
    ensures Laid(pos, Split(pos, data, begin))
    decreases |data|, pos % BLOCK_SIZE
  {
    hide Padding;
    HeaderFits(pos);
    var start := pos + Padding(pos);
    var avail := BLOCK_SIZE - start % BLOCK_SIZE - HEADER_SIZE;
    var n := if |data| < avail then |data| else avail;
    var fs := Split(pos, data, begin);
    if |data| != n {
      SplitIsLaid(start + HEADER_SIZE + n, data[n..], false);
    }
  }

  /** What a record adds to a file of `pos` bytes. */
  function RecordBytes(crc: Checksum, pos: nat, data: seq<Byte>, begin: bool): seq<Byte> {
    SplitIsLaid(pos, data, begin);
    Bytes(crc, pos, Split(pos, data, begin))
  }

  /** The file of a sequence of records. */
  function Encode(crc: Checksum, pos: nat, records: seq<seq<Byte>>): seq<Byte>
    decreases |records|
  {
    if records == [] then []
    else
      var b := RecordBytes(crc, pos, records[0], true);
      b + Encode(crc, pos + |b|, records[1..])
  }

  lemma OneRecord(crc: Checksum, pos: nat, data: seq<Byte>)
    ensures Encode(crc, pos, [data]) == RecordBytes(crc, pos, data, true)
  {
    assert [data][1..] == [];
    assert Encode(crc, pos + |RecordBytes(crc, pos, data, true)|, []) == [];
  }

  lemma {:induction false} EncodeAppend(crc: Checksum, pos: nat, records: seq<seq<Byte>>, data: seq<Byte>)
    ensures var e := Encode(crc, pos, records);
            Encode(crc, pos, records + [data]) == e + RecordBytes(crc, pos + |e|, data, true)
    decreases |records|
  {
    hide RecordBytes;
    if records == [] {
      assert records + [data] == [data];
      OneRecord(crc, pos, data);
    } else {
      var b := RecordBytes(crc, pos, records[0], true);
      EncodeAppend(crc, pos + |b|, records[1..], data);
      assert (records + [data])[1..] == records[1..] + [data];
    }
  }

  lemma SameOffset(a: nat, b: nat, n: nat)
    requires a % BLOCK_SIZE == b % BLOCK_SIZE
    ensures (a + n) % BLOCK_SIZE == (b + n) % BLOCK_SIZE
  {
    var q := a / BLOCK_SIZE - b / BLOCK_SIZE;
    assert a + n == b + n + BLOCK_SIZE * q;
  }

  function Room(pos: nat): nat {
    var start := pos + Padding(pos);
    BLOCK_SIZE - start % BLOCK_SIZE - HEADER_SIZE
  }

  function KindOf(begin: bool, end: bool): Kind {
    if begin && end then Full else if begin then First else if end then Last else Middle
  }

  /** A header that just fits leaves the file at a block boundary. */
  lemma HeaderFillsBlock(pos: nat)
    requires Room(pos) == 0
    ensures (pos + Padding(pos) + HEADER_SIZE) % BLOCK_SIZE < pos % BLOCK_SIZE
  {
    HeaderFits(pos);
  }

  /** The first fragment of a record and the bytes of the others. */
  lemma SplitStep(crc: Checksum, pos: nat, left: seq<Byte>, begin: bool, n: nat, f: Fragment)
    requires n == if |left| < Room(pos) then |left| else Room(pos)
    requires f == Fragment(KindOf(begin, |left| == n), left[..n])
    ensures Fits(pos, f)
    ensures RecordBytes(crc, pos, left, begin) ==
            Stored(crc, pos, f) + if |left| == n then [] else RecordBytes(crc, End(pos, f), left[n..], false)
  {
    hide Stored, Padding;
    var fs := Split(pos, left, begin);
    SplitIsLaid(pos, left, begin);
    assert fs[0] == f;
    if |left| == n {
      assert fs == [f];
      assert Bytes(crc, End(pos, f), []) == [];
    } else {
      assert fs == [f] + Split(End(pos, f), left[n..], false);
      assert fs[1..] == Split(End(pos, f), left[n..], false);
    }
  }
}
