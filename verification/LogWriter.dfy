/**
  Appending records to a log file.
 */
module LogWriter {
  import opened ByteCoding
  import opened LogFormat

  class Writer {
    const crc: Checksum
    var dest: seq<Byte>
    var blockOffset: nat

    ghost predicate Valid()
      reads this
    {
      blockOffset <= BLOCK_SIZE && blockOffset % BLOCK_SIZE == |dest| % BLOCK_SIZE
    }

    /** Write to a file that may already hold `dest`. */
    constructor (crc: Checksum, dest: seq<Byte>)
      ensures Valid() && this.crc == crc && this.dest == dest
    {
      this.crc, this.dest, blockOffset := crc, dest, |dest| % BLOCK_SIZE;
    }

    method EmitPhysicalRecord(f: Fragment)
      requires blockOffset + HEADER_SIZE + |f.payload| <= BLOCK_SIZE && blockOffset % BLOCK_SIZE == |dest| % BLOCK_SIZE
      modifies this
      ensures Valid() && dest == old(dest) + Header(crc, f) + f.payload
    {
      hide Header;
      SameOffset(blockOffset, |dest|, HEADER_SIZE + |f.payload|);
      dest := dest + Header(crc, f);
      dest := dest + f.payload;
      blockOffset := blockOffset + HEADER_SIZE + |f.payload|;
    }

    /** Leave no block with room for less than a header. */
    method StartFragment()
      requires Valid()
      modifies this
      ensures Valid() && dest == old(dest) + Zeros(Padding(|old(dest)|)) && blockOffset + HEADER_SIZE <= BLOCK_SIZE
      ensures blockOffset == |dest| % BLOCK_SIZE
    {
      var leftover := BLOCK_SIZE - blockOffset;
      if leftover < HEADER_SIZE {
        if leftover > 0 {
          dest := dest + Zeros(leftover);
        }
        blockOffset := 0;
      }
    }

    method AddRecord(data: seq<Byte>)
      requires Valid()
      modifies this
      ensures Valid() && dest == old(dest) + RecordBytes(crc, |old(dest)|, data, true)
    {
      hide RecordBytes, Header, Padding, Zeros;
      var left, begin := data, true;
      var more := true;
      assert dest + RecordBytes(crc, |dest|, data, true) == old(dest) + RecordBytes(crc, |old(dest)|, data, true);
      while more
        invariant Valid() && (!more ==> dest == old(dest) + RecordBytes(crc, |old(dest)|, data, true))
        invariant more ==> dest + RecordBytes(crc, |dest|, left, begin) == old(dest) + RecordBytes(crc, |old(dest)|, data, true)
        decreases more, |left|, |dest| % BLOCK_SIZE
      {
        ghost var before := dest;
        StartFragment();
        var avail := BLOCK_SIZE - blockOffset - HEADER_SIZE;
        var n := if |left| < avail then |left| else avail;
        var end := |left| == n;
        var kind := KindOf(begin, end);
        EmitPhysicalRecord(Fragment(kind, left[..n]));
        FirstFragment(crc, before, left, begin, Fragment(kind, left[..n]), n);
        left, begin, more := left[n..], false, |left| > n;
      }
    }
  }

  lemma FirstFragment(crc: Checksum, before: seq<Byte>, left: seq<Byte>, begin: bool, f: Fragment, n: nat)
    requires n == if |left| < Room(|before|) then |left| else Room(|before|)
    requires f == Fragment(KindOf(begin, |left| == n), left[..n])
    ensures Fits(|before|, f)
    ensures var after := before + Zeros(Padding(|before|)) + Header(crc, f) + f.payload;
            && before + RecordBytes(crc, |before|, left, begin) ==
              after + (if |left| == n then [] else RecordBytes(crc, |after|, left[n..], false))
            && (|left| > n == 0 ==> |after| % BLOCK_SIZE < |before| % BLOCK_SIZE)
  {
    hide RecordBytes, Header, Padding, Zeros;
    SplitStep(crc, |before|, left, begin, n, f);
    if |left| > n == 0 {
      HeaderFillsBlock(|before|);
    }
    var after := before + Zeros(Padding(|before|)) + Header(crc, f) + f.payload;
    assert after == before + Stored(crc, |before|, f);
    assert |after| == End(|before|, f);
  }

  /** Records appended one by one give the encoding of them all. */
  method WriteAll(crc: Checksum, records: seq<seq<Byte>>) returns (file: seq<Byte>)
    ensures file == Encode(crc, 0, records)
  {
    hide RecordBytes, Encode;
    var w := new Writer(crc, []);
    NoRecords(crc);
    for i := 0 to |records|
      invariant w.Valid() && w.crc == crc && w.dest == Encode(crc, 0, records[..i])
    {
      EncodeAppend(crc, 0, records[..i], records[i]);
      assert records[..i + 1] == records[..i] + [records[i]];
      w.AddRecord(records[i]);
    }
    assert records[..|records|] == records;
    file := w.dest;
  }

  lemma NoRecords(crc: Checksum)
    ensures Encode(crc, 0, []) == []
  {
  }
}
