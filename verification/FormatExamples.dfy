/**
  Small files byte by byte, so that what is written here and what is read elsewhere agree on more than a round trip.
 */
module FormatExamples {
  import opened Wrappers
  import opened ByteCoding
  import L = LogFormat
  import WB = WriteBatch
  import VE = VersionEdit
  import BF = BlockFormat
  import FB = FilterBlock
  import BK = ByteKeys

  /** A fragment: masked checksum of type and payload, two bytes of length, a type from 1 to 4, the payload. */
  lemma FragmentBytes(crc: L.Checksum, kind: L.Kind, payload: Bytes)
    requires |payload| <= 32761
    ensures var t: Byte := match kind case Full => 1 case First => 2 case Middle => 3 case Last => 4;
            L.Stored(crc, 0, L.Fragment(kind, payload)) ==
            Fixed(L.Mask(crc([t] + payload)), 4) + [|payload| % 256, |payload| / 256, t] + payload
  {
    hide L.Mask, Fixed;
    assert L.Zeros(0) == [];
  }

  /** No header is split by the end of a block: six bytes are filled with zeros, seven still take one. */
  lemma BlockTrailer(crc: L.Checksum)
    ensures L.Padding(32762) == 6 && L.Padding(32761) == 0 && L.Padding(32768) == 0
    ensures L.Split(32761, [5], true) == [L.Fragment(L.First, []), L.Fragment(L.Last, [5])]
  {
    var rest: Bytes := [5];
    assert rest[..0] == [] && rest[0..] == rest && rest[..1] == rest;
    assert L.Split(32768, rest, false) == [L.Fragment(L.Last, rest)];
  }

  lemma Small(n: nat)
    requires n < 256
    ensures Fixed(n, 4) == [n, 0, 0, 0] && Fixed(n, 8) == [n, 0, 0, 0, 0, 0, 0, 0]
  {
    assert Fixed(0, 4) == [0, 0, 0, 0];
    assert Fixed(0, 7) == [0, 0, 0] + Fixed(0, 4);
  }

  /** A batch: sequence, count, and each update as a type byte with its strings. */
  lemma BatchBytes()
    ensures WB.Encodes([7, 0, 0, 0, 0, 0, 0, 0, 2, 0, 0, 0, 1, 1, 97, 2, 98, 99, 0, 1, 100], 7, [WB.Put([97], [98, 99]), WB.Delete([100])])
  {
    hide Fixed;
    var us := [WB.Put([97], [98, 99]), WB.Delete([100])];
    Small(7);
    Small(2);
    UpdateBytes();
    hide WB.EncodeUpdate;
    assert us[1..] == [us[1]] && us[1..][1..] == [];
    assert WB.EncodeUpdates(us[1..]) == WB.EncodeUpdate(us[1]) + WB.EncodeUpdates([]);
  }

  lemma UpdateBytes()
    ensures WB.EncodeUpdate(WB.Put([97], [98, 99])) == [1, 1, 97, 2, 98, 99]
    ensures WB.EncodeUpdate(WB.Delete([100])) == [0, 1, 100]
  {
  }

  /** The fields of an edit, each under its tag: names and numbers first. */
  lemma EditBytes()
    ensures VE.EncodeField(VE.Comparator([99])) == [1, 1, 99]
    ensures VE.EncodeField(VE.LogNumber(5)) == [2, 5]
    ensures VE.EncodeField(VE.NextFileNumber(6)) == [3, 6]
    ensures VE.EncodeField(VE.LastSequence(7)) == [4, 7]
    ensures VE.EncodeField(VE.PrevLogNumber(4)) == [9, 4]
  {
  }

  /** And those that speak of levels and files. */
  lemma FileBytes()
    ensures VE.EncodeField(VE.CompactPointer(1, [107])) == [5, 1, 1, 107]
    ensures VE.EncodeField(VE.DeletedFile(2, 9)) == [6, 2, 9]
    ensures VE.EncodeField(VE.NewFile(3, VE.FileMeta(9, 100, [97], [98]))) == [7, 3, 9, 100, 1, 97, 1, 98]
  {
  }

  /** Entries of a block share what they have in common with the one before. */
  lemma EntryBytes()
    ensures BF.EncodeEntry(0, BF.Entry([97, 98], [120])) == [0, 2, 1, 97, 98, 120]
    ensures BF.EncodeEntry(1, BF.Entry([97, 99], [])) == [1, 1, 0, 99]
  {
    var k: Bytes := [97, 98];
    var l: Bytes := [97, 99];
    assert k[0..] == k && l[1..] == [99];
  }

  /** A filter block: the filters, their offsets, where these start, and the base 2 logarithm of 2048. */
  lemma FilterBytes()
    ensures FB.Contents(FB.Block([1, 2, 3], [0, 2])) == [1, 2, 3, 0, 0, 0, 0, 2, 0, 0, 0, 3, 0, 0, 0, 11]
  {
    hide Fixed;
    var a: seq<nat> := [0, 2];
    Small(0);
    Small(2);
    Small(3);
    assert a[..1] == [0] && a[..1][..0] == [];
    assert FixedArray(a[..1]) == FixedArray([]) + Fixed(0, 4);
    assert FixedArray(a) == FixedArray(a[..1]) + Fixed(2, 4);
  }

  /** An internal key: the user key, the type in one byte, the sequence in seven. */
  lemma InternalKeyBytes()
    ensures BK.Append(BK.IKey([97], BK.Pack(5, 1))) == [97, 1, 5, 0, 0, 0, 0, 0, 0]
  {
    assert Fixed(1281, 4) == [1, 5, 0, 0] && Fixed(0, 4) == [0, 0, 0, 0];
  }
}
