/**
  The filter block of a table: one filter for every 2 KB of block offsets.  The policy is a parameter; all
  that is asked of it is that it never denies a key its filter was created from.
 */
module FilterBlock {
  import opened ByteCoding
  import opened LogFormat
  import opened ByteKeys

  const FILTER_BASE_LG: Byte := 11
  const FILTER_BASE: nat := 2048

  datatype Policy = Policy(create: seq<Key> -> seq<Byte>, mayMatch: (Key, seq<Byte>) -> bool)

  ghost predicate NeverDenies(p: Policy) {
    forall keys, key :: key in keys ==> p.mayMatch(key, p.create(keys))
  }

  /** The filters one after the other, and where each begins. */
  datatype Block = Block(data: seq<Byte>, offsets: seq<nat>)

  function FilterAt(b: Block, index: nat): seq<Byte>
    requires index < |b.offsets|
  {
    var start := b.offsets[index];
    var limit := if index + 1 < |b.offsets| then b.offsets[index + 1] else |b.data|;
    if start <= limit <= |b.data| then b.data[start..limit] else []
  }

  /** Whatever cannot be read counts as a possible match. */
  function KeyMayMatch(p: Policy, b: Block, blockOffset: nat, key: Key): bool {
    var index := blockOffset / FILTER_BASE;
    if index < |b.offsets| then
      var start := b.offsets[index];
      var limit := if index + 1 < |b.offsets| then b.offsets[index + 1] else |b.data|;
      if start <= limit <= |b.data| then p.mayMatch(key, b.data[start..limit]) else start != limit
    else true
  }

  class FilterBlockBuilder {
    const policy: Policy
    var keys: seq<Key>               // of the filter under construction
    var block: Block
    ghost var groups: seq<seq<Key>>  // the keys of each finished filter
    ghost var added: set<(nat, Key)> // block offsets with the keys added for them
    ghost var at: nat                // the current block offset

    ghost predicate Valid()
      reads this
    {
      && NeverDenies(policy) && FiltersOk(policy, block, groups) && at / FILTER_BASE == |groups|
      && forall o: nat, k :: (o, k) in added ==>
           o / FILTER_BASE <= |groups| && (if o / FILTER_BASE < |groups| then k in groups[o / FILTER_BASE] else k in keys)
    }

    constructor (policy: Policy)
      requires NeverDenies(policy)
      ensures Valid() && fresh(this) && this.policy == policy && added == {} && at == 0
    {
      this.policy := policy;
      keys, block, groups, added, at := [], Block([], []), [], {}, 0;
    }

    method GenerateFilter()
      requires FiltersOk(policy, block, groups)
      modifies this`keys, this`block, this`groups
      ensures FiltersOk(policy, block, groups) && groups == old(groups) + [old(keys)] && keys == []
    {
      AddFilter(policy, block, groups, keys);
      if keys == [] {
        block := Block(block.data, block.offsets + [|block.data|]);
      } else {
        block := Block(block.data + policy.create(keys), block.offsets + [|block.data|]);
      }
      groups, keys := groups + [keys], [];
    }

    method StartBlock(blockOffset: nat)
      requires Valid() && at <= blockOffset
      modifies this
      ensures Valid() && added == old(added) && at == blockOffset
    {
      var index := blockOffset / FILTER_BASE;
      OffsetsOrdered(at, blockOffset);
      while index > |block.offsets|
        invariant FiltersOk(policy, block, groups) && |groups| <= index && added == old(added)
        invariant forall o: nat, k :: (o, k) in added ==>
                    o / FILTER_BASE <= |groups| && (if o / FILTER_BASE < |groups| then k in groups[o / FILTER_BASE] else k in keys)
        decreases index - |block.offsets|
      {
        GenerateFilter();
      }
      at := blockOffset;
    }

    method AddKey(key: Key)
      requires Valid()
      modifies this`keys, this`added
      ensures Valid() && added == old(added) + {(at, key)}
    {
      keys := keys + [key];
      added := added + {(at, key)};
    }

    /** The finished block matches every key for the offset of the block it was added for; `contents` are its bytes. */
    method Finish() returns (b: Block, contents: Bytes)
      requires Valid()
      modifies this
      ensures added == old(added) && forall o: nat, k :: (o, k) in added ==> KeyMayMatch(policy, b, o, k)
      ensures contents == Contents(b)
    {
      if keys != [] {
        GenerateFilter();
      }
      b := block;
      contents := AppendOffsets(b);
      forall o: nat, k | (o, k) in added ensures KeyMayMatch(policy, b, o, k) {
        if o / FILTER_BASE < |groups| {
          AddedMatches(policy, b, groups, o / FILTER_BASE, k);
        }
      }
    }
  }

  /** The filters, the offset of each, the offset of these offsets, and the logarithm of the range of a filter. */
  function Contents(b: Block): Bytes {
    b.data + FixedArray(b.offsets) + Fixed(|b.data|, 4) + [FILTER_BASE_LG]
  }

  method AppendOffsets(b: Block) returns (contents: Bytes)
    ensures contents == Contents(b)
  {
    hide Fixed, FixedArray;
    contents := b.data;
    NoOffsets();
    for i := 0 to |b.offsets|
      invariant contents == b.data + FixedArray(b.offsets[..i])
    {
      FixedArrayLast(b.offsets[..i], b.offsets[i]);
      assert b.offsets[..i + 1] == b.offsets[..i] + [b.offsets[i]];
      contents := contents + Fixed(b.offsets[i], 4);
    }
    assert b.offsets[..|b.offsets|] == b.offsets;
    contents := contents + Fixed(|b.data|, 4) + [FILTER_BASE_LG];
  }

  lemma NoOffsets()
    ensures FixedArray([]) == []
  {
  }

  /* ---- Reading a filter block from its bytes ---- */

  /** Where the offsets start, how many there are, and the logarithm of the range of a filter. */
  datatype Reader = Reader(contents: Bytes, offsetArray: nat, num: nat, baseLg: nat)

  /** Bytes too short for what they say make a reader without filters. */
  function NewReader(contents: Bytes): (r: Reader)
    ensures r.num > 0 ==> r.offsetArray + 4 * r.num + 5 <= |contents| && r.contents == contents
  {
    var n := |contents|;
    if n < 5 then Reader([], 0, 0, 0)
    else
      var lastWord := ReadFixed(contents[n - 5..n - 1]);
      if lastWord > n - 5 then Reader([], 0, 0, contents[n - 1])
      else Reader(contents, lastWord, (n - 5 - lastWord) / 4, contents[n - 1])
  }

  /** KeyMayMatch on bytes: the word behind the last offset, which says where the offsets start, ends the last filter. */
  function MayMatch(p: Policy, contents: Bytes, blockOffset: nat, key: Key): bool {
    var r := NewReader(contents);
    var index := ShiftRight(blockOffset, r.baseLg);
    if index < r.num then
      var at := r.offsetArray + 4 * index;
      var start, limit := ReadFixed(contents[at..at + 4]), ReadFixed(contents[at + 4..at + 8]);
      if start <= limit <= r.offsetArray then p.mayMatch(key, contents[start..limit]) else start != limit
    else true
  }

  lemma FixedWord(n: nat)
    requires n < TWO_32
    ensures ReadFixed(Fixed(n, 4)) == n
  {
    Powers256();
    FixedRoundTrip(n, 4);
  }

  lemma OffsetAt(b: Block, i: nat)
    requires i < |b.offsets| && b.offsets[i] < TWO_32 && |b.data| < TWO_32
    ensures var at := |b.data| + 4 * i;
            && at + 8 < |Contents(b)| && ReadFixed(Contents(b)[at..at + 4]) == b.offsets[i]
  {
    hide Fixed, ReadFixed, FixedArray;
    var c, at := Contents(b), |b.data| + 4 * i;
    FixedArrayAt(b.offsets, i);
    assert c[at..at + 4] == FixedArray(b.offsets)[4 * i..4 * i + 4];
  }

  lemma LastWord(b: Block)
    requires |b.data| < TWO_32
    ensures var c, n := Contents(b), |b.data| + 4 * |b.offsets|;
            |c| == n + 5 && ReadFixed(c[n..n + 4]) == |b.data| && c[n + 4] == FILTER_BASE_LG
  {
    hide Fixed, ReadFixed, FixedArray;
    var c, n := Contents(b), |b.data| + 4 * |b.offsets|;
    FixedWord(|b.data|);
    assert c[n..n + 4] == Fixed(|b.data|, 4);
  }

  lemma ReaderOf(b: Block)
    requires |b.data| < TWO_32
    ensures NewReader(Contents(b)) == Reader(Contents(b), |b.data|, |b.offsets|, FILTER_BASE_LG)
  {
    hide Fixed, ReadFixed, FixedArray, Contents;
    LastWord(b);
  }

  lemma ShiftFour(n: nat, k: nat)
    ensures ShiftRight(n, k + 4) == ShiftRight(n / 16, k)
  {
    assert ShiftRight(n, k + 4) == ShiftRight(n / 2, k + 3);
    assert ShiftRight(n / 2, k + 3) == ShiftRight(n / 2 / 2, k + 2);
    assert ShiftRight(n / 2 / 2, k + 2) == ShiftRight(n / 2 / 2 / 2, k + 1);
  }

  lemma BaseIsShift(blockOffset: nat)
    ensures ShiftRight(blockOffset, FILTER_BASE_LG) == blockOffset / FILTER_BASE
  {
    ShiftFour(blockOffset, 7);
    ShiftFour(blockOffset / 16, 3);
    var n := blockOffset / 16 / 16;
    assert ShiftRight(n, 3) == ShiftRight(n / 2, 2) == ShiftRight(n / 2 / 2, 1) == n / 2 / 2 / 2;
  }

  /** A reader of the bytes answers as the filters do that were written, for every block offset and key. */
  lemma ReaderAgrees(p: Policy, b: Block, blockOffset: nat, key: Key)
    requires |b.data| < TWO_32 && forall i :: 0 <= i < |b.offsets| ==> b.offsets[i] <= |b.data|
    ensures MayMatch(p, Contents(b), blockOffset, key) == KeyMayMatch(p, b, blockOffset, key)
  {
    hide Fixed, ReadFixed, FixedArray, NewReader, ShiftRight;
    ReaderOf(b);
    BaseIsShift(blockOffset);
    var index := blockOffset / FILTER_BASE;
    if index < |b.offsets| {
      OffsetAt(b, index);
      if index + 1 < |b.offsets| {
        OffsetAt(b, index + 1);
      } else {
        LastWord(b);
      }
      FilterBytesAre(b);
    }
  }

  lemma FilterBytesAre(b: Block)
    ensures forall start, limit :: 0 <= start <= limit <= |b.data| ==> Contents(b)[start..limit] == b.data[start..limit]
  {
  }

  lemma OffsetsOrdered(a: nat, b: nat)
    requires a <= b
    ensures a / FILTER_BASE <= b / FILTER_BASE
  {
  }

  ghost predicate FiltersOk(p: Policy, b: Block, groups: seq<seq<Key>>) {
    && |b.offsets| == |groups|
    && (forall i :: 0 <= i < |b.offsets| ==> b.offsets[i] <= |b.data|)
    && (forall i, j :: 0 <= i <= j < |b.offsets| ==> b.offsets[i] <= b.offsets[j])
    && (forall i :: 0 <= i < |groups| ==> FilterAt(b, i) == if groups[i] == [] then [] else p.create(groups[i]))
  }

  lemma AddFilter(p: Policy, b: Block, groups: seq<seq<Key>>, keys: seq<Key>)
    requires FiltersOk(p, b, groups)
    ensures var f := if keys == [] then [] else p.create(keys);
            FiltersOk(p, Block(b.data + f, b.offsets + [|b.data|]), groups + [keys])
  {
    var f := if keys == [] then [] else p.create(keys);
    var c := Block(b.data + f, b.offsets + [|b.data|]);
    var n := |groups|;
    forall i | 0 <= i < n ensures FilterAt(c, i) == FilterAt(b, i) {
      var limit := if i + 1 < n then b.offsets[i + 1] else |b.data|;
      assert c.data[b.offsets[i]..limit] == b.data[b.offsets[i]..limit];
    }
    assert c.data[|b.data|..] == f;
  }

  lemma AddedMatches(p: Policy, b: Block, groups: seq<seq<Key>>, i: nat, k: Key)
    requires NeverDenies(p) && FiltersOk(p, b, groups) && i < |groups| && k in groups[i]
    ensures forall o: nat :: o / FILTER_BASE == i ==> KeyMayMatch(p, b, o, k)
  {
    assert FilterAt(b, i) == p.create(groups[i]);
  }
}
