/**
  The two-level iterator: an index whose entries lead to blocks, read as one concatenated sequence.
  It walks the blocks of a table and, with files for blocks, the tables of a level above 0.
 */
module TwoLevel {
  import opened Wrappers
  import opened DbFormat
  import opened Versions
  import opened CompactionWork
  import opened Merger

  /** Where block `b` starts in the concatenation. */
  function Offset(blocks: seq<seq<Entry>>, b: nat): nat
    requires b <= |blocks|
  {
    |Flatten(blocks[..b])|
  }

  lemma {:induction false} OffsetStep(blocks: seq<seq<Entry>>, b: nat)
    requires b < |blocks|
    ensures Offset(blocks, b + 1) == Offset(blocks, b) + |blocks[b]|
    ensures Offset(blocks, b + 1) <= |Flatten(blocks)| && Offset(blocks, 0) == 0 && Offset(blocks, |blocks|) == |Flatten(blocks)|
    ensures forall p :: 0 <= p < |blocks[b]| ==> Flatten(blocks)[Offset(blocks, b) + p] == blocks[b][p]
    decreases |blocks|
  {
    var n := |blocks| - 1;
    assert blocks[..b + 1][..b] == blocks[..b] && blocks[..|blocks|] == blocks;
    if b < n {
      OffsetStep(blocks[..n], b);
      assert blocks[..n][..b] == blocks[..b] && blocks[..n][..b + 1] == blocks[..b + 1];
      assert Flatten(blocks) == Flatten(blocks[..n]) + blocks[n];
    }
  }

  /** Index keys bound their blocks from above and everything later from below. */
  ghost predicate Separates(keys: seq<InternalKey>, blocks: seq<seq<Entry>>) {
    && |keys| == |blocks|
    && (forall b, e :: 0 <= b < |blocks| && e in blocks[b] ==> !Before(keys[b], e.IKey()))
    && (forall b, c, e :: 0 <= b < c < |blocks| && e in blocks[c] ==> Before(keys[b], e.IKey()))
  }

  /** Seek of the index: the first key at or after the target. */
  function SeekKeys(keys: seq<InternalKey>, target: InternalKey): (i: nat)
    ensures i <= |keys| && (forall j :: 0 <= j < i ==> Before(keys[j], target))
    ensures i < |keys| ==> !Before(keys[i], target)
  {
    if keys == [] || !Before(keys[0], target) then 0 else 1 + SeekKeys(keys[1..], target)
  }

  class TwoLevelIterator {
    const keys: seq<InternalKey>
    const blocks: seq<seq<Entry>>
    var index: nat          // of the index iterator; |keys| when it is not valid
    var data: Option<nat>   // the block the data iterator reads, if there is one
    var pos: nat            // of the data iterator; the block's length when it is not valid
    ghost var row: Option<nat>

    ghost function All(): seq<Entry> {
      Flatten(blocks)
    }

    ghost predicate Shape()
      reads this
    {
      && Separates(keys, blocks) && Sorted(All()) && index <= |blocks|
      && (data.Some? ==> data.value == index < |blocks| && pos <= |blocks[index]|)
    }

    ghost predicate Valid()
      reads this
    {
      && Shape() && (data.Some? <==> row.Some?)
      && (data.Some? ==> pos < |blocks[index]| && row.value == Offset(blocks, index) + pos < |All()|)
    }

    predicate DataValid()
      requires data.Some? ==> data.value < |blocks|
      reads this`data, this`pos
    {
      data.Some? && pos < |blocks[data.value]|
    }

    constructor (keys: seq<InternalKey>, blocks: seq<seq<Entry>>)
      requires Separates(keys, blocks) && Sorted(Flatten(blocks))
      ensures Valid() && this.keys == keys && this.blocks == blocks && row == None
    {
      this.keys, this.blocks := keys, blocks;
      index, data, pos, row := |blocks|, None, 0, None;
    }

    method Get() returns (e: Entry)
      requires Valid() && row.Some?
      ensures e == All()[row.value]
    {
      OffsetStep(blocks, index);
      e := blocks[index][pos];
    }

    /** Open the block the index stands at, unless it is open already. */
    method InitDataBlock()
      requires index <= |blocks|
      modifies this`data
      ensures data == if index < |blocks| then Some(index) else None
    {
      if index >= |blocks| {
        data := None;
      } else if data == Some(index) {
      } else {
        data := Some(index);
      }
    }

    /** Go to the first entry from the current place on, over any number of empty blocks. */
    method SkipEmptyDataBlocksForward(ghost r: nat)
      requires Shape() && r <= |All()| && (data.None? ==> index == |blocks|)
      requires data.Some? ==> r == Offset(blocks, index) + pos
      requires data.None? ==> r == |All()|
      modifies this
      ensures Valid() && row == RowAt(All(), r)
    {
      while !DataValid()
        invariant Shape() && (data.None? ==> index == |blocks|)
        invariant data.Some? ==> r == Offset(blocks, index) + pos
        invariant data.None? ==> r == |All()|
        decreases |blocks| - index, data.Some?
      {
        if index >= |blocks| {
          data, row := None, None;
          return;
        }
        OffsetStep(blocks, index);
        index := index + 1;
        InitDataBlock();
        if data.Some? {
          pos := 0;
        }
      }
      OffsetStep(blocks, index);
      row := RowAt(All(), r);
    }

    /** Go to the last entry before the current gap, over any number of empty blocks. */
    method SkipEmptyDataBlocksBackward(ghost r: nat)
      requires Shape() && r <= |All()|
      requires data.Some? ==> r == Offset(blocks, index) + if pos < |blocks[index]| then pos + 1 else 0
      requires data.None? ==> index == |blocks| && r == 0
      modifies this
      ensures Valid() && row == RowAt(All(), r as int - 1)
    {
      while !DataValid()
        invariant Shape()
        invariant data.Some? ==> r == Offset(blocks, index) + if pos < |blocks[index]| then pos + 1 else 0
        invariant data.None? ==> index == |blocks| && r == 0
        decreases if index < |blocks| then index + 1 else 0
      {
        if index >= |blocks| {
          data, row := None, None;
          return;
        }
        OffsetStep(blocks, index);
        if index > 0 {
          OffsetStep(blocks, index - 1);
        }
        index := if index == 0 then |blocks| else index - 1;
        InitDataBlock();
        if data.Some? {
          pos := if blocks[index] == [] then 0 else |blocks[index]| - 1;
        }
      }
      OffsetStep(blocks, index);
      row := RowAt(All(), r as int - 1);
    }

    method SeekToFirst()
      requires Valid()
      modifies this
      ensures Valid() && row == RowAt(All(), 0)
    {
      index := 0;
      InitDataBlock();
      if data.Some? {
        pos := 0;
      }
      Ends(blocks);
      SkipEmptyDataBlocksForward(0);
    }

    method SeekToLast()
      requires Valid()
      modifies this
      ensures Valid() && row == RowAt(All(), |All()| - 1)
    {
      index := if blocks == [] then 0 else |blocks| - 1;
      InitDataBlock();
      if data.Some? {
        pos := if blocks[index] == [] then 0 else |blocks[index]| - 1;
        OffsetStep(blocks, index);
      }
      Ends(blocks);
      SkipEmptyDataBlocksBackward(|All()|);
    }

    method Seek(target: InternalKey)
      requires Valid()
      modifies this
      ensures Valid() && row == RowAt(All(), Versions.Seek(All(), target))
    {
      index := SeekKeys(keys, target);
      InitDataBlock();
      if data.Some? {
        pos := Versions.Seek(blocks[index], target);
      }
      SeekPlace(keys, blocks, target);
      SkipEmptyDataBlocksForward(Versions.Seek(All(), target));
    }

    method Next()
      requires Valid() && row.Some?
      modifies this
      ensures Valid() && row == RowAt(All(), old(row).value + 1)
    {
      pos := pos + 1;
      SkipEmptyDataBlocksForward(row.value + 1);
    }

    method Prev()
      requires Valid() && row.Some?
      modifies this
      ensures Valid() && row == RowAt(All(), old(row).value as int - 1)
    {
      pos := if pos == 0 then |blocks[index]| else pos - 1;
      SkipEmptyDataBlocksBackward(row.value);
    }
  }

  lemma Ends(blocks: seq<seq<Entry>>)
    ensures Offset(blocks, 0) == 0 && Offset(blocks, |blocks|) == |Flatten(blocks)|
  {
    assert blocks[..|blocks|] == blocks;
  }

  lemma {:induction false} OffsetsAscend(blocks: seq<seq<Entry>>, b: nat, c: nat)
    requires b <= c <= |blocks|
    ensures Offset(blocks, b) <= Offset(blocks, c)
    decreases c - b
  {
    if b < c {
      OffsetStep(blocks, b);
      OffsetsAscend(blocks, b + 1, c);
    }
  }

  lemma {:induction false} BlockOf(blocks: seq<seq<Entry>>, i: nat) returns (b: nat, p: nat)
    requires i < |Flatten(blocks)|
    ensures b < |blocks| && p < |blocks[b]| && i == Offset(blocks, b) + p && Flatten(blocks)[i] == blocks[b][p]
    decreases |blocks|
  {
    var n := |blocks| - 1;
    OffsetStep(blocks, n);
    if i < |Flatten(blocks[..n])| {
      b, p := BlockOf(blocks[..n], i);
      assert blocks[..n][..b] == blocks[..b];
    } else {
      b, p := n, i - Offset(blocks, n);
    }
  }

  /** Where a seek ends up: in the block the index leads to, or right behind it. */
  function Place(keys: seq<InternalKey>, blocks: seq<seq<Entry>>, target: InternalKey): nat
    requires |keys| == |blocks|
  {
    var b := SeekKeys(keys, target);
    if b < |blocks| then Offset(blocks, b) + Versions.Seek(blocks[b], target) else |Flatten(blocks)|
  }

  lemma PlaceSplits(keys: seq<InternalKey>, blocks: seq<seq<Entry>>, target: InternalKey, i: nat)
    requires Separates(keys, blocks) && Sorted(Flatten(blocks)) && i < |Flatten(blocks)|
    ensures i < Place(keys, blocks, target) <==> Before(Flatten(blocks)[i].IKey(), target)
  {
    var b := SeekKeys(keys, target);
    var c, p := BlockOf(blocks, i);
    var e := blocks[c][p];
    assert e in blocks[c];
    if c < b {
      assert Before(keys[c], target) && !Before(keys[c], e.IKey());
      OffsetStep(blocks, c);
      OffsetsAscend(blocks, c + 1, b);
    } else if c == b {
      InBlock(blocks, b, p, target);
    } else {
      assert !Before(keys[b], target) && Before(keys[b], e.IKey());
      OffsetStep(blocks, b);
      OffsetsAscend(blocks, b + 1, c);
    }
  }

  lemma InBlock(blocks: seq<seq<Entry>>, b: nat, p: nat, target: InternalKey)
    requires Sorted(Flatten(blocks)) && b < |blocks| && p < |blocks[b]|
    ensures p < Versions.Seek(blocks[b], target) <==> Before(blocks[b][p].IKey(), target)
  {
    hide Flatten, Offset, Versions.Seek;
    var q := Versions.Seek(blocks[b], target);
    OffsetStep(blocks, b);
    if q < p {
      var all, o := Flatten(blocks), Offset(blocks, b);
      assert all[o + q] == blocks[b][q] && all[o + p] == blocks[b][p];
      assert Before(all[o + q].IKey(), all[o + p].IKey());
    }
  }

  lemma SeekPlace(keys: seq<InternalKey>, blocks: seq<seq<Entry>>, target: InternalKey)
    requires Separates(keys, blocks) && Sorted(Flatten(blocks))
    ensures Versions.Seek(Flatten(blocks), target) == Place(keys, blocks, target)
  {
    var r, place := Versions.Seek(Flatten(blocks), target), Place(keys, blocks, target);
    var b := SeekKeys(keys, target);
    if b < |blocks| {
      OffsetStep(blocks, b);
    }
    if r != place {
      PlaceSplits(keys, blocks, target, if r < place then r else place);
    }
  }
}
