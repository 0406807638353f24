/**
  Building a table of blocks with an index of shortened separators, and looking a key up in one block.
 */
module TableFormat {
  import opened Wrappers
  import opened ByteKeys
  import opened FilterBlock

  datatype Entry = Entry(key: IKey, value: string)

  ghost predicate InBlocks(blocks: seq<seq<Entry>>, e: Entry) {
    exists b :: 0 <= b < |blocks| && e in blocks[b]
  }

  ghost predicate SortedEntries(s: seq<Entry>) {
    forall i, j :: 0 <= i < j < |s| ==> Before(s[i].key, s[j].key)
  }

  /** Blocks are not empty, sorted, and in order. */
  ghost predicate SortedBlocks(blocks: seq<seq<Entry>>) {
    && (forall b :: 0 <= b < |blocks| ==> blocks[b] != [] && SortedEntries(blocks[b]))
    && (forall b, c, x, y :: 0 <= b < c < |blocks| && x in blocks[b] && y in blocks[c] ==> Before(x.key, y.key))
  }

  function Last(block: seq<Entry>): Entry
    requires block != []
  {
    block[|block| - 1]
  }

  /** The index key of a block and an entry further on: between them no user key gets lost. */
  ghost predicate Divides(key: IKey, block: seq<Entry>, later: Entry)
    requires block != []
  {
    Before(key, later.key) && (key == Last(block).key || Less(key.user, later.key.user))
  }

  ghost predicate IndexOk(index: seq<IKey>, blocks: seq<seq<Entry>>)
    requires SortedBlocks(blocks) && |index| <= |blocks|
  {
    && (forall b :: 0 <= b < |index| ==> !Before(index[b], Last(blocks[b]).key))
    && (forall b, c, e :: 0 <= b < |index| && b < c < |blocks| && e in blocks[c] ==> Divides(index[b], blocks[b], e))
  }

  /* ---- Lookup ---- */

  /** `e` is the first entry at or after the target, as a scan over everything would find it. */
  ghost predicate IsFirst(blocks: seq<seq<Entry>>, target: IKey, e: Entry) {
    && InBlocks(blocks, e) && !Before(e.key, target)
    && forall x :: InBlocks(blocks, x) && !Before(x.key, target) ==> !Before(x.key, e.key)
  }

  method SeekIndex(index: seq<IKey>, target: IKey) returns (i: nat)
    ensures i <= |index| && (forall j :: 0 <= j < i ==> Before(index[j], target)) && (i < |index| ==> !Before(index[i], target))
  {
    i := 0;
    while i < |index| && Before(index[i], target)
      invariant i <= |index| && forall j :: 0 <= j < i ==> Before(index[j], target)
    {
      i := i + 1;
    }
  }

  method SeekBlock(block: seq<Entry>, target: IKey) returns (i: nat)
    ensures i <= |block| && (forall j :: 0 <= j < i ==> Before(block[j].key, target))
    ensures i < |block| ==> !Before(block[i].key, target)
  {
    i := 0;
    while i < |block| && Before(block[i].key, target)
      invariant i <= |block| && forall j :: 0 <= j < i ==> Before(block[j].key, target)
    {
      i := i + 1;
    }
  }

  /**
    InternalGet with the check of the user key that its caller makes.  Only the block the index leads to
    is looked at, and not even that if the filter says it has nothing of this user key.
   */
  method InternalGet(index: seq<IKey>, blocks: seq<seq<Entry>>, target: IKey, filter: nat -> bool) returns (r: Option<Entry>)
    requires SortedBlocks(blocks) && |index| == |blocks| && IndexOk(index, blocks)
    requires forall b, e :: 0 <= b < |blocks| && e in blocks[b] && e.key.user == target.user ==> filter(b)
    ensures r.Some? ==> r.value.key.user == target.user && IsFirst(blocks, target, r.value)
    ensures r.None? ==> forall e :: IsFirst(blocks, target, e) ==> e.key.user != target.user
  {
    var b := SeekIndex(index, target);
    if b == |index| {
      forall e | InBlocks(blocks, e) ensures Before(e.key, target) {
        EarlierBlock(index, blocks, target, b, e);
      }
      return None;
    }
    var i := SeekBlock(blocks[b], target);
    if i < |blocks[b]| {
      FirstInBlock(index, blocks, target, b, i);
    } else {
      NoneInBlock(index, blocks, target, b);
    }
    if !filter(b) {
      return None;
    }
    if i < |blocks[b]| && blocks[b][i].key.user == target.user {
      r := Some(blocks[b][i]);
    } else {
      r := None;
    }
  }

  /** Entries of blocks that the index passes over are before the target. */
  lemma EarlierBlock(index: seq<IKey>, blocks: seq<seq<Entry>>, target: IKey, b: nat, e: Entry)
    requires SortedBlocks(blocks) && |index| == |blocks| && IndexOk(index, blocks) && b <= |index|
    requires forall j :: 0 <= j < b ==> Before(index[j], target)
    requires exists c :: 0 <= c < b && e in blocks[c]
    ensures Before(e.key, target)
  {
    var c :| 0 <= c < b && e in blocks[c];
    var last := Last(blocks[c]);
    var i :| 0 <= i < |blocks[c]| && blocks[c][i] == e;
    assert i < |blocks[c]| - 1 ==> Before(e.key, last.key);
    BeforeIsTotal(index[c], last.key);
    if e.key != index[c] {
      if last.key != index[c] && e != last {
        BeforeTransitive(e.key, last.key, index[c]);
      }
      BeforeTransitive(e.key, index[c], target);
    }
  }

  lemma FirstInBlock(index: seq<IKey>, blocks: seq<seq<Entry>>, target: IKey, b: nat, i: nat)
    requires SortedBlocks(blocks) && |index| == |blocks| && IndexOk(index, blocks) && b < |index| && i < |blocks[b]|
    requires forall j :: 0 <= j < b ==> Before(index[j], target)
    requires (forall j :: 0 <= j < i ==> Before(blocks[b][j].key, target)) && !Before(blocks[b][i].key, target)
    ensures IsFirst(blocks, target, blocks[b][i]) && forall e :: IsFirst(blocks, target, e) ==> e.key == blocks[b][i].key
    ensures blocks[b][i] in blocks[b]
  {
    var f := blocks[b][i];
    assert InBlocks(blocks, f);
    forall x | InBlocks(blocks, x) && !Before(x.key, target) ensures !Before(x.key, f.key) {
      var c :| 0 <= c < |blocks| && x in blocks[c];
      BeforeIsTotal(x.key, f.key);
      if c < b {
        EarlierBlock(index, blocks, target, b, x);
      } else if c == b {
        var j :| 0 <= j < |blocks[b]| && blocks[b][j] == x;
        assert i < j ==> Before(f.key, x.key);
      }
    }
    forall e | IsFirst(blocks, target, e) ensures e.key == f.key {
      BeforeIsTotal(e.key, f.key);
    }
  }

  /** A target between a block's last key and its separator is of a user key before those further on. */
  lemma PastSeparator(key: IKey, last: IKey, later: IKey, target: IKey)
    requires key == last || Less(key.user, later.user)
    requires Before(last, target) && !Before(key, target)
    ensures later.user != target.user
  {
    hide Less;
    BeforeIsTotal(key, target);
    LessIsTotal(target.user, later.user);
    if Less(target.user, key.user) {
      LessTransitive(target.user, key.user, later.user);
    }
  }

  /** If the block has nothing at or after the target, the next entry is of a later user key. */
  lemma NoneInBlock(index: seq<IKey>, blocks: seq<seq<Entry>>, target: IKey, b: nat)
    requires SortedBlocks(blocks) && |index| == |blocks| && IndexOk(index, blocks) && b < |index|
    requires (forall j :: 0 <= j < b ==> Before(index[j], target)) && !Before(index[b], target)
    requires forall j :: 0 <= j < |blocks[b]| ==> Before(blocks[b][j].key, target)
    ensures forall e :: IsFirst(blocks, target, e) ==> e.key.user != target.user
  {
    hide Before, SortedEntries, SortedBlocks, IndexOk;
    forall e | IsFirst(blocks, target, e) ensures e.key.user != target.user {
      var c :| 0 <= c < |blocks| && e in blocks[c];
      if c < b {
        EarlierBlock(index, blocks, target, b, e);
      } else if c > b {
        LaterBlock(index, blocks, target, b, c, e);
      }
    }
  }

  lemma LaterBlock(index: seq<IKey>, blocks: seq<seq<Entry>>, target: IKey, b: nat, c: nat, e: Entry)
    requires SortedBlocks(blocks) && |index| == |blocks| && IndexOk(index, blocks) && b < c < |blocks| && e in blocks[c]
    requires !Before(index[b], target) && forall j :: 0 <= j < |blocks[b]| ==> Before(blocks[b][j].key, target)
    ensures e.key.user != target.user
  {
    hide Before, SortedEntries;
    assert Divides(index[b], blocks[b], e);
    assert Before(Last(blocks[b]).key, target);
    PastSeparator(index[b], Last(blocks[b]).key, e.key, target);
  }

  /* ---- Building a table ---- */

  /** Everything added so far, in order. */
  function Concat(blocks: seq<seq<Entry>>): seq<Entry> {
    if blocks == [] then [] else Concat(blocks[..|blocks| - 1]) + blocks[|blocks| - 1]
  }

  /** The blocks and the block under construction form one sorted sequence. */
  ghost predicate Growing(blocks: seq<seq<Entry>>, data: seq<Entry>) {
    && SortedBlocks(blocks) && SortedEntries(data)
    && forall x, y :: InBlocks(blocks, x) && y in data ==> Before(x.key, y.key)
  }

  ghost predicate After(blocks: seq<seq<Entry>>, data: seq<Entry>, e: Entry) {
    (forall x :: InBlocks(blocks, x) ==> Before(x.key, e.key)) && (forall x :: x in data ==> Before(x.key, e.key))
  }

  /** The finished index entries divide their blocks from the entries under construction, too. */
  ghost predicate DividesData(index: seq<IKey>, blocks: seq<seq<Entry>>, data: seq<Entry>)
    requires SortedBlocks(blocks) && |index| <= |blocks|
  {
    forall b, e :: 0 <= b < |index| && e in data ==> Divides(index[b], blocks[b], e)
  }

  class TableBuilder {
    const filter: FilterBlockBuilder
    var blocks: seq<seq<Entry>>
    var offsets: seq<nat>            // where each block was written
    var index: seq<IKey>
    var dataBlock: seq<Entry>
    var pendingIndexEntry: bool
    var lastKey: IKey
    var offset: nat

    ghost predicate Valid()
      reads this, filter
    {
      && filter.Valid() && filter.at == offset
      && Growing(blocks, dataBlock) && |offsets| == |blocks|
      && |index| + (if pendingIndexEntry then 1 else 0) == |blocks|
      && IndexOk(index, blocks) && DividesData(index, blocks, dataBlock)
      && (pendingIndexEntry ==> dataBlock == [] && lastKey == Last(blocks[|blocks| - 1]).key)
      && (dataBlock != [] ==> lastKey == Last(dataBlock).key)
      && (!pendingIndexEntry && blocks != [] ==> dataBlock != [])
      && FilterCovers()
    }

    /** Every entry's user key was added to the filter for the offset of its block. */
    ghost predicate FilterCovers()
      requires |offsets| == |blocks|
      reads this, filter
    {
      && (forall b, e :: 0 <= b < |blocks| && e in blocks[b] ==> (offsets[b], e.key.user) in filter.added)
      && (forall e :: e in dataBlock ==> (offset, e.key.user) in filter.added)
    }

    ghost function Contents(): seq<Entry>
      reads this
    {
      Concat(blocks) + dataBlock
    }

    constructor (policy: Policy)
      requires NeverDenies(policy)
      ensures Valid() && fresh(filter) && Contents() == [] && filter.policy == policy
    {
      filter := new FilterBlockBuilder(policy);
      blocks, offsets, index, dataBlock, pendingIndexEntry, lastKey, offset := [], [], [], [], false, IKey([], 0), 0;
    }

    /** The index entry of a block waits until the first key of the next block is known. */
    method AddPendingIndexEntry(e: Entry)
      requires Valid() && After(blocks, dataBlock, e)
      modifies this`index, this`pendingIndexEntry
      ensures !pendingIndexEntry && |index| == |blocks|
      ensures IndexOk(index, blocks) && DividesData(index, blocks, dataBlock + [e])
    {
      hide SortedEntries, Before, Less, IndexOk, DividesData, SortedBlocks, FilterBlockBuilder.Valid;
      EarlierDivide(index, blocks, dataBlock, e);
      if pendingIndexEntry {
        var key := FindInternalSeparator(lastKey, e.key);
        LastInBlocks(blocks);
        assert dataBlock + [e] == [e];
        IndexKeyAdded(index, blocks, key);
        SeparatorDivides(index, blocks, key, e);
        index, pendingIndexEntry := index + [key], false;
      }
    }

    /** `full` says whether the block has reached its size, `size` what it takes on disk. */
    method Add(e: Entry, full: bool, size: nat)
      requires Valid() && After(blocks, dataBlock, e) && size > 0
      modifies this, filter
      ensures Valid() && Contents() == old(Contents()) + [e]
    {
      hide Growing, Divides, After, FilterBlockBuilder.Valid, Before, IndexOk;
      AddPendingIndexEntry(e);
      AddedEntry(blocks, dataBlock, e);
      filter.AddKey(e.key.user);
      lastKey := e.key;
      dataBlock := dataBlock + [e];
      if full {
        Flush(size);
      }
    }

    method Flush(size: nat)
      requires Valid() && size > 0
      modifies this, filter
      ensures Valid() && Contents() == old(Contents()) && dataBlock == []
    {
      hide SortedEntries, Before, Less, SortedBlocks, FilterBlockBuilder.Valid, Growing, Divides, After, IndexOk, DividesData;
      if dataBlock == [] {
        return;
      }
      FlushedBlock(blocks, dataBlock, index);
      assert (blocks + [dataBlock])[..|blocks|] == blocks;
      blocks, offsets, dataBlock := blocks + [dataBlock], offsets + [offset], [];
      pendingIndexEntry := true;
      offset := offset + size;
      filter.StartBlock(offset);
    }

    /** The finished table: blocks and index in step, and a filter that knows every key of every block. */
    method Finish(size: nat) returns (filterBlock: Block)
      requires Valid() && size > 0
      modifies this, filter
      ensures Concat(blocks) == old(Contents()) && SortedBlocks(blocks) && |index| == |blocks| == |offsets|
      ensures IndexOk(index, blocks)
      ensures forall b, e :: 0 <= b < |blocks| && e in blocks[b] ==>
                KeyMayMatch(filter.policy, filterBlock, offsets[b], e.key.user)
    {
      hide SortedEntries, Before, Less, IndexOk, SortedBlocks, FilterBlockBuilder.Valid;
      Flush(size);
      var contents;
      filterBlock, contents := filter.Finish();
      if pendingIndexEntry {
        var key := FindInternalSuccessor(lastKey);
        IndexKeyAdded(index, blocks, key);
        index, pendingIndexEntry := index + [key], false;
      }
    }
  }

  lemma LastInBlocks(blocks: seq<seq<Entry>>)
    requires SortedBlocks(blocks) && blocks != []
    ensures InBlocks(blocks, Last(blocks[|blocks| - 1]))
  {
    assert Last(blocks[|blocks| - 1]) in blocks[|blocks| - 1];
  }

  /** The key of a block's index entry is no smaller than the block's last key. */
  lemma IndexKeyAdded(index: seq<IKey>, blocks: seq<seq<Entry>>, key: IKey)
    requires SortedBlocks(blocks) && |index| + 1 == |blocks| && IndexOk(index, blocks)
    requires !Before(key, Last(blocks[|blocks| - 1]).key)
    ensures IndexOk(index + [key], blocks)
  {
    hide Before, Divides, SortedEntries;
  }

  lemma SeparatorDivides(index: seq<IKey>, blocks: seq<seq<Entry>>, key: IKey, e: Entry)
    requires SortedBlocks(blocks) && |index| + 1 == |blocks| && DividesData(index, blocks, [e])
    requires var last := Last(blocks[|blocks| - 1]).key;
             Before(key, e.key) && (key == last || Less(key.user, e.key.user))
    ensures DividesData(index + [key], blocks, [e])
  {
    hide Before, SortedEntries;
  }

  lemma AddedEntry(blocks: seq<seq<Entry>>, data: seq<Entry>, e: Entry)
    requires Growing(blocks, data) && After(blocks, data, e)
    ensures Growing(blocks, data + [e])
  {
  }

  /** What divides a block from some later entry divides it from everything after that entry. */
  lemma DividesOn(key: IKey, block: seq<Entry>, x: Entry, e: Entry)
    requires block != [] && Divides(key, block, x) && Before(x.key, e.key)
    ensures Divides(key, block, e)
  {
    BeforeTransitive(key, x.key, e.key);
    if Less(key.user, x.key.user) && Less(x.key.user, e.key.user) {
      LessTransitive(key.user, x.key.user, e.key.user);
    }
  }

  lemma EarlierDivide(index: seq<IKey>, blocks: seq<seq<Entry>>, data: seq<Entry>, e: Entry)
    requires Growing(blocks, data) && After(blocks, data, e) && |index| <= |blocks| <= |index| + 1
    requires IndexOk(index, blocks) && DividesData(index, blocks, data)
    requires |index| == |blocks| && blocks != [] ==> data != []
    ensures DividesData(index, blocks, data + [e])
  {
    forall b, y | 0 <= b < |index| && y in data + [e] ensures Divides(index[b], blocks[b], y) {
      if y !in data {
        assert y == e;
        if b + 1 < |blocks| {
          var x := blocks[b + 1][0];
          assert x in blocks[b + 1] && InBlocks(blocks, x);
          DividesOn(index[b], blocks[b], x, e);
        } else {
          assert data[0] in data;
          DividesOn(index[b], blocks[b], data[0], e);
        }
      }
    }
  }

  lemma FlushedBlock(blocks: seq<seq<Entry>>, data: seq<Entry>, index: seq<IKey>)
    requires Growing(blocks, data) && data != [] && |index| <= |blocks| && IndexOk(index, blocks) && DividesData(index, blocks, data)
    ensures Growing(blocks + [data], []) && IndexOk(index, blocks + [data]) && DividesData(index, blocks + [data], [])
  {
    hide Before, Divides, Less;
    var more := blocks + [data];
    forall b, c, x: Entry, y: Entry | 0 <= b < c < |more| && x in more[b] && y in more[c] ensures Before(x.key, y.key) {
      if c == |blocks| {
        assert InBlocks(blocks, x);
      }
    }
  }

  method AddAll(policy: Policy, entries: seq<Entry>, full: nat -> bool, sizes: nat -> nat) returns (t: TableBuilder)
    requires NeverDenies(policy) && SortedEntries(entries)
    ensures t.Valid() && t.Contents() == entries && t.filter.policy == policy && fresh(t) && fresh(t.filter)
  {
    hide TableBuilder.Valid, SortedEntries, NeverDenies, After;
    t := new TableBuilder(policy);
    for i := 0 to |entries|
      invariant t.Valid() && t.Contents() == entries[..i] && t.filter.policy == policy
      invariant fresh(t) && fresh(t.filter)
    {
      AllBefore(t.blocks, t.dataBlock, entries, i);
      t.Add(entries[i], full(i), sizes(i) + 1);
      assert entries[..i + 1] == entries[..i] + [entries[i]];
    }
    assert entries[..|entries|] == entries;
  }

  /** What a scan over the entries finds. */
  ghost predicate FirstFrom(entries: seq<Entry>, target: IKey, e: Entry) {
    && e in entries && !Before(e.key, target)
    && forall x :: x in entries && !Before(x.key, target) ==> !Before(x.key, e.key)
  }

  lemma SameFirst(blocks: seq<seq<Entry>>, target: IKey, e: Entry)
    ensures IsFirst(blocks, target, e) <==> FirstFrom(Concat(blocks), target, e)
  {
    hide Before;
    ConcatMembers(blocks);
  }

  /** Build a table of the entries, then look a key up in it. */
  method BuildAndGet(policy: Policy, entries: seq<Entry>, full: nat -> bool, sizes: nat -> nat, target: IKey)
    returns (r: Option<Entry>)
    requires NeverDenies(policy) && SortedEntries(entries)
    ensures r.Some? ==> r.value.key.user == target.user && FirstFrom(entries, target, r.value)
    ensures r.None? ==> forall e :: FirstFrom(entries, target, e) ==> e.key.user != target.user
  {
    hide TableBuilder.Valid, SortedEntries, NeverDenies, After, SortedBlocks, IndexOk, IsFirst, KeyMayMatch, FirstFrom;
    var t := AddAll(policy, entries, full, sizes);
    var filterBlock := t.Finish(sizes(|entries|) + 1);
    forall e ensures IsFirst(t.blocks, target, e) <==> FirstFrom(entries, target, e) {
      SameFirst(t.blocks, target, e);
    }
    var offsets := t.offsets;
    r := InternalGet(t.index, t.blocks, target,
                     (b: nat) => if b < |offsets| then KeyMayMatch(policy, filterBlock, offsets[b], target.user) else true);
  }

  lemma {:induction false} ConcatMembers(blocks: seq<seq<Entry>>)
    ensures forall e :: e in Concat(blocks) <==> InBlocks(blocks, e)
  {
    if blocks != [] {
      var n := |blocks| - 1;
      ConcatMembers(blocks[..n]);
      forall e ensures e in Concat(blocks) <==> InBlocks(blocks, e) {
        if InBlocks(blocks, e) {
          var b :| 0 <= b < |blocks| && e in blocks[b];
          assert b < n ==> e in blocks[..n][b];
        }
      }
    }
  }

  lemma AllBefore(blocks: seq<seq<Entry>>, data: seq<Entry>, entries: seq<Entry>, i: nat)
    requires SortedEntries(entries) && i < |entries| && Concat(blocks) + data == entries[..i]
    ensures After(blocks, data, entries[i])
  {
    ConcatMembers(blocks);
    var done := Concat(blocks) + data;
    forall x | x in done ensures Before(x.key, entries[i].key) {
      var j :| 0 <= j < i && entries[..i][j] == x;
    }
    assert forall x :: x in Concat(blocks) || x in data ==> x in done;
  }
}
