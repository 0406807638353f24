/**
  Building a table block and moving over it.
 */
module Blocks {
  import opened Wrappers
  import opened ByteCoding
  import opened BlockFormat

  /** No longer prefix than the first `n` bytes is common to both. */
  predicate SharesMost(a: Bytes, b: Bytes, n: nat) {
    n <= |a| && n <= |b| && a[..n] == b[..n] && (n < |a| && n < |b| ==> a[n] != b[n])
  }

  method CommonPrefix(a: Bytes, b: Bytes) returns (shared: nat)
    ensures SharesMost(a, b, shared)
  {
    var minLength := if |a| < |b| then |a| else |b|;
    shared := 0;
    while shared < minLength && a[shared] == b[shared]
      invariant 0 <= shared <= minLength && a[..shared] == b[..shared]
    {
      shared := shared + 1;
    }
  }

  class BlockBuilder {
    const interval: nat   // entries between restart points
    var buffer: Bytes
    var restarts: seq<nat>
    var counter: nat
    var lastKey: Bytes
    var finished: bool
    ghost var shape: Shape

    ghost predicate Valid()
      reads this
    {
      && interval >= 1 && counter <= interval
      && EntriesLaid(buffer, shape) && RestartsLaid(restarts, shape)
      && lastKey == Previous(shape, |shape.entries|)
      && shape.marks != [] && counter == |shape.entries| - shape.marks[|shape.marks| - 1]
      && (forall r :: 0 < r < |shape.marks| ==> shape.marks[r] == shape.marks[r - 1] + interval)
      && |restarts| <= (if buffer == [] then 1 else |buffer|)
      && forall r :: 0 <= r < |restarts| ==> restarts[r] < TWO_32
    }

    constructor (interval: nat)
      requires interval >= 1
      ensures Valid() && this.interval == interval && shape.entries == [] && buffer == [] && !finished
    {
      this.interval := interval;
      buffer, restarts, counter, lastKey, finished := [], [0], 0, [], false;
      shape := Shape([], [0], [], [0]);
    }

    /** One more entry, its key cut down to what it does not share with the key before. */
    method Add(key: Bytes, value: Bytes)
      requires Valid() && !finished && |key| < TWO_32 && |value| < TWO_32 && |buffer| < TWO_32
      modifies this
      ensures Valid() && !finished && shape.entries == old(shape.entries) + [Entry(key, value)]
      ensures |buffer| <= |old(buffer)| + 15 + |key| + |value|
      ensures restarts == old(restarts) + if old(counter) == interval then [|old(buffer)|] else []
      ensures shape.shares != [] && (old(counter) < interval ==> SharesMost(old(lastKey), key, shape.shares[|shape.shares| - 1]))
    {
      hide EntriesLaid, RestartsLaid, RestartsBefore, EncodeEntry;
      var shared := 0;
      ghost var marks := shape.marks;
      if counter < interval {
        shared := CommonPrefix(lastKey, key);
        NoNewRestart(buffer, restarts, shape, shared);
      } else {
        NewRestart(buffer, restarts, shape);
        restarts := restarts + [|buffer|];
        marks := marks + [|shape.entries|];
        counter := 0;
      }
      Append(key, value, shared, marks);
    }

    /** The entry itself, once it is clear what it shares and whether it is a restart point. */
    method Append(key: Bytes, value: Bytes, shared: nat, ghost marks: seq<nat>)
      requires EntriesLaid(buffer, shape) && lastKey == Previous(shape, |shape.entries|) && counter < interval
      requires |key| < TWO_32 && |value| < TWO_32
      requires shared <= |key| && shared <= |lastKey| && lastKey[..shared] == key[..shared]
      requires forall r :: 0 <= r < |restarts| ==> restarts[r] < TWO_32
      requires RestartsBefore(restarts, marks, shape, |buffer|, shared)
      requires |restarts| <= |buffer| + 2 && marks != [] && counter == |shape.entries| - marks[|marks| - 1]
      requires forall r :: 0 < r < |marks| ==> marks[r] == marks[r - 1] + interval
      modifies this`buffer, this`lastKey, this`counter, this`shape
      ensures Valid() && shape.entries == old(shape.entries) + [Entry(key, value)]
      ensures shape.shares == old(shape.shares) + [shared]
      ensures |buffer| <= |old(buffer)| + 15 + |key| + |value|
    {
      hide EncodeEntry, EntryLaid, Varint, Power128;
      VarintSizes();
      VarintFits(shared, 5);
      VarintFits(|key| - shared, 5);
      VarintFits(|value|, 5);
      ghost var e := Entry(key, value);
      ghost var s := shape;
      var more := Varint(shared) + Varint(|key| - shared) + Varint(|value|) + key[shared..] + value;
      EntryBytes(shared, e);
      assert |buffer| == s.starts[|s.entries|];
      shape := Shape(s.entries + [e], s.starts + [|buffer| + |more|], s.shares + [shared], marks);
      EntryAdded(buffer, s, e, shared, more, shape);
      MarksAdded(buffer, restarts, s, shape);
      buffer := buffer + more;
      lastKey := lastKey[..shared];
      lastKey := lastKey + key[shared..];
      counter := counter + 1;
    }

    method Finish() returns (contents: Bytes)
      requires Valid() && !finished && |restarts| < TWO_32
      modifies this`buffer, this`finished
      ensures finished && buffer == contents
      ensures contents == old(buffer) + FixedArray(restarts) + Fixed(|restarts|, 4)
      ensures Open(contents).Some? && Laid(Open(contents).value, shape)
    {
      hide EntriesLaid, RestartsLaid, Fixed, FixedArray, Open;
      ghost var data := buffer;
      OpenInverts(data, restarts);
      for i := 0 to |restarts|
        invariant buffer == data + FixedArray(restarts[..i])
      {
        assert restarts[..i + 1] == restarts[..i] + [restarts[i]];
        FixedArrayLast(restarts[..i], restarts[i]);
        buffer := buffer + Fixed(restarts[i], 4);
      }
      assert restarts[..|restarts|] == restarts;
      buffer := buffer + Fixed(|restarts|, 4);
      finished := true;
      contents := buffer;
    }
  }

  /** The restart points there will be once one more entry is added at `size` that shares `shared` bytes. */
  ghost predicate RestartsBefore(restarts: seq<nat>, marks: seq<nat>, s: Shape, size: nat, shared: nat)
    requires |s.starts| == |s.entries| + 1 && |s.shares| == |s.entries|
  {
    && |restarts| == |marks| > 0 && marks[0] == 0
    && (forall r :: 0 <= r < |marks| ==> marks[r] <= |s.entries| && restarts[r] == s.starts[marks[r]])
    && (forall r :: 0 <= r < |marks| ==> if marks[r] < |s.entries| then s.shares[marks[r]] == 0 else shared == 0)
    && (forall r, t :: 0 <= r < t < |marks| ==> marks[r] < marks[t])
  }

  lemma NoNewRestart(data: Bytes, restarts: seq<nat>, s: Shape, shared: nat)
    requires EntriesLaid(data, s) && RestartsLaid(restarts, s) && shared <= |Previous(s, |s.entries|)|
    ensures RestartsBefore(restarts, s.marks, s, |data|, shared)
  {
    hide EntryLaid;
  }

  lemma NewRestart(data: Bytes, restarts: seq<nat>, s: Shape)
    requires EntriesLaid(data, s) && RestartsLaid(restarts, s) && s.entries != []
    ensures RestartsBefore(restarts + [|data|], s.marks + [|s.entries|], s, |data|, 0)
  {
    hide EntryLaid;
  }

  lemma MarksAdded(data: Bytes, restarts: seq<nat>, s: Shape, t: Shape)
    requires EntriesLaid(data, s) && |t.entries| == |s.entries| + 1 && |t.shares| == |t.entries|
    requires RestartsBefore(restarts, t.marks, s, |data|, t.shares[|s.entries|])
    requires |t.starts| == |s.starts| + 1 && t.starts[..|s.starts|] == s.starts && t.shares[..|s.shares|] == s.shares
    ensures RestartsLaid(restarts, t)
  {
    hide EntryLaid;
    forall i | 0 <= i < |s.starts| ensures t.starts[i] == s.starts[i] {
      assert t.starts[..|s.starts|][i] == t.starts[i];
    }
    forall i | 0 <= i < |s.shares| ensures t.shares[i] == s.shares[i] {
      assert t.shares[..|s.shares|][i] == t.shares[i];
    }
  }

  /** Keys ascend in a comparator that is transitive. */
  ghost predicate Ascending(less: (Bytes, Bytes) -> bool, entries: seq<Entry>) {
    && (forall a, b, c :: less(a, b) && less(b, c) ==> less(a, c))
    && (forall i, j :: 0 <= i < j < |entries| ==> less(entries[i].key, entries[j].key))
  }

  /** `k` is where the entries stop being before the target. */
  ghost predicate IsSeek(less: (Bytes, Bytes) -> bool, entries: seq<Entry>, target: Bytes, k: nat) {
    && k <= |entries|
    && (forall i :: 0 <= i < k ==> less(entries[i].key, target))
    && (k < |entries| ==> !less(entries[k].key, target))
  }

  /** Every entry starts inside the block, and after the last one is its end. */
  lemma StartsInside(data: Bytes, s: Shape, k: nat)
    requires EntriesLaid(data, s) && k <= |s.entries|
    ensures (s.starts[k] < |data| <==> k < |s.entries|) && s.starts[k] <= |data|
  {
  }

  lemma StartsOrder(data: Bytes, s: Shape, i: nat, j: nat)
    requires EntriesLaid(data, s) && i <= |s.entries| && j <= |s.entries|
    ensures s.starts[i] < s.starts[j] <==> i < j
  {
  }

  lemma RestartIsStart(b: Block, s: Shape, r: nat)
    requires Laid(b, s) && r < |b.restarts|
    ensures r < |s.marks| && s.marks[0] == 0 && s.marks[r] <= |s.entries| && b.restarts[r] == s.starts[s.marks[r]]
    ensures s.entries != [] ==> s.marks[r] < |s.entries|
  {
  }

  ghost predicate KeyAtMark(s: Shape, r: nat) {
    r < |s.marks| && s.marks[r] < |s.entries|
  }

  /** Only an empty block has a restart point without an entry. */
  lemma ManyRestarts(b: Block, s: Shape, r: nat)
    requires Laid(b, s) && 0 < r < |b.restarts|
    ensures KeyAtMark(s, r)
  {
    assert s.marks[0] < s.marks[r];
  }

  /** With the key at a restart point before the target, so are all keys before it. */
  lemma BeforeMark(less: (Bytes, Bytes) -> bool, b: Block, s: Shape, r: nat, target: Bytes)
    requires Laid(b, s) && Ascending(less, s.entries) && r < |b.restarts|
    requires r > 0 ==> KeyAtMark(s, r) && less(s.entries[s.marks[r]].key, target)
    ensures r < |s.marks| && s.marks[r] <= |s.entries|
    ensures forall i :: 0 <= i < s.marks[r] ==> less(s.entries[i].key, target)
  {
    hide EntriesLaid;
    forall i | 0 <= i < s.marks[r]
      ensures less(s.entries[i].key, target)
    {
      assert less(s.entries[i].key, s.entries[s.marks[r]].key);
    }
  }

  /** An iterator; on a block that is not as it was built it may find corruptions, but stays in bounds. */
  class BlockIter {
    const less: (Bytes, Bytes) -> bool
    const data: Bytes
    const restarts: seq<nat>
    var current: nat
    var restartIndex: nat
    var key: Bytes
    var value: Bytes
    var next: nat           // where the entry after the current one starts
    var corrupt: bool
    ghost const shape: Shape
    ghost const sound: bool // whether the block is laid out as the shape says
    ghost var pos: nat      // the current entry; their number if there is none

    ghost predicate Valid()
      reads this
    {
      && restarts != [] && (sound ==> Laid(Block(data, restarts), shape))
      && (current < |data| ==> restartIndex < |restarts| && current < next <= |data|)
      && (sound ==> At())
    }

    ghost predicate At()
      reads this
      requires sound ==> Laid(Block(data, restarts), shape)
      requires sound
    {
      && !corrupt && pos <= |shape.entries| && (current < |data| <==> pos < |shape.entries|)
      && (pos < |shape.entries| ==> (
        && current == shape.starts[pos] && next == shape.starts[pos + 1]
        && Entry(key, value) == shape.entries[pos]
        && restartIndex < |restarts| && restarts[restartIndex] <= current
        && (restartIndex + 1 < |restarts| ==> current <= restarts[restartIndex + 1])))
    }

    /** The next entry to parse is entry `k`, with what its key shares at hand. */
    ghost predicate Ready(k: nat)
      reads this
      requires sound ==> Laid(Block(data, restarts), shape)
      requires sound
    {
      && !corrupt && k <= |shape.entries| && next == shape.starts[k]
      && (k < |shape.entries| ==> key == Previous(shape, k) || shape.shares[k] == 0)
      && restartIndex < |restarts| && restarts[restartIndex] <= next
    }

    constructor (less: (Bytes, Bytes) -> bool, block: Block, ghost shape: Shape)
      requires block.restarts != []
      ensures Valid() && this.less == less && this.shape == shape && (sound <==> Laid(block, shape))
      ensures data == block.data && restarts == block.restarts && current >= |data|
    {
      hide EntriesLaid, RestartsLaid;
      this.less, data, restarts, this.shape := less, block.data, block.restarts, shape;
      sound := Laid(block, shape);
      current, restartIndex, key, value, next, corrupt := |block.data|, |block.restarts|, [], [], 0, false;
      pos := |shape.entries|;
    }

    predicate IsValid()
      reads this
    {
      current < |data|
    }

    method Found() returns (r: Option<Entry>)
      requires Valid()
      ensures sound ==> pos <= |shape.entries|
      ensures sound ==> r == if pos < |shape.entries| then Some(shape.entries[pos]) else None
    {
      hide EntriesLaid, RestartsLaid;
      r := if IsValid() then Some(Entry(key, value)) else None;
    }

    method CorruptionError()
      requires restarts != [] && !sound
      modifies this
      ensures Valid() && corrupt && current == |data|
    {
      current, restartIndex, corrupt := |data|, |restarts|, true;
      key, value := [], [];
    }

    method SeekToRestartPoint(index: nat)
      requires index < |restarts| && (sound ==> Laid(Block(data, restarts), shape) && !corrupt)
      modifies this`key, this`restartIndex, this`value, this`next
      ensures restartIndex == index && next == restarts[index] && key == []
      ensures sound ==> Ready(shape.marks[index])
    {
      hide EntryLaid;
      key := [];
      restartIndex := index;
      value := [];
      next := restarts[index];
    }

    /** Move on to the entry that starts at `next`, if there is one. */
    method ParseNextKey(ghost k: nat) returns (ok: bool)
      requires restarts != [] && restartIndex < |restarts| && (sound ==> Laid(Block(data, restarts), shape) && Ready(k))
      modifies this
      ensures Valid() && ok == IsValid() && (ok ==> old(next) < next && current == old(next))
      ensures sound ==> pos == k
    {
      hide EntriesLaid, RestartsLaid, ParseEntry, DecodeEntry;
      current := next;
      pos := k;
      if sound {
        StartsInside(data, shape, k);
      }
      if current >= |data| {
        current, restartIndex := |data|, |restarts|;
        return false;
      }
      if sound {
        ParseAt(Block(data, restarts), shape, k, key);
      }
      var p := ParseEntry(data, current, key);
      if p.None? {
        CorruptionError();
        return false;
      }
      key, value, next := p.value.entry.key, p.value.entry.value, p.value.next;
      FollowRestarts();
      ok := true;
    }

    /** Keep up with the restart points passed. */
    method FollowRestarts()
      requires restartIndex < |restarts|
      modifies this`restartIndex
      ensures restartIndex < |restarts| && (restartIndex + 1 < |restarts| ==> current <= restarts[restartIndex + 1])
      ensures old(restarts[restartIndex]) <= current ==> restarts[restartIndex] <= current
    {
      while restartIndex + 1 < |restarts| && restarts[restartIndex + 1] < current
        invariant restartIndex < |restarts|
        invariant old(restarts[restartIndex]) <= current ==> restarts[restartIndex] <= current
      {
        restartIndex := restartIndex + 1;
      }
    }
 
    method Next()
      requires Valid() && IsValid()
      modifies this
      ensures Valid() && (sound ==> pos == old(pos) + 1)
    {
      hide EntriesLaid, RestartsLaid;
      if sound {
        StepReady();
      }
      var ok := ParseNextKey(pos + 1);
    }

    lemma StepReady()
      requires Valid() && sound && IsValid()
      ensures Ready(pos + 1)
    {
      hide EntryLaid, RestartsLaid;
    }

    /** Back to the last restart point before the current entry, then forward to the entry that ends here. */
    method Prev()
      requires Valid() && IsValid()
      modifies this
      ensures Valid() && (sound ==> pos == if old(pos) == 0 then |shape.entries| else old(pos) - 1)
    {
      hide EntriesLaid, RestartsLaid, Ready;
      var original := current;
      ghost var here := pos;
      while restarts[restartIndex] >= original
        invariant restartIndex < |restarts| && pos == here && (sound ==> !corrupt)
        decreases restartIndex
      {
        if restartIndex == 0 {
          if sound {
            RestartIsStart(Block(data, restarts), shape, 0);
            StartsOrder(data, shape, 0, here);
          }
          current, restartIndex := |data|, |restarts|;
          pos := |shape.entries|;
          return;
        }
        restartIndex := restartIndex - 1;
      }
      if sound {
        RestartIsStart(Block(data, restarts), shape, restartIndex);
        StartsOrder(data, shape, shape.marks[restartIndex], here);
      }
      SeekToRestartPoint(restartIndex);
      ScanTo(original, if sound then shape.marks[restartIndex] else 0, here);
    }

    /** Parse entries until one ends at the offset, which is where entry `end` starts. */
    method ScanTo(offset: nat, ghost k: nat, ghost end: nat)
      requires restarts != [] && restartIndex < |restarts| && (sound ==> Laid(Block(data, restarts), shape) && Ready(k))
      requires sound ==> k <= end <= |shape.entries| && offset == shape.starts[end] && (k < end || end == |shape.entries|)
      modifies this
      ensures Valid() && (sound ==> pos == if k < end then end - 1 else end)
    {
      hide EntriesLaid, RestartsLaid, Ready;
      var ok := ParseNextKey(k);
      while ok && next < offset
        invariant Valid() && ok == IsValid() && (sound ==> if k < end then pos < end else pos == end)
        decreases if ok then |data| - next + 1 else 0
      {
        if sound {
          StepReady();
          StartsOrder(data, shape, pos + 1, end);
        }
        ok := ParseNextKey(pos + 1);
      }
      if sound && k < end {
        StartsOrder(data, shape, pos + 1, end);
      }
    }

    /** Binary search for the last restart point with a key before the target. */
    method LastRestartBefore(target: Bytes) returns (found: bool, left: nat)
      requires Valid()
      modifies this
      ensures Valid() && (sound ==> found) && (found ==> unchanged(this) && left < |restarts|)
      ensures sound && left > 0 ==> KeyAtMark(shape, left) && less(shape.entries[shape.marks[left]].key, target)
    {
      hide EntriesLaid, RestartsLaid, DecodeEntry;
      left := 0;
      var right := |restarts| - 1;
      while left < right
        invariant left <= right < |restarts| && unchanged(this)
        invariant sound && left > 0 ==> KeyAtMark(shape, left) && less(shape.entries[shape.marks[left]].key, target)
      {
        var mid := (left + right + 1) / 2;
        if sound {
          ManyRestarts(Block(data, restarts), shape, mid);
          RestartKey(Block(data, restarts), shape, mid);
        }
        var d := DecodeEntry(data, restarts[mid]);
        if d.None? || d.value.shared != 0 {
          CorruptionError();
          return false, 0;
        }
        var midKey := data[d.value.delta..d.value.delta + d.value.nonShared];
        if less(midKey, target) {
          left := mid;
        } else {
          right := mid - 1;
        }
      }
      found := true;
    }

    /** From the last restart point before the target, the first entry that is not before it. */
    method Seek(target: Bytes)
      requires Valid()
      modifies this
      ensures Valid() && (sound && Ascending(less, shape.entries) ==> IsSeek(less, shape.entries, target, pos))
    {
      hide EntriesLaid, RestartsLaid, Ready, Ascending, KeyAtMark;
      var found, left := LastRestartBefore(target);
      if !found {
        return;
      }
      if sound {
        RestartIsStart(Block(data, restarts), shape, left);
      }
      SeekToRestartPoint(left);
      ghost var k := if sound then shape.marks[left] else 0;
      var ok := ParseNextKey(k);
      while ok && less(key, target)
        invariant Valid() && ok == IsValid()
        invariant sound ==> k <= pos && forall i :: k <= i < pos ==> less(shape.entries[i].key, target)
        decreases if ok then |data| - next + 1 else 0
      {
        if sound {
          StepReady();
        }
        ok := ParseNextKey(pos + 1);
      }
      if sound && Ascending(less, shape.entries) {
        BeforeMark(less, Block(data, restarts), shape, left, target);
      }
    }

    method SeekToFirst()
      requires Valid()
      modifies this
      ensures Valid() && (sound ==> pos == 0)
    {
      hide EntriesLaid, RestartsLaid, Ready;
      if sound {
        RestartIsStart(Block(data, restarts), shape, 0);
      }
      SeekToRestartPoint(0);
      var ok := ParseNextKey(0);
    }

    method SeekToLast()
      requires Valid()
      modifies this
      ensures Valid() && (sound ==> pos == if shape.entries == [] then 0 else |shape.entries| - 1)
    {
      hide EntriesLaid, RestartsLaid, Ready;
      var last := |restarts| - 1;
      if sound {
        RestartIsStart(Block(data, restarts), shape, last);
        StartsInside(data, shape, |shape.entries|);
      }
      SeekToRestartPoint(last);
      ScanTo(|data|, if sound then shape.marks[last] else 0, |shape.entries|);
    }
  }

  /* ---- What is built is what is read ---- */

  /** No more bytes than this go into a block's data. */
  function Room(entries: seq<Entry>): nat {
    if entries == [] then 0
    else Room(entries[..|entries| - 1]) + 15 + |entries[|entries| - 1].key| + |entries[|entries| - 1].value|
  }

  lemma NoRoom(entries: seq<Entry>)
    requires entries == []
    ensures Room(entries) == 0
  {
  }

  lemma {:induction false} RoomGrows(entries: seq<Entry>, i: nat)
    requires i < |entries|
    ensures Room(entries[..i]) + 15 + |entries[i].key| + |entries[i].value| == Room(entries[..i + 1]) <= Room(entries)
    decreases |entries|
  {
    var n := |entries| - 1;
    assert entries[..i + 1][..i] == entries[..i];
    if i < n {
      RoomGrows(entries[..n], i);
      assert entries[..n][..i + 1] == entries[..i + 1] && entries[..n][..i] == entries[..i];
    } else {
      assert entries[..i + 1] == entries;
    }
  }

  /** A block of any entries, as long as offsets fit 32 bits. */
  method Build(interval: nat, entries: seq<Entry>) returns (contents: Bytes, ghost shape: Shape)
    requires interval >= 1 && Room(entries) < TWO_32
    ensures Open(contents).Some? && Laid(Open(contents).value, shape) && shape.entries == entries
  {
    hide Room, Open, Laid, EntriesLaid, RestartsLaid, SharesMost;
    var b := new BlockBuilder(interval);
    NoRoom(entries[..0]);
    for i := 0 to |entries|
      invariant b.Valid() && !b.finished && fresh(b) && b.interval == interval
      invariant b.shape.entries == entries[..i] && |b.buffer| <= Room(entries[..i]) < TWO_32
    {
      RoomGrows(entries, i);
      assert entries[..i + 1] == entries[..i] + [entries[i]];
      b.Add(entries[i].key, entries[i].value);
    }
    assert entries[..|entries|] == entries;
    contents := b.Finish();
    shape := b.shape;
  }

  /** Moving over a block, in either direction, visits exactly its entries. */
  method ScanForward(it: BlockIter) returns (rows: seq<Entry>)
    requires it.Valid() && it.sound
    modifies it
    ensures it.Valid() && rows == it.shape.entries
  {
    rows := [];
    it.SeekToFirst();
    while it.IsValid()
      invariant it.Valid() && it.pos <= |it.shape.entries| && rows == it.shape.entries[..it.pos]
      decreases |it.shape.entries| - it.pos
    {
      rows := rows + [Entry(it.key, it.value)];
      it.Next();
    }
  }

  method ScanBackward(it: BlockIter) returns (rows: seq<Entry>)
    requires it.Valid() && it.sound
    modifies it
    ensures it.Valid() && rows == it.shape.entries
  {
    rows := [];
    it.SeekToLast();
    ghost var left := |it.shape.entries|;
    while it.IsValid()
      invariant it.Valid() && 0 <= left <= |it.shape.entries| && rows == it.shape.entries[left..]
      invariant it.pos == if left == 0 then |it.shape.entries| else left - 1
      decreases left
    {
      rows := [Entry(it.key, it.value)] + rows;
      it.Prev();
      left := left - 1;
    }
  }

  /** Whatever was put into a block comes out of its bytes, forwards and backwards. */
  method RoundTrip(interval: nat, entries: seq<Entry>, less: (Bytes, Bytes) -> bool)
    returns (forwards: seq<Entry>, backwards: seq<Entry>)
    requires interval >= 1 && Room(entries) < TWO_32
    ensures forwards == entries && backwards == entries
  {
    hide *;
    ghost var shape;
    var contents;
    contents, shape := Build(interval, entries);
    var block := Open(contents).value;
    RestartsExist(block, shape);
    var it := new BlockIter(less, block, shape);
    forwards := ScanForward(it);
    backwards := ScanBackward(it);
  }

  /** A search in the bytes of a block finds the first entry that is not before the target, if there is one. */
  method BuildAndSeek(interval: nat, entries: seq<Entry>, less: (Bytes, Bytes) -> bool, target: Bytes)
    returns (found: Option<Entry>)
    requires interval >= 1 && Room(entries) < TWO_32
    requires Ascending(less, entries)
    ensures exists k: nat :: IsSeek(less, entries, target, k) && found == if k < |entries| then Some(entries[k]) else None
  {
    hide *;
    ghost var shape;
    var contents;
    contents, shape := Build(interval, entries);
    var block := Open(contents).value;
    RestartsExist(block, shape);
    var it := new BlockIter(less, block, shape);
    it.Seek(target);
    ghost var k := it.pos;
    found := it.Found();
    assert IsSeek(less, entries, target, k) && found == if k < |entries| then Some(entries[k]) else None;
  }

  lemma RestartsExist(b: Block, s: Shape)
    requires Laid(b, s)
    ensures b.restarts != []
  {
  }
}
