/**
  The compaction loop: which entries survive, where output tables are cut, and exactly when dropping
  the others goes unnoticed by every reader the store still has to serve.
 */
module CompactionWork {
  import opened Wrappers
  import opened DbFormat
  import opened Versions
  import opened CompactionInputs

  /** No table below level + 1 has `k` in its range. */
  ghost predicate IsBaseLevel(v: Levels, level: nat, k: UserKey) {
    forall i, f :: level + 2 <= i < NUM_LEVELS && f in v[i] ==> !(Lo(f) <= k <= Hi(f))
  }

  class Compaction {
    const level: nat
    const inputVersion: Levels
    const grandparents: seq<File>
    const maxFileSize: nat
    var levelPtrs: seq<nat>
    var grandparentIndex: nat
    var seenKey: bool
    var overlappedBytes: nat
    ghost var lastAsked: Option<UserKey>
    ghost var countedFrom: nat  // the first grandparent whose bytes are in overlappedBytes

    constructor (level: nat, inputVersion: Levels, grandparents: seq<File>, maxFileSize: nat)
      requires forall i :: 1 <= i < NUM_LEVELS ==> LevelSorted(inputVersion[i])
      ensures Valid() && lastAsked == None && !seenKey && grandparentIndex == 0
      ensures this.level == level && this.inputVersion == inputVersion
      ensures this.grandparents == grandparents && this.maxFileSize == maxFileSize
    {
      this.level, this.inputVersion, this.grandparents, this.maxFileSize :=
        level, inputVersion, grandparents, maxFileSize;
      levelPtrs := seq(NUM_LEVELS, i => 0);
      grandparentIndex, seenKey, overlappedBytes := 0, false, 0;
      lastAsked, countedFrom := None, 0;
    }

    /** A level pointer has passed only files that end before every key still to be asked about. */
    ghost predicate PointersValid()
      reads this`levelPtrs, this`lastAsked
    {
      && |levelPtrs| == NUM_LEVELS
      && (forall i :: 1 <= i < NUM_LEVELS ==> LevelSorted(inputVersion[i]))
      && (forall i :: 0 <= i < NUM_LEVELS ==> levelPtrs[i] <= |inputVersion[i]|)
      && (forall i, j :: 0 <= i < NUM_LEVELS && 0 <= j < levelPtrs[i] ==>
           lastAsked.Some? && Hi(inputVersion[i][j]) < lastAsked.value)
    }

    ghost predicate Valid()
      reads this`levelPtrs, this`lastAsked, this`grandparentIndex, this`overlappedBytes, this`seenKey, this`countedFrom
    {
      && PointersValid() && countedFrom <= grandparentIndex <= |grandparents|
      && (!seenKey ==> countedFrom == grandparentIndex)
      && overlappedBytes == TotalFileSize(grandparents[countedFrom..grandparentIndex])
    }

    /** Asked about keys in ascending order, the moving pointers answer as a search of all files would. */
    method IsBaseLevelForKey(k: UserKey) returns (r: bool)
      requires PointersValid() && (lastAsked.Some? ==> lastAsked.value <= k)
      modifies this`levelPtrs, this`lastAsked
      ensures PointersValid() && lastAsked == Some(k)
      ensures r <==> IsBaseLevel(inputVersion, level, k)
    {
      lastAsked := Some(k);
      var lvl := level + 2;
      while lvl < NUM_LEVELS
        invariant level + 2 <= lvl && PointersValid() && lastAsked == Some(k)
        invariant forall i, f :: level + 2 <= i < lvl && i < NUM_LEVELS && f in inputVersion[i] ==> !(Lo(f) <= k <= Hi(f))
      {
        var files := inputVersion[lvl];
        while levelPtrs[lvl] < |files|
          invariant PointersValid() && lastAsked == Some(k)
          decreases |files| - levelPtrs[lvl]
        {
          var f := files[levelPtrs[lvl]];
          if k <= Hi(f) {
            if k >= Lo(f) {
              return false;
            }
            break;
          }
          levelPtrs := levelPtrs[lvl := levelPtrs[lvl] + 1];
        }
        PastPointer(files, levelPtrs[lvl], k);
        lvl := lvl + 1;
      }
      r := true;
    }

    /**
      Stop once more than ten times the size of a table has been counted two levels below.  What lies before
      the very first key is not counted, and after a stop counting starts over.
     */
    method ShouldStopBefore(key: InternalKey) returns (stop: bool)
      requires Valid()
      modifies this`grandparentIndex, this`seenKey, this`overlappedBytes, this`countedFrom
      ensures Valid() && seenKey
      ensures old(grandparentIndex) <= grandparentIndex
      ensures forall j :: old(grandparentIndex) <= j < grandparentIndex ==> Before(Largest(grandparents[j]), key)
      ensures grandparentIndex < |grandparents| ==> !Before(Largest(grandparents[grandparentIndex]), key)
      ensures Counts(old(seenKey), old(countedFrom), stop)
    {
      hide PointersValid, TotalFileSize;
      ghost var start := grandparentIndex;
      ghost var from := if seenKey then countedFrom else start;
      NothingCounted(grandparents, start);
      while grandparentIndex < |grandparents| && Before(Largest(grandparents[grandparentIndex]), key)
        invariant start <= grandparentIndex <= |grandparents| && seenKey == old(seenKey) && countedFrom == old(countedFrom)
        invariant forall j :: start <= j < grandparentIndex ==> Before(Largest(grandparents[j]), key)
        invariant overlappedBytes == if seenKey then TotalFileSize(grandparents[from..grandparentIndex]) else 0
      {
        CountNext(grandparents, from, grandparentIndex);
        if seenKey {
          overlappedBytes := overlappedBytes + grandparents[grandparentIndex].size;
        }
        grandparentIndex := grandparentIndex + 1;
      }
      NothingCounted(grandparents, grandparentIndex);
      countedFrom := if seenKey then countedFrom else grandparentIndex;
      seenKey := true;
      stop := overlappedBytes > 10 * maxFileSize;
      if stop {
        overlappedBytes, countedFrom := 0, grandparentIndex;
      }
    }

    /** Whether to stop, and where counting goes on from. */
    ghost predicate Counts(seen: bool, from: nat, stop: bool)
      reads this`grandparentIndex, this`countedFrom
    {
      var counted := if seen then from else grandparentIndex;
      && counted <= grandparentIndex <= |grandparents|
      && (stop <==> TotalFileSize(grandparents[counted..grandparentIndex]) > 10 * maxFileSize)
      && countedFrom == if stop then grandparentIndex else counted
    }
  }

  lemma CountNext(fs: seq<File>, from: nat, n: nat)
    requires from <= n < |fs|
    ensures TotalFileSize(fs[from..n + 1]) == TotalFileSize(fs[from..n]) + fs[n].size
  {
    TotalSizeAppend(fs[from..n], fs[n]);
    assert fs[from..n + 1] == fs[from..n] + [fs[n]];
  }

  lemma NothingCounted(fs: seq<File>, n: nat)
    requires n <= |fs|
    ensures TotalFileSize(fs[n..n]) == 0
  {
  }

  lemma PastPointer(files: seq<File>, p: nat, k: UserKey)
    requires LevelSorted(files) && p <= |files|
    requires forall j :: 0 <= j < p ==> Hi(files[j]) < k
    requires p < |files| ==> k < Lo(files[p])
    ensures forall f :: f in files ==> !(Lo(f) <= k <= Hi(f))
  {
    forall j | p < j < |files| ensures k < Lo(files[j]) {
      FileBounds(files[p]);
      assert Before(Largest(files[p]), Smallest(files[j]));
    }
  }

  lemma {:induction false} TotalSizeAppend(fs: seq<File>, f: File)
    ensures TotalFileSize(fs + [f]) == TotalFileSize(fs) + f.size
  {
    if fs == [] {
      assert fs + [f] == [f];
    } else {
      assert (fs + [f])[1..] == fs[1..] + [f];
      TotalSizeAppend(fs[1..], f);
    }
  }

  /* ---- Which entries survive ---- */

  /** Rule (A): a newer entry of the same key is already old enough to hide this one from everyone. */
  ghost predicate Hidden(input: seq<Entry>, i: nat, oldest: SequenceNumber)
    requires i < |input|
  {
    exists j :: 0 <= j < i && input[j].key == input[i].key && input[j].sn <= oldest
  }

  /** A deletion that everyone sees and that has nothing left to delete further down. */
  ghost predicate Obsolete(e: Entry, oldest: SequenceNumber, v: Levels, level: nat) {
    e.op.Deletion? && e.sn <= oldest && IsBaseLevel(v, level, e.key)
  }

  ghost function Survivors(input: seq<Entry>, n: nat, oldest: SequenceNumber, v: Levels, level: nat): seq<Entry>
    requires n <= |input|
  {
    if n == 0 then []
    else
      Survivors(input, n - 1, oldest, v, level) +
      if Hidden(input, n - 1, oldest) || Obsolete(input[n - 1], oldest, v, level) then [] else [input[n - 1]]
  }

  function Flatten(ts: seq<seq<Entry>>): seq<Entry> {
    if ts == [] then [] else Flatten(ts[..|ts| - 1]) + ts[|ts| - 1]
  }

  lemma FlattenAppend(ts: seq<seq<Entry>>, t: seq<Entry>)
    ensures Flatten(ts + [t]) == Flatten(ts) + t
  {
    assert (ts + [t])[..|ts|] == ts;
  }

  /** In a sorted input only the entry right before can hide the next one. */
  lemma HiddenByPrevious(input: seq<Entry>, i: nat, oldest: SequenceNumber)
    requires Sorted(input) && i < |input|
    ensures Hidden(input, i, oldest) <==> i > 0 && input[i - 1].key == input[i].key && input[i - 1].sn <= oldest
  {
    if Hidden(input, i, oldest) {
      var j :| 0 <= j < i && input[j].key == input[i].key && input[j].sn <= oldest;
      assert j < i - 1 ==> Before(input[j].IKey(), input[i - 1].IKey());
      assert Before(input[i - 1].IKey(), input[i].IKey());
    }
  }

  /** The running state of the loop decides the two rules for the next entry. */
  method DropNext(c: Compaction, input: seq<Entry>, i: nat, lastSequenceForKey: SequenceNumber, smallestSnapshot: SequenceNumber)
    returns (drop: bool)
    requires i < |input| && Sorted(input) && smallestSnapshot < MAX_SEQUENCE
    requires lastSequenceForKey ==
             if i > 0 && input[i - 1].key == input[i].key then input[i - 1].sn else MAX_SEQUENCE
    requires c.PointersValid() && (c.lastAsked.Some? ==> c.lastAsked.value <= input[i].key)
    modifies c`levelPtrs, c`lastAsked
    ensures c.PointersValid() && (c.lastAsked.Some? ==> c.lastAsked.value <= input[i].key)
    ensures drop <==> Hidden(input, i, smallestSnapshot) || Obsolete(input[i], smallestSnapshot, c.inputVersion, c.level)
  {
    HiddenByPrevious(input, i, smallestSnapshot);
    drop := false;
    if lastSequenceForKey <= smallestSnapshot {
      drop := true;
    } else if input[i].op.Deletion? && input[i].sn <= smallestSnapshot {
      drop := c.IsBaseLevelForKey(input[i].key);
    }
  }

  /* ---- Where tables are cut ---- */

  /** The first `n` grandparents are those that end before the key. */
  ghost predicate Passed(gs: seq<File>, n: nat, key: InternalKey) {
    n <= |gs| && (forall j :: 0 <= j < n ==> Before(Largest(gs[j]), key)) && (n < |gs| ==> !Before(Largest(gs[n]), key))
  }

  /** Between the first and the last key of a table not too many bytes of grandparents end. */
  ghost predicate Spans(gs: seq<File>, max: nat, t: seq<Entry>, a: nat, b: nat) {
    && t != [] && a <= b && Passed(gs, a, t[0].IKey()) && Passed(gs, b, t[|t| - 1].IKey())
    && TotalFileSize(gs[a..b]) <= 10 * max
  }

  /** No table overlaps too much, and none goes on once it is big enough. */
  ghost predicate WellCut(gs: seq<File>, max: nat, full: seq<Entry> -> bool, t: seq<Entry>) {
    (exists a, b :: Spans(gs, max, t, a, b)) && forall n :: 0 < n < |t| ==> !full(t[..n])
  }

  /** Only a table that is big enough, or in the way of too many bytes, is followed by another. */
  ghost predicate HadToEnd(gs: seq<File>, max: nat, full: seq<Entry> -> bool, t: seq<Entry>) {
    full(t) || exists a, b :: 0 <= a <= b <= |gs| && TotalFileSize(gs[a..b]) > 10 * max
  }

  ghost predicate AllCut(gs: seq<File>, max: nat, full: seq<Entry> -> bool, ts: seq<seq<Entry>>, n: nat) {
    n <= |ts| && (forall t :: t in ts ==> WellCut(gs, max, full, t)) && forall i :: 0 <= i < n ==> HadToEnd(gs, max, full, ts[i])
  }

  /** The table under construction, whose first and last keys have `a` and `b` grandparents before them. */
  ghost predicate OpenTable(gs: seq<File>, max: nat, full: seq<Entry> -> bool, t: seq<Entry>, a: nat, b: nat, from: nat, n: nat) {
    t != [] ==> from <= a && b <= n && Spans(gs, max, t, a, b) && forall m :: 0 < m <= |t| ==> !full(t[..m])
  }

  lemma CutOff(gs: seq<File>, max: nat, full: seq<Entry> -> bool, ts: seq<seq<Entry>>, t: seq<Entry>, ended: bool)
    requires AllCut(gs, max, full, ts, |ts|) && WellCut(gs, max, full, t) && (ended ==> HadToEnd(gs, max, full, t))
    ensures AllCut(gs, max, full, ts + [t], if ended then |ts| + 1 else |ts|)
  {
    hide WellCut, HadToEnd;
    assert forall x :: x in ts + [t] <==> x in ts || x == t;
  }

  lemma {:induction false} TotalOfLess(fs: seq<File>, a: nat, b: nat)
    requires a <= b <= |fs|
    ensures TotalFileSize(fs[b..]) <= TotalFileSize(fs[a..])
    decreases b - a
  {
    if a < b {
      TotalOfLess(fs, a + 1, b);
      assert fs[a..][1..] == fs[a + 1..];
    }
  }

  /** The bytes from `a` on are no more than those counted from further back. */
  lemma CountedLess(gs: seq<File>, from: nat, a: nat, n: nat)
    requires from <= a <= n <= |gs|
    ensures TotalFileSize(gs[a..n]) <= TotalFileSize(gs[from..n])
  {
    assert gs[..n][a..] == gs[a..n] && gs[..n][from..] == gs[from..n];
    TotalOfLess(gs[..n], from, a);
  }

  lemma BeforeOnward(a: InternalKey, b: InternalKey, c: InternalKey)
    requires Before(a, b) && Before(b, c)
    ensures Before(a, c)
  {
  }

  /** One more entry, before which the counting did not stop. */
  lemma OneMoreEntry(gs: seq<File>, max: nat, full: seq<Entry> -> bool, t: seq<Entry>, a: nat, b: nat, from: nat, n: nat, e: Entry)
    requires OpenTable(gs, max, full, t, a, b, from, n) && Passed(gs, n, e.IKey())
    requires from <= n && TotalFileSize(gs[from..n]) <= 10 * max
    ensures var a' := if t == [] then n else a;
            from <= a' && Spans(gs, max, t + [e], a', n) && forall m :: 0 < m < |t + [e]| ==> !full((t + [e])[..m])
  {
    hide Passed;
    var u := t + [e];
    assert forall m :: 0 < m <= |t| ==> u[..m] == t[..m];
    PassedWithin(gs, n, e.IKey());
    if t == [] {
      NothingCounted(gs, n);
      assert u[0] == e;
    } else {
      CountedLess(gs, from, a, n);
      assert u[0] == t[0];
    }
  }

  lemma PassedWithin(gs: seq<File>, n: nat, key: InternalKey)
    requires Passed(gs, n, key)
    ensures n <= |gs|
  {
  }

  /**
    The loop of DoCompactionWork over the merged input.  `full` says when the table under construction
    is big enough; the tables together hold exactly the survivors, in order, and none is empty.
   */
  method DoCompactionWork(c: Compaction, input: seq<Entry>, smallestSnapshot: SequenceNumber, full: seq<Entry> -> bool)
    returns (outputs: seq<seq<Entry>>)
    requires c.Valid() && c.lastAsked == None && !c.seenKey && c.grandparentIndex == 0
    requires Sorted(input) && smallestSnapshot < MAX_SEQUENCE
    modifies c
    ensures Flatten(outputs) == Survivors(input, |input|, smallestSnapshot, c.inputVersion, c.level)
    ensures NoneEmpty(outputs)
    ensures AllCut(c.grandparents, c.maxFileSize, full, outputs, if outputs == [] then 0 else |outputs| - 1)
  {
    hide Flatten, Survivors, Hidden, Obsolete, NoneEmpty, KeyState, AllCut, OpenTable, Compaction.Counts, Compaction.Valid, Passed, WellCut,
      Spans, HadToEnd;
    outputs := [];
    BeforeFirst(c, input, smallestSnapshot);
    NoneCut(c.grandparents, c.maxFileSize, full, c.countedFrom, c.grandparentIndex);
    var builder: seq<Entry> := [];  // empty stands for "no table open": a table is opened for its first entry
    var currentUserKey: Option<UserKey> := None;
    var lastSequenceForKey: SequenceNumber := MAX_SEQUENCE;
    ghost var a: nat, b: nat := 0, 0;
    for i := 0 to |input|
      invariant KeyState(c, input, i, currentUserKey, lastSequenceForKey) && NoneEmpty(outputs)
      invariant Flatten(outputs) + builder == Survivors(input, i, smallestSnapshot, c.inputVersion, c.level)
      invariant AllCut(c.grandparents, c.maxFileSize, full, outputs, |outputs|) && (builder != [] ==> c.seenKey)
      invariant OpenTable(c.grandparents, c.maxFileSize, full, builder, a, b, c.countedFrom, c.grandparentIndex)
    {
      var e := input[i];
      var stop, drop;
      ghost var from, seen, n := c.countedFrom, c.seenKey, c.grandparentIndex;
      stop, drop, currentUserKey, lastSequenceForKey := NextEntry(c, input, i, currentUserKey, lastSequenceForKey, smallestSnapshot);
      EntryCounted(c, input, i, currentUserKey, lastSequenceForKey, seen, from, stop);
      if stop && builder != [] {
        StoppedTable(c.grandparents, c.maxFileSize, full, outputs, builder, a, b, from, n, c.grandparentIndex);
      }
      outputs, builder := FinishTable(outputs, builder, stop && builder != []);
      StillOpen(c.grandparents, c.maxFileSize, full, builder, a, b, from, n, c.countedFrom, c.grandparentIndex);
      SurvivorsStep(input, i, smallestSnapshot, c.inputVersion, c.level);
      if !drop {
        OneMoreEntry(c.grandparents, c.maxFileSize, full, builder, a, b, c.countedFrom, c.grandparentIndex, e);
        a, b := if builder == [] then c.grandparentIndex else a, c.grandparentIndex;
        FullTable(c.grandparents, c.maxFileSize, full, outputs, builder + [e], a, b, c.countedFrom);
        outputs, builder := AddToTable(outputs, builder, e, full);
      }
    }
    if builder != [] {
      LastTable(c.grandparents, c.maxFileSize, full, outputs, builder, a, b, c.countedFrom, c.grandparentIndex);
    }
    ghost var builder0 := builder;
    outputs, builder := FinishTable(outputs, builder, builder != []);
    assert Flatten(outputs) + [] == Flatten(outputs);
    if builder0 == [] && outputs != [] {
      ButLast(c.grandparents, c.maxFileSize, full, outputs);
    }
  }

  lemma ButLast(gs: seq<File>, max: nat, full: seq<Entry> -> bool, ts: seq<seq<Entry>>)
    requires AllCut(gs, max, full, ts, |ts|) && ts != []
    ensures AllCut(gs, max, full, ts, |ts| - 1)
  {
    hide WellCut, HadToEnd;
  }

  lemma NoneCut(gs: seq<File>, max: nat, full: seq<Entry> -> bool, from: nat, n: nat)
    ensures AllCut(gs, max, full, [], 0) && OpenTable(gs, max, full, [], 0, 0, from, n)
  {
  }

  /** What the loop keeps about the entry before: its user key, its sequence number, and the grandparents before it. */
  ghost predicate KeyState(c: Compaction, input: seq<Entry>, i: nat, currentUserKey: Option<UserKey>, lastSequenceForKey: SequenceNumber)
    requires i <= |input|
    reads c
  {
    && c.Valid() && (c.seenKey <==> i > 0)
    && (i == 0 ==> currentUserKey == None && c.lastAsked == None && c.grandparentIndex == 0)
    && (i > 0 ==> currentUserKey == Some(input[i - 1].key) && lastSequenceForKey == input[i - 1].sn)
    && (i > 0 ==> Passed(c.grandparents, c.grandparentIndex, input[i - 1].IKey()))
    && (i > 0 && c.lastAsked.Some? ==> c.lastAsked.value <= input[i - 1].key)
  }

  lemma BeforeFirst(c: Compaction, input: seq<Entry>, oldest: SequenceNumber)
    requires c.Valid() && c.lastAsked == None && !c.seenKey && c.grandparentIndex == 0
    ensures KeyState(c, input, 0, None, MAX_SEQUENCE) && NoneEmpty([])
    ensures Flatten([]) + [] == Survivors(input, 0, oldest, c.inputVersion, c.level)
  {
  }

  /** Counting, as it stands behind an entry. */
  lemma EntryCounted(c: Compaction, input: seq<Entry>, i: nat, key: Option<UserKey>, last: SequenceNumber, seen: bool, from: nat, stop: bool)
    requires i < |input| && KeyState(c, input, i + 1, key, last) && c.Counts(seen, from, stop)
    ensures c.seenKey && c.countedFrom <= c.grandparentIndex <= |c.grandparents|
    ensures Passed(c.grandparents, c.grandparentIndex, input[i].IKey())
    ensures TotalFileSize(c.grandparents[c.countedFrom..c.grandparentIndex]) <= 10 * c.maxFileSize
    ensures if stop then c.countedFrom == c.grandparentIndex else seen ==> c.countedFrom == from
    ensures seen ==> from <= c.grandparentIndex
    ensures stop && seen ==> TotalFileSize(c.grandparents[from..c.grandparentIndex]) > 10 * c.maxFileSize
  {
    hide Passed, Compaction.PointersValid;
    NothingCounted(c.grandparents, c.grandparentIndex);
  }

  lemma StoppedTable(gs: seq<File>, max: nat, full: seq<Entry> -> bool, ts: seq<seq<Entry>>, t: seq<Entry>, a: nat, b: nat,
                     from: nat, n: nat, n': nat)
    requires AllCut(gs, max, full, ts, |ts|) && OpenTable(gs, max, full, t, a, b, from, n) && t != []
    requires from <= n' <= |gs| && TotalFileSize(gs[from..n']) > 10 * max
    ensures AllCut(gs, max, full, ts + [t], |ts| + 1)
  {
    hide Passed, AllCut;
    CutOff(gs, max, full, ts, t, true);
  }

  /** An open table stays open as the counting goes on. */
  lemma StillOpen(gs: seq<File>, max: nat, full: seq<Entry> -> bool, t: seq<Entry>, a: nat, b: nat, from: nat, n: nat, from': nat, n': nat)
    requires t != [] ==> OpenTable(gs, max, full, t, a, b, from, n) && from' == from && n <= n'
    ensures OpenTable(gs, max, full, t, a, b, from', n')
  {
    hide Spans;
  }

  lemma FullTable(gs: seq<File>, max: nat, full: seq<Entry> -> bool, ts: seq<seq<Entry>>, t: seq<Entry>, a: nat, b: nat, from: nat)
    requires AllCut(gs, max, full, ts, |ts|) && Spans(gs, max, t, a, b) && from <= a && forall m :: 0 < m < |t| ==> !full(t[..m])
    ensures if full(t) then AllCut(gs, max, full, ts + [t], |ts| + 1) else OpenTable(gs, max, full, t, a, b, from, b)
    ensures OpenTable(gs, max, full, [], a, b, from, b)
  {
    hide Passed, AllCut;
    if full(t) {
      CutOff(gs, max, full, ts, t, true);
    } else {
      assert t[..|t|] == t;
    }
  }

  lemma LastTable(gs: seq<File>, max: nat, full: seq<Entry> -> bool, ts: seq<seq<Entry>>, t: seq<Entry>, a: nat, b: nat, from: nat, n: nat)
    requires AllCut(gs, max, full, ts, |ts|) && OpenTable(gs, max, full, t, a, b, from, n) && t != []
    ensures AllCut(gs, max, full, ts + [t], |ts|)
  {
    hide Passed, AllCut;
    CutOff(gs, max, full, ts, t, false);
  }

  /** Whether the next entry starts a new table, and whether it is dropped. */
  method NextEntry(c: Compaction, input: seq<Entry>, i: nat, currentUserKey0: Option<UserKey>, lastSequence0: SequenceNumber,
                   smallestSnapshot: SequenceNumber)
    returns (stop: bool, drop: bool, currentUserKey: Option<UserKey>, lastSequenceForKey: SequenceNumber)
    requires i < |input| && Sorted(input) && smallestSnapshot < MAX_SEQUENCE
    requires KeyState(c, input, i, currentUserKey0, lastSequence0)
    modifies c
    ensures KeyState(c, input, i + 1, currentUserKey, lastSequenceForKey)
    ensures drop <==> Hidden(input, i, smallestSnapshot) || Obsolete(input[i], smallestSnapshot, c.inputVersion, c.level)
    ensures old(c.grandparentIndex) <= c.grandparentIndex && c.Counts(old(c.seenKey), old(c.countedFrom), stop)
  {
    hide Hidden, Obsolete, Sorted, Compaction.PointersValid, Compaction.Counts;
    var e := input[i];
    if i > 0 {
      KeysAscend(input, i);
    }
    currentUserKey, lastSequenceForKey := currentUserKey0, lastSequence0;
    ghost var n := c.grandparentIndex;
    stop := c.ShouldStopBefore(e.IKey());
    PassedOnward(c.grandparents, input, i, n, c.grandparentIndex);
    if currentUserKey != Some(e.key) {
      currentUserKey := Some(e.key);
      lastSequenceForKey := MAX_SEQUENCE;
    }
    drop := DropNext(c, input, i, lastSequenceForKey, smallestSnapshot);
    lastSequenceForKey := e.sn;
  }

  /** What ended before the entry before ends before this one. */
  lemma PassedOnward(gs: seq<File>, input: seq<Entry>, i: nat, n: nat, n': nat)
    requires i < |input| && Sorted(input) && n <= n' <= |gs| && (i == 0 ==> n == 0) && (i > 0 ==> Passed(gs, n, input[i - 1].IKey()))
    requires forall j :: n <= j < n' ==> Before(Largest(gs[j]), input[i].IKey())
    requires n' < |gs| ==> !Before(Largest(gs[n']), input[i].IKey())
    ensures Passed(gs, n', input[i].IKey())
  {
    if i > 0 {
      forall j | 0 <= j < n ensures Before(Largest(gs[j]), input[i].IKey()) {
        BeforeOnward(Largest(gs[j]), input[i - 1].IKey(), input[i].IKey());
      }
    }
  }

  predicate NoneEmpty(ts: seq<seq<Entry>>) {
    forall t :: t in ts ==> t != []
  }

  /** An entry goes into the open table, which is finished once it is big enough. */
  method AddToTable(outputs0: seq<seq<Entry>>, builder0: seq<Entry>, e: Entry, full: seq<Entry> -> bool)
    returns (outputs: seq<seq<Entry>>, builder: seq<Entry>)
    requires NoneEmpty(outputs0)
    ensures Flatten(outputs) + builder == Flatten(outputs0) + builder0 + [e] && NoneEmpty(outputs)
    ensures if full(builder0 + [e]) then outputs == outputs0 + [builder0 + [e]] && builder == []
            else outputs == outputs0 && builder == builder0 + [e]
  {
    hide Flatten;
    assert Flatten(outputs0) + builder0 + [e] == Flatten(outputs0) + (builder0 + [e]);
    builder := builder0 + [e];
    outputs, builder := FinishTable(outputs0, builder, full(builder));
  }

  lemma KeysAscend(input: seq<Entry>, i: nat)
    requires Sorted(input) && 0 < i < |input|
    ensures input[i - 1].key <= input[i].key
  {
    assert Before(input[i - 1].IKey(), input[i].IKey());
  }

  lemma SurvivorsStep(input: seq<Entry>, n: nat, oldest: SequenceNumber, v: Levels, level: nat)
    requires n < |input|
    ensures Survivors(input, n + 1, oldest, v, level) == Survivors(input, n, oldest, v, level) +
            if Hidden(input, n, oldest) || Obsolete(input[n], oldest, v, level) then [] else [input[n]]
  {
  }

  /** FinishCompactionOutputFile, when it is time to. */
  method FinishTable(outputs0: seq<seq<Entry>>, builder0: seq<Entry>, finish: bool)
    returns (outputs: seq<seq<Entry>>, builder: seq<Entry>)
    requires (finish ==> builder0 != []) && NoneEmpty(outputs0)
    ensures Flatten(outputs) + builder == Flatten(outputs0) + builder0 && NoneEmpty(outputs)
    ensures if finish then outputs == outputs0 + [builder0] && builder == [] else outputs == outputs0 && builder == builder0
  {
    outputs, builder := outputs0, builder0;
    if finish {
      FlattenAppend(outputs, builder);
      outputs, builder := outputs + [builder], [];
      assert Flatten(outputs) + [] == Flatten(outputs);
    }
  }

  /* ---- Survivors as a set ---- */

  /** The declarative form of the two drop rules, over the set of input entries. */
  ghost predicate Kept(I: set<Entry>, e: Entry, oldest: SequenceNumber, v: Levels, level: nat) {
    && e in I && !Obsolete(e, oldest, v, level)
    && forall x :: x in I && x.key == e.key && x.sn > e.sn ==> x.sn > oldest
  }

  lemma SurvivorsAreKept(input: seq<Entry>, oldest: SequenceNumber, v: Levels, level: nat)
    requires Sorted(input) && Unique(Elems(input))
    ensures forall e :: e in Survivors(input, |input|, oldest, v, level) <==> Kept(Elems(input), e, oldest, v, level)
  {
    SurvivorsUpTo(input, |input|, oldest, v, level);
    var r := Survivors(input, |input|, oldest, v, level);
    forall e ensures e in r <==> Kept(Elems(input), e, oldest, v, level) {
      if e in input {
        var i :| 0 <= i < |input| && input[i] == e;
        OncePerInput(input, i);
        HiddenInSet(input, i, oldest);
      }
    }
  }

  lemma OncePerInput(input: seq<Entry>, i: nat)
    requires Sorted(input) && i < |input|
    ensures forall m :: 0 <= m < |input| && m != i ==> input[m] != input[i]
  {
    forall m | 0 <= m < |input| && m != i ensures input[m] != input[i] {
      if m < i {
        assert Before(input[m].IKey(), input[i].IKey());
      } else {
        assert Before(input[i].IKey(), input[m].IKey());
      }
    }
  }

  lemma HiddenInSet(input: seq<Entry>, i: nat, oldest: SequenceNumber)
    requires Sorted(input) && Unique(Elems(input)) && i < |input|
    ensures Hidden(input, i, oldest) <==>
            exists x :: x in Elems(input) && x.key == input[i].key && x.sn > input[i].sn && x.sn <= oldest
  {
    if Hidden(input, i, oldest) {
      var j :| 0 <= j < i && input[j].key == input[i].key && input[j].sn <= oldest;
      assert Before(input[j].IKey(), input[i].IKey());
      assert input[j] in Elems(input) && input[i] in Elems(input);
    }
    if x :| x in Elems(input) && x.key == input[i].key && x.sn > input[i].sn && x.sn <= oldest {
      var j :| 0 <= j < |input| && input[j] == x;
      assert i < j ==> Before(input[i].IKey(), input[j].IKey());
    }
  }

  lemma {:induction false} SurvivorsUpTo(input: seq<Entry>, n: nat, oldest: SequenceNumber, v: Levels, level: nat)
    requires n <= |input|
    ensures forall e :: e in Survivors(input, n, oldest, v, level) <==>
              exists i :: 0 <= i < n && input[i] == e && !Hidden(input, i, oldest) && !Obsolete(e, oldest, v, level)
  {
    if n > 0 {
      SurvivorsUpTo(input, n - 1, oldest, v, level);
    }
  }

  lemma {:induction false} SurvivorsSorted(input: seq<Entry>, n: nat, oldest: SequenceNumber, v: Levels, level: nat)
    requires n <= |input| && Sorted(input)
    ensures Sorted(Survivors(input, n, oldest, v, level))
  {
    if n > 0 {
      SurvivorsSorted(input, n - 1, oldest, v, level);
      SurvivorsUpTo(input, n - 1, oldest, v, level);
      var r := Survivors(input, n - 1, oldest, v, level);
      forall i | 0 <= i < |r| ensures Before(r[i].IKey(), input[n - 1].IKey()) {
        assert r[i] in r;
      }
    }
  }
}
