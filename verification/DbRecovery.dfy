/**
  Opening a store after a crash: the live logs are replayed, in number order, into level-0 tables.
 */
module DbRecovery {
  import opened Wrappers
  import opened DbFormat
  import opened Versions
  import opened CompactionWork
  import opened VersionBuilder
  import opened Engine
  import opened EngineWrites
  import opened EngineRecovery
  import opened EngineRuns

  /** The numbers in ascending order. */
  method SortNumbers(s: set<nat>) returns (r: seq<nat>)
    ensures (forall n :: n in r <==> n in s) && Ascending(r)
  {
    var rest := s;
    r := [];
    while rest != {}
      invariant forall n :: n in s <==> n in r || n in rest
      invariant forall i, j :: 0 <= i < j < |r| ==> r[i] < r[j]
      invariant forall i, n :: 0 <= i < |r| && n in rest ==> r[i] < n
      decreases rest
    {
      var m := Least(rest);
      r, rest := r + [m], rest - {m};
    }
  }

  method Least(s: set<nat>) returns (m: nat)
    requires s != {}
    ensures m in s && forall n :: n in s ==> m <= n
  {
    m :| m in s;
    var rest := s - {m};
    while rest != {}
      invariant m in s && rest <= s
      invariant forall n :: n in s ==> n in rest || m <= n
      decreases rest
    {
      var n :| n in rest;
      if n < m {
        m := n;
      }
      rest := rest - {n};
    }
  }

  /** Tables holding the chunks of a replayed log, numbered from `first`. */
  ghost predicate Replayed(tables: seq<File>, chunks: seq<seq<Entry>>, first: nat) {
    && |tables| == |chunks| && (forall c :: c in chunks ==> c != [] && Chronological(c))
    && forall i :: 0 <= i < |tables| ==> tables[i] == FileData(first + i, 0, InsertAll([], chunks[i]))
  }

  /** Write the memtable, which holds `chunk`, as the next table. */
  method CloseTable(before: seq<File>, mem: seq<Entry>, first: nat, ghost chunks: seq<seq<Entry>>, ghost chunk: seq<Entry>)
    returns (tables: seq<File>)
    requires Replayed(before, chunks, first) && chunk != [] && Chronological(chunk) && mem == InsertAll([], chunk)
    ensures Replayed(tables, chunks + [chunk], first) && Flatten(chunks + [chunk]) == Flatten(chunks) + chunk
  {
    FlattenAppend(chunks, chunk);
    InsertAllSorted(chunk);
    assert chunk[0] in mem;
    tables := before + [FileData(first + |before|, 0, mem)];
  }

  lemma NextEntry(log: seq<Entry>, before: seq<Entry>, chunks: seq<seq<Entry>>, chunk: seq<Entry>, i: nat, floor: SequenceNumber)
    requires Chronological(log) && i < |log| && Flatten(chunks) + chunk == log[..i]
    ensures Chronological(chunk + [log[i]]) && Flatten(chunks) + (chunk + [log[i]]) == log[..i + 1]
    ensures InsertAll([], chunk + [log[i]]) == Insert(InsertAll([], chunk), log[i])
    ensures var m := MaxSequence(before + log[..i], floor);
            MaxSequence(before + log[..i + 1], floor) == if log[i].sn > m then log[i].sn else m
  {
    SliceChronological(log, chunks, chunk, i);
    assert (before + log[..i + 1])[..|before| + i] == before + log[..i];
    assert (chunk + [log[i]])[..|chunk|] == chunk;
  }

  /** Replay one log: a table whenever the memtable is full, and one for what is left at the end. */
  method RecoverLogFile(log: seq<Entry>, full: seq<Entry> -> bool, first: nat, maxSequence: SequenceNumber,
                        ghost before: seq<Entry>, ghost floor: SequenceNumber)
    returns (tables: seq<File>, ghost chunks: seq<seq<Entry>>, max: SequenceNumber)
    requires Chronological(log) && maxSequence == MaxSequence(before, floor)
    ensures Replayed(tables, chunks, first) && Flatten(chunks) == log
    ensures max == MaxSequence(before + log, floor)
  {
    hide Replayed, MaxSequence, Insert, InsertAll, Flatten, Chronological;
    tables, chunks, max := [], [], maxSequence;
    NothingReplayed(first);
    var mem: seq<Entry> := [];
    ghost var chunk: seq<Entry> := [];
    assert before + log[..0] == before;
    for i := 0 to |log|
      invariant Replayed(tables, chunks, first) && Flatten(chunks) + chunk == log[..i]
      invariant mem == InsertAll([], chunk) && Chronological(chunk)
      invariant max == MaxSequence(before + log[..i], floor)
    {
      NextEntry(log, before, chunks, chunk, i, floor);
      mem, chunk := Insert(mem, log[i]), chunk + [log[i]];
      if log[i].sn > max {
        max := log[i].sn;
      }
      if full(mem) {
        tables := CloseTable(tables, mem, first, chunks, chunk);
        chunks := chunks + [chunk];
        mem, chunk := [], [];
      }
    }
    assert log[..|log|] == log;
    if mem != [] {
      tables := CloseTable(tables, mem, first, chunks, chunk);
      chunks := chunks + [chunk];
    } else {
      NothingLeft(chunk);
    }
  }

  lemma NothingLeft(chunk: seq<Entry>)
    ensures InsertAll([], chunk) == [] ==> chunk == []
  {
    assert chunk != [] ==> chunk[0] in InsertAll([], chunk);
  }

  lemma NothingReplayed(first: nat)
    ensures Replayed([], [], first) && Flatten([]) == [] && InsertAll([], []) == [] && Chronological([])
  {
  }

  lemma SliceChronological(log: seq<Entry>, chunks: seq<seq<Entry>>, chunk: seq<Entry>, i: nat)
    requires Chronological(log) && i < |log| && Flatten(chunks) + chunk == log[..i]
    ensures Chronological(chunk + [log[i]])
    ensures Flatten(chunks) + (chunk + [log[i]]) == log[..i + 1]
  {
    var n := |Flatten(chunks)|;
    assert log[..i + 1] == log[..i] + [log[i]];
    assert forall j :: 0 <= j < |chunk| ==> chunk[j] == log[n + j];
  }

  /* ---- All live logs ---- */

  function ConcatLogs(logs: map<nat, seq<Entry>>, numbers: seq<nat>): seq<Entry>
    requires forall n :: n in numbers ==> n in logs
  {
    if numbers == [] then [] else ConcatLogs(logs, numbers[..|numbers| - 1]) + logs[numbers[|numbers| - 1]]
  }

  /** Tables for the chunks, under ascending numbers of [lo, hi). */
  ghost predicate ReplayedWithin(tables: seq<File>, chunks: seq<seq<Entry>>, lo: nat, hi: nat) {
    && |tables| == |chunks| && (forall c :: c in chunks ==> c != [] && Chronological(c))
    && (forall i :: 0 <= i < |tables| ==> tables[i] == FileData(tables[i].number, 0, InsertAll([], chunks[i])))
    && (forall i :: 0 <= i < |tables| ==> lo <= tables[i].number < hi)
    && (forall i, j :: 0 <= i < j < |tables| ==> tables[i].number < tables[j].number)
  }

  lemma ReplayedMore(a: seq<File>, ca: seq<seq<Entry>>, b: seq<File>, cb: seq<seq<Entry>>, lo: nat, first: nat, hi: nat)
    requires ReplayedWithin(a, ca, lo, first) && Replayed(b, cb, first) && lo <= first && first + |b| <= hi
    ensures ReplayedWithin(a + b, ca + cb, lo, hi) && Flatten(ca + cb) == Flatten(ca) + Flatten(cb)
  {
    hide Flatten, InsertAll, Chronological;
    FlattenConcat(ca, cb);
  }

  lemma {:induction false} FlattenConcat(a: seq<seq<Entry>>, b: seq<seq<Entry>>)
    ensures Flatten(a + b) == Flatten(a) + Flatten(b)
  {
    if b == [] {
      assert a + b == a;
    } else {
      FlattenConcat(a, b[..|b| - 1]);
      assert (a + b)[..|a + b| - 1] == a + b[..|b| - 1];
    }
  }

  lemma {:induction false} PrefixChronological(a: seq<Entry>, b: seq<Entry>)
    requires Chronological(a + b)
    ensures Chronological(a) && Chronological(b)
  {
    assert forall i :: 0 <= i < |a| ==> a[i] == (a + b)[i];
    assert forall i :: 0 <= i < |b| ==> b[i] == (a + b)[|a| + i];
  }

  lemma {:induction false} ConcatChronological(logs: map<nat, seq<Entry>>, numbers: seq<nat>, i: nat)
    requires (forall n :: n in numbers ==> n in logs) && i < |numbers| && Chronological(ConcatLogs(logs, numbers))
    ensures Chronological(logs[numbers[i]])
    ensures ConcatLogs(logs, numbers[..i + 1]) == ConcatLogs(logs, numbers[..i]) + logs[numbers[i]]
    decreases |numbers|
  {
    var n := |numbers| - 1;
    PrefixChronological(ConcatLogs(logs, numbers[..n]), logs[numbers[n]]);
    assert numbers[..i + 1][..i] == numbers[..i];
    if i < n {
      ConcatChronological(logs, numbers[..n], i);
    }
  }

  /** Replay the logs one after the other; file numbers stay ahead of the log numbers passed. */
  method RecoverLogs(logs: map<nat, seq<Entry>>, numbers: seq<nat>, full: seq<Entry> -> bool, first: nat, floor: SequenceNumber)
    returns (tables: seq<File>, ghost chunks: seq<seq<Entry>>, last: SequenceNumber, next: nat)
    requires (forall n :: n in numbers ==> n in logs) && Chronological(ConcatLogs(logs, numbers))
    ensures ReplayedWithin(tables, chunks, first, next) && Flatten(chunks) == ConcatLogs(logs, numbers)
    ensures last == MaxSequence(ConcatLogs(logs, numbers), floor)
    ensures first <= next && forall n :: n in numbers ==> n < next
  {
    hide Flatten, Chronological, MaxSequence, Replayed, ReplayedWithin;
    tables, chunks, last, next := [], [], floor, first;
    NothingReplayedWithin(first, floor);
    for i := 0 to |numbers|
      invariant ReplayedWithin(tables, chunks, first, next) && Flatten(chunks) == ConcatLogs(logs, numbers[..i])
      invariant last == MaxSequence(ConcatLogs(logs, numbers[..i]), floor)
      invariant first <= next && forall j :: 0 <= j < i ==> numbers[j] < next
    {
      ConcatChronological(logs, numbers, i);
      var more: seq<File>;
      ghost var cs: seq<seq<Entry>>;
      more, cs, last := RecoverLogFile(logs[numbers[i]], full, next, last, ConcatLogs(logs, numbers[..i]), floor);
      var after := next + |more|;
      if after <= numbers[i] {
        after := numbers[i] + 1;
      }
      ReplayedMore(tables, chunks, more, cs, first, next, after);
      tables, chunks, next := tables + more, chunks + cs, after;
    }
    assert numbers[..|numbers|] == numbers;
  }

  lemma NothingReplayedWithin(first: nat, floor: SequenceNumber)
    ensures ReplayedWithin([], [], first, first) && Flatten([]) == [] && MaxSequence([], floor) == floor
  {
  }

  /** After a crash, the logs the manifest has not retired are those of the memtables. */
  lemma LiveNumbers(st: Db, numbers: seq<nat>)
    requires Logged(st) && Ascending(numbers)
    requires forall n :: n in numbers <==> n in st.logs && n >= st.manifest.logNumber
    ensures (forall n :: n in numbers ==> n in st.logs) && ConcatLogs(st.logs, numbers) == LiveLog(st)
  {
    var mem, imm := st.memLog, st.immLog;
    assert mem in numbers;
    if st.imm.Some? {
      assert imm in numbers;
      AscendingUnique(numbers, [imm, mem]);
      assert numbers[..1] == [imm] && [imm][..0] == [];
      assert ConcatLogs(st.logs, [imm]) == st.logs[imm];
    } else {
      AscendingUnique(numbers, [mem]);
      assert numbers[..0] == [];
    }
  }

  ghost predicate Ascending(r: seq<nat>) {
    forall i, j :: 0 <= i < j < |r| ==> r[i] < r[j]
  }

  lemma {:induction false} AscendingUnique(r: seq<nat>, s: seq<nat>)
    requires Ascending(r) && Ascending(s) && forall n :: n in r <==> n in s
    ensures r == s
  {
    if r == [] {
      HeadIn(s);
    } else {
      HeadIn(r);
      HeadIn(s);
      var i :| 0 <= i < |s| && s[i] == r[0];
      var j :| 0 <= j < |r| && r[j] == s[0];
      assert r[0] == s[0];
      assert forall n :: n in r[1..] <==> n in r && n != r[0];
      assert forall n :: n in s[1..] <==> n in s && n != s[0];
      AscendingUnique(r[1..], s[1..]);
    }
  }

  /** The numbers the tables were written under, and that they are what the state machine expects. */
  lemma TablesAreRecovered(tables: seq<File>, chunks: seq<seq<Entry>>, lo: nat, hi: nat) returns (numbers: seq<nat>)
    requires ReplayedWithin(tables, chunks, lo, hi)
    ensures |numbers| == |chunks| && tables == RecoveredTables(chunks, numbers)
    ensures forall i :: 0 <= i < |numbers| ==> lo <= numbers[i] < hi
    ensures forall i, j :: 0 <= i < j < |numbers| ==> numbers[i] < numbers[j]
  {
    numbers := seq(|tables|, i requires 0 <= i < |tables| => tables[i].number);
    assert forall c :: c in chunks ==> c != [] && Chronological(c);
  }
}
