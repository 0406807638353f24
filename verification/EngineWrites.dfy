/**
  The steps of writers and of snapshot holders keep the engine invariant.
 */
module EngineWrites {
  import opened Wrappers
  import opened DbFormat
  import opened Versions
  import opened CompactionPick
  import opened CompactionInputs
  import opened CompactionWork
  import opened VersionBuilder
  import opened Engine

  lemma InitialInv()
    ensures Inv(Initial())
  {
    var st := Initial();
    EmptyVersion(st.levels);
    assert Held(st) == {};
    assert LiveLog(st) == [];
    assert Layers(st.mem, st.imm, st.levels);
  }

  lemma EmptyVersion(v: Levels)
    requires forall i :: 0 <= i < NUM_LEVELS ==> v[i] == []
    ensures LevelsSet(v) == {} && VersionOk(v) && Tables(v, 4)
  {
    forall i | 0 <= i < NUM_LEVELS ensures FileSet(v[i]) == {} {
    }
  }

  ghost predicate AllOlder(E: set<Entry>, es: seq<Entry>) {
    forall x, e :: x in E && e in es ==> x.sn < e.sn
  }

  lemma {:induction false} UniqueAppend(E: set<Entry>, es: seq<Entry>)
    requires Unique(E) && Chronological(es) && AllOlder(E, es)
    ensures Unique(E + Elems(es))
  {
  }

  lemma LastIsNewest(E: set<Entry>, es: seq<Entry>)
    requires Unique(E) && Chronological(es) && AllOlder(E, es) && es != []
    ensures var n := |es| - 1; Unique(E + Elems(es[..n])) && Newer({es[n]}, E + Elems(es[..n]))
    ensures var n := |es| - 1; E + Elems(es) == E + Elems(es[..n]) + {es[n]}
  {
    var n := |es| - 1;
    assert es == es[..n] + [es[n]];
    UniqueAppend(E, es[..n]);
    assert forall i :: 0 <= i < n ==> es[i].sn < es[n].sn;
  }

  /** Newer entries join the held ones and the history alike. */
  lemma {:induction false} ReadAppend(E: set<Entry>, h: seq<Entry>, es: seq<Entry>, k: UserKey, s: SequenceNumber)
    requires Unique(E) && Chronological(es) && AllOlder(E, es)
    requires ReadSet(E, k, s) == View(h, k, s)
    ensures ReadSet(E + Elems(es), k, s) == View(h + es, k, s)
  {
    if es == [] {
      assert E + Elems(es) == E && h + es == h;
    } else {
      var n := |es| - 1;
      ReadAppend(E, h, es[..n], k, s);
      LastIsNewest(E, es);
      ReadSetAdd(E + Elems(es[..n]), es[n], k, s);
      ViewAppend(h, es, k, s);
    }
  }

  lemma ViewAppend(h: seq<Entry>, es: seq<Entry>, k: UserKey, s: SequenceNumber)
    requires es != []
    ensures var n := |es| - 1;
            View(h + es, k, s) == if Visible(es[n], k, s) then Outcome(es[n].op) else View(h + es[..n], k, s)
  {
    assert (h + es)[..|h + es| - 1] == h + es[..|es| - 1];
  }

  lemma FaithfulAppend(held: set<Entry>, h: seq<Entry>, es: seq<Entry>, last: SequenceNumber, target: SequenceNumber,
                       oldest: SequenceNumber, uncovered: set<UserKey>)
    requires Faithful(held, h, last, oldest, uncovered) && Unique(held) && Chronological(es)
    requires forall e :: e in es ==> last < e.sn <= target
    requires last <= target
    ensures Faithful(held + Elems(es), h + es, target, oldest, uncovered)
  {
    assert AllOlder(held, es);
    forall k: UserKey, s: SequenceNumber | s >= oldest && k !in uncovered
      ensures ReadSet(held + Elems(es), k, s) == View(h + es, k, s)
    {
      ReadAppend(held, h, es, k, s);
    }
    var all := h + es;
    forall i, j | 0 <= i < j < |all| ensures all[i].sn < all[j].sn {
      assert i < |h| ==> all[i] in h;
      assert j >= |h| ==> all[j] in es;
    }
  }

  lemma LiveLogIs(st: Db)
    requires Logged(st)
    ensures Elems(LiveLog(st)) == ImmSet(st.imm) + Elems(st.mem) + Elems(st.pending)
  {
    var a := if st.imm.Some? then st.logs[st.immLog] else [];
    assert LiveLog(st) == a + st.logs[st.memLog];
    assert Elems(LiveLog(st)) == Elems(a) + Elems(st.logs[st.memLog]);
  }

  lemma HeadIn<T>(s: seq<T>)
    ensures s != [] ==> s[0] in s
  {
  }

  lemma NothingPending(mem: seq<Entry>, pending: seq<Entry>, last: SequenceNumber)
    requires PendingOk(mem, pending, last, last)
    ensures pending == []
  {
    HeadIn(pending);
  }

  lemma LiveLogPublished(st: Db)
    requires Logged(st) && PublishedOk(st.imm, st.levels, st.lastSequence, st.manifest.lastSequence)
    requires PendingOk(st.mem, st.pending, st.lastSequence, st.lastSequence)
    ensures forall e :: e in LiveLog(st) ==> e.sn <= st.lastSequence
  {
    LiveLogIs(st);
    NothingPending(st.mem, st.pending, st.lastSequence);
    assert forall e :: e in LiveLog(st) ==> e in Elems(LiveLog(st));
  }

  lemma ReplayableAppend(live: seq<Entry>, h: seq<Entry>, recorded: SequenceNumber, es: seq<Entry>, last: SequenceNumber)
    requires Replayable(live, h, recorded) && Chronological(es)
    requires (forall e :: e in live ==> e.sn <= last) && (forall e :: e in es ==> last < e.sn)
    ensures Replayable(live + es, h + es, recorded)
  {
    var all := live + es;
    forall i, j | 0 <= i < j < |all| ensures all[i].sn < all[j].sn {
      assert i < |live| ==> all[i] in live;
      assert j >= |live| ==> all[j] in es;
    }
  }

  lemma NumberedFollow(batch: seq<Write>, mem: seq<Entry>, pending: seq<Entry>, last: SequenceNumber)
    requires PendingOk(mem, pending, last, last) && last + |batch| < MAX_SEQUENCE
    ensures var es := Numbered(batch, last + 1);
            && PendingOk(mem, es, last, last + |batch|)
            && (forall e :: e in es ==> last < e.sn <= last + |batch|) && Chronological(es)
  {
  }

  lemma LogBatchKeepsInv(st: Db, batch: seq<Write>)
    requires Inv(st) && Enabled(st, LogBatch(batch))
    ensures Inv(Apply(st, LogBatch(batch)))
  {
    hide Inv, Numbered;
    var es := Numbered(batch, st.lastSequence + 1);
    LogExists(st);
    BatchKeepsInv(st, batch, es, st.(pending := es, target := st.lastSequence + |batch|,
          logs := st.logs[st.memLog := st.logs[st.memLog] + es], history := st.history + es));
  }

  lemma LogExists(st: Db)
    requires Inv(st)
    ensures st.memLog in st.logs
  {
  }

  lemma BatchKeepsInv(st: Db, batch: seq<Write>, es: seq<Entry>, t: Db)
    requires Inv(st) && st.target == st.lastSequence && st.lastSequence + |batch| < MAX_SEQUENCE && st.memLog in st.logs
    requires es == Numbered(batch, st.lastSequence + 1)
    requires t == st.(pending := es, target := st.lastSequence + |batch|,
                      logs := st.logs[st.memLog := st.logs[st.memLog] + es], history := st.history + es)
    ensures Inv(t)
  {
    hide Layers, Tables, PendingOk, PublishedOk, Faithful, Logged, Replayable, CompactionOk, LiveLog, Held, SnapshotsOk,
      Chronological, Numbered;
    NothingPending(st.mem, st.pending, st.lastSequence);
    NumberedFollow(batch, st.mem, st.pending, st.lastSequence);
    BatchHeld(st, t, es);
    BatchLogged(st, t, es);
  }

  lemma BatchHeld(st: Db, t: Db, es: seq<Entry>)
    requires Layers(st.mem, st.imm, st.levels) && PendingOk(st.mem, st.pending, st.lastSequence, st.lastSequence)
    requires PublishedOk(st.imm, st.levels, st.lastSequence, st.manifest.lastSequence)
    requires Faithful(Held(st), st.history, st.target, Oldest(st), st.uncovered) && st.target == st.lastSequence
    requires Chronological(es) && st.lastSequence <= t.target && forall e :: e in es ==> st.lastSequence < e.sn <= t.target
    requires t == st.(pending := es, target := t.target, history := st.history + es, logs := t.logs)
    ensures Faithful(Held(t), t.history, t.target, Oldest(t), t.uncovered)
  {
    HeldUnique(st);
    NothingPending(st.mem, st.pending, st.lastSequence);
    FaithfulAppend(Held(st), st.history, es, st.lastSequence, t.target, Oldest(st), st.uncovered);
    assert Held(t) == Held(st) + Elems(es);
  }

  lemma BatchLogged(st: Db, t: Db, es: seq<Entry>)
    requires Logged(st) && PendingOk(st.mem, st.pending, st.lastSequence, st.lastSequence)
    requires PublishedOk(st.imm, st.levels, st.lastSequence, st.manifest.lastSequence)
    requires Replayable(LiveLog(st), st.history, st.manifest.lastSequence)
    requires Chronological(es) && forall e :: e in es ==> st.lastSequence < e.sn
    requires t == st.(pending := es, target := t.target, history := st.history + es,
                      logs := st.logs[st.memLog := st.logs[st.memLog] + es])
    ensures Logged(t) && Replayable(LiveLog(t), t.history, t.manifest.lastSequence)
  {
    NothingPending(st.mem, st.pending, st.lastSequence);
    LiveLogPublished(st);
    ReplayableAppend(LiveLog(st), st.history, st.manifest.lastSequence, es, st.lastSequence);
    LoggedAppend(st, t, es);
  }

  lemma HeldUnique(st: Db)
    requires Layers(st.mem, st.imm, st.levels) && PendingOk(st.mem, st.pending, st.lastSequence, st.target)
    requires PublishedOk(st.imm, st.levels, st.lastSequence, st.manifest.lastSequence)
    ensures Unique(Held(st))
  {
    UniqueAppend(Stored(st.mem, st.imm, st.levels), st.pending);
  }

  lemma LoggedAppend(st: Db, t: Db, es: seq<Entry>)
    requires Logged(st) && st.pending == [] && st.memLog in st.logs
    requires t == st.(pending := es, target := t.target, history := t.history,
                      logs := st.logs[st.memLog := st.logs[st.memLog] + es])
    ensures Logged(t) && LiveLog(t) == LiveLog(st) + es
  {
    assert Elems(t.logs[t.memLog]) == Elems(st.logs[st.memLog]) + Elems(es);
  }

  lemma InsertNextKeepsInv(st: Db)
    requires Inv(st) && Enabled(st, InsertNext)
    ensures Inv(Apply(st, InsertNext))
  {
    var t := Apply(st, InsertNext);
    var e := st.pending[0];
    assert e in st.pending;
    PendingNext(st.mem, st.pending, st.lastSequence, st.target);
    assert Held(t) == Held(st);
    assert LiveLog(t) == LiveLog(st);
    LayersInsert(st.mem, st.imm, st.levels, e, st.lastSequence, st.manifest.lastSequence);
  }

  lemma PendingNext(mem: seq<Entry>, pending: seq<Entry>, last: SequenceNumber, target: SequenceNumber)
    requires PendingOk(mem, pending, last, target) && pending != []
    ensures PendingOk(Insert(mem, pending[0]), pending[1..], last, target)
    ensures Elems(Insert(mem, pending[0])) + Elems(pending[1..]) == Elems(mem) + Elems(pending)
    ensures last < pending[0].sn && forall x :: x in mem ==> x.sn < pending[0].sn
  {
    var e, rest := pending[0], pending[1..];
    assert pending == [e] + rest;
    assert forall p :: p in rest ==> p in pending && e.sn < p.sn by {
      assert forall i :: 0 <= i < |rest| ==> rest[i] == pending[i + 1];
    }
  }

  lemma LayersInsert(mem: seq<Entry>, imm: Option<seq<Entry>>, v: Levels, e: Entry, last: SequenceNumber, recorded: SequenceNumber)
    requires Layers(mem, imm, v) && PublishedOk(imm, v, last, recorded)
    requires last < e.sn && forall x :: x in mem ==> x.sn < e.sn
    ensures Layers(Insert(mem, e), imm, v)
  {
    InsertSorted(mem, e);
    assert Elems(Insert(mem, e)) == Elems(mem) + {e};
    assert forall x :: x in Stored(mem, imm, v) ==> x.sn < e.sn;
    assert Stored(Insert(mem, e), imm, v) == Stored(mem, imm, v) + {e};
  }

  lemma PublishKeepsInv(st: Db)
    requires Inv(st) && Enabled(st, Publish)
    ensures Inv(Apply(st, Publish))
  {
    var t := Apply(st, Publish);
    assert Held(t) == Held(st);
    assert LiveLog(t) == LiveLog(st);
    assert Oldest(t) >= Oldest(st);
  }

  lemma SwitchKeepsInv(st: Db)
    requires Inv(st) && Enabled(st, SwitchMemtable)
    ensures Inv(Apply(st, SwitchMemtable))
  {
    assert st.imm == None && st.target == st.lastSequence;
    hide Layers, Tables, PendingOk, PublishedOk, Faithful, Logged, Replayable, CompactionOk, LiveLog, Stored, SnapshotsOk;
    var t := Apply(st, SwitchMemtable);
    NothingPending(st.mem, st.pending, st.lastSequence);
    LayersSwitch(st.mem, st.levels);
    SwitchPublished(st.mem, st.pending, st.levels, st.lastSequence, st.manifest.lastSequence);
    SwitchLogged(st, t);
    assert Held(t) == Held(st);
  }

  lemma SwitchPublished(mem: seq<Entry>, pending: seq<Entry>, v: Levels, last: SequenceNumber, recorded: SequenceNumber)
    requires PendingOk(mem, pending, last, last) && PublishedOk(None, v, last, recorded)
    ensures PublishedOk(Some(mem), v, last, recorded) && PendingOk([], pending, last, last)
  {
  }

  lemma SwitchLogged(st: Db, t: Db)
    requires Logged(st) && st.imm.None? && st.pending == []
    requires t == st.(imm := Some(st.mem), mem := [], immLog := st.memLog, memLog := st.nextFile,
                      nextFile := st.nextFile + 1, logs := st.logs[st.nextFile := []])
    ensures Logged(t) && LiveLog(t) == LiveLog(st)
  {
    assert Elems(t.mem) == {};
    assert LiveLog(t) == st.logs[st.memLog] + [];
  }

  lemma LayersSwitch(mem: seq<Entry>, v: Levels)
    requires Layers(mem, None, v)
    ensures Layers([], Some(mem), v)
    ensures Stored([], Some(mem), v) == Stored(mem, None, v)
  {
    assert ImmSet(Some(mem)) == Elems(mem) && Elems([]) == {} && ImmSet(None) == {};
    assert Stored([], Some(mem), v) == Stored(mem, None, v);
  }

  lemma SnapshotKeepsInv(st: Db)
    requires Inv(st)
    ensures Inv(Apply(st, TakeSnapshot))
  {
    var t := Apply(st, TakeSnapshot);
    assert Held(t) == Held(st);
    assert LiveLog(t) == LiveLog(st);
    assert Oldest(t) == Oldest(st);
  }

  lemma ReleaseKeepsInv(st: Db, i: nat)
    requires Inv(st) && i < |st.snapshots|
    ensures Inv(Apply(st, ReleaseSnapshot(i)))
  {
    var t := Apply(st, ReleaseSnapshot(i));
    assert Held(t) == Held(st);
    assert LiveLog(t) == LiveLog(st);
    assert Oldest(t) >= Oldest(st);
  }

  lemma AbortKeepsInv(st: Db)
    requires Inv(st)
    ensures Inv(Apply(st, AbortCompaction))
  {
    var t := Apply(st, AbortCompaction);
    assert Held(t) == Held(st);
    assert LiveLog(t) == LiveLog(st);
  }

  lemma ValidStands(v: Levels, level: nat, i0: seq<File>, i1: seq<File>)
    requires ValidInputs(v, level, i0, i1)
    ensures Stands(v, level, i0, i1)
  {
    forall g, f | g in v[level + 1] && g !in i1 && f in i0 + i1 ensures Disjoint(g, f) {
      assert Apart(g, i0 + i1);
    }
  }

  lemma BeginKeepsInv(st: Db, i0: seq<File>, i1: seq<File>, manual: bool, at: nat)
    requires Inv(st) && Enabled(st, BeginCompaction(i0, i1, manual, at))
    ensures Inv(Apply(st, BeginCompaction(i0, i1, manual, at)))
  {
    ValidStands(st.levels, at, i0, i1);
    var t := Apply(st, BeginCompaction(i0, i1, manual, at));
    assert Held(t) == Held(st);
    assert LiveLog(t) == LiveLog(st);
  }
}
