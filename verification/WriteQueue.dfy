/**
  The write queue as one machine: writers line up, the front one leads a group, logs and applies it.

  This is the specification of what the threads that call Write do together.  That there is one leader
  is part of its state here; WriteThreads has one program counter for each thread and derives it.
 */
module WriteQueue {
  import opened Wrappers
  import opened DbFormat
  import opened Engine

  /** A null batch only asks for room, that is, for a new memtable. */
  datatype Writer = Writer(batch: Option<seq<Write>>, size: nat, sync: bool)

  datatype Stamped = Stamped(sn: nat, write: Write)

  function Stamp(ops: seq<Write>, first: nat): (r: seq<Stamped>)
    ensures |r| == |ops| && forall i :: 0 <= i < |ops| ==> r[i] == Stamped(first + i, ops[i])
  {
    seq(|ops|, i requires 0 <= i < |ops| => Stamped(first + i, ops[i]))
  }

  function Ops(ws: seq<Writer>): seq<Write> {
    if ws == [] then []
    else
      var w := ws[|ws| - 1];
      Ops(ws[..|ws| - 1]) + if w.batch.Some? then w.batch.value else []
  }

  /* ---- Which writers join the leader ---- */

  function BatchBytes(ws: seq<Writer>): nat {
    if ws == [] then 0
    else
      var w := ws[|ws| - 1];
      BatchBytes(ws[..|ws| - 1]) + if w.batch.Some? then w.size else 0
  }

  /** A group has at most 1 MB; behind a small first batch of up to 128 KB the others add at most 128 KB. */
  ghost predicate Fits(first: Writer, bytes: nat) {
    bytes <= 1048576 && (first.size <= 131072 ==> bytes - first.size <= 131072)
  }

  /** Writer `i` may go into the group that writer 0 leads. */
  ghost predicate Joins(ws: seq<Writer>, i: nat)
    requires 0 < i < |ws|
  {
    (ws[i].sync ==> ws[0].sync) && (ws[i].batch.Some? ==> Fits(ws[0], BatchBytes(ws[..i + 1])))
  }

  ghost predicate IsGroup(ws: seq<Writer>, n: nat) {
    && 0 < n <= |ws| && (forall i :: 0 < i < n ==> Joins(ws, i))
    && (n < |ws| ==> !Joins(ws, n))
  }

  /** How the code sizes a group. */
  function MaxBytes(first: Writer): nat {
    if first.size <= 0x2_0000 then first.size + 0x2_0000 else 0x10_0000
  }

  method BuildBatchGroup(ws: seq<Writer>) returns (n: nat, ops: seq<Write>)
    requires ws != [] && ws[0].batch.Some?
    ensures IsGroup(ws, n) && ops == Ops(ws[..n])
    ensures (exists i :: 0 < i < n && ws[i].batch.Some?) ==> BatchBytes(ws[..n]) <= 1048576
    ensures ws[0].size <= 131072 ==> BatchBytes(ws[..n]) <= ws[0].size + 131072
  {
    var size := ws[0].size;
    ops := ws[0].batch.value;
    n := 1;
    assert ws[..1] == [ws[0]] && [ws[0]][..0] == [];
    while n < |ws|
      invariant 0 < n <= |ws| && ops == Ops(ws[..n]) && size == BatchBytes(ws[..n])
      invariant forall i :: 0 < i < n ==> Joins(ws, i)
      invariant (exists i :: 0 < i < n && ws[i].batch.Some?) ==> size <= 1048576
      invariant ws[0].size <= 131072 ==> size <= ws[0].size + 131072
    {
      var w := ws[n];
      assert ws[..n + 1][..n] == ws[..n];
      if w.sync && !ws[0].sync {
        break;
      }
      if w.batch.Some? {
        size := size + w.size;
        if size > MaxBytes(ws[0]) {
          break;
        }
        ops := ops + w.batch.value;
      }
      n := n + 1;
    }
  }

  /* ---- The queue as a state machine ---- */

  datatype Stage = Chosen | Inserting(next: nat) | Failed(logged: bool)

  datatype Leading = Leading(count: nat, ops: seq<Write>, stage: Stage)

  /** What became of a group; refused writers and null batches leave one without operations. */
  datatype Group = Group(writers: seq<Writer>, first: nat, ops: seq<Write>, logged: bool, applied: bool, end: nat)

  datatype Queue = Queue(
    writers: seq<Writer>,
    leading: Option<Leading>,
    arrived: seq<Writer>,
    groups: seq<Group>,      // completed so far
    log: seq<Stamped>,
    durable: nat,            // how much of the log the last successful sync covered
    mem: seq<Stamped>,       // in order of insertion
    lastSequence: nat)

  datatype Step =
    | Enqueue(w: Writer)
    | Turn                   // the front writer leaves alone: refused, or a null batch
    | Lead(n: nat)
    | Append(ok: bool, syncOk: bool)
    | InsertOne
    | Finish

  function Empty(): Queue {
    Queue([], None, [], [], [], 0, [], 0)
  }

  ghost predicate Enabled(q: Queue, s: Step) {
    match s
    case Enqueue(w) => true
    case Turn => q.leading.None? && q.writers != []
    case Lead(n) => q.leading.None? && q.writers != [] && q.writers[0].batch.Some? && IsGroup(q.writers, n)
    case Append(ok, syncOk) => q.leading.Some? && q.leading.value.stage.Chosen? && q.writers != []
    case InsertOne =>
      q.leading.Some? && q.leading.value.stage.Inserting? && q.leading.value.stage.next < |q.leading.value.ops|
    case Finish =>
      && q.leading.Some? && q.leading.value.count <= |q.writers|
      && match q.leading.value.stage
         case Chosen => false
         case Inserting(i) => i == |q.leading.value.ops|
         case Failed(_) => true
  }

  function Apply(q: Queue, s: Step): Queue
    requires Enabled(q, s)
  {
    match s
    case Enqueue(w) => q.(writers := q.writers + [w], arrived := q.arrived + [w])
    case Turn =>
      q.(writers := q.writers[1..],
         groups := q.groups + [Group(q.writers[..1], q.lastSequence + 1, [], false, false, |q.log|)])
    case Lead(n) => q.(leading := Some(Leading(n, Ops(q.writers[..n]), Chosen)))
    case Append(ok, syncOk) =>
      var g := q.leading.value;
      var log := if ok then q.log + Stamp(g.ops, q.lastSequence + 1) else q.log;
      var synced := ok && q.writers[0].sync && syncOk;
      var stage := if !ok then Failed(false) else if q.writers[0].sync && !syncOk then Failed(true) else Inserting(0);
      q.(log := log, durable := if synced then |log| else q.durable, leading := Some(g.(stage := stage)))
    case InsertOne =>
      var g := q.leading.value;
      var i := g.stage.next;
      q.(mem := q.mem + [Stamped(q.lastSequence + 1 + i, g.ops[i])], leading := Some(g.(stage := Inserting(i + 1))))
    case Finish =>
      var g := q.leading.value;
      var group := Group(q.writers[..g.count], q.lastSequence + 1, g.ops, g.stage != Failed(false), g.stage.Inserting?, |q.log|);
      q.(writers := q.writers[g.count..], groups := q.groups + [group], leading := None,
         lastSequence := q.lastSequence + |g.ops|)
  }

  /* ---- What the groups completed so far add up to ---- */

  function WritersOf(gs: seq<Group>): seq<Writer> {
    if gs == [] then [] else WritersOf(gs[..|gs| - 1]) + gs[|gs| - 1].writers
  }

  function Total(gs: seq<Group>): nat {
    if gs == [] then 0 else Total(gs[..|gs| - 1]) + |gs[|gs| - 1].ops|
  }

  function LogOf(gs: seq<Group>): seq<Stamped> {
    if gs == [] then []
    else
      var g := gs[|gs| - 1];
      LogOf(gs[..|gs| - 1]) + if g.logged then Stamp(g.ops, g.first) else []
  }

  function MemOf(gs: seq<Group>): seq<Stamped> {
    if gs == [] then []
    else
      var g := gs[|gs| - 1];
      MemOf(gs[..|gs| - 1]) + if g.applied then Stamp(g.ops, g.first) else []
  }

  /** Operations of a group are those of its writers, and a synced writer's group was synced before it was applied. */
  ghost predicate GroupOk(g: Group, durable: nat) {
    && (g.ops == [] || g.ops == Ops(g.writers))
    && (g.applied ==> g.logged && g.ops == Ops(g.writers))
    && (g.applied && (exists w :: w in g.writers && w.sync) ==> g.end <= durable)
  }

  ghost predicate Numbered(gs: seq<Group>) {
    gs == [] ||
    var g := gs[|gs| - 1];
    Numbered(gs[..|gs| - 1]) && g.first == Total(gs[..|gs| - 1]) + 1 && g.end == |LogOf(gs)|
  }

  ghost predicate LeadingOk(q: Queue) {
    q.leading.Some? ==>
      var g := q.leading.value;
      && 0 < g.count <= |q.writers| && g.ops == Ops(q.writers[..g.count])
      && (forall i :: 0 <= i < g.count && q.writers[i].sync ==> q.writers[0].sync)
      && (g.stage.Inserting? ==> g.stage.next <= |g.ops| && (q.writers[0].sync ==> q.durable == |q.log|))
  }

  function InFlightLog(q: Queue): seq<Stamped> {
    if q.leading.Some? && (q.leading.value.stage.Inserting? || q.leading.value.stage == Failed(true))
    then Stamp(q.leading.value.ops, q.lastSequence + 1) else []
  }

  function InFlightMem(q: Queue): seq<Stamped> {
    if q.leading.Some? && q.leading.value.stage.Inserting? && q.leading.value.stage.next <= |q.leading.value.ops|
    then Stamp(q.leading.value.ops, q.lastSequence + 1)[..q.leading.value.stage.next] else []
  }

  ghost predicate Inv(q: Queue) {
    && q.arrived == WritersOf(q.groups) + q.writers
    && q.lastSequence == Total(q.groups) && Numbered(q.groups)
    && q.log == LogOf(q.groups) + InFlightLog(q)
    && q.mem == MemOf(q.groups) + InFlightMem(q)
    && q.durable <= |q.log| && (forall g :: g in q.groups ==> GroupOk(g, q.durable))
    && LeadingOk(q)
  }

  /* ---- Every step keeps the invariant ---- */

  lemma AddGroup(gs: seq<Group>, g: Group)
    ensures WritersOf(gs + [g]) == WritersOf(gs) + g.writers && Total(gs + [g]) == Total(gs) + |g.ops|
    ensures LogOf(gs + [g]) == LogOf(gs) + (if g.logged then Stamp(g.ops, g.first) else [])
    ensures MemOf(gs + [g]) == MemOf(gs) + (if g.applied then Stamp(g.ops, g.first) else [])
  {
    assert (gs + [g])[..|gs|] == gs;
  }

  lemma NumberedAdd(gs: seq<Group>, g: Group)
    requires Numbered(gs) && g.first == Total(gs) + 1 && g.end == |LogOf(gs + [g])|
    ensures Numbered(gs + [g])
  {
    assert (gs + [g])[..|gs|] == gs;
  }

  lemma EnqueueKeepsInv(q: Queue, w: Writer)
    requires Inv(q)
    ensures Inv(Apply(q, Enqueue(w)))
  {
    var t := Apply(q, Enqueue(w));
    if q.leading.Some? {
      assert t.writers[..q.leading.value.count] == q.writers[..q.leading.value.count];
    }
  }

  lemma TurnKeepsInv(q: Queue)
    requires Inv(q) && Enabled(q, Turn)
    ensures Inv(Apply(q, Turn))
  {
    hide WritersOf, Numbered, Total, LogOf, MemOf, Ops, Stamp;
    var g := Group(q.writers[..1], q.lastSequence + 1, [], false, false, |q.log|);
    AddGroup(q.groups, g);
    assert InFlightLog(q) == [] && InFlightMem(q) == [];
    NumberedAdd(q.groups, g);
    assert q.writers == q.writers[..1] + q.writers[1..];
  }

  lemma LeadKeepsInv(q: Queue, n: nat)
    requires Inv(q) && Enabled(q, Lead(n))
    ensures Inv(Apply(q, Lead(n)))
  {
    hide WritersOf, Numbered, Total, LogOf, MemOf, Ops, GroupOk;
    forall i | 0 <= i < n && q.writers[i].sync ensures q.writers[0].sync {
      if i > 0 {
        assert Joins(q.writers, i);
      }
    }
    assert InFlightLog(Apply(q, Lead(n))) == [] && InFlightMem(Apply(q, Lead(n))) == [];
  }

  lemma AppendKeepsInv(q: Queue, ok: bool, syncOk: bool)
    requires Inv(q) && Enabled(q, Append(ok, syncOk))
    ensures Inv(Apply(q, Append(ok, syncOk)))
  {
    hide WritersOf, Numbered, Total, LogOf, MemOf, Ops;
    var t := Apply(q, Append(ok, syncOk));
    assert InFlightLog(q) == [] && InFlightMem(q) == [];
    assert t.durable >= q.durable;
    assert InFlightMem(t) == [];
  }

  lemma InsertOneKeepsInv(q: Queue)
    requires Inv(q) && Enabled(q, InsertOne)
    ensures Inv(Apply(q, InsertOne))
  {
    hide WritersOf, Numbered, Total, LogOf, MemOf, Ops, GroupOk;
    var t := Apply(q, InsertOne);
    var g := q.leading.value;
    var all := Stamp(g.ops, q.lastSequence + 1);
    assert all[..g.stage.next + 1] == all[..g.stage.next] + [all[g.stage.next]];
    assert InFlightLog(t) == InFlightLog(q);
  }

  lemma FinishKeepsInv(q: Queue)
    requires Inv(q) && Enabled(q, Finish)
    ensures Inv(Apply(q, Finish))
  {
    hide WritersOf, Numbered, Total, LogOf, MemOf, Ops, Stamp, GroupOk, IsGroup, Joins;
    var t := Apply(q, Finish);
    var lead := q.leading.value;
    var g := t.groups[|q.groups|];
    AddGroup(q.groups, g);
    FinishedOk(q, g);
    FlightLands(q);
    assert InFlightLog(t) == [] && InFlightMem(t) == [];
    NumberedAdd(q.groups, g);
    assert q.writers == q.writers[..lead.count] + q.writers[lead.count..];
  }

  lemma FlightLands(q: Queue)
    requires q.leading.Some? && LeadingOk(q) && Enabled(q, Finish)
    ensures var lead := q.leading.value;
            var all := Stamp(lead.ops, q.lastSequence + 1);
            && InFlightLog(q) == (if lead.stage != Failed(false) then all else [])
            && InFlightMem(q) == (if lead.stage.Inserting? then all else [])
  {
  }

  lemma FinishedOk(q: Queue, g: Group)
    requires LeadingOk(q) && q.leading.Some? && Enabled(q, Finish)
    requires var lead := q.leading.value;
             g == Group(q.writers[..lead.count], q.lastSequence + 1, lead.ops, lead.stage != Failed(false), lead.stage.Inserting?, |q.log|)
    ensures GroupOk(g, q.durable)
  {
    if w :| w in g.writers && w.sync {
      var i :| 0 <= i < |g.writers| && g.writers[i] == w;
      assert q.writers[i].sync;
    }
  }

  lemma StepKeepsInv(q: Queue, s: Step)
    requires Inv(q) && Enabled(q, s)
    ensures Inv(Apply(q, s))
  {
    match s
    case Enqueue(w) => EnqueueKeepsInv(q, w);
    case Turn => TurnKeepsInv(q);
    case Lead(n) => LeadKeepsInv(q, n);
    case Append(ok, syncOk) => AppendKeepsInv(q, ok, syncOk);
    case InsertOne => InsertOneKeepsInv(q);
    case Finish => FinishKeepsInv(q);
  }

  /* ---- What finished groups add up to when none has failed ---- */

  ghost predicate Succeeded(g: Group) {
    g.applied || Ops(g.writers) == []
  }

  lemma {:induction false} OpsAppend(a: seq<Writer>, b: seq<Writer>)
    ensures Ops(a + b) == Ops(a) + Ops(b)
  {
    if b == [] {
      assert a + b == a;
    } else {
      OpsAppend(a, b[..|b| - 1]);
      assert (a + b)[..|a + b| - 1] == a + b[..|b| - 1];
    }
  }

  lemma StampAppend(a: seq<Write>, b: seq<Write>, first: nat)
    ensures Stamp(a + b, first) == Stamp(a, first) + Stamp(b, first + |a|)
  {
  }

  lemma {:induction false} AllApplied(gs: seq<Group>, durable: nat)
    requires Numbered(gs) && forall g :: g in gs ==> GroupOk(g, durable) && Succeeded(g)
    ensures MemOf(gs) == Stamp(Ops(WritersOf(gs)), 1) && LogOf(gs) == MemOf(gs) && Total(gs) == |Ops(WritersOf(gs))|
  {
    if gs != [] {
      var n := |gs| - 1;
      AllApplied(gs[..n], durable);
      OneApplied(gs, durable);
    }
  }

  lemma OneApplied(gs: seq<Group>, durable: nat)
    requires gs != [] && Numbered(gs) && GroupOk(gs[|gs| - 1], durable) && Succeeded(gs[|gs| - 1])
    requires var front := gs[..|gs| - 1];
             MemOf(front) == Stamp(Ops(WritersOf(front)), 1) && LogOf(front) == MemOf(front) && Total(front) == |Ops(WritersOf(front))|
    ensures MemOf(gs) == Stamp(Ops(WritersOf(gs)), 1) && LogOf(gs) == MemOf(gs) && Total(gs) == |Ops(WritersOf(gs))|
  {
    hide Numbered, Total, LogOf, MemOf, Ops, Stamp, WritersOf, GroupOk, Succeeded;
    var n := |gs| - 1;
    var front, g := gs[..n], gs[n];
    assert gs == front + [g];
    LastGroup(gs, durable);
    AddGroup(front, g);
    OpsAppend(WritersOf(front), g.writers);
    StampAppend(Ops(WritersOf(front)), Ops(g.writers), 1);
    NothingStamped(g.first);
  }

  lemma LastGroup(gs: seq<Group>, durable: nat)
    requires gs != [] && Numbered(gs) && GroupOk(gs[|gs| - 1], durable) && Succeeded(gs[|gs| - 1])
    ensures var g := gs[|gs| - 1];
            && g.first == Total(gs[..|gs| - 1]) + 1 && g.ops == Ops(g.writers)
            && (g.applied ==> g.logged) && (!g.applied ==> g.ops == [])
  {
  }

  lemma NothingStamped(first: nat)
    ensures Stamp([], first) == []
  {
  }

  /** Numbers in the memtable ascend, and finished groups have used those up to the last sequence. */
  lemma {:induction false} MemBelow(gs: seq<Group>)
    requires Numbered(gs)
    ensures forall i, j :: 0 <= i < j < |MemOf(gs)| ==> MemOf(gs)[i].sn < MemOf(gs)[j].sn
    ensures forall i :: 0 <= i < |MemOf(gs)| ==> 0 < MemOf(gs)[i].sn <= Total(gs)
  {
    if gs != [] {
      var n := |gs| - 1;
      MemBelow(gs[..n]);
    }
  }

  /** What the memtable holds at or below the last sequence is what the finished groups have put there. */
  lemma VisibleGroups(q: Queue)
    requires Inv(q)
    ensures forall i, j :: 0 <= i < j < |q.mem| ==> q.mem[i].sn < q.mem[j].sn
    ensures MemOf(q.groups) <= q.mem
    ensures forall i :: 0 <= i < |q.mem| ==> (q.mem[i].sn <= q.lastSequence <==> i < |MemOf(q.groups)|)
  {
    hide WritersOf, Ops, LogOf, GroupOk, IsGroup, Joins, MemOf, Numbered, Total, LeadingOk, InFlightLog;
    MemBelow(q.groups);
  }

  /** A logged group lies in the log where it ended. */
  lemma {:induction false} GroupInLog(gs: seq<Group>, i: nat)
    requires Numbered(gs) && i < |gs| && gs[i].logged
    ensures var g := gs[i];
            |g.ops| <= g.end <= |LogOf(gs)| && LogOf(gs)[..g.end][g.end - |g.ops|..] == Stamp(g.ops, g.first)
  {
    var n := |gs| - 1;
    var front := LogOf(gs[..n]);
    if i < n {
      GroupInLog(gs[..n], i);
      assert LogOf(gs)[..gs[i].end] == front[..gs[i].end];
    } else {
      assert LogOf(gs) == front + Stamp(gs[i].ops, gs[i].first);
      assert LogOf(gs)[..gs[i].end] == LogOf(gs);
    }
  }
}
