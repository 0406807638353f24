/**
  DBImpl::Write as its threads run it.

  Every call of Write is a thread with a program counter and local variables.  Nothing in the state says
  who leads: a thread goes on when it is done or when its writer is at the front of the queue, and it
  stays at the front while the mutex is released.  A step is a stretch of code under the mutex, or one of
  the actions performed without it.  That there is one leader at a time, and that the leaders together do
  what the write queue does, is proved.
 */
module WriteThreads {
  import opened Wrappers
  import opened DbFormat
  import opened Engine
  import WQ = WriteQueue

  /** The local variables of a leader: last_writer, the merged batch, and the last sequence it has read. */
  datatype Local = Local(last: nat, ops: seq<Write>, base: nat)

  datatype Pc =
    | Waiting                           // in the loop over cv.Wait
    | MakingRoom                        // past the wait; MakeRoomForWrite may release the mutex
    | Logging(v: Local)                 // the group is chosen; the mutex is released
    | Inserting(v: Local, next: nat)
    | Failing(v: Local, logged: bool)
    | Returned(ok: bool)

  /** Threads are numbered in order of arrival; `done` holds the status that another thread has left. */
  datatype Threads = Threads(
    arrived: seq<WQ.Writer>,
    pc: seq<Pc>,
    done: seq<Option<bool>>,
    queue: seq<nat>,              // writers_
    bgError: bool,
    groups: seq<WQ.Group>,        // history: what finished leaders did
    log: seq<WQ.Stamped>,
    durable: nat,
    mem: seq<WQ.Stamped>,
    lastSequence: nat)

  datatype Step =
    | Arrive(w: WQ.Writer)
    | Wake(i: nat)
    | Alone(i: nat, ok: bool)     // no room, or a null batch: nothing is written
    | Choose(i: nat, n: nat)
    | Append(i: nat, ok: bool, syncOk: bool)
    | InsertOne(i: nat)
    | Finish(i: nat)
    | BackgroundError

  ghost predicate Shaped(t: Threads) {
    |t.pc| == |t.arrived| && |t.done| == |t.arrived| && forall k :: 0 <= k < |t.queue| ==> t.queue[k] < |t.arrived|
  }

  ghost function Queued(t: Threads): seq<WQ.Writer>
    requires Shaped(t)
  {
    seq(|t.queue|, k requires 0 <= k < |t.queue| => t.arrived[t.queue[k]])
  }

  /** How many writers the loop at the end of Write pops: up to and including `last`. */
  function Pops(queue: seq<nat>, last: nat): (n: nat)
    ensures n <= |queue|
  {
    if queue == [] then 0 else if queue[0] == last then 1 else 1 + Pops(queue[1..], last)
  }

  ghost predicate Enabled(t: Threads, s: Step)
    requires Shaped(t)
  {
    match s
    case Arrive(w) => true
    case Wake(i) =>
      i < |t.pc| && t.pc[i].Waiting? && (t.done[i].Some? || (t.queue != [] && t.queue[0] == i))
    case Alone(i, ok) =>
      i < |t.pc| && t.pc[i].MakingRoom? && (t.bgError ==> !ok) && (ok ==> t.arrived[i].batch.None?)
    case Choose(i, n) =>
      i < |t.pc| && t.pc[i].MakingRoom? && !t.bgError && t.arrived[i].batch.Some? && WQ.IsGroup(Queued(t), n)
    case Append(i, ok, syncOk) => i < |t.pc| && t.pc[i].Logging?
    case InsertOne(i) => i < |t.pc| && t.pc[i].Inserting? && t.pc[i].next < |t.pc[i].v.ops|
    case Finish(i) =>
      i < |t.pc| && (t.pc[i].Failing? || (t.pc[i].Inserting? && t.pc[i].next == |t.pc[i].v.ops|))
    case BackgroundError => true
  }

  /** The end of Write: pop up to `last`, leave `ok` with every popped thread but oneself, and return it. */
  ghost function Leave(t: Threads, i: nat, last: nat, ok: bool): (u: Threads)
    requires Shaped(t) && i < |t.pc|
    ensures Shaped(u)
  {
    var n := Pops(t.queue, last);
    var done := seq(|t.done|, j requires 0 <= j < |t.done| => if j in t.queue[..n] && j != i then Some(ok) else t.done[j]);
    t.(queue := t.queue[n..], done := done, pc := t.pc[i := Returned(ok)])
  }

  ghost function Apply(t: Threads, s: Step): (u: Threads)
    requires Shaped(t) && Enabled(t, s)
    ensures Shaped(u)
  {
    match s
    case Arrive(w) =>
      t.(arrived := t.arrived + [w], pc := t.pc + [Waiting], done := t.done + [None], queue := t.queue + [|t.arrived|])
    case Wake(i) => t.(pc := t.pc[i := if t.done[i].Some? then Returned(t.done[i].value) else MakingRoom])
    case Alone(i, ok) =>
      var g := WQ.Group(Queued(t)[..Pops(t.queue, i)], t.lastSequence + 1, [], false, false, |t.log|);
      Leave(t, i, i, ok).(groups := t.groups + [g])
    case Choose(i, n) =>
      t.(pc := t.pc[i := Logging(Local(t.queue[n - 1], WQ.Ops(Queued(t)[..n]), t.lastSequence))])
    case Append(i, ok, syncOk) =>
      var v, sync := t.pc[i].v, t.arrived[i].sync;
      var log := if ok then t.log + WQ.Stamp(v.ops, v.base + 1) else t.log;
      var next := if !ok then Failing(v, false) else if sync && !syncOk then Failing(v, true) else Inserting(v, 0);
      t.(log := log, durable := if ok && sync && syncOk then |log| else t.durable, pc := t.pc[i := next])
    case InsertOne(i) =>
      var v, k := t.pc[i].v, t.pc[i].next;
      t.(mem := t.mem + [WQ.Stamped(v.base + 1 + k, v.ops[k])], pc := t.pc[i := Inserting(v, k + 1)])
    case Finish(i) =>
      var p := t.pc[i];
      var logged, applied := p != Failing(p.v, false), p.Inserting?;
      var g := WQ.Group(Queued(t)[..Pops(t.queue, p.v.last)], p.v.base + 1, p.v.ops, logged, applied, |t.log|);
      Leave(t, i, p.v.last, applied).(
        groups := t.groups + [g], lastSequence := p.v.base + |p.v.ops|, bgError := t.bgError || p == Failing(p.v, true))
    case BackgroundError => t.(bgError := true)
  }

  function Nobody(): Threads {
    Threads([], [], [], [], false, [], [], 0, [], 0)
  }

  /* ---- One leader at a time ---- */

  predicate PastWait(p: Pc) {
    !p.Waiting? && !p.Returned?
  }

  /** The number of threads that have left the queue. */
  function Gone(t: Threads): int {
    |t.arrived| - |t.queue|
  }

  /** The queue holds the last arrivals in order; nobody leads but the front, and the front is not done. */
  ghost predicate Order(t: Threads) {
    && Shaped(t) && |t.queue| <= |t.arrived|
    && (forall k :: 0 <= k < |t.queue| ==> t.queue[k] == Gone(t) + k)
    && (forall i :: 0 <= i < |t.pc| && PastWait(t.pc[i]) ==> t.queue != [] && t.queue[0] == i)
    && (forall i :: 0 <= i < |t.pc| ==> (t.done[i].Some? || t.pc[i].Returned? <==> i < Gone(t)))
  }

  /** The local variables of the leader. */
  ghost predicate LocalOk(t: Threads)
    requires Order(t)
  {
    t.queue != [] && PastWait(t.pc[t.queue[0]]) && !t.pc[t.queue[0]].MakingRoom? ==>
      var v := t.pc[t.queue[0]].v;
      v.last in t.queue && v.base == t.lastSequence
  }

  /** The write queue that the threads act out. */
  ghost function Abs(t: Threads): WQ.Queue
    requires Order(t)
  {
    WQ.Queue(t.arrived[Gone(t)..], AbsLeading(t), t.arrived, t.groups, t.log, t.durable, t.mem, t.lastSequence)
  }

  ghost function AbsLeading(t: Threads): Option<WQ.Leading>
    requires Order(t)
  {
    if t.queue == [] then None
    else
      var p := t.pc[t.queue[0]];
      match p
      case Logging(v) => Some(WQ.Leading(Pops(t.queue, v.last), v.ops, WQ.Chosen))
      case Inserting(v, next) => Some(WQ.Leading(Pops(t.queue, v.last), v.ops, WQ.Inserting(next)))
      case Failing(v, logged) => Some(WQ.Leading(Pops(t.queue, v.last), v.ops, WQ.Failed(logged)))
      case Waiting => None
      case MakingRoom => None
      case Returned(_) => None
  }

  lemma {:induction false} PopsAre(queue: seq<nat>, first: nat, k: nat)
    requires k < |queue| && forall j :: 0 <= j < |queue| ==> queue[j] == first + j
    ensures Pops(queue, first + k) == k + 1
  {
    if k > 0 { PopsAre(queue[1..], first + 1, k - 1); }
  }

  lemma QueuedAre(t: Threads)
    requires Order(t)
    ensures Queued(t) == t.arrived[Gone(t)..]
  {
  }

  ghost predicate Inv(t: Threads) {
    Order(t) && LocalOk(t) && WQ.Inv(Abs(t))
  }

  /** The step of the write queue that a step of a thread performs; waking and errors elsewhere perform none. */
  ghost function Performs(s: Step): Option<WQ.Step> {
    match s
    case Arrive(w) => Some(WQ.Enqueue(w))
    case Wake(i) => None
    case Alone(i, ok) => Some(WQ.Turn)
    case Choose(i, n) => Some(WQ.Lead(n))
    case Append(i, ok, syncOk) => Some(WQ.Append(ok, syncOk))
    case InsertOne(i) => Some(WQ.InsertOne)
    case Finish(i) => Some(WQ.Finish)
    case BackgroundError => None
  }

  ghost predicate Simulates(t: Threads, u: Threads, s: Step)
    requires Order(t) && Order(u)
  {
    match Performs(s)
    case None => Abs(u) == Abs(t)
    case Some(a) => WQ.Enabled(Abs(t), a) && Abs(u) == WQ.Apply(Abs(t), a)
  }

  lemma ArriveSimulates(t: Threads, w: WQ.Writer)
    requires Inv(t)
    ensures var u := Apply(t, Arrive(w)); Order(u) && LocalOk(u) && Simulates(t, u, Arrive(w))
  {
    hide WQ.Inv, WQ.Ops, WQ.Stamp, WQ.IsGroup, Queued, Leave;
    var u := Apply(t, Arrive(w));
    assert u.arrived[Gone(u)..] == t.arrived[Gone(t)..] + [w];
    if t.queue != [] && AbsLeading(t).Some? {
      var v := t.pc[t.queue[0]].v;
      var k :| 0 <= k < |t.queue| && t.queue[k] == v.last;
      PopsAre(t.queue, Gone(t), k);
      PopsAre(u.queue, Gone(u), k);
      assert u.queue[k] == v.last;
    }
  }

  lemma WakeSimulates(t: Threads, i: nat)
    requires Inv(t) && Enabled(t, Wake(i))
    ensures var u := Apply(t, Wake(i)); Order(u) && LocalOk(u) && Simulates(t, u, Wake(i))
  {
    hide WQ.Inv;
  }

  /** Leaving pops exactly the threads up to `last`, all of them waiting but the leader itself. */
  lemma LeaveOrder(t: Threads, i: nat, k: nat, ok: bool)
    requires Order(t) && k < |t.queue| && t.queue[0] == i && PastWait(t.pc[i])
    ensures Pops(t.queue, t.queue[k]) == k + 1
    ensures var u := Leave(t, i, t.queue[k], ok);
            Order(u) && Gone(u) == Gone(t) + k + 1 && forall j :: 0 <= j < |u.pc| ==> !PastWait(u.pc[j])
  {
    PopsAre(t.queue, Gone(t), k);
    var u := Leave(t, i, t.queue[k], ok);
    forall j | 0 <= j < |u.pc| ensures u.done[j].Some? || u.pc[j].Returned? <==> j < Gone(u) {
      if Gone(t) <= j <= Gone(t) + k { assert t.queue[..k + 1][j - Gone(t)] == j; }
    }
  }

  lemma AloneSimulates(t: Threads, i: nat, ok: bool)
    requires Inv(t) && Enabled(t, Alone(i, ok))
    ensures var u := Apply(t, Alone(i, ok)); Order(u) && LocalOk(u) && Simulates(t, u, Alone(i, ok))
  {
    hide WQ.Inv;
    LeaveOrder(t, i, 0, ok);
    QueuedAre(t);
    var u := Apply(t, Alone(i, ok));
    assert u.arrived[Gone(u)..] == t.arrived[Gone(t)..][1..];
  }

  lemma ChooseSimulates(t: Threads, i: nat, n: nat)
    requires Inv(t) && Enabled(t, Choose(i, n))
    ensures var u := Apply(t, Choose(i, n)); Order(u) && LocalOk(u) && Simulates(t, u, Choose(i, n))
  {
    hide WQ.Inv;
    QueuedAre(t);
    PopsAre(t.queue, Gone(t), n - 1);
    var u := Apply(t, Choose(i, n));
    assert u.queue == t.queue;
  }

  /** What the write queue sees of the leader. */
  lemma LeaderSeen(t: Threads, i: nat) returns (k: nat)
    requires Inv(t) && i < |t.pc| && PastWait(t.pc[i]) && !t.pc[i].MakingRoom?
    ensures k < |t.queue| && t.queue[k] == t.pc[i].v.last && Pops(t.queue, t.pc[i].v.last) == k + 1
    ensures t.pc[i].v.base == t.lastSequence && Queued(t) == Abs(t).writers && k < |Abs(t).writers|
    ensures Abs(t).leading.Some? && Abs(t).leading == AbsLeading(t) && t.queue[0] == i
  {
    hide WQ.Inv;
    QueuedAre(t);
    k :| 0 <= k < |t.queue| && t.queue[k] == t.pc[i].v.last;
    PopsAre(t.queue, Gone(t), k);
  }

  lemma WriteOrder(t: Threads, s: Step)
    requires Inv(t) && Enabled(t, s) && (s.Append? || s.InsertOne?)
    ensures var u := Apply(t, s); Order(u) && LocalOk(u) && u.queue == t.queue && u.arrived == t.arrived
  {
    hide WQ.Inv, WQ.Stamp, WQ.Ops, Pops;
  }

  lemma WriteSimulates(t: Threads, s: Step)
    requires Inv(t) && Enabled(t, s) && (s.Append? || s.InsertOne?)
    ensures var u := Apply(t, s); Order(u) && LocalOk(u) && Simulates(t, u, s)
  {
    hide WQ.Inv, Pops, WQ.Stamp, WQ.Ops, WQ.IsGroup, Leave, Queued, LocalOk;
    var k := LeaderSeen(t, s.i);
    WriteOrder(t, s);
    assert t.arrived[Gone(t)..][0] == t.arrived[s.i];
  }

  lemma FinishOrder(t: Threads, i: nat, k: nat)
    requires Inv(t) && Enabled(t, Finish(i)) && k < |t.queue| && t.queue[k] == t.pc[i].v.last
    ensures var u := Apply(t, Finish(i));
            && Order(u) && LocalOk(u) && Gone(u) == Gone(t) + k + 1 && AbsLeading(u).None?
  {
    hide WQ.Inv, WQ.Stamp, WQ.Ops;
    LeaveOrder(t, i, k, t.pc[i].Inserting?);
    var w := Leave(t, i, t.pc[i].v.last, t.pc[i].Inserting?);
    var u := Apply(t, Finish(i));
    assert u.queue == w.queue && u.pc == w.pc && u.done == w.done && u.arrived == w.arrived;
  }

  lemma FinishSimulates(t: Threads, i: nat)
    requires Inv(t) && Enabled(t, Finish(i))
    ensures var u := Apply(t, Finish(i)); Order(u) && LocalOk(u) && Simulates(t, u, Finish(i))
  {
    hide WQ.Inv, Pops, WQ.Stamp, WQ.Ops, WQ.IsGroup, Queued, LocalOk;
    var k := LeaderSeen(t, i);
    FinishOrder(t, i, k);
    var u := Apply(t, Finish(i));
    assert u.arrived[Gone(u)..] == t.arrived[Gone(t)..][k + 1..];
  }

  /** Every step of a thread is a step of the write queue, or leaves it as it is. */
  lemma StepSimulates(t: Threads, s: Step)
    requires Inv(t) && Enabled(t, s)
    ensures Inv(Apply(t, s)) && Simulates(t, Apply(t, s), s)
  {
    match s {
      case Arrive(w) => ArriveSimulates(t, w);
      case Wake(i) => WakeSimulates(t, i);
      case Alone(i, ok) => AloneSimulates(t, i, ok);
      case Choose(i, n) => ChooseSimulates(t, i, n);
      case Append(i, ok, syncOk) => WriteSimulates(t, s);
      case InsertOne(i) => WriteSimulates(t, s);
      case Finish(i) => FinishSimulates(t, i);
      case BackgroundError =>
    }
    if Performs(s).Some? {
      WQ.StepKeepsInv(Abs(t), Performs(s).value);
    }
  }

  /* ---- What the calls return ---- */

  /** What the call of thread `j` returns, or is going to. */
  function Outcome(t: Threads, j: nat): Option<bool>
    requires j < |t.pc| && |t.done| == |t.pc|
  {
    if t.pc[j].Returned? then Some(t.pc[j].ok) else t.done[j]
  }

  /** The group in which writer `j` finished. */
  function GroupAt(gs: seq<WQ.Group>, j: nat): (k: nat)
    requires j < |WQ.WritersOf(gs)|
    ensures k < |gs|
  {
    var n := |gs| - 1;
    if j < |WQ.WritersOf(gs[..n])| then GroupAt(gs[..n], j) else n
  }

  lemma {:induction false} Position(gs: seq<WQ.Group>, k: nat, w: nat)
    requires k < |gs| && w < |gs[k].writers|
    ensures var j := |WQ.WritersOf(gs[..k])| + w;
            && j < |WQ.WritersOf(gs)| && GroupAt(gs, j) == k && WQ.WritersOf(gs)[j] == gs[k].writers[w]
  {
    var n := |gs| - 1;
    if k < n {
      Position(gs[..n], k, w);
      assert gs[..n][..k] == gs[..k];
    }
  }

  lemma {:induction false} Inside(gs: seq<WQ.Group>, j: nat)
    requires j < |WQ.WritersOf(gs)|
    ensures var k := GroupAt(gs, j);
            && |WQ.WritersOf(gs[..k])| <= j < |WQ.WritersOf(gs[..k])| + |gs[k].writers|
            && gs[k].writers[j - |WQ.WritersOf(gs[..k])|] == WQ.WritersOf(gs)[j]
  {
    var n := |gs| - 1;
    if j < |WQ.WritersOf(gs[..n])| {
      Inside(gs[..n], j);
      assert gs[..n][..GroupAt(gs, j)] == gs[..GroupAt(gs, j)];
    }
  }

  /** A call with a batch answers ok exactly if the group of its writer was logged, synced if asked, and applied. */
  ghost predicate Answered(t: Threads, j: nat)
    requires j < |t.arrived| == |t.pc| == |t.done| && j < |WQ.WritersOf(t.groups)|
  {
    t.arrived[j].batch.Some? ==> Outcome(t, j) == Some(t.groups[GroupAt(t.groups, j)].applied)
  }

  ghost predicate Lost(gs: seq<WQ.Group>, k: nat) {
    k < |gs| && gs[k].logged && !gs[k].applied
  }

  ghost predicate Answers(t: Threads)
    requires Inv(t)
  {
    && |WQ.WritersOf(t.groups)| == Gone(t)
    && (forall j :: 0 <= j < Gone(t) ==> Answered(t, j))
    && (forall a, b :: 0 <= a < b < |t.groups| && Lost(t.groups, a) ==> t.groups[b].ops == [] && !t.groups[b].logged)
    && (forall a :: Lost(t.groups, a) ==> t.bgError)
    && (forall a, i :: Lost(t.groups, a) && 0 <= i < |t.pc| && PastWait(t.pc[i]) ==> t.pc[i].MakingRoom?)
  }

  lemma GoneAre(t: Threads)
    requires Inv(t)
    ensures WQ.WritersOf(t.groups) == t.arrived[..Gone(t)]
  {
    hide WQ.WritersOf, WQ.Numbered, WQ.Total, WQ.LogOf, WQ.MemOf, WQ.GroupOk;
    assert t.arrived == WQ.WritersOf(t.groups) + t.arrived[Gone(t)..];
  }

  lemma GroupAtAdd(gs: seq<WQ.Group>, g: WQ.Group, j: nat)
    requires j < |WQ.WritersOf(gs)| + |g.writers|
    ensures WQ.WritersOf(gs + [g]) == WQ.WritersOf(gs) + g.writers
    ensures GroupAt(gs + [g], j) == if j < |WQ.WritersOf(gs)| then GroupAt(gs, j) else |gs|
  {
    WQ.AddGroup(gs, g);
    assert (gs + [g])[..|gs|] == gs;
  }

  /** Steps after which the same calls have answers. */
  lemma QuietKeepsAnswers(t: Threads, s: Step)
    requires Inv(t) && Enabled(t, s) && !s.Alone? && !s.Finish? && Inv(Apply(t, s)) && Answers(t)
    ensures Answers(Apply(t, s))
  {
    hide WQ.Inv, WQ.WritersOf, WQ.Stamp, WQ.Ops, WQ.IsGroup, Queued, LocalOk, Leave, Pops, Abs, AbsLeading, GroupAt;
    var u := Apply(t, s);
    assert u.groups == t.groups && Gone(u) == Gone(t);
    forall j | 0 <= j < Gone(u) ensures Answered(u, j) {
      assert Answered(t, j);
    }
    forall a, i | Lost(u.groups, a) && 0 <= i < |u.pc| && PastWait(u.pc[i]) ensures u.pc[i].MakingRoom? {
      assert Lost(t.groups, a) && t.bgError;
    }
  }

  /** A leader leaves: its group is the new last one and all its writers have the answer. */
  lemma LeavingKeepsAnswers(t: Threads, i: nat, k: nat, ok: bool, u: Threads)
    requires Inv(t) && Answers(t) && Inv(u)
    requires k < |t.queue| && t.queue[0] == i && PastWait(t.pc[i])
    requires var v := Leave(t, i, t.queue[k], ok);
             u.queue == v.queue && u.done == v.done && u.pc == v.pc && u.arrived == t.arrived
    requires |u.groups| == |t.groups| + 1 && u.groups[..|t.groups|] == t.groups
    requires var g := u.groups[|t.groups|]; g.writers == Queued(t)[..k + 1] && (g.applied != ok ==> k == 0 && t.arrived[i].batch.None?)
    ensures |WQ.WritersOf(u.groups)| == Gone(u) && forall j :: 0 <= j < Gone(u) ==> Answered(u, j)
  {
    hide WQ.Inv, WQ.WritersOf;
    var g := u.groups[|t.groups|];
    assert u.groups == t.groups + [g];
    LeaveOrder(t, i, k, ok);
    WQ.AddGroup(t.groups, g);
    forall j | 0 <= j < Gone(u) ensures Answered(u, j) {
      GroupAtAdd(t.groups, g, j);
      if j < Gone(t) {
        assert Answered(t, j) && Outcome(u, j) == Outcome(t, j);
      } else {
        assert t.queue[..k + 1][j - Gone(t)] == j;
      }
    }
  }

  lemma AloneKeepsAnswers(t: Threads, i: nat, ok: bool)
    requires Inv(t) && Enabled(t, Alone(i, ok)) && Inv(Apply(t, Alone(i, ok))) && Answers(t)
    ensures Answers(Apply(t, Alone(i, ok)))
  {
    hide WQ.Inv, WQ.WritersOf;
    var u := Apply(t, Alone(i, ok));
    LeaveOrder(t, i, 0, ok);
    LeavingKeepsAnswers(t, i, 0, ok, u);
    forall a | Lost(u.groups, a) ensures Lost(t.groups, a) {}
  }

  lemma FinishKeepsAnswers(t: Threads, i: nat)
    requires Inv(t) && Enabled(t, Finish(i)) && Inv(Apply(t, Finish(i))) && Answers(t)
    ensures Answers(Apply(t, Finish(i)))
  {
    hide WQ.Inv, WQ.WritersOf;
    var u := Apply(t, Finish(i));
    var k := LeaderSeen(t, i);
    LeaveOrder(t, i, k, t.pc[i].Inserting?);
    LeavingKeepsAnswers(t, i, k, t.pc[i].Inserting?, u);
    assert forall a: nat :: a < |t.groups| ==> !Lost(t.groups, a) && u.groups[a] == t.groups[a];
    assert forall a: nat :: a < |t.groups| ==> !Lost(u.groups, a);
  }

  lemma StepKeepsAnswers(t: Threads, s: Step)
    requires Inv(t) && Enabled(t, s) && Inv(Apply(t, s)) && Answers(t)
    ensures Answers(Apply(t, s))
  {
    hide Inv, Enabled, Apply, Answers;
    match s
    case Alone(i, ok) => AloneKeepsAnswers(t, i, ok);
    case Finish(i) => FinishKeepsAnswers(t, i);
    case _ => QuietKeepsAnswers(t, s);
  }

  lemma StepKeepsBoth(t: Threads, s: Step)
    requires Inv(t) && Answers(t) && Enabled(t, s)
    ensures Inv(Apply(t, s)) && Answers(Apply(t, s))
  {
    hide Inv, Answers, Enabled, Apply;
    StepSimulates(t, s);
    StepKeepsAnswers(t, s);
  }

  /** The state after any interleaving of the steps of any number of threads. */
  ghost function After(run: seq<Step>): (r: Option<Threads>)
    ensures r.Some? ==> Inv(r.value) && Answers(r.value)
  {
    if run == [] then Some(Nobody())
    else
      var n := |run| - 1;
      var before := After(run[..n]);
      if before.Some? && Enabled(before.value, run[n]) then
        StepKeepsBoth(before.value, run[n]);
        Some(Apply(before.value, run[n]))
      else None
  }

  /* ---- What holds in every reachable state ---- */

  /** At most one thread is past the wait; it is the front of the queue and nobody has finished its write. */
  lemma OneLeader(run: seq<Step>, i: nat)
    requires After(run).Some? && i < |After(run).value.pc| && PastWait(After(run).value.pc[i])
    ensures var t := After(run).value;
            && t.queue != [] && t.queue[0] == i && t.done[i].None?
            && forall j :: 0 <= j < |t.pc| && PastWait(t.pc[j]) ==> j == i
  {
  }

  /** A thread whose write was done for it is off the queue, has never led and never will: it can only return the status left for it. */
  lemma DoneNeverLeads(run: seq<Step>, i: nat, s: Step)
    requires After(run).Some? && i < |After(run).value.pc| && After(run).value.done[i].Some?
    requires Enabled(After(run).value, s)
    ensures var t := After(run).value;
            var u := Apply(t, s);
            && i !in t.queue && !PastWait(t.pc[i]) && u.done[i] == t.done[i] && !PastWait(u.pc[i])
            && (u.pc[i] != t.pc[i] ==> u.pc[i] == Returned(t.done[i].value))
  {
    hide WQ.Inv, WQ.WritersOf, WQ.Stamp, WQ.Ops, WQ.IsGroup, Queued, Answers;
    var t := After(run).value;
    assert Order(t);
    if s.Alone? { LeaveOrder(t, s.i, 0, s.ok); }
    if s.Finish? {
      var k := LeaderSeen(t, s.i);
      LeaveOrder(t, s.i, k, t.pc[s.i].Inserting?);
    }
  }

  /** The threads on whose condition variables a step signals. */
  ghost function Signalled(t: Threads, s: Step): set<nat>
    requires Shaped(t) && Enabled(t, s)
  {
    var u := Apply(t, s);
    if s.Alone? || s.Finish? then
      (set j | j in t.queue && j !in u.queue) + (if u.queue == [] then {} else {u.queue[0]})
    else {}
  }

  /** No wake-up is missed: a thread that a step of another thread allows to go on is signalled by that step. */
  lemma NoMissedWakeup(run: seq<Step>, s: Step, j: nat)
    requires After(run).Some? && Enabled(After(run).value, s) && j < |After(run).value.pc|
    requires !Enabled(After(run).value, Wake(j)) && Enabled(Apply(After(run).value, s), Wake(j))
    ensures j in Signalled(After(run).value, s)
  {
    hide WQ.Inv, WQ.WritersOf, WQ.Stamp, WQ.Ops, WQ.IsGroup, Queued, LocalOk, Answers, Pops, Abs, AbsLeading, Simulates;
    var t := After(run).value;
    assert Order(t);
    StepSimulates(t, s);
  }

  /** While a call has not returned, some thread can take a step. */
  lemma SomebodyCanGoOn(run: seq<Step>, i: nat) returns (s: Step)
    requires After(run).Some? && i < |After(run).value.pc| && !After(run).value.pc[i].Returned?
    ensures Enabled(After(run).value, s) && !s.Arrive? && !s.BackgroundError?
  {
    var t := After(run).value;
    if t.done[i].Some? {
      assert !PastWait(t.pc[i]);
      return Wake(i);
    }
    var front := t.queue[0];
    match t.pc[front]
    case Waiting => s := Wake(front);
    case MakingRoom => s := Alone(front, false);
    case Logging(v) => s := Append(front, true, true);
    case Inserting(v, next) =>
      assert WQ.LeadingOk(Abs(t));
      s := if next < |v.ops| then InsertOne(front) else Finish(front);
    case Failing(v, logged) => s := Finish(front);
    case Returned(ok) => assert false;
  }

  /** Calls finish in the order in which they were made, each exactly once: what finished is a prefix of what arrived. */
  lemma ArrivalOrder(run: seq<Step>)
    requires After(run).Some?
    ensures var t := After(run).value;
            && WQ.WritersOf(t.groups) == t.arrived[..Gone(t)]
            && (forall j :: 0 <= j < |t.arrived| ==> (Outcome(t, j).Some? <==> j < Gone(t)))
  {
    GoneAre(After(run).value);
    assert Order(After(run).value);
  }

  lemma {:induction false} NoBatchNoOps(ws: seq<WQ.Writer>)
    requires forall w :: w in ws ==> w.batch.None?
    ensures WQ.Ops(ws) == []
  {
    if ws != [] { NoBatchNoOps(ws[..|ws| - 1]); }
  }

  /** If every call with a batch that has finished answers ok, every group did what it was to do. */
  lemma AllSucceeded(t: Threads)
    requires Inv(t) && Answers(t)
    requires forall j :: 0 <= j < Gone(t) && t.arrived[j].batch.Some? ==> Outcome(t, j) == Some(true)
    ensures forall g :: g in t.groups ==> WQ.Succeeded(g)
  {
    hide WQ.Inv, WQ.WritersOf, WQ.Succeeded;
    forall g | g in t.groups ensures WQ.Succeeded(g) {
      var k :| 0 <= k < |t.groups| && t.groups[k] == g;
      OneSucceeded(t, k);
    }
  }

  lemma OneSucceeded(t: Threads, k: nat)
    requires Inv(t) && Answers(t) && k < |t.groups|
    requires forall j :: 0 <= j < Gone(t) && t.arrived[j].batch.Some? ==> Outcome(t, j) == Some(true)
    ensures WQ.Succeeded(t.groups[k])
  {
    hide WQ.Inv, WQ.WritersOf;
    var g := t.groups[k];
    if !g.applied {
      GoneAre(t);
      forall w | w in g.writers ensures w.batch.None? {
        var x :| 0 <= x < |g.writers| && g.writers[x] == w;
        Position(t.groups, k, x);
        assert Answered(t, |WQ.WritersOf(t.groups[..k])| + x);
      }
      NoBatchNoOps(g.writers);
    }
  }

  /**
    While no leader is at work and no finished call has failed, the log and the memtable hold the batch of
    each finished call once, in order of arrival, numbered from 1 on.
   */
  lemma ExactlyOnceInOrder(run: seq<Step>)
    requires After(run).Some?
    requires var t := After(run).value;
             && (forall i :: 0 <= i < |t.pc| ==> !PastWait(t.pc[i]))
             && (forall j :: 0 <= j < Gone(t) && t.arrived[j].batch.Some? ==> Outcome(t, j) == Some(true))
    ensures var t := After(run).value;
            var ops := WQ.Ops(t.arrived[..Gone(t)]);
            t.mem == WQ.Stamp(ops, 1) && t.log == t.mem && t.lastSequence == |ops|
  {
    hide WQ.WritersOf, WQ.Ops, WQ.Numbered, WQ.Total, WQ.MemOf, WQ.LogOf, WQ.Succeeded, WQ.GroupOk, WQ.Stamp;
    var t := After(run).value;
    AllSucceeded(t);
    GoneAre(t);
    WQ.AllApplied(t.groups, t.durable);
    assert AbsLeading(t).None?;
  }

  /** With failures too: readers see finished groups wholly and others not at all, and no number is used twice. */
  lemma WholeGroupsVisible(run: seq<Step>)
    requires After(run).Some?
    ensures var t := After(run).value;
            && (forall i, j :: 0 <= i < j < |t.mem| ==> t.mem[i].sn < t.mem[j].sn)
            && WQ.MemOf(t.groups) <= t.mem
            && (forall i :: 0 <= i < |t.mem| ==> (t.mem[i].sn <= t.lastSequence <==> i < |WQ.MemOf(t.groups)|))
  {
    hide Order, LocalOk, WQ.Inv, WQ.MemOf, Answers;
    var t := After(run).value;
    assert Order(t);
    WQ.VisibleGroups(Abs(t));
  }

  /** After a log write whose sync failed nothing more is written. */
  lemma SyncErrorIsLast(run: seq<Step>, a: nat, b: nat)
    requires After(run).Some? && a < b < |After(run).value.groups|
    requires After(run).value.groups[a].logged && !After(run).value.groups[a].applied
    ensures var t := After(run).value; t.bgError && t.groups[b].ops == [] && !t.groups[b].logged
  {
    assert Lost(After(run).value.groups, a);
  }

  /* ---- A call that returned ok ---- */

  lemma {:induction false} OpsAt(ws: seq<WQ.Writer>, x: nat)
    requires x < |ws| && ws[x].batch.Some?
    ensures var o := |WQ.Ops(ws[..x])|;
            var n := |ws[x].batch.value|;
            o + n <= |WQ.Ops(ws)| && WQ.Ops(ws)[o..o + n] == ws[x].batch.value
  {
    var l := |ws| - 1;
    if x < l {
      OpsAt(ws[..l], x);
      assert ws[..l][..x] == ws[..x];
    }
  }

  lemma {:induction false} GroupInMem(gs: seq<WQ.Group>, k: nat)
    requires k < |gs| && gs[k].applied
    ensures var m := |WQ.MemOf(gs[..k])|;
            var g := gs[k];
            m + |g.ops| <= |WQ.MemOf(gs)| && WQ.MemOf(gs)[m..m + |g.ops|] == WQ.Stamp(g.ops, g.first)
  {
    var n := |gs| - 1;
    if k < n {
      GroupInMem(gs[..n], k);
      assert gs[..n][..k] == gs[..k];
    }
  }

  lemma StampSlice(ops: seq<Write>, first: nat, o: nat, n: nat)
    requires o + n <= |ops|
    ensures WQ.Stamp(ops, first)[o..o + n] == WQ.Stamp(ops[o..o + n], first + o)
  {
  }

  lemma {:induction false} GroupBelow(gs: seq<WQ.Group>, k: nat)
    requires WQ.Numbered(gs) && k < |gs|
    ensures gs[k].first + |gs[k].ops| <= WQ.Total(gs) + 1
  {
    var n := |gs| - 1;
    if k < n { GroupBelow(gs[..n], k); }
  }

  lemma SubSlice<T>(s: seq<T>, m: nat, len: nat, o: nat, n: nat)
    requires m + len <= |s| && o + n <= len
    ensures s[m..m + len][o..o + n] == s[m + o..m + o + n]
  {
    var a, b := s[m..m + len][o..o + n], s[m + o..m + o + n];
    assert forall q :: 0 <= q < n ==> a[q] == b[q];
  }

  /** What the invariant says of one finished group. */
  lemma FinishedGroup(t: Threads, k: nat)
    requires Inv(t) && k < |t.groups|
    ensures WQ.Numbered(t.groups) && WQ.GroupOk(t.groups[k], t.durable)
    ensures WQ.LogOf(t.groups) <= t.log && WQ.MemOf(t.groups) <= t.mem && t.lastSequence == WQ.Total(t.groups)
  {
    assert t.groups[k] in t.groups;
  }

  /** Where the operations of an applied group are. */
  lemma GroupWritten(t: Threads, k: nat) returns (m: nat, l: nat)
    requires Inv(t) && k < |t.groups| && t.groups[k].applied
    ensures var g := t.groups[k];
            && g.ops == WQ.Ops(g.writers) && g.first + |g.ops| <= t.lastSequence + 1
            && m + |g.ops| <= |t.mem| && t.mem[m..m + |g.ops|] == WQ.Stamp(g.ops, g.first)
            && l + |g.ops| <= |t.log| && t.log[l..l + |g.ops|] == WQ.Stamp(g.ops, g.first)
            && ((exists w :: w in g.writers && w.sync) ==> l + |g.ops| <= t.durable)
  {
    hide WQ.Inv, WQ.Numbered, WQ.Ops, WQ.Stamp, WQ.LogOf, WQ.MemOf, WQ.Total;
    var g := t.groups[k];
    FinishedGroup(t, k);
    WQ.GroupInLog(t.groups, k);
    GroupInMem(t.groups, k);
    GroupBelow(t.groups, k);
    m, l := |WQ.MemOf(t.groups[..k])|, g.end - |g.ops|;
    assert t.log[..g.end] == WQ.LogOf(t.groups)[..g.end];
    assert t.log[l..g.end] == t.log[..g.end][l..];
    assert t.mem[m..m + |g.ops|] == WQ.MemOf(t.groups)[m..m + |g.ops|];
  }

  lemma {:induction false} FirstPositiveIn(gs: seq<WQ.Group>, k: nat)
    requires WQ.Numbered(gs) && k < |gs|
    ensures gs[k].first > 0
  {
    if k < |gs| - 1 { FirstPositiveIn(gs[..|gs| - 1], k); }
  }

  lemma FirstPositive(t: Threads, k: nat)
    requires Inv(t) && k < |t.groups|
    ensures t.groups[k].first > 0
  {
    FinishedGroup(t, k);
    FirstPositiveIn(t.groups, k);
  }

  /** The group of a call that returned ok, and where its batch is among the group's operations. */
  lemma BatchInGroup(t: Threads, i: nat) returns (k: nat, o: nat)
    requires Inv(t) && Answers(t) && i < |t.pc| && t.pc[i] == Returned(true) && t.arrived[i].batch.Some?
    ensures k < |t.groups| && t.groups[k].applied && t.arrived[i] in t.groups[k].writers
    ensures var all, ops := WQ.Ops(t.groups[k].writers), t.arrived[i].batch.value;
            o + |ops| <= |all| && all[o..o + |ops|] == ops
  {
    hide WQ.Inv, WQ.WritersOf, WQ.Ops;
    assert Order(t) && i < Gone(t) && Answered(t, i);
    GoneAre(t);
    Inside(t.groups, i);
    k := GroupAt(t.groups, i);
    var x := i - |WQ.WritersOf(t.groups[..k])|;
    assert t.groups[k].writers[x] == t.arrived[i];
    OpsAt(t.groups[k].writers, x);
    o := |WQ.Ops(t.groups[k].writers[..x])|;
  }

  /**
    A call of Write that returned ok has its whole batch in the log and in the memtable, under consecutive
    numbers that readers see, whether it led the group or another thread wrote for it; if it asked for a
    sync, its part of the log is on disk.
   */
  lemma AckedIsWritten(run: seq<Step>, i: nat) returns (sn: nat, m: nat, l: nat)
    requires After(run).Some? && i < |After(run).value.pc| && After(run).value.pc[i] == Returned(true)
    requires After(run).value.arrived[i].batch.Some?
    ensures var t := After(run).value;
            var ops := t.arrived[i].batch.value;
            && 0 < sn && sn + |ops| <= t.lastSequence + 1
            && m + |ops| <= |t.mem| && t.mem[m..m + |ops|] == WQ.Stamp(ops, sn)
            && l + |ops| <= |t.log| && t.log[l..l + |ops|] == WQ.Stamp(ops, sn)
            && (t.arrived[i].sync ==> l + |ops| <= t.durable)
  {
    hide Inv, Answers, Enabled, Apply, WQ.Ops, WQ.Stamp;
    var t := After(run).value;
    var k, o := BatchInGroup(t, i);
    m, l := GroupWritten(t, k);
    var g, n := t.groups[k], |t.arrived[i].batch.value|;
    StampSlice(g.ops, g.first, o, n);
    SubSlice(t.mem, m, |g.ops|, o, n);
    SubSlice(t.log, l, |g.ops|, o, n);
    FirstPositive(t, k);
    sn, m, l := g.first + o, m + o, l + o;
  }
}
