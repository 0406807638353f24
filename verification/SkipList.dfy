/**
  The skip list: nodes in an arena, linked by single pointer writes while readers search.

  Node 0 is the head and also stands for the null pointer, which is safe because no link leads to the
  head.  `levels` is what the links spell out: for each level the nodes on it, in order.
 */
module SkipList {
  import opened Wrappers

  const MAX_HEIGHT: nat := 12

  datatype Nodes = Nodes(keys: seq<int>, next: seq<seq<nat>>)

  type Levels = l: seq<seq<nat>> | |l| == MAX_HEIGHT witness [[], [], [], [], [], [], [], [], [], [], [], []]

  /** The `i`-th node of a chain, or null. */
  function At(c: seq<nat>, i: nat): nat {
    if i < |c| then c[i] else 0
  }

  /** The node before place `i` of a chain: the head at the front. */
  function Before(c: seq<nat>, i: nat): nat
    requires i <= |c|
  {
    if i == 0 then 0 else c[i - 1]
  }

  /** Level `l` links exactly the nodes of `c`, in ascending order of their keys. */
  ghost predicate Chain(n: Nodes, c: seq<nat>, l: nat) {
    && |n.keys| == |n.next| && |n.next| > 0 && |n.next[0]| > l
    && (forall i :: 0 <= i < |c| ==> 0 < c[i] < |n.keys| && |n.next[c[i]]| > l)
    && (forall i, j :: 0 <= i < j < |c| ==> n.keys[c[i]] < n.keys[c[j]])
    && (forall i :: 0 <= i <= |c| ==> n.next[Before(c, i)][l] == At(c, i))
  }

  /** Every level is a sorted chain, and each is part of the one below. */
  ghost predicate Well(n: Nodes, levels: Levels) {
    && (forall l :: 0 <= l < MAX_HEIGHT ==> Chain(n, levels[l], l))
    && (forall k, l, x :: 0 <= k <= l < MAX_HEIGHT && x in levels[l] ==> x in levels[k])
  }

  /** How many nodes of a chain have keys below `target`. */
  ghost function Rank(n: Nodes, c: seq<nat>, target: int): (r: nat)
    requires forall i :: 0 <= i < |c| ==> c[i] < |n.keys|
    ensures r <= |c| && (forall i :: 0 <= i < r ==> n.keys[c[i]] < target)
    ensures r < |c| ==> n.keys[c[r]] >= target
  {
    if c == [] || n.keys[c[0]] >= target then 0 else 1 + Rank(n, c[1..], target)
  }

  /** A node with a smaller key whose successor's key is not smaller stands right before the rank. */
  lemma RankIs(n: Nodes, c: seq<nat>, l: nat, target: int, i: nat)
    requires Chain(n, c, l) && i <= |c|
    requires i > 0 ==> n.keys[c[i - 1]] < target
    requires i < |c| ==> n.keys[c[i]] >= target
    ensures Rank(n, c, target) == i
  {
  }

  lemma PlaceOf(c: seq<nat>, x: nat) returns (i: nat)
    requires x == 0 || x in c
    ensures i <= |c| && Before(c, i) == x
  {
    if x == 0 {
      i := 0;
    } else {
      var k :| 0 <= k < |c| && c[k] == x;
      i := k + 1;
    }
  }

  /* ---- Readers, one pointer read at a time ---- */

  /** A search under way; FindLast searches for no key, that is, for the end. */
  datatype Reader = Reader(x: nat, level: nat, target: Option<int>)

  predicate Precedes(key: int, target: Option<int>) {
    target.Some? ==> key < target.value
  }

  /** How many nodes of a chain precede the target. */
  ghost function Preceding(n: Nodes, c: seq<nat>, target: Option<int>): (r: nat)
    requires forall i :: 0 <= i < |c| ==> c[i] < |n.keys|
    ensures r <= |c|
  {
    if target.Some? then Rank(n, c, target.value) else |c|
  }

  /** The reader stands at the head, or at a node of its level with a smaller key. */
  ghost predicate ReaderOk(n: Nodes, levels: Levels, r: Reader) {
    r.level < MAX_HEIGHT && (r.x == 0 || (r.x in levels[r.level] && r.x < |n.keys| && Precedes(n.keys[r.x], r.target)))
  }

  datatype Moved = Searching(r: Reader) | Found(x: nat, before: nat)

  /** One turn of the loops of FindGreaterOrEqual, FindLessThan and FindLast. */
  function Advance(n: Nodes, r: Reader): Moved
    requires r.x < |n.next| == |n.keys| && r.level < |n.next[r.x]| && n.next[r.x][r.level] < |n.keys|
  {
    var next := n.next[r.x][r.level];
    if next != 0 && Precedes(n.keys[next], r.target) then Searching(r.(x := next))
    else if r.level == 0 then Found(next, r.x)
    else Searching(r.(level := r.level - 1))
  }

  lemma ReaderReads(n: Nodes, levels: Levels, r: Reader) returns (i: nat)
    requires Well(n, levels) && ReaderOk(n, levels, r)
    ensures i <= |levels[r.level]| && Before(levels[r.level], i) == r.x < |n.next| == |n.keys|
    ensures r.level < |n.next[r.x]| && n.next[r.x][r.level] == At(levels[r.level], i) < |n.keys|
  {
    var c := levels[r.level];
    assert Chain(n, c, r.level);
    i := PlaceOf(c, r.x);
  }

  /** A reader's turn keeps it on course, and its answer is right for the nodes on level 0 at that moment. */
  lemma AdvanceIsRight(n: Nodes, levels: Levels, r: Reader)
    requires Well(n, levels) && ReaderOk(n, levels, r)
    ensures r.x < |n.next| == |n.keys| && r.level < |n.next[r.x]| && n.next[r.x][r.level] < |n.keys|
    ensures forall i :: 0 <= i < |levels[0]| ==> levels[0][i] < |n.keys|
    ensures var m := Advance(n, r);
            var rank := Preceding(n, levels[0], r.target);
            && (m.Searching? ==> ReaderOk(n, levels, m.r) && m.r.target == r.target)
            && (m.Found? ==> m.x == At(levels[0], rank) && m.before == Before(levels[0], rank))
  {
    var i := ReaderReads(n, levels, r);
    assert Chain(n, levels[0], 0) && Chain(n, levels[r.level], r.level);
    if Advance(n, r).Found? && r.target.Some? {
      RankIs(n, levels[0], 0, r.target.value, i);
    }
  }

  /* ---- The writer, one pointer write at a time ---- */

  function SetNext(n: Nodes, x: nat, l: nat, to: nat): Nodes
    requires x < |n.next| && l < |n.next[x]|
  {
    var row: seq<nat> := n.next[x];
    var linked: seq<nat> := row[l := to];
    Nodes(n.keys, n.next[x := linked])
  }

  /** A fresh node that nothing links to. */
  function Allocate(n: Nodes, key: int, height: nat): Nodes {
    Nodes(n.keys + [key], n.next + [seq(height, i => 0)])
  }

  ghost function Linked(levels: Levels, l: nat, i: nat, x: nat): Levels
    requires l < MAX_HEIGHT && i <= |levels[l]|
  {
    levels[l := levels[l][..i] + [x] + levels[l][i..]]
  }

  lemma AllocateKeepsWell(n: Nodes, levels: Levels, key: int, height: nat)
    requires Well(n, levels)
    ensures Well(Allocate(n, key, height), levels)
  {
    var m := Allocate(n, key, height);
    forall l | 0 <= l < MAX_HEIGHT ensures Chain(m, levels[l], l) {
      assert Chain(n, levels[l], l);
      var c := levels[l];
      forall i | 0 <= i <= |c| ensures m.next[Before(c, i)][l] == At(c, i) {
        assert m.next[Before(c, i)] == n.next[Before(c, i)];
      }
    }
  }

  /** Writing a link of a node that is not on the level yet shows on no level. */
  lemma SetOwnKeepsWell(n: Nodes, levels: Levels, x: nat, l: nat, to: nat)
    requires Well(n, levels) && 0 < x < |n.next| && l < |n.next[x]| && l < MAX_HEIGHT && x !in levels[l]
    ensures Well(SetNext(n, x, l, to), levels)
  {
    var m := SetNext(n, x, l, to);
    forall k | 0 <= k < MAX_HEIGHT ensures Chain(m, levels[k], k) {
      assert Chain(n, levels[k], k);
      var c := levels[k];
      forall i | 0 <= i <= |c| ensures m.next[Before(c, i)][k] == At(c, i) {
        assert n.next[Before(c, i)][k] == At(c, i);
      }
    }
  }

  /** What must hold to link `x` into level `l` behind place `i`. */
  ghost predicate CanLink(n: Nodes, levels: Levels, x: nat, l: nat, i: nat) {
    && 0 < x < |n.keys| == |n.next| && l < MAX_HEIGHT && l < |n.next[x]| && x !in levels[l] && i <= |levels[l]|
    && (forall k :: 0 <= k < |levels[l]| ==> levels[l][k] < |n.keys|)
    && (i > 0 ==> n.keys[levels[l][i - 1]] < n.keys[x])
    && (i < |levels[l]| ==> n.keys[x] < n.keys[levels[l][i]])
    && (forall k :: 0 <= k < l ==> x in levels[k])
  }

  lemma PublishKeepsChain(n: Nodes, levels: Levels, x: nat, l: nat, i: nat, m: Nodes)
    requires Well(n, levels) && CanLink(n, levels, x, l, i) && n.next[x][l] == At(levels[l], i)
    requires Before(levels[l], i) < |n.next| && l < |n.next[Before(levels[l], i)]|
    requires m == SetNext(n, Before(levels[l], i), l, x)
    ensures Chain(m, levels[l][..i] + [x] + levels[l][i..], l)
  {
    var c := levels[l];
    assert Chain(n, c, l);
    LinkedNodes(n, c, l, x, i, m);
    hide At, Before, SetNext, Well;
    var d := c[..i] + [x] + c[i..];
    forall a, b | 0 <= a < b < |d| ensures n.keys[d[a]] < n.keys[d[b]] {
      OrderAround(n, c, l, x, i, a, b);
    }
    forall k | 0 <= k <= |d| ensures m.next[Before(d, k)][l] == At(d, k) {
      LinkAround(n, c, l, x, i, m, k);
    }
  }

  lemma LinkedNodes(n: Nodes, c: seq<nat>, l: nat, x: nat, i: nat, m: Nodes)
    requires Chain(n, c, l) && 0 < x < |n.next| && l < |n.next[x]| && i <= |c|
    requires Before(c, i) < |n.next| && l < |n.next[Before(c, i)]| && m == SetNext(n, Before(c, i), l, x)
    ensures |m.keys| == |m.next| > 0 && m.keys == n.keys && |m.next[0]| > l
    ensures var d := c[..i] + [x] + c[i..]; forall k :: 0 <= k < |d| ==> 0 < d[k] < |m.keys| && |m.next[d[k]]| > l
  {
  }

  lemma OrderAround(n: Nodes, c: seq<nat>, l: nat, x: nat, i: nat, a: nat, b: nat)
    requires Chain(n, c, l) && x < |n.keys| && i <= |c|
    requires (i > 0 ==> n.keys[c[i - 1]] < n.keys[x]) && (i < |c| ==> n.keys[x] < n.keys[c[i]])
    requires a < b <= |c|
    ensures var d := c[..i] + [x] + c[i..]; d[a] < |n.keys| && d[b] < |n.keys| && n.keys[d[a]] < n.keys[d[b]]
  {
    assert a < i - 1 ==> n.keys[c[a]] < n.keys[c[i - 1]];
    assert b > i + 1 ==> n.keys[c[i]] < n.keys[c[b - 1]];
  }

  lemma LinkAround(n: Nodes, c: seq<nat>, l: nat, x: nat, i: nat, m: Nodes, k: nat)
    requires Chain(n, c, l) && 0 < x < |n.next| && l < |n.next[x]| && x !in c && i <= |c| && k <= |c| + 1
    requires n.next[x][l] == At(c, i) && m == SetNext(n, Before(c, i), l, x)
    ensures var d := c[..i] + [x] + c[i..];
            Before(d, k) < |m.next| && l < |m.next[Before(d, k)]| && m.next[Before(d, k)][l] == At(d, k)
  {
    var d := c[..i] + [x] + c[i..];
    if k <= i {
      assert Before(d, k) == Before(c, k) && (k < i ==> At(d, k) == At(c, k));
      assert n.next[Before(c, k)][l] == At(c, k);
      DistinctPlaces(n, c, l, k, i);
    } else if k == i + 1 {
      assert Before(d, k) == x && At(d, k) == At(c, i);
    } else {
      assert Before(d, k) == Before(c, k - 1) && At(d, k) == At(c, k - 1);
      assert n.next[Before(c, k - 1)][l] == At(c, k - 1);
      DistinctPlaces(n, c, l, k - 1, i);
    }
  }

  lemma DistinctPlaces(n: Nodes, c: seq<nat>, l: nat, a: nat, b: nat)
    requires Chain(n, c, l) && a <= |c| && b <= |c|
    ensures Before(c, a) == Before(c, b) <==> a == b
  {
    if a < b {
      assert a > 0 ==> n.keys[c[a - 1]] < n.keys[c[b - 1]];
    } else if b < a {
      assert b > 0 ==> n.keys[c[b - 1]] < n.keys[c[a - 1]];
    }
  }

  /** The one write that makes `x` part of level `l`. */
  lemma PublishKeepsWell(n: Nodes, levels: Levels, x: nat, l: nat, i: nat)
    requires Well(n, levels) && CanLink(n, levels, x, l, i) && n.next[x][l] == At(levels[l], i)
    ensures Before(levels[l], i) < |n.next| && l < |n.next[Before(levels[l], i)]|
    ensures Well(SetNext(n, Before(levels[l], i), l, x), Linked(levels, l, i, x))
  {
    assert Chain(n, levels[l], l);
    var p := Before(levels[l], i);
    var m := SetNext(n, p, l, x);
    PublishKeepsChain(n, levels, x, l, i, m);
    LinkedMembers(levels, l, i, x);
    hide Before, At, SetNext, Chain;
    forall k | 0 <= k < MAX_HEIGHT && k != l ensures Chain(m, levels[k], k) {
      OtherLevel(n, levels[k], k, p, l, x);
    }
  }

  lemma LinkedMembers(levels: Levels, l: nat, i: nat, x: nat)
    requires l < MAX_HEIGHT && i <= |levels[l]|
    ensures forall k, y :: 0 <= k < MAX_HEIGHT ==> (y in Linked(levels, l, i, x)[k] <==> y in levels[k] || (k == l && y == x))
  {
    assert levels[l] == levels[l][..i] + levels[l][i..];
  }

  /** A write on one level leaves the other levels alone. */
  lemma OtherLevel(n: Nodes, c: seq<nat>, k: nat, p: nat, l: nat, x: nat)
    requires Chain(n, c, k) && k != l && p < |n.next| && l < |n.next[p]|
    ensures Chain(SetNext(n, p, l, x), c, k)
  {
    var m := SetNext(n, p, l, x);
    forall j | 0 <= j <= |c| ensures m.next[Before(c, j)][k] == At(c, j) {
      assert n.next[Before(c, j)][k] == At(c, j);
    }
  }

  /** Writers only ever add to a level, so a reader on its way stays on course. */
  lemma ReaderUndisturbed(n: Nodes, levels: Levels, m: Nodes, more: Levels, r: Reader)
    requires ReaderOk(n, levels, r) && n.keys <= m.keys
    requires forall l, x :: 0 <= l < MAX_HEIGHT && x in levels[l] ==> x in more[l]
    ensures ReaderOk(m, more, r)
  {
    assert r.x < |n.keys| ==> m.keys[r.x] == n.keys[r.x];
  }

  /* ---- An insertion under way ---- */

  /** Node `x` is linked into the levels below `done`; `own` says whether its next link is already written. */
  datatype Insertion = Insertion(x: nat, height: nat, prev: seq<nat>, done: nat, own: bool)

  ghost predicate Bounded(n: Nodes, levels: Levels) {
    forall l, i :: 0 <= l < MAX_HEIGHT && 0 <= i < |levels[l]| ==> levels[l][i] < |n.keys|
  }

  ghost predicate InsertionOk(n: Nodes, levels: Levels, w: Insertion) {
    && Bounded(n, levels)
    && 0 < w.x < |n.keys| == |n.next| && |n.next[w.x]| == w.height == |w.prev| <= MAX_HEIGHT && w.done < w.height
    && (forall l :: 0 <= l < w.done ==> w.x in levels[l])
    && (forall l :: w.done <= l < MAX_HEIGHT ==> w.x !in levels[l] && KeyAbsent(n, levels[l], n.keys[w.x]))
    && (forall l :: w.done <= l < w.height ==> w.prev[l] == Before(levels[l], Rank(n, levels[l], n.keys[w.x])))
    && (w.own ==> n.next[w.x][w.done] == At(levels[w.done], Rank(n, levels[w.done], n.keys[w.x])))
  }

  ghost predicate KeyAbsent(n: Nodes, c: seq<nat>, key: int) {
    forall y :: y in c ==> y < |n.keys| && n.keys[y] != key
  }

  /** The write of the node's own link. */
  function WriteOwn(n: Nodes, w: Insertion): Nodes
    requires w.x < |n.next| && w.done < |n.next[w.x]| && w.done < |w.prev| && w.prev[w.done] < |n.next|
    requires w.done < |n.next[w.prev[w.done]]|
  {
    SetNext(n, w.x, w.done, n.next[w.prev[w.done]][w.done])
  }

  lemma WriteOwnKeeps(n: Nodes, levels: Levels, w: Insertion)
    requires Well(n, levels) && InsertionOk(n, levels, w) && !w.own
    ensures w.prev[w.done] < |n.next| && w.done < |n.next[w.prev[w.done]]|
    ensures Well(WriteOwn(n, w), levels) && InsertionOk(WriteOwn(n, w), levels, w.(own := true))
  {
    var l := w.done;
    var c := levels[l];
    assert Chain(n, c, l);
    var r := Rank(n, c, n.keys[w.x]);
    assert n.next[Before(c, r)][l] == At(c, r);
    SetOwnKeepsWell(n, levels, w.x, l, At(c, r));
    SameRanks(n, WriteOwn(n, w), levels, n.keys[w.x]);
  }

  lemma SameRanks(n: Nodes, m: Nodes, levels: Levels, key: int)
    requires Bounded(n, levels) && m.keys == n.keys
    ensures forall l :: 0 <= l < MAX_HEIGHT ==> Rank(m, levels[l], key) == Rank(n, levels[l], key)
  {
    forall l | 0 <= l < MAX_HEIGHT ensures Rank(m, levels[l], key) == Rank(n, levels[l], key) {
      SameRank(n, m, levels[l], key);
    }
  }

  lemma {:induction false} SameRank(n: Nodes, m: Nodes, c: seq<nat>, key: int)
    requires m.keys == n.keys && forall i :: 0 <= i < |c| ==> c[i] < |n.keys|
    ensures Rank(m, c, key) == Rank(n, c, key)
  {
    if c != [] {
      SameRank(n, m, c[1..], key);
    }
  }

  /** The levels once the insertion has published its node one level further up. */
  ghost function Published(n: Nodes, levels: Levels, w: Insertion): Levels
    requires InsertionOk(n, levels, w)
  {
    Linked(levels, w.done, Rank(n, levels[w.done], n.keys[w.x]), w.x)
  }

  lemma PublishKeeps(n: Nodes, levels: Levels, w: Insertion)
    requires Well(n, levels) && InsertionOk(n, levels, w) && w.own
    ensures w.prev[w.done] < |n.next| && w.done < |n.next[w.prev[w.done]]|
    ensures var m := SetNext(n, w.prev[w.done], w.done, w.x);
            var more := Published(n, levels, w);
            && Well(m, more) && m.keys == n.keys
            && (forall k, y :: 0 <= k < MAX_HEIGHT && y in levels[k] ==> y in more[k])
            && (w.done + 1 < w.height ==> InsertionOk(m, more, w.(done := w.done + 1, own := false)))
  {
    var l := w.done;
    var c := levels[l];
    var r := Rank(n, c, n.keys[w.x]);
    PlaceFits(n, levels, w);
    PublishKeepsWell(n, levels, w.x, l, r);
    var m := SetNext(n, w.prev[l], l, w.x);
    LinkedMembers(levels, l, r, w.x);
    SameRanks(n, m, levels, n.keys[w.x]);
    if l + 1 < w.height {
      NextLevelOk(n, levels, w, m, r);
    }
  }

  lemma PlaceFits(n: Nodes, levels: Levels, w: Insertion)
    requires Well(n, levels) && InsertionOk(n, levels, w)
    ensures CanLink(n, levels, w.x, w.done, Rank(n, levels[w.done], n.keys[w.x]))
  {
    var c := levels[w.done];
    var r := Rank(n, c, n.keys[w.x]);
    if r < |c| {
      assert c[r] in c;
    }
  }

  lemma NextLevelOk(n: Nodes, levels: Levels, w: Insertion, m: Nodes, r: nat)
    requires InsertionOk(n, levels, w) && w.done + 1 < w.height && r <= |levels[w.done]|
    requires w.prev[w.done] < |n.next| && w.done < |n.next[w.prev[w.done]]| && m == SetNext(n, w.prev[w.done], w.done, w.x)
    requires forall l :: 0 <= l < MAX_HEIGHT ==> Rank(m, levels[l], n.keys[w.x]) == Rank(n, levels[l], n.keys[w.x])
    ensures InsertionOk(m, Linked(levels, w.done, r, w.x), w.(done := w.done + 1, own := false))
  {
    LinkedMembers(levels, w.done, r, w.x);
  }

  /* ---- Readers and the writer interleaved ---- */

  /** One writer and any number of readers, each searching or through with an answer. */
  datatype System = System(n: Nodes, levels: Levels, writing: Option<Insertion>, readers: seq<Moved>)

  datatype Step =
    | BeginInsert(key: int, height: nat)
    | WriteOwnLink
    | Publish
    | BeginSearch(target: Option<int>, level: nat)   // a stale height is as good as the current one
    | ReadLink(i: nat)

  ghost predicate SystemOk(s: System) {
    && Well(s.n, s.levels)
    && (s.writing.Some? ==> InsertionOk(s.n, s.levels, s.writing.value))
    && (forall i :: 0 <= i < |s.readers| && s.readers[i].Searching? ==> ReaderOk(s.n, s.levels, s.readers[i].r))
  }

  ghost predicate Enabled(s: System, step: Step) {
    match step
    case BeginInsert(key, height) => s.writing.None? && 0 < height <= MAX_HEIGHT && KeyAbsent(s.n, s.levels[0], key)
    case WriteOwnLink => s.writing.Some? && !s.writing.value.own
    case Publish => s.writing.Some? && s.writing.value.own
    case BeginSearch(target, level) => level < MAX_HEIGHT
    case ReadLink(i) => i < |s.readers| && s.readers[i].Searching?
  }

  ghost function Apply(s: System, step: Step): System
    requires SystemOk(s) && Enabled(s, step)
  {
    match step
    case BeginInsert(key, height) =>
      WellIsBounded(s.n, s.levels);
      var prev := seq(height, l requires 0 <= l < height => Before(s.levels[l], Rank(s.n, s.levels[l], key)));
      s.(n := Allocate(s.n, key, height), writing := Some(Insertion(|s.n.keys|, height, prev, 0, false)))
    case WriteOwnLink =>
      WriteOwnKeeps(s.n, s.levels, s.writing.value);
      s.(n := WriteOwn(s.n, s.writing.value), writing := Some(s.writing.value.(own := true)))
    case Publish =>
      var w := s.writing.value;
      PublishKeeps(s.n, s.levels, w);
      s.(n := SetNext(s.n, w.prev[w.done], w.done, w.x), levels := Published(s.n, s.levels, w),
         writing := if w.done + 1 < w.height then Some(w.(done := w.done + 1, own := false)) else None)
    case BeginSearch(target, level) => s.(readers := s.readers + [Searching(Reader(0, level, target))])
    case ReadLink(i) =>
      AdvanceIsRight(s.n, s.levels, s.readers[i].r);
      s.(readers := s.readers[i := Advance(s.n, s.readers[i].r)])
  }

  lemma WellIsBounded(n: Nodes, levels: Levels)
    requires Well(n, levels)
    ensures Bounded(n, levels) && |n.keys| == |n.next| > 0
  {
    assert Chain(n, levels[0], 0);
    forall l | 0 <= l < MAX_HEIGHT ensures forall i :: 0 <= i < |levels[l]| ==> levels[l][i] < |n.keys| {
      assert Chain(n, levels[l], l);
    }
  }

  lemma {:induction false} RankInLarger(n: Nodes, m: Nodes, c: seq<nat>, key: int)
    requires n.keys <= m.keys && forall i :: 0 <= i < |c| ==> c[i] < |n.keys|
    ensures Rank(m, c, key) == Rank(n, c, key)
  {
    if c != [] {
      RankInLarger(n, m, c[1..], key);
    }
  }

  lemma BeginInsertOk(s: System, key: int, height: nat)
    requires SystemOk(s) && Enabled(s, BeginInsert(key, height))
    ensures SystemOk(Apply(s, BeginInsert(key, height)))
  {
    var t := Apply(s, BeginInsert(key, height));
    WellIsBounded(s.n, s.levels);
    AllocateKeepsWell(s.n, s.levels, key, height);
    forall l | 0 <= l < MAX_HEIGHT
      ensures Rank(t.n, s.levels[l], key) == Rank(s.n, s.levels[l], key) && |s.n.keys| !in s.levels[l] && KeyAbsent(t.n, s.levels[l], key)
    {
      RankInLarger(s.n, t.n, s.levels[l], key);
      forall y | y in s.levels[l] ensures y < |s.n.keys| && t.n.keys[y] != key {
        assert y in s.levels[0];
      }
    }
    ReadersUndisturbed(s, t);
  }

  /** What the writer does leaves every reader on course. */
  lemma ReadersUndisturbed(s: System, t: System)
    requires SystemOk(s) && s.n.keys <= t.n.keys && t.readers == s.readers
    requires forall l, x :: 0 <= l < MAX_HEIGHT && x in s.levels[l] ==> x in t.levels[l]
    ensures forall i :: 0 <= i < |t.readers| && t.readers[i].Searching? ==> ReaderOk(t.n, t.levels, t.readers[i].r)
  {
    forall i | 0 <= i < |t.readers| && t.readers[i].Searching? ensures ReaderOk(t.n, t.levels, t.readers[i].r) {
      ReaderUndisturbed(s.n, s.levels, t.n, t.levels, s.readers[i].r);
    }
  }

  lemma StepKeepsOk(s: System, step: Step)
    requires SystemOk(s) && Enabled(s, step)
    ensures SystemOk(Apply(s, step))
  {
    hide Well, InsertionOk, ReaderOk, Chain;
    var t := Apply(s, step);
    match step {
      case BeginInsert(key, height) =>
        BeginInsertOk(s, key, height);
      case WriteOwnLink =>
        WriteOwnKeeps(s.n, s.levels, s.writing.value);
        ReadersUndisturbed(s, t);
      case Publish =>
        PublishKeeps(s.n, s.levels, s.writing.value);
        ReadersUndisturbed(s, t);
      case BeginSearch(target, level) =>
        HeadIsOk(s.n, s.levels, target, level);
      case ReadLink(i) =>
        AdvanceIsRight(s.n, s.levels, s.readers[i].r);
    }
  }

  lemma HeadIsOk(n: Nodes, levels: Levels, target: Option<int>, level: nat)
    requires level < MAX_HEIGHT
    ensures ReaderOk(n, levels, Reader(0, level, target))
  {
  }

  function EmptyList(): Nodes {
    Nodes([0], [seq(MAX_HEIGHT, l => 0)])
  }

  function NoLevels(): Levels {
    [[], [], [], [], [], [], [], [], [], [], [], []]
  }

  lemma EmptyIsWell()
    ensures Well(EmptyList(), NoLevels())
  {
  }

  /** The state after any interleaving of pointer writes and pointer reads. */
  ghost function After(run: seq<Step>): (r: Option<System>)
    ensures r.Some? ==> SystemOk(r.value)
  {
    if run == [] then
      EmptyIsWell();
      Some(System(EmptyList(), NoLevels(), None, []))
    else
      var n := |run| - 1;
      var before := After(run[..n]);
      if before.Some? && Enabled(before.value, run[n]) then
        StepKeepsOk(before.value, run[n]);
        Some(Apply(before.value, run[n]))
      else None
  }

  /**
    A search that runs while nodes are being linked ends with the right answer for what level 0 holds when
    it reads its last link: the first node at or after the target, and the last one before it; for
    FindLast, null and the last node.
   */
  lemma ConcurrentSearch(run: seq<Step>, i: nat)
    requires After(run).Some? && Enabled(After(run).value, ReadLink(i))
    ensures var s := After(run).value;
            var m := Apply(s, ReadLink(i)).readers[i];
            && Bounded(s.n, s.levels)
            && (m.Found? ==>
                 var rank := Preceding(s.n, s.levels[0], s.readers[i].r.target);
                 m == Found(At(s.levels[0], rank), Before(s.levels[0], rank)))
  {
    var s := After(run).value;
    AdvanceIsRight(s.n, s.levels, s.readers[i].r);
    WellIsBounded(s.n, s.levels);
  }

  /* ---- How long a search takes ---- */

  /** How many nodes of level 0 a reader has reached or passed: none at the head. */
  ghost function Reached(n: Nodes, levels: Levels, x: nat): (r: nat)
    requires Bounded(n, levels) && x < |n.keys|
  {
    if x == 0 then 0 else 1 + Rank(n, levels[0], n.keys[x])
  }

  lemma ReachedWithin(n: Nodes, levels: Levels, x: nat)
    requires Well(n, levels) && Bounded(n, levels) && x < |n.keys| && (x == 0 || x in levels[0])
    ensures Reached(n, levels, x) <= |levels[0]|
  {
    if x != 0 {
      var i := PlaceOf(levels[0], x);
      assert Chain(n, levels[0], 0);
      assert n.keys[levels[0][i - 1]] == n.keys[x];
    }
  }

  /** Each read of a link lowers the pair of the level and the number of nodes that lie ahead, or is the last. */
  lemma ReadLowers(n: Nodes, levels: Levels, r: Reader)
    requires Well(n, levels) && Bounded(n, levels) && ReaderOk(n, levels, r)
    requires r.x < |n.next| == |n.keys| && r.level < |n.next[r.x]| && n.next[r.x][r.level] < |n.keys|
    ensures var m := Advance(n, r);
            m.Searching? ==>
              && m.r.x < |n.keys| && Reached(n, levels, r.x) <= Reached(n, levels, m.r.x) <= |levels[0]|
              && ((m.r.level < r.level && m.r.x == r.x)
                  || (m.r.level == r.level && Reached(n, levels, r.x) < Reached(n, levels, m.r.x)))
  {
    var m := Advance(n, r);
    var i := ReaderReads(n, levels, r);
    assert Chain(n, levels[r.level], r.level) && Chain(n, levels[0], 0);
    if m.Searching? {
      AdvanceIsRight(n, levels, r);
      assert m.r.x == 0 || m.r.x in levels[0];
      ReachedWithin(n, levels, m.r.x);
      if m.r.x != r.x && r.x != 0 {
        assert n.keys[levels[r.level][i - 1]] < n.keys[levels[r.level][i]];
        var k := PlaceOf(levels[0], r.x);
        assert forall j :: 0 <= j < k ==> n.keys[levels[0][j]] <= n.keys[levels[0][k - 1]];
      }
    }
  }

  lemma RankGrows(n: Nodes, c: seq<nat>, y: nat, i: nat, key: int)
    requires (forall k :: 0 <= k < |c| ==> c[k] < |n.keys|) && y < |n.keys| && i <= |c|
    requires i < |c| ==> n.keys[y] < n.keys[c[i]]
    ensures var d := c[..i] + [y] + c[i..];
            (forall k :: 0 <= k < |d| ==> d[k] < |n.keys|) && Rank(n, d, key) >= Rank(n, c, key)
  {
    var d := c[..i] + [y] + c[i..];
    var r := Rank(n, c, key);
    forall k | 0 <= k < r ensures n.keys[d[k]] < key {
      if k < i {
        assert d[k] == c[k];
      } else if k == i {
        assert n.keys[c[i]] < key;
      } else {
        assert d[k] == c[k - 1];
      }
    }
  }

  /** Linking a node into level 0 takes no reader back. */
  lemma ReachedGrows(n: Nodes, levels: Levels, m: Nodes, w: Insertion, x: nat)
    requires InsertionOk(n, levels, w) && Well(n, levels) && m.keys == n.keys
    requires Bounded(m, Published(n, levels, w)) && x < |n.keys|
    ensures Reached(m, Published(n, levels, w), x) >= Reached(n, levels, x)
    ensures |Published(n, levels, w)[0]| >= |levels[0]|
  {
    PlaceFits(n, levels, w);
    hide Well, InsertionOk, Rank;
    var more := Published(n, levels, w)[0];
    if w.done == 0 {
      RankGrows(n, levels[0], w.x, Rank(n, levels[0], n.keys[w.x]), n.keys[x]);
    }
    SameRank(n, m, more, n.keys[x]);
  }

  function CountReads(run: seq<Step>, i: nat): nat {
    if run == [] then 0
    else CountReads(run[..|run| - 1], i) + if run[|run| - 1] == ReadLink(i) then 1 else 0
  }

  /** A reader has paid one read for each level it has left and each node it has reached. */
  ghost predicate Paid(s: System, i: nat, spent: nat)
    requires SystemOk(s) && Bounded(s.n, s.levels) && i < |s.readers|
  {
    match s.readers[i]
    case Searching(r) => r.x < |s.n.keys| && spent + r.level + 1 <= MAX_HEIGHT + Reached(s.n, s.levels, r.x)
    case Found(x, before) => spent <= MAX_HEIGHT + |s.levels[0]|
  }

  lemma StepKeepsPaid(s: System, step: Step, i: nat, spent: nat)
    requires SystemOk(s) && Bounded(s.n, s.levels) && Enabled(s, step) && i < |s.readers| && Paid(s, i, spent)
    ensures SystemOk(Apply(s, step)) && Bounded(Apply(s, step).n, Apply(s, step).levels)
    ensures Paid(Apply(s, step), i, if step == ReadLink(i) then spent + 1 else spent)
  {
    StepKeepsOk(s, step);
    var t := Apply(s, step);
    WellIsBounded(t.n, t.levels);
    match step
    case BeginInsert(key, height) => if s.readers[i].Searching? { SameReached(s, t, s.readers[i].r.x); }
    case WriteOwnLink => if s.readers[i].Searching? { SameReached(s, t, s.readers[i].r.x); }
    case Publish =>
      PublishKeeps(s.n, s.levels, s.writing.value);
      var x := if s.readers[i].Searching? then s.readers[i].r.x else 0;
      ReachedGrows(s.n, s.levels, t.n, s.writing.value, x);
    case BeginSearch(target, level) =>
    case ReadLink(j) =>
      AdvanceIsRight(s.n, s.levels, s.readers[j].r);
      ReadLowers(s.n, s.levels, s.readers[j].r);
      if i == j { LastRead(s.n, s.levels, s.readers[j].r); }
  }

  lemma LastRead(n: Nodes, levels: Levels, r: Reader)
    requires Well(n, levels) && Bounded(n, levels) && ReaderOk(n, levels, r)
    ensures r.x < |n.keys| && Reached(n, levels, r.x) <= |levels[0]|
  {
    var i := ReaderReads(n, levels, r);
    assert r.x != 0 ==> r.x in levels[0];
    ReachedWithin(n, levels, r.x);
  }

  lemma SameReached(s: System, t: System, x: nat)
    requires SystemOk(s) && Bounded(s.n, s.levels) && Bounded(t.n, t.levels) && x < |s.n.keys|
    requires s.n.keys <= t.n.keys && t.levels == s.levels
    ensures Reached(t.n, t.levels, x) == Reached(s.n, s.levels, x)
  {
    RankInLarger(s.n, t.n, s.levels[0], s.n.keys[x]);
  }

  /**
    However the writes fall between its reads, a search that is through has read at most as many links as
    there are levels and nodes, and one under way has fewer left than the pair of ReadLowers allows.
   */
  lemma SearchEnds(run: seq<Step>, i: nat)
    requires After(run).Some? && i < |After(run).value.readers|
    ensures var s := After(run).value;
            && Bounded(s.n, s.levels) && Paid(s, i, CountReads(run, i))
            && CountReads(run, i) <= MAX_HEIGHT + |s.levels[0]|
  {
    hide SystemOk, Paid, Enabled, Apply;
    SearchPaid(run, i);
    PaidBound(After(run).value, i, CountReads(run, i));
  }

  lemma PaidBound(s: System, i: nat, spent: nat)
    requires SystemOk(s) && Bounded(s.n, s.levels) && i < |s.readers| && Paid(s, i, spent)
    ensures spent <= MAX_HEIGHT + |s.levels[0]|
  {
    if s.readers[i].Searching? { LastRead(s.n, s.levels, s.readers[i].r); }
  }

  lemma {:induction false} NoReadsBefore(run: seq<Step>, i: nat)
    requires After(run).Some? && i >= |After(run).value.readers|
    ensures CountReads(run, i) == 0
  {
    hide SystemOk;
    if run != [] {
      NoReadsBefore(run[..|run| - 1], i);
    }
  }

  lemma {:induction false} SearchPaid(run: seq<Step>, i: nat)
    requires After(run).Some? && i < |After(run).value.readers|
    ensures var s := After(run).value; Bounded(s.n, s.levels) && Paid(s, i, CountReads(run, i))
  {
    hide SystemOk, Paid, Well, Apply;
    var n := |run| - 1;
    var before := After(run[..n]).value;
    AlwaysWell(run[..n]);
    AlwaysWell(run);
    WellIsBounded(before.n, before.levels);
    if i < |before.readers| {
      SearchPaid(run[..n], i);
      StepKeepsPaid(before, run[n], i, CountReads(run[..n], i));
    } else {
      NoReadsBefore(run[..n], i);
      NewReader(before, run[n], i);
      WellIsBounded(After(run).value.n, After(run).value.levels);
      FirstPaid(After(run).value, i);
    }
  }

  lemma NewReader(s: System, step: Step, i: nat)
    requires SystemOk(s) && Enabled(s, step) && |s.readers| <= i < |Apply(s, step).readers|
    ensures var t := Apply(s, step);
            t.readers[i].Searching? && t.readers[i].r.x == 0 && t.readers[i].r.level < MAX_HEIGHT && step != ReadLink(i)
  {
    hide Well, InsertionOk, ReaderOk;
  }

  lemma FirstPaid(s: System, i: nat)
    requires SystemOk(s) && Bounded(s.n, s.levels) && i < |s.readers| && |s.n.keys| > 0
    requires s.readers[i].Searching? && s.readers[i].r.x == 0 && s.readers[i].r.level < MAX_HEIGHT
    ensures Paid(s, i, 0)
  {
  }

  /** After every single pointer write each level is a sorted chain and part of the one below. */
  lemma AlwaysWell(run: seq<Step>)
    requires After(run).Some?
    ensures Well(After(run).value.n, After(run).value.levels)
  {
  }

  /* ---- The list without concurrency ---- */

  ghost function KeysOf(n: Nodes, c: seq<nat>): (r: seq<int>)
    requires forall i :: 0 <= i < |c| ==> c[i] < |n.keys|
    ensures |r| == |c| && forall i :: 0 <= i < |c| ==> r[i] == n.keys[c[i]]
  {
    seq(|c|, i requires 0 <= i < |c| => n.keys[c[i]])
  }

  class SkipList {
    var n: Nodes
    var maxHeight: nat
    ghost var levels: Levels

    ghost predicate Valid()
      reads this
    {
      && Well(n, levels) && Bounded(n, levels) && 0 < maxHeight <= MAX_HEIGHT
      && forall l :: maxHeight <= l < MAX_HEIGHT ==> levels[l] == []
    }

    /** The keys in ascending order. */
    ghost function Keys(): seq<int>
      requires Valid()
      reads this
    {
      KeysOf(n, levels[0])
    }

    constructor ()
      ensures Valid() && Keys() == []
    {
      hide Well;
      n, maxHeight, levels := EmptyList(), 1, NoLevels();
      new;
      EmptyIsWell();
      NothingListed();
    }

    /** The first node at or after `target`, and for each level in use the last node before it. */
    method FindGreaterOrEqual(target: int) returns (x: nat, prev: seq<nat>)
      requires Valid()
      ensures x == At(levels[0], Rank(n, levels[0], target)) && |prev| == maxHeight
      ensures forall l :: 0 <= l < maxHeight ==> prev[l] == Before(levels[l], Rank(n, levels[l], target))
    {
      hide Well, Chain, ReaderOk, Rank, At, Before;
      var at := 0;
      Starts(n, levels, maxHeight - 1, target);
      var level := maxHeight - 1;
      prev := seq(maxHeight, l => 0);
      ghost var i: nat := 0;
      while true
        invariant 0 <= level < maxHeight && |prev| == maxHeight && ReaderOk(n, levels, Reader(at, level, Some(target)))
        invariant i <= |levels[level]| && Before(levels[level], i) == at
        invariant forall l :: level < l < maxHeight ==> prev[l] == Before(levels[l], Rank(n, levels[l], target))
        decreases level, |levels[level]| - i
      {
        LinkRead(n, levels, at, level, target, i);
        var next := n.next[at][level];
        if next != 0 && n.keys[next] < target {
          at := next;
          i := i + 1;
        } else {
          prev := prev[level := at];
          if level == 0 {
            return next, prev;
          }
          level := level - 1;
          i := Descend(n, levels, Reader(at, level, Some(target)));
        }
      }
    }

    /** The last node before `target`, or the head. */
    method FindLessThan(target: int) returns (x: nat)
      requires Valid()
      ensures x == Before(levels[0], Rank(n, levels[0], target))
    {
      x := 0;
      var level := maxHeight - 1;
      ghost var i: nat := 0;
      while true
        invariant 0 <= level < maxHeight && ReaderOk(n, levels, Reader(x, level, Some(target)))
        invariant i <= |levels[level]| && Before(levels[level], i) == x
        decreases level, |levels[level]| - i
      {
        LinkRead(n, levels, x, level, target, i);
        var next := n.next[x][level];
        if next == 0 || n.keys[next] >= target {
          if level == 0 {
            return;
          }
          level := level - 1;
          i := PlaceOf(levels[level], x);
        } else {
          x := next;
          i := i + 1;
        }
      }
    }

    /** The last node of the list, or the head. */
    method FindLast() returns (x: nat)
      requires Valid()
      ensures x == Before(levels[0], |levels[0]|)
    {
      x := 0;
      var level := maxHeight - 1;
      ghost var i: nat := 0;
      while true
        invariant 0 <= level < maxHeight && i <= |levels[level]| && Before(levels[level], i) == x
        decreases level, |levels[level]| - i
      {
        assert Chain(n, levels[level], level);
        var next := n.next[x][level];
        if next == 0 {
          if level == 0 {
            return;
          }
          level := level - 1;
          i := PlaceOf(levels[level], x);
        } else {
          x := next;
          i := i + 1;
        }
      }
    }

    method Contains(key: int) returns (found: bool)
      requires Valid()
      ensures found <==> key in Keys()
    {
      var x, prev := FindGreaterOrEqual(key);
      found := x != 0 && n.keys[x] == key;
      assert Chain(n, levels[0], 0);
      FoundOrAbsent(n, levels[0], key);
    }

    /** The two writes that link the node into one level. */
    method LinkLevel(ghost w: Insertion, x: nat, prev: nat, l: nat)
      requires Well(n, levels) && InsertionOk(n, levels, w) && !w.own
      requires x == w.x && l == w.done && prev == w.prev[l]
      modifies this`n, this`levels
      ensures Well(n, levels) && Bounded(n, levels) && n.keys == old(n).keys
      ensures levels == Published(old(n), old(levels), w)
      ensures l + 1 < w.height ==> InsertionOk(n, levels, w.(done := l + 1, own := false))
    {
      hide Well, Published, Chain;
      WriteOwnKeeps(n, levels, w);
      SamePublished(n, levels, w);
      n := SetNext(n, x, l, n.next[prev][l]);
      ghost var own := w.(own := true);
      PublishKeeps(n, levels, own);
      ghost var more := Published(n, levels, own);
      n := SetNext(n, prev, l, x);
      levels := more;
      WellIsBounded(n, levels);
    }

    method Insert(key: int, height: nat)
      requires Valid() && key !in Keys() && 0 < height <= MAX_HEIGHT
      modifies this
      ensures Valid()
      ensures var r := Rank(old(n), old(levels)[0], key);
              Keys() == old(Keys())[..r] + [key] + old(Keys())[r..]
    {
      hide Well, Chain, Published, InsertionOk, Rank, Before;
      var found, prev := FindGreaterOrEqual(key);
      if height > maxHeight {
        EmptyRanks(n, levels, maxHeight, key);
        prev := prev + seq(height - maxHeight, l => 0);
        maxHeight := height;
      }
      ghost var before, chains, r := n, levels, Rank(n, levels[0], key);
      KeysAbsent(n, levels, key);
      var x := |n.keys|;
      n := Allocate(n, key, height);
      ghost var w, top := Insertion(x, height, prev[..height], 0, false), maxHeight;
      BeginOk(before, chains, key, w);
      for i := 0 to height
        invariant Well(n, levels) && Bounded(n, levels) && n.keys == before.keys + [key] && maxHeight == top
        invariant w.prev == prev[..height] && w.x == x && w.done == i && w.height == height && !w.own
        invariant i < height ==> InsertionOk(n, levels, w)
        invariant levels[0] == if i == 0 then chains[0] else chains[0][..r] + [x] + chains[0][r..]
        invariant forall l :: maxHeight <= l < MAX_HEIGHT ==> levels[l] == []
        invariant i == 0 ==> Rank(n, levels[0], key) == r
      {
        PublishedIs(n, levels, w, key);
        LinkLevel(w, x, prev[i], i);
        w := w.(done := i + 1, own := false);
      }
      KeysInserted(before, chains[0], n, levels[0], r, x, key);
    }
  }

  lemma NothingListed()
    ensures Bounded(EmptyList(), NoLevels()) && forall l :: 0 <= l < MAX_HEIGHT ==> NoLevels()[l] == []
  {
  }

  lemma EmptyRanks(n: Nodes, levels: Levels, from: nat, key: int)
    requires Bounded(n, levels) && forall l :: from <= l < MAX_HEIGHT ==> levels[l] == []
    ensures forall l :: from <= l < MAX_HEIGHT ==> Before(levels[l], Rank(n, levels[l], key)) == 0
  {
  }

  lemma SamePublished(n: Nodes, levels: Levels, w: Insertion)
    requires Well(n, levels) && InsertionOk(n, levels, w) && !w.own
    requires w.prev[w.done] < |n.next| && w.done < |n.next[w.prev[w.done]]|
    requires InsertionOk(WriteOwn(n, w), levels, w.(own := true))
    ensures Published(WriteOwn(n, w), levels, w.(own := true)) == Published(n, levels, w)
  {
    SameRanks(n, WriteOwn(n, w), levels, n.keys[w.x]);
  }

  /** What one more published level looks like from the outside. */
  lemma PublishedIs(n: Nodes, levels: Levels, w: Insertion, key: int)
    requires InsertionOk(n, levels, w) && key == n.keys[w.x]
    ensures w.x < |n.keys| && w.done < |w.prev|
    ensures var r := Rank(n, levels[w.done], key);
            && Published(n, levels, w)[w.done] == levels[w.done][..r] + [w.x] + levels[w.done][r..]
            && forall l :: 0 <= l < MAX_HEIGHT && l != w.done ==> Published(n, levels, w)[l] == levels[l]
  {
  }

  lemma Starts(n: Nodes, levels: Levels, level: nat, target: int)
    requires level < MAX_HEIGHT
    ensures ReaderOk(n, levels, Reader(0, level, Some(target))) && Before(levels[level], 0) == 0
  {
  }

  lemma Descend(n: Nodes, levels: Levels, r: Reader) returns (i: nat)
    requires ReaderOk(n, levels, r)
    ensures i <= |levels[r.level]| && Before(levels[r.level], i) == r.x
  {
    i := PlaceOf(levels[r.level], r.x);
  }

  lemma LinkRead(n: Nodes, levels: Levels, x: nat, level: nat, target: int, i: nat)
    requires Well(n, levels) && ReaderOk(n, levels, Reader(x, level, Some(target)))
    requires i <= |levels[level]| && Before(levels[level], i) == x
    ensures x < |n.next| == |n.keys| && level < |n.next[x]| && n.next[x][level] == At(levels[level], i) < |n.keys|
    ensures Bounded(n, levels)
    ensures var next := n.next[x][level];
            if next != 0 && n.keys[next] < target then
              i < |levels[level]| && ReaderOk(n, levels, Reader(next, level, Some(target))) && Before(levels[level], i + 1) == next
            else Rank(n, levels[level], target) == i && (level > 0 ==> ReaderOk(n, levels, Reader(x, level - 1, Some(target))))
  {
    WellIsBounded(n, levels);
    var c := levels[level];
    assert Chain(n, c, level);
    assert n.next[Before(c, i)][level] == At(c, i);
    if !(n.next[x][level] != 0 && n.keys[n.next[x][level]] < target) {
      RankIs(n, c, level, target, i);
    }
  }

  lemma FoundOrAbsent(n: Nodes, c: seq<nat>, key: int)
    requires Chain(n, c, 0)
    ensures var r := Rank(n, c, key);
            (r < |c| && n.keys[c[r]] == key) <==> exists i :: 0 <= i < |c| && n.keys[c[i]] == key
  {
    var r := Rank(n, c, key);
    if i :| 0 <= i < |c| && n.keys[c[i]] == key {
      RankIs(n, c, 0, key, i) by {
        assert i > 0 ==> n.keys[c[i - 1]] < n.keys[c[i]];
      }
    }
  }

  lemma KeysAbsent(n: Nodes, levels: Levels, key: int)
    requires Well(n, levels) && Bounded(n, levels) && forall i :: 0 <= i < |levels[0]| ==> n.keys[levels[0][i]] != key
    ensures forall l :: 0 <= l < MAX_HEIGHT ==> KeyAbsent(n, levels[l], key)
  {
    forall l, y | 0 <= l < MAX_HEIGHT && y in levels[l] ensures y < |n.keys| && n.keys[y] != key {
      assert y in levels[0];
    }
  }

  lemma BeginOk(n: Nodes, levels: Levels, key: int, w: Insertion)
    requires Well(n, levels) && Bounded(n, levels) && (forall l :: 0 <= l < MAX_HEIGHT ==> KeyAbsent(n, levels[l], key))
    requires w.x == |n.keys| && 0 < w.height == |w.prev| <= MAX_HEIGHT && w.done == 0 && !w.own
    requires forall l :: 0 <= l < w.height ==> w.prev[l] == Before(levels[l], Rank(n, levels[l], key))
    ensures var m := Allocate(n, key, w.height);
            Well(m, levels) && Bounded(m, levels) && InsertionOk(m, levels, w) && Rank(m, levels[0], key) == Rank(n, levels[0], key)
  {
    var m := Allocate(n, key, w.height);
    WellIsBounded(n, levels);
    AllocateKeepsWell(n, levels, key, w.height);
    forall l | 0 <= l < MAX_HEIGHT ensures Rank(m, levels[l], key) == Rank(n, levels[l], key) && KeyAbsent(m, levels[l], key) {
      RankInLarger(n, m, levels[l], key);
    }
  }

  lemma KeysInserted(n: Nodes, c: seq<nat>, m: Nodes, d: seq<nat>, r: nat, x: nat, key: int)
    requires r <= |c| && d == c[..r] + [x] + c[r..] && m.keys == n.keys + [key] && x == |n.keys|
    requires forall i :: 0 <= i < |c| ==> c[i] < |n.keys|
    ensures forall i :: 0 <= i < |d| ==> d[i] < |m.keys|
    ensures KeysOf(m, d) == KeysOf(n, c)[..r] + [key] + KeysOf(n, c)[r..]
  {
  }
}
