/**
  The merging iterator: several sorted children, one sorted union, moves in both directions.
 */
module Merger {
  import opened Wrappers
  import opened DbFormat
  import opened Versions

  /** All keys of all children differ. */
  ghost predicate DistinctKeys(children: seq<seq<Entry>>) {
    forall c, d, a, b :: 0 <= c < |children| && 0 <= d < |children| && a in children[c] && b in children[d] && a.IKey() == b.IKey() ==>
      c == d && a == b
  }

  /** `all` is the sorted union of the children. */
  ghost predicate Union(children: seq<seq<Entry>>, all: seq<Entry>) {
    && Sorted(all) && (forall c :: 0 <= c < |children| ==> Sorted(children[c]))
    && (forall e :: e in all <==> exists c :: 0 <= c < |children| && e in children[c])
  }

  /** How many entries of child `c` come before row `r` of the union. */
  function Rank(c: seq<Entry>, all: seq<Entry>, r: nat): (n: nat)
    requires r <= |all|
    ensures n <= |c|
  {
    if r < |all| then Seek(c, all[r].IKey()) else |c|
  }

  lemma OrderIs(all: seq<Entry>, m: nat, r: nat)
    requires Sorted(all) && m < |all| && r < |all|
    ensures Before(all[m].IKey(), all[r].IKey()) <==> m < r
  {
    assert m < r ==> Before(all[m].IKey(), all[r].IKey());
    assert r < m ==> Before(all[r].IKey(), all[m].IKey());
  }

  /** The rank splits a child as the row splits the union. */
  lemma RankSplits(c: seq<Entry>, all: seq<Entry>, r: nat, j: nat, m: nat)
    requires Sorted(c) && Sorted(all) && r <= |all| && j < |c| && m < |all| && c[j] == all[m]
    ensures j < Rank(c, all, r) <==> m < r
  {
    if r < |all| {
      OrderIs(all, m, r);
      var n := Rank(c, all, r);
      if n <= j {
        assert n < j ==> Before(c[n].IKey(), c[j].IKey());
      }
    }
  }

  lemma Placed(c: seq<Entry>, all: seq<Entry>, r: nat, j: nat) returns (m: nat)
    requires Sorted(c) && Sorted(all) && r <= |all| && j < |c| && forall e :: e in c ==> e in all
    ensures m < |all| && all[m] == c[j] && c[j] in c && (j < Rank(c, all, r) <==> m < r)
    ensures r < m ==> Before(all[r].IKey(), all[m].IKey())
  {
    assert c[j] in c;
    m :| 0 <= m < |all| && all[m] == c[j];
    RankSplits(c, all, r, j, m);
  }

  lemma RankOfOwn(c: seq<Entry>, all: seq<Entry>, r: nat, j: nat)
    requires Sorted(c) && Sorted(all) && r < |all| && j < |c| && c[j] == all[r]
    requires forall e :: e in c ==> e in all
    ensures Rank(c, all, r) == j && Rank(c, all, r + 1) == j + 1
  {
    RankSplits(c, all, r, j, r);
    RankSplits(c, all, r + 1, j, r);
    if Rank(c, all, r) < j {
      var m := Placed(c, all, r, Rank(c, all, r));
      OrderIs(c, Rank(c, all, r), j);
      OrderIs(all, m, r);
    }
    if j + 1 < Rank(c, all, r + 1) {
      var m := Placed(c, all, r + 1, j + 1);
      OrderIs(c, j, j + 1);
      OrderIs(all, r, m);
    }
  }

  lemma RankOfOther(c: seq<Entry>, all: seq<Entry>, r: nat)
    requires Sorted(c) && Sorted(all) && r < |all| && all[r] !in c
    requires forall e :: e in c ==> e in all
    ensures Rank(c, all, r + 1) == Rank(c, all, r)
  {
    var n, n' := Rank(c, all, r), Rank(c, all, r + 1);
    if n != n' {
      var j := if n < n' then n else n';
      var m := Placed(c, all, r, j);
      RankSplits(c, all, r + 1, j, m);
    }
  }

  /** Seeking every child to a target puts each at its rank for the row the union would be at. */
  lemma SeekIsRank(c: seq<Entry>, all: seq<Entry>, target: InternalKey)
    requires Sorted(c) && Sorted(all) && forall e :: e in c ==> e in all
    ensures Seek(c, target) == Rank(c, all, Seek(all, target))
  {
    var r := Seek(all, target);
    var n, n' := Seek(c, target), Rank(c, all, r);
    if n != n' {
      var m := Placed(c, all, r, if n < n' then n else n');
    }
  }

  /* ---- The iterator ---- */

  function RowAt(all: seq<Entry>, r: int): Option<nat> {
    if 0 <= r < |all| then Some(r) else None
  }

  class MergingIterator {
    const children: seq<seq<Entry>>
    ghost const all: seq<Entry>
    var pos: seq<nat>          // of each child; the child's length when it is not valid
    var current: Option<nat>
    var forward: bool
    ghost var row: Option<nat>

    ghost predicate Shape()
      reads this`pos
    {
      && Union(children, all) && DistinctKeys(children) && |pos| == |children|
      && forall c :: 0 <= c < |children| ==> pos[c] <= |children[c]|
    }

    /** The number of entries of a child before the gap it stands at when moving backward. */
    ghost function Below(c: nat): nat
      requires c < |children| && |pos| == |children|
      reads this`pos
    {
      if pos[c] < |children[c]| then pos[c] + 1 else 0
    }

    /** Every child stands at its first entry from row `r` on. */
    ghost predicate ForwardCut(r: nat)
      requires |pos| == |children| && r <= |all|
      reads this`pos
    {
      forall c :: 0 <= c < |children| ==> pos[c] == Rank(children[c], all, r)
    }

    /** Every child stands at its last entry before row `r`. */
    ghost predicate BackwardCut(r: nat)
      requires |pos| == |children| && r <= |all|
      reads this`pos
    {
      forall c :: 0 <= c < |children| ==> Below(c) == Rank(children[c], all, r)
    }

    ghost predicate Valid()
      reads this
    {
      && Shape() && (current.Some? <==> row.Some?)
      && (current.Some? ==>
           && current.value < |children| && row.value < |all|
           && pos[current.value] < |children[current.value]|
           && children[current.value][pos[current.value]] == all[row.value]
           && if forward then ForwardCut(row.value) else BackwardCut(row.value + 1))
    }

    constructor (children: seq<seq<Entry>>, ghost all: seq<Entry>)
      requires Union(children, all) && DistinctKeys(children)
      ensures Valid() && this.children == children && this.all == all && row == None
    {
      this.children, this.all := children, all;
      pos := seq(|children|, c requires 0 <= c < |children| => |children[c]|);
      current, forward, row := None, true, None;
    }

    method Get() returns (e: Entry)
      requires Valid() && current.Some?
      ensures e == all[row.value]
    {
      e := children[current.value][pos[current.value]];
    }

    /** Point `current` at the valid child with the smallest key. */
    method FindSmallest(ghost r: nat)
      requires Shape() && r <= |all| && ForwardCut(r)
      modifies this`current
      ensures current.Some? <==> r < |all|
      ensures current.Some? ==>
                && current.value < |children| && pos[current.value] < |children[current.value]|
                && children[current.value][pos[current.value]] == all[r]
    {
      hide Sorted, Union, DistinctKeys, Rank, Versions.Seek;
      current := None;
      for c := 0 to |children|
        invariant current.Some? ==> current.value < |children| && pos[current.value] < |children[current.value]|
        invariant forall d :: 0 <= d < c && pos[d] < |children[d]| ==>
                    && current.Some?
                    && !Before(children[d][pos[d]].IKey(), children[current.value][pos[current.value]].IKey())
      {
        if pos[c] < |children[c]| {
          if current.None? {
            current := Some(c);
          } else if Before(children[c][pos[c]].IKey(), children[current.value][pos[current.value]].IKey()) {
            current := Some(c);
          }
        }
      }
      SmallestIsRow(children, all, pos, r, current);
    }

    /** Point `current` at the valid child with the largest key. */
    method FindLargest(ghost r: nat)
      requires Shape() && r <= |all| && BackwardCut(r)
      modifies this`current
      ensures current.Some? <==> r > 0
      ensures current.Some? ==>
                && current.value < |children| && pos[current.value] < |children[current.value]|
                && children[current.value][pos[current.value]] == all[r - 1]
    {
      hide Sorted, Union, DistinctKeys, Rank, Versions.Seek;
      current := None;
      for c := |children| downto 0
        invariant current.Some? ==> current.value < |children| && pos[current.value] < |children[current.value]|
        invariant forall d :: c <= d < |children| && pos[d] < |children[d]| ==>
                    && current.Some?
                    && !Before(children[current.value][pos[current.value]].IKey(), children[d][pos[d]].IKey())
      {
        if pos[c] < |children[c]| {
          if current.None? {
            current := Some(c);
          } else if Before(children[current.value][pos[current.value]].IKey(), children[c][pos[c]].IKey()) {
            current := Some(c);
          }
        }
      }
      LargestIsRow(children, all, pos, r, current);
    }

    method SeekToFirst()
      requires Valid()
      modifies this
      ensures Valid() && row == RowAt(all, 0)
    {
      pos := seq(|children|, c => 0);
      forall c | 0 <= c < |children| ensures Rank(children[c], all, 0) == 0 {
        RankAtStart(children[c], all);
      }
      FindSmallest(0);
      forward, row := true, RowAt(all, 0);
    }

    method SeekToLast()
      requires Valid()
      modifies this
      ensures Valid() && row == RowAt(all, |all| - 1)
    {
      pos := seq(|children|, c requires 0 <= c < |children| => if children[c] == [] then 0 else |children[c]| - 1);
      FindLargest(|all|);
      forward, row := false, RowAt(all, |all| - 1);
    }

    method Seek(target: InternalKey)
      requires Valid()
      modifies this
      ensures Valid() && row == RowAt(all, Versions.Seek(all, target))
    {
      pos := seq(|children|, c requires 0 <= c < |children| => Versions.Seek(children[c], target));
      ghost var r := Versions.Seek(all, target);
      forall c | 0 <= c < |children| ensures pos[c] == Rank(children[c], all, r) {
        ChildWithin(children, all, c);
        SeekIsRank(children[c], all, target);
      }
      FindSmallest(r);
      forward, row := true, RowAt(all, r);
    }

    /** Bring the other children from before the key to after it. */
    method TurnForward()
      requires Valid() && current.Some? && !forward
      modifies this
      ensures Valid() && row == old(row) && forward
    {
      hide Sorted, Union, DistinctKeys, Rank, Versions.Seek;
      var key := children[current.value][pos[current.value]].IKey();
      ghost var own, r := current.value, row.value;
      OwnRank(children, all, r, own, pos[own]);
      for c := 0 to |children|
        invariant Shape() && current == Some(own) && row == Some(r) && pos[own] == old(pos)[own]
        invariant forall d :: 0 <= d < c ==> pos[d] == Rank(children[d], all, r)
      {
        if c != current.value {
          var p := Versions.Seek(children[c], key);
          if p < |children[c]| && children[c][p].IKey() == key {
            p := p + 1;
          }
          pos := pos[c := p];
          OtherRank(children, all, r, own, c);
        }
      }
      forward := true;
    }

    /** Bring the other children from after the key to before it. */
    method TurnBackward()
      requires Valid() && current.Some? && forward
      modifies this
      ensures Valid() && row == old(row) && !forward
    {
      hide Sorted, Union, DistinctKeys, Rank, Versions.Seek;
      var key := children[current.value][pos[current.value]].IKey();
      ghost var own, r := current.value, row.value;
      OwnRank(children, all, r, own, pos[own]);
      for c := 0 to |children|
        invariant Shape() && current == Some(own) && row == Some(r) && pos[own] == old(pos)[own]
        invariant forall d :: 0 <= d < c ==> Below(d) == Rank(children[d], all, r + 1)
      {
        if c != current.value {
          var p := Versions.Seek(children[c], key);
          if p < |children[c]| {
            p := if p == 0 then |children[c]| else p - 1;
          } else {
            p := if children[c] == [] then 0 else |children[c]| - 1;
          }
          pos := pos[c := p];
          OtherRank(children, all, r, own, c);
        }
      }
      forward := false;
    }

    method Next()
      requires Valid() && current.Some?
      modifies this
      ensures Valid() && row == RowAt(all, old(row).value + 1)
    {
      hide Sorted, Union, DistinctKeys, Rank, Versions.Seek;
      if !forward {
        TurnForward();
      }
      ghost var own, r := current.value, row.value;
      NextRanks(children, all, r, own, pos[own]);
      pos := pos[current.value := pos[current.value] + 1];
      FindSmallest(r + 1);
      row := RowAt(all, r + 1);
    }

    method Prev()
      requires Valid() && current.Some?
      modifies this
      ensures Valid() && row == RowAt(all, old(row).value - 1)
    {
      hide Sorted, Union, DistinctKeys, Rank, Versions.Seek;
      if forward {
        TurnBackward();
      }
      ghost var own, r := current.value, row.value;
      NextRanks(children, all, r, own, pos[own]);
      pos := pos[current.value := if pos[current.value] == 0 then |children[current.value]| else pos[current.value] - 1];
      FindLargest(r);
      row := RowAt(all, r as int - 1);
    }
  }

  lemma RankAtStart(c: seq<Entry>, all: seq<Entry>)
    requires Sorted(c) && Sorted(all) && forall e :: e in c ==> e in all
    ensures Rank(c, all, 0) == 0
  {
    if c != [] {
      var m := Placed(c, all, 0, 0);
    }
  }

  lemma ChildWithin(children: seq<seq<Entry>>, all: seq<Entry>, c: nat)
    requires Union(children, all) && c < |children|
    ensures Sorted(children[c]) && forall e :: e in children[c] ==> e in all
  {
  }

  lemma OwnRank(children: seq<seq<Entry>>, all: seq<Entry>, r: nat, own: nat, j: nat)
    requires Union(children, all) && r < |all| && own < |children| && j < |children[own]| && children[own][j] == all[r]
    ensures Rank(children[own], all, r) == j && Rank(children[own], all, r + 1) == j + 1
  {
    RankOfOwn(children[own], all, r, j);
  }

  lemma OtherRank(children: seq<seq<Entry>>, all: seq<Entry>, r: nat, own: nat, c: nat)
    requires Union(children, all) && DistinctKeys(children) && r < |all|
    requires own < |children| && all[r] in children[own] && c < |children| && c != own
    ensures Rank(children[c], all, r) == Versions.Seek(children[c], all[r].IKey())
    ensures Rank(children[c], all, r + 1) == Rank(children[c], all, r)
    ensures forall j :: 0 <= j < |children[c]| ==> children[c][j].IKey() != all[r].IKey()
  {
    assert forall j :: 0 <= j < |children[c]| ==> children[c][j] in children[c];
    OwnOnly(children, all[r], own, c);
    InUnion(children, all, c);
    hide DistinctKeys, Union;
    RankOfOther(children[c], all, r);
  }

  lemma OwnOnly(children: seq<seq<Entry>>, e: Entry, own: nat, c: nat)
    requires DistinctKeys(children) && own < |children| && c < |children| && c != own && e in children[own]
    ensures forall x :: x in children[c] ==> x.IKey() != e.IKey()
  {
  }

  lemma InUnion(children: seq<seq<Entry>>, all: seq<Entry>, c: nat)
    requires Union(children, all) && c < |children|
    ensures Sorted(children[c]) && Sorted(all) && forall x :: x in children[c] ==> x in all
  {
  }

  lemma NextRanks(children: seq<seq<Entry>>, all: seq<Entry>, r: nat, own: nat, j: nat)
    requires Union(children, all) && DistinctKeys(children) && r < |all|
    requires own < |children| && j < |children[own]| && children[own][j] == all[r]
    ensures Rank(children[own], all, r) == j && Rank(children[own], all, r + 1) == j + 1
    ensures forall c :: 0 <= c < |children| && c != own ==> Rank(children[c], all, r + 1) == Rank(children[c], all, r)
  {
    OwnRank(children, all, r, own, j);
    forall c | 0 <= c < |children| && c != own ensures Rank(children[c], all, r + 1) == Rank(children[c], all, r) {
      OtherRank(children, all, r, own, c);
    }
  }

  lemma Member(children: seq<seq<Entry>>, all: seq<Entry>, r: nat) returns (c: nat, j: nat)
    requires Union(children, all) && r < |all|
    ensures c < |children| && j < |children[c]| && children[c][j] == all[r]
    ensures Rank(children[c], all, r) == j && Rank(children[c], all, r + 1) == j + 1
  {
    assert all[r] in all;
    c :| 0 <= c < |children| && all[r] in children[c];
    j :| 0 <= j < |children[c]| && children[c][j] == all[r];
    RankOfOwn(children[c], all, r, j);
  }

  lemma SmallestIsRow(children: seq<seq<Entry>>, all: seq<Entry>, pos: seq<nat>, r: nat, current: Option<nat>)
    requires Union(children, all) && |pos| == |children| && r <= |all|
    requires forall c :: 0 <= c < |children| ==> pos[c] == Rank(children[c], all, r)
    requires current.Some? ==> current.value < |children| && pos[current.value] < |children[current.value]|
    requires forall d :: 0 <= d < |children| && pos[d] < |children[d]| ==>
               current.Some? && !Before(children[d][pos[d]].IKey(), children[current.value][pos[current.value]].IKey())
    ensures current.Some? <==> r < |all|
    ensures current.Some? ==> children[current.value][pos[current.value]] == all[r]
  {
    if r < |all| {
      var c, j := Member(children, all, r);
      var d := current.value;
      var m := Placed(children[d], all, r, pos[d]);
    }
  }

  lemma LargestIsRow(children: seq<seq<Entry>>, all: seq<Entry>, pos: seq<nat>, r: nat, current: Option<nat>)
    requires Union(children, all) && |pos| == |children| && r <= |all|
    requires forall c :: 0 <= c < |children| ==> (if pos[c] < |children[c]| then pos[c] + 1 else 0) == Rank(children[c], all, r)
    requires current.Some? ==> current.value < |children| && pos[current.value] < |children[current.value]|
    requires forall d :: 0 <= d < |children| && pos[d] < |children[d]| ==>
               current.Some? && !Before(children[current.value][pos[current.value]].IKey(), children[d][pos[d]].IKey())
    ensures current.Some? <==> r > 0
    ensures current.Some? ==> children[current.value][pos[current.value]] == all[r - 1]
  {
    if r > 0 {
      var c, j := Member(children, all, r - 1);
      var d := current.value;
      var m := Placed(children[d], all, r, pos[d]);
      OrderIs(all, m, r - 1);
    } else if current.Some? {
      var d := current.value;
      var m := Placed(children[d], all, r, pos[d]);
    }
  }
}
