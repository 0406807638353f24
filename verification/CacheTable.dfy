/**
  The cache's hash table: an array of chains that grows with the number of entries.
 */
module CacheTable {
  import opened ByteCoding

  /** A cache entry; clients hold references to it. */
  class LRUHandle {
    const key: Bytes
    const hash: nat
    const value: int
    const charge: nat
    var refs: nat
    var inCache: bool

    constructor (key: Bytes, hash: nat, value: int, charge: nat)
      ensures this.key == key && this.hash == hash && this.value == value && this.charge == charge
      ensures refs == 1 && !inCache
    {
      this.key, this.hash, this.value, this.charge, refs, inCache := key, hash, value, charge, 1, false;
    }

    predicate Matches(key: Bytes, hash: nat) {
      this.hash == hash && this.key == key
    }
  }

  type Chain = seq<LRUHandle>

  ghost predicate Distinct(s: Chain) {
    forall i, j :: 0 <= i < j < |s| ==> s[i] != s[j]
  }

  /** Each handle is in the chain of its hash, once, and in no other. */
  ghost predicate Hashed(list: seq<Chain>, members: set<LRUHandle>) {
    && list != []
    && (forall b, i :: 0 <= b < |list| && 0 <= i < |list[b]| ==> list[b][i] in members && list[b][i].hash % |list| == b)
    && (forall h :: h in members ==> h in list[h.hash % |list|])
    && (forall b :: 0 <= b < |list| ==> Distinct(list[b]))
  }

  /** No two handles for the same key. */
  ghost predicate OnePerKey(members: set<LRUHandle>) {
    forall g, h :: g in members && h in members && g.Matches(h.key, h.hash) ==> g == h
  }

  lemma Prepended(list: seq<Chain>, members: set<LRUHandle>, h: LRUHandle)
    requires Hashed(list, members) && h !in members
    ensures var b := h.hash % |list|; Hashed(list[b := [h] + list[b]], members + {h})
  {
  }

  lemma Appended(list: seq<Chain>, members: set<LRUHandle>, h: LRUHandle)
    requires Hashed(list, members) && h !in members
    ensures var b := h.hash % |list|; Hashed(list[b := list[b] + [h]], members + {h})
  {
  }

  lemma Replaced(list: seq<Chain>, members: set<LRUHandle>, h: LRUHandle, b: nat, i: nat)
    requires Hashed(list, members) && h !in members && h.hash % |list| == b && i < |list[b]|
    ensures Hashed(list[b := list[b][i := h]], members - {list[b][i]} + {h})
  {
    var prior, chain := list[b][i], list[b][i := h];
    assert chain[i] == h;
    forall g | g in members && g != prior && g.hash % |list| == b ensures g in chain {
      var j :| 0 <= j < |list[b]| && list[b][j] == g;
      assert chain[j] == g;
    }
  }

  lemma Removed(list: seq<Chain>, members: set<LRUHandle>, b: nat, i: nat)
    requires Hashed(list, members) && b < |list| && i < |list[b]|
    ensures Hashed(list[b := list[b][..i] + list[b][i + 1..]], members - {list[b][i]})
  {
    var prior, chain := list[b][i], list[b][..i] + list[b][i + 1..];
    forall g | g in members && g != prior && g.hash % |list| == b ensures g in chain {
      var j :| 0 <= j < |list[b]| && list[b][j] == g;
      assert chain[if j < i then j else j - 1] == g;
    }
  }

  ghost predicate PowerOfTwo(n: nat) {
    n == 1 || (n > 0 && n % 2 == 0 && PowerOfTwo(n / 2))
  }

  lemma EmptyTable(list: seq<Chain>)
    requires list != [] && forall b :: 0 <= b < |list| ==> list[b] == []
    ensures Hashed(list, {})
  {
  }

  /** The least power of two, from four on, that leaves a chain for every entry. */
  method NewLength(elems: nat) returns (n: nat)
    ensures n >= 4 && PowerOfTwo(n) && elems <= n && (n > 4 ==> n / 2 < elems)
  {
    n := 4;
    assert PowerOfTwo(n);
    while n < elems
      invariant n >= 4 && PowerOfTwo(n) && (n > 4 ==> n / 2 < elems)
    {
      n := n * 2;
    }
  }

  class HandleTable {
    var length: nat
    var elems: nat
    var list: seq<Chain>
    ghost var members: set<LRUHandle>

    /** Chains are short on the average, whatever has been inserted and removed. */
    ghost predicate Valid()
      reads this
    {
      && |list| == length && Hashed(list, members) && OnePerKey(members)
      && elems == |members| <= length && length >= 4 && PowerOfTwo(length)
    }

    constructor ()
      ensures Valid() && members == {}
    {
      length, elems, list, members := 4, 0, seq(4, i => []), {};
      assert PowerOfTwo(4);
    }

    lemma KeysDiffer()
      requires Valid()
      ensures OnePerKey(members)
    {
    }

    /** The place of the entry for a key; the end of its chain if there is none. */
    method FindPointer(key: Bytes, hash: nat) returns (b: nat, i: nat)
      requires Valid()
      ensures b == hash % length && i <= |list[b]|
      ensures i < |list[b]| ==> list[b][i].Matches(key, hash) && list[b][i] in members
      ensures i == |list[b]| ==> forall h :: h in members ==> !h.Matches(key, hash)
    {
      b, i := hash % length, 0;
      while i < |list[b]| && !list[b][i].Matches(key, hash)
        invariant i <= |list[b]| && forall j :: 0 <= j < i ==> !list[b][j].Matches(key, hash)
      {
        i := i + 1;
      }
    }

    method Lookup(key: Bytes, hash: nat) returns (h: LRUHandle?)
      requires Valid()
      ensures h != null ==> h in members && h.Matches(key, hash)
      ensures h == null ==> forall g :: g in members ==> !g.Matches(key, hash)
    {
      var b, i := FindPointer(key, hash);
      h := if i < |list[b]| then list[b][i] else null;
    }

    /** Put an entry in, in place of the one for the same key if there is one. */
    method Insert(h: LRUHandle) returns (prior: LRUHandle?)
      requires Valid() && h !in members
      modifies this
      ensures Valid()
      ensures if prior != null then
                prior in old(members) && prior.Matches(h.key, h.hash) && members == old(members) - {prior} + {h}
              else
                (forall g :: g in old(members) ==> !g.Matches(h.key, h.hash)) && members == old(members) + {h}
    {
      hide Hashed, PowerOfTwo;
      var b, i := FindPointer(h.key, h.hash);
      if i < |list[b]| {
        prior := list[b][i];
        Replaced(list, members, h, b, i);
        list := list[b := list[b][i := h]];
        members := members - {prior} + {h};
      } else {
        prior := null;
        Appended(list, members, h);
        list := list[b := list[b] + [h]];
        members := members + {h};
        elems := elems + 1;
        if elems > length {
          Resize();
        }
      }
    }

    method Remove(key: Bytes, hash: nat) returns (result: LRUHandle?)
      requires Valid()
      modifies this
      ensures Valid()
      ensures if result != null then
                result in old(members) && result.Matches(key, hash) && members == old(members) - {result}
              else
                (forall g :: g in old(members) ==> !g.Matches(key, hash)) && members == old(members)
    {
      hide Hashed, PowerOfTwo;
      result := null;
      var b, i := FindPointer(key, hash);
      if i < |list[b]| {
        result := list[b][i];
        Removed(list, members, b, i);
        list := list[b := list[b][..i] + list[b][i + 1..]];
        members := members - {result};
        elems := elems - 1;
      }
    }

    /** As many chains as entries, at least; every entry moves to its new chain. */
    method Resize()
      requires |list| == length > 0 && Hashed(list, members) && OnePerKey(members) && elems == |members|
      modifies this`list, this`length
      ensures Valid()
    {
      hide Hashed, PowerOfTwo;
      var newLength := NewLength(elems);
      var newList: seq<Chain> := seq(newLength, i => []);
      ghost var moved: set<LRUHandle> := {};
      EmptyTable(newList);
      for b := 0 to |list|
        invariant |newList| == newLength && Hashed(newList, moved) && list == old(list)
        invariant forall h :: h in moved <==> h in members && h.hash % |list| < b
      {
        newList, moved := MoveChain(b, newList, moved);
      }
      assert moved == members;
      list, length := newList, newLength;
    }

    method MoveChain(b: nat, newList0: seq<Chain>, ghost moved0: set<LRUHandle>)
      returns (newList: seq<Chain>, ghost moved: set<LRUHandle>)
      requires Hashed(list, members) && b < |list| && Hashed(newList0, moved0)
      requires forall h :: h in moved0 <==> h in members && h.hash % |list| < b
      ensures |newList| == |newList0| && Hashed(newList, moved)
      ensures forall h :: h in moved <==> h in members && h.hash % |list| < b + 1
    {
      newList, moved := newList0, moved0;
      for i := 0 to |list[b]|
        invariant |newList| == |newList0| && Hashed(newList, moved)
        invariant forall h :: h in moved <==> h in moved0 || h in list[b][..i]
      {
        var h := list[b][i];
        Prepended(newList, moved, h);
        var k := h.hash % |newList|;
        newList := newList[k := [h] + newList[k]];
        moved := moved + {h};
        assert list[b][..i + 1] == list[b][..i] + [h];
      }
      assert list[b][..|list[b]|] == list[b];
    }
  }
}
