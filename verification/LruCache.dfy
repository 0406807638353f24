/**
  A shard of the block cache.  Clients hold references to entries; an entry leaves memory, and its deleter
  runs, when neither the cache nor a client refers to it.
 */
module LruCache {
  import opened Wrappers
  import opened ByteCoding
  import opened CacheTable

  function Without(s: Chain, e: LRUHandle): Chain {
    if s == [] then [] else if s[0] == e then s[1..] else [s[0]] + Without(s[1..], e)
  }

  function TotalCharge(s: Chain): nat {
    if s == [] then 0 else TotalCharge(s[..|s| - 1]) + s[|s| - 1].charge
  }

  lemma {:induction false} TakenOut(s: Chain, e: LRUHandle)
    requires Distinct(s) && e in s
    ensures Distinct(Without(s, e))
    ensures forall i :: 0 <= i < |s| ==> s[i] == e || s[i] in Without(s, e)
    ensures forall i :: 0 <= i < |Without(s, e)| ==> Without(s, e)[i] != e && Without(s, e)[i] in s
    ensures TotalCharge(s) == TotalCharge(Without(s, e)) + e.charge
  {
    hide TotalCharge;
    ChargeOfFirst(s);
    if s[0] != e {
      var rest := Without(s[1..], e);
      TakenOut(s[1..], e);
      ChargeOfFirst([s[0]] + rest);
      assert ([s[0]] + rest)[1..] == rest;
      assert s[0] !in rest;
    }
  }

  lemma NoCharge(s: Chain)
    requires s == []
    ensures TotalCharge(s) == 0
  {
  }

  lemma ChargePutOn(s: Chain, e: LRUHandle)
    ensures TotalCharge(s + [e]) == TotalCharge(s) + e.charge
  {
    assert (s + [e])[..|s|] == s;
  }

  function Elements(s: Chain): set<LRUHandle> {
    set h | h in s
  }

  predicate Among(s: Chain, all: set<LRUHandle>) {
    forall i :: 0 <= i < |s| ==> s[i] in all
  }

  lemma PutOn(s: Chain, e: LRUHandle)
    requires Distinct(s) && e !in s
    ensures Distinct(s + [e])
    ensures TotalCharge(s + [e]) == TotalCharge(s) + e.charge
  {
    assert (s + [e])[..|s|] == s;
  }

  lemma {:induction false} ChargeOfFirst(s: Chain)
    requires s != []
    ensures TotalCharge(s) == s[0].charge + TotalCharge(s[1..])
  {
    var n := |s| - 1;
    if n > 0 {
      ChargeOfFirst(s[..n]);
      assert s[..n][1..] == s[1..][..n - 1];
    } else {
      assert s[1..] == [] && s[..n] == [];
    }
  }

  /** Per key, the entry that was inserted last, unless the key was erased since. */
  type Latest = map<(Bytes, nat), LRUHandle>

  ghost predicate OnlyLatest(members: set<LRUHandle>, latest: Latest) {
    && (forall k <- latest :: latest[k].Matches(k.0, k.1))
    && forall h :: h in members ==> (h.key, h.hash) in latest && latest[(h.key, h.hash)] == h
  }

  lemma NewestIsLatest(prior: set<LRUHandle>, members: set<LRUHandle>, latest: Latest, e: LRUHandle)
    requires OnlyLatest(prior, latest) && OnePerKey(members) && e in members && members <= prior + {e}
    ensures OnlyLatest(members, latest[(e.key, e.hash) := e])
  {
  }

  class LRUCache {
    const capacity: nat
    const table: HandleTable
    var usage: nat
    var lru: Chain                         // oldest first
    var inUse: Chain
    ghost var held: multiset<LRUHandle>    // references of clients
    ghost var made: set<LRUHandle>         // all entries there have ever been
    var freed: Chain                       // entries in the order their deleters ran
    ghost var latest: Latest

    /** What an entry's reference count, the lists and the deleters run so far say about who refers to it. */
    ghost predicate Placed(h: LRUHandle, clients: nat, cached: bool)
      reads this`lru, this`inUse, this`freed, h
    {
      && (h.inCache <==> cached) && h.refs == clients + (if cached then 1 else 0)
      && (h in lru <==> cached && clients == 0)
      && (h in inUse <==> cached && clients > 0)
      && (h in freed <==> !cached && clients == 0)
    }

    /**
      Entries `cached` by the cache and `held` by clients: what the lists, the reference counts and the
      deleters run so far say about them.
     */
    ghost predicate Inv(held: multiset<LRUHandle>, cached: set<LRUHandle>)
      reads this`lru, this`inUse, this`freed, this`usage, this`made, made
    {
      && Distinct(lru) && Distinct(inUse) && Distinct(freed)
      && cached <= made && (forall h :: h in held ==> h in made)
      && Among(lru, made) && Among(inUse, made) && Among(freed, made)
      && (forall h :: h in made ==> Placed(h, held[h], h in cached))
      && usage == TotalCharge(lru) + TotalCharge(inUse)
    }

    ghost predicate Valid()
      reads this, table, made
    {
      && table.Valid() && Inv(held, table.members) && OnlyLatest(table.members, latest)
      && (capacity == 0 ==> table.members == {} && latest == map[])
    }

    constructor (capacity: nat)
      ensures Valid() && this.capacity == capacity && fresh(table)
      ensures table.members == {} && held == multiset{} && made == {} && freed == [] && usage == 0 && latest == map[]
    {
      this.capacity := capacity;
      table := new HandleTable();
      usage, lru, inUse, held, made, freed, latest := 0, [], [], multiset{}, {}, [], map[];
    }

    /** Take an entry off the list it is on. */
    method ListRemove(e: LRUHandle)
      requires Distinct(lru) && Distinct(inUse) && (e in lru <==> e !in inUse)
      modifies this`lru, this`inUse
      ensures lru == if e in old(lru) then Without(old(lru), e) else old(lru)
      ensures inUse == if e in old(inUse) then Without(old(inUse), e) else old(inUse)
    {
      if e in lru {
        lru := Without(lru, e);
      } else {
        inUse := Without(inUse, e);
      }
    }

    method Ref(e: LRUHandle, ghost hs: multiset<LRUHandle>, ghost cached: set<LRUHandle>)
      requires Inv(hs, cached) && e in cached
      modifies this`lru, this`inUse, e`refs
      ensures Inv(hs + multiset{e}, cached)
      ensures lru == if e in hs then old(lru) else Without(old(lru), e)
      ensures inUse == if e in hs then old(inUse) else old(inUse) + [e]
    {
      hide Distinct, TotalCharge, Without;
      if e.refs == 1 && e.inCache {
        TakenOut(lru, e);
        ListRemove(e);
        PutOn(inUse, e);
        inUse := inUse + [e];
      }
      e.refs := e.refs + 1;
      forall h | h in made
        ensures Placed(h, (hs + multiset{e})[h], h in cached)
      {
        assert old(Placed(h, hs[h], h in cached));
      }
    }

    /** No client refers to the entry any more: it is the newest that may be evicted. */
    method MoveToLru(e: LRUHandle)
      requires Distinct(lru) && Distinct(inUse) && e in inUse && e !in lru
      modifies this`lru, this`inUse
      ensures lru == old(lru) + [e] && inUse == Without(old(inUse), e) && Distinct(lru) && Distinct(inUse)
      ensures forall i :: 0 <= i < |old(inUse)| ==> old(inUse)[i] == e || old(inUse)[i] in inUse
      ensures forall i :: 0 <= i < |inUse| ==> inUse[i] != e && inUse[i] in old(inUse)
      ensures TotalCharge(lru) + TotalCharge(inUse) == old(TotalCharge(lru) + TotalCharge(inUse))
    {
      hide Distinct, TotalCharge, Without;
      TakenOut(inUse, e);
      ListRemove(e);
      PutOn(lru, e);
      lru := lru + [e];
    }

    /** Give up a reference: the last one runs the deleter, the last but one of a cached entry makes it evictable. */
    method Unref(e: LRUHandle, ghost hs: multiset<LRUHandle>, ghost cached: set<LRUHandle>)
      requires Inv(hs, cached) && e in hs
      modifies this`lru, this`inUse, this`freed, e`refs
      ensures Inv(hs - multiset{e}, cached)
      ensures freed == if e in hs - multiset{e} || e in cached then old(freed) else old(freed) + [e]
      ensures lru == if e !in hs - multiset{e} && e in cached then old(lru) + [e] else old(lru)
      ensures inUse == if e !in hs - multiset{e} && e in cached then Without(old(inUse), e) else old(inUse)
    {
      hide Distinct, TotalCharge, Without;
      e.refs := e.refs - 1;
      if e.refs == 0 {
        PutOn(freed, e);
        freed := freed + [e];
      } else if e.inCache && e.refs == 1 {
        MoveToLru(e);
      }
      forall h | h in made
        ensures Placed(h, (hs - multiset{e})[h], h in cached)
      {
        assert old(Placed(h, hs[h], h in cached));
      }
    }

    /** Finish taking out of the cache what has left the table; the cache's reference goes last. */
    method FinishErase(e: LRUHandle, ghost hs: multiset<LRUHandle>, ghost cached: set<LRUHandle>)
      requires Inv(hs, cached) && e in cached
      modifies this`lru, this`inUse, this`freed, this`usage, e
      ensures Inv(hs, cached - {e})
      ensures freed == if e in hs then old(freed) else old(freed) + [e]
      ensures lru == if e in hs then old(lru) else Without(old(lru), e)
      ensures inUse == if e in hs then Without(old(inUse), e) else old(inUse)
      ensures usage == old(usage) - e.charge
    {
      hide Inv, HandleTable.Valid;
      Detach(e, hs, cached);
      Unref(e, hs + multiset{e}, cached - {e});
      assert hs + multiset{e} - multiset{e} == hs;
    }

    /** What was the cache's reference is now like a client's. */
    method Detach(e: LRUHandle, ghost hs: multiset<LRUHandle>, ghost cached: set<LRUHandle>)
      requires Inv(hs, cached) && e in cached
      modifies this`lru, this`inUse, this`usage, e`inCache
      ensures Inv(hs + multiset{e}, cached - {e})
      ensures lru == if e in hs then old(lru) else Without(old(lru), e)
      ensures inUse == if e in hs then Without(old(inUse), e) else old(inUse)
      ensures usage == old(usage) - e.charge
    {
      hide Distinct, TotalCharge, Without;
      if e in hs {
        TakenOut(inUse, e);
      } else {
        TakenOut(lru, e);
      }
      ListRemove(e);
      e.inCache := false;
      usage := usage - e.charge;
      forall h | h in made
        ensures Placed(h, (hs + multiset{e})[h], h in cached - {e})
      {
        assert old(Placed(h, hs[h], h in cached));
      }
    }
 
    /** An entry of a client, not cached yet. */
    method Allocate(key: Bytes, hash: nat, value: int, charge: nat) returns (e: LRUHandle)
      requires Valid()
      modifies this`held, this`made
      ensures fresh(e) && e.Matches(key, hash) && e.value == value && e.charge == charge
      ensures held == old(held) + multiset{e} && made == old(made) + {e}
      ensures Valid()
    {
      hide Distinct, TotalCharge;
      e := new LRUHandle(key, hash, value, charge);
      made := made + {e};
      held := held + multiset{e};
      forall h | h in made
        ensures Placed(h, held[h], h in table.members)
      {
        assert h != e ==> old(Placed(h, held[h], h in table.members));
      }
    }

    method Enter(e: LRUHandle, ghost cached: set<LRUHandle>)
      requires Inv(held, cached) && e in held && e !in cached
      modifies this`inUse, this`usage, e
      ensures Inv(held, cached + {e})
      ensures inUse == old(inUse) + [e] && usage == old(usage) + e.charge
    {
      hide Distinct, TotalCharge;
      e.refs := e.refs + 1;
      e.inCache := true;
      PutOn(inUse, e);
      inUse := inUse + [e];
      usage := usage + e.charge;
      forall h | h in made
        ensures Placed(h, held[h], h in cached + {e})
      {
        assert old(Placed(h, held[h], h in cached));
      }
    }

    /** Throw out the oldest entries that no client refers to, until the rest fits. */
    method Evict() returns (ghost evicted: Chain)
      requires Valid()
      modifies this`lru, this`inUse, this`freed, this`usage, table, made
      ensures Valid() && (usage <= capacity || lru == [])
      ensures old(lru) == evicted + lru && inUse == old(inUse) && freed == old(freed) + evicted
      ensures evicted != [] ==> usage + evicted[|evicted| - 1].charge > capacity
      ensures table.members == old(table.members) - Elements(evicted) && usage == old(usage) - TotalCharge(evicted)
    {
      hide Inv, HandleTable.Valid, OnlyLatest, TotalCharge;
      evicted := [];
      NoCharge(evicted);
      while usage > capacity && lru != []
        invariant Valid() && made == old(made)
        invariant old(lru) == evicted + lru && inUse == old(inUse) && freed == old(freed) + evicted
        invariant table.members == old(table.members) - Elements(evicted) && usage == old(usage) - TotalCharge(evicted)
        invariant evicted != [] ==> usage + evicted[|evicted| - 1].charge > capacity
        decreases |lru|
      {
        var oldest := lru[0];
        var erased := EraseOldest(oldest);
        assert Elements(evicted + [oldest]) == Elements(evicted) + {oldest};
        ChargePutOn(evicted, oldest);
        evicted := evicted + [oldest];
      }
    }

    method EraseOldest(oldest: LRUHandle) returns (erased: LRUHandle?)
      requires Valid() && lru != [] && oldest == lru[0]
      modifies this`lru, this`inUse, this`freed, this`usage, table, made
      ensures Valid() && erased == oldest
      ensures lru == old(lru)[1..] && inUse == old(inUse) && freed == old(freed) + [oldest]
      ensures usage == old(usage) - oldest.charge && table.members == old(table.members) - {oldest}
    {
      hide Distinct, TotalCharge, HandleTable.Valid;
      assert Placed(oldest, held[oldest], oldest in table.members);
      ghost var cached := table.members;
      table.KeysDiffer();
      erased := table.Remove(oldest.key, oldest.hash);
      assert erased == oldest;
      FinishErase(oldest, held, cached);
    }
 
    method Lookup(key: Bytes, hash: nat) returns (e: LRUHandle?)
      requires Valid()
      modifies this`lru, this`inUse, this`held, made
      ensures Valid() && made == old(made)
      ensures if e != null then
                && e in table.members && e.Matches(key, hash) && latest[(key, hash)] == e
                && held == old(held) + multiset{e}
                && lru == (if e in old(held) then old(lru) else Without(old(lru), e))
              else
                && (forall h :: h in table.members ==> !h.Matches(key, hash))
                && held == old(held) && lru == old(lru)
    {
      hide Inv, HandleTable.Valid;
      e := table.Lookup(key, hash);
      if e != null {
        CachedIsMade(held, table.members);
        Ref(e, held, table.members);
        held := held + multiset{e};
      }
    }

    lemma CachedIsMade(held: multiset<LRUHandle>, cached: set<LRUHandle>)
      requires Inv(held, cached)
      ensures cached <= made
    {
    }

    /** A client gives back a reference it holds. */
    method Release(e: LRUHandle)
      requires Valid() && e in held
      modifies this`lru, this`inUse, this`freed, this`held, made
      ensures Valid() && made == old(made) && held == old(held) - multiset{e}
      ensures freed == old(freed) + if e in held || e in table.members then [] else [e]
      ensures lru == old(lru) + if e !in held && e in table.members then [e] else []
    {
      hide Inv, HandleTable.Valid;
      HeldIsMade(held, table.members, e);
      Unref(e, held, table.members);
      held := held - multiset{e};
    }

    lemma HeldIsMade(held: multiset<LRUHandle>, cached: set<LRUHandle>, e: LRUHandle)
      requires Inv(held, cached) && e in held
      ensures e in made
    {
    }

    /** From now on the key is not found; its entry lives on for as long as clients hold it. */
    method Erase(key: Bytes, hash: nat) returns (ghost e: LRUHandle?)
      requires Valid()
      modifies this`lru, this`inUse, this`freed, this`usage, this`latest, table, made
      ensures Valid() && made == old(made) && latest == old(latest) - {(key, hash)}
      ensures if e != null then
                && e in old(table.members) && e.Matches(key, hash)
                && table.members == old(table.members) - {e} && usage == old(usage) - e.charge
                && freed == old(freed) + (if e in held then [] else [e])
              else
                && (forall h :: h in old(table.members) ==> !h.Matches(key, hash))
                && table.members == old(table.members) && freed == old(freed) && usage == old(usage)
    {
      hide Inv, HandleTable.Valid;
      CachedIsMade(held, table.members);
      ghost var cached := table.members;
      var removed := table.Remove(key, hash);
      if removed != null {
        FinishErase(removed, held, cached);
      }
      latest := latest - {(key, hash)};
      e := removed;
    }

    /** Throw out everything that no client refers to. */
    method Prune()
      requires Valid()
      modifies this`lru, this`inUse, this`freed, this`usage, table, made
      ensures Valid() && lru == [] && inUse == old(inUse) && freed == old(freed) + old(lru)
      ensures table.members == old(table.members) - Elements(old(lru))
    {
      hide Inv, HandleTable.Valid, OnlyLatest, TotalCharge;
      ghost var evicted: Chain := [];
      while lru != []
        invariant Valid() && made == old(made)
        invariant old(lru) == evicted + lru && inUse == old(inUse) && freed == old(freed) + evicted
        invariant table.members == old(table.members) - Elements(evicted)
        decreases |lru|
      {
        var oldest := lru[0];
        var erased := EraseOldest(oldest);
        assert Elements(evicted + [oldest]) == Elements(evicted) + {oldest};
        evicted := evicted + [oldest];
      }
    }

    /** Insert an entry in place of the one for the same key, then throw out old ones for it. */
    method Insert(key: Bytes, hash: nat, value: int, charge: nat)
      returns (e: LRUHandle, ghost replaced: LRUHandle?, ghost evicted: Chain)
      requires Valid()
      modifies this, table, made
      ensures Valid() && fresh(e) && e.Matches(key, hash) && e.value == value && e.charge == charge
      ensures held == old(held) + multiset{e} && made == old(made) + {e}
      ensures usage <= capacity || lru == []
      ensures evicted != [] ==> usage + evicted[|evicted| - 1].charge > capacity
      ensures latest == if capacity > 0 then old(latest)[(key, hash) := e] else old(latest)
      ensures usage == old(usage) + (if capacity > 0 then charge else 0)
                       - (if replaced != null then replaced.charge else 0) - TotalCharge(evicted)
      ensures if replaced != null then
                replaced in old(table.members) && replaced.Matches(key, hash)
              else
                capacity == 0 || forall h :: h in old(table.members) ==> !h.Matches(key, hash)
      ensures table.members == old(table.members) + (if capacity > 0 then {e} else {})
                               - (if replaced != null then {replaced} else {}) - Elements(evicted)
      ensures evicted + lru == if replaced != null && replaced !in old(held) then Without(old(lru), replaced) else old(lru)
      ensures freed == old(freed) + (if replaced != null && replaced !in old(held) then [replaced] else []) + evicted
    {
      hide Inv, HandleTable.Valid, OnlyLatest, TotalCharge, Without;
      e := Allocate(key, hash, value, charge);
      replaced := null;
      if capacity > 0 {
        replaced := Cache(e);
      }
      evicted := Evict();
    }

    method Cache(e: LRUHandle) returns (ghost replaced: LRUHandle?)
      requires Valid() && e in held && e !in table.members && capacity > 0
      modifies this`lru, this`inUse, this`freed, this`usage, this`latest, table, made
      ensures Valid() && made == old(made) && latest == old(latest)[(e.key, e.hash) := e]
      ensures if replaced != null then
                replaced in old(table.members) && replaced.Matches(e.key, e.hash)
              else
                forall h :: h in old(table.members) ==> !h.Matches(e.key, e.hash)
      ensures table.members == old(table.members) + {e} - if replaced != null then {replaced} else {}
      ensures lru == if replaced != null && replaced !in held then Without(old(lru), replaced) else old(lru)
      ensures usage == old(usage) + e.charge - if replaced != null then replaced.charge else 0
      ensures freed == old(freed) + if replaced != null && replaced !in held then [replaced] else []
    {
      hide Inv, HandleTable.Valid, OnlyLatest, Without;
      ghost var cached := table.members;
      HeldIsMade(held, cached, e);
      CachedIsMade(held, cached);
      Enter(e, cached);
      var prior := table.Insert(e);
      table.KeysDiffer();
      if prior != null {
        FinishErase(prior, held, cached + {e});
        assert cached - {prior} + {e} == cached + {e} - {prior};
      }
      NewestIsLatest(cached, table.members, latest, e);
      latest := latest[(e.key, e.hash) := e];
      replaced := prior;
    }

    lemma NothingHeld(cached: set<LRUHandle>)
      requires Inv(multiset{}, cached)
      ensures Distinct(lru) && Among(lru, made) && Distinct(freed + lru) && made == Elements(freed + lru)
      ensures forall j :: 0 <= j < |lru| ==> lru[j].refs == 1 && lru[j].inCache
    {
      hide TotalCharge;
      var nobody: multiset<LRUHandle> := multiset{};
      forall h | h in made
        ensures h in Elements(freed + lru)
      {
        assert Placed(h, nobody[h], h in cached);
      }
      forall j | 0 <= j < |lru|
        ensures lru[j].refs == 1 && lru[j].inCache && lru[j] !in freed
      {
        assert Placed(lru[j], nobody[lru[j]], lru[j] in cached);
      }
    }

    /** The end of the cache, once clients hold nothing: the deleter of every entry ever made has run, once. */
    method Destroy()
      requires Valid() && held == multiset{}
      modifies this`freed, made
      ensures Distinct(freed) && made == Elements(freed)
    {
      hide Inv, TotalCharge, HandleTable.Valid;
      NothingHeld(table.members);
      for i := 0 to |lru|
        invariant freed == old(freed) + lru[..i] && Distinct(lru) && Among(lru, made)
        invariant forall j :: i <= j < |lru| ==> lru[j].refs == 1 && lru[j].inCache
      {
        var e := lru[i];
        e.inCache := false;
        e.refs := e.refs - 1;
        if e.refs == 0 {
          freed := freed + [e];
        }
      }
      assert lru[..|lru|] == lru;
    }
  }

  /* ---- A client's whole trace ---- */

  /** What a client does; `Release` gives back the reference it got `index` others before the last. */
  datatype Op =
    | Insert(key: Bytes, hash: nat, value: int, charge: nat)
    | Lookup(key: Bytes, hash: nat)
    | Release(index: nat)
    | Erase(key: Bytes, hash: nat)
    | Prune

  /** What an unbounded map would hold for a key. */
  function LatestValue(ops: seq<Op>, key: Bytes, hash: nat): Option<int> {
    if ops == [] then None
    else
      var op := ops[|ops| - 1];
      if op.Insert? && op.key == key && op.hash == hash then Some(op.value)
      else if op.Erase? && op.key == key && op.hash == hash then None
      else LatestValue(ops[..|ops| - 1], key, hash)
  }

  function Inserted(ops: seq<Op>): seq<int> {
    if ops == [] then []
    else
      var op := ops[|ops| - 1];
      Inserted(ops[..|ops| - 1]) + if op.Insert? then [op.value] else []
  }

  function Charges(ops: seq<Op>): nat {
    if ops == [] then 0
    else
      var op := ops[|ops| - 1];
      Charges(ops[..|ops| - 1]) + if op.Insert? then op.charge else 0
  }

  /** Nothing has to be thrown out. */
  predicate Ample(capacity: nat, ops: seq<Op>) {
    capacity > 0 && Charges(ops) <= capacity && forall i :: 0 <= i < |ops| ==> ops[i] != Prune
  }

  function Values(s: Chain): seq<int> {
    if s == [] then [] else Values(s[..|s| - 1]) + [s[|s| - 1].value]
  }

  /** What lookups may find after some operations, and what they must if there is room for everything. */
  ghost predicate Tracks(latest: Latest, members: set<LRUHandle>, usage: nat, capacity: nat, ops: seq<Op>) {
    && (forall k <- latest :: LatestValue(ops, k.0, k.1) == Some(latest[k].value))
    && (Ample(capacity, ops) ==> Holding(latest, members, usage, ops))
  }

  ghost predicate Holding(latest: Latest, members: set<LRUHandle>, usage: nat, ops: seq<Op>) {
    && usage <= Charges(ops) && (forall k <- latest :: latest[k] in members)
    && forall k: Bytes, h: nat :: LatestValue(ops, k, h) != None ==> (k, h) in latest
  }

  lemma OneMore(ops: seq<Op>, op: Op)
    ensures (ops + [op])[..|ops|] == ops
    ensures forall capacity :: Ample(capacity, ops + [op]) ==> Ample(capacity, ops) && op != Prune
  {
    assert (ops + [op])[..|ops|] == ops;
    forall capacity | Ample(capacity, ops + [op])
      ensures Ample(capacity, ops) && op != Prune
    {
      forall i | 0 <= i < |ops|
        ensures ops[i] != Prune
      {
        assert (ops + [op])[i] == ops[i];
      }
      assert (ops + [op])[|ops|] == op;
    }
  }

  lemma AfterInsert(latest: Latest, members: set<LRUHandle>, usage: nat, ops: seq<Op>, op: Op, capacity: nat,
                    e: LRUHandle, replaced: LRUHandle?, evicted: Chain, members': set<LRUHandle>, usage': nat)
    requires op.Insert? && Tracks(latest, members, usage, capacity, ops) && OnlyLatest(members, latest) && capacity > 0
    requires e.Matches(op.key, op.hash) && e.value == op.value && e !in members
    requires replaced != null ==> replaced.Matches(op.key, op.hash)
    requires members' == members + {e} - (if replaced != null then {replaced} else {}) - Elements(evicted)
    requires usage' + TotalCharge(evicted) <= usage + op.charge
    requires evicted != [] ==> usage' + evicted[|evicted| - 1].charge > capacity
    requires replaced != e
    ensures Tracks(latest[(op.key, op.hash) := e], members', usage', capacity, ops + [op])
  {
    OneMore(ops, op);
    var all, key := ops + [op], (op.key, op.hash);
    var latest' := latest[key := e];
    forall k <- latest'
      ensures LatestValue(all, k.0, k.1) == Some(latest'[k].value)
    {
      if k != key {
        assert k in latest;
      }
    }
    if Ample(capacity, all) {
      assert evicted == [];
      assert Elements(evicted) == {};
      forall k: Bytes, h: nat | LatestValue(all, k, h) != None
        ensures (k, h) in latest'
      {
        assert (k, h) != key ==> LatestValue(ops, k, h) != None;
      }
    }
  }

  /** Erasing a key, whether or not it is cached. */
  lemma AfterErase(latest: Latest, members: set<LRUHandle>, usage: nat, ops: seq<Op>, op: Op, capacity: nat,
                   e: LRUHandle?, members': set<LRUHandle>, usage': nat)
    requires op.Erase? && Tracks(latest, members, usage, capacity, ops) && OnlyLatest(members, latest)
    requires e != null ==> e.Matches(op.key, op.hash)
    requires members' == (if e != null then members - {e} else members) && usage' <= usage
    ensures Tracks(latest - {(op.key, op.hash)}, members', usage', capacity, ops + [op])
  {
    OneMore(ops, op);
    var all, key := ops + [op], (op.key, op.hash);
    var latest' := latest - {key};
    forall k <- latest'
      ensures LatestValue(all, k.0, k.1) == Some(latest'[k].value)
    {
      assert k in latest;
    }
    if Ample(capacity, all) {
      forall k: Bytes, h: nat | LatestValue(all, k, h) != None
        ensures (k, h) in latest'
      {
        assert (k, h) != key && LatestValue(ops, k, h) != None;
      }
    }
  }

  /** Operations that change no key: a lookup, a release, a pruning, an insertion without a cache. */
  lemma AfterOther(latest: Latest, members: set<LRUHandle>, usage: nat, ops: seq<Op>, op: Op, capacity: nat,
                   members': set<LRUHandle>, usage': nat)
    requires Tracks(latest, members, usage, capacity, ops) && !op.Erase?
    requires op.Insert? ==> capacity == 0 && latest == map[]
    requires op.Prune? || op.Insert? || (members' == members && usage' <= usage)
    ensures Tracks(latest, members', usage', capacity, ops + [op])
  {
    OneMore(ops, op);
    var all := ops + [op];
    if Ample(capacity, all) {
      forall k: Bytes, h: nat | LatestValue(all, k, h) != None
        ensures (k, h) in latest
      {
        assert LatestValue(ops, k, h) != None;
      }
    }
  }

  ghost predicate Traced(cache: LRUCache, ops: seq<Op>, handles: seq<LRUHandle>, inserted: Chain)
    reads cache, cache.table, cache.made
  {
    && cache.Valid() && cache.held == multiset(handles)
    && Distinct(inserted) && cache.made == Elements(inserted) && Values(inserted) == Inserted(ops)
    && Tracks(cache.latest, cache.table.members, cache.usage, cache.capacity, ops)
  }

  lemma MadeOneMore(inserted: Chain, e: LRUHandle, ops: seq<Op>, op: Op)
    requires Distinct(inserted) && e !in Elements(inserted) && Values(inserted) == Inserted(ops)
    requires op.Insert? && e.value == op.value
    ensures Distinct(inserted + [e]) && Elements(inserted + [e]) == Elements(inserted) + {e}
    ensures Values(inserted + [e]) == Inserted(ops + [op])
  {
    assert (inserted + [e])[..|inserted|] == inserted && (ops + [op])[..|ops|] == ops;
  }

  method ApplyInsert(cache: LRUCache, ghost ops: seq<Op>, op: Op, handles: seq<LRUHandle>, ghost inserted: Chain)
    returns (e: LRUHandle)
    requires Traced(cache, ops, handles, inserted) && op.Insert?
    modifies cache, cache.table, cache.made
    ensures Traced(cache, ops + [op], handles + [e], inserted + [e]) && fresh(cache.made - old(cache.made))
  {
    hide LRUCache.Inv, HandleTable.Valid, OnlyLatest, TotalCharge, Tracks, Distinct, Elements, Without, Values, Inserted;
    ghost var latest, members, usage := cache.latest, cache.table.members, cache.usage;
    cache.CachedIsMade(cache.held, members);
    ghost var replaced, evicted;
    e, replaced, evicted := cache.Insert(op.key, op.hash, op.value, op.charge);
    if cache.capacity > 0 {
      AfterInsert(latest, members, usage, ops, op, cache.capacity, e, replaced, evicted, cache.table.members, cache.usage);
    } else {
      AfterOther(latest, members, usage, ops, op, cache.capacity, cache.table.members, cache.usage);
    }
    MadeOneMore(inserted, e, ops, op);
  }

  method ApplyLookup(cache: LRUCache, ghost ops: seq<Op>, op: Op, handles: seq<LRUHandle>, ghost inserted: Chain)
    returns (e: LRUHandle?)
    requires Traced(cache, ops, handles, inserted) && op.Lookup?
    modifies cache, cache.made
    ensures Traced(cache, ops + [op], if e != null then handles + [e] else handles, inserted)
    ensures cache.made == old(cache.made)
    ensures e != null ==> LatestValue(ops, op.key, op.hash) == Some(e.value)
    ensures e == null && Ample(cache.capacity, ops) ==> LatestValue(ops, op.key, op.hash) == None
  {
    hide LRUCache.Inv, HandleTable.Valid, TotalCharge, Distinct, Elements, Without, Values, Inserted, LatestValue, Ample;
    ghost var members, usage := cache.table.members, cache.usage;
    e := cache.Lookup(op.key, op.hash);
    AfterOther(cache.latest, members, usage, ops, op, cache.capacity, members, usage);
    NothingMade(ops, op);
    assert multiset(handles + [e]) == multiset(handles) + multiset{e};
  }

  lemma NothingMade(ops: seq<Op>, op: Op)
    requires !op.Insert?
    ensures Inserted(ops + [op]) == Inserted(ops)
  {
    assert (ops + [op])[..|ops|] == ops;
  }

  method ApplyRelease(cache: LRUCache, ghost ops: seq<Op>, op: Op, handles0: seq<LRUHandle>, ghost inserted: Chain)
    returns (handles: seq<LRUHandle>)
    requires Traced(cache, ops, handles0, inserted) && op.Release?
    modifies cache, cache.made
    ensures Traced(cache, ops + [op], handles, inserted) && cache.made == old(cache.made)
  {
    hide LRUCache.Valid, TotalCharge, Tracks, Distinct, Elements, Values, Inserted;
    AfterOther(cache.latest, cache.table.members, cache.usage, ops, op, cache.capacity, cache.table.members, cache.usage);
    NothingMade(ops, op);
    handles := handles0;
    if op.index < |handles| {
      cache.Release(handles[op.index]);
      handles := ReleasedAt(handles, op.index);
    }
  }

  method ApplyErasure(cache: LRUCache, ghost ops: seq<Op>, op: Op, ghost handles: seq<LRUHandle>, ghost inserted: Chain)
    requires Traced(cache, ops, handles, inserted) && (op.Erase? || op.Prune?)
    modifies cache, cache.table, cache.made
    ensures Traced(cache, ops + [op], handles, inserted) && cache.made == old(cache.made)
  {
    hide LRUCache.Inv, HandleTable.Valid, OnlyLatest, TotalCharge, Tracks, Distinct, Elements, Values, Inserted;
    ghost var latest, members, usage := cache.latest, cache.table.members, cache.usage;
    NothingMade(ops, op);
    if op.Erase? {
      ghost var e := cache.Erase(op.key, op.hash);
      AfterErase(latest, members, usage, ops, op, cache.capacity, e, cache.table.members, cache.usage);
    } else {
      cache.Prune();
      AfterOther(latest, members, usage, ops, op, cache.capacity, cache.table.members, cache.usage);
    }
  }

  method Apply(cache: LRUCache, ghost ops: seq<Op>, op: Op, handles0: seq<LRUHandle>, ghost inserted0: Chain)
    returns (answer: Option<int>, handles: seq<LRUHandle>, ghost inserted: Chain)
    requires Traced(cache, ops, handles0, inserted0)
    modifies cache, cache.table, cache.made
    ensures Traced(cache, ops + [op], handles, inserted) && fresh(cache.made - old(cache.made))
    ensures answer != None ==> op.Lookup? && answer == LatestValue(ops, op.key, op.hash)
    ensures op.Lookup? && Ample(cache.capacity, ops) ==> answer == LatestValue(ops, op.key, op.hash)
  {
    hide Traced, LatestValue, Ample;
    answer, handles, inserted := None, handles0, inserted0;
    match op
    case Insert(_, _, _, _) =>
      var e := ApplyInsert(cache, ops, op, handles, inserted);
      handles, inserted := handles + [e], inserted + [e];
    case Lookup(_, _) =>
      var e := ApplyLookup(cache, ops, op, handles, inserted);
      if e != null {
        answer, handles := Some(e.value), handles + [e];
      }
    case Release(_) =>
      handles := ApplyRelease(cache, ops, op, handles, inserted);
    case _ =>
      ApplyErasure(cache, ops, op, handles, inserted);
  }

  function ReleasedAt(handles: seq<LRUHandle>, index: nat): (r: seq<LRUHandle>)
    requires index < |handles|
    ensures multiset(r) == multiset(handles) - multiset{handles[index]}
  {
    assert handles == handles[..index] + [handles[index]] + handles[index + 1..];
    handles[..index] + handles[index + 1..]
  }

  lemma Untraced(cache: LRUCache)
    requires cache.Valid() && cache.held == multiset{} && cache.made == {} && cache.latest == map[]
    requires cache.usage == 0
    ensures Traced(cache, [], [], [])
  {
    hide LRUCache.Valid;
  }

  lemma {:induction false} AmpleThroughout(capacity: nat, ops: seq<Op>, i: nat)
    requires Ample(capacity, ops) && i <= |ops|
    ensures Ample(capacity, ops[..i])
    decreases |ops| - i
  {
    if i < |ops| {
      AmpleThroughout(capacity, ops, i + 1);
      assert ops[..i + 1] == ops[..i] + [ops[i]];
      OneMore(ops[..i], ops[i]);
    } else {
      assert ops[..i] == ops;
    }
  }

  lemma {:induction false} ValueTakenOut(s: Chain, e: LRUHandle)
    requires e in s
    ensures multiset(Values(s)) == multiset(Values(Without(s, e))) + multiset{e.value}
  {
    FirstValue(s);
    if s[0] != e {
      var rest := Without(s[1..], e);
      ValueTakenOut(s[1..], e);
      FirstValue([s[0]] + rest);
      assert ([s[0]] + rest)[1..] == rest;
    }
  }

  lemma {:induction false} FirstValue(s: Chain)
    requires s != []
    ensures Values(s) == [s[0].value] + Values(s[1..])
  {
    var n := |s| - 1;
    if n > 0 {
      FirstValue(s[..n]);
      assert s[..n][1..] == s[1..][..n - 1];
    } else {
      assert s[1..] == [] && s[..n] == [];
    }
  }

  /** The same entries in any order have the same values. */
  lemma {:induction false} SameValues(a: Chain, b: Chain)
    requires Distinct(a) && Distinct(b) && Elements(a) == Elements(b)
    ensures multiset(Values(a)) == multiset(Values(b))
    decreases |a|
  {
    if a == [] {
      SomeElement(b);
    } else {
      var e := a[0];
      assert e in Elements(a);
      TakenOut(b, e);
      ValueTakenOut(b, e);
      ValueTakenOut(a, e);
      ElementsWithout(a, b, e);
      SameValues(a[1..], Without(b, e));
    }
  }

  lemma SomeElement(s: Chain)
    ensures s != [] ==> Elements(s) != {}
  {
    if s != [] {
      assert s[0] in Elements(s);
    }
  }

  lemma ElementsWithout(a: Chain, b: Chain, e: LRUHandle)
    requires Distinct(a) && Distinct(b) && Elements(a) == Elements(b) && a != [] && e == a[0]
    ensures Without(a, e) == a[1..] && Distinct(a[1..]) && Elements(a[1..]) == Elements(Without(b, e))
  {
    assert e in Elements(b);
    TakenOut(b, e);
    forall h | h in Elements(a[1..])
      ensures h in Elements(Without(b, e))
    {
      assert h in Elements(a);
      var i :| 0 <= i < |b| && b[i] == h;
    }
    forall h | h in Elements(Without(b, e))
      ensures h in Elements(a[1..])
    {
      var i :| 0 <= i < |Without(b, e)| && Without(b, e)[i] == h;
      assert h in Elements(b);
      assert h in Elements(a);
    }
  }

  method ReleaseAll(cache: LRUCache, handles: seq<LRUHandle>, ghost ops: seq<Op>, ghost inserted: Chain)
    returns (deleted: seq<int>)
    requires Traced(cache, ops, handles, inserted)
    modifies cache, cache.made
    ensures multiset(deleted) == multiset(Inserted(ops))
  {
    hide LRUCache.Valid, Distinct, Elements, Values, Inserted, Tracks;
    for i := 0 to |handles|
      invariant cache.Valid() && cache.held == multiset(handles[i..]) && cache.made == old(cache.made)
    {
      assert handles[i..] == [handles[i]] + handles[i + 1..];
      cache.Release(handles[i]);
    }
    cache.Destroy();
    SameValues(inserted, cache.freed);
    deleted := Values(cache.freed);
  }

  /**
    Any client.  A lookup that succeeds finds what the last insertion for its key put there, unless that
    was erased; with room for everything it always does.  Once the client has given up its references and
    the cache is destroyed, every inserted value has had its deleter run exactly once.
   */
  method Run(capacity: nat, ops: seq<Op>) returns (answers: seq<Option<int>>, deleted: seq<int>)
    ensures |answers| == |ops|
    ensures forall i :: 0 <= i < |ops| && answers[i] != None ==>
              ops[i].Lookup? && answers[i] == LatestValue(ops[..i], ops[i].key, ops[i].hash)
    ensures Ample(capacity, ops) ==> forall i :: 0 <= i < |ops| && ops[i].Lookup? ==>
              answers[i] == LatestValue(ops[..i], ops[i].key, ops[i].hash)
    ensures multiset(deleted) == multiset(Inserted(ops))
  {
    hide LRUCache.Valid, HandleTable.Valid, OnlyLatest, TotalCharge, Distinct, Elements, Without, Inserted, LatestValue;
    var cache := new LRUCache(capacity);
    var handles: seq<LRUHandle>;
    ghost var inserted: Chain;
    answers, handles, inserted := [], [], [];
    Untraced(cache);
    for i := 0 to |ops|
      invariant fresh(cache) && fresh(cache.table) && fresh(cache.made) && cache.capacity == capacity
      invariant Traced(cache, ops[..i], handles, inserted) && |answers| == i
      invariant forall j :: 0 <= j < i && answers[j] != None ==>
                  ops[j].Lookup? && answers[j] == LatestValue(ops[..j], ops[j].key, ops[j].hash)
      invariant forall j :: 0 <= j < i && ops[j].Lookup? && Ample(capacity, ops[..j]) ==>
                  answers[j] == LatestValue(ops[..j], ops[j].key, ops[j].hash)
    {
      var answer;
      answer, handles, inserted := Apply(cache, ops[..i], ops[i], handles, inserted);
      answers := answers + [answer];
      assert ops[..i + 1] == ops[..i] + [ops[i]];
    }
    assert ops[..|ops|] == ops;
    deleted := ReleaseAll(cache, handles, ops, inserted);
    forall i | 0 <= i < |ops| && Ample(capacity, ops)
      ensures Ample(capacity, ops[..i])
    {
      AmpleThroughout(capacity, ops, i);
    }
  }
}
