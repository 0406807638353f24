/**
  A write batch as bytes: sequence number, count, and one record per update.
 */
module WriteBatch {
  import opened Wrappers
  import opened ByteCoding

  const HEADER: nat := 12
  const DELETION: Byte := 0
  const VALUE: Byte := 1

  datatype Update = Put(key: Bytes, value: Bytes) | Delete(key: Bytes)

  predicate Sized(u: Update) {
    |u.key| < TWO_32 && (u.Put? ==> |u.value| < TWO_32)
  }

  function EncodeUpdate(u: Update): (r: Bytes)
    ensures r != []
  {
    match u
    case Put(key, value) => [VALUE] + LengthPrefixed(key) + LengthPrefixed(value)
    case Delete(key) => [DELETION] + LengthPrefixed(key)
  }

  function EncodeUpdates(us: seq<Update>): Bytes {
    if us == [] then [] else EncodeUpdate(us[0]) + EncodeUpdates(us[1..])
  }

  lemma {:induction false} EncodeConcat(us: seq<Update>, vs: seq<Update>)
    ensures EncodeUpdates(us + vs) == EncodeUpdates(us) + EncodeUpdates(vs)
  {
    hide EncodeUpdate;
    if us == [] {
      assert us + vs == vs;
    } else {
      assert (us + vs)[1..] == us[1..] + vs;
      EncodeConcat(us[1..], vs);
    }
  }

  /** The update at the front; nothing if its tag is unknown or it is cut short. */
  function GetUpdate(s: Bytes): (r: Option<Front<Update>>)
    requires s != []
    ensures r.Some? ==> |r.value.rest| < |s|
  {
    var key := GetLengthPrefixed(s[1..]);
    if key.None? then None
    else if s[0] == VALUE then
      var value := GetLengthPrefixed(key.value.rest);
      if value.None? then None else Some(Front(Put(key.value.value, value.value.value), value.value.rest))
    else if s[0] == DELETION then Some(Front(Delete(key.value.value), key.value.rest))
    else None
  }

  /** The updates up to the first that cannot be read, and whether there is none. */
  function GetUpdates(s: Bytes): (r: (seq<Update>, bool))
    decreases |s|
  {
    if s == [] then ([], true)
    else
      var u := GetUpdate(s);
      if u.None? then ([], false)
      else
        var (us, ok) := GetUpdates(u.value.rest);
        ([u.value.value] + us, ok)
  }

  lemma GetUpdateInverts(u: Update, rest: Bytes)
    requires Sized(u)
    ensures GetUpdate(EncodeUpdate(u) + rest) == Some(Front(u, rest))
  {
    hide LengthPrefixed, GetLengthPrefixed;
    var s := EncodeUpdate(u) + rest;
    if u.Put? {
      assert s[1..] == LengthPrefixed(u.key) + (LengthPrefixed(u.value) + rest);
      GetLengthPrefixedInverts(u.key, LengthPrefixed(u.value) + rest);
      GetLengthPrefixedInverts(u.value, rest);
    } else {
      assert s[1..] == LengthPrefixed(u.key) + rest;
      GetLengthPrefixedInverts(u.key, rest);
    }
  }

  /** Every update written is read back, in order. */
  lemma {:induction false} GetUpdatesInverts(us: seq<Update>)
    requires forall i :: 0 <= i < |us| ==> Sized(us[i])
    ensures GetUpdates(EncodeUpdates(us)) == (us, true)
  {
    hide EncodeUpdate, GetUpdate, Sized;
    if us != [] {
      GetUpdateInverts(us[0], EncodeUpdates(us[1..]));
      GetUpdatesInverts(us[1..]);
      assert us == [us[0]] + us[1..];
    }
  }

  lemma GetUpdateLocal(s: Bytes, more: Bytes)
    requires s != [] && GetUpdate(s).Some?
    ensures GetUpdate(s + more) == Some(Front(GetUpdate(s).value.value, GetUpdate(s).value.rest + more))
  {
    hide GetLengthPrefixed;
    assert (s + more)[1..] == s[1..] + more;
    GetLengthPrefixedLocal(s[1..], more);
    if s[0] == VALUE {
      GetLengthPrefixedLocal(GetLengthPrefixed(s[1..]).value.rest, more);
    }
  }

  /** Reading stops, and says so, at bytes that are no update. */
  lemma {:induction false} StopsAt(us: seq<Update>, bad: Bytes)
    requires (forall i :: 0 <= i < |us| ==> Sized(us[i])) && bad != [] && GetUpdate(bad) == None
    ensures GetUpdates(EncodeUpdates(us) + bad) == (us, false)
  {
    hide EncodeUpdate, GetUpdate, Sized;
    if us == [] {
      assert EncodeUpdates(us) + bad == bad;
    } else {
      var rest := EncodeUpdates(us[1..]) + bad;
      assert EncodeUpdates(us) + bad == EncodeUpdate(us[0]) + rest;
      GetUpdateInverts(us[0], rest);
      StopsAt(us[1..], bad);
      assert us == [us[0]] + us[1..];
    }
  }

  /** Tags other than those of a deletion, 0, and a value, 1, are refused. */
  lemma UnknownTagRefused(us: seq<Update>, tag: Byte, tail: Bytes)
    requires (forall i :: 0 <= i < |us| ==> Sized(us[i])) && tag > 1
    ensures GetUpdates(EncodeUpdates(us) + [tag] + tail) == (us, false)
  {
    hide EncodeUpdates;
    StopsAt(us, [tag] + tail);
    assert EncodeUpdates(us) + [tag] + tail == EncodeUpdates(us) + ([tag] + tail);
  }

  /** Of a batch that is cut within an update, the updates before it are read and the cut is noticed. */
  lemma CutShortRefused(us: seq<Update>, u: Update, n: nat)
    requires (forall i :: 0 <= i < |us| ==> Sized(us[i])) && Sized(u) && 0 < n < |EncodeUpdate(u)|
    ensures GetUpdates(EncodeUpdates(us) + EncodeUpdate(u)[..n]) == (us, false)
  {
    hide EncodeUpdates, EncodeUpdate, GetUpdate;
    var all, cut := EncodeUpdate(u), EncodeUpdate(u)[..n];
    GetUpdateInverts(u, []);
    assert cut + all[n..] == all && all + [] == all;
    if GetUpdate(cut).Some? {
      GetUpdateLocal(cut, all[n..]);
    }
    StopsAt(us, cut);
  }

  /** An update with the sequence number it takes effect at. */
  datatype Numbered = Numbered(sequence: nat, update: Update)

  function NumberFrom(s: nat, us: seq<Update>): seq<Numbered> {
    seq(|us|, i requires 0 <= i < |us| => Numbered(s + i, us[i]))
  }

  /** Header and records of a batch that fits its fields. */
  ghost predicate Encodes(rep: Bytes, sequence: nat, updates: seq<Update>) {
    && sequence < TWO_64 && |updates| < TWO_32 && (forall i :: 0 <= i < |updates| ==> Sized(updates[i]))
    && rep == Fixed(sequence, 8) + Fixed(|updates|, 4) + EncodeUpdates(updates)
  }

  class WriteBatch {
    var rep: Bytes
    ghost var sequence: nat
    ghost var updates: seq<Update>

    ghost predicate Valid()
      reads this
    {
      Encodes(rep, sequence, updates)
    }

    constructor ()
      ensures Valid() && sequence == 0 && updates == []
    {
      rep := seq(HEADER, i => 0);
      sequence, updates := 0, [];
      new;
      ZeroFixed(8);
      ZeroFixed(4);
    }

    method Count() returns (n: nat)
      requires |rep| >= HEADER
      ensures n == ReadFixed(rep[8..HEADER])
      ensures Valid() ==> n == |updates|
    {
      n := ReadFixed(rep[8..HEADER]);
      if Valid() {
        HeaderReads(rep, sequence, updates);
      }
    }

    method Sequence() returns (s: nat)
      requires |rep| >= HEADER
      ensures s == ReadFixed(rep[..8])
      ensures Valid() ==> s == sequence
    {
      s := ReadFixed(rep[..8]);
      if Valid() {
        HeaderReads(rep, sequence, updates);
      }
    }

    /** The count in the header, in 32 bits. */
    method SetCount(n: nat)
      requires |rep| >= HEADER
      modifies this`rep
      ensures rep == old(rep)[..8] + Fixed(n, 4) + old(rep)[HEADER..]
    {
      rep := rep[..8] + Fixed(n, 4) + rep[HEADER..];
    }

    method SetSequence(s: nat)
      requires Valid() && s < TWO_64
      modifies this
      ensures Valid() && sequence == s && updates == old(updates)
    {
      hide Fixed, EncodeUpdates;
      rep := Fixed(s, 8) + rep[8..];
      sequence := s;
    }

    method Put(key: Bytes, value: Bytes)
      requires Valid() && |key| < TWO_32 && |value| < TWO_32 && |updates| + 1 < TWO_32
      modifies this
      ensures Valid() && sequence == old(sequence) && updates == old(updates) + [Update.Put(key, value)]
    {
      hide Fixed, ReadFixed, EncodeUpdates, LengthPrefixed, Encodes;
      ghost var u := Update.Put(key, value);
      Grown(rep, sequence, updates, [u]);
      var n := Count();
      SetCount(n + 1);
      ghost var counted := rep;
      rep := rep + [VALUE];
      rep := rep + LengthPrefixed(key);
      rep := rep + LengthPrefixed(value);
      OneUpdate(u);
      assert rep == counted + EncodeUpdate(u);
      updates := updates + [u];
    }

    method Delete(key: Bytes)
      requires Valid() && |key| < TWO_32 && |updates| + 1 < TWO_32
      modifies this
      ensures Valid() && sequence == old(sequence) && updates == old(updates) + [Update.Delete(key)]
    {
      hide Fixed, ReadFixed, EncodeUpdates, LengthPrefixed, Encodes;
      ghost var u := Update.Delete(key);
      Grown(rep, sequence, updates, [u]);
      var n := Count();
      SetCount(n + 1);
      ghost var counted := rep;
      rep := rep + [DELETION];
      rep := rep + LengthPrefixed(key);
      OneUpdate(u);
      assert rep == counted + EncodeUpdate(u);
      updates := updates + [u];
    }

    /** All updates of another batch after those of this one; what a group of writers logs together. */
    method Append(source: WriteBatch)
      requires Valid() && source.Valid() && |updates| + |source.updates| < TWO_32
      modifies this
      ensures Valid() && sequence == old(sequence) && updates == old(updates + source.updates)
    {
      hide Fixed, ReadFixed, EncodeUpdates, Encodes;
      HeaderReads(source.rep, source.sequence, source.updates);
      SizedUpdates(source.rep, source.sequence, source.updates);
      Grown(rep, sequence, updates, source.updates);
      var n := Count();
      var m := source.Count();
      var tail := source.rep[HEADER..];
      ghost var all := updates + source.updates;
      SetCount(n + m);
      rep := rep + tail;
      updates := all;
    }

    /** What recovery does with a record of the log. */
    method SetContents(contents: Bytes, ghost s: nat, ghost us: seq<Update>)
      requires |contents| >= HEADER
      modifies this
      ensures rep == contents && sequence == s && updates == us
    {
      rep := contents;
      sequence, updates := s, us;
    }

    lemma HasHeader()
      requires Valid()
      ensures |rep| >= HEADER
    {
    }

    /** Hand the updates over one by one; the count in the header must be right. */
    method Iterate() returns (handled: seq<Update>, ok: bool)
      ensures Valid() ==> ok && handled == updates
      ensures handled == if |rep| < HEADER then [] else GetUpdates(rep[HEADER..]).0
      ensures ok <==> |rep| >= HEADER && GetUpdates(rep[HEADER..]).1 && |handled| == ReadFixed(rep[8..HEADER])
    {
      hide Fixed, ReadFixed, EncodeUpdates, GetUpdate, Encodes;
      handled, ok := [], false;
      if Valid() {
        HeaderReads(rep, sequence, updates);
        SizedUpdates(rep, sequence, updates);
        GetUpdatesInverts(updates);
      }
      if |rep| < HEADER {
        return;
      }
      var input := rep[HEADER..];
      assert [] + GetUpdates(input).0 == GetUpdates(input).0;
      while input != []
        invariant GetUpdates(rep[HEADER..]) == (handled + GetUpdates(input).0, GetUpdates(input).1)
        decreases |input|
      {
        var u := GetUpdate(input);
        if u.None? {
          assert handled + [] == handled;
          return;
        }
        assert handled + ([u.value.value] + GetUpdates(u.value.rest).0) == handled + [u.value.value] + GetUpdates(u.value.rest).0;
        handled := handled + [u.value.value];
        input := u.value.rest;
      }
      assert handled + [] == handled;
      var n := Count();
      ok := |handled| == n;
    }

    /** Apply the updates to a memtable: each takes the next sequence number, from the batch's on. */
    method InsertInto(mem: seq<Numbered>) returns (mem': seq<Numbered>, ok: bool)
      requires |rep| >= HEADER
      ensures Valid() ==> ok && mem' == mem + NumberFrom(sequence, updates)
    {
      hide Fixed, ReadFixed, EncodeUpdates, GetUpdates, Encodes;
      var handled;
      handled, ok := Iterate();
      mem' := mem;
      var s := Sequence();
      for i := 0 to |handled|
        invariant mem' == mem + NumberFrom(s, handled)[..i]
      {
        mem' := mem' + [Numbered(s + i, handled[i])];
      }
    }
  }

  /** With the count rewritten and more records at the end, the bytes are those of a longer batch. */
  lemma Grown(rep: Bytes, sequence: nat, us: seq<Update>, vs: seq<Update>)
    requires Encodes(rep, sequence, us) && |us| + |vs| < TWO_32 && forall i :: 0 <= i < |vs| ==> Sized(vs[i])
    ensures |rep| >= HEADER
    ensures Encodes(rep[..8] + Fixed(|us| + |vs|, 4) + rep[HEADER..] + EncodeUpdates(vs), sequence, us + vs)
  {
    hide Fixed, EncodeUpdates, Sized;
    EncodeConcat(us, vs);
    assert rep[..8] == Fixed(sequence, 8) && rep[HEADER..] == EncodeUpdates(us);
  }

  lemma OneUpdate(u: Update)
    ensures EncodeUpdates([u]) == EncodeUpdate(u)
  {
    hide EncodeUpdate;
    assert EncodeUpdates([u]) == EncodeUpdate(u) + EncodeUpdates([]);
  }

  lemma SizedUpdates(rep: Bytes, sequence: nat, us: seq<Update>)
    requires Encodes(rep, sequence, us)
    ensures forall i :: 0 <= i < |us| ==> Sized(us[i])
  {
  }

  lemma ZeroFixed(k: nat)
    ensures Fixed(0, k) == seq(k, i => 0)
  {
  }

  lemma HeaderReads(rep: Bytes, sequence: nat, updates: seq<Update>)
    requires Encodes(rep, sequence, updates)
    ensures |rep| >= HEADER && ReadFixed(rep[..8]) == sequence && ReadFixed(rep[8..HEADER]) == |updates|
    ensures rep[HEADER..] == EncodeUpdates(updates)
  {
    hide Fixed, ReadFixed, EncodeUpdates;
    Powers256();
    FixedRoundTrip(sequence, 8);
    FixedRoundTrip(|updates|, 4);
    assert rep[..8] == Fixed(sequence, 8) && rep[8..HEADER] == Fixed(|updates|, 4);
  }

  /* ---- From a client's updates to the memtable ---- */

  function Flatten(groups: seq<seq<Update>>): seq<Update> {
    if groups == [] then [] else Flatten(groups[..|groups| - 1]) + groups[|groups| - 1]
  }

  lemma {:induction false} FlattenGrows(groups: seq<seq<Update>>, i: nat)
    requires i < |groups|
    ensures Flatten(groups[..i + 1]) == Flatten(groups[..i]) + groups[i]
    ensures |Flatten(groups[..i])| + |groups[i]| <= |Flatten(groups)|
    decreases |groups|
  {
    var n := |groups| - 1;
    assert groups[..i + 1][..i] == groups[..i];
    if i < n {
      FlattenGrows(groups[..n], i);
      assert groups[..n][..i] == groups[..i] && groups[..n][..i + 1] == groups[..i + 1];
    }
  }

  method BatchOf(us: seq<Update>) returns (b: WriteBatch)
    requires |us| < TWO_32 && forall i :: 0 <= i < |us| ==> Sized(us[i])
    ensures fresh(b) && b.Valid() && b.updates == us
  {
    hide Encodes;
    b := new WriteBatch();
    for i := 0 to |us|
      invariant fresh(b) && b.Valid() && b.updates == us[..i]
    {
      assert us[..i + 1] == us[..i] + [us[i]] && Sized(us[i]);
      match us[i]
      case Put(key, value) => b.Put(key, value);
      case Delete(key) => b.Delete(key);
    }
    assert us[..|us|] == us;
  }

  /**
    Batches put together by a leader, through the bytes it logs, reach the memtable as all their updates
    in order, with consecutive sequence numbers.
   */
  method ApplyGroup(groups: seq<seq<Update>>, sequence: nat, mem: seq<Numbered>) returns (mem': seq<Numbered>)
    requires sequence < TWO_64 && |Flatten(groups)| < TWO_32
    requires forall g, i :: 0 <= g < |groups| && 0 <= i < |groups[g]| ==> Sized(groups[g][i])
    ensures mem' == mem + NumberFrom(sequence, Flatten(groups))
  {
    hide Encodes, Sized;
    var group := new WriteBatch();
    for g := 0 to |groups|
      invariant fresh(group) && group.Valid() && group.updates == Flatten(groups[..g])
    {
      FlattenGrows(groups, g);
      var b := BatchOf(groups[g]);
      group.Append(b);
    }
    assert groups[..|groups|] == groups;
    group.SetSequence(sequence);
    var logged := new WriteBatch();
    group.HasHeader();
    logged.SetContents(group.rep, sequence, Flatten(groups));
    var ok;
    mem', ok := logged.InsertInto(mem);
  }
}
