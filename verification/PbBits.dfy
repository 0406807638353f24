/**
  nanopb: the words in which the decoder notes the required fields it has seen, and how it compares them.
 */
module PbBits {
  import opened ByteCoding

  const WORD_BITS: nat := 32

  /** w |= 1 << k */
  function WithBit(w: nat, k: nat): nat {
    if Bit(w, k) then w else w + Power2(k)
  }

  /** ~0 >> (32 - n) */
  function LowBits(n: nat): nat {
    Power2(n) - 1
  }

  /** The word of `n` bits for the fields from `base` on. */
  function Word(seen: set<nat>, base: nat, n: nat): (r: nat)
    ensures r < Power2(n)
    decreases n
  {
    if n == 0 then 0 else (if base in seen then 1 else 0) + 2 * Word(seen, base + 1, n - 1)
  }

  lemma {:induction false} BitIsSeen(seen: set<nat>, base: nat, k: nat, n: nat)
    requires k < n
    ensures Bit(Word(seen, base, n), k) <==> base + k in seen
    decreases k
  {
    if k > 0 {
      BitIsSeen(seen, base + 1, k - 1, n - 1);
      assert Word(seen, base, n) / 2 == Word(seen, base + 1, n - 1);
    }
  }

  lemma {:induction false} OtherWord(seen: set<nat>, base: nat, i: nat, n: nat)
    requires i < base || base + n <= i
    ensures Word(seen + {i}, base, n) == Word(seen, base, n)
    decreases n
  {
    if n > 0 {
      OtherWord(seen, base + 1, i, n - 1);
    }
  }

  lemma {:induction false} OneMoreBit(seen: set<nat>, base: nat, k: nat, n: nat)
    requires k < n && base + k !in seen
    ensures Word(seen + {base + k}, base, n) == Word(seen, base, n) + Power2(k)
    decreases n
  {
    if k == 0 {
      OtherWord(seen, base + 1, base, n - 1);
    } else {
      OneMoreBit(seen, base + 1, k - 1, n - 1);
      assert base + 1 + (k - 1) == base + k;
    }
  }

  /** Setting a bit of the word is adding a field to the set. */
  lemma WithBitIsSeen(seen: set<nat>, base: nat, k: nat, n: nat)
    requires k < n
    ensures WithBit(Word(seen, base, n), k) == Word(seen + {base + k}, base, n)
  {
    BitIsSeen(seen, base, k, n);
    if base + k in seen {
      assert seen + {base + k} == seen;
    } else {
      OneMoreBit(seen, base, k, n);
    }
  }

  /** The comparison with a word of ones: right only because no bit above them is ever set. */
  lemma {:induction false} AllSeen(seen: set<nat>, base: nat, r: nat, n: nat)
    requires r <= n && forall i :: base + r <= i < base + n ==> i !in seen
    ensures Word(seen, base, n) == LowBits(r) <==> forall i :: base <= i < base + r ==> i in seen
    decreases n
  {
    if n > 0 {
      AllSeen(seen, base + 1, if r > 0 then r - 1 else 0, n - 1);
    }
  }
}
