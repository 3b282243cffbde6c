/** Bits of machine words.  Words are numbers; the C expressions on bit k follow their
    binary digits.
 */
module Bits {

  /** w & (1 << k) */
  predicate Has(w: nat, k: nat)
  {
    if k == 0 then w % 2 == 1 else Has(w / 2, k - 1)
  }

  /** w | (1 << k) */
  function With(w: nat, k: nat): nat
  {
    if k == 0 then w / 2 * 2 + 1 else With(w / 2, k - 1) * 2 + w % 2
  }

  /** w & ~(1 << k) */
  function Cleared(w: nat, k: nat): nat
  {
    if k == 0 then w / 2 * 2 else Cleared(w / 2, k - 1) * 2 + w % 2
  }

  /** Setting and clearing bit k of a word is just that. */
  lemma {:induction false} WordBits(w: nat, k: nat, j: nat)
    ensures Has(With(w, k), j) <==> j == k || Has(w, j)
    ensures Has(Cleared(w, k), j) <==> j != k && Has(w, j)
    decreases k
  {
    if k > 0 && j > 0 {
      WordBits(w / 2, k - 1, j - 1);
      assert With(w, k) / 2 == With(w / 2, k - 1) && Cleared(w, k) / 2 == Cleared(w / 2, k - 1);
    } else if j > 0 {
      assert With(w, k) / 2 == w / 2 && Cleared(w, k) / 2 == w / 2;
    }
  }

  /** __builtin_ffs: one more than the number of the lowest bit that is set, 0 for 0. */
  function Ffs(w: nat): (n: nat)
    ensures n == 0 <==> w == 0
    ensures n > 0 ==> Has(w, n - 1) && forall k :: 0 <= k < n - 1 ==> !Has(w, k)
  {
    if w == 0 then 0 else if w % 2 == 1 then 1 else Ffs(w / 2) + 1
  }

  lemma {:induction false} NoBits(k: nat)
    ensures !Has(0, k)
  {
    if k > 0 { NoBits(k - 1); }
  }

  /** 1 << n */
  function Pow2(n: nat): (p: nat)
    ensures p > 0
  {
    if n == 0 then 1 else 2 * Pow2(n - 1)
  }
}
