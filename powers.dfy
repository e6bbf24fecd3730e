/** Powers of two as reals, for the widths of nested halvings. */
module Powers {

  function Pow2(k: nat): real
  {
    if k == 0 then 1.0 else 2.0 * Pow2(k - 1)
  }

  lemma {:induction false} Pow2AtLeastOne(k: nat)
    ensures Pow2(k) >= 1.0
    decreases k
  {
    if k > 0 {
      Pow2AtLeastOne(k - 1);
    }
  }

  /** Four to the `k`-th: the number of cells after `k` four-way splits. */
  function Pow4(k: nat): nat
  {
    if k == 0 then 1 else 4 * Pow4(k - 1)
  }
}
