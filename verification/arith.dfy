/** Small facts of non-linear integer arithmetic used by the index proofs. */
module Arith {

  lemma MulMonotone(a: int, b: int, q: nat)
    requires a <= b
    ensures a * q <= b * q
  {
  }

  lemma MulSucc(a: int, q: nat)
    ensures (a + 1) * q == a * q + q
  {
  }

  lemma MulCancelLess(a: int, b: int, q: nat)
    requires a * q < b * q
    ensures a < b
  {
  }

  lemma ProductPositive(q: nat, r: int)
    requires 0 < q * r
    ensures 0 < q && 0 < r
  {
  }

  lemma DivBelow(k: int, q: nat, rows: int)
    requires q > 0 && 0 <= k < q * rows
    ensures 0 <= k / q < rows
  {
  }

  lemma DivBracket(k: int, q: nat)
    requires q > 0
    ensures (k / q) * q <= k < (k / q + 1) * q
    ensures k == (k / q) * q + k % q
  {
  }

  /** `r * q` as repeated addition, so loop invariants can count in whole rows
      without non-linear terms. */
  function Times(r: nat, q: nat): nat {
    if r == 0 then 0 else Times(r - 1, q) + q
  }

  lemma {:induction false} TimesIsProduct(r: nat, q: nat)
    ensures Times(r, q) == r * q
  {
    if r > 0 {
      TimesIsProduct(r - 1, q);
      MulSucc(r - 1, q);
    }
  }
}
