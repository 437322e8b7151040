/** Integer-division facts shared by the row-block partition and the collapsed pair space. */
module Arith {

  /** k lies in the q-th block of d consecutive integers exactly when k / d == q. */
  lemma DivOfBlock(k: int, d: int, q: int)
    requires 0 < d && q * d <= k < q * d + d
    ensures k / d == q && k % d == k - q * d
  {
    var q', r' := k / d, k % d;
    assert k == q' * d + r' && 0 <= r' < d;
    if q' > q {
      MulStep(q, q', d);
    } else if q' < q {
      MulStep(q', q, d);
    }
  }

  /** Multiples of a positive d are at least d apart. */
  lemma MulStep(a: int, b: int, d: int)
    requires a < b && 0 < d
    ensures a * d + d <= b * d
  {
    assert b * d - a * d == (b - a - 1) * d + d;
    assert (b - a - 1) * d >= 0;
  }

  /** One more multiple of d is d more. */
  lemma MulSucc(a: int, d: int)
    ensures (a + 1) * d == a * d + d
  {
  }

  /** Below a multiple of d, the quotient by d stays below the multiplier. */
  lemma DivBelow(k: int, d: int, m: int)
    requires 0 <= k && 0 < d && k < m * d
    ensures 0 <= k / d < m
  {
    var q := k / d;
    assert q * d + k % d == k;
    if q >= m {
      MulStep(m - 1, q, d);
    }
  }
}
