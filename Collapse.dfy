/** The collapse(2) clause: the nested (i, j) loops over an m-by-n grid become one
    loop over the logical iterations 0 .. m*n-1, taken in row-major order. */
module Collapse {
  import opened Arith

  /** The logical iteration of pair (i, j) when rows of n cells are laid end to
      end: j plus one full row for each row above. */
  function IndexOf(i: nat, j: nat, n: nat): (k: nat)
    ensures j <= k
    ensures 0 < i ==> j + n <= k
  {
    if i == 0 then j else IndexOf(i - 1, j, n) + n
  }

  /** IndexOf is the row-major formula i * n + j. */
  lemma {:induction false} IndexOfIsRowMajor(i: nat, j: nat, n: nat)
    ensures IndexOf(i, j, n) == i * n + j
  {
    if i > 0 {
      IndexOfIsRowMajor(i - 1, j, n);
      MulSucc(i - 1, n);
    }
  }

  /** Every pair of the m-by-n grid has an iteration below m * n. */
  lemma IndexBelow(i: nat, j: nat, m: nat, n: nat)
    requires i < m && j < n
    ensures IndexOf(i, j, n) < m * n
  {
    IndexOfIsRowMajor(i, j, n);
    MulStep(i, m, n);
  }

  /** Below m * n, the quotient and remainder by n name a pair of the grid whose
      iteration is k. */
  lemma DivModPair(k: nat, m: nat, n: nat)
    requires k < m * n
    ensures k / n < m && k % n < n && IndexOf(k / n, k % n, n) == k
  {
    DivBelow(k, n, m);
    IndexOfIsRowMajor(k / n, k % n, n);
  }

  /** The pair that logical iteration k stands for: row k / n, column k % n.
      IndexOf undoes it. */
  function PairOf(k: nat, m: nat, n: nat): (p: (nat, nat))
    requires k < m * n
    ensures p.0 < m && p.1 < n
    ensures IndexOf(p.0, p.1, n) == k
  {
    DivModPair(k, m, n);
    (k / n, k % n)
  }

  /** PairOf undoes IndexOf too, so the two are inverse bijections between
      [0, m*n) and the grid [0, m) x [0, n). */
  lemma PairOfIndex(i: nat, j: nat, m: nat, n: nat)
    requires i < m && j < n
    ensures IndexOf(i, j, n) < m * n && PairOf(IndexOf(i, j, n), m, n) == (i, j)
  {
    IndexBelow(i, j, m, n);
    IndexOfIsRowMajor(i, j, n);
    DivOfBlock(i * n + j, n, i);
  }

  /** Consecutive iterations visit the pairs in the order of the nested loops:
      the next column, or the first column of the next row. */
  lemma RowMajor(k: nat, m: nat, n: nat)
    requires k + 1 < m * n
    ensures var (i, j) := PairOf(k, m, n);
      PairOf(k + 1, m, n) == if j + 1 < n then (i, j + 1) else (i + 1, 0)
  {
    var (i, j) := PairOf(k, m, n);
    IndexOfIsRowMajor(i, j, n);
    if j + 1 < n {
      DivOfBlock(k + 1, n, i);
    } else {
      MulSucc(i, n);
      DivOfBlock(k + 1, n, i + 1);
    }
  }
}
