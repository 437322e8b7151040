/** The row buffers of the distance matrix. Every variant allocates row i with
    calloc(l, n * sizeof(int)): l blocks of n ints each, all zero. */
module Alloc {

  /** Number of int cells one row buffer holds, as allocated: l blocks of n. It
      has room for the n cells of a row exactly when l >= 1 or n == 0. */
  function RowCellsAsWritten(l: nat, n: nat): (c: nat)
    ensures 1 <= l ==> n <= c
    ensures c == 0 <==> l == 0 || n == 0
  {
    l * n
  }

  /** The read totalDiff += diffs[i][j] that follows the position loop touches
      cell j of row i; it stays inside the row buffer as allocated when j is
      below the number of cells that buffer holds. */
  predicate ReadInBounds(l: nat, n: nat, j: nat)
  {
    j < RowCellsAsWritten(l, n)
  }

  /** As written: with strings of length 0 and at least one column, the read of
      some column of every row, column 0, falls outside the row buffer. */
  lemma EmptyStringsOverrun(n: nat)
    requires 1 <= n
    ensures exists j: nat :: j < n && !ReadInBounds(0, n, j)
  {
    assert !ReadInBounds(0, n, 0);
  }

  /** As written: with strings of length at least 1, every column read is inside
      the row buffer. */
  lemma NonEmptyStringsInBounds(l: nat, n: nat, j: nat)
    requires 1 <= l && j < n
    ensures ReadInBounds(l, n, j)
  {
  }

  /** All reads of a row, columns 0 .. n-1, are in bounds exactly when l >= 1 or
      there are no columns. */
  lemma ReadsInBoundsIff(l: nat, n: nat)
    ensures (forall j: nat :: j < n ==> ReadInBounds(l, n, j)) <==> 1 <= l || n == 0
  {
    if l == 0 && 1 <= n {
      EmptyStringsOverrun(n);
    }
  }
}
