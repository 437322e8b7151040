/** The shared m-by-n distance matrix (an array2 in place of the C array of row
    pointers), the sums of its cells, and the innermost comparison loop that every
    variant runs on one cell. */
module Grid {
  import opened Hamming

  /** Sum of the first cols cells of row i. */
  ghost function RowCellsSum(df: array2<int>, i: nat, cols: nat): int
    reads df
    requires i < df.Length0 && cols <= df.Length1
  {
    if cols == 0 then 0 else RowCellsSum(df, i, cols - 1) + df[i, cols - 1]
  }

  /** Sum of all cells of rows lo .. hi-1 (0 when hi <= lo). */
  ghost function CellsSum(df: array2<int>, lo: nat, hi: nat): int
    reads df
    requires hi <= df.Length0
  {
    if hi <= lo then 0 else CellsSum(df, lo, hi - 1) + RowCellsSum(df, hi - 1, df.Length1)
  }

  /** Rows that hold their Hamming distances sum to the rows' total distance. */
  lemma {:induction false} CellsMatchSum(df: array2<int>, A: seq<Str>, B: seq<Str>, len: nat, lo: nat, hi: nat)
    requires AllOfLength(A, len) && AllOfLength(B, len)
    requires df.Length0 == |A| && df.Length1 == |B| && hi <= |A|
    requires forall i, j :: lo <= i < hi && 0 <= j < |B| ==> df[i, j] == Distance(A[i], B[j], len)
    ensures CellsSum(df, lo, hi) == RowsTotal(A, B, len, lo, hi)
  {
    if lo < hi {
      CellsMatchSum(df, A, B, len, lo, hi - 1);
      RowMatchSum(df, A, B, len, hi - 1, |B|);
    }
  }

  lemma {:induction false} RowMatchSum(df: array2<int>, A: seq<Str>, B: seq<Str>, len: nat, i: nat, cols: nat)
    requires AllOfLength(A, len) && AllOfLength(B, len)
    requires df.Length0 == |A| && df.Length1 == |B| && i < |A| && cols <= |B|
    requires forall j :: 0 <= j < cols ==> df[i, j] == Distance(A[i], B[j], len)
    ensures RowCellsSum(df, i, cols) == RowTotal(A[i], B, len, cols)
  {
    if cols > 0 {
      RowMatchSum(df, A, B, len, i, cols - 1);
    }
  }

  /** The innermost loop of every variant: one increment of cell (i, j) for each
      position p < len at which a and b differ; no other cell changes. */
  method CompareStrings(df: array2<int>, i: nat, j: nat, a: Str, b: Str, len: nat)
    requires i < df.Length0 && j < df.Length1 && len <= |a| && len <= |b|
    modifies df
    ensures df[i, j] == old(df[i, j]) + Distance(a, b, len)
    ensures forall r, c :: 0 <= r < df.Length0 && 0 <= c < df.Length1 && (r != i || c != j) ==>
      df[r, c] == old(df[r, c])
  {
    var p := 0;
    while p < len
      invariant p <= len
      invariant df[i, j] == old(df[i, j]) + Distance(a, b, p)
      invariant forall r, c :: 0 <= r < df.Length0 && 0 <= c < df.Length1 && (r != i || c != j) ==>
        df[r, c] == old(df[r, c])
    {
      if a[p] != b[p] {
        df[i, j] := df[i, j] + 1;
      }
      p := p + 1;
    }
  }

  /** The column loop that serial and row-block variants run for row i: each
      cell of the row is filled and, once finished, added to the running sum;
      when the row started at 0 the sum is the row's total distance. */
  method FillRow(A: seq<Str>, B: seq<Str>, len: nat, df: array2<int>, i: nat) returns (rowSum: int)
    requires AllOfLength(A, len) && AllOfLength(B, len)
    requires df.Length0 == |A| && df.Length1 == |B| && i < |A|
    modifies df
    ensures forall r, c :: 0 <= r < |A| && 0 <= c < |B| ==>
      df[r, c] == old(df[r, c]) + (if r == i then Distance(A[r], B[c], len) else 0)
    ensures (forall c :: 0 <= c < |B| ==> old(df[i, c]) == 0) ==> rowSum == RowTotal(A[i], B, len, |B|)
  {
    ghost var zeroed := forall c :: 0 <= c < |B| ==> df[i, c] == 0;
    rowSum := 0;
    var j := 0;
    while j < |B|
      invariant j <= |B|
      invariant forall r, c :: 0 <= r < |A| && 0 <= c < |B| ==>
        df[r, c] == old(df[r, c]) + (if r == i && c < j then Distance(A[r], B[c], len) else 0)
      invariant zeroed ==> rowSum == RowTotal(A[i], B, len, j)
    {
      CompareStrings(df, i, j, A[i], B[j], len);
      rowSum := rowSum + df[i, j];
      j := j + 1;
    }
  }
}
