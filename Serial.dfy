/** The single-threaded baseline: a triple loop over rows, columns and positions
    that fills a zero-initialised matrix and accumulates the total. */
module Serial {
  import opened Hamming
  import opened Grid

  /** Fills an |A|-by-|B| matrix with the distance of every pair and returns it
      with the sum of all its cells. */
  method AllPairs(A: seq<Str>, B: seq<Str>, len: nat) returns (diffs: array2<int>, totalDiff: int)
    requires AllOfLength(A, len) && AllOfLength(B, len)
    ensures fresh(diffs)
    ensures diffs.Length0 == |A| && diffs.Length1 == |B|
    ensures forall i, j :: 0 <= i < |A| && 0 <= j < |B| ==>
      diffs[i, j] == Distance(A[i], B[j], len) && 0 <= diffs[i, j] <= len
    ensures totalDiff == Total(A, B, len) == CellsSum(diffs, 0, |A|)
  {
    diffs := new int[|A|, |B|]((i, j) => 0);
    totalDiff := 0;
    var i := 0;
    while i < |A|
      invariant i <= |A|
      invariant forall r, c :: 0 <= r < i && 0 <= c < |B| ==> diffs[r, c] == Distance(A[r], B[c], len)
      invariant forall r, c :: i <= r < |A| && 0 <= c < |B| ==> diffs[r, c] == 0
      invariant totalDiff == RowsTotal(A, B, len, 0, i)
    {
      var rowSum := FillRow(A, B, len, diffs, i);
      totalDiff := totalDiff + rowSum;
      i := i + 1;
    }
    CellsMatchSum(diffs, A, B, len, 0, |A|);
  }
}
