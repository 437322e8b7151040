/** The quantity every variant computes: the Hamming distance of each string of
    collection A to each string of collection B, row by row, and the grand total. */
module Hamming {

  type Str = seq<char>

  /** Every string of S has exactly len symbols. */
  predicate AllOfLength(S: seq<Str>, len: nat)
  {
    forall k :: 0 <= k < |S| ==> |S[k]| == len
  }

  /** Number of positions p < len at which a and b differ. */
  function Distance(a: Str, b: Str, len: nat): (d: nat)
    requires len <= |a| && len <= |b|
    ensures d <= len
    ensures d == 0 <==> a[..len] == b[..len]
  {
    if len == 0 then 0
    else
      assert a[..len] == a[..len - 1] + [a[len - 1]];
      assert b[..len] == b[..len - 1] + [b[len - 1]];
      Distance(a, b, len - 1) + (if a[len - 1] != b[len - 1] then 1 else 0)
  }

  /** Distance counts exactly the set of mismatching positions. */
  lemma {:induction false} DistanceCountsMismatches(a: Str, b: Str, len: nat)
    requires len <= |a| && len <= |b|
    ensures Distance(a, b, len) == |set p | 0 <= p < len && a[p] != b[p]|
  {
    var s := set p | 0 <= p < len && a[p] != b[p];
    if len == 0 {
      assert s == {};
    } else {
      DistanceCountsMismatches(a, b, len - 1);
      var s0 := set p | 0 <= p < len - 1 && a[p] != b[p];
      if a[len - 1] != b[len - 1] {
        assert s == s0 + {len - 1};
        assert len - 1 !in s0;
      } else {
        assert s == s0;
      }
    }
  }

  /** Sum of the distances from a to the first cols strings of B. */
  function RowTotal(a: Str, B: seq<Str>, len: nat, cols: nat): (r: int)
    requires |a| == len && AllOfLength(B, len) && cols <= |B|
    ensures 0 <= r <= cols * len
  {
    if cols == 0 then 0
    else RowTotal(a, B, len, cols - 1) + Distance(a, B[cols - 1], len)
  }

  /** Sum of the complete row totals of rows lo .. hi-1 of A (0 when hi <= lo). */
  function RowsTotal(A: seq<Str>, B: seq<Str>, len: nat, lo: nat, hi: nat): (r: int)
    requires AllOfLength(A, len) && AllOfLength(B, len) && hi <= |A|
    ensures 0 <= r
    ensures lo <= hi ==> r <= (hi - lo) * (|B| * len)
  {
    if hi <= lo then 0
    else RowsTotal(A, B, len, lo, hi - 1) + RowTotal(A[hi - 1], B, len, |B|)
  }

  /** The total Hamming distance over all |A| * |B| pairs. */
  function Total(A: seq<Str>, B: seq<Str>, len: nat): (r: int)
    requires AllOfLength(A, len) && AllOfLength(B, len)
    ensures 0 <= r <= |A| * (|B| * len)
  {
    RowsTotal(A, B, len, 0, |A|)
  }

  /** Worked scenarios: ["000","111"] against ["000","101"] gives the rows [0, 2] and
      [3, 1] and the total 6; a string against itself gives 0. */
  lemma Scenarios()
    ensures Distance("000", "000", 3) == 0 && Distance("000", "101", 3) == 2
    ensures Distance("111", "000", 3) == 3 && Distance("111", "101", 3) == 1
    ensures Total(["000", "111"], ["000", "101"], 3) == 6
    ensures Total(["12345"], ["12345"], 5) == 0
  {
    assert Distance("000", "101", 1) == 1;
    assert Distance("000", "101", 2) == 1;
    assert Distance("111", "000", 2) == 2;
    assert Distance("111", "101", 2) == 1;
  }
}
