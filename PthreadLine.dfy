/** The explicit worker-pool variant: the m rows are cut into T blocks of
    ceil(m / T) rows, each worker fills the rows of its block and accumulates a
    private sum, and each private sum is then added to the shared total. */
module PthreadLine {
  import opened Arith
  import opened Hamming
  import opened Grid
  import opened Schedule
  import Serial

  /** Half-open row range [start, finish); empty when finish <= start. */
  datatype Range = Range(start: nat, finish: nat)

  /** Rows per worker: ceil(m / T) in integer arithmetic. */
  function BlockSize(m: nat, T: nat): (b: nat)
    requires 1 <= T
    ensures m <= b * T < m + T
  {
    (m + T - 1) / T
  }

  /** The rows of worker tid: from b * tid up to b * (tid + 1), the end clipped to m. */
  function Lines(m: nat, T: nat, tid: nat): (r: Range)
    requires 1 <= T
    ensures r.finish <= m
    ensures r.start <= r.finish ==> r.finish - r.start <= BlockSize(m, T)
  {
    var b := BlockSize(m, T);
    Range(b * tid, if b * (tid + 1) > m then m else b * (tid + 1))
  }

  predicate InLines(m: nat, T: nat, tid: nat, i: nat)
    requires 1 <= T
  {
    Lines(m, T, tid).start <= i < Lines(m, T, tid).finish
  }

  /** The worker whose block holds row i. */
  function Owner(m: nat, T: nat, i: nat): (t: nat)
    requires 1 <= T && i < m
    ensures t < T && InLines(m, T, t, i)
  {
    var b := BlockSize(m, T);
    assert 0 < b;
    DivBelow(i, b, T);
    assert (i / b) * b <= i < (i / b) * b + b;
    assert b * (i / b + 1) == (i / b) * b + b;
    i / b
  }

  /** Worker t's block holds row i exactly when t is the owner of a row below m:
      no other worker's block holds it. */
  lemma OwnerUnique(m: nat, T: nat, t: nat, i: nat)
    requires 1 <= T
    ensures InLines(m, T, t, i) <==> i < m && t == Owner(m, T, i)
  {
    if InLines(m, T, t, i) {
      var b := BlockSize(m, T);
      assert b * (t + 1) == t * b + b;
      DivOfBlock(i, b, t);
    }
  }

  /** Blocks of distinct workers are disjoint. */
  lemma LinesDisjoint(m: nat, T: nat, t1: nat, t2: nat, i: nat)
    requires 1 <= T && t1 != t2
    ensures !(InLines(m, T, t1, i) && InLines(m, T, t2, i))
  {
    if InLines(m, T, t1, i) {
      OwnerUnique(m, T, t1, i);
      if InLines(m, T, t2, i) {
        OwnerUnique(m, T, t2, i);
      }
    }
  }

  /** The blocks of workers 0 .. T-1 together are exactly the rows 0 .. m-1. */
  lemma LinesCover(m: nat, T: nat, i: nat)
    requires 1 <= T
    ensures i < m <==> exists t: nat :: t < T && InLines(m, T, t, i)
  {
    if i < m {
      var t := Owner(m, T, i);
      assert t < T && InLines(m, T, t, i);
    }
  }

  /** A worker whose block starts at or past m has nothing to do; with m = 5 and
      T = 4 worker 3 gets [6, 5), with m = 3 and T = 4 it gets [3, 3). */
  lemma PastEndIsEmpty(m: nat, T: nat, tid: nat)
    requires 1 <= T && m <= Lines(m, T, tid).start
    ensures Lines(m, T, tid).finish <= Lines(m, T, tid).start
    ensures forall i: nat :: !InLines(m, T, tid, i)
  {
  }

  /** The two shapes of a trailing block: clipped below its start, and empty. */
  lemma BlockExamples()
    ensures BlockSize(5, 4) == 2 && Lines(5, 4, 3) == Range(6, 5)
    ensures BlockSize(3, 4) == 1 && Lines(3, 4, 3) == Range(3, 3)
  {
  }

  /** With one worker its block is every row. */
  lemma SingleWorker(m: nat)
    ensures Lines(m, 1, 0) == Range(0, m)
  {
  }

  /** The loop nest of compute_hamming over the rows lo .. hi-1: every cell of
      those rows grows by its distance, nothing else changes, and when those rows
      started at 0 the private sum is their total distance. An inverted range
      (hi <= lo) does nothing. */
  method FillRows(A: seq<Str>, B: seq<Str>, len: nat, df: array2<int>, lo: nat, hi: nat)
    returns (threadSum: int)
    requires AllOfLength(A, len) && AllOfLength(B, len)
    requires df.Length0 == |A| && df.Length1 == |B| && hi <= |A|
    modifies df
    ensures forall i, j :: 0 <= i < |A| && 0 <= j < |B| ==>
      df[i, j] == old(df[i, j]) + (if lo <= i < hi then Distance(A[i], B[j], len) else 0)
    ensures (forall i, j :: lo <= i < hi && 0 <= j < |B| ==> old(df[i, j]) == 0) ==>
      threadSum == RowsTotal(A, B, len, lo, hi)
    ensures hi <= lo ==> threadSum == 0
  {
    ghost var zeroed := forall i, j :: lo <= i < hi && 0 <= j < |B| ==> df[i, j] == 0;
    threadSum := 0;
    var i := lo;
    while i < hi
      invariant lo <= i && (i <= hi || i == lo)
      invariant forall r, c :: 0 <= r < |A| && 0 <= c < |B| ==>
        df[r, c] == old(df[r, c]) + (if lo <= r < i then Distance(A[r], B[c], len) else 0)
      invariant zeroed && i <= hi ==> threadSum == RowsTotal(A, B, len, lo, i)
      invariant i == lo ==> threadSum == 0
    {
      if zeroed {
        assert forall c :: 0 <= c < |B| ==> df[i, c] == 0;
      }
      var rowSum := FillRow(A, B, len, df, i);
      threadSum := threadSum + rowSum;
      i := i + 1;
    }
  }

  /** compute_hamming: worker tid fills the rows of its block; when those rows
      started at 0 its private sum is their total distance, which is the sum of
      the cells it wrote. A worker with an empty block changes nothing and
      contributes 0. */
  method ComputeHamming(A: seq<Str>, B: seq<Str>, len: nat, df: array2<int>, T: nat, tid: nat)
    returns (threadSum: int)
    requires AllOfLength(A, len) && AllOfLength(B, len)
    requires df.Length0 == |A| && df.Length1 == |B| && 1 <= T
    modifies df
    ensures forall i, j :: 0 <= i < |A| && 0 <= j < |B| ==>
      df[i, j] == old(df[i, j]) + (if InLines(|A|, T, tid, i) then Distance(A[i], B[j], len) else 0)
    ensures (forall i, j :: 0 <= i && InLines(|A|, T, tid, i) && 0 <= j < |B| ==> old(df[i, j]) == 0) ==>
      threadSum == RowsTotal(A, B, len, Lines(|A|, T, tid).start, Lines(|A|, T, tid).finish)
                == CellsSum(df, Lines(|A|, T, tid).start, Lines(|A|, T, tid).finish)
    ensures Lines(|A|, T, tid).finish <= Lines(|A|, T, tid).start ==> threadSum == 0
  {
    var lines := Lines(|A|, T, tid);
    ghost var zeroed := forall i, j :: lines.start <= i < lines.finish && 0 <= j < |B| ==> df[i, j] == 0;
    threadSum := FillRows(A, B, len, df, lines.start, lines.finish);
    if zeroed {
      CellsMatchSum(df, A, B, len, lines.start, lines.finish);
    }
  }

  /** Sum of the complete row totals of rows i < hi whose owner is in done: what
      the shared total holds once the workers in done have merged. */
  function Merged(A: seq<Str>, B: seq<Str>, len: nat, T: nat, done: seq<nat>, hi: nat): (r: int)
    requires AllOfLength(A, len) && AllOfLength(B, len) && 1 <= T && hi <= |A|
    ensures 0 <= r
  {
    if hi == 0 then 0
    else
      var row := if Owner(|A|, T, hi - 1) in done then RowTotal(A[hi - 1], B, len, |B|) else 0;
      Merged(A, B, len, T, done, hi - 1) + row
  }

  /** Before any worker has merged, the total is 0. */
  lemma {:induction false} MergedNone(A: seq<Str>, B: seq<Str>, len: nat, T: nat, hi: nat)
    requires AllOfLength(A, len) && AllOfLength(B, len) && 1 <= T && hi <= |A|
    ensures Merged(A, B, len, T, [], hi) == 0
  {
    if hi > 0 {
      MergedNone(A, B, len, T, hi - 1);
    }
  }

  /** Merging worker t adds exactly the total of its own rows below hi. */
  lemma {:induction false} MergeStep(A: seq<Str>, B: seq<Str>, len: nat, T: nat, done: seq<nat>, t: nat, hi: nat)
    requires AllOfLength(A, len) && AllOfLength(B, len) && 1 <= T && hi <= |A|
    requires t !in done
    ensures Merged(A, B, len, T, done + [t], hi) == Merged(A, B, len, T, done, hi) +
      RowsTotal(A, B, len, Lines(|A|, T, t).start, if Lines(|A|, T, t).finish < hi then Lines(|A|, T, t).finish else hi)
  {
    if hi > 0 {
      var i := hi - 1;
      MergeStep(A, B, len, T, done, t, i);
      MergedRow(|A|, T, done, t, i);
      ClippedRowsTotalStep(A, B, len, Lines(|A|, T, t).start, Lines(|A|, T, t).finish, i);
    }
  }

  /** Row i counts once worker t has merged as well exactly when it counted
      before or lies in t's block, and not both. */
  lemma MergedRow(m: nat, T: nat, done: seq<nat>, t: nat, i: nat)
    requires 1 <= T && i < m && t !in done
    ensures (Owner(m, T, i) in done + [t]) == (Owner(m, T, i) in done || InLines(m, T, t, i))
    ensures !(Owner(m, T, i) in done && InLines(m, T, t, i))
  {
    OwnerUnique(m, T, t, i);
  }

  /** The part of block [s, f) below i + 1 is the part below i plus row i when
      i lies in the block. */
  lemma ClippedRowsTotalStep(A: seq<Str>, B: seq<Str>, len: nat, s: nat, f: nat, i: nat)
    requires AllOfLength(A, len) && AllOfLength(B, len) && f <= |A| && i < |A|
    ensures RowsTotal(A, B, len, s, if f < i + 1 then f else i + 1) ==
      RowsTotal(A, B, len, s, if f < i then f else i) + (if s <= i < f then RowTotal(A[i], B, len, |B|) else 0)
  {
  }

  /** At every point of the merging the shared total is at most the total of
      the rows below hi: no worker's rows are counted twice. */
  lemma {:induction false} MergedAtMostTotal(A: seq<Str>, B: seq<Str>, len: nat, T: nat, done: seq<nat>, hi: nat)
    requires AllOfLength(A, len) && AllOfLength(B, len) && 1 <= T && hi <= |A|
    ensures Merged(A, B, len, T, done, hi) <= RowsTotal(A, B, len, 0, hi)
  {
    if hi > 0 {
      MergedAtMostTotal(A, B, len, T, done, hi - 1);
    }
  }

  /** Once every worker has merged, the rows below hi are all counted. */
  lemma {:induction false} MergeAll(A: seq<Str>, B: seq<Str>, len: nat, T: nat, done: seq<nat>, hi: nat)
    requires AllOfLength(A, len) && AllOfLength(B, len) && 1 <= T && hi <= |A|
    requires forall t: nat :: t < T ==> t in done
    ensures Merged(A, B, len, T, done, hi) == RowsTotal(A, B, len, 0, hi)
  {
    if hi > 0 {
      MergeAll(A, B, len, T, done, hi - 1);
    }
  }

  /** The launch order of algori8mos: workers T-1 down to 1 are started, then the
      calling thread runs worker 0. */
  function LaunchOrder(T: nat): (order: seq<nat>)
    ensures |order| == T
    ensures 0 < T ==> order[0] == T - 1 && order[T - 1] == 0
    ensures forall a, b :: 0 <= a < b < |order| ==> order[b] < order[a]
  {
    seq(T, k requires 0 <= k < T => T - 1 - k)
  }

  lemma LaunchOrderIsRunOrder(T: nat)
    ensures IsRunOrder(LaunchOrder(T), T)
  {
    var order := LaunchOrder(T);
    forall t: nat | t < T
      ensures t in order
    {
      assert order[T - 1 - t] == t;
    }
  }

  /** algori8mos: a zeroed matrix, the T workers run one after another in the
      given order, each private sum added to the total as its worker finishes. */
  method Run(A: seq<Str>, B: seq<Str>, len: nat, T: nat, order: seq<nat>)
    returns (diffs: array2<int>, totalDiff: int)
    requires AllOfLength(A, len) && AllOfLength(B, len) && 1 <= T && IsRunOrder(order, T)
    ensures fresh(diffs)
    ensures diffs.Length0 == |A| && diffs.Length1 == |B|
    ensures forall i, j :: 0 <= i < |A| && 0 <= j < |B| ==> diffs[i, j] == Distance(A[i], B[j], len)
    ensures totalDiff == Total(A, B, len)
  {
    diffs := new int[|A|, |B|]((i, j) => 0);
    totalDiff := 0;
    var k := 0;
    MergedNone(A, B, len, T, |A|);
    assert order[..0] == [];
    while k < |order|
      invariant k <= |order|
      invariant forall i, j :: 0 <= i < |A| && 0 <= j < |B| ==>
        diffs[i, j] == if Owner(|A|, T, i) in order[..k] then Distance(A[i], B[j], len) else 0
      invariant totalDiff == Merged(A, B, len, T, order[..k], |A|)
    {
      var tid := order[k];
      NextInOrder(order, T, k);
      forall i: nat | InLines(|A|, T, tid, i)
        ensures Owner(|A|, T, i) == tid
      {
        OwnerUnique(|A|, T, tid, i);
      }
      var threadSum := ComputeHamming(A, B, len, diffs, T, tid);
      totalDiff := totalDiff + threadSum;
      MergeStep(A, B, len, T, order[..k], tid, |A|);
      k := k + 1;
    }
    assert order[..k] == order;
    MergeAll(A, B, len, T, order, |A|);
  }

  /** For any worker count and any run order the matrix and the total are the
      serial baseline's. */
  method MatchesSerial(A: seq<Str>, B: seq<Str>, len: nat, T: nat, order: seq<nat>)
    returns (serial: array2<int>, serialTotal: int, parallel: array2<int>, parallelTotal: int)
    requires AllOfLength(A, len) && AllOfLength(B, len) && 1 <= T && IsRunOrder(order, T)
    ensures serial.Length0 == parallel.Length0 == |A| && serial.Length1 == parallel.Length1 == |B|
    ensures forall i, j :: 0 <= i < |A| && 0 <= j < |B| ==> serial[i, j] == parallel[i, j]
    ensures serialTotal == parallelTotal
  {
    serial, serialTotal := Serial.AllPairs(A, B, len);
    parallel, parallelTotal := Run(A, B, len, T, order);
  }
}
