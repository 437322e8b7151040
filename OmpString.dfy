/** The OpenMP variant: one parallel region of T threads shares the collapsed
    (i, j) iteration space under schedule(static). Each thread walks its own
    contiguous chunk of logical iterations, fills the cells of those pairs,
    keeps a private threadDiff and adds it atomically to the shared total. */
module OmpString {
  import opened Hamming
  import opened Grid
  import opened Schedule
  import opened Collapse
  import opened Arith
  import Serial

  /** A static schedule of the iterations [0, total) among T threads: thread t
      runs [cuts[t], cuts[t+1]), the chunks follow each other in thread order
      and cover everything; how big each chunk is stays open. */
  predicate IsStaticSplit(cuts: seq<nat>, T: nat, total: nat)
    ensures IsStaticSplit(cuts, T, total) ==> forall t :: 0 <= t < |cuts| ==> cuts[t] <= total
  {
    |cuts| == T + 1 && cuts[0] == 0 && cuts[T] == total &&
    forall a, b :: 0 <= a <= b < |cuts| ==> cuts[a] <= cuts[b]
  }

  /** Iteration k belongs to the chunk of thread t. */
  predicate InChunk(cuts: seq<nat>, t: nat, k: nat)
    requires t + 1 < |cuts|
  {
    cuts[t] <= k < cuts[t + 1]
  }

  /** The thread among 0 .. t-1 whose chunk holds iteration k, when one does. */
  function ChunkOf(cuts: seq<nat>, t: nat, k: nat): (r: nat)
    requires 1 <= t < |cuts|
    requires forall a, b :: 0 <= a <= b < |cuts| ==> cuts[a] <= cuts[b]
    ensures r < t
    ensures cuts[0] <= k < cuts[t] ==> InChunk(cuts, r, k)
  {
    if t == 1 || cuts[t - 1] <= k then t - 1 else ChunkOf(cuts, t - 1, k)
  }

  /** Every iteration lies in exactly one chunk: the one ChunkOf names. */
  lemma ChunkOfUnique(cuts: seq<nat>, T: nat, total: nat, t: nat, k: nat)
    requires IsStaticSplit(cuts, T, total) && t < T && InChunk(cuts, t, k)
    ensures ChunkOf(cuts, T, k) == t
  {
  }

  /** Each pair (i, j) of the grid is computed by exactly one thread. */
  lemma EachPairOneThread(cuts: seq<nat>, T: nat, m: nat, n: nat, i: nat, j: nat)
    requires 1 <= T && IsStaticSplit(cuts, T, m * n) && i < m && j < n
    ensures exists t: nat :: t < T && InChunk(cuts, t, IndexOf(i, j, n))
    ensures forall t1: nat, t2: nat ::
      t1 < T && t2 < T && InChunk(cuts, t1, IndexOf(i, j, n)) && InChunk(cuts, t2, IndexOf(i, j, n))
      ==> t1 == t2
  {
    var k := IndexOf(i, j, n);
    IndexBelow(i, j, m, n);
    var t := ChunkOf(cuts, T, k);
    assert t < T && InChunk(cuts, t, k);
    forall t1: nat, t2: nat | t1 < T && t2 < T && InChunk(cuts, t1, k) && InChunk(cuts, t2, k)
      ensures t1 == t2
    {
      ChunkOfUnique(cuts, T, m * n, t1, k);
      ChunkOfUnique(cuts, T, m * n, t2, k);
    }
  }

  /** The distance that logical iteration k compares. */
  function PairDistance(A: seq<Str>, B: seq<Str>, len: nat, k: nat): (d: nat)
    requires AllOfLength(A, len) && AllOfLength(B, len) && k < |A| * |B|
    ensures d <= len
  {
    var p := PairOf(k, |A|, |B|);
    Distance(A[p.0], B[p.1], len)
  }

  /** Sum of the distances of iterations lo .. hi-1 (0 when hi <= lo). */
  function PairTotal(A: seq<Str>, B: seq<Str>, len: nat, lo: nat, hi: nat): (r: int)
    requires AllOfLength(A, len) && AllOfLength(B, len) && hi <= |A| * |B|
    ensures 0 <= r
    ensures lo <= hi ==> r <= (hi - lo) * len
  {
    if hi <= lo then 0
    else PairTotal(A, B, len, lo, hi - 1) + PairDistance(A, B, len, hi - 1)
  }

  /** The iterations before pair (i, j), which start at base = i * |B|, sum to
      the rows above i plus the first j cells of row i. */
  lemma {:induction false} PairPrefix(A: seq<Str>, B: seq<Str>, len: nat, i: nat, j: nat, base: nat)
    requires AllOfLength(A, len) && AllOfLength(B, len) && i < |A| && j <= |B|
    requires base == i * |B|
    ensures base + j <= |A| * |B|
    ensures PairTotal(A, B, len, 0, base + j) == RowsTotal(A, B, len, 0, i) + RowTotal(A[i], B, len, j)
  {
    if 0 < |B| {
      MulStep(i, |A|, |B|);
    }
    if j > 0 {
      PairPrefix(A, B, len, i, j - 1, base);
      DivOfBlock(base + j - 1, |B|, i);
      assert PairDistance(A, B, len, base + j - 1) == Distance(A[i], B[j - 1], len);
      assert PairTotal(A, B, len, 0, base + j) ==
        PairTotal(A, B, len, 0, base + j - 1) + Distance(A[i], B[j - 1], len);
    } else if i > 0 {
      MulSucc(i - 1, |B|);
      PairPrefix(A, B, len, i - 1, |B|, base - |B|);
      assert RowsTotal(A, B, len, 0, i) == RowsTotal(A, B, len, 0, i - 1) + RowTotal(A[i - 1], B, len, |B|);
    }
  }

  /** The collapsed iteration space adds up to the total over all pairs. */
  lemma PairTotalIsTotal(A: seq<Str>, B: seq<Str>, len: nat)
    requires AllOfLength(A, len) && AllOfLength(B, len)
    ensures PairTotal(A, B, len, 0, |A| * |B|) == Total(A, B, len)
  {
    if |A| > 0 {
      var i := |A| - 1;
      MulSucc(i, |B|);
      PairPrefix(A, B, len, i, |B|, i * |B|);
    }
  }

  /** Sum of the cells that iterations lo .. hi-1 stand for. */
  ghost function ChunkCellsSum(df: array2<int>, lo: nat, hi: nat): int
    requires hi <= df.Length0 * df.Length1
    reads df
  {
    if hi <= lo then 0
    else
      var p := PairOf(hi - 1, df.Length0, df.Length1);
      ChunkCellsSum(df, lo, hi - 1) + df[p.0, p.1]
  }

  /** Cells that hold their distances add up to the chunk's share of the total. */
  lemma {:induction false} ChunkCellsMatch(df: array2<int>, A: seq<Str>, B: seq<Str>, len: nat, lo: nat, hi: nat)
    requires AllOfLength(A, len) && AllOfLength(B, len)
    requires df.Length0 == |A| && df.Length1 == |B| && hi <= |A| * |B|
    requires forall i, j {:trigger df[i, j]} :: 0 <= i < |A| && 0 <= j < |B| && lo <= IndexOf(i, j, |B|) < hi ==>
      df[i, j] == Distance(A[i], B[j], len)
    ensures ChunkCellsSum(df, lo, hi) == PairTotal(A, B, len, lo, hi)
  {
    if lo < hi {
      ChunkCellsMatch(df, A, B, len, lo, hi - 1);
    }
  }

  /** Zero cells add up to 0. */
  lemma {:induction false} ChunkCellsZero(df: array2<int>, lo: nat, hi: nat)
    requires hi <= df.Length0 * df.Length1
    requires forall i, j {:trigger df[i, j]} ::
      0 <= i < df.Length0 && 0 <= j < df.Length1 && lo <= IndexOf(i, j, df.Length1) < hi ==> df[i, j] == 0
    ensures ChunkCellsSum(df, lo, hi) == 0
  {
    if lo < hi {
      ChunkCellsZero(df, lo, hi - 1);
    }
  }

  /** One logical iteration k of the collapsed loop: it compares the pair
      (k / n, k % n), leaves every other cell alone and returns the finished cell. */
  method Iteration(A: seq<Str>, B: seq<Str>, len: nat, diffs: array2<int>, k: nat) returns (cell: int)
    requires AllOfLength(A, len) && AllOfLength(B, len)
    requires diffs.Length0 == |A| && diffs.Length1 == |B| && k < |A| * |B|
    modifies diffs
    ensures forall i, j {:trigger diffs[i, j]} :: 0 <= i < |A| && 0 <= j < |B| ==>
      diffs[i, j] == old(diffs[i, j]) + (if IndexOf(i, j, |B|) == k then Distance(A[i], B[j], len) else 0)
    ensures cell == old(diffs[PairOf(k, |A|, |B|).0, PairOf(k, |A|, |B|).1]) + PairDistance(A, B, len, k)
  {
    ghost var p := PairOf(k, |A|, |B|);
    var i, j := k / |B|, k % |B|;
    forall r, c | 0 <= r < |A| && 0 <= c < |B|
      ensures IndexOf(r, c, |B|) == k <==> r == i && c == j
    {
      PairOfIndex(r, c, |A|, |B|);
    }
    CompareStrings(diffs, i, j, A[i], B[j], len);
    cell := diffs[i, j];
  }

  /** The iterations lo .. hi-1 of a chunk, in order, each finished cell added to
      the running sum: the sum is what the chunk's cells held before plus the
      chunk's share of the total. */
  method Iterations(A: seq<Str>, B: seq<Str>, len: nat, diffs: array2<int>, lo: nat, hi: nat)
    returns (threadDiff: int)
    requires AllOfLength(A, len) && AllOfLength(B, len)
    requires diffs.Length0 == |A| && diffs.Length1 == |B| && lo <= hi <= |A| * |B|
    modifies diffs
    ensures forall i, j {:trigger diffs[i, j]} :: 0 <= i < |A| && 0 <= j < |B| ==>
      diffs[i, j] == old(diffs[i, j]) +
        (if lo <= IndexOf(i, j, |B|) < hi then Distance(A[i], B[j], len) else 0)
    ensures threadDiff == old(ChunkCellsSum(diffs, lo, hi)) + PairTotal(A, B, len, lo, hi)
  {
    threadDiff := 0;
    var k := lo;
    while k < hi
      invariant lo <= k <= hi
      invariant forall i, j {:trigger diffs[i, j]} :: 0 <= i < |A| && 0 <= j < |B| ==>
        diffs[i, j] == old(diffs[i, j]) +
          (if lo <= IndexOf(i, j, |B|) < k then Distance(A[i], B[j], len) else 0)
      invariant threadDiff == old(ChunkCellsSum(diffs, lo, k)) + PairTotal(A, B, len, lo, k)
    {
      var cell := Iteration(A, B, len, diffs, k);
      threadDiff := threadDiff + cell;
      k := k + 1;
    }
  }

  /** One thread of the parallel region under schedule(static): it runs the
      iterations lo .. hi-1 of its chunk and keeps a private threadDiff, which
      ends as what the chunk's cells held before plus the chunk's share of the
      total. When those cells started at 0, threadDiff is the chunk's share and
      the sum of the cells it wrote; an empty chunk changes nothing and gives 0. */
  method OmpThread(A: seq<Str>, B: seq<Str>, len: nat, diffs: array2<int>, lo: nat, hi: nat)
    returns (threadDiff: int)
    requires AllOfLength(A, len) && AllOfLength(B, len)
    requires diffs.Length0 == |A| && diffs.Length1 == |B| && lo <= hi <= |A| * |B|
    modifies diffs
    ensures forall i, j {:trigger diffs[i, j]} :: 0 <= i < |A| && 0 <= j < |B| ==>
      diffs[i, j] == old(diffs[i, j]) +
        (if lo <= IndexOf(i, j, |B|) < hi then Distance(A[i], B[j], len) else 0)
    ensures threadDiff == old(ChunkCellsSum(diffs, lo, hi)) + PairTotal(A, B, len, lo, hi)
    ensures (forall i, j {:trigger old(diffs[i, j])} ::
        0 <= i < |A| && 0 <= j < |B| && lo <= IndexOf(i, j, |B|) < hi ==> old(diffs[i, j]) == 0) ==>
      threadDiff == PairTotal(A, B, len, lo, hi) == ChunkCellsSum(diffs, lo, hi)
    ensures lo == hi ==> threadDiff == 0
  {
    ghost var zeroed := forall i, j {:trigger diffs[i, j]} ::
      0 <= i < |A| && 0 <= j < |B| && lo <= IndexOf(i, j, |B|) < hi ==> diffs[i, j] == 0;
    if zeroed {
      ChunkCellsZero(diffs, lo, hi);
    }
    threadDiff := Iterations(A, B, len, diffs, lo, hi);
    if zeroed {
      ChunkCellsMatch(diffs, A, B, len, lo, hi);
    }
  }

  /** Sum of the distances of iterations k < hi whose thread is in done: what the
      shared total holds once the threads in done have added their threadDiff. */
  function MergedPairs(A: seq<Str>, B: seq<Str>, len: nat, cuts: seq<nat>, T: nat, done: seq<nat>, hi: nat): (r: int)
    requires AllOfLength(A, len) && AllOfLength(B, len) && 1 <= T
    requires IsStaticSplit(cuts, T, |A| * |B|) && hi <= |A| * |B|
    ensures 0 <= r
  {
    if hi == 0 then 0
    else
      var d := if ChunkOf(cuts, T, hi - 1) in done then PairDistance(A, B, len, hi - 1) else 0;
      MergedPairs(A, B, len, cuts, T, done, hi - 1) + d
  }

  /** Before any thread has added its threadDiff, the total is 0. */
  lemma {:induction false} MergedPairsNone(A: seq<Str>, B: seq<Str>, len: nat, cuts: seq<nat>, T: nat, hi: nat)
    requires AllOfLength(A, len) && AllOfLength(B, len) && 1 <= T
    requires IsStaticSplit(cuts, T, |A| * |B|) && hi <= |A| * |B|
    ensures MergedPairs(A, B, len, cuts, T, [], hi) == 0
  {
    if hi > 0 {
      MergedPairsNone(A, B, len, cuts, T, hi - 1);
    }
  }

  /** Adding thread t's threadDiff adds exactly the iterations of its chunk below hi. */
  lemma {:induction false} MergedPairsStep(A: seq<Str>, B: seq<Str>, len: nat, cuts: seq<nat>, T: nat,
                                           done: seq<nat>, t: nat, hi: nat)
    requires AllOfLength(A, len) && AllOfLength(B, len) && 1 <= T
    requires IsStaticSplit(cuts, T, |A| * |B|) && hi <= |A| * |B|
    requires t < T && t !in done
    ensures MergedPairs(A, B, len, cuts, T, done + [t], hi) == MergedPairs(A, B, len, cuts, T, done, hi) +
      PairTotal(A, B, len, cuts[t], if cuts[t + 1] < hi then cuts[t + 1] else hi)
  {
    if hi > 0 {
      var k := hi - 1;
      MergedPairsStep(A, B, len, cuts, T, done, t, k);
      MergedIteration(cuts, T, |A| * |B|, done, t, k);
      ClippedPairTotalStep(A, B, len, cuts[t], cuts[t + 1], k);
    }
  }

  /** Iteration k counts once thread t has merged as well exactly when it counted
      before or lies in t's chunk, and not both. */
  lemma MergedIteration(cuts: seq<nat>, T: nat, total: nat, done: seq<nat>, t: nat, k: nat)
    requires 1 <= T && IsStaticSplit(cuts, T, total) && k < total && t < T && t !in done
    ensures (ChunkOf(cuts, T, k) in done + [t]) == (ChunkOf(cuts, T, k) in done || InChunk(cuts, t, k))
    ensures !(ChunkOf(cuts, T, k) in done && InChunk(cuts, t, k))
  {
    if InChunk(cuts, t, k) {
      ChunkOfUnique(cuts, T, total, t, k);
    }
  }

  /** The part of chunk [s, f) below k + 1 is the part below k plus iteration k
      when k lies in the chunk. */
  lemma ClippedPairTotalStep(A: seq<Str>, B: seq<Str>, len: nat, s: nat, f: nat, k: nat)
    requires AllOfLength(A, len) && AllOfLength(B, len) && s <= f <= |A| * |B| && k < |A| * |B|
    ensures PairTotal(A, B, len, s, if f < k + 1 then f else k + 1) ==
      PairTotal(A, B, len, s, if f < k then f else k) + (if s <= k < f then PairDistance(A, B, len, k) else 0)
  {
  }

  /** At every point of the merging the shared total is at most the sum of the
      iterations below hi: no thread's share is counted twice. */
  lemma {:induction false} MergedPairsAtMostTotal(A: seq<Str>, B: seq<Str>, len: nat, cuts: seq<nat>, T: nat,
                                                  done: seq<nat>, hi: nat)
    requires AllOfLength(A, len) && AllOfLength(B, len) && 1 <= T
    requires IsStaticSplit(cuts, T, |A| * |B|) && hi <= |A| * |B|
    ensures MergedPairs(A, B, len, cuts, T, done, hi) <= PairTotal(A, B, len, 0, hi)
  {
    if hi > 0 {
      MergedPairsAtMostTotal(A, B, len, cuts, T, done, hi - 1);
    }
  }

  /** When the k-th thread to finish adds its threadDiff, the shared total grows
      by exactly its chunk's share. */
  lemma MergedInTurn(A: seq<Str>, B: seq<Str>, len: nat, cuts: seq<nat>, T: nat, order: seq<nat>, k: nat)
    requires AllOfLength(A, len) && AllOfLength(B, len) && 1 <= T
    requires IsStaticSplit(cuts, T, |A| * |B|) && IsRunOrder(order, T) && k < |order|
    ensures MergedPairs(A, B, len, cuts, T, order[..k + 1], |A| * |B|) ==
      MergedPairs(A, B, len, cuts, T, order[..k], |A| * |B|) + PairTotal(A, B, len, cuts[order[k]], cuts[order[k] + 1])
  {
    NextInOrder(order, T, k);
    assert cuts[order[k] + 1] <= |A| * |B|;
    MergedPairsStep(A, B, len, cuts, T, order[..k], order[k], |A| * |B|);
  }

  /** Once every thread has added its threadDiff, all iterations below hi are counted. */
  lemma {:induction false} MergedPairsAll(A: seq<Str>, B: seq<Str>, len: nat, cuts: seq<nat>, T: nat,
                                          done: seq<nat>, hi: nat)
    requires AllOfLength(A, len) && AllOfLength(B, len) && 1 <= T
    requires IsStaticSplit(cuts, T, |A| * |B|) && hi <= |A| * |B|
    requires forall t: nat :: t < T ==> t in done
    ensures MergedPairs(A, B, len, cuts, T, done, hi) == PairTotal(A, B, len, 0, hi)
  {
    if hi > 0 {
      MergedPairsAll(A, B, len, cuts, T, done, hi - 1);
    }
  }

  /** The k-th thread to finish, order[k], after the threads order[..k] have
      filled their chunks: it fills its own chunk, so that the cells filled are
      now those of the threads order[..k + 1], and returns its threadDiff, the
      share of its chunk. */
  method RunInTurn(A: seq<Str>, B: seq<Str>, len: nat, diffs: array2<int>, T: nat, cuts: seq<nat>,
                   order: seq<nat>, k: nat)
    returns (threadDiff: int)
    requires AllOfLength(A, len) && AllOfLength(B, len) && 1 <= T
    requires IsStaticSplit(cuts, T, |A| * |B|) && IsRunOrder(order, T) && k < |order|
    requires diffs.Length0 == |A| && diffs.Length1 == |B|
    requires forall i, j {:trigger diffs[i, j]} :: 0 <= i < |A| && 0 <= j < |B| ==>
      diffs[i, j] == if ChunkOf(cuts, T, IndexOf(i, j, |B|)) in order[..k] then Distance(A[i], B[j], len) else 0
    modifies diffs
    ensures forall i, j {:trigger diffs[i, j]} :: 0 <= i < |A| && 0 <= j < |B| ==>
      diffs[i, j] == if ChunkOf(cuts, T, IndexOf(i, j, |B|)) in order[..k + 1] then Distance(A[i], B[j], len) else 0
    ensures threadDiff == PairTotal(A, B, len, cuts[order[k]], cuts[order[k] + 1])
  {
    var t := order[k];
    NextInOrder(order, T, k);
    assert cuts[t] <= cuts[t + 1] <= |A| * |B|;
    forall i, j | 0 <= i < |A| && 0 <= j < |B|
      ensures ChunkOf(cuts, T, IndexOf(i, j, |B|)) == t <==> InChunk(cuts, t, IndexOf(i, j, |B|))
    {
      IndexBelow(i, j, |A|, |B|);
      if InChunk(cuts, t, IndexOf(i, j, |B|)) {
        ChunkOfUnique(cuts, T, |A| * |B|, t, IndexOf(i, j, |B|));
      }
    }
    threadDiff := OmpThread(A, B, len, diffs, cuts[t], cuts[t + 1]);
  }

  /** algori8mos: a zeroed matrix, then the parallel region; the threads finish in
      the given order and each adds its threadDiff to the shared total (the atomic
      update makes the additions one after another). */
  method Run(A: seq<Str>, B: seq<Str>, len: nat, T: nat, cuts: seq<nat>, order: seq<nat>)
    returns (diffs: array2<int>, totalDiff: int)
    requires AllOfLength(A, len) && AllOfLength(B, len) && 1 <= T
    requires IsStaticSplit(cuts, T, |A| * |B|) && IsRunOrder(order, T)
    ensures fresh(diffs)
    ensures diffs.Length0 == |A| && diffs.Length1 == |B|
    ensures forall i, j :: 0 <= i < |A| && 0 <= j < |B| ==> diffs[i, j] == Distance(A[i], B[j], len)
    ensures totalDiff == Total(A, B, len)
  {
    diffs := new int[|A|, |B|]((i, j) => 0);
    totalDiff := 0;
    var k := 0;
    MergedPairsNone(A, B, len, cuts, T, |A| * |B|);
    assert order[..0] == [];
    while k < |order|
      invariant k <= |order|
      invariant forall i, j {:trigger diffs[i, j]} :: 0 <= i < |A| && 0 <= j < |B| ==>
        diffs[i, j] == if ChunkOf(cuts, T, IndexOf(i, j, |B|)) in order[..k] then Distance(A[i], B[j], len) else 0
      invariant totalDiff == MergedPairs(A, B, len, cuts, T, order[..k], |A| * |B|)
    {
      var threadDiff := RunInTurn(A, B, len, diffs, T, cuts, order, k);
      totalDiff := totalDiff + threadDiff;
      MergedInTurn(A, B, len, cuts, T, order, k);
      k := k + 1;
    }
    assert order[..k] == order;
    MergedPairsAll(A, B, len, cuts, T, order, |A| * |B|);
    PairTotalIsTotal(A, B, len);
  }

  /** For any thread count, any static split and any finishing order the matrix
      and the total are the serial baseline's. */
  method MatchesSerial(A: seq<Str>, B: seq<Str>, len: nat, T: nat, cuts: seq<nat>, order: seq<nat>)
    returns (serial: array2<int>, serialTotal: int, parallel: array2<int>, parallelTotal: int)
    requires AllOfLength(A, len) && AllOfLength(B, len) && 1 <= T
    requires IsStaticSplit(cuts, T, |A| * |B|) && IsRunOrder(order, T)
    ensures serial.Length0 == parallel.Length0 == |A| && serial.Length1 == parallel.Length1 == |B|
    ensures forall i, j :: 0 <= i < |A| && 0 <= j < |B| ==> serial[i, j] == parallel[i, j]
    ensures serialTotal == parallelTotal
  {
    serial, serialTotal := Serial.AllPairs(A, B, len);
    parallel, parallelTotal := Run(A, B, len, T, cuts, order);
  }
}
