# All-pairs Hamming distance: serial, row-block threads, collapsed pair space

The program compares every string of a collection A (m strings) with every
string of a collection B (n strings), all of length l. Cell `diffs[i][j]` of
an m-by-n matrix gets the number of positions where `A[i]` and `B[j]` differ,
and the sum of all cells, `totalDiff`, is returned. The same computation is
written three times:

- **serial** (`code/serial.c`): a triple loop over rows, columns and
  positions, starting from a zeroed matrix. Each finished cell is added to
  `totalDiff`.
- **row blocks** (`code/pthread_line.c`): the m rows are cut into T blocks of
  `ceil(m / T)` rows. Worker `tid` fills rows `[b*tid, min(b*(tid+1), m))`,
  keeps a private `threadSum`, and adds it to the shared total. Workers T-1
  down to 1 are started first, then the calling thread runs worker 0.
- **collapsed pair space** (`code/OMP_string.c`): `collapse(2)` makes the
  (i, j) loops one loop over `k < m*n`, with pair `(k / n, k % n)`.
  `schedule(static)` gives each thread one contiguous chunk of that range.
  Each thread keeps a private `threadDiff` and adds it atomically to the
  total.

The Dafny modules follow that structure:

- `Hamming`: the reference definitions. `Distance` for one pair, and
  `RowTotal`, `RowsTotal` and `Total` for the sums over rows.
- `Grid`: the matrix as an `array2<int>` and the sums of its cells. It also
  holds `CompareStrings`, the innermost position loop that all three variants
  share, and `FillRow`, the column loop that the serial and row-block variants
  share.
- `Serial`: the baseline loop nest.
- `PthreadLine`: the block arithmetic, the worker, and the driver.
- `Collapse`: the bijection between logical iterations and pairs.
- `OmpString`: the static schedule, the thread, and the driver.
- `Schedule`: the order in which parallel workers merge.
- `Arith`: integer-division facts.
- `Alloc`: the size of the row buffers as allocated.

Threads are modelled as workers that run one after another, in any order
(`Schedule.IsRunOrder`, a permutation of the worker ids). Each worker writes
only its own cells, so no interleaving can change a cell. A merge into the
shared total is a plain addition. The atomic operations make these additions
happen one at a time, and addition does not depend on their order. Both
parallel drivers are proved to give the serial matrix and total for every
worker count and every run order. The collapsed variant is also proved for
every static split.

The matrix is allocated zeroed (`new int[m, n]((i, j) => 0)`), as `calloc`
does. The strings are `seq<char>` values, so no variant can modify them.

In the worked example (A = ["000", "111"], B = ["000", "101"], l = 3), the
loops compute the matrix [[0, 2], [3, 1]] and the total 6, as
`Hamming.Scenarios` states.

## Model

| member | source | states |
|---|---|---|
| Hamming.Distance | code/serial.c:69-76 | The count of differing positions among the first l is at most l. It is 0 exactly when the first l symbols of both strings agree. |
| Hamming.DistanceCountsMismatches | code/serial.c:69-76 | Distance equals the size of the set of positions p < l with `a[p] != b[p]`. |
| Hamming.RowTotal | code/serial.c:68-79 | The distances from one string to the first cols strings of B sum to a value between 0 and cols * l. |
| Hamming.RowsTotal | code/serial.c:67-80 | The row totals of rows lo .. hi-1 sum to a value between 0 and (hi - lo) * n * l. |
| Hamming.Total | code/serial.c:47-80 | The total over all m * n pairs lies between 0 and m * n * l. |
| Hamming.Scenarios | code/serial.c:67-78 | Worked example: distances 0, 2, 3 and 1, total 6. Identical strings have total 0. |
| Grid.CellsMatchSum | code/serial.c:78 | Rows whose cells hold their distances sum to those rows' total distance. |
| Grid.RowMatchSum | code/serial.c:68-79 | A row whose first cols cells hold their distances sums to the row's total over those columns. |
| Grid.CompareStrings | code/serial.c:69-76 | Cell (i, j) grows by exactly the distance of the two strings. Every other cell is unchanged. |
| Grid.FillRow | code/serial.c:68-79 | Each cell of row i grows by its distance and nothing else changes. When the row started at 0, the returned sum is the row's total distance. The same column loop is code/pthread_line.c:66-73. |
| Serial.AllPairs | code/serial.c:33-80 | From a zeroed m-by-n matrix: every cell equals the distance of its pair and lies in [0, l]. `totalDiff` equals the reference total and the sum of all cells. The loop invariants say that finished rows hold their distances, rows not yet reached are still 0, and `totalDiff` is the total of the finished rows. |
| Alloc.RowCellsAsWritten | code/serial.c:34-35 | A row buffer of `calloc(l, n * sizeof(int))` holds l * n ints. That covers a row's n cells when l >= 1, and it is empty exactly when l == 0 or n == 0. |
| Alloc.EmptyStringsOverrun | code/serial.c:34-78 | As written, with l = 0 and n >= 1, some column read `totalDiff += diffs[i][j]` (column 0) falls outside the row buffer. |
| Alloc.NonEmptyStringsInBounds | code/serial.c:34-78 | As written, with l >= 1, every column read j < n is inside the row buffer. |
| Alloc.ReadsInBoundsIff | code/serial.c:34-78 | All reads of a row's n columns are inside its buffer if and only if l >= 1 or n == 0. |
| Schedule.IsRunOrder | code/pthread_line.c:136-165 | A run order lists every worker id 0 .. T-1 once, in whatever order the workers finish and merge. Such an order has exactly T entries. |
| Schedule.NextInOrder | code/pthread_line.c:136-165 | In a run order, the workers merged after k + 1 steps are those merged after k steps plus `order[k]`, which had not merged before. |
| PthreadLine.BlockSize | code/pthread_line.c:55 | b = ceil(m / T): the smallest b with m <= b * T. |
| PthreadLine.Lines | code/pthread_line.c:55-63 | Worker tid's range is [b*tid, min(b*(tid+1), m)). It ends at or before m, and a non-empty range has at most b rows. |
| PthreadLine.Owner | code/pthread_line.c:55-65 | Every row i < m lies in the block of some worker t < T, namely t = i / b. |
| PthreadLine.OwnerUnique | code/pthread_line.c:55-65 | Worker t's block holds row i if and only if i < m and t is the owner of row i. No other worker's block holds it. |
| PthreadLine.LinesDisjoint | code/pthread_line.c:55-65 | The blocks of two distinct workers share no row. |
| PthreadLine.LinesCover | code/pthread_line.c:55-65 | A row lies in some worker's block if and only if it is below m. |
| PthreadLine.PastEndIsEmpty | code/pthread_line.c:56-65 | A block that starts at or past m is empty (finish <= start), so that worker runs no row. |
| PthreadLine.BlockExamples | code/pthread_line.c:55-63 | m = 5, T = 4: b = 2 and worker 3 gets [6, 5). m = 3, T = 4: b = 1 and worker 3 gets [3, 3). |
| PthreadLine.SingleWorker | code/pthread_line.c:55-65 | With T = 1, worker 0's block is every row [0, m). |
| PthreadLine.FillRows | code/pthread_line.c:65-74 | The cells of rows lo .. hi-1 grow by their distances and no other cell changes. From zeroed rows, the sum is their total distance. An empty or inverted range gives 0. |
| PthreadLine.ComputeHamming | code/pthread_line.c:47-74 | Worker tid changes only the cells of its own rows, adding each one's distance. From zeroed rows, `threadSum` is its rows' total distance and the sum of the cells it wrote. An empty block gives 0. |
| PthreadLine.Merged | code/pthread_line.c:77 | The shared total once the workers in `done` have added their `threadSum`: the totals of the rows those workers own. It is never negative. |
| PthreadLine.MergedAtMostTotal | code/pthread_line.c:77 | At every point of the merging, the shared total is at most the total of all rows. |
| PthreadLine.MergedNone | code/pthread_line.c:103 | Before any worker merges, the shared total is 0. |
| PthreadLine.MergeStep | code/pthread_line.c:77 | Merging a worker that has not merged yet adds exactly its rows' total distance. |
| PthreadLine.MergeAll | code/pthread_line.c:136-165 | Once every worker 0 .. T-1 has merged, the shared total is the total over all rows. |
| PthreadLine.LaunchOrder | code/pthread_line.c:136-160 | The launch order has T entries in strictly descending order. It starts with worker T-1 and ends with worker 0, the calling thread. |
| PthreadLine.LaunchOrderIsRunOrder | code/pthread_line.c:136-160 | Launch order T-1, ..., 1, then 0 runs every worker exactly once. |
| PthreadLine.Run | code/pthread_line.c:136-165 | From a zeroed matrix, with T workers run and merged in any order: every cell is its pair's distance and the total is the reference total. |
| PthreadLine.MatchesSerial | code/pthread_line.c:136-188 | For every T >= 1 and every run order, the matrix and the total equal the serial baseline's. |
| Collapse.IndexOf | code/OMP_string.c:72-74 | The logical iteration of pair (i, j) under `collapse(2)` is at least j, and at least j + n for every row after row 0. The exact formula is `Collapse.IndexOfIsRowMajor`. |
| Collapse.IndexOfIsRowMajor | code/OMP_string.c:72-74 | Pair (i, j) is logical iteration i * n + j. |
| Collapse.IndexBelow | code/OMP_string.c:72-74 | Every pair of the m-by-n grid has an iteration below m * n. |
| Collapse.DivModPair | code/OMP_string.c:72-74 | For k < m * n, (k / n, k % n) is a pair of the grid whose iteration is k. |
| Collapse.PairOf | code/OMP_string.c:72-74 | Iteration k < m * n stands for a pair of the grid, and IndexOf maps that pair back to k. |
| Collapse.PairOfIndex | code/OMP_string.c:72-74 | PairOf maps each pair's iteration back to the pair. With PairOf, this makes the two maps inverse bijections between [0, m*n) and the grid. |
| Collapse.RowMajor | code/OMP_string.c:72-74 | Iteration k + 1 is the next column of the same row, or column 0 of the next row: the order of the nested loops. |
| OmpString.IsStaticSplit | code/OMP_string.c:72 | `schedule(static)` as any split of [0, m*n) into T contiguous chunks [cuts[t], cuts[t+1]) in thread order, all inside the range. |
| OmpString.ChunkOf | code/OMP_string.c:72 | Every iteration below m * n lies in the chunk of some thread t < T. |
| OmpString.ChunkOfUnique | code/OMP_string.c:72 | Only that thread's chunk holds the iteration. |
| OmpString.EachPairOneThread | code/OMP_string.c:72-79 | For every static split, each pair (i, j) is computed by exactly one thread. |
| OmpString.PairDistance | code/OMP_string.c:73-80 | The distance computed by iteration k, for pair (k / n, k % n), is at most l. |
| OmpString.PairTotal | code/OMP_string.c:72-81 | The distances of iterations lo .. hi-1 sum to a value between 0 and (hi - lo) * l. |
| OmpString.PairPrefix | code/OMP_string.c:72-74 | The iterations before pair (i, j) sum to the rows above i plus the first j cells of row i. |
| OmpString.PairTotalIsTotal | code/OMP_string.c:72-83 | The whole collapsed range sums to the reference total. |
| OmpString.ChunkCellsMatch | code/OMP_string.c:81 | Chunk cells that hold their distances sum to the chunk's share of the total. |
| OmpString.ChunkCellsZero | code/OMP_string.c:33-34 | Zeroed chunk cells sum to 0. |
| OmpString.Iteration | code/OMP_string.c:73-81 | Iteration k adds the distance of pair (k / n, k % n) to that cell only, and returns the finished cell. |
| OmpString.Iterations | code/OMP_string.c:72-83 | A thread's iterations add each pair's distance to the chunk's cells only. The running sum ends as the chunk's previous cell contents plus the chunk's share of the total. |
| OmpString.OmpThread | code/OMP_string.c:65-83 | A thread changes only the cells of its chunk. `threadDiff` is the chunk's previous cell contents plus its share. From zeroed cells, `threadDiff` is its share and the sum of the cells it wrote. An empty chunk gives 0. |
| OmpString.RunInTurn | code/OMP_string.c:65-83 | The k-th thread to finish fills its chunk. Afterwards the filled cells are exactly those of the first k + 1 threads, and the others are still 0. Its `threadDiff` is its chunk's share. |
| OmpString.MergedPairs | code/OMP_string.c:86-87 | The shared total once the threads in `done` have added their `threadDiff`: the distances of the iterations in their chunks. It is never negative. |
| OmpString.MergedPairsAtMostTotal | code/OMP_string.c:86-87 | At every point of the merging, the shared total is at most the sum over the whole range. |
| OmpString.MergedPairsNone | code/OMP_string.c:45 | Before any thread adds its `threadDiff`, the shared total is 0. |
| OmpString.MergedPairsStep | code/OMP_string.c:86-87 | Adding a thread that has not merged yet adds exactly its chunk's share. |
| OmpString.MergedInTurn | code/OMP_string.c:86-87 | When the k-th thread to finish adds its `threadDiff`, the shared total grows by exactly its chunk's share. |
| OmpString.MergedPairsAll | code/OMP_string.c:86-87 | Once every thread has merged, the shared total is the sum over the whole range. |
| OmpString.Run | code/OMP_string.c:65-88 | From a zeroed matrix, for any static split and any merge order: every cell is its pair's distance and the total is the reference total. |
| OmpString.MatchesSerial | code/OMP_string.c:65-106 | For every T >= 1, every static split and every merge order, the matrix and the total equal the serial baseline's. |

## Left out

- The random string generator `rand_str` is left out. It draws from `rand()` with floating-point scaling. The strings are taken as arbitrary inputs of length l.
- Thread creation, joining, `pthread_attr` and `pthread_exit` are left out, as is the OpenMP parallel region itself. Concurrency is modelled as the workers running one after another in an arbitrary order. This is sound because their write sets are disjoint, which is proved.
- `__atomic_fetch_add` and `#pragma omp atomic` are modelled as plain additions, not as memory-model operations.
- The OpenMP runtime's own choice of chunk sizes is left out. `OmpString.IsStaticSplit` accepts any split of [0, m*n) into T contiguous chunks in thread order, and the results hold for all of them.
- Timing (`gettimeofday`, the `double` millisecond arithmetic) and `printf` are left out, since they do not affect the result.
- Command-line parsing with `atoi` in `main` is left out.
- Memory management is left out. The matrix is a zeroed m-by-n `array2`, and `free` is not modelled. The size of the allocated row buffers is recorded under Findings.
- The `double`/`ceil` block-size computation is modelled as integer ceiling division `(m + T - 1) / T`.
- Machine-integer overflow is left out. Counts and sums are unbounded integers, so `b * (tid + 1)` in `int` and the `long` totals never wrap.
- Grid.FillRow: states its returned sum only for a row whose cells start at 0. That is the state the zeroed matrix guarantees. The cell updates are stated for any start.
- PthreadLine.FillRows: states the sum only for rows whose cells start at 0, for the same reason.
- PthreadLine.ComputeHamming: states `threadSum` only for blocks whose cells start at 0, for the same reason. The collapsed variant's `OmpString.OmpThread` states its sum for any start.

## Findings

| source | as written | input that shows it | evidently intended | confidence | as-written member | corrected member |
|---|---|---|---|---|---|---|
| code/serial.c:35 | Each row is allocated with `calloc(l, n * sizeof(int))`, which is l * n ints. The same call is at code/pthread_line.c:92 and code/OMP_string.c:34. | m = 1, n = 1, l = 0: the row buffer holds no int, yet `totalDiff += diffs[0][0]` reads cell 0. | `calloc(n, sizeof(int))`: n zeroed ints per row, whatever l is. | medium, not executed | Alloc.EmptyStringsOverrun | Serial.AllPairs |
