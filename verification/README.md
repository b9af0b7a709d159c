# dbMAP adaptive diffusion core, modelled in Dafny

This project models the diffusion-map core of dbMAP (`src/dbmap/diffusion.py`)
and proves properties of it. It follows one call of `Diffusor.fit_transform`
on the approximate-neighbour branch:

1. `NMSlibTransformer` lays a CSR neighbour graph over the search's answers.
   It squares `sqeuclidean` distances and raises its `n_neighbors` by one on
   every `transform`.
2. Each sample gets an adaptive bandwidth: the `adaptive_k`-th smallest
   stored distance of its row, with `adaptive_k = floor(n_neighbors / 2)`.
3. The edge weights `exp(-d / sigma_i)` form W. The kernel is `W + W^T`.
   For `alpha > 0` the kernel is scaled on both sides by the degrees to the
   power `-alpha`.
4. The Markov operator `T = diag(1/d) K` follows. Zero degrees stay zero.
5. The solver's eigenvalues are sorted in descending order. Their
   eigenvector columns are permuted the same way.
6. The `multiscale` estimator chooses `n_eigs`. It can be given explicitly,
   taken from a knee detector, or picked by the eigengap fallback. It then
   rescales eigenvector columns `1 .. n_eigs - 1` by `lambda / (1 - lambda)`.

Matrices are dense `seq<seq<real>>`; an entry absent from a sparse matrix is
`0.0`. Arithmetic is exact real arithmetic. Four things the program takes
from native libraries enter as inputs:

- the neighbour search's answers, one list of (index, distance) pairs per
  query;
- `expNeg` for x ↦ exp(−x);
- `pow` for x ↦ x^(−alpha);
- `solver` for the ARPACK eigensolver.

The errors the model reports are values of `Results.Error`, returned through
`Result`. All but one are exceptions the code raises on its own inputs:
`KeyError` for an unknown metric or a missing eigenpair label,
`AttributeError` for `transform` before `fit`, `ValueError` for no queries,
ragged rows or rows too short for the index pointer, `IndexError` for the
bandwidth and the eigengap, `ValueError`/`TypeError` for the component count,
and `TypeError` for a missing knee. The exception is `NonFiniteScale`: for an
eigenvalue equal to 1, numpy returns an infinite or NaN column with a warning,
and the model reports that as an error. The parameters above always return;
what the native libraries themselves may raise is listed under
"## Left out".

Modules, in pipeline order:

| module | file | models |
|---|---|---|
| `Results` | results.dfy | `Option`, `Result` and the error kinds |
| `Linear` | linear.dfy | vectors, dense matrices, sums, products with diagonal matrices |
| `NeighborGraph` | neighbor_graph.dfy | `NMSlibTransformer`: metric table, `fit`, `transform` |
| `Bandwidth` | bandwidth.dfy | the adaptive bandwidth loop |
| `Kernel` | kernel.dfy | weights, `W + W^T`, alpha scaling, Markov operator |
| `Eigen` | eigen.dfy | `argsort(D)[::-1]` and the eigenpair permutation |
| `Multiscale` | multiscale.dfy | `multiscale.fit` and `multiscale.transform` |
| `Diffusor` | diffusor.dfy | `Diffusor.fit_transform`, approximate branch |

## Model

| member | source | states |
|---|---|---|
| NeighborGraph.NewTransformer | src/dbmap/diffusion.py:69-86 | A transformer exists exactly for the 16 metric names of the table. It records the nmslib space the table assigns and starts with no fitted sample count (`n_samples_fit_` does not exist yet). Any other name is a lookup failure. |
| NeighborGraph.Fit | src/dbmap/diffusion.py:107 | `fit` records the number of indexed samples as `n_samples_fit_` and changes nothing else. |
| NeighborGraph.Transform | src/dbmap/diffusion.py:123-149 | A transformer that was never fitted fails with `NotFitted` (the index attribute is missing at line 128) and is returned unchanged. On a fitted transformer `n_neighbors` rises by exactly one, even when the call then fails. With k the raised value, the graph exists iff there is at least one answer, all answers have one width, and that width is at least k. The error kinds are distinguished. The index pointer is `[0, k, .., n*k]`, of length n + 1. The graph has n rows and `n_samples_fit_` columns. |
| NeighborGraph.FlattenSlice | src/dbmap/diffusion.py:137-146 | After `vstack(...).ravel()` of rows of width k, row i occupies exactly offsets `i*k .. (i+1)*k`. |
| NeighborGraph.TransformWellFormed | src/dbmap/diffusion.py:145-149 | For answers of k entries each, the assembled graph satisfies the CSR invariants (monotone pointer, last pointer within the data, columns in range) iff every returned index is below `n_samples_fit_`. |
| NeighborGraph.TransformRoundTrip | src/dbmap/diffusion.py:137-149 | Reading row i back through the index pointer gives exactly answer i. The distances are squared under `sqeuclidean` and unchanged otherwise, and the neighbour indices come back in order. |
| NeighborGraph.TransformNonNegative | src/dbmap/diffusion.py:142-147 | Non-negative returned distances give non-negative stored distances. |
| Bandwidth.Sort | src/dbmap/diffusion.py:329 | `np.sort` returns an ascending rearrangement of its input with the same multiset. |
| Bandwidth.SortCounts | src/dbmap/diffusion.py:329 | Sorting does not change how many entries lie below or at a threshold. |
| Bandwidth.PyIndex | src/dbmap/diffusion.py:329-331 | Python indexing is defined exactly on `[-len, len)`. A negative index counts from the end. |
| Bandwidth.RowBandwidth | src/dbmap/diffusion.py:329-331 | When defined, sigma is one of the row's stored distances. The only failure is an index error. |
| Bandwidth.RowBandwidthDefined | src/dbmap/diffusion.py:326-331 | sigma exists iff `1 <= adaptive_k <= row length`, or `adaptive_k = 0` and the row is non-empty (Python index -1). |
| Bandwidth.RowBandwidthIsOrderStatistic | src/dbmap/diffusion.py:326-331 | For `adaptive_k >= 1`, fewer than `adaptive_k` entries lie below sigma and at least `adaptive_k` lie at or below it. So sigma is the `adaptive_k`-th smallest distance. |
| Bandwidth.RowBandwidthIsMaximum | src/dbmap/diffusion.py:326-331 | For `adaptive_k = 0`, index -1 makes sigma the row maximum: every entry lies at or below it. |
| Bandwidth.AdaptiveBandwidth | src/dbmap/diffusion.py:327-331 | The loop succeeds iff every row has a bandwidth. The vector then has one entry per row, and entry i is row i's bandwidth, taken from row i. |
| Bandwidth.PipelineBandwidthDefined | src/dbmap/diffusion.py:324-331 | On the graph `transform` builds (rows of `n_neighbors + 1` entries), the bandwidth never fails. With non-negative distances every sigma is non-negative. |
| Kernel.StoredAtSupport | src/dbmap/diffusion.py:333 | After `find` sums duplicate entries, a nonzero (row, column) value requires a nonzero stored distance at that column in that row. |
| Kernel.AdaptiveWeights | src/dbmap/diffusion.py:333-336 | W is square and non-negative (given exp(−x) ≥ 0). A nonzero weight needs an edge, i.e. a nonzero stored distance from i to j. On an edge with sigma_i ≠ 0 the weight is exactly exp(−d_ij / sigma_i). A row with sigma = 0 gets no weight, because d/0 is infinite and exp(−inf) is 0. |
| Kernel.PairDistanceIsEdge | src/dbmap/diffusion.py:333 | With non-negative stored distances, the summed distance `find` reports for (i, j) is nonzero iff the graph has an edge i → j. |
| Kernel.Symmetrize | src/dbmap/diffusion.py:354 | `kernel[i][j] = W[i][j] + W[j][i] = kernel[j][i]`. The kernel is non-negative whenever W is. |
| Kernel.ScaledDegrees | src/dbmap/diffusion.py:356-359 | A zero degree stays 0. Every nonzero degree becomes its power. |
| Kernel.Anisotropic | src/dbmap/diffusion.py:357-361 | For alpha ≤ 0 the kernel is unchanged. For alpha > 0 every entry equals the corresponding entry of the matrix product `mat . K . mat`, with `mat` the diagonal of scaled degrees. |
| Kernel.AnisotropicSupport | src/dbmap/diffusion.py:357-361 | The alpha scaling creates no new nonzero entries: a nonzero scaled entry sits where the kernel is nonzero. |
| Linear.TwoSidedSupport | src/dbmap/diffusion.py:360-361 | `mat . K . mat` is zero wherever K is zero. |
| Linear.TwoSidedIsProduct | src/dbmap/diffusion.py:360-361 | Scaling row i and column j by `d_i` and `d_j` is the product `diag(d) . K . diag(d)`. |
| Linear.MulDiagLeft | src/dbmap/diffusion.py:366 | `diag(d) . K` multiplies row i of K by `d_i`. |
| Kernel.AnisotropicSymmetric | src/dbmap/diffusion.py:357-361 | The scaling keeps a symmetric kernel symmetric, for every alpha and every power. |
| Kernel.AnisotropicNonNegative | src/dbmap/diffusion.py:357-361 | The scaling keeps a non-negative kernel non-negative when the power is non-negative on positive degrees. |
| Kernel.AnisotropicKeepsIsolatedPoints | src/dbmap/diffusion.py:356-362 | Take a symmetric non-negative kernel and a power positive on positive degrees. Row i of the scaled kernel sums to zero iff row i of the kernel does, so the scaling isolates no new point. |
| Kernel.Reciprocals | src/dbmap/diffusion.py:363 | A zero degree stays 0. A nonzero degree becomes its reciprocal (product 1). |
| Kernel.MarkovOperator | src/dbmap/diffusion.py:363-366 | Row i of T is row i of the kernel multiplied by the reciprocal degree, or by 0 for a zero degree. |
| Kernel.MarkovIsDiagonalProduct | src/dbmap/diffusion.py:366 | T equals entry by entry the matrix product `diag(D) . kernel` that the source forms. |
| Kernel.MarkovRowStochastic | src/dbmap/diffusion.py:362-366 | A kernel row with nonzero sum gives a row of T summing to 1. Scaled back by that sum, the row of T gives the kernel row. A zero-sum row gives an all-zero row. |
| Eigen.ArgsortDescending | src/dbmap/diffusion.py:372 | `argsort(D)[::-1]` lists every position exactly once. Positions are ordered by value descending, and among equal values by position descending. |
| Eigen.ArgsortIsPermutation | src/dbmap/diffusion.py:372 | The reversed argsort is a permutation of `0 .. len - 1`: in range, distinct and covering. |
| Eigen.SortEigenpairs | src/dbmap/diffusion.py:372-374 | The reordered eigenvalues are non-increasing. The eigenvector matrix keeps its shape. |
| Eigen.SortIsRearrangement | src/dbmap/diffusion.py:372-373 | The sorted eigenvalues have the same multiset as the solver's. |
| Eigen.SortKeepsPairs | src/dbmap/diffusion.py:372-374 | One permutation moves both the values and the vector columns, so position k holds the eigenvalue and the eigenvector the solver returned together. |
| Multiscale.RoundHalfEven | src/dbmap/diffusion.py:230 | Python's `round` gives an integer within 1/2 of its argument, strictly closer off ties. Ties go to the even neighbour. |
| Multiscale.RoundIsNearest | src/dbmap/diffusion.py:230 | Any integer strictly within 1/2 of the argument is the rounded value. |
| Multiscale.Fit | src/dbmap/diffusion.py:215-238 | An explicit `n_eigs` is returned untouched. Otherwise `n_eigs` becomes the knee rounded to within 1/2. A missing knee is the only failure. Sensitivity and plot flag are unchanged. |
| Multiscale.Drops | src/dbmap/diffusion.py:244 | There is one drop per consecutive pair of eigenvalues (none for an empty input). Drop i plus the next eigenvalue gives eigenvalue i. |
| Multiscale.FirstGap | src/dbmap/diffusion.py:244 | The first choice lies in `[1, len - 1]`. |
| Multiscale.FirstGapIsLargestDrop | src/dbmap/diffusion.py:244 | The first choice minus 1 is the position of a largest drop. It is at least every drop and strictly above every later one. |
| Multiscale.Eigengap | src/dbmap/diffusion.py:242-246 | The fallback succeeds iff there are at least 3 eigenvalues. Its result lies in `[2, len]`. Otherwise the failure is an index error. |
| Multiscale.EigengapFallsBackToSecondDrop | src/dbmap/diffusion.py:244-246 | A first choice of at least 3 stands. Below 3, the result is 2 plus the position of the largest drop other than the first. |
| Multiscale.Rescale | src/dbmap/diffusion.py:249-251 | There is no failure for `n_eigs <= 1` (empty rows). A retained position that is not a label of the eigenvalue Series fails with `MissingEigenpair` (pandas' `KeyError`), and so does a retained eigenvalue equal to 1. Otherwise every row has exactly `n_eigs - 1` entries. |
| Multiscale.RescaleRecovers | src/dbmap/diffusion.py:251 | Output column j times `1 - lambda_{j+1}` equals eigenvector column `j+1` times `lambda_{j+1}`. So each column with nonzero lambda is recoverable from the output. |
| Multiscale.RescaleUsesOnlyRetainedPairs | src/dbmap/diffusion.py:249-251 | Eigenpair 0 and the eigenpairs from `n_eigs` on are dropped. Inputs agreeing on pairs `1 .. n_eigs - 1` give the same output. |
| Multiscale.Transform | src/dbmap/diffusion.py:240-254 | An explicit `n_eigs` is used as is. With fewer than 2 eigenvalues the state is untouched and the call fails. With exactly 2, the first choice is stored before the second argsort fails. Otherwise the fallback's choice is stored and used. |
| Multiscale.ExplicitNEigsKept | src/dbmap/diffusion.py:215-249 | An explicit `n_eigs` is never overwritten, by `fit` or by `transform`. |
| Multiscale.TransformRepeats | src/dbmap/diffusion.py:242-251 | A successful `transform` leaves `n_eigs` set, so a second call on the same eigenpairs returns the same state and output. |
| Diffusor.PipelineGraph | src/dbmap/diffusion.py:323-324 | Take answers of `n_neighbors + 1` in-range entries for n > 0 queries. Fitting and transforming gives a well-formed n-by-n graph with rows of `n_neighbors + 1` non-negative entries. |
| Diffusor.KernelOf | src/dbmap/diffusion.py:333-361 | The kernel is square and symmetric. It is non-negative when the power is non-negative on positive degrees. An entry (i, j) is nonzero only where the graph has an edge i → j or j → i. For alpha ≤ 0 it is exactly `W[i][j] + W[j][i]` of the adaptive weights. |
| Diffusor.KnnGraph | src/dbmap/diffusion.py:316-331 | Fitting and transforming on n samples gives a well-formed n-by-n graph whose row i holds answer i (indices in order, distances squared under `sqeuclidean`). The bandwidth loop succeeds on it, and sigma_i is the bandwidth of answer i's distances. |
| Diffusor.RowEdgeIsListed | src/dbmap/diffusion.py:137-149 | When row i of a graph holds one answer, the graph has an edge i → j iff the answer lists j with a nonzero distance. |
| Diffusor.EdgeIsListed | src/dbmap/diffusion.py:323-333 | In the pipeline's graph, edge i → j exists iff the search's answer for query i lists j with a nonzero distance. |
| Diffusor.PipelineKernel | src/dbmap/diffusion.py:316-361 | The pipeline's kernel is the kernel of the graph and bandwidths above. It is n-by-n and symmetric, non-negative for a non-negative power, and nonzero at (i, j) only if query i lists j or query j lists i with a nonzero distance. |
| Diffusor.KernelOnListedPairs | src/dbmap/diffusion.py:333-354 | A kernel supported on the graph's edges (in either direction) is supported on the pairs the search listed. |
| Diffusor.FitTransform | src/dbmap/diffusion.py:302-374 | For sparse input, success iff the metric is known, n > 0 and `0 < n_components < n - 1`. Each failure has its own error kind. On success the kernel is the pipeline's kernel for these answers, nonzero only on pairs the search listed (either way round); T is n-by-n, the kernel is symmetric, and T is the Markov operator of the returned kernel. The eigenvalues are non-increasing, with one eigenvector column per eigenvalue. |
| Diffusor.FitTransformIsStochastic | src/dbmap/diffusion.py:362-366 | In the returned bundle, every kernel row of nonzero degree gives an operator row summing to 1. Every zero-degree row gives an all-zero row. |
| Diffusor.FitTransformKeepsEigenpairs | src/dbmap/diffusion.py:369-374 | The returned eigenvalues are the solver's as a multiset. They come through one permutation that carries each eigenvector column along with its eigenvalue. |

## Left out

- The neighbour search (nmslib index building at `src/dbmap/diffusion.py:109-117` and querying at `134-135`) is a native library call. `transform` receives the search's answers instead.
- Diffusor.FitTransform: covers sparse input only. The conversion in `fit` (lines 92-105) is plain Python: sparse input passes through untouched, while dense input (a numpy array or a pandas DataFrame) has no `tocsr`, so line 97 raises `AttributeError`, which the `except SyntaxError` at line 98 does not catch. `fit_transform` calls `fit` at line 323, so every dense input fails there, although its docstring (line 305) says it takes numpy arrays. The model starts from the sample count that sparse input provides.
- `NeighborGraph.Fit` models only the recorded sample count. The source builds its index in the space `cosinesimil_sparse_fast` whatever metric was chosen; that affects only the search, which is an input here.
- The exact-search branch (`ann=False`, lines 337-352) is left out. It uses two scikit-learn neighbour searches and takes sigma as the maximum of a second search's distances. Both are outside the core; its kernel steps are the ones modelled.
- exp, the real power `D ** (-alpha)` and the eigensolver `eigs` are parameters. `np.real` is not modelled: the solver returns real values.
- The per-column eigenvector normalisation by `np.linalg.norm` (lines 376-378) is left out, because it needs a square root.
- The result dictionary, pandas wrapping, timing and printing are left out, and so are `KneeLocator`, its plots and `test_efficiency`. The knee detector's answer is an input of `Multiscale.Fit`.
- Floating point is not modelled. In particular, `1 / D` and `lambda / (1 - lambda)` are exact.
- Multiscale.Rescale: numpy turns `lambda = 1` into an infinite or NaN column with a warning. Reals have no infinity, so the model reports this as the error `NonFiniteScale`.
- Eigen.ArgsortDescending: numpy's default argsort is not stable beyond small inputs. Among equal values the model fixes the order a stable argsort would give once reversed (larger position first). Sortedness, permutation and pairing do not depend on this choice. Multiscale.FirstGap, Multiscale.FirstGapIsLargestDrop, Multiscale.Eigengap, Multiscale.EigengapFallsBackToSecondDrop and Multiscale.Transform do: among equal drops they fix the same order (for drops `[0.5, 0.5]` the first choice is 2 and the eigengap result 2 under it; under the opposite order they would be 1 and 3).
- Diffusor.FitTransform: requires the search to answer every query with exactly `n_neighbors + 1` entries. The short or ragged answers of a tiny data set are modelled by `NeighborGraph.Transform` alone.
- Diffusor.FitTransformIsStochastic: does not restate, for the pipeline's output, that a row of T scaled back by its degree gives the kernel row. `Kernel.MarkovRowStochastic` proves this for every kernel.
- Diffusor.FitTransform: the eigensolver is a parameter that always returns. `eigs` raising `ArpackNoConvergence` after `maxiter=1000` iterations (line 369) is not modelled.
- NeighborGraph.Transform: failures inside nmslib's `knnQueryBatch` (line 134) are not modelled; the search's answers are an input.
- Diffusor.FitTransform: `eigs` raises `ValueError` for `k <= 0` and `TypeError` for `k >= N - 1` on a sparse operator. Both are the single error `ComponentCount`.

## Notes on the code's behaviour

- **Zero bandwidth.** A zero bandwidth makes `dists / adaptive_std[x]` infinite, so the weight is `exp(-inf) = 0` and the row gets no edges.
- **Zero distances.** `find` drops explicit zeros before weighting, so a zero distance never becomes an edge.
- **Eigengap fallback.** The fallback adds 2 to the position of the second-largest drop, so its result lies in `[2, len]`.
- **Component count.** The component count is checked only when `eigs` runs, after the neighbour search, with the bound `0 < k < N - 1`.
- **Knee detection.** `fit` takes the rounded knee of an external detector. The detector's algorithm is not part of this model.
