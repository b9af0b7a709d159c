/** `Diffusor.fit_transform` on the approximate-neighbour branch: neighbour
    graph, adaptive bandwidth, kernel, optional anisotropic scaling, Markov
    operator, eigendecomposition and eigenpair sort, ending in the result
    bundle. The neighbour search, x |-> exp(-x), x |-> x ** (-alpha) and the
    eigensolver enter as parameters. */
module Diffusor {
  import opened Results
  import opened Linear
  import opened NeighborGraph
  import opened Bandwidth
  import opened Kernel
  import opened Eigen

  /** The estimator's numeric configuration. */
  datatype Diffusor = Diffusor(nComponents: int, nNeighbors: nat, alpha: real, annDist: string)

  /** What an eigensolver returns: eigenvalues and eigenvector columns. */
  datatype Eigenpairs = Eigenpairs(values: seq<real>, vectors: Matrix)

  /** The result dictionary: operator `T`, kernel, sorted eigenvalues and
      eigenvectors. */
  datatype Bundle = Bundle(operator: Matrix, kernel: Matrix, values: seq<real>, vectors: Matrix)

  /** The neighbour search answers each of the n queries with k entries, each
      a sample index below n at a non-negative distance. */
  predicate SearchAnswers(search: seq<seq<Neighbor>>, n: nat, k: nat) {
    && |search| == n
    && (forall i :: 0 <= i < n ==> |search[i]| == k)
    && (forall i, j :: 0 <= i < n && 0 <= j < |search[i]| ==> search[i][j].id < n && 0.0 <= search[i][j].dist)
  }

  /** The eigensolver returns c eigenvalues and c eigenvector columns of the
      operator's dimension. */
  ghost predicate SolverShape(solver: (Matrix, nat) -> Eigenpairs) {
    forall t: Matrix, c: nat :: |solver(t, c).values| == c && IsMatrix(solver(t, c).vectors, |t|, c)
  }

  /** `eigs(T, k)` on a sparse operator needs 0 < k < N - 1. */
  predicate ComponentsAllowed(c: int, n: nat) {
    0 < c < n - 1
  }

  /** The kernel of a well-formed neighbour graph: adaptive weights,
      symmetrised, then scaled when alpha > 0. Its entries sit only on stored
      edges, in either direction, and without scaling entry (i, j) is the sum
      of the weights of the edges i -> j and j -> i. */
  function KernelOf(cfg: Diffusor, g: Csr, sigma: seq<real>, expNeg: real -> real, pow: real -> real): (k: Matrix)
    requires WellFormed(g) && g.nCols == g.nRows && |sigma| == g.nRows
    requires forall p :: 0 <= p < |g.data| ==> 0.0 <= g.data[p]
    requires forall x :: 0.0 <= expNeg(x)
    ensures IsSquare(k) && |k| == g.nRows
    ensures Symmetric(k)
    ensures (forall x :: 0.0 < x ==> 0.0 <= pow(x)) ==> NonNegative(k)
    ensures forall i, j :: 0 <= i < g.nRows && 0 <= j < g.nRows && k[i][j] != 0.0 ==> Edge(g, i, j) || Edge(g, j, i)
    ensures cfg.alpha <= 0.0 ==> forall i, j :: 0 <= i < g.nRows && 0 <= j < g.nRows ==>
      k[i][j] == AdaptiveWeights(g, sigma, expNeg)[i][j] + AdaptiveWeights(g, sigma, expNeg)[j][i]
  {
    var w := AdaptiveWeights(g, sigma, expNeg);
    var sym := Symmetrize(w);
    AnisotropicSymmetric(sym, cfg.alpha, pow);
    PowerKeepsSign(sym, cfg.alpha, pow);
    AnisotropicSupport(sym, cfg.alpha, pow);
    Anisotropic(sym, cfg.alpha, pow)
  }

  lemma PowerKeepsSign(k: Matrix, alpha: real, pow: real -> real)
    requires IsSquare(k) && NonNegative(k)
    ensures (forall x :: 0.0 < x ==> 0.0 <= pow(x)) ==> NonNegative(Anisotropic(k, alpha, pow))
  {
    if forall x :: 0.0 < x ==> 0.0 <= pow(x) {
      AnisotropicNonNegative(k, alpha, pow);
    }
  }

  /** Sample i's answer lists sample j at a nonzero distance. */
  predicate Listed(search: seq<seq<Neighbor>>, i: nat, j: nat)
    requires i < |search|
  {
    exists q :: 0 <= q < |search[i]| && search[i][q].id == j && search[i][q].dist != 0.0
  }

  /** The neighbour graph that `fit` and `transform` build over the search's
      answers: row i holds answer i, so every bandwidth is taken from the
      distances of answer i. */
  function KnnGraph(cfg: Diffusor, n: nat, search: seq<seq<Neighbor>>): (g: Csr)
    requires 0 < n && SpaceOf(cfg.annDist).Some?
    requires SearchAnswers(search, n, cfg.nNeighbors + 1)
    ensures WellFormed(g) && g.nRows == n && g.nCols == n
    ensures forall i :: 0 <= i < g.nRows ==> g.indptr[i + 1] - g.indptr[i] == cfg.nNeighbors + 1
    ensures forall p :: 0 <= p < |g.data| ==> 0.0 <= g.data[p]
    ensures forall i :: 0 <= i < n ==>
      RowData(g, i) == DistanceRow(cfg.annDist, search[i]) && RowIndices(g, i) == IndexRow(search[i])
    ensures AdaptiveBandwidth(g, cfg.nNeighbors).Ok?
    ensures forall i :: 0 <= i < n ==>
      AdaptiveBandwidth(g, cfg.nNeighbors).value[i] ==
      RowBandwidth(DistanceRow(cfg.annDist, search[i]), AdaptiveK(cfg.nNeighbors)).value
  {
    var t := Fit(NewTransformer(cfg.nNeighbors, cfg.annDist).value, n);
    PipelineGraph(t, search, n);
    TransformRoundTrip(t, search);
    var g := Transform(t, search).1.value;
    PipelineBandwidthDefined(g, cfg.nNeighbors);
    g
  }

  /** A stored edge of the graph is exactly a listed neighbour at a nonzero
      distance. */
  lemma EdgeIsListed(cfg: Diffusor, n: nat, search: seq<seq<Neighbor>>, i: nat, j: nat)
    requires 0 < n && SpaceOf(cfg.annDist).Some?
    requires SearchAnswers(search, n, cfg.nNeighbors + 1)
    requires i < n
    ensures Edge(KnnGraph(cfg, n, search), i, j) <==> Listed(search, i, j)
  {
    RowEdgeIsListed(KnnGraph(cfg, n, search), cfg.annDist, search[i], i, j);
  }

  /** Row i of a graph whose values and columns are those of one answer has an
      edge to j exactly when the answer lists j at a nonzero distance. */
  lemma RowEdgeIsListed(g: Csr, metric: string, answer: seq<Neighbor>, i: nat, j: nat)
    requires WellFormed(g) && i < g.nRows
    requires RowData(g, i) == DistanceRow(metric, answer) && RowIndices(g, i) == IndexRow(answer)
    ensures Edge(g, i, j) <==> exists q :: 0 <= q < |answer| && answer[q].id == j && answer[q].dist != 0.0
  {
    if Edge(g, i, j) {
      EdgeToListed(g, metric, answer, i, j);
    }
    if exists q :: 0 <= q < |answer| && answer[q].id == j && answer[q].dist != 0.0 {
      var q :| 0 <= q < |answer| && answer[q].id == j && answer[q].dist != 0.0;
      ListedToEdge(g, metric, answer, i, q);
    }
  }

  lemma {:induction false} EdgeToListed(g: Csr, metric: string, answer: seq<Neighbor>, i: nat, j: nat)
    requires WellFormed(g) && i < g.nRows
    requires RowData(g, i) == DistanceRow(metric, answer) && RowIndices(g, i) == IndexRow(answer)
    requires Edge(g, i, j)
    ensures exists q :: 0 <= q < |answer| && answer[q].id == j && answer[q].dist != 0.0
  {
    var lo, hi := g.indptr[i], g.indptr[i + 1];
    var p :| lo <= p < hi && g.indices[p] == j && g.data[p] != 0.0;
    var q := p - lo;
    assert RowIndices(g, i)[q] == g.indices[p];
    assert RowData(g, i)[q] == g.data[p];
    assert answer[q].id == j && answer[q].dist != 0.0;
  }

  lemma {:induction false} ListedToEdge(g: Csr, metric: string, answer: seq<Neighbor>, i: nat, q: nat)
    requires WellFormed(g) && i < g.nRows
    requires RowData(g, i) == DistanceRow(metric, answer) && RowIndices(g, i) == IndexRow(answer)
    requires q < |answer| && answer[q].dist != 0.0
    ensures Edge(g, i, answer[q].id)
  {
    var lo, hi := g.indptr[i], g.indptr[i + 1];
    var p := lo + q;
    assert RowIndices(g, i)[q] == g.indices[p];
    assert RowData(g, i)[q] == g.data[p];
    NonZeroStored(metric, answer[q].dist);
    assert lo <= p < hi && g.indices[p] == answer[q].id && g.data[p] != 0.0;
  }

  /** Squaring keeps a nonzero distance nonzero. */
  lemma NonZeroStored(metric: string, d: real)
    requires d != 0.0
    ensures StoredDistance(metric, d) != 0.0
  {
    if metric == "sqeuclidean" {
      if d < 0.0 {
        calc { StoredDistance(metric, d); == d * d; == (-d) * (-d); > 0.0; }
      } else {
        calc { StoredDistance(metric, d); == d * d; > 0.0; }
      }
    } else {
      calc { StoredDistance(metric, d); == d; }
    }
  }

  /** The kernel `fit_transform` builds from the search's answers: the
      kernel of the neighbour graph under its adaptive bandwidths. A nonzero
      entry (i, j) needs one of the two samples to list the other at a
      nonzero distance. */
  function PipelineKernel(cfg: Diffusor, n: nat, search: seq<seq<Neighbor>>,
                          expNeg: real -> real, pow: real -> real): (k: Matrix)
    requires 0 < n && SpaceOf(cfg.annDist).Some?
    requires SearchAnswers(search, n, cfg.nNeighbors + 1)
    requires forall x :: 0.0 <= expNeg(x)
    ensures IsSquare(k) && |k| == n && Symmetric(k)
    ensures (forall x :: 0.0 < x ==> 0.0 <= pow(x)) ==> NonNegative(k)
    ensures var g := KnnGraph(cfg, n, search);
      k == KernelOf(cfg, g, AdaptiveBandwidth(g, cfg.nNeighbors).value, expNeg, pow)
    ensures forall i, j :: 0 <= i < n && 0 <= j < n && k[i][j] != 0.0 ==> Listed(search, i, j) || Listed(search, j, i)
  {
    var g := KnnGraph(cfg, n, search);
    var kernel := KernelOf(cfg, g, AdaptiveBandwidth(g, cfg.nNeighbors).value, expNeg, pow);
    KernelOnListedPairs(cfg, n, search, kernel, g);
    kernel
  }

  /** `fit_transform` with `ann=True` on n samples, given the search's
      answers for k = n_neighbors + 1 neighbours per sample. */
  function FitTransform(cfg: Diffusor, n: nat, search: seq<seq<Neighbor>>,
                        expNeg: real -> real, pow: real -> real,
                        solver: (Matrix, nat) -> Eigenpairs): (r: Result<Bundle>)
    requires SearchAnswers(search, n, cfg.nNeighbors + 1)
    requires forall x :: 0.0 <= expNeg(x)
    requires SolverShape(solver)
    ensures r.Ok? <==> SpaceOf(cfg.annDist).Some? && 0 < n && ComponentsAllowed(cfg.nComponents, n)
    ensures SpaceOf(cfg.annDist).None? ==> r == Err(UnknownMetric)
    ensures SpaceOf(cfg.annDist).Some? && n == 0 ==> r == Err(NoQueries)
    ensures SpaceOf(cfg.annDist).Some? && 0 < n && !ComponentsAllowed(cfg.nComponents, n) ==> r == Err(ComponentCount)
    ensures r.Ok? ==>
      && IsSquare(r.value.operator) && |r.value.operator| == n
      && Symmetric(r.value.kernel) && |r.value.kernel| == n
      && |r.value.values| == cfg.nComponents
      && IsMatrix(r.value.vectors, n, cfg.nComponents)
      && forall a, b :: 0 <= a < b < |r.value.values| ==> r.value.values[a] >= r.value.values[b]
    ensures r.Ok? ==> r.value.kernel == PipelineKernel(cfg, n, search, expNeg, pow)
    ensures r.Ok? ==> forall i, j :: 0 <= i < n && 0 <= j < n && r.value.kernel[i][j] != 0.0 ==>
      Listed(search, i, j) || Listed(search, j, i)
    ensures r.Ok? ==> r.value.operator == MarkovOperator(r.value.kernel)
    ensures r.Ok? ==>
      ((r.value.values, r.value.vectors) ==
       SortEigenpairs(solver(r.value.operator, cfg.nComponents).values, solver(r.value.operator, cfg.nComponents).vectors))
    ensures r.Ok? && (forall x :: 0.0 < x ==> 0.0 <= pow(x)) ==> NonNegative(r.value.kernel)
  {
    var t :- NewTransformer(cfg.nNeighbors, cfg.annDist);
    var fitted := Fit(t, n);
    if n == 0 then
      assert Transform(fitted, search).1 == Err(NoQueries);
      Err(NoQueries)
    else
      var kernel := PipelineKernel(cfg, n, search, expNeg, pow);
      var op := MarkovOperator(kernel);
      MarkovRowStochastic(kernel);
      if !ComponentsAllowed(cfg.nComponents, n) then Err(ComponentCount)
      else
        var solved := solver(op, cfg.nComponents);
        var sorted := SortEigenpairs(solved.values, solved.vectors);
        Ok(Bundle(op, kernel, sorted.0, sorted.1))
  }

  /** A kernel supported on the graph's edges is supported on listed pairs. */
  lemma KernelOnListedPairs(cfg: Diffusor, n: nat, search: seq<seq<Neighbor>>, kernel: Matrix, g: Csr)
    requires 0 < n && SpaceOf(cfg.annDist).Some?
    requires SearchAnswers(search, n, cfg.nNeighbors + 1)
    requires g == KnnGraph(cfg, n, search)
    requires IsSquare(kernel) && |kernel| == n
    requires forall i, j :: 0 <= i < n && 0 <= j < n && kernel[i][j] != 0.0 ==> Edge(g, i, j) || Edge(g, j, i)
    ensures forall i, j :: 0 <= i < n && 0 <= j < n && kernel[i][j] != 0.0 ==> Listed(search, i, j) || Listed(search, j, i)
  {
    forall i, j | 0 <= i < n && 0 <= j < n && kernel[i][j] != 0.0
      ensures Listed(search, i, j) || Listed(search, j, i)
    {
      EdgeIsListed(cfg, n, search, i, j);
      EdgeIsListed(cfg, n, search, j, i);
    }
  }

  /** The graph `transform` builds from the search's answers is a well-formed
      n-by-n graph with rows of n_neighbors + 1 non-negative entries. */
  lemma PipelineGraph(t: Transformer, search: seq<seq<Neighbor>>, n: nat)
    requires 0 < n && t.nSamplesFit == Some(n)
    requires SearchAnswers(search, n, t.nNeighbors + 1)
    ensures Transform(t, search).1.Ok?
    ensures var g := Transform(t, search).1.value;
      && WellFormed(g) && g.nRows == n && g.nCols == n
      && (forall i :: 0 <= i < g.nRows ==> g.indptr[i + 1] - g.indptr[i] == t.nNeighbors + 1)
      && (forall p :: 0 <= p < |g.data| ==> 0.0 <= g.data[p])
  {
    assert Uniform(search, t.nNeighbors + 1);
    TransformWellFormed(t, search);
    TransformNonNegative(t, search);
    var g := Transform(t, search).1.value;
    forall i | 0 <= i < g.nRows
      ensures g.indptr[i + 1] - g.indptr[i] == t.nNeighbors + 1
    {
      assert g.indptr[i + 1] == (i + 1) * (t.nNeighbors + 1);
    }
  }

  /** The operator is row-stochastic over the returned kernel: each row of
      nonzero degree sums to 1 and each row of zero degree is zero. */
  lemma FitTransformIsStochastic(cfg: Diffusor, n: nat, search: seq<seq<Neighbor>>,
                                 expNeg: real -> real, pow: real -> real,
                                 solver: (Matrix, nat) -> Eigenpairs)
    requires SearchAnswers(search, n, cfg.nNeighbors + 1)
    requires forall x :: 0.0 <= expNeg(x)
    requires SolverShape(solver)
    requires FitTransform(cfg, n, search, expNeg, pow, solver).Ok?
    ensures var b := FitTransform(cfg, n, search, expNeg, pow, solver).value;
      && (forall i :: 0 <= i < n && Sum(b.kernel[i]) != 0.0 ==> Sum(b.operator[i]) == 1.0)
      && (forall i :: 0 <= i < n && Sum(b.kernel[i]) == 0.0 ==> IsZero(b.operator[i]))
  {
    var b := FitTransform(cfg, n, search, expNeg, pow, solver).value;
    assert Symmetric(b.kernel) && |b.kernel| == n;
    assert b.operator == MarkovOperator(b.kernel);
    BundleIsStochastic(b, n);
  }

  lemma BundleIsStochastic(b: Bundle, n: nat)
    requires IsSquare(b.kernel) && |b.kernel| == n && b.operator == MarkovOperator(b.kernel)
    ensures forall i :: 0 <= i < n && Sum(b.kernel[i]) != 0.0 ==> Sum(b.operator[i]) == 1.0
    ensures forall i :: 0 <= i < n && Sum(b.kernel[i]) == 0.0 ==> IsZero(b.operator[i])
  {
    MarkovRowStochastic(b.kernel);
  }

  /** The returned eigenvalues are the solver's, rearranged into
      non-increasing order by one permutation that also carries every
      eigenvector column along with its eigenvalue. */
  lemma FitTransformKeepsEigenpairs(cfg: Diffusor, n: nat, search: seq<seq<Neighbor>>,
                                    expNeg: real -> real, pow: real -> real,
                                    solver: (Matrix, nat) -> Eigenpairs)
    requires SearchAnswers(search, n, cfg.nNeighbors + 1)
    requires forall x :: 0.0 <= expNeg(x)
    requires SolverShape(solver)
    requires FitTransform(cfg, n, search, expNeg, pow, solver).Ok?
    ensures var b := FitTransform(cfg, n, search, expNeg, pow, solver).value;
      var solved := solver(b.operator, cfg.nComponents);
      var inds := ArgsortDescending(solved.values);
      && multiset(b.values) == multiset(solved.values)
      && IsPermutation(inds, cfg.nComponents)
      && forall k :: 0 <= k < cfg.nComponents ==>
           b.values[k] == solved.values[inds[k]] && Column(b.vectors, k) == Column(solved.vectors, inds[k])
  {
    var b := FitTransform(cfg, n, search, expNeg, pow, solver).value;
    var solved := solver(b.operator, cfg.nComponents);
    SortIsRearrangement(solved.values, solved.vectors);
    SortKeepsPairs(solved.values, solved.vectors);
  }
}
