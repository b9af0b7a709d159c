/** Kernel and operator algebra of `Diffusor.fit_transform`: the adaptive
    weights W, the symmetrised kernel W + W^T, the optional two-sided degree
    scaling diag(D^-alpha) K diag(D^-alpha), and the Markov operator
    T = diag(1/d) K. `expNeg` stands for x |-> exp(-x) and `pow` for
    x |-> x ** (-alpha); both are taken as given functions. */
module Kernel {
  import opened Linear
  import opened NeighborGraph

  /** The sum of the distances stored in positions lo..hi of `g` at column j:
      what `find` reports for (row, j) after summing duplicate entries. */
  function StoredAt(g: Csr, lo: nat, hi: nat, j: nat): real
    requires lo <= hi <= |g.data| && hi <= |g.indices|
    decreases hi - lo
  {
    if lo == hi then 0.0 else (if g.indices[lo] == j then g.data[lo] else 0.0) + StoredAt(g, lo + 1, hi, j)
  }

  /** A nonzero sum needs a nonzero stored entry at that column. */
  lemma {:induction false} StoredAtSupport(g: Csr, lo: nat, hi: nat, j: nat)
    requires lo <= hi <= |g.data| && hi <= |g.indices|
    requires StoredAt(g, lo, hi, j) != 0.0
    ensures exists p :: lo <= p < hi && g.indices[p] == j && g.data[p] != 0.0
    decreases hi - lo
  {
    if !(g.indices[lo] == j && g.data[lo] != 0.0) {
      StoredAtSupport(g, lo + 1, hi, j);
    }
  }

  lemma {:induction false} StoredAtNonNegative(g: Csr, lo: nat, hi: nat, j: nat)
    requires lo <= hi <= |g.data| && hi <= |g.indices|
    requires forall p :: lo <= p < hi ==> 0.0 <= g.data[p]
    ensures 0.0 <= StoredAt(g, lo, hi, j)
    decreases hi - lo
  {
    if lo < hi {
      StoredAtNonNegative(g, lo + 1, hi, j);
    }
  }

  /** With non-negative distances, one nonzero stored entry at column j makes
      the sum positive. */
  lemma {:induction false} StoredAtPositive(g: Csr, lo: nat, hi: nat, j: nat, p: nat)
    requires lo <= p < hi <= |g.data| && hi <= |g.indices|
    requires forall q :: lo <= q < hi ==> 0.0 <= g.data[q]
    requires g.indices[p] == j && g.data[p] != 0.0
    ensures 0.0 < StoredAt(g, lo, hi, j)
    decreases hi - lo
  {
    StoredAtNonNegative(g, lo + 1, hi, j);
    if lo < p {
      StoredAtPositive(g, lo + 1, hi, j, p);
    }
  }

  /** Row i of `g` stores a nonzero distance at column j: an edge that `find`
      reports. */
  predicate Edge(g: Csr, i: nat, j: nat)
    requires WellFormed(g) && i < g.nRows
  {
    exists p :: g.indptr[i] <= p < g.indptr[i + 1] && g.indices[p] == j && g.data[p] != 0.0
  }

  /** The (duplicate-summed) distance from sample i to sample j in `g`. */
  function PairDistance(g: Csr, i: nat, j: nat): real
    requires WellFormed(g) && i < g.nRows
  {
    StoredAt(g, g.indptr[i], g.indptr[i + 1], j)
  }

  /** The weight of one edge of distance d > 0 from a sample of bandwidth sigma:
      exp(-d / sigma). A zero bandwidth makes d / sigma infinite, and
      exp(-inf) is 0. */
  function Weight(d: real, sigma: real, expNeg: real -> real): real {
    if sigma == 0.0 then 0.0 else expNeg(d / sigma)
  }

  /** W: the weights of the nonzero stored distances, normalised by the
      bandwidth of the row they sit in. Zero distances are dropped by `find`
      and never become edges. */
  function AdaptiveWeights(g: Csr, sigma: seq<real>, expNeg: real -> real): (w: Matrix)
    requires WellFormed(g) && g.nCols == g.nRows && |sigma| == g.nRows
    requires forall p :: 0 <= p < |g.data| ==> 0.0 <= g.data[p]
    requires forall x :: 0.0 <= expNeg(x)
    ensures IsSquare(w) && |w| == g.nRows
    ensures NonNegative(w)
    ensures forall i, j :: 0 <= i < g.nRows && 0 <= j < g.nRows && w[i][j] != 0.0 ==> Edge(g, i, j)
    ensures forall i, j :: 0 <= i < g.nRows && 0 <= j < g.nRows && sigma[i] == 0.0 ==> w[i][j] == 0.0
    ensures forall i, j :: 0 <= i < g.nRows && 0 <= j < g.nRows && Edge(g, i, j) && sigma[i] != 0.0 ==>
      w[i][j] == expNeg(PairDistance(g, i, j) / sigma[i])
  {
    var n := g.nRows;
    var w := seq(n, i requires 0 <= i < n => seq(n, j requires 0 <= j < n =>
      var d := PairDistance(g, i, j); if d == 0.0 then 0.0 else Weight(d, sigma[i], expNeg)));
    assert forall i, j :: 0 <= i < n && 0 <= j < n ==> (PairDistance(g, i, j) != 0.0 <==> Edge(g, i, j)) by {
      forall i, j | 0 <= i < n && 0 <= j < n
        ensures PairDistance(g, i, j) != 0.0 <==> Edge(g, i, j)
      {
        PairDistanceIsEdge(g, i, j);
      }
    }
    w
  }

  /** With non-negative distances, the distance `find` reports from i to j is
      nonzero exactly when row i stores a nonzero distance at column j. */
  lemma PairDistanceIsEdge(g: Csr, i: nat, j: nat)
    requires WellFormed(g) && i < g.nRows
    requires forall p :: 0 <= p < |g.data| ==> 0.0 <= g.data[p]
    ensures PairDistance(g, i, j) != 0.0 <==> Edge(g, i, j)
  {
    var lo, hi := g.indptr[i], g.indptr[i + 1];
    assert lo <= hi <= g.indptr[g.nRows];
    if PairDistance(g, i, j) != 0.0 {
      StoredAtSupport(g, lo, hi, j);
    }
    if Edge(g, i, j) {
      var p :| lo <= p < hi && g.indices[p] == j && g.data[p] != 0.0;
      StoredAtPositive(g, lo, hi, j, p);
    }
  }

  /** `kernel = W + W.T`. */
  function Symmetrize(w: Matrix): (k: Matrix)
    requires IsSquare(w)
    ensures IsSquare(k) && |k| == |w|
    ensures forall i, j :: 0 <= i < |w| && 0 <= j < |w| ==> k[i][j] == w[i][j] + w[j][i]
    ensures Symmetric(k)
    ensures NonNegative(w) ==> NonNegative(k)
  {
    Add(w, Transpose(w))
  }

  /** `D[D != 0] = D[D != 0] ** (-alpha)`: zero degrees stay zero. */
  function ScaledDegrees(d: Vector, pow: real -> real): (s: Vector)
    ensures |s| == |d|
    ensures forall i :: 0 <= i < |d| ==> (d[i] == 0.0 ==> s[i] == 0.0) && (d[i] != 0.0 ==> s[i] == pow(d[i]))
  {
    seq(|d|, i requires 0 <= i < |d| => if d[i] == 0.0 then 0.0 else pow(d[i]))
  }

  /** The anisotropic correction: for alpha > 0 the kernel scaled on both
      sides by the scaled degrees, `mat.dot(kernel).dot(mat)` with `mat` their
      diagonal matrix; otherwise the kernel itself. */
  function Anisotropic(k: Matrix, alpha: real, pow: real -> real): (r: Matrix)
    requires IsSquare(k)
    ensures IsSquare(r) && |r| == |k|
    ensures alpha <= 0.0 ==> r == k
    ensures alpha > 0.0 ==> forall i, j :: 0 <= i < |k| && 0 <= j < |k| ==>
      r[i][j] == MatMul(MatMul(Diag(ScaledDegrees(RowSums(k), pow)), k, |k|), Diag(ScaledDegrees(RowSums(k), pow)), |k|)[i][j]
  {
    if alpha > 0.0 then
      var s := ScaledDegrees(RowSums(k), pow);
      TwoSidedIsProduct(s, k);
      TwoSided(s, k)
    else
      k
  }

  /** The scaling creates no new entries. */
  lemma AnisotropicSupport(k: Matrix, alpha: real, pow: real -> real)
    requires IsSquare(k)
    ensures forall i, j :: 0 <= i < |k| && 0 <= j < |k| && Anisotropic(k, alpha, pow)[i][j] != 0.0 ==> k[i][j] != 0.0
  {
    if alpha > 0.0 {
      var s := ScaledDegrees(RowSums(k), pow);
      assert Anisotropic(k, alpha, pow) == TwoSided(s, k);
      TwoSidedSupport(s, k);
    }
  }

  /** The two-sided scaling keeps a symmetric kernel symmetric. */
  lemma AnisotropicSymmetric(k: Matrix, alpha: real, pow: real -> real)
    requires Symmetric(k)
    ensures Symmetric(Anisotropic(k, alpha, pow))
  {
    if alpha > 0.0 {
      TwoSidedSymmetric(ScaledDegrees(RowSums(k), pow), k);
    }
  }

  /** Non-negative degrees stay non-negative under a power that is
      non-negative on positive arguments. */
  lemma ScaledDegreesNonNegative(k: Matrix, pow: real -> real)
    requires IsSquare(k) && NonNegative(k)
    requires forall x :: 0.0 < x ==> 0.0 <= pow(x)
    ensures forall i :: 0 <= i < |k| ==> 0.0 <= ScaledDegrees(RowSums(k), pow)[i]
  {
    forall i | 0 <= i < |k|
      ensures 0.0 <= Sum(k[i])
    {
      SumOfNonNegative(k[i]);
    }
  }

  /** The scaling keeps a non-negative kernel non-negative when the power is
      non-negative on positive degrees. */
  lemma AnisotropicNonNegative(k: Matrix, alpha: real, pow: real -> real)
    requires IsSquare(k) && NonNegative(k)
    requires forall x :: 0.0 < x ==> 0.0 <= pow(x)
    ensures NonNegative(Anisotropic(k, alpha, pow))
  {
    if alpha > 0.0 {
      ScaledDegreesNonNegative(k, pow);
      TwoSidedNonNegative(ScaledDegrees(RowSums(k), pow), k);
    }
  }

  /** For a symmetric non-negative kernel and a power positive on positive
      degrees, the scaling isolates exactly the points the kernel isolates:
      row i of the scaled kernel sums to zero iff row i of the kernel does. */
  lemma AnisotropicKeepsIsolatedPoints(k: Matrix, alpha: real, pow: real -> real)
    requires Symmetric(k) && NonNegative(k)
    requires forall x :: 0.0 < x ==> 0.0 < pow(x)
    ensures forall i :: 0 <= i < |k| ==> (Sum(Anisotropic(k, alpha, pow)[i]) == 0.0 <==> Sum(k[i]) == 0.0)
  {
    if alpha > 0.0 {
      var s := ScaledDegrees(RowSums(k), pow);
      AnisotropicNonNegative(k, alpha, pow);
      forall i | 0 <= i < |k|
        ensures Sum(TwoSided(s, k)[i]) == 0.0 <==> Sum(k[i]) == 0.0
      {
        ScaledRowVanishesWithDegree(k, s, pow, i);
      }
    }
  }

  lemma ScaledRowVanishesWithDegree(k: Matrix, s: Vector, pow: real -> real, i: nat)
    requires Symmetric(k) && NonNegative(k) && i < |k|
    requires forall x :: 0.0 < x ==> 0.0 < pow(x)
    requires s == ScaledDegrees(RowSums(k), pow)
    requires NonNegative(TwoSided(s, k))
    ensures Sum(TwoSided(s, k)[i]) == 0.0 <==> Sum(k[i]) == 0.0
  {
    var r := TwoSided(s, k);
    ZeroSumOfNonNegative(r[i]);
    if Sum(k[i]) == 0.0 {
      TwoSidedZeroRow(s, k, i);
    } else {
      ZeroSumOfNonNegative(k[i]);
      var j :| 0 <= j < |k| && k[i][j] != 0.0;
      SumOfPositive(k[i], j);
      SumOfPositive(k[j], i);
      TwoSidedPositive(s, k, i, j);
    }
  }

  /** `D[D != 0] = 1 / D[D != 0]`. */
  function Reciprocals(d: Vector): (r: Vector)
    ensures |r| == |d|
    ensures forall i :: 0 <= i < |d| ==> (d[i] == 0.0 ==> r[i] == 0.0) && (d[i] != 0.0 ==> r[i] * d[i] == 1.0)
  {
    seq(|d|, i requires 0 <= i < |d| => if d[i] == 0.0 then 0.0 else 1.0 / d[i])
  }

  /** The diffusion operator `T = diag(D).dot(kernel)` with D the reciprocal
      degrees (see `MarkovIsDiagonalProduct`). */
  function MarkovOperator(k: Matrix): (t: Matrix)
    requires IsSquare(k)
    ensures |t| == |k|
    ensures forall i :: 0 <= i < |k| ==> t[i] == Scale(Reciprocals(RowSums(k))[i], k[i])
  {
    RowScale(Reciprocals(RowSums(k)), k)
  }

  lemma MarkovIsDiagonalProduct(k: Matrix)
    requires IsSquare(k)
    ensures forall i, j :: 0 <= i < |k| && 0 <= j < |k| ==>
      MarkovOperator(k)[i][j] == MatMul(Diag(Reciprocals(RowSums(k))), k, |k|)[i][j]
  {
    MulDiagLeft(Reciprocals(RowSums(k)), k, |k|);
  }

  /** The operator is row-stochastic: every row of nonzero degree sums to 1,
      and scaled back by its degree gives the kernel row; every row of zero
      degree is all zero. */
  lemma MarkovRowStochastic(k: Matrix)
    requires IsSquare(k)
    ensures IsSquare(MarkovOperator(k))
    ensures forall i :: 0 <= i < |k| && Sum(k[i]) != 0.0 ==> Sum(MarkovOperator(k)[i]) == 1.0
    ensures forall i :: 0 <= i < |k| && Sum(k[i]) == 0.0 ==> IsZero(MarkovOperator(k)[i])
    ensures forall i, j :: 0 <= i < |k| && 0 <= j < |k| && Sum(k[i]) != 0.0 ==>
      MarkovOperator(k)[i][j] * Sum(k[i]) == k[i][j]
  {
    var inv := Reciprocals(RowSums(k));
    var t := MarkovOperator(k);
    forall i | 0 <= i < |k|
      ensures |t[i]| == |k|
      ensures Sum(k[i]) != 0.0 ==> Sum(t[i]) == 1.0
      ensures Sum(k[i]) == 0.0 ==> IsZero(t[i])
      ensures Sum(k[i]) != 0.0 ==> forall j :: 0 <= j < |k| ==> t[i][j] * Sum(k[i]) == k[i][j]
    {
      MarkovRow(inv[i], k[i]);
    }
  }

  /** One row: scaling by the reciprocal of its sum (0 for a zero sum). */
  lemma MarkovRow(a: real, row: Vector)
    requires (Sum(row) == 0.0 ==> a == 0.0) && (Sum(row) != 0.0 ==> a * Sum(row) == 1.0)
    ensures Sum(row) != 0.0 ==> Sum(Scale(a, row)) == 1.0
    ensures Sum(row) == 0.0 ==> IsZero(Scale(a, row))
    ensures Sum(row) != 0.0 ==> forall j :: 0 <= j < |row| ==> Scale(a, row)[j] * Sum(row) == row[j]
  {
    var d := Sum(row);
    if d != 0.0 {
      SumOfScale(a, row);
      ScaleByReciprocal(a, row, d);
    } else {
      ScaleByZero(a, row);
    }
  }

  lemma ScaleByReciprocal(a: real, row: Vector, d: real)
    requires a * d == 1.0
    ensures forall j :: 0 <= j < |row| ==> Scale(a, row)[j] * d == row[j]
  {
    forall j | 0 <= j < |row|
      ensures Scale(a, row)[j] * d == row[j]
    {
      CancelReciprocal(a, row[j], d);
    }
  }

  lemma ScaleByZero(a: real, row: Vector)
    requires a == 0.0
    ensures IsZero(Scale(a, row))
  {
  }
}
