/** The `multiscale` estimator: how many diffusion components to keep
    (`n_eigs`, given explicitly, taken from a knee detector in `fit`, or
    chosen by the eigengap fallback in `transform`), and the rescaling of
    eigenvector columns 1 .. n_eigs - 1 by lambda / (1 - lambda). The knee
    detector is an external library; `fit` receives its answer. */
module Multiscale {
  import opened Results
  import opened Linear
  import opened Eigen

  /** The estimator's attributes; `nEigs` is None until chosen. */
  datatype Multiscale = Multiscale(nEigs: Option<int>, sensitivity: real, plot: bool)

  /** Python's `round` on a float: the nearest integer, ties to even. */
  function RoundHalfEven(x: real): (r: int)
    ensures (r as real) - 0.5 <= x <= (r as real) + 0.5
    ensures x - (x.Floor as real) == 0.5 ==> r % 2 == 0
    ensures x - (x.Floor as real) != 0.5 ==> (r as real) - 0.5 < x < (r as real) + 0.5
  {
    var f := x.Floor;
    var frac := x - (f as real);
    if frac < 0.5 then f
    else if frac > 0.5 then f + 1
    else if f % 2 == 0 then f
    else f + 1
  }

  /** Off ties, at most one integer lies within 1/2 of x. */
  lemma RoundIsNearest(x: real, n: int)
    requires (n as real) - 0.5 < x < (n as real) + 0.5
    ensures RoundHalfEven(x) == n
  {
  }

  /** `fit`: an explicit `n_eigs` is kept as it is (the knee is only
      plotted); otherwise `n_eigs` becomes the rounded knee, and a detector
      that finds no knee makes `round(None)` raise. */
  function Fit(ms: Multiscale, knee: Option<real>): (r: Result<Multiscale>)
    ensures ms.nEigs.Some? ==> r == Ok(ms)
    ensures ms.nEigs.None? ==> (r.Ok? <==> knee.Some?)
    ensures r.Err? ==> r.error == NoKnee
    ensures r.Ok? ==> r.value.sensitivity == ms.sensitivity && r.value.plot == ms.plot && r.value.nEigs.Some?
    ensures ms.nEigs.None? && knee.Some? ==>
      r.Ok? && r.value.nEigs.value as real - 0.5 <= knee.value <= r.value.nEigs.value as real + 0.5
  {
    if ms.nEigs.Some? then Ok(ms)
    else match knee
      case None => Err(NoKnee)
      case Some(x) => Ok(ms.(nEigs := Some(RoundHalfEven(x))))
  }

  /** `vals[:-1] - vals[1:]`: the drop from each eigenvalue to the next. */
  function Drops(vals: seq<real>): (d: seq<real>)
    ensures |d| == if |vals| == 0 then 0 else |vals| - 1
    ensures forall i :: 0 <= i < |d| ==> d[i] + vals[i + 1] == vals[i]
  {
    if |vals| == 0 then [] else seq(|vals| - 1, i requires 0 <= i < |vals| - 1 => vals[i] - vals[i + 1])
  }

  /** `np.argsort(drops)[-1] + 1`. */
  function FirstGap(vals: seq<real>): (n: int)
    requires 2 <= |vals|
    ensures 1 <= n <= |vals| - 1
  {
    ArgsortDescending(Drops(vals))[0] + 1
  }

  /** The eigengap fallback: 1 + the position of the largest drop, or, when
      that is below 3, 2 + the position of the second-largest drop. Indexing
      the argsort at -1 needs one drop and at -2 two. */
  function Eigengap(vals: seq<real>): (r: Result<int>)
    ensures r.Ok? <==> 3 <= |vals|
    ensures r.Err? ==> r.error == GapIndex
    ensures r.Ok? ==> 2 <= r.value <= |vals|
  {
    if |vals| < 2 then Err(GapIndex)
    else
      var n := FirstGap(vals);
      if n >= 3 then Ok(n)
      else if |vals| < 3 then Err(GapIndex)
      else Ok(ArgsortDescending(Drops(vals))[1] + 2)
  }

  /** The eigengap's first choice is 1 + the position of the largest drop:
      that drop is at least every other drop and exceeds every later one. */
  lemma FirstGapIsLargestDrop(vals: seq<real>)
    requires 2 <= |vals|
    ensures var d := Drops(vals); var top := FirstGap(vals) - 1;
      forall i :: 0 <= i < |d| && i != top ==> Before(d, top, i)
  {
    var d := Drops(vals);
    var inds := ArgsortDescending(d);
    ArgsortIsPermutation(d);
    forall i | 0 <= i < |d| && i != inds[0]
      ensures Before(d, inds[0], i)
    {
      assert i in inds;
      var k :| 0 <= k < |inds| && inds[k] == i;
      assert 0 < k;
    }
  }

  /** When the first choice is below 3 the largest drop sits at position 0
      or 1, and the result is 2 + the position of the largest of the other
      drops; otherwise the first choice stands. */
  lemma EigengapFallsBackToSecondDrop(vals: seq<real>)
    requires 3 <= |vals|
    ensures var d := Drops(vals); var top := FirstGap(vals) - 1;
      var second := ArgsortDescending(d)[1];
      && (top >= 2 ==> Eigengap(vals) == Ok(top + 1))
      && (top < 2 ==> Eigengap(vals) == Ok(second + 2))
      && second != top
      && forall i :: 0 <= i < |d| && i != top && i != second ==> Before(d, second, i)
  {
    var d := Drops(vals);
    var inds := ArgsortDescending(d);
    ArgsortIsPermutation(d);
    forall i | 0 <= i < |d| && i != inds[0] && i != inds[1]
      ensures Before(d, inds[1], i)
    {
      assert i in inds;
      var k :| 0 <= k < |inds| && inds[k] == i;
      assert 1 < k;
    }
  }

  /** The factor lambda / (1 - lambda) of one retained component. */
  function Factor(lambda: real): real
    requires lambda != 1.0
  {
    lambda / (1.0 - lambda)
  }

  /** Whether one of the eigenvalues used, 1 .. n - 1, equals 1. */
  predicate HasUnitEigenvalue(vals: seq<real>, n: int)
    requires n <= |vals|
  {
    exists j :: 1 <= j < n && vals[j] == 1.0
  }

  /** `vecs[:, 1:n] * (lam / (1 - lam))` with `lam = vals[1:n]`: for n <= 1
      the column list `range(1, n)` is empty; a column past the last
      eigenpair raises; a unit eigenvalue has no finite factor. */
  function Rescale(vals: seq<real>, vecs: Matrix, n: int): (r: Result<Matrix>)
    requires IsMatrix(vecs, |vecs|, |vals|)
    ensures r.Ok? <==> n <= 1 || (n <= |vals| && !HasUnitEigenvalue(vals, n))
    ensures r.Err? ==> r.error == (if n > |vals| then MissingEigenpair else NonFiniteScale)
    ensures r.Ok? ==> IsMatrix(r.value, |vecs|, if n <= 1 then 0 else n - 1)
  {
    if n <= 1 then Ok(seq(|vecs|, row => []))
    else if n > |vals| then Err(MissingEigenpair)
    else if HasUnitEigenvalue(vals, n) then Err(NonFiniteScale)
    else
      Ok(seq(|vecs|, row requires 0 <= row < |vecs| =>
        seq(n - 1, j requires 0 <= j < n - 1 => vecs[row][j + 1] * Factor(vals[j + 1]))))
  }

  /** Output column j is eigenvector column j + 1 stretched by its factor:
      multiplying back by 1 - lambda gives lambda times the original entry,
      so every column with lambda != 0 can be recovered from the output. */
  lemma RescaleRecovers(vals: seq<real>, vecs: Matrix, n: int)
    requires IsMatrix(vecs, |vecs|, |vals|)
    requires Rescale(vals, vecs, n).Ok?
    ensures forall row, j :: 0 <= row < |vecs| && 0 <= j < n - 1 ==>
      Rescale(vals, vecs, n).value[row][j] * (1.0 - vals[j + 1]) == vecs[row][j + 1] * vals[j + 1]
  {
    var m := Rescale(vals, vecs, n).value;
    forall row, j | 0 <= row < |vecs| && 0 <= j < n - 1
      ensures m[row][j] * (1.0 - vals[j + 1]) == vecs[row][j + 1] * vals[j + 1]
    {
      var lambda := vals[j + 1];
      assert m[row][j] == vecs[row][j + 1] * Factor(lambda);
      FactorCancels(vecs[row][j + 1], lambda);
    }
  }

  lemma FactorCancels(v: real, lambda: real)
    requires lambda != 1.0
    ensures v * Factor(lambda) * (1.0 - lambda) == v * lambda
  {
    var q := lambda / (1.0 - lambda);
    assert q * (1.0 - lambda) == lambda;
    assert v * q * (1.0 - lambda) == v * (q * (1.0 - lambda));
  }

  /** Column 0 (the stationary component) and every column from n on are
      dropped: inputs that agree on the eigenpairs 1 .. n - 1 give the same
      output. */
  lemma RescaleUsesOnlyRetainedPairs(vals: seq<real>, vecs: Matrix, vals': seq<real>, vecs': Matrix, n: int)
    requires IsMatrix(vecs, |vecs|, |vals|) && IsMatrix(vecs', |vecs'|, |vals'|)
    requires |vecs| == |vecs'| && |vals| == |vals'|
    requires forall j :: 1 <= j < n && j < |vals| ==> vals[j] == vals'[j]
    requires forall row, j :: 0 <= row < |vecs| && 1 <= j < n && j < |vals| ==> vecs[row][j] == vecs'[row][j]
    ensures Rescale(vals, vecs, n) == Rescale(vals', vecs', n)
  {
    if 1 < n <= |vals| {
      assert HasUnitEigenvalue(vals, n) <==> HasUnitEigenvalue(vals', n);
      if !HasUnitEigenvalue(vals, n) {
        var m := Rescale(vals, vecs, n).value;
        var m' := Rescale(vals', vecs', n).value;
        forall row | 0 <= row < |vecs|
          ensures m[row] == m'[row]
        {
          forall j | 0 <= j < n - 1
            ensures m[row][j] == m'[row][j]
          {
            assert m[row][j] == vecs[row][j + 1] * Factor(vals[j + 1]);
            assert m'[row][j] == vecs'[row][j + 1] * Factor(vals'[j + 1]);
          }
        }
        assert m == m';
      }
    }
  }

  /** `transform`: with `n_eigs` unset, the eigengap fallback stores its first
      choice before the second argsort can raise, and stores the final choice
      after; then the retained columns are rescaled. */
  function Transform(ms: Multiscale, vals: seq<real>, vecs: Matrix): (out: (Multiscale, Result<Matrix>))
    requires IsMatrix(vecs, |vecs|, |vals|)
    ensures out.0.sensitivity == ms.sensitivity && out.0.plot == ms.plot
    ensures ms.nEigs.Some? ==> out == (ms, Rescale(vals, vecs, ms.nEigs.value))
    ensures ms.nEigs.None? && |vals| < 2 ==> out == (ms, Err(GapIndex))
    ensures ms.nEigs.None? && 2 <= |vals| < 3 ==> out == (ms.(nEigs := Some(FirstGap(vals))), Err(GapIndex))
    ensures ms.nEigs.None? && 3 <= |vals| ==>
      out == (ms.(nEigs := Some(Eigengap(vals).value)), Rescale(vals, vecs, Eigengap(vals).value))
  {
    match ms.nEigs
    case Some(n) => (ms, Rescale(vals, vecs, n))
    case None =>
      if |vals| < 2 then (ms, Err(GapIndex))
      else
        var first := ms.(nEigs := Some(FirstGap(vals)));
        match Eigengap(vals)
        case Err(e) => (first, Err(e))
        case Ok(n) => (ms.(nEigs := Some(n)), Rescale(vals, vecs, n))
  }

  /** An explicit `n_eigs` is never overwritten, by `fit` or by `transform`. */
  lemma ExplicitNEigsKept(ms: Multiscale, knee: Option<real>, vals: seq<real>, vecs: Matrix)
    requires ms.nEigs.Some? && IsMatrix(vecs, |vecs|, |vals|)
    ensures Fit(ms, knee).Ok? && Fit(ms, knee).value.nEigs == ms.nEigs
    ensures Transform(ms, vals, vecs).0.nEigs == ms.nEigs
  {
  }

  /** A successful `transform` records the `n_eigs` it used, so a second call
      on the same eigenpairs repeats the first. */
  lemma TransformRepeats(ms: Multiscale, vals: seq<real>, vecs: Matrix)
    requires IsMatrix(vecs, |vecs|, |vals|)
    requires Transform(ms, vals, vecs).1.Ok?
    ensures var out := Transform(ms, vals, vecs);
      out.0.nEigs.Some? && Transform(out.0, vals, vecs) == out
  {
  }
}
