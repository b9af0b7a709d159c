/** Dense real vectors and matrices: the exact-arithmetic stand-in for the
    sparse matrices of the pipeline. An absent sparse entry is a 0.0 entry. */
module Linear {

  type Vector = seq<real>
  type Matrix = seq<seq<real>>

  /** `m` has `rows` rows of `cols` entries each. */
  predicate IsMatrix(m: Matrix, rows: nat, cols: nat) {
    |m| == rows && forall i :: 0 <= i < rows ==> |m[i]| == cols
  }

  predicate IsSquare(m: Matrix) {
    IsMatrix(m, |m|, |m|)
  }

  predicate Symmetric(m: Matrix) {
    IsSquare(m) && forall i, j :: 0 <= i < |m| && 0 <= j < |m| ==> m[i][j] == m[j][i]
  }

  predicate NonNegative(m: Matrix) {
    forall i, j :: 0 <= i < |m| && 0 <= j < |m[i]| ==> 0.0 <= m[i][j]
  }

  predicate IsZero(v: Vector) {
    forall j :: 0 <= j < |v| ==> v[j] == 0.0
  }

  function Sum(v: Vector): real {
    if |v| == 0 then 0.0 else v[0] + Sum(v[1..])
  }

  /** `c * v`, entry by entry. */
  function Scale(c: real, v: Vector): (r: Vector)
    ensures |r| == |v|
    ensures forall j :: 0 <= j < |v| ==> r[j] == c * v[j]
  {
    seq(|v|, j requires 0 <= j < |v| => c * v[j])
  }

  /** The row sums, `m.sum(axis=1)`. */
  function RowSums(m: Matrix): (d: Vector)
    ensures |d| == |m|
    ensures forall i :: 0 <= i < |m| ==> d[i] == Sum(m[i])
  {
    seq(|m|, i requires 0 <= i < |m| => Sum(m[i]))
  }

  function Transpose(m: Matrix): (t: Matrix)
    requires IsSquare(m)
    ensures IsSquare(t) && |t| == |m|
    ensures forall i, j :: 0 <= i < |m| && 0 <= j < |m| ==> t[i][j] == m[j][i]
  {
    seq(|m|, i requires 0 <= i < |m| => seq(|m|, j requires 0 <= j < |m| => m[j][i]))
  }

  function Add(a: Matrix, b: Matrix): (s: Matrix)
    requires IsSquare(a) && IsSquare(b) && |a| == |b|
    ensures IsSquare(s) && |s| == |a|
    ensures forall i, j :: 0 <= i < |a| && 0 <= j < |a| ==> s[i][j] == a[i][j] + b[i][j]
  {
    seq(|a|, i requires 0 <= i < |a| => seq(|a|, j requires 0 <= j < |a| => a[i][j] + b[i][j]))
  }

  /** The diagonal matrix with `d` on its diagonal. */
  function Diag(d: Vector): (m: Matrix)
    ensures IsSquare(m) && |m| == |d|
    ensures forall i, j :: 0 <= i < |d| && 0 <= j < |d| ==> m[i][j] == if i == j then d[i] else 0.0
  {
    seq(|d|, i requires 0 <= i < |d| => seq(|d|, j requires 0 <= j < |d| => if i == j then d[i] else 0.0))
  }

  /** The terms `u[l] * b[l][j]` of one entry of a matrix product. */
  function Products(u: Vector, b: Matrix, j: nat): (v: Vector)
    requires |u| == |b|
    requires forall l :: 0 <= l < |b| ==> j < |b[l]|
    ensures |v| == |u|
    ensures forall l :: 0 <= l < |u| ==> v[l] == u[l] * b[l][j]
  {
    seq(|u|, l requires 0 <= l < |u| => u[l] * b[l][j])
  }

  /** The matrix product `a.dot(b)` of an n-by-|b| and a |b|-by-cols matrix. */
  function MatMul(a: Matrix, b: Matrix, cols: nat): (p: Matrix)
    requires IsMatrix(a, |a|, |b|) && IsMatrix(b, |b|, cols)
    ensures IsMatrix(p, |a|, cols)
    ensures forall i, j :: 0 <= i < |a| && 0 <= j < cols ==> p[i][j] == Sum(Products(a[i], b, j))
  {
    seq(|a|, i requires 0 <= i < |a| =>
      seq(cols, j requires 0 <= j < cols => Sum(Products(a[i], b, j))))
  }

  /** `diag(d) . m`, written as the row scaling it is. */
  function RowScale(d: Vector, m: Matrix): (r: Matrix)
    requires |m| == |d|
    ensures |r| == |m|
    ensures forall i :: 0 <= i < |m| ==> r[i] == Scale(d[i], m[i])
  {
    seq(|m|, i requires 0 <= i < |m| => Scale(d[i], m[i]))
  }

  /** `m . diag(d)`, written as the column scaling it is. */
  function ColScale(m: Matrix, d: Vector): (r: Matrix)
    requires IsMatrix(m, |m|, |d|)
    ensures IsMatrix(r, |m|, |d|)
    ensures forall i, j :: 0 <= i < |m| && 0 <= j < |d| ==> r[i][j] == m[i][j] * d[j]
  {
    seq(|m|, i requires 0 <= i < |m| => seq(|d|, j requires 0 <= j < |d| => m[i][j] * d[j]))
  }

  /** `diag(d) . m . diag(d)`: m scaled on both sides by d. */
  function TwoSided(d: Vector, m: Matrix): (r: Matrix)
    requires IsSquare(m) && |d| == |m|
    ensures IsSquare(r) && |r| == |m|
  {
    ColScale(RowScale(d, m), d)
  }

  /** Entry (i, j) of `diag(d) . m . diag(d)` is d_i * m_ij * d_j. */
  lemma TwoSidedEntry(d: Vector, m: Matrix, i: nat, j: nat)
    requires IsSquare(m) && |d| == |m| && i < |m| && j < |m|
    ensures TwoSided(d, m)[i][j] == d[i] * m[i][j] * d[j]
  {
    var r := RowScale(d, m);
    assert r[i] == Scale(d[i], m[i]);
    assert r[i][j] == d[i] * m[i][j];
  }

  /** A zero entry stays zero under the scaling. */
  lemma TwoSidedSupport(d: Vector, m: Matrix)
    requires IsSquare(m) && |d| == |m|
    ensures forall i, j :: 0 <= i < |m| && 0 <= j < |m| && TwoSided(d, m)[i][j] != 0.0 ==> m[i][j] != 0.0
  {
    forall i, j | 0 <= i < |m| && 0 <= j < |m| && m[i][j] == 0.0
      ensures TwoSided(d, m)[i][j] == 0.0
    {
      TwoSidedEntry(d, m, i, j);
    }
  }

  lemma TwoSidedSymmetric(d: Vector, m: Matrix)
    requires Symmetric(m) && |d| == |m|
    ensures Symmetric(TwoSided(d, m))
  {
    var r := TwoSided(d, m);
    forall i, j | 0 <= i < |m| && 0 <= j < |m|
      ensures r[i][j] == r[j][i]
    {
      TwoSidedEntry(d, m, i, j);
      TwoSidedEntry(d, m, j, i);
      ProductsMirror(d[i], m[i][j], d[j]);
    }
  }

  lemma TwoSidedNonNegative(d: Vector, m: Matrix)
    requires IsSquare(m) && |d| == |m| && NonNegative(m)
    requires forall i :: 0 <= i < |d| ==> 0.0 <= d[i]
    ensures NonNegative(TwoSided(d, m))
  {
    var r := TwoSided(d, m);
    forall i, j | 0 <= i < |m| && 0 <= j < |m|
      ensures 0.0 <= r[i][j]
    {
      TwoSidedEntry(d, m, i, j);
      ProductsNonNegative(d[i], m[i][j], d[j]);
    }
  }

  /** A zero scale factor zeroes its row. */
  lemma TwoSidedZeroRow(d: Vector, m: Matrix, i: nat)
    requires IsSquare(m) && |d| == |m| && i < |m| && d[i] == 0.0
    ensures IsZero(TwoSided(d, m)[i])
  {
    var r := TwoSided(d, m);
    forall j | 0 <= j < |m|
      ensures r[i][j] == 0.0
    {
      TwoSidedEntry(d, m, i, j);
    }
  }

  /** Positive scale factors keep a positive entry positive. */
  lemma TwoSidedPositive(d: Vector, m: Matrix, i: nat, j: nat)
    requires IsSquare(m) && |d| == |m| && i < |m| && j < |m|
    requires 0.0 < d[i] && 0.0 < m[i][j] && 0.0 < d[j]
    ensures 0.0 < TwoSided(d, m)[i][j]
  {
    TwoSidedEntry(d, m, i, j);
    ProductsPositive(d[i], m[i][j], d[j]);
  }

  /** The scaling is the matrix product `diag(d) . m . diag(d)`. */
  lemma TwoSidedIsProduct(d: Vector, m: Matrix)
    requires IsSquare(m) && |d| == |m|
    ensures IsSquare(MatMul(Diag(d), m, |m|))
    ensures forall i, j :: 0 <= i < |m| && 0 <= j < |m| ==>
      TwoSided(d, m)[i][j] == MatMul(MatMul(Diag(d), m, |m|), Diag(d), |m|)[i][j]
  {
    forall i, j | 0 <= i < |m| && 0 <= j < |m|
      ensures TwoSided(d, m)[i][j] == MatMul(MatMul(Diag(d), m, |m|), Diag(d), |m|)[i][j]
    {
      TwoSidedIsProductAt(d, m, i, j);
    }
  }

  lemma TwoSidedIsProductAt(d: Vector, m: Matrix, i: nat, j: nat)
    requires IsSquare(m) && |d| == |m| && i < |m| && j < |m|
    ensures TwoSided(d, m)[i][j] == MatMul(MatMul(Diag(d), m, |m|), Diag(d), |m|)[i][j]
  {
    var left := MatMul(Diag(d), m, |m|);
    MulDiagLeftAt(d, m, |m|, i, j);
    assert left[i][j] == d[i] * m[i][j];
    MulDiagRightAt(left, d, i, j);
    assert MatMul(left, Diag(d), |m|)[i][j] == d[i] * m[i][j] * d[j];
    TwoSidedEntry(d, m, i, j);
  }

  lemma Distribute(a: real, b: real, c: real)
    ensures a * b + a * c == a * (b + c)
  {
  }

  lemma ProductsNonNegative(a: real, b: real, c: real)
    requires 0.0 <= a && 0.0 <= b && 0.0 <= c
    ensures 0.0 <= a * b * c
  {
    assert 0.0 <= a * b;
  }

  lemma ProductsPositive(a: real, b: real, c: real)
    requires 0.0 < a && 0.0 < b && 0.0 < c
    ensures 0.0 < a * b * c
  {
    assert 0.0 < a * b;
  }

  lemma ProductsMirror(a: real, b: real, c: real)
    ensures a * b * c == c * b * a
  {
  }

  lemma CancelReciprocal(a: real, x: real, d: real)
    requires a * d == 1.0
    ensures a * x * d == x
  {
    assert a * x * d == (a * d) * x;
  }

  lemma {:induction false} SumOfZero(v: Vector)
    requires IsZero(v)
    ensures Sum(v) == 0.0
  {
    if |v| > 0 {
      SumOfZero(v[1..]);
    }
  }

  /** A vector whose only possibly nonzero entry is at `k` sums to that entry. */
  lemma {:induction false} SumOfSingle(v: Vector, k: nat)
    requires k < |v|
    requires forall j :: 0 <= j < |v| && j != k ==> v[j] == 0.0
    ensures Sum(v) == v[k]
  {
    if k == 0 {
      SumOfZero(v[1..]);
    } else {
      SumOfSingle(v[1..], k - 1);
    }
  }

  lemma {:induction false} SumOfScale(c: real, v: Vector)
    ensures Sum(Scale(c, v)) == c * Sum(v)
  {
    if |v| > 0 {
      ScaleTail(c, v);
      SumOfScale(c, v[1..]);
      Distribute(c, v[0], Sum(v[1..]));
    }
  }

  lemma ScaleTail(c: real, v: Vector)
    requires |v| > 0
    ensures Scale(c, v)[1..] == Scale(c, v[1..])
  {
    var a := Scale(c, v)[1..];
    var b := Scale(c, v[1..]);
    forall j | 0 <= j < |a|
      ensures a[j] == b[j]
    {
      assert a[j] == Scale(c, v)[j + 1];
    }
  }

  lemma {:induction false} SumOfNonNegative(v: Vector)
    requires forall j :: 0 <= j < |v| ==> 0.0 <= v[j]
    ensures 0.0 <= Sum(v)
  {
    if |v| > 0 {
      SumOfNonNegative(v[1..]);
    }
  }

  /** A non-negative vector with one positive entry has a positive sum. */
  lemma {:induction false} SumOfPositive(v: Vector, k: nat)
    requires k < |v|
    requires forall j :: 0 <= j < |v| ==> 0.0 <= v[j]
    requires 0.0 < v[k]
    ensures 0.0 < Sum(v)
  {
    if k == 0 {
      SumOfNonNegative(v[1..]);
    } else {
      SumOfPositive(v[1..], k - 1);
    }
  }

  /** A non-negative vector sums to zero only when every entry is zero. */
  lemma ZeroSumOfNonNegative(v: Vector)
    requires forall j :: 0 <= j < |v| ==> 0.0 <= v[j]
    ensures Sum(v) == 0.0 <==> IsZero(v)
  {
    if Sum(v) == 0.0 && !IsZero(v) {
      var k :| 0 <= k < |v| && v[k] != 0.0;
      SumOfPositive(v, k);
    }
    if IsZero(v) {
      SumOfZero(v);
    }
  }

  /** `diag(d) . m` multiplies row i of `m` by `d[i]`. */
  lemma MulDiagLeft(d: Vector, m: Matrix, cols: nat)
    requires IsMatrix(m, |d|, cols)
    ensures IsMatrix(MatMul(Diag(d), m, cols), |d|, cols)
    ensures forall i, j :: 0 <= i < |d| && 0 <= j < cols ==> MatMul(Diag(d), m, cols)[i][j] == d[i] * m[i][j]
  {
    forall i, j | 0 <= i < |d| && 0 <= j < cols
      ensures MatMul(Diag(d), m, cols)[i][j] == d[i] * m[i][j]
    {
      MulDiagLeftAt(d, m, cols, i, j);
    }
  }

  lemma MulDiagLeftAt(d: Vector, m: Matrix, cols: nat, i: nat, j: nat)
    requires IsMatrix(m, |d|, cols) && i < |d| && j < cols
    ensures MatMul(Diag(d), m, cols)[i][j] == d[i] * m[i][j]
  {
    SumOfSingle(Products(Diag(d)[i], m, j), i);
  }

  /** `m . diag(d)` multiplies column j of `m` by `d[j]`. */
  lemma MulDiagRightAt(m: Matrix, d: Vector, i: nat, j: nat)
    requires IsMatrix(m, |m|, |d|) && i < |m| && j < |d|
    ensures MatMul(m, Diag(d), |d|)[i][j] == m[i][j] * d[j]
  {
    SumOfSingle(Products(m[i], Diag(d), j), j);
  }
}
