/** The approximate k-nearest-neighbour transformer (`NMSlibTransformer`):
    its metric table, the state its `fit` and `transform` calls leave behind,
    and the fixed-width CSR graph `transform` lays over the neighbour search's
    answers. The search itself is not modelled: `transform` receives, for each
    query sample, the list of (neighbour index, distance) pairs the index
    returned. */
module NeighborGraph {
  import opened Results

  datatype Neighbor = Neighbor(id: nat, dist: real)

  /** A compressed-sparse-row matrix: row i stores `data[indptr[i]..indptr[i+1]]`
      at columns `indices[indptr[i]..indptr[i+1]]`. */
  datatype Csr = Csr(nRows: nat, nCols: nat, data: seq<real>, indices: seq<nat>, indptr: seq<nat>)

  /** The transformer's attributes. `nNeighbors` is raised by every `transform`. */
  datatype Transformer = Transformer(nNeighbors: nat, metric: string, space: string, nSamplesFit: Option<nat>)

  /** The CSR invariants a sparse constructor checks, plus column bounds. */
  predicate WellFormed(g: Csr) {
    && |g.indptr| == g.nRows + 1
    && g.indptr[0] == 0
    && (forall i, j :: 0 <= i <= j <= g.nRows ==> g.indptr[i] <= g.indptr[j])
    && |g.indices| == |g.data|
    && g.indptr[g.nRows] <= |g.data|
    && (forall p :: 0 <= p < |g.indices| ==> g.indices[p] < g.nCols)
  }

  /** The stored values of row i. */
  function RowData(g: Csr, i: nat): (r: seq<real>)
    requires WellFormed(g) && i < g.nRows
    ensures |r| == g.indptr[i + 1] - g.indptr[i]
  {
    g.data[g.indptr[i]..g.indptr[i + 1]]
  }

  /** The column indices of row i. */
  function RowIndices(g: Csr, i: nat): (r: seq<nat>)
    requires WellFormed(g) && i < g.nRows
    ensures |r| == g.indptr[i + 1] - g.indptr[i]
  {
    g.indices[g.indptr[i]..g.indptr[i + 1]]
  }

  /** The nmslib space each supported metric name selects. */
  function SpaceOf(metric: string): Option<string> {
    if metric == "sqeuclidean" then Some("l2")
    else if metric == "euclidean" then Some("l2")
    else if metric == "euclidean_sparse" then Some("l2_sparse")
    else if metric == "cosine" then Some("cosinesimil")
    else if metric == "cosine_sparse" then Some("cosinesimil_sparse_fast")
    else if metric == "l1" then Some("l1")
    else if metric == "l1_sparse" then Some("l1_sparse")
    else if metric == "linf" then Some("linf")
    else if metric == "linf_sparse" then Some("linf_sparse")
    else if metric == "angular" then Some("angulardist")
    else if metric == "angular_sparse" then Some("angulardist_sparse_fast")
    else if metric == "levenshtein" then Some("leven")
    else if metric == "hamming" then Some("bit_hamming")
    else if metric == "jaccard" then Some("bit_jaccard")
    else if metric == "jaccard_sparse" then Some("jaccard_sparse")
    else if metric == "jansen-shan" then Some("jsmetrfastapprox")
    else None
  }

  /** The constructor: an unknown metric name fails the table lookup. */
  function NewTransformer(nNeighbors: nat, metric: string): (r: Result<Transformer>)
    ensures r.Ok? <==> SpaceOf(metric).Some?
    ensures r.Ok? ==> r.value.nNeighbors == nNeighbors && r.value.metric == metric
                      && r.value.space == SpaceOf(metric).value && r.value.nSamplesFit == None
  {
    match SpaceOf(metric)
    case None => Err(UnknownMetric)
    case Some(space) => Ok(Transformer(nNeighbors, metric, space, None))
  }

  /** `fit` records the number of indexed samples; building the index is not modelled. */
  function Fit(t: Transformer, nSamples: nat): (t': Transformer)
    ensures t'.nSamplesFit == Some(nSamples)
    ensures t'.nNeighbors == t.nNeighbors && t'.metric == t.metric && t'.space == t.space
  {
    t.(nSamplesFit := Some(nSamples))
  }

  /** The stored form of one returned distance: squared for `sqeuclidean`. */
  function StoredDistance(metric: string, d: real): real {
    if metric == "sqeuclidean" then d * d else d
  }

  function DistanceRow(metric: string, row: seq<Neighbor>): (r: seq<real>)
    ensures |r| == |row|
    ensures forall j :: 0 <= j < |row| ==> r[j] == StoredDistance(metric, row[j].dist)
  {
    seq(|row|, j requires 0 <= j < |row| => StoredDistance(metric, row[j].dist))
  }

  function IndexRow(row: seq<Neighbor>): (r: seq<nat>)
    ensures |r| == |row|
    ensures forall j :: 0 <= j < |row| ==> r[j] == row[j].id
  {
    seq(|row|, j requires 0 <= j < |row| => row[j].id)
  }

  /** Row-major concatenation, `np.vstack(rows).ravel()`. */
  function Flatten<T>(rows: seq<seq<T>>): seq<T> {
    if |rows| == 0 then [] else rows[0] + Flatten(rows[1..])
  }

  predicate Uniform<T>(rows: seq<seq<T>>, width: nat) {
    forall i :: 0 <= i < |rows| ==> |rows[i]| == width
  }

  /** `np.arange(0, n * k + 1, k)`: the index pointer of n rows of k entries. */
  function RowStarts(n: nat, k: nat): (p: seq<nat>)
    ensures |p| == n + 1
    ensures forall i :: 0 <= i <= n ==> p[i] == i * k
  {
    seq(n + 1, i requires 0 <= i <= n => i * k)
  }

  /** The stored distance rows of a batch of answers. */
  function DistanceRows(metric: string, results: seq<seq<Neighbor>>): (rows: seq<seq<real>>)
    ensures |rows| == |results|
    ensures forall i :: 0 <= i < |results| ==> rows[i] == DistanceRow(metric, results[i])
  {
    seq(|results|, i requires 0 <= i < |results| => DistanceRow(metric, results[i]))
  }

  /** The neighbour index rows of a batch of answers. */
  function IndexRows(results: seq<seq<Neighbor>>): (rows: seq<seq<nat>>)
    ensures |rows| == |results|
    ensures forall i :: 0 <= i < |results| ==> rows[i] == IndexRow(results[i])
  {
    seq(|results|, i requires 0 <= i < |results| => IndexRow(results[i]))
  }

  /** `transform`: raise `n_neighbors`, query k = n_neighbors neighbours per
      sample, stack the answers and lay the index pointer [0, k, 2k, .., n*k]
      over them. A transformer that was never fitted has no index, and the
      call fails before the raise. Otherwise the raise happens before anything
      else can fail, so it survives every later error. Stacking needs rows of
      one width m; the sparse constructor then needs the pointer's last entry
      n*k to be at most the n*m stored entries, that is m >= k since n > 0. */
  function Transform(t: Transformer, results: seq<seq<Neighbor>>): (out: (Transformer, Result<Csr>))
    ensures t.nSamplesFit.None? ==> out == (t, Err(NotFitted))
    ensures t.nSamplesFit.Some? ==> out.0 == t.(nNeighbors := t.nNeighbors + 1)
    ensures out.1.Ok? <==>
      t.nSamplesFit.Some? && |results| > 0 && Uniform(results, |results[0]|) && t.nNeighbors + 1 <= |results[0]|
    ensures out.1.Err? && t.nSamplesFit.Some? && |results| == 0 ==> out.1.error == NoQueries
    ensures out.1.Err? && t.nSamplesFit.Some? && |results| > 0 && !Uniform(results, |results[0]|) ==>
      out.1.error == RaggedRows
    ensures out.1.Err? && t.nSamplesFit.Some? && |results| > 0 && Uniform(results, |results[0]|) ==>
      out.1.error == ShortRows
    ensures out.1.Ok? ==>
      var g := out.1.value;
      && g.nRows == |results| && g.nCols == t.nSamplesFit.value
      && g.indptr == RowStarts(|results|, t.nNeighbors + 1)
      && |g.data| == |g.indices| == |results| * |results[0]|
  {
    var t' := t.(nNeighbors := t.nNeighbors + 1);
    var k := t'.nNeighbors;
    var n := |results|;
    if t.nSamplesFit.None? then (t, Err(NotFitted))
    else if n == 0 then (t', Err(NoQueries))
    else if !Uniform(results, |results[0]|) then (t', Err(RaggedRows))
    else if |results[0]| < k then (t', Err(ShortRows))
    else
      var distances := DistanceRows(t.metric, results);
      var indices := IndexRows(results);
      FlattenLength(distances, |results[0]|);
      FlattenLength(indices, |results[0]|);
      (t', Ok(Csr(n, t.nSamplesFit.value, Flatten(distances), Flatten(indices), RowStarts(n, k))))
  }

  lemma MulMonotone(i: nat, j: nat, k: nat)
    requires i <= j
    ensures i * k <= j * k
  {
    assert j * k == i * k + (j - i) * k;
  }

  lemma {:induction false} FlattenLength<T>(rows: seq<seq<T>>, width: nat)
    requires Uniform(rows, width)
    ensures |Flatten(rows)| == |rows| * width
  {
    if |rows| > 0 {
      FlattenLength(rows[1..], width);
    }
  }

  /** Every element of the concatenation comes from one of the rows. */
  lemma {:induction false} FlattenMember<T>(rows: seq<seq<T>>, x: T)
    requires x in Flatten(rows)
    ensures exists i :: 0 <= i < |rows| && x in rows[i]
  {
    if x !in rows[0] {
      FlattenMember(rows[1..], x);
      var i :| 0 <= i < |rows[1..]| && x in rows[1..][i];
      assert x in rows[i + 1];
    }
  }

  /** Row i of uniform-width rows sits at offsets i*width .. (i+1)*width. */
  lemma {:induction false} FlattenSlice<T>(rows: seq<seq<T>>, width: nat, i: nat)
    requires Uniform(rows, width) && i < |rows|
    ensures |Flatten(rows)| == |rows| * width
    ensures (i + 1) * width <= |rows| * width
    ensures Flatten(rows)[i * width..(i + 1) * width] == rows[i]
  {
    FlattenLength(rows, width);
    FlattenLength(rows[1..], width);
    if i == 0 {
      assert Flatten(rows)[..width] == rows[0];
    } else {
      FlattenSlice(rows[1..], width, i - 1);
      assert (i - 1) * width + width == i * width;
      assert i * width + width == (i + 1) * width;
      assert (i + 1) * width <= |rows| * width by {
        assert |rows| * width == (i + 1) * width + (|rows| - (i + 1)) * width;
      }
      assert Flatten(rows)[i * width..(i + 1) * width] == Flatten(rows[1..])[(i - 1) * width..i * width];
    }
  }

  /** The graph `transform` builds when every answer holds k = n_neighbors + 1 entries. */
  lemma TransformParts(t: Transformer, results: seq<seq<Neighbor>>)
    requires t.nSamplesFit.Some? && Uniform(results, t.nNeighbors + 1) && |results| > 0
    ensures Transform(t, results).1.Ok?
    ensures var g := Transform(t, results).1.value;
      && g.data == Flatten(DistanceRows(t.metric, results))
      && g.indices == Flatten(IndexRows(results))
      && g.indptr[|results|] == |g.data|
      && (forall i, j :: 0 <= i <= j <= |results| ==> g.indptr[i] <= g.indptr[j])
  {
    var k := t.nNeighbors + 1;
    var g := Transform(t, results).1.value;
    FlattenLength(DistanceRows(t.metric, results), k);
    forall i, j | 0 <= i <= j <= |results|
      ensures g.indptr[i] <= g.indptr[j]
    {
      MulMonotone(i, j, k);
    }
  }

  /** With k-entry answers, the graph is well formed exactly when every
      returned neighbour index is below the number of fitted samples. */
  lemma TransformWellFormed(t: Transformer, results: seq<seq<Neighbor>>)
    requires t.nSamplesFit.Some? && Uniform(results, t.nNeighbors + 1) && |results| > 0
    ensures Transform(t, results).1.Ok?
    ensures WellFormed(Transform(t, results).1.value) <==>
      forall i, j :: 0 <= i < |results| && 0 <= j < |results[i]| ==> results[i][j].id < t.nSamplesFit.value
  {
    TransformParts(t, results);
    if forall i, j :: 0 <= i < |results| && 0 <= j < |results[i]| ==> results[i][j].id < t.nSamplesFit.value {
      ColumnsInRange(t, results);
    } else {
      var i, j :| 0 <= i < |results| && 0 <= j < |results[i]| && results[i][j].id >= t.nSamplesFit.value;
      ColumnOutOfRange(t, results, i, j);
    }
  }

  lemma ColumnsInRange(t: Transformer, results: seq<seq<Neighbor>>)
    requires t.nSamplesFit.Some? && Uniform(results, t.nNeighbors + 1) && |results| > 0
    requires forall i, j :: 0 <= i < |results| && 0 <= j < |results[i]| ==> results[i][j].id < t.nSamplesFit.value
    ensures Transform(t, results).1.Ok?
    ensures var g := Transform(t, results).1.value;
      forall p :: 0 <= p < |g.indices| ==> g.indices[p] < g.nCols
  {
    var g := Transform(t, results).1.value;
    var indices := IndexRows(results);
    assert g.indices == Flatten(indices);
    forall p | 0 <= p < |g.indices|
      ensures g.indices[p] < g.nCols
    {
      FlattenMember(indices, g.indices[p]);
    }
  }

  lemma ColumnOutOfRange(t: Transformer, results: seq<seq<Neighbor>>, i: nat, j: nat)
    requires t.nSamplesFit.Some? && Uniform(results, t.nNeighbors + 1) && |results| > 0
    requires i < |results| && j < |results[i]| && results[i][j].id >= t.nSamplesFit.value
    ensures Transform(t, results).1.Ok?
    ensures !WellFormed(Transform(t, results).1.value)
  {
    var k := t.nNeighbors + 1;
    var g := Transform(t, results).1.value;
    var indices := IndexRows(results);
    assert g.indices == Flatten(indices);
    FlattenSlice(indices, k, i);
    assert g.indices[i * k..(i + 1) * k][j] == results[i][j].id;
  }

  /** Reading row i back through the index pointer yields exactly the i-th
      answer of the search: its distances (squared for `sqeuclidean`) and its
      neighbour indices. */
  lemma TransformRoundTrip(t: Transformer, results: seq<seq<Neighbor>>)
    requires t.nSamplesFit.Some? && Uniform(results, t.nNeighbors + 1) && |results| > 0
    requires forall i, j :: 0 <= i < |results| && 0 <= j < |results[i]| ==> results[i][j].id < t.nSamplesFit.value
    ensures Transform(t, results).1.Ok? && WellFormed(Transform(t, results).1.value)
    ensures forall i :: 0 <= i < |results| ==>
      && RowData(Transform(t, results).1.value, i) == DistanceRow(t.metric, results[i])
      && RowIndices(Transform(t, results).1.value, i) == IndexRow(results[i])
  {
    var k := t.nNeighbors + 1;
    TransformParts(t, results);
    TransformWellFormed(t, results);
    forall i | 0 <= i < |results|
      ensures RowData(Transform(t, results).1.value, i) == DistanceRow(t.metric, results[i])
      ensures RowIndices(Transform(t, results).1.value, i) == IndexRow(results[i])
    {
      FlattenSlice(DistanceRows(t.metric, results), k, i);
      FlattenSlice(IndexRows(results), k, i);
    }
  }

  /** Stored distances are non-negative whenever the returned ones are. */
  lemma TransformNonNegative(t: Transformer, results: seq<seq<Neighbor>>)
    requires forall i, j :: 0 <= i < |results| && 0 <= j < |results[i]| ==> 0.0 <= results[i][j].dist
    ensures Transform(t, results).1.Ok? ==>
      forall p :: 0 <= p < |Transform(t, results).1.value.data| ==> 0.0 <= Transform(t, results).1.value.data[p]
  {
    if Transform(t, results).1.Ok? {
      var g := Transform(t, results).1.value;
      var distances := DistanceRows(t.metric, results);
      forall p | 0 <= p < |g.data|
        ensures 0.0 <= g.data[p]
      {
        FlattenMember(distances, g.data[p]);
        var i :| 0 <= i < |distances| && g.data[p] in distances[i];
      }
    }
  }
}
