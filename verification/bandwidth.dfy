/** The adaptive bandwidth of the approximate branch of `Diffusor.fit_transform`:
    with adaptive_k = floor(n_neighbors / 2), sigma_i is the element at Python
    index adaptive_k - 1 of row i's stored distances sorted ascending. */
module Bandwidth {
  import opened Results
  import opened NeighborGraph

  predicate Ascending(s: seq<real>) {
    forall i, j :: 0 <= i < j < |s| ==> s[i] <= s[j]
  }

  /** How many entries of `s` are at most `x`. */
  function CountAtMost(s: seq<real>, x: real): nat {
    if |s| == 0 then 0 else (if s[0] <= x then 1 else 0) + CountAtMost(s[1..], x)
  }

  /** How many entries of `s` are below `x`. */
  function CountBelow(s: seq<real>, x: real): nat {
    if |s| == 0 then 0 else (if s[0] < x then 1 else 0) + CountBelow(s[1..], x)
  }

  function Insert(x: real, s: seq<real>): (r: seq<real>)
    requires Ascending(s)
    ensures Ascending(r)
    ensures multiset(r) == multiset(s) + multiset{x}
    ensures |r| == |s| + 1
    ensures r[0] == if |s| == 0 || x <= s[0] then x else s[0]
  {
    if |s| == 0 then [x]
    else if x <= s[0] then [x] + s
    else
      var rest := Insert(x, s[1..]);
      assert s == [s[0]] + s[1..];
      assert multiset([s[0]] + rest) == multiset{s[0]} + multiset(rest);
      ConsAscending(s[0], rest);
      [s[0]] + rest
  }

  /** Putting a value no larger than the head in front keeps a sequence ascending. */
  lemma ConsAscending(a: real, s: seq<real>)
    requires Ascending(s) && (|s| > 0 ==> a <= s[0])
    ensures Ascending([a] + s)
  {
    var r := [a] + s;
    forall i, j | 0 <= i < j < |r|
      ensures r[i] <= r[j]
    {
      if i == 0 {
        assert r[j] == s[j - 1];
      }
    }
  }

  /** `np.sort`: the ascending rearrangement of `s`. */
  function Sort(s: seq<real>): (r: seq<real>)
    ensures Ascending(r)
    ensures multiset(r) == multiset(s)
    ensures |r| == |s|
  {
    if |s| == 0 then []
    else
      assert s == [s[0]] + s[1..];
      Insert(s[0], Sort(s[1..]))
  }

  lemma {:induction false} InsertCounts(x: real, s: seq<real>, y: real)
    requires Ascending(s)
    ensures CountAtMost(Insert(x, s), y) == CountAtMost(s, y) + (if x <= y then 1 else 0)
    ensures CountBelow(Insert(x, s), y) == CountBelow(s, y) + (if x < y then 1 else 0)
  {
    if |s| == 0 {
      assert Insert(x, s)[1..] == [];
    } else if x <= s[0] {
      assert Insert(x, s)[1..] == s;
    } else {
      InsertCounts(x, s[1..], y);
      assert Insert(x, s)[1..] == Insert(x, s[1..]);
    }
  }

  /** Sorting does not change how many entries lie at or below a threshold. */
  lemma {:induction false} SortCounts(s: seq<real>, y: real)
    ensures CountAtMost(Sort(s), y) == CountAtMost(s, y)
    ensures CountBelow(Sort(s), y) == CountBelow(s, y)
  {
    if |s| > 0 {
      SortCounts(s[1..], y);
      InsertCounts(s[0], Sort(s[1..]), y);
    }
  }

  lemma {:induction false} NoneBelowMinimum(s: seq<real>, x: real)
    requires forall j :: 0 <= j < |s| ==> x <= s[j]
    ensures CountBelow(s, x) == 0
  {
    if |s| > 0 {
      NoneBelowMinimum(s[1..], x);
    }
  }

  lemma {:induction false} AllAtMostMaximum(s: seq<real>, x: real)
    requires forall j :: 0 <= j < |s| ==> s[j] <= x
    ensures CountAtMost(s, x) == |s|
  {
    if |s| > 0 {
      AllAtMostMaximum(s[1..], x);
    }
  }

  /** In an ascending sequence the entry at position p has at most p entries
      below it and at least p + 1 entries at or below it. */
  lemma {:induction false} AscendingRank(s: seq<real>, p: nat)
    requires Ascending(s) && p < |s|
    ensures CountBelow(s, s[p]) <= p
    ensures p + 1 <= CountAtMost(s, s[p])
  {
    if p == 0 {
      NoneBelowMinimum(s, s[0]);
    } else {
      AscendingRank(s[1..], p - 1);
    }
  }

  /** Python's `s[idx]` on a sequence of length `len`: a negative index counts
      from the end; outside [-len, len) it is an IndexError. */
  function PyIndex(idx: int, len: nat): (r: Option<nat>)
    ensures r.Some? <==> -(len as int) <= idx < len
    ensures r.Some? ==> r.value < len && (r.value as int == idx || r.value as int == idx + len)
  {
    if 0 <= idx < len then Some(idx)
    else if -(len as int) <= idx < 0 then Some((idx + len) as nat)
    else None
  }

  /** `np.sort(row)[adaptive_k - 1]`. */
  function RowBandwidth(row: seq<real>, adaptiveK: nat): (r: Result<real>)
    ensures r.Err? ==> r.error == BandwidthIndex
    ensures r.Ok? ==> r.value in row
  {
    match PyIndex(adaptiveK - 1, |row|)
    case None => Err(BandwidthIndex)
    case Some(p) =>
      assert Sort(row)[p] in multiset(Sort(row));
      Ok(Sort(row)[p])
  }

  /** The bandwidth fails exactly when the index adaptive_k - 1 falls outside
      the row: for adaptive_k >= 1 it needs adaptive_k entries, and for
      adaptive_k = 0 Python's index -1 needs one. */
  lemma RowBandwidthDefined(row: seq<real>, adaptiveK: nat)
    ensures RowBandwidth(row, adaptiveK).Ok? <==> (1 <= adaptiveK <= |row|) || (adaptiveK == 0 && |row| > 0)
  {
  }

  /** For adaptive_k >= 1, sigma is the adaptive_k-th smallest stored
      distance: fewer than adaptive_k entries lie below it and at least
      adaptive_k lie at or below it. */
  lemma RowBandwidthIsOrderStatistic(row: seq<real>, adaptiveK: nat)
    requires 1 <= adaptiveK <= |row|
    ensures RowBandwidth(row, adaptiveK).Ok?
    ensures CountBelow(row, RowBandwidth(row, adaptiveK).value) < adaptiveK
    ensures adaptiveK <= CountAtMost(row, RowBandwidth(row, adaptiveK).value)
  {
    var p: nat := adaptiveK - 1;
    assert PyIndex(adaptiveK - 1, |row|) == Some(p);
    assert RowBandwidth(row, adaptiveK) == Ok(Sort(row)[p]);
    SortedRank(row, p);
  }

  lemma SortedRank(row: seq<real>, p: nat)
    requires p < |row|
    ensures CountBelow(row, Sort(row)[p]) <= p
    ensures p + 1 <= CountAtMost(row, Sort(row)[p])
  {
    SortCounts(row, Sort(row)[p]);
    AscendingRank(Sort(row), p);
  }

  /** For adaptive_k = 0, Python's index -1 makes sigma the largest stored
      distance: every entry lies at or below it. */
  lemma RowBandwidthIsMaximum(row: seq<real>)
    requires |row| > 0
    ensures RowBandwidth(row, 0).Ok?
    ensures CountAtMost(row, RowBandwidth(row, 0).value) == |row|
  {
    assert PyIndex(-1, |row|) == Some(|row| - 1);
    SortedMaximum(row);
  }

  lemma SortedMaximum(row: seq<real>)
    requires |row| > 0
    ensures CountAtMost(row, Sort(row)[|row| - 1]) == |row|
  {
    var t := Sort(row);
    SortCounts(row, t[|row| - 1]);
    AllAtMostMaximum(t, t[|row| - 1]);
  }

  /** `int(np.floor(n_neighbors / 2))`. */
  function AdaptiveK(nNeighbors: nat): nat {
    nNeighbors / 2
  }

  /** sigma for every row of the neighbour graph; the loop raises on the
      first row too short for the index. */
  function AdaptiveBandwidth(g: Csr, nNeighbors: nat): (r: Result<seq<real>>)
    requires WellFormed(g)
    ensures r.Ok? <==> forall i :: 0 <= i < g.nRows ==> RowBandwidth(RowData(g, i), AdaptiveK(nNeighbors)).Ok?
    ensures r.Err? ==> r.error == BandwidthIndex
    ensures r.Ok? ==> |r.value| == g.nRows
    ensures r.Ok? ==> forall i :: 0 <= i < g.nRows ==>
      && RowBandwidth(RowData(g, i), AdaptiveK(nNeighbors)).Ok?
      && r.value[i] == RowBandwidth(RowData(g, i), AdaptiveK(nNeighbors)).value
      && r.value[i] in RowData(g, i)
  {
    var a := AdaptiveK(nNeighbors);
    if forall i :: 0 <= i < g.nRows ==> RowBandwidth(RowData(g, i), a).Ok? then
      var sigma := seq(g.nRows, i requires 0 <= i < g.nRows && RowBandwidth(RowData(g, i), a).Ok? =>
        RowBandwidth(RowData(g, i), a).value);
      assert forall i :: 0 <= i < g.nRows ==> sigma[i] == RowBandwidth(RowData(g, i), a).value;
      Ok(sigma)
    else
      Err(BandwidthIndex)
  }

  /** The pipeline's graph has rows of n_neighbors + 1 entries, so with
      adaptive_k = floor(n_neighbors / 2) the index never falls outside a row;
      with non-negative distances every sigma is non-negative. */
  lemma PipelineBandwidthDefined(g: Csr, nNeighbors: nat)
    requires WellFormed(g)
    requires forall i :: 0 <= i < g.nRows ==> g.indptr[i + 1] - g.indptr[i] == nNeighbors + 1
    ensures AdaptiveBandwidth(g, nNeighbors).Ok?
    ensures (forall p :: 0 <= p < |g.data| ==> 0.0 <= g.data[p]) ==>
      forall i :: 0 <= i < g.nRows ==> 0.0 <= AdaptiveBandwidth(g, nNeighbors).value[i]
  {
    var a := AdaptiveK(nNeighbors);
    forall i | 0 <= i < g.nRows
      ensures RowBandwidth(RowData(g, i), a).Ok?
    {
      RowBandwidthDefined(RowData(g, i), a);
    }
    if forall p :: 0 <= p < |g.data| ==> 0.0 <= g.data[p] {
      var sigma := AdaptiveBandwidth(g, nNeighbors).value;
      forall i | 0 <= i < g.nRows
        ensures 0.0 <= sigma[i]
      {
        var row := RowData(g, i);
        var j :| 0 <= j < |row| && row[j] == sigma[i];
        assert row[j] == g.data[g.indptr[i] + j];
      }
    }
  }
}
