/** Eigenpair post-processing of `Diffusor.fit_transform`: `inds =
    np.argsort(D)[::-1]`, then `D = D[inds]` and `V = V[:, inds]`. The
    ascending argsort is taken to be stable, so its reversal orders indices by
    value descending and, among equal values, by original position
    descending. */
module Eigen {
  import opened Linear

  /** Index a comes before index b in `argsort(vals)[::-1]`. */
  predicate Before(vals: seq<real>, a: nat, b: nat)
    requires a < |vals| && b < |vals|
  {
    vals[a] > vals[b] || (vals[a] == vals[b] && a > b)
  }

  predicate InRange(inds: seq<nat>, n: nat) {
    forall k :: 0 <= k < |inds| ==> inds[k] < n
  }

  /** Every index comes strictly before the ones after it. */
  predicate Ordered(vals: seq<real>, inds: seq<nat>)
    requires InRange(inds, |vals|)
  {
    forall k, l :: 0 <= k < l < |inds| ==> Before(vals, inds[k], inds[l])
  }

  /** `inds` lists each of 0 .. n-1 exactly once. */
  predicate IsPermutation(inds: seq<nat>, n: nat) {
    && |inds| == n
    && InRange(inds, n)
    && (forall k, l :: 0 <= k < l < n ==> inds[k] != inds[l])
    && (forall i :: 0 <= i < n ==> i in inds)
  }

  /** Place index x among the ordered indices `inds`. */
  function InsertIndex(vals: seq<real>, x: nat, inds: seq<nat>): (r: seq<nat>)
    requires x < |vals| && InRange(inds, |vals|) && Ordered(vals, inds)
    requires x !in inds
    ensures |r| == |inds| + 1
    ensures InRange(r, |vals|) && Ordered(vals, r)
    ensures forall i: nat :: i in r <==> i == x || i in inds
    ensures r[0] == if |inds| == 0 || Before(vals, x, inds[0]) then x else inds[0]
  {
    if |inds| == 0 then [x]
    else if Before(vals, x, inds[0]) then [x] + inds
    else [inds[0]] + InsertIndex(vals, x, inds[1..])
  }

  /** The reversed argsort of the first n values, built by insertion. */
  function ArgsortPrefix(vals: seq<real>, n: nat): (inds: seq<nat>)
    requires n <= |vals|
    ensures |inds| == n
    ensures InRange(inds, |vals|) && Ordered(vals, inds)
    ensures forall i: nat :: i in inds <==> i < n
  {
    if n == 0 then [] else InsertIndex(vals, n - 1, ArgsortPrefix(vals, n - 1))
  }

  /** `np.argsort(vals)[::-1]`. */
  function ArgsortDescending(vals: seq<real>): (inds: seq<nat>)
    ensures InRange(inds, |vals|) && Ordered(vals, inds)
    ensures forall i: nat :: i in inds <==> i < |vals|
    ensures |inds| == |vals|
  {
    ArgsortPrefix(vals, |vals|)
  }

  /** `vals[inds]`. */
  function Gather(vals: seq<real>, inds: seq<nat>): (r: seq<real>)
    requires InRange(inds, |vals|)
    ensures |r| == |inds|
    ensures forall k :: 0 <= k < |inds| ==> r[k] == vals[inds[k]]
  {
    if |inds| == 0 then [] else [vals[inds[0]]] + Gather(vals, inds[1..])
  }

  /** `V[:, inds]`: the columns of `vecs` in the order `inds`. */
  function GatherColumns(vecs: Matrix, inds: seq<nat>, cols: nat): (r: Matrix)
    requires IsMatrix(vecs, |vecs|, cols) && InRange(inds, cols)
    ensures IsMatrix(r, |vecs|, |inds|)
    ensures forall row :: 0 <= row < |vecs| ==> r[row] == Gather(vecs[row], inds)
  {
    seq(|vecs|, row requires 0 <= row < |vecs| => Gather(vecs[row], inds))
  }

  /** Column j of a matrix. */
  function Column(m: Matrix, j: nat): (c: Vector)
    requires forall row :: 0 <= row < |m| ==> j < |m[row]|
    ensures |c| == |m|
    ensures forall row :: 0 <= row < |m| ==> c[row] == m[row][j]
  {
    seq(|m|, row requires 0 <= row < |m| => m[row][j])
  }

  /** The solver's eigenvalues `D` and eigenvector columns `V`, reordered. */
  function SortEigenpairs(vals: seq<real>, vecs: Matrix): (out: (seq<real>, Matrix))
    requires IsMatrix(vecs, |vecs|, |vals|)
    ensures |out.0| == |vals| && IsMatrix(out.1, |vecs|, |vals|)
    ensures forall k, l :: 0 <= k < l < |vals| ==> out.0[k] >= out.0[l]
  {
    var inds := ArgsortDescending(vals);
    (Gather(vals, inds), GatherColumns(vecs, inds, |vals|))
  }

  /** Distinct entries follow from the strict order. */
  lemma OrderedDistinct(vals: seq<real>, inds: seq<nat>)
    requires InRange(inds, |vals|) && Ordered(vals, inds)
    ensures forall k, l :: 0 <= k < l < |inds| ==> inds[k] != inds[l]
  {
  }

  /** The reversed argsort is a permutation of the positions. */
  lemma ArgsortIsPermutation(vals: seq<real>)
    ensures IsPermutation(ArgsortDescending(vals), |vals|)
  {
    OrderedDistinct(vals, ArgsortDescending(vals));
  }

  /** Sorting keeps every eigenpair together: position k of the output holds
      the eigenvalue and the eigenvector column that the solver returned at
      position inds[k], with the same permutation `inds` for both. */
  lemma SortKeepsPairs(vals: seq<real>, vecs: Matrix)
    requires IsMatrix(vecs, |vecs|, |vals|)
    ensures var inds := ArgsortDescending(vals);
      var out := SortEigenpairs(vals, vecs);
      && IsPermutation(inds, |vals|)
      && forall k :: 0 <= k < |vals| ==>
        && out.0[k] == vals[inds[k]]
        && Column(out.1, k) == Column(vecs, inds[k])
  {
    ArgsortIsPermutation(vals);
  }

  /** Inserting an index adds its value to the multiset of gathered values. */
  lemma {:induction false} InsertIndexValues(vals: seq<real>, x: nat, inds: seq<nat>)
    requires x < |vals| && InRange(inds, |vals|) && Ordered(vals, inds) && x !in inds
    ensures multiset(Gather(vals, InsertIndex(vals, x, inds))) == multiset(Gather(vals, inds)) + multiset{vals[x]}
  {
    if |inds| == 0 {
      GatherHead(vals, [x]);
    } else if Before(vals, x, inds[0]) {
      InsertFrontValues(vals, x, inds);
    } else {
      InsertIndexValues(vals, x, inds[1..]);
      InsertBehindValues(vals, x, inds);
    }
  }

  lemma {:induction false} InsertFrontValues(vals: seq<real>, x: nat, inds: seq<nat>)
    requires x < |vals| && InRange(inds, |vals|) && Ordered(vals, inds) && x !in inds
    requires |inds| > 0 && Before(vals, x, inds[0])
    ensures multiset(Gather(vals, InsertIndex(vals, x, inds))) == multiset(Gather(vals, inds)) + multiset{vals[x]}
  {
    var r := InsertIndex(vals, x, inds);
    assert r == [x] + inds;
    assert r[1..] == inds;
    GatherHead(vals, r);
  }

  /** The step of the induction: x goes behind the first index. */
  lemma {:induction false} InsertBehindValues(vals: seq<real>, x: nat, inds: seq<nat>)
    requires x < |vals| && InRange(inds, |vals|) && Ordered(vals, inds) && x !in inds
    requires |inds| > 0 && !Before(vals, x, inds[0])
    requires multiset(Gather(vals, InsertIndex(vals, x, inds[1..]))) == multiset(Gather(vals, inds[1..])) + multiset{vals[x]}
    ensures multiset(Gather(vals, InsertIndex(vals, x, inds))) == multiset(Gather(vals, inds)) + multiset{vals[x]}
  {
    OrderedTail(vals, inds);
    var rest := InsertIndex(vals, x, inds[1..]);
    assert InsertIndex(vals, x, inds) == [inds[0]] + rest;
    ConsValues(vals, inds, rest, vals[x]);
  }

  /** Dropping the first index keeps the order. */
  lemma OrderedTail(vals: seq<real>, inds: seq<nat>)
    requires InRange(inds, |vals|) && Ordered(vals, inds) && |inds| > 0
    ensures InRange(inds[1..], |vals|) && Ordered(vals, inds[1..])
    ensures forall i: nat :: i in inds[1..] ==> i in inds
  {
    forall k, l | 0 <= k < l < |inds| - 1
      ensures Before(vals, inds[1..][k], inds[1..][l])
    {
      assert inds[1..][k] == inds[k + 1] && inds[1..][l] == inds[l + 1];
    }
  }

  /** Putting the first index of `inds` in front of `rest`, whose values are
      those of `inds[1..]` plus v, gives the values of `inds` plus v. */
  lemma ConsValues(vals: seq<real>, inds: seq<nat>, rest: seq<nat>, v: real)
    requires InRange(inds, |vals|) && |inds| > 0 && InRange(rest, |vals|)
    requires multiset(Gather(vals, rest)) == multiset(Gather(vals, inds[1..])) + multiset{v}
    ensures multiset(Gather(vals, [inds[0]] + rest)) == multiset(Gather(vals, inds)) + multiset{v}
  {
    GatherCons(vals, inds[0], rest);
    GatherHead(vals, inds);
    SwapInsertion(multiset(Gather(vals, [inds[0]] + rest)), multiset(Gather(vals, rest)),
                  multiset(Gather(vals, inds[1..])), multiset(Gather(vals, inds)), vals[inds[0]], v);
  }

  /** Gathering an index put in front adds its value. */
  lemma GatherCons(vals: seq<real>, h: nat, rest: seq<nat>)
    requires h < |vals| && InRange(rest, |vals|)
    ensures multiset(Gather(vals, [h] + rest)) == multiset{vals[h]} + multiset(Gather(vals, rest))
  {
    var r := [h] + rest;
    assert r[1..] == rest;
    GatherHead(vals, r);
  }

  lemma SwapInsertion(whole: multiset<real>, rest: multiset<real>, tail: multiset<real>, before: multiset<real>, h: real, v: real)
    requires whole == multiset{h} + rest && rest == tail + multiset{v} && before == multiset{h} + tail
    ensures whole == before + multiset{v}
  {
  }

  /** Gathering splits off the first index. */
  lemma GatherHead(vals: seq<real>, inds: seq<nat>)
    requires InRange(inds, |vals|) && |inds| > 0
    ensures multiset(Gather(vals, inds)) == multiset{vals[inds[0]]} + multiset(Gather(vals, inds[1..]))
  {
    assert Gather(vals, inds) == [vals[inds[0]]] + Gather(vals, inds[1..]);
  }

  lemma {:induction false} ArgsortPrefixValues(vals: seq<real>, n: nat)
    requires n <= |vals|
    ensures multiset(Gather(vals, ArgsortPrefix(vals, n))) == multiset(vals[..n])
  {
    if n > 0 {
      ArgsortPrefixValues(vals, n - 1);
      ArgsortPrefixStep(vals, n);
      PrefixSnoc(vals, n);
    }
  }

  lemma ArgsortPrefixStep(vals: seq<real>, n: nat)
    requires 0 < n <= |vals|
    ensures multiset(Gather(vals, ArgsortPrefix(vals, n))) ==
      multiset(Gather(vals, ArgsortPrefix(vals, n - 1))) + multiset{vals[n - 1]}
  {
    var prev := ArgsortPrefix(vals, n - 1);
    assert n - 1 !in prev;
    assert ArgsortPrefix(vals, n) == InsertIndex(vals, n - 1, prev);
    InsertIndexValues(vals, n - 1, prev);
  }

  lemma PrefixSnoc(vals: seq<real>, n: nat)
    requires 0 < n <= |vals|
    ensures multiset(vals[..n]) == multiset(vals[..n - 1]) + multiset{vals[n - 1]}
  {
    assert vals[..n] == vals[..n - 1] + [vals[n - 1]];
  }

  /** The sorted eigenvalues are a rearrangement of the solver's. */
  lemma SortIsRearrangement(vals: seq<real>, vecs: Matrix)
    requires IsMatrix(vecs, |vecs|, |vals|)
    ensures multiset(SortEigenpairs(vals, vecs).0) == multiset(vals)
  {
    ArgsortPrefixValues(vals, |vals|);
    assert vals[..|vals|] == vals;
  }
}
