/** Sequences of hidden states, listed one by one, and the weight of each under a chain and its observations. */
module HiddenPaths {
  import opened Pigeonhole
  import opened RealSums
  import opened LinearAlgebra
  import opened TransitionMatrices

  /** The states passed, from the start to the state after the last observation. */
  type Path = seq<nat>

  ghost predicate IsPath(p: Path, n: nat, steps: nat, j: nat) {
    |p| == steps + 1 && p[steps] == j && forall t :: 0 <= t < |p| ==> p[t] < n
  }

  // ---- All paths ----

  ghost function Prefixed(i: nat, tails: seq<Path>): (paths: seq<Path>)
    ensures |paths| == |tails| && forall t :: 0 <= t < |tails| ==> paths[t] == [i] + tails[t]
  {
    seq(|tails|, t requires 0 <= t < |tails| => [i] + tails[t])
  }

  /** The paths of the given length from state i to state j. */
  ghost function PathsFrom(n: nat, i: nat, steps: nat, j: nat): seq<Path>
    decreases steps, n + 1
  {
    if steps == 0 then (if i == j then [[i]] else []) else PathsVia(n, i, steps, j, n)
  }

  /** Those whose second state is below k. */
  ghost function PathsVia(n: nat, i: nat, steps: nat, j: nat, k: nat): seq<Path>
    requires 0 < steps && k <= n
    decreases steps, k
  {
    if k == 0 then [] else PathsVia(n, i, steps, j, k - 1) + Prefixed(i, PathsFrom(n, k - 1, steps - 1, j))
  }

  /** The paths to state j from the states below m. */
  ghost function PathsTo(n: nat, steps: nat, j: nat, m: nat): seq<Path> {
    if m == 0 then [] else PathsTo(n, steps, j, m - 1) + PathsFrom(n, m - 1, steps, j)
  }

  lemma PrefixedHolds(i: nat, tails: seq<Path>, p: Path)
    ensures p in Prefixed(i, tails) <==> |p| > 0 && p[0] == i && p[1..] in tails
    ensures Distinct(tails) ==> Distinct(Prefixed(i, tails))
  {
    var paths := Prefixed(i, tails);
    if p in paths {
      var t :| 0 <= t < |paths| && paths[t] == p;
      assert p[1..] == tails[t];
    }
    if |p| > 0 && p[0] == i && p[1..] in tails {
      var t :| 0 <= t < |tails| && tails[t] == p[1..];
      assert paths[t] == [i] + p[1..] == p;
    }
    forall t, t' | 0 <= t < t' < |tails| && paths[t] == paths[t']
      ensures tails[t] == tails[t']
    {
      assert tails[t] == paths[t][1..] == paths[t'][1..] == tails[t'];
    }
  }

  lemma DistinctJoin<T>(x: seq<T>, y: seq<T>)
    requires Distinct(x) && Distinct(y) && forall e :: e in x ==> e !in y
    ensures Distinct(x + y)
  {
    var all := x + y;
    forall i, j | 0 <= i < j < |all|
      ensures all[i] != all[j]
    {
      if i < |x| <= j {
        assert all[i] in x && all[j] in y;
      }
    }
  }

  ghost predicate Lists(paths: seq<Path>, n: nat, i: nat, steps: nat, j: nat) {
    Distinct(paths) && forall p: Path {:trigger p in paths} :: p in paths <==> IsPath(p, n, steps, j) && p[0] == i
  }

  ghost predicate ListsBelow(paths: seq<Path>, n: nat, m: nat, steps: nat, j: nat) {
    Distinct(paths) && forall p: Path {:trigger p in paths} :: p in paths <==> IsPath(p, n, steps, j) && p[0] < m
  }

  /** The paths from state i through a second state below k. */
  ghost predicate ListsVia(paths: seq<Path>, n: nat, i: nat, steps: nat, j: nat, k: nat) {
    && Distinct(paths) && 0 < steps
    && forall p: Path {:trigger p in paths} :: p in paths <==> IsPath(p, n, steps, j) && p[0] == i && p[1] < k
  }

  lemma TailIsPath(p: Path, n: nat, i: nat, steps: nat, j: nat)
    requires 0 < steps && |p| > 0 && p[0] == i < n
    ensures IsPath(p, n, steps, j) <==> IsPath(p[1..], n, steps - 1, j)
  {
    if IsPath(p[1..], n, steps - 1, j) {
      forall t | 0 <= t < |p|
        ensures p[t] < n
      {
        assert t > 0 ==> p[t] == p[1..][t - 1];
      }
    }
  }

  lemma {:induction false} FromIsComplete(n: nat, i: nat, steps: nat, j: nat)
    requires i < n
    ensures Lists(PathsFrom(n, i, steps, j), n, i, steps, j)
    decreases steps, n + 1
  {
    if steps == 0 {
      forall p: Path | IsPath(p, n, 0, j) && p[0] == i
        ensures p in PathsFrom(n, i, 0, j)
      {
        assert p == [i];
      }
    } else {
      ViaIsComplete(n, i, steps, j, n);
    }
  }

  lemma {:induction false} ViaIsComplete(n: nat, i: nat, steps: nat, j: nat, k: nat)
    requires i < n && 0 < steps && k <= n
    ensures ListsVia(PathsVia(n, i, steps, j, k), n, i, steps, j, k)
    decreases steps, k
  {
    if k > 0 {
      ViaIsComplete(n, i, steps, j, k - 1);
      FromIsComplete(n, k - 1, steps - 1, j);
      JoinVia(PathsVia(n, i, steps, j, k - 1), PathsFrom(n, k - 1, steps - 1, j), n, i, steps, j, k - 1);
    }
  }

  lemma JoinVia(x: seq<Path>, tails: seq<Path>, n: nat, i: nat, steps: nat, j: nat, k: nat)
    requires i < n && k < n && ListsVia(x, n, i, steps, j, k) && Lists(tails, n, k, steps - 1, j)
    ensures ListsVia(x + Prefixed(i, tails), n, i, steps, j, k + 1)
  {
    var y := Prefixed(i, tails);
    forall p: Path
      ensures p in y <==> IsPath(p, n, steps, j) && p[0] == i && p[1] == k
    {
      PrefixedHolds(i, tails, p);
      if |p| > 0 && p[0] == i {
        TailIsPath(p, n, i, steps, j);
      }
    }
    PrefixedHolds(i, tails, []);
    DistinctJoin(x, y);
  }

  lemma {:induction false} ToIsComplete(n: nat, steps: nat, j: nat, m: nat)
    requires m <= n
    ensures ListsBelow(PathsTo(n, steps, j, m), n, m, steps, j)
  {
    if m > 0 {
      ToIsComplete(n, steps, j, m - 1);
      FromIsComplete(n, m - 1, steps, j);
      DistinctJoin(PathsTo(n, steps, j, m - 1), PathsFrom(n, m - 1, steps, j));
    }
  }

  /** PathsTo lists every sequence of states of the right length that ends in j, each once. */
  lemma {:induction false} AllPathsListed(n: nat, steps: nat, j: nat)
    ensures Distinct(PathsTo(n, steps, j, n))
    ensures forall p: Path {:trigger p in PathsTo(n, steps, j, n)} ::
      p in PathsTo(n, steps, j, n) <==> IsPath(p, n, steps, j)
  {
    ToIsComplete(n, steps, j, n);
  }

  // ---- Weights ----

  /** Probability of the step from state i to state k, times the likelihood of what is observed there. */
  ghost function StepWeight(a: Mat, l: Vec, i: nat, k: nat): real {
    if i < |a| && k < |a[i]| && k < |l| then Product(a[i][k], l[k]) else 0.0
  }

  /** Product of the step weights along a path; ls holds the likelihoods of the observations in order. */
  ghost function Along(a: Mat, ls: seq<Vec>, p: Path): real {
    if ls == [] || |p| < 2 then 1.0 else Product(StepWeight(a, ls[0], p[0], p[1]), Along(a, ls[1..], p[1..]))
  }

  ghost function TotalAlong(a: Mat, ls: seq<Vec>, paths: seq<Path>): real {
    if paths == [] then 0.0
    else TotalAlong(a, ls, paths[..|paths| - 1]) + Along(a, ls, paths[|paths| - 1])
  }

  lemma {:induction false} TotalJoin(a: Mat, ls: seq<Vec>, x: seq<Path>, y: seq<Path>)
    ensures TotalAlong(a, ls, x + y) == TotalAlong(a, ls, x) + TotalAlong(a, ls, y)
    decreases |y|
  {
    if y == [] {
      assert x + y == x;
    } else {
      TotalJoin(a, ls, x, y[..|y| - 1]);
      assert (x + y)[..|x + y| - 1] == x + y[..|y| - 1];
    }
  }

  ghost predicate StartAt(paths: seq<Path>, k: nat) {
    forall t :: 0 <= t < |paths| ==> |paths[t]| > 0 && paths[t][0] == k
  }

  /** A common first step can be taken out of the sum. */
  lemma {:induction false} TotalPrefixed(a: Mat, ls: seq<Vec>, i: nat, k: nat, tails: seq<Path>)
    requires ls != [] && StartAt(tails, k)
    ensures TotalAlong(a, ls, Prefixed(i, tails)) == Product(StepWeight(a, ls[0], i, k), TotalAlong(a, ls[1..], tails))
    decreases |tails|
  {
    if tails != [] {
      var front, last := tails[..|tails| - 1], tails[|tails| - 1];
      TotalPrefixed(a, ls, i, k, front);
      assert Prefixed(i, tails)[..|tails| - 1] == Prefixed(i, front);
      var p := [i] + last;
      assert p[1..] == last && Along(a, ls, p) == Product(StepWeight(a, ls[0], i, k), Along(a, ls[1..], last));
      Spread(StepWeight(a, ls[0], i, k), TotalAlong(a, ls[1..], front), Along(a, ls[1..], last));
    }
  }

  lemma Spread(c: real, x: real, y: real)
    ensures Product(c, x + y) == Product(c, x) + Product(c, y)
  {
  }

  lemma {:induction false} ListedStart(n: nat, k: nat, steps: nat, j: nat)
    requires k < n
    ensures StartAt(PathsFrom(n, k, steps, j), k)
  {
    FromIsComplete(n, k, steps, j);
    var paths := PathsFrom(n, k, steps, j);
    forall t | 0 <= t < |paths|
      ensures |paths[t]| > 0 && paths[t][0] == k
    {
      assert paths[t] in paths;
    }
  }

  /** starts[s] is the total over the paths from state s. */
  ghost predicate Totals(a: Mat, ls: seq<Vec>, n: nat, j: nat, starts: Vec) {
    |starts| == n && forall s :: 0 <= s < n ==> starts[s] == TotalAlong(a, ls, PathsFrom(n, s, |ls|, j))
  }

  ghost predicate Weighs(y: Vec, l: Vec, rest: Vec) {
    |y| == |l| == |rest| && forall s :: 0 <= s < |y| ==> y[s] == Product(l[s], rest[s])
  }

  /** The paths from i through a second state k: the k-th term of row i times y. */
  lemma {:induction false} TotalThrough(a: Mat, ls: seq<Vec>, n: nat, i: nat, j: nat, rest: Vec, y: Vec, k: nat)
    requires Square(a, n) && ls != [] && i < n && k < n == |ls[0]|
    requires Totals(a, ls[1..], n, j, rest) && Weighs(y, ls[0], rest)
    ensures TotalAlong(a, ls, Prefixed(i, PathsFrom(n, k, |ls| - 1, j))) == Product(a[i][k], y[k])
  {
    var tails := PathsFrom(n, k, |ls| - 1, j);
    ListedStart(n, k, |ls| - 1, j);
    TotalPrefixed(a, ls, i, k, tails);
    assert rest[k] == TotalAlong(a, ls[1..], tails);
    Regroup(a[i][k], ls[0][k], rest[k]);
  }

  lemma OneMoreVia(a: Mat, ls: seq<Vec>, n: nat, i: nat, steps: nat, j: nat, k: nat)
    requires 0 < steps && 0 < k <= n
    ensures TotalAlong(a, ls, PathsVia(n, i, steps, j, k)) == TotalAlong(a, ls, PathsVia(n, i, steps, j, k - 1))
      + TotalAlong(a, ls, Prefixed(i, PathsFrom(n, k - 1, steps - 1, j)))
  {
    TotalJoin(a, ls, PathsVia(n, i, steps, j, k - 1), Prefixed(i, PathsFrom(n, k - 1, steps - 1, j)));
  }

  lemma {:induction false} SumVia(a: Mat, ls: seq<Vec>, n: nat, i: nat, steps: nat, j: nat, terms: Vec, k: nat)
    requires 0 < steps && k <= n == |terms|
    requires forall s :: 0 <= s < n ==> terms[s] == TotalAlong(a, ls, Prefixed(i, PathsFrom(n, s, steps - 1, j)))
    ensures TotalAlong(a, ls, PathsVia(n, i, steps, j, k)) == SumTo(terms, k)
  {
    if k > 0 {
      SumVia(a, ls, n, i, steps, j, terms, k - 1);
      OneMoreVia(a, ls, n, i, steps, j, k);
    }
  }

  /** If rest totals the paths after the first observation, and y counts its likelihood in, then the paths from i total
      row i times y. */
  lemma {:induction false} TotalVia(a: Mat, ls: seq<Vec>, n: nat, i: nat, j: nat, rest: Vec, y: Vec)
    requires Square(a, n) && ls != [] && i < n == |ls[0]|
    requires Totals(a, ls[1..], n, j, rest) && Weighs(y, ls[0], rest)
    ensures TotalAlong(a, ls, PathsFrom(n, i, |ls|, j)) == Dot(a[i], y, n)
  {
    var terms := Products(a[i], y);
    forall k | 0 <= k < n
      ensures terms[k] == TotalAlong(a, ls, Prefixed(i, PathsFrom(n, k, |ls| - 1, j)))
    {
      TotalThrough(a, ls, n, i, j, rest, y, k);
    }
    SumVia(a, ls, n, i, |ls|, j, terms, n);
    DotIsSum(a[i], y, n);
  }

  lemma Regroup(x: real, y: real, z: real)
    ensures Product(Product(x, y), z) == Product(x, Product(y, z))
  {
  }

  // ---- With a prior ----

  /** The mass of the path's first state times the weight along it. */
  ghost function PathWeight(prior: Vec, a: Mat, ls: seq<Vec>, p: Path): real {
    if |p| > 0 && p[0] < |prior| then Product(prior[p[0]], Along(a, ls, p)) else 0.0
  }

  ghost function SumOverPaths(prior: Vec, a: Mat, ls: seq<Vec>, paths: seq<Path>): real {
    if paths == [] then 0.0
    else SumOverPaths(prior, a, ls, paths[..|paths| - 1]) + PathWeight(prior, a, ls, paths[|paths| - 1])
  }

  lemma {:induction false} SumJoin(prior: Vec, a: Mat, ls: seq<Vec>, x: seq<Path>, y: seq<Path>)
    ensures SumOverPaths(prior, a, ls, x + y) == SumOverPaths(prior, a, ls, x) + SumOverPaths(prior, a, ls, y)
    decreases |y|
  {
    if y == [] {
      assert x + y == x;
    } else {
      SumJoin(prior, a, ls, x, y[..|y| - 1]);
      assert (x + y)[..|x + y| - 1] == x + y[..|y| - 1];
    }
  }

  /** A common start can be taken out of the sum. */
  lemma {:induction false} SumStart(prior: Vec, a: Mat, ls: seq<Vec>, paths: seq<Path>, i: nat)
    requires i < |prior| && StartAt(paths, i)
    ensures SumOverPaths(prior, a, ls, paths) == Product(prior[i], TotalAlong(a, ls, paths))
    decreases |paths|
  {
    if paths != [] {
      var front, last := paths[..|paths| - 1], paths[|paths| - 1];
      SumStart(prior, a, ls, front, i);
      Spread(prior[i], TotalAlong(a, ls, front), Along(a, ls, last));
    }
  }

  ghost predicate Additive(total: seq<Path> -> real) {
    total([]) == 0.0 && forall x, y {:trigger total(x + y)} :: total(x + y) == total(x) + total(y)
  }

  lemma {:induction false} SumStarts(total: seq<Path> -> real, n: nat, steps: nat, j: nat, terms: Vec, m: nat)
    requires Additive(total) && m <= n == |terms|
    requires forall i :: 0 <= i < n ==> terms[i] == total(PathsFrom(n, i, steps, j))
    ensures total(PathsTo(n, steps, j, m)) == SumTo(terms, m)
  {
    if m > 0 {
      SumStarts(total, n, steps, j, terms, m - 1);
    }
  }

  lemma SumIsAdditive(prior: Vec, a: Mat, ls: seq<Vec>)
    ensures Additive(paths => SumOverPaths(prior, a, ls, paths))
  {
    forall x, y
      ensures SumOverPaths(prior, a, ls, x + y) == SumOverPaths(prior, a, ls, x) + SumOverPaths(prior, a, ls, y)
    {
      SumJoin(prior, a, ls, x, y);
    }
  }

  lemma {:induction false} SumOfStart(prior: Vec, a: Mat, ls: seq<Vec>, j: nat, starts: Vec, i: nat)
    requires Totals(a, ls, |prior|, j, starts) && i < |prior|
    ensures SumOverPaths(prior, a, ls, PathsFrom(|prior|, i, |ls|, j)) == Product(prior[i], starts[i])
  {
    ListedStart(|prior|, i, |ls|, j);
    SumStart(prior, a, ls, PathsFrom(|prior|, i, |ls|, j), i);
  }

  lemma {:induction false} SumOfStarts(prior: Vec, a: Mat, ls: seq<Vec>, j: nat, starts: Vec)
    requires Totals(a, ls, |prior|, j, starts)
    ensures SumOverPaths(prior, a, ls, PathsTo(|prior|, |ls|, j, |prior|)) == Dot(prior, starts, |prior|)
  {
    var terms := Products(prior, starts);
    forall i | 0 <= i < |prior|
      ensures terms[i] == SumOverPaths(prior, a, ls, PathsFrom(|prior|, i, |ls|, j))
    {
      SumOfStart(prior, a, ls, j, starts, i);
    }
    SumIsAdditive(prior, a, ls);
    SumStarts(paths => SumOverPaths(prior, a, ls, paths), |prior|, |ls|, j, terms, |prior|);
    DotIsSum(prior, starts, |prior|);
  }
}
