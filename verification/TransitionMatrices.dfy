/** Row-stochastic transition matrices between named latent states, stored in key order. */
module TransitionMatrices {
  import opened Wrappers
  import opened RealSums
  import opened RealProducts
  import opened Pigeonhole
  import opened Sorting
  import opened LinearAlgebra
  import opened Simplex
  import opened Beliefs

  datatype TransitionError =
    | NoStates
    | DimensionMismatch
    | DuplicateState(key: string)
    | RowNotOnSimplex(key: string, cause: SimplexError)

  datatype TransitionMatrix = TransitionMatrix(keys: seq<string>, index: map<string, nat>, rows: Mat) {

    function Dimension(): nat {
      |keys|
    }

    ghost predicate Covered(profiles: set<string>) {
      forall i :: 0 <= i < |keys| ==> keys[i] in profiles
    }

    /** Probability of moving between two named states, when both are known. */
    function At(from: string, to: string): Option<real> {
      if from in index && to in index && index[from] < |rows| && index[to] < |rows[index[from]]|
      then Some(rows[index[from]][index[to]])
      else None
    }
  }

  ghost predicate ValidTransition(t: TransitionMatrix) {
    && |t.keys| > 0 && Sorted(t.keys, IdLess) && Distinct(t.keys) && Indexes(t.index, t.keys)
    && Square(t.rows, |t.keys|)
    && forall i :: 0 <= i < |t.rows| ==> NearSimplex(t.rows[i], DEFAULT_TOLERANCE)
  }

  /** Entry of row at the position key had in the original listing. */
  function Picked(row: Vec, index: map<string, nat>, key: string): real {
    if key in index && index[key] < |row| then row[index[key]] else 0.0
  }

  function Reordered(row: Vec, index: map<string, nat>, keys: seq<string>): (r: Vec)
    ensures |r| == |keys| && forall j :: 0 <= j < |keys| ==> r[j] == Picked(row, index, keys[j])
  {
    MapSeq(keys, key => Picked(row, index, key))
  }

  /** Reordering a row by key rearranges it. */
  lemma ReorderingPermutes(row: Vec, index: map<string, nat>, keys: seq<string>, sorted: seq<string>)
    requires Indexes(index, keys) && |row| == |keys| && multiset(sorted) == multiset(keys)
    ensures multiset(Reordered(row, index, sorted)) == multiset(row)
    ensures NearSimplex(Reordered(row, index, sorted), DEFAULT_TOLERANCE) <==> NearSimplex(row, DEFAULT_TOLERANCE)
  {
    var pick := key => Picked(row, index, key);
    MapKeepsMultiset(sorted, keys, pick);
    assert MapSeq(keys, pick) == row;
    var r := Reordered(row, index, sorted);
    assert r == MapSeq(sorted, pick);
    if NearSimplex(r, DEFAULT_TOLERANCE) {
      NearSimplexIgnoresOrder(r, row, DEFAULT_TOLERANCE);
    } else if NearSimplex(row, DEFAULT_TOLERANCE) {
      NearSimplexIgnoresOrder(row, r, DEFAULT_TOLERANCE);
    }
  }

  ghost predicate RowsAcceptable(data: Mat, k: nat) {
    |data| == k && forall i :: 0 <= i < k ==> |data[i]| == k && NearSimplex(data[i], 0.000000001)
  }

  lemma RowAccepted(data: Mat, index: map<string, nat>, keys: seq<string>, sorted: seq<string>, i: nat)
    requires Indexes(index, keys) && |data| == |keys| && multiset(sorted) == multiset(keys) && i < |sorted|
    ensures sorted[i] in index && index[sorted[i]] < |data|
    ensures var row := data[index[sorted[i]]]; |row| == |keys| ==>
      (NearSimplex(Reordered(row, index, sorted), DEFAULT_TOLERANCE) <==> NearSimplex(row, DEFAULT_TOLERANCE))
  {
    PermutationKeepsElements(sorted, keys);
    assert sorted[i] in keys;
    var row := data[index[sorted[i]]];
    if |row| == |keys| {
      ReorderingPermutes(row, index, keys, sorted);
    }
  }

  /** row is the original row of the i-th sorted key, reordered. */
  ghost predicate RowMoved(row: Vec, data: Mat, index: map<string, nat>, sorted: seq<string>, i: nat) {
    && i < |sorted| && sorted[i] in index && index[sorted[i]] < |data|
    && row == Reordered(data[index[sorted[i]]], index, sorted)
  }

  /** Row i, in sorted order, is the first that is refused: for its length, or else for not being a distribution. */
  ghost predicate RefusedAt(data: Mat, index: map<string, nat>, sorted: seq<string>, i: nat, e: TransitionError) {
    && i < |sorted| && (forall k :: 0 <= k <= i ==> sorted[k] in index && index[sorted[k]] < |data|)
    && (forall k :: 0 <= k < i ==> RowOk(data[index[sorted[k]]], |sorted|))
    && RowRefused(data[index[sorted[i]]], |sorted|, sorted[i], e)
  }

  ghost predicate RowOk(row: Vec, n: nat) {
    |row| == n && NearSimplex(row, DEFAULT_TOLERANCE)
  }

  ghost predicate RowRefused(row: Vec, n: nat, key: string, e: TransitionError) {
    if |row| != n then e == TransitionError.DimensionMismatch
    else !NearSimplex(row, DEFAULT_TOLERANCE) && e.RowNotOnSimplex? && e.key == key
  }

  /** State p has the first row, in the order of the states' names, that is refused. */
  ghost predicate FirstRefused(keys: seq<string>, data: Mat, p: nat, e: TransitionError) {
    && p < |keys| == |data| && RowRefused(data[p], |keys|, keys[p], e)
    && forall q :: 0 <= q < |keys| && IdLess(keys[q], keys[p]) ==> RowOk(data[q], |keys|)
  }

  lemma RefusedByName(keys: seq<string>, index: map<string, nat>, sorted: seq<string>, data: Mat, i: nat,
                      e: TransitionError)
    requires Indexes(index, keys) && |data| == |keys| && multiset(sorted) == multiset(keys) && Sorted(sorted, IdLess)
    requires RefusedAt(data, index, sorted, i, e)
    ensures sorted[i] in index && FirstRefused(keys, data, index[sorted[i]], e)
  {
    PermutationKeepsElements(sorted, keys);
    IdOrder();
    forall q | 0 <= q < |keys| && IdLess(keys[q], sorted[i])
      ensures RowOk(data[q], |keys|)
    {
      assert keys[q] in sorted;
      var k :| 0 <= k < |sorted| && sorted[k] == keys[q];
      assert k < i;
    }
  }

  method ReorderRows(keys: seq<string>, index: map<string, nat>, sorted: seq<string>, data: Mat)
    returns (r: Result<Mat, TransitionError>)
    requires Indexes(index, keys) && |data| == |keys| && multiset(sorted) == multiset(keys)
    ensures r.Ok? <==> RowsAcceptable(data, |keys|)
    ensures r.Ok? ==> Square(r.value, |keys|)
    ensures r.Ok? ==> forall i :: 0 <= i < |r.value| ==>
      RowMoved(r.value[i], data, index, sorted, i) && NearSimplex(r.value[i], DEFAULT_TOLERANCE)
    ensures r.Err? ==> exists i :: RefusedAt(data, index, sorted, i, r.error)
  {
    PermutationKeepsElements(sorted, keys);
    var rows: Mat := [];
    var i := 0;
    while i < |sorted|
      invariant 0 <= i <= |sorted| == |keys| && |rows| == i
      invariant forall k :: 0 <= k < i ==> sorted[k] in index && index[sorted[k]] < |data|
      invariant forall k :: 0 <= k < i ==> |rows[k]| == |keys| && NearSimplex(rows[k], DEFAULT_TOLERANCE)
      invariant forall k :: 0 <= k < i ==> RowMoved(rows[k], data, index, sorted, k)
      invariant forall k :: 0 <= k < i ==>
        |data[index[sorted[k]]]| == |keys| && NearSimplex(data[index[sorted[k]]], DEFAULT_TOLERANCE)
    {
      RowAccepted(data, index, keys, sorted, i);
      var row := data[index[sorted[i]]];
      if |row| != |keys| {
        assert RefusedAt(data, index, sorted, i, TransitionError.DimensionMismatch);
        return Err(TransitionError.DimensionMismatch);
      }
      var canonical := Reordered(row, index, sorted);
      var invalid := ValidateSimplex(canonical, DEFAULT_TOLERANCE);
      if invalid.Some? {
        assert RefusedAt(data, index, sorted, i, RowNotOnSimplex(sorted[i], invalid.value));
        return Err(RowNotOnSimplex(sorted[i], invalid.value));
      }
      rows := rows + [canonical];
      i := i + 1;
    }
    AllRowsVisited(data, index, keys, sorted);
    return Ok(rows);
  }

  lemma AllRowsVisited(data: Mat, index: map<string, nat>, keys: seq<string>, sorted: seq<string>)
    requires Indexes(index, keys) && |data| == |keys| && multiset(sorted) == multiset(keys)
    requires forall k :: 0 <= k < |sorted| ==> sorted[k] in index && index[sorted[k]] < |data|
    requires forall k :: 0 <= k < |sorted| ==>
      |data[index[sorted[k]]]| == |keys| && NearSimplex(data[index[sorted[k]]], DEFAULT_TOLERANCE)
    ensures RowsAcceptable(data, |keys|)
  {
    PermutationKeepsElements(sorted, keys);
    forall i | 0 <= i < |keys|
      ensures |data[i]| == |keys| && NearSimplex(data[i], DEFAULT_TOLERANCE)
    {
      assert keys[i] in sorted;
      var k :| 0 <= k < |sorted| && sorted[k] == keys[i];
      assert index[sorted[k]] == i;
    }
  }

  /** The stored matrix says what the caller's rows said, state by state. */
  ghost predicate Represents(t: TransitionMatrix, keys: seq<string>, data: Mat)
    requires Square(data, |keys|)
  {
    forall i, j :: 0 <= i < |keys| && 0 <= j < |keys| ==> t.At(keys[i], keys[j]) == Some(data[i][j])
  }

  lemma MovedRowsRepresent(t: TransitionMatrix, keys: seq<string>, index: map<string, nat>, data: Mat)
    requires ValidTransition(t) && Indexes(index, keys) && Square(data, |keys|) && multiset(t.keys) == multiset(keys)
    requires forall i :: 0 <= i < |t.rows| ==> RowMoved(t.rows[i], data, index, t.keys, i)
    ensures Represents(t, keys, data)
  {
    PermutationKeepsElements(t.keys, keys);
    forall i, j | 0 <= i < |keys| && 0 <= j < |keys|
      ensures t.At(keys[i], keys[j]) == Some(data[i][j])
    {
      assert keys[i] in t.keys && keys[j] in t.keys;
      var r, c := t.index[keys[i]], t.index[keys[j]];
      assert RowMoved(t.rows[r], data, index, t.keys, r);
      assert t.rows[r][c] == Picked(data[i], index, keys[j]);
    }
  }

  /** Validates a transition matrix and puts its rows and columns in canonical key order. */
  method NewTransitionMatrix(keys: seq<string>, data: Mat) returns (r: Result<TransitionMatrix, TransitionError>)
    ensures r == Err(TransitionError.NoStates) <==> keys == []
    ensures keys != [] && |data| != |keys| ==> r == Err(TransitionError.DimensionMismatch)
    ensures keys != [] && |data| == |keys| ==> ((r.Err? && r.error.DuplicateState?) <==> !Distinct(keys))
    ensures r.Ok? <==> keys != [] && Distinct(keys) && RowsAcceptable(data, |keys|)
    ensures r.Err? && keys != [] && |data| == |keys| && Distinct(keys) ==>
      exists p :: FirstRefused(keys, data, p, r.error)
    ensures r.Ok? ==>
      ValidTransition(r.value) && multiset(r.value.keys) == multiset(keys) && Represents(r.value, keys, data)
  {
    if |keys| == 0 {
      return Err(TransitionError.NoStates);
    }
    if |data| != |keys| {
      return Err(TransitionError.DimensionMismatch);
    }
    IdOrder();
    var sorted := Sort(keys, IdLess);
    PermutationKeepsElements(sorted, keys);
    var origIndex := IndexKeys(keys);
    if origIndex.Err? {
      return Err(DuplicateState(origIndex.error));
    }
    var canonicalIndex := IndexKeys(sorted);
    var rows := ReorderRows(keys, origIndex.value, sorted, data);
    if rows.Err? {
      ghost var i :| RefusedAt(data, origIndex.value, sorted, i, rows.error);
      RefusedByName(keys, origIndex.value, sorted, data, i, rows.error);
      return Err(rows.error);
    }
    var t := TransitionMatrix(sorted, canonicalIndex.value, rows.value);
    MovedRowsRepresent(t, keys, origIndex.value, data);
    return Ok(t);
  }

  /** Matrices that say the same are the same: the listing order of the states leaves no trace. */
  lemma RepresentationIsCanonical(t: TransitionMatrix, s: TransitionMatrix)
    requires ValidTransition(t) && ValidTransition(s) && multiset(t.keys) == multiset(s.keys)
    requires forall a, b :: a in t.keys && b in t.keys ==> t.At(a, b) == s.At(a, b)
    ensures t == s
  {
    SortedKeysAreUnique(t.keys, s.keys);
    forall i | 0 <= i < |t.rows|
      ensures t.rows[i] == s.rows[i]
    {
      forall j | 0 <= j < |t.rows[i]|
        ensures t.rows[i][j] == s.rows[i][j]
      {
        assert t.At(t.keys[i], t.keys[j]) == s.At(t.keys[i], t.keys[j]);
      }
    }
    IndexIsDetermined(t.index, s.index, t.keys);
  }

  // ---- Prediction ----

  /** Mass arriving in state j: the prior weighted by column j. */
  ghost function Flow(a: Mat, prior: Vec, j: nat): real
    requires Square(a, |prior|) && j < |prior|
  {
    Dot(prior, Column(a, j, |prior|), |prior|)
  }

  ghost function Flows(a: Mat, prior: Vec): (p: Vec)
    requires Square(a, |prior|)
    ensures |p| == |prior| && forall j :: 0 <= j < |p| ==> p[j] == Flow(a, prior, j)
  {
    seq(|prior|, j requires 0 <= j < |prior| => Flow(a, prior, j))
  }

  method ColumnTerms(a: Mat, prior: Vec, j: nat) returns (terms: Vec)
    requires Square(a, |prior|) && j < |prior|
    ensures |terms| == |prior| && Sum(terms) == Flow(a, prior, j)
    ensures terms == Products(prior, Column(a, j, |prior|))
  {
    terms := [];
    var i := 0;
    while i < |prior|
      invariant 0 <= i <= |prior| && |terms| == i
      invariant forall k :: 0 <= k < i ==> terms[k] == Product(prior[k], a[k][j])
    {
      terms := terms + [Product(prior[i], a[i][j])];
      i := i + 1;
    }
    assert terms == Products(prior, Column(a, j, |prior|));
    DotIsSum(prior, Column(a, j, |prior|), |prior|);
  }

  /** The forward step of the chain; a prior of another length is refused by a panic. */
  method Predict(t: TransitionMatrix, prior: Vec) returns (predicted: Vec)
    requires ValidTransition(t) && |prior| == t.Dimension()
    ensures predicted == Flows(t.rows, prior)
    ensures forall j :: 0 <= j < |prior| ==> predicted[j] == Sum(Products(prior, Column(t.rows, j, |prior|)))
  {
    predicted := [];
    var j := 0;
    while j < |prior|
      invariant 0 <= j <= |prior| && |predicted| == j
      invariant forall k :: 0 <= k < j ==> predicted[k] == Flow(t.rows, prior, k)
      invariant forall k :: 0 <= k < j ==> predicted[k] == Sum(Products(prior, Column(t.rows, k, |prior|)))
    {
      var terms := ColumnTerms(t.rows, prior, j);
      var mass := CompensatedSum(terms);
      predicted := predicted + [mass];
      j := j + 1;
    }
  }

  lemma LastColumn(a: Mat, y: Vec, z': Vec, z: Vec, k: nat)
    requires Square(a, |y|) && |z'| == |z| == |y| && 0 < k <= |y|
    requires forall i :: 0 <= i < |y| ==> z'[i] == Dot(a[i], y, k - 1) && z[i] == Dot(a[i], y, k)
    ensures forall i :: 0 <= i < |y| ==> z[i] == z'[i] + y[k - 1] * Column(a, k - 1, |y|)[i]
  {
    forall i | 0 <= i < |y|
      ensures z[i] == z'[i] + y[k - 1] * a[i][k - 1]
    {
      DotNext(a[i], y, k);
    }
  }

  lemma DotNext(x: Vec, y: Vec, k: nat)
    requires 0 < k <= |x| && k <= |y|
    ensures Dot(x, y, k) == Dot(x, y, k - 1) + Product(y[k - 1], x[k - 1])
  {
  }

  /** Reading the matrix forwards or backwards gives the same total: (a^T x) . y == x . (a y), over the first k
      columns. */
  lemma {:induction false} FlowExchange(a: Mat, x: Vec, y: Vec, z: Vec, k: nat)
    requires Square(a, |x|) && |y| == |z| == |x| && k <= |x|
    requires forall i :: 0 <= i < |x| ==> z[i] == Dot(a[i], y, k)
    ensures Dot(Flows(a, x), y, k) == Dot(x, z, |x|)
    decreases k
  {
    var n := |x|;
    if k == 0 {
      DotSymmetric(x, z, n);
      DotZero(z, x, n);
    } else {
      var z' := seq(n, i requires 0 <= i < n => Dot(a[i], y, k - 1));
      FlowExchange(a, x, y, z', k - 1);
      LastColumn(a, y, z', z, k);
      DotCombine(x, z', Column(a, k - 1, n), z, y[k - 1], n);
      DotNext(Flows(a, x), y, k);
    }
  }

  lemma {:induction false} FlowIsTranspose(a: Mat, x: Vec, y: Vec)
    requires Square(a, |x|) && |y| == |x|
    ensures Dot(Flows(a, x), y, |x|) == Dot(x, Apply(a, y, |x|), |x|)
  {
    FlowExchange(a, x, y, Apply(a, y, |x|), |x|);
  }

  lemma {:induction false} DotWithOnes(x: Vec, ones: Vec, k: nat)
    requires k <= |x| && k <= |ones| && forall i :: 0 <= i < k ==> ones[i] == 1.0
    ensures Dot(x, ones, k) == SumTo(x, k)
  {
    if k > 0 {
      DotWithOnes(x, ones, k - 1);
    }
  }

  lemma {:induction false} DotNonNegative(x: Vec, y: Vec, k: nat)
    requires k <= |x| && k <= |y| && forall i :: 0 <= i < k ==> x[i] >= 0.0 && y[i] >= 0.0
    ensures Dot(x, y, k) >= 0.0
  {
    if k > 0 {
      DotNonNegative(x, y, k - 1);
    }
  }

  /** With exactly stochastic rows, prediction maps distributions to distributions. */
  lemma PredictionKeepsSimplex(a: Mat, prior: Vec)
    requires Square(a, |prior|) && OnSimplex(prior) && forall i :: 0 <= i < |a| ==> OnSimplex(a[i])
    ensures OnSimplex(Flows(a, prior))
  {
    var n := |prior|;
    var ones := seq(n, _ => 1.0);
    FlowIsTranspose(a, prior, ones);
    forall i | 0 <= i < n
      ensures Apply(a, ones, n)[i] == 1.0
    {
      DotWithOnes(a[i], ones, n);
    }
    DotWithOnes(prior, Apply(a, ones, n), n);
    DotWithOnes(Flows(a, prior), ones, n);
    forall j | 0 <= j < n
      ensures Flow(a, prior, j) >= 0.0
    {
      DotNonNegative(prior, Column(a, j, n), n);
    }
  }

  // ---- Rows within tolerance ----

  ghost function Sizes(x: Vec): (s: Vec)
    ensures |s| == |x| && forall i :: 0 <= i < |x| ==> s[i] == Abs(x[i])
  {
    seq(|x|, i requires 0 <= i < |x| => Abs(x[i]))
  }

  lemma SmallShare(x: real, w: real, slack: real)
    requires 1.0 - slack <= w <= 1.0 + slack
    ensures -(slack * Abs(x)) <= x * w - x <= slack * Abs(x)
  {
    assert x * w - x == (w - 1.0) * x;
    if x >= 0.0 {
      ScaledOrder(w - 1.0, slack, x);
      ScaledOrder(-slack, w - 1.0, x);
    } else {
      ScaledOrder(w - 1.0, slack, -x);
      ScaledOrder(-slack, w - 1.0, -x);
    }
  }

  lemma SplitProduct(c: real, x: real, y: real)
    ensures Product(c, x + y) == Product(c, x) + c * y
  {
  }

  /** total differs from sum by no more than a share of the size. */
  ghost predicate Near(total: real, sum: real, size: real, slack: real) {
    -Product(slack, size) <= total - sum <= Product(slack, size)
  }

  /** One more term x with weight w keeps them near. */
  lemma OneMoreShare(total: real, sum: real, size: real, x: real, w: real, slack: real)
    requires 1.0 - slack <= w <= 1.0 + slack && Near(total, sum, size, slack)
    ensures Near(total + x * w, sum + x, size + Abs(x), slack)
  {
    SmallShare(x, w, slack);
    SplitProduct(slack, size, Abs(x));
  }

  /** Weights near one give a total near the sum. */
  lemma {:induction false} WeightsNearOne(x: Vec, w: Vec, slack: real, k: nat)
    requires k <= |x| == |w| && forall i :: 0 <= i < |w| ==> 1.0 - slack <= w[i] <= 1.0 + slack
    ensures Near(Dot(x, w, k), SumTo(x, k), SumTo(Sizes(x), k), slack)
  {
    if k > 0 {
      WeightsNearOne(x, w, slack, k - 1);
      OneMoreShare(Dot(x, w, k - 1), SumTo(x, k - 1), SumTo(Sizes(x), k - 1), x[k - 1], w[k - 1], slack);
    }
  }

  /** Weights above a small loss give a total above that loss. */
  lemma {:induction false} WeightsAboveLoss(x: Vec, w: Vec, loss: real, k: nat)
    requires k <= |x| == |w| && NonNegative(x) && forall i :: 0 <= i < |w| ==> w[i] >= -loss
    ensures Dot(x, w, k) >= -Product(loss, SumTo(x, k))
  {
    if k > 0 {
      WeightsAboveLoss(x, w, loss, k - 1);
      ScaledOrder(-loss, w[k - 1], x[k - 1]);
      SplitProduct(loss, SumTo(x, k - 1), x[k - 1]);
    }
  }

  /** With rows that are stochastic up to a tolerance, prediction changes the total of any vector by no more than that
      share of its mass, and makes no entry of a distribution more negative than the entries of the matrix may be. */
  lemma PredictionStaysNear(a: Mat, prior: Vec, epsilon: real)
    requires Square(a, |prior|) && forall i :: 0 <= i < |a| ==> NearSimplex(a[i], epsilon)
    ensures Near(Sum(Flows(a, prior)), Sum(prior), Sum(Sizes(prior)), Tolerance(epsilon))
    ensures NonNegative(prior) ==>
      forall j :: 0 <= j < |prior| ==> Flows(a, prior)[j] >= -Product(JITTER, Sum(prior))
  {
    var n := |prior|;
    var ones := seq(n, _ => 1.0);
    FlowIsTranspose(a, prior, ones);
    forall i | 0 <= i < n
      ensures Apply(a, ones, n)[i] == Sum(a[i])
    {
      DotWithOnes(a[i], ones, n);
    }
    WeightsNearOne(prior, Apply(a, ones, n), Tolerance(epsilon), n);
    DotWithOnes(Flows(a, prior), ones, n);
    forall j | 0 <= j < n && NonNegative(prior)
      ensures Flow(a, prior, j) >= -Product(JITTER, Sum(prior))
    {
      WeightsAboveLoss(prior, Column(a, j, n), JITTER, n);
    }
  }

  lemma {:induction false} SameSizes(x: Vec, k: nat)
    requires k <= |x| && NonNegative(x)
    ensures SumTo(Sizes(x), k) == SumTo(x, k)
  {
    if k > 0 {
      SameSizes(x, k - 1);
    }
  }

  /** So an accepted matrix sends every distribution to what is accepted as one. */
  lemma PredictionIsAccepted(a: Mat, prior: Vec, epsilon: real)
    requires Square(a, |prior|) && OnSimplex(prior) && forall i :: 0 <= i < |a| ==> NearSimplex(a[i], epsilon)
    ensures NearSimplex(Flows(a, prior), epsilon)
  {
    PredictionStaysNear(a, prior, epsilon);
    SameSizes(prior, |prior|);
  }
}
