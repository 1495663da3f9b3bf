/** The payout matrix the exact matcher hands to the assignment solver, and the arc each entry stands for. */
module PayoutMatrix {
  import opened Wrappers
  import opened Pigeonhole
  import opened Keyed
  import opened RowMajor
  import opened Assignments
  import opened PartialAssignments
  import opened Dispatch

  function ScoreOf(evals: seq<CandidateEvaluation>, best: Option<nat>): real
    requires best.Some? ==> best.value < |evals|
  {
    match best
    case None => INFEASIBLE_SCORE_SENTINEL
    case Some(x) => evals[x].totalScore
  }

  /** First of the best-scoring arcs from driver d to load l among the first k; an arc must beat the sentinel. */
  ghost function Best(evals: seq<CandidateEvaluation>, k: nat, d: string, l: string): (best: Option<nat>)
    requires k <= |evals|
    ensures best.Some? ==> best.value < k && evals[best.value].driverID == d && evals[best.value].loadID == l
  {
    if k == 0 then None
    else
      var earlier := Best(evals, k - 1, d, l);
      var e := evals[k - 1];
      if e.driverID == d && e.loadID == l && e.totalScore > ScoreOf(evals, earlier) then Some(k - 1) else earlier
  }

  /** Best misses no arc of the pair, and returns one exactly when some arc beats the sentinel. */
  lemma {:induction false} BestIsBest(evals: seq<CandidateEvaluation>, k: nat, d: string, l: string)
    requires k <= |evals|
    ensures forall x :: 0 <= x < k && evals[x].driverID == d && evals[x].loadID == l ==>
      evals[x].totalScore <= ScoreOf(evals, Best(evals, k, d, l))
    ensures Best(evals, k, d, l).Some? ==> ScoreOf(evals, Best(evals, k, d, l)) > INFEASIBLE_SCORE_SENTINEL
  {
    if k > 0 {
      BestIsBest(evals, k - 1, d, l);
    }
  }

  lemma {:induction false} BestIsFirst(evals: seq<CandidateEvaluation>, k: nat, d: string, l: string)
    requires k <= |evals| && Best(evals, k, d, l).Some?
    ensures var best := Best(evals, k, d, l).value;
      forall x :: 0 <= x < best && evals[x].driverID == d && evals[x].loadID == l ==>
        evals[x].totalScore < evals[best].totalScore
  {
    BestIsBest(evals, k - 1, d, l);
    if Best(evals, k - 1, d, l) == Best(evals, k, d, l) {
      BestIsFirst(evals, k - 1, d, l);
    }
  }

  ghost function BestAt(evals: seq<CandidateEvaluation>, k: nat, drivers: seq<string>, loads: seq<string>, i: int,
                        j: int)
    : (best: Option<nat>)
    requires k <= |evals| && 0 <= i < |drivers| && 0 <= j < |loads|
    ensures best.Some? ==> best.value < k
  {
    Best(evals, k, drivers[i], loads[j])
  }

  /** entry is the best score of driver i and load j, and the index map knows which arc has it. */
  ghost predicate Cell(evals: seq<CandidateEvaluation>, k: nat, drivers: seq<string>, loads: seq<string>,
                       entry: real, arcAt: map<int, nat>, i: int, j: int)
    requires k <= |evals| && 0 <= i < |drivers| && 0 <= j < |loads|
  {
    var best := BestAt(evals, k, drivers, loads, i, j);
    && entry == ScoreOf(evals, best)
    && (best.Some? <==> Key(i, j, |loads|) in arcAt)
    && (best.Some? ==> arcAt[Key(i, j, |loads|)] == best.value)
  }

  ghost predicate Payout(evals: seq<CandidateEvaluation>, k: nat, drivers: seq<string>, loads: seq<string>,
                         matrix: Matrix, arcAt: map<int, nat>)
    requires k <= |evals|
  {
    && Rectangular(matrix, |drivers|, |loads|)
    && forall i, j :: 0 <= i < |drivers| && 0 <= j < |loads| ==>
         Cell(evals, k, drivers, loads, matrix[i][j], arcAt, i, j)
  }

  /** Each entry is -1e9 where no candidate of the pair scores above it, and otherwise the highest score of the pair;
      the index at i * columns + j is that of the first candidate with it. */
  lemma EntryIsHighestScore(evals: seq<CandidateEvaluation>, drivers: seq<string>, loads: seq<string>, matrix: Matrix,
                            arcAt: map<int, nat>, i: nat, j: nat)
    requires Payout(evals, |evals|, drivers, loads, matrix, arcAt) && i < |drivers| && j < |loads|
    ensures |matrix| == |drivers| && |matrix[i]| == |loads|
    ensures forall x :: 0 <= x < |evals| && evals[x].driverID == drivers[i] && evals[x].loadID == loads[j] ==>
      evals[x].totalScore <= matrix[i][j]
    ensures i * |loads| + j !in arcAt ==> matrix[i][j] == -1000000000.0
    ensures i * |loads| + j in arcAt ==>
      var best := arcAt[i * |loads| + j];
      && best < |evals| && evals[best].driverID == drivers[i] && evals[best].loadID == loads[j]
      && evals[best].totalScore == matrix[i][j] > -1000000000.0
      && forall x :: 0 <= x < best && evals[x].driverID == drivers[i] && evals[x].loadID == loads[j] ==>
           evals[x].totalScore < matrix[i][j]
  {
    KeyIsRowMajor(i, j, |loads|);
    assert Cell(evals, |evals|, drivers, loads, matrix[i][j], arcAt, i, j);
    BestIsBest(evals, |evals|, drivers[i], loads[j]);
    if BestAt(evals, |evals|, drivers, loads, i, j).Some? {
      BestIsFirst(evals, |evals|, drivers[i], loads[j]);
    }
  }

  lemma {:induction false} OtherCell(evals: seq<CandidateEvaluation>, k: nat, drivers: seq<string>, loads: seq<string>,
                                     entry: real, arcAt: map<int, nat>, i: nat, j: nat, a: nat, b: nat)
    requires k < |evals| && Distinct(drivers) && Distinct(loads)
    requires i < |drivers| && drivers[i] == evals[k].driverID && j < |loads| && loads[j] == evals[k].loadID
    requires a < |drivers| && b < |loads| && (a != i || b != j) && Cell(evals, k, drivers, loads, entry, arcAt, a, b)
    ensures Cell(evals, k + 1, drivers, loads, entry, arcAt, a, b)
    ensures Cell(evals, k + 1, drivers, loads, entry, arcAt[Key(i, j, |loads|) := k], a, b)
  {
    if Key(a, b, |loads|) == Key(i, j, |loads|) {
      KeysDiffer(a, b, i, j, |loads|);
    }
  }

  lemma {:induction false} OwnCell(evals: seq<CandidateEvaluation>, k: nat, drivers: seq<string>, loads: seq<string>,
                                   entry: real, arcAt: map<int, nat>, i: nat, j: nat)
    requires k < |evals|
    requires i < |drivers| && drivers[i] == evals[k].driverID && j < |loads| && loads[j] == evals[k].loadID
    requires Cell(evals, k, drivers, loads, entry, arcAt, i, j)
    ensures if evals[k].totalScore > entry
      then Cell(evals, k + 1, drivers, loads, evals[k].totalScore, arcAt[Key(i, j, |loads|) := k], i, j)
      else Cell(evals, k + 1, drivers, loads, entry, arcAt, i, j)
  {
  }

  lemma WorseArc(evals: seq<CandidateEvaluation>, k: nat, drivers: seq<string>, loads: seq<string>,
                   matrix: Matrix, arcAt: map<int, nat>, i: nat, j: nat)
    requires k < |evals| && Payout(evals, k, drivers, loads, matrix, arcAt) && Distinct(drivers) && Distinct(loads)
    requires i < |drivers| && drivers[i] == evals[k].driverID && j < |loads| && loads[j] == evals[k].loadID
    requires evals[k].totalScore <= matrix[i][j]
    ensures Payout(evals, k + 1, drivers, loads, matrix, arcAt)
  {
    forall a, b | 0 <= a < |drivers| && 0 <= b < |loads|
      ensures Cell(evals, k + 1, drivers, loads, matrix[a][b], arcAt, a, b)
    {
      assert Cell(evals, k, drivers, loads, matrix[a][b], arcAt, a, b);
      if a == i && b == j {
        OwnCell(evals, k, drivers, loads, matrix[a][b], arcAt, i, j);
      } else {
        OtherCell(evals, k, drivers, loads, matrix[a][b], arcAt, i, j, a, b);
      }
    }
  }

  /** matrix' is the matrix with one entry raised. */
  ghost predicate RaisedTo(matrix: Matrix, matrix': Matrix, rows: nat, cols: nat, i: nat, j: nat, score: real)
    requires Rectangular(matrix, rows, cols)
  {
    && Rectangular(matrix', rows, cols)
    && forall a, b :: 0 <= a < rows && 0 <= b < cols ==>
         matrix'[a][b] == if a == i && b == j then score else matrix[a][b]
  }

  lemma {:induction false} BetterArc(evals: seq<CandidateEvaluation>, k: nat, drivers: seq<string>, loads: seq<string>,
                                     matrix: Matrix, matrix': Matrix, arcAt: map<int, nat>, i: nat, j: nat)
    requires k < |evals| && Payout(evals, k, drivers, loads, matrix, arcAt) && Distinct(drivers) && Distinct(loads)
    requires i < |drivers| && drivers[i] == evals[k].driverID && j < |loads| && loads[j] == evals[k].loadID
    requires evals[k].totalScore > matrix[i][j]
    requires RaisedTo(matrix, matrix', |drivers|, |loads|, i, j, evals[k].totalScore)
    ensures Payout(evals, k + 1, drivers, loads, matrix', arcAt[Key(i, j, |loads|) := k])
  {
    forall a, b | 0 <= a < |drivers| && 0 <= b < |loads|
      ensures Cell(evals, k + 1, drivers, loads, matrix'[a][b], arcAt[Key(i, j, |loads|) := k], a, b)
    {
      assert Cell(evals, k, drivers, loads, matrix[a][b], arcAt, a, b);
      if a == i && b == j {
        OwnCell(evals, k, drivers, loads, matrix[a][b], arcAt, i, j);
      } else {
        OtherCell(evals, k, drivers, loads, matrix[a][b], arcAt, i, j, a, b);
      }
    }
  }

  method BuildPayout(evals: seq<CandidateEvaluation>, drivers: seq<string>, loads: seq<string>)
    returns (matrix: Matrix, arcAt: map<int, nat>)
    requires Distinct(drivers) && Distinct(loads)
    requires forall e :: e in evals ==> e.driverID in drivers && e.loadID in loads
    ensures Payout(evals, |evals|, drivers, loads, matrix, arcAt)
  {
    var driverIndex := IndexOf(drivers);
    var loadIndex := IndexOf(loads);
    OnlyPositions(driverIndex, drivers);
    OnlyPositions(loadIndex, loads);
    matrix := seq(|drivers|, _ => seq(|loads|, _ => INFEASIBLE_SCORE_SENTINEL));
    arcAt := map[];
    var k := 0;
    while k < |evals|
      invariant 0 <= k <= |evals|
      invariant Payout(evals, k, drivers, loads, matrix, arcAt)
    {
      var e := evals[k];
      assert e in evals;
      var i := driverIndex[e.driverID];
      var j := loadIndex[e.loadID];
      if e.totalScore > matrix[i][j] {
        var raised := matrix[i := matrix[i][j := e.totalScore]];
        assert RaisedTo(matrix, raised, |drivers|, |loads|, i, j, e.totalScore);
        BetterArc(evals, k, drivers, loads, matrix, raised, arcAt, i, j);
        matrix := raised;
        arcAt := arcAt[Key(i, j, |loads|) := k];
      } else {
        WorseArc(evals, k, drivers, loads, matrix, arcAt, i, j);
      }
      k := k + 1;
    }
  }
}
