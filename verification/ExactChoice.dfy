/** Which arcs the exact matcher commits, and how they compare with any other one-to-one selection. */
module ExactChoice {
  import opened Wrappers
  import opened Pigeonhole
  import opened RealSums
  import opened Assignments
  import opened PartialAssignments
  import opened Dispatch
  import opened PayoutMatrix
  import opened Lap

  /** A score that does not mark its arc as infeasible. */
  predicate Feasible(score: real) {
    score > INFEASIBLE_SCORE_SENTINEL + 1.0
  }

  /** An assigned pair becomes a match unless its score marks it infeasible or, when losses are barred, unprofitable. */
  predicate Passes(score: real, allowNegative: bool) {
    Feasible(score) && (allowNegative || score > 0.0)
  }

  ghost predicate FeasibleSelection(evals: seq<CandidateEvaluation>, chosen: seq<nat>) {
    && OneToOneSelection(evals, chosen)
    && forall x :: 0 <= x < |chosen| ==> Feasible(evals[chosen[x]].totalScore)
  }

  // ---- What is chosen ----

  /** What the first k steps add up to. */
  ghost function Collected(steps: seq<Option<nat>>, k: nat): seq<nat>
    requires k <= |steps|
  {
    if k == 0 then []
    else if steps[k - 1].Some? then Collected(steps, k - 1) + [steps[k - 1].value]
    else Collected(steps, k - 1)
  }

  /** The rows the collected arcs come from. */
  ghost function Taking(steps: seq<Option<nat>>, k: nat): (rows: seq<nat>)
    requires k <= |steps|
    ensures |rows| == |Collected(steps, k)|
    ensures forall x :: 0 <= x < |rows| ==> rows[x] < k && steps[rows[x]] == Some(Collected(steps, k)[x])
    ensures forall x, y :: 0 <= x < y < |rows| ==> rows[x] < rows[y]
    ensures forall r :: 0 <= r < k && steps[r].Some? ==> r in rows
  {
    if k == 0 then [] else if steps[k - 1].Some? then Taking(steps, k - 1) + [k - 1] else Taking(steps, k - 1)
  }

  /** The problem the solver works on, and the assignment it returned. */
  datatype Solved = Solved(evals: seq<CandidateEvaluation>, drivers: seq<string>, loads: seq<string>,
                           matrix: Matrix, arcAt: map<int, nat>, a: Assignment)
  {
    ghost predicate Valid() {
      && Distinct(drivers) && Distinct(loads)
      && (forall e :: e in evals ==> e.driverID in drivers && e.loadID in loads)
      && Payout(evals, |evals|, drivers, loads, matrix, arcAt)
      && OneToOne(a, |drivers|, |loads|)
    }

    ghost function Arc(r: nat): nat
      requires Valid() && r < |drivers| && a[r] != -1 && matrix[r][a[r]] > INFEASIBLE_SCORE_SENTINEL
      ensures Arc(r) < |evals|
      ensures evals[Arc(r)].driverID == drivers[r] && evals[Arc(r)].loadID == loads[a[r]]
      ensures evals[Arc(r)].totalScore == matrix[r][a[r]]
    {
      BestAt(evals, |evals|, drivers, loads, r, a[r]).value
    }

    /** The arc that row r contributes: none, or the best one of its pair. */
    ghost function Step(allowNegative: bool, r: nat): Option<nat>
      requires Valid() && r < |drivers|
    {
      if a[r] != -1 && Passes(matrix[r][a[r]], allowNegative) then Some(Arc(r)) else None
    }

    ghost function Steps(allowNegative: bool): (steps: seq<Option<nat>>)
      requires Valid()
      ensures |steps| == |drivers| && forall r :: 0 <= r < |steps| ==> steps[r] == Step(allowNegative, r)
    {
      seq(|drivers|, r requires 0 <= r < |drivers| => Step(allowNegative, r))
    }

    ghost function Chosen(allowNegative: bool): (chosen: seq<nat>)
      requires Valid()
      ensures Within(evals, chosen)
    {
      var rows := Taking(Steps(allowNegative), |drivers|);
      assert forall x :: 0 <= x < |rows| ==> Step(allowNegative, rows[x]).Some?;
      Collected(Steps(allowNegative), |drivers|)
    }
  }

  lemma ChosenIsOneToOne(s: Solved, allowNegative: bool)
    requires s.Valid()
    ensures OneToOneSelection(s.evals, s.Chosen(allowNegative))
  {
    var rows, chosen := Taking(s.Steps(allowNegative), |s.drivers|), s.Chosen(allowNegative);
    forall x, y | 0 <= x < y < |chosen|
      ensures s.evals[chosen[x]].driverID != s.evals[chosen[y]].driverID
      ensures s.evals[chosen[x]].loadID != s.evals[chosen[y]].loadID
    {
      assert s.Step(allowNegative, rows[x]) == Some(chosen[x]) && s.Step(allowNegative, rows[y]) == Some(chosen[y]);
      assert rows[x] < rows[y];
      assert s.a[rows[x]] != s.a[rows[y]];
    }
  }

  lemma ChosenPasses(s: Solved, allowNegative: bool)
    requires s.Valid()
    ensures FeasibleSelection(s.evals, s.Chosen(allowNegative))
    ensures forall x :: 0 <= x < |s.Chosen(allowNegative)| ==>
      Passes(s.evals[s.Chosen(allowNegative)[x]].totalScore, allowNegative)
  {
    ChosenIsOneToOne(s, allowNegative);
    var rows, chosen := Taking(s.Steps(allowNegative), |s.drivers|), s.Chosen(allowNegative);
    forall x | 0 <= x < |chosen|
      ensures Passes(s.evals[chosen[x]].totalScore, allowNegative)
    {
      assert s.Step(allowNegative, rows[x]) == Some(chosen[x]);
    }
  }

  /** The arc is the candidate of row r's pair. */
  ghost predicate ArcOfRow(s: Solved, full: Assignment, arc: nat, r: int)
    requires s.Valid() && OneToOne(full, |s.drivers|, |s.loads|) && arc < |s.evals|
  {
    && 0 <= r < |s.drivers| && full[r] != -1
    && s.evals[arc].driverID == s.drivers[r] && s.evals[arc].loadID == s.loads[full[r]]
    && s.evals[arc].totalScore == s.matrix[r][full[r]]
  }

  /** Row r has a pair, its score does not mark it infeasible and, with losses barred, is a gain. */
  ghost predicate RowPasses(s: Solved, allowNegative: bool, full: Assignment, r: int)
    requires s.Valid() && OneToOne(full, |s.drivers|, |s.loads|)
  {
    && 0 <= r < |s.drivers| && full[r] != -1
    && s.matrix[r][full[r]] > -999999999.0 && (allowNegative || s.matrix[r][full[r]] > 0.0)
  }

  lemma ChosenHasRow(s: Solved, allowNegative: bool, full: Assignment, x: nat)
    requires s.Valid() && OneToOne(full, |s.drivers|, |s.loads|) && s.a == Pruned(s.matrix, full, !allowNegative)
    requires x < |s.Chosen(allowNegative)|
    ensures s.Chosen(allowNegative)[x] < |s.evals|
    ensures exists r :: ArcOfRow(s, full, s.Chosen(allowNegative)[x], r)
  {
    var r := Taking(s.Steps(allowNegative), |s.drivers|)[x];
    assert s.Step(allowNegative, r) == Some(s.Chosen(allowNegative)[x]);
    assert full[r] == s.a[r];
    assert ArcOfRow(s, full, s.Chosen(allowNegative)[x], r);
  }

  lemma PassingRowIsChosen(s: Solved, allowNegative: bool, full: Assignment, r: nat)
    requires s.Valid() && OneToOne(full, |s.drivers|, |s.loads|) && s.a == Pruned(s.matrix, full, !allowNegative)
    requires RowPasses(s, allowNegative, full, r)
    ensures exists x :: 0 <= x < |s.Chosen(allowNegative)| && ArcOfRow(s, full, s.Chosen(allowNegative)[x], r)
  {
    var rows := Taking(s.Steps(allowNegative), |s.drivers|);
    assert s.Step(allowNegative, r) == Some(s.Arc(r));
    assert r in rows;
    var x :| 0 <= x < |rows| && rows[x] == r;
    assert s.Chosen(allowNegative)[x] == s.Arc(r);
    assert ArcOfRow(s, full, s.Chosen(allowNegative)[x], r);
  }

  /** What is chosen, row by row of the complete assignment: the pair's candidate, unless its score marks it infeasible
      or, with losses barred, is no gain. */
  lemma ChosenRowByRow(s: Solved, allowNegative: bool, full: Assignment)
    requires s.Valid() && OneToOne(full, |s.drivers|, |s.loads|) && s.a == Pruned(s.matrix, full, !allowNegative)
    ensures var chosen := s.Chosen(allowNegative);
      && (forall x :: 0 <= x < |chosen| ==> chosen[x] < |s.evals| && exists r :: ArcOfRow(s, full, chosen[x], r))
      && (forall x :: 0 <= x < |chosen| ==>
            s.evals[chosen[x]].totalScore > -999999999.0 && (allowNegative || s.evals[chosen[x]].totalScore > 0.0))
      && forall r :: RowPasses(s, allowNegative, full, r) ==>
           exists x :: 0 <= x < |chosen| && ArcOfRow(s, full, chosen[x], r)
  {
    var chosen := s.Chosen(allowNegative);
    ChosenPasses(s, allowNegative);
    forall x | 0 <= x < |chosen|
      ensures chosen[x] < |s.evals| && exists r :: ArcOfRow(s, full, chosen[x], r)
    {
      ChosenHasRow(s, allowNegative, full, x);
    }
    forall r | RowPasses(s, allowNegative, full, r)
      ensures exists x :: 0 <= x < |chosen| && ArcOfRow(s, full, chosen[x], r)
    {
      PassingRowIsChosen(s, allowNegative, full, r);
    }
  }

  // ---- What is chosen counts and totals ----

  /** The assignment without the pairs that do not pass. */
  ghost function Taken(matrix: Matrix, a: Assignment, allowNegative: bool): (b: Assignment)
    requires |a| == |matrix| && forall r :: 0 <= r < |a| ==> -1 <= a[r] < |matrix[r]|
    ensures |b| == |a| && forall r :: 0 <= r < |a| ==>
      b[r] == if a[r] != -1 && Passes(matrix[r][a[r]], allowNegative) then a[r] else -1
  {
    seq(|a|, r requires 0 <= r < |a| => if a[r] != -1 && Passes(matrix[r][a[r]], allowNegative) then a[r] else -1)
  }

  /** step is the arc of row r's pair. */
  ghost predicate Stands(evals: seq<CandidateEvaluation>, matrix: Matrix, b: Assignment, step: Option<nat>, r: nat)
    requires r < |b| == |matrix| && forall r :: 0 <= r < |b| ==> -1 <= b[r] < |matrix[r]|
  {
    match step
    case None => b[r] == -1
    case Some(i) => i < |evals| && b[r] != -1 && evals[i].totalScore == matrix[r][b[r]]
  }

  lemma {:induction false} CollectedTotals(evals: seq<CandidateEvaluation>, matrix: Matrix, steps: seq<Option<nat>>,
                                           b: Assignment, k: nat)
    requires k <= |b| == |matrix| == |steps| && forall r :: 0 <= r < |b| ==> -1 <= b[r] < |matrix[r]|
    requires forall r :: 0 <= r < |b| ==> Stands(evals, matrix, b, steps[r], r)
    ensures Within(evals, Collected(steps, k)) && |Collected(steps, k)| == MatchedTo(b, k)
    ensures ScoreSum(evals, Collected(steps, k)) == WeightTo(matrix, b, k)
  {
    if k > 0 {
      CollectedTotals(evals, matrix, steps, b, k - 1);
      assert Stands(evals, matrix, b, steps[k - 1], k - 1);
      if steps[k - 1].Some? {
        ScoreAppends(evals, Collected(steps, k - 1), steps[k - 1].value, Collected(steps, k));
      }
    }
  }

  lemma ChosenTotals(s: Solved, allowNegative: bool)
    requires s.Valid()
    ensures |s.Chosen(allowNegative)| == MatchedTo(Taken(s.matrix, s.a, allowNegative), |s.drivers|)
    ensures ScoreSum(s.evals, s.Chosen(allowNegative))
         == Weight(s.matrix, Taken(s.matrix, s.a, allowNegative))
  {
    var steps, taken := s.Steps(allowNegative), Taken(s.matrix, s.a, allowNegative);
    forall r | 0 <= r < |steps|
      ensures Stands(s.evals, s.matrix, taken, steps[r], r)
    {
      assert steps[r] == s.Step(allowNegative, r);
    }
    CollectedTotals(s.evals, s.matrix, steps, taken, |steps|);
  }

  lemma {:induction false} ScoreAppends(evals: seq<CandidateEvaluation>, before: seq<nat>, arc: nat, after: seq<nat>)
    requires Within(evals, before) && arc < |evals| && after == before + [arc]
    ensures |after| == |before| + 1 && Within(evals, after)
    ensures ScoreSum(evals, after) == ScoreSum(evals, before) + evals[arc].totalScore
  {
    SelectOneMore(evals, before, arc, 0);
  }

  /** Every pair of b carries an arc of the selection. */
  ghost predicate Carries(s: Solved, rival: seq<nat>, b: Assignment)
    requires s.Valid() && OneToOneSelection(s.evals, rival) && OneToOne(b, |s.drivers|, |s.loads|)
  {
    forall r :: 0 <= r < |b| && b[r] != -1 ==>
      exists x ::
        && 0 <= x < |rival| && s.evals[rival[x]].driverID == s.drivers[r]
        && s.evals[rival[x]].loadID == s.loads[b[r]]
  }

  lemma CarryOneMore(s: Solved, rival: seq<nat>, last: nat, b: Assignment, r: nat, c: nat)
    requires s.Valid() && OneToOneSelection(s.evals, rival + [last]) && OneToOneSelection(s.evals, rival)
    requires OneToOne(b, |s.drivers|, |s.loads|) && Carries(s, rival, b)
    requires last < |s.evals| && r < |s.drivers| && s.drivers[r] == s.evals[last].driverID
    requires c < |s.loads| && s.loads[c] == s.evals[last].loadID
    ensures b[r] == -1 && c !in Covered(b, |b|)
    ensures OneToOne(b[r := c], |s.drivers|, |s.loads|) && Carries(s, rival + [last], b[r := c])
  {
    var all := rival + [last];
    forall x | 0 <= x < |rival|
      ensures s.evals[rival[x]].driverID != s.drivers[r] && s.evals[rival[x]].loadID != s.loads[c]
    {
      assert all[x] == rival[x] && all[|rival|] == last;
    }
    AssignKeepsOneToOne(b, |s.drivers|, |s.loads|, r, c);
    forall r' | 0 <= r' < |b| && b[r := c][r'] != -1
      ensures exists x :: 0 <= x < |all| && s.evals[all[x]].driverID == s.drivers[r']
                          && s.evals[all[x]].loadID == s.loads[b[r := c][r']]
    {
      if r' == r {
        assert all[|rival|] == last;
      } else {
        var x :|
          && 0 <= x < |rival| && s.evals[rival[x]].driverID == s.drivers[r']
          && s.evals[rival[x]].loadID == s.loads[b[r']];
        assert all[x] == rival[x];
      }
    }
  }

  /** The matrix entry of a pair is at least the score of any of its arcs. */
  lemma EntryCoversArc(s: Solved, k: nat, r: nat, c: nat)
    requires s.Valid() && k < |s.evals|
    requires r < |s.drivers| && s.drivers[r] == s.evals[k].driverID && c < |s.loads| && s.loads[c] == s.evals[k].loadID
    ensures s.matrix[r][c] >= s.evals[k].totalScore
  {
    BestIsBest(s.evals, |s.evals|, s.drivers[r], s.loads[c]);
    assert Cell(s.evals, |s.evals|, s.drivers, s.loads, s.matrix[r][c], s.arcAt, r, c);
  }

  lemma AddArc(s: Solved, front: seq<nat>, last: nat, b0: Assignment, r: nat, c: nat)
    requires s.Valid() && Within(s.evals, front) && last < |s.evals|
    requires s.evals[last].totalScore > INFEASIBLE_SCORE_SENTINEL
    requires OneToOne(b0, |s.drivers|, |s.loads|) && OnlyCandidates(s.matrix, b0)
    requires MatchedTo(b0, |s.drivers|) == |front| && Weight(s.matrix, b0) >= ScoreSum(s.evals, front)
    requires r < |s.drivers| && s.drivers[r] == s.evals[last].driverID && b0[r] == -1
    requires c < |s.loads| && s.loads[c] == s.evals[last].loadID
    ensures OnlyCandidates(s.matrix, b0[r := c]) && MatchedTo(b0[r := c], |s.drivers|) == |front + [last]|
    ensures Weight(s.matrix, b0[r := c]) >= ScoreSum(s.evals, front + [last])
  {
    EntryCoversArc(s, last, r, c);
    WeightAssign(s.matrix, b0, r, c, |b0|);
    SelectOneMore(s.evals, front, last, 0);
  }

  /** A one-to-one selection, seen as an assignment of the payout matrix. */
  lemma {:induction false} SelectionAsAssignment(s: Solved, rival: seq<nat>) returns (b: Assignment)
    requires s.Valid() && FeasibleSelection(s.evals, rival)
    ensures OneToOne(b, |s.drivers|, |s.loads|) && OnlyCandidates(s.matrix, b) && Carries(s, rival, b)
    ensures MatchedTo(b, |s.drivers|) == |rival| && Weight(s.matrix, b) >= ScoreSum(s.evals, rival)
  {
    if rival == [] {
      b := seq(|s.drivers|, _ => -1);
      NothingMatched(s.matrix, b, |b|);
    } else {
      var front, last := rival[..|rival| - 1], rival[|rival| - 1];
      assert rival == front + [last] && FeasibleSelection(s.evals, front);
      assert Feasible(s.evals[last].totalScore);
      var b0 := SelectionAsAssignment(s, front);
      assert s.evals[last] in s.evals;
      var r :| 0 <= r < |s.drivers| && s.drivers[r] == s.evals[last].driverID;
      var c :| 0 <= c < |s.loads| && s.loads[c] == s.evals[last].loadID;
      CarryOneMore(s, front, last, b0, r, c);
      AddArc(s, front, last, b0, r, c);
      b := b0[r := c];
    }
  }

  lemma {:induction false} NothingMatched(matrix: Matrix, a: Assignment, k: nat)
    requires k <= |a| == |matrix| && forall r :: 0 <= r < |a| ==> a[r] == -1
    ensures WeightTo(matrix, a, k) == 0.0 && MatchedTo(a, k) == 0
  {
    if k > 0 {
      NothingMatched(matrix, a, k - 1);
    }
  }

  // ---- Largest first, then best, then what passes ----

  ghost function DriverIds(evals: seq<CandidateEvaluation>): set<string> {
    set e | e in evals :: e.driverID
  }

  ghost function LoadIds(evals: seq<CandidateEvaluation>): set<string> {
    set e | e in evals :: e.loadID
  }

  /** Every score marks its arc as infeasible or lies between lowest and top, and a full matching of score ranges stays
      below one sentinel. */
  ghost predicate ScoresInRange(evals: seq<CandidateEvaluation>, lowest: real, top: real) {
    && (forall e :: e in evals ==> e.totalScore <= INFEASIBLE_SCORE_SENTINEL || lowest <= e.totalScore <= top)
    && Feasible(lowest) && lowest <= 0.0 <= top
    && Times(ShorterSide(|DriverIds(evals)|, |LoadIds(evals)|), top - lowest) < -INFEASIBLE_SCORE_SENTINEL
  }

  /** Every pair is feasible or no candidate at all. */
  ghost predicate FeasibleOrSentinel(matrix: Matrix, rows: nat, cols: nat) {
    && Rectangular(matrix, rows, cols)
    && forall i, j :: 0 <= i < rows && 0 <= j < cols ==>
         matrix[i][j] == INFEASIBLE_SCORE_SENTINEL || Feasible(matrix[i][j])
  }

  lemma TakenIsKept(matrix: Matrix, a: Assignment, rows: nat, cols: nat)
    requires FeasibleOrSentinel(matrix, rows, cols) && OneToOne(a, rows, cols)
    ensures Taken(matrix, a, true) == Kept(matrix, a)
  {
    forall r | 0 <= r < rows
      ensures Taken(matrix, a, true)[r] == Kept(matrix, a)[r]
    {
      assert a[r] != -1 ==> matrix[r][a[r]] == INFEASIBLE_SCORE_SENTINEL || Feasible(matrix[r][a[r]]);
    }
  }

  lemma MatrixIsSentinelMatrix(s: Solved, lowest: real, top: real)
    requires s.Valid() && s.evals != [] && |s.drivers| == |DriverIds(s.evals)| && |s.loads| == |LoadIds(s.evals)|
    requires ScoresInRange(s.evals, lowest, top)
    ensures SentinelMatrix(s.matrix, |s.drivers|, |s.loads|, lowest, top)
    ensures FeasibleOrSentinel(s.matrix, |s.drivers|, |s.loads|)
  {
    forall i, j | 0 <= i < |s.drivers| && 0 <= j < |s.loads|
      ensures s.matrix[i][j] == INFEASIBLE_SCORE_SENTINEL
           || (Feasible(s.matrix[i][j]) && lowest <= s.matrix[i][j] <= top)
    {
      assert Cell(s.evals, |s.evals|, s.drivers, s.loads, s.matrix[i][j], s.arcAt, i, j);
      BestIsBest(s.evals, |s.evals|, s.drivers[i], s.loads[j]);
      var best := BestAt(s.evals, |s.evals|, s.drivers, s.loads, i, j);
      if best.Some? {
        assert s.evals[best.value] in s.evals;
      }
    }
  }

  /** chosen is a largest one-to-one selection of feasible arcs, and of the largest ones a best-scoring one. */
  ghost predicate LargestThenBest(evals: seq<CandidateEvaluation>, chosen: seq<nat>)
    requires FeasibleSelection(evals, chosen)
  {
    forall rival :: FeasibleSelection(evals, rival) ==>
      |rival| <= |chosen| && (|rival| == |chosen| ==> ScoreSum(evals, rival) <= ScoreSum(evals, chosen))
  }

  lemma {:induction false} RivalLoses(s: Solved, lowest: real, top: real, rival: seq<nat>)
    requires s.Valid() && SentinelMatrix(s.matrix, |s.drivers|, |s.loads|, lowest, top)
    requires Optimal(s.matrix, |s.drivers|, |s.loads|, true, s.a) && FeasibleSelection(s.evals, rival)
    ensures |rival| <= MatchedTo(Kept(s.matrix, s.a), |s.drivers|)
    ensures |rival| == MatchedTo(Kept(s.matrix, s.a), |s.drivers|) ==>
      ScoreSum(s.evals, rival) <= Weight(s.matrix, Kept(s.matrix, s.a))
  {
    var b := SelectionAsAssignment(s, rival);
    LexicographicOptimum(s.matrix, |s.drivers|, |s.loads|, lowest, top, s.a, b);
  }

  /** Before anything is filtered, the feasible arcs of a best complete assignment are largest, then best. */
  lemma FeasibleIsLargestThenBest(s: Solved, lowest: real, top: real)
    requires s.Valid() && s.evals != [] && |s.drivers| == |DriverIds(s.evals)| && |s.loads| == |LoadIds(s.evals)|
    requires ScoresInRange(s.evals, lowest, top) && Optimal(s.matrix, |s.drivers|, |s.loads|, true, s.a)
    ensures FeasibleSelection(s.evals, s.Chosen(true))
    ensures LargestThenBest(s.evals, s.Chosen(true))
  {
    ChosenPasses(s, true);
    MatrixIsSentinelMatrix(s, lowest, top);
    ChosenTotals(s, true);
    assert Taken(s.matrix, s.a, true) == Kept(s.matrix, s.a) by {
      TakenIsKept(s.matrix, s.a, |s.drivers|, |s.loads|);
    }
    forall rival | FeasibleSelection(s.evals, rival)
      ensures var chosen := s.Chosen(true);
        |rival| <= |chosen| && (|rival| == |chosen| ==> ScoreSum(s.evals, rival) <= ScoreSum(s.evals, chosen))
    {
      RivalLoses(s, lowest, top, rival);
    }
  }

  /** The arcs of a selection that pass the filter. */
  ghost function Passing(evals: seq<CandidateEvaluation>, chosen: seq<nat>, allowNegative: bool): (part: seq<nat>)
    requires Within(evals, chosen)
    ensures Within(evals, part) && |part| <= |chosen|
  {
    if chosen == [] then []
    else
      var front, last := Passing(evals, chosen[..|chosen| - 1], allowNegative), chosen[|chosen| - 1];
      if Passes(evals[last].totalScore, allowNegative) then front + [last] else front
  }

  lemma {:induction false} PassingAppends(evals: seq<CandidateEvaluation>, before: seq<nat>, arc: nat,
                                          allowNegative: bool)
    requires Within(evals, before) && arc < |evals|
    ensures Passing(evals, before + [arc], allowNegative) ==
      if Passes(evals[arc].totalScore, allowNegative)
      then Passing(evals, before, allowNegative) + [arc] else Passing(evals, before, allowNegative)
  {
    assert (before + [arc])[..|before|] == before;
  }

  /** step' is what the filter leaves of step. */
  ghost predicate PassesOn(evals: seq<CandidateEvaluation>, step: Option<nat>, step': Option<nat>, allowNegative: bool)
    requires step.Some? ==> step.value < |evals|
  {
    step' == if step.Some? && Passes(evals[step.value].totalScore, allowNegative) then step else None
  }

  lemma {:induction false} CollectedPasses(evals: seq<CandidateEvaluation>, steps: seq<Option<nat>>,
                                           steps': seq<Option<nat>>, allowNegative: bool, k: nat)
    requires k <= |steps| == |steps'| && forall r :: 0 <= r < |steps| && steps[r].Some? ==> steps[r].value < |evals|
    requires forall r :: 0 <= r < |steps| ==> PassesOn(evals, steps[r], steps'[r], allowNegative)
    ensures Within(evals, Collected(steps, k))
    ensures Collected(steps', k) == Passing(evals, Collected(steps, k), allowNegative)
  {
    if k > 0 {
      CollectedPasses(evals, steps, steps', allowNegative, k - 1);
      assert PassesOn(evals, steps[k - 1], steps'[k - 1], allowNegative);
      if steps[k - 1].Some? {
        PassingAppends(evals, Collected(steps, k - 1), steps[k - 1].value, allowNegative);
      }
    }
  }

  /** Pruning and filtering leave the passing arcs of the whole assignment. */
  lemma {:induction false} ChosenIsPassing(s: Solved, whole: Solved, allowNegative: bool)
    requires s.Valid() && whole.Valid() && whole == s.(a := whole.a)
    requires s.a == Pruned(s.matrix, whole.a, !allowNegative)
    ensures s.Chosen(allowNegative) == Passing(s.evals, whole.Chosen(true), allowNegative)
  {
    var steps, steps' := whole.Steps(true), s.Steps(allowNegative);
    forall r | 0 <= r < |steps|
      ensures (steps[r].Some? ==> steps[r].value < |s.evals|) && PassesOn(s.evals, steps[r], steps'[r], allowNegative)
    {
      assert steps[r] == whole.Step(true, r) && steps'[r] == s.Step(allowNegative, r);
    }
    CollectedPasses(s.evals, steps, steps', allowNegative, |steps|);
  }

  /** chosen is what passes of a selection that is largest, then best. */
  ghost predicate PassingPart(evals: seq<CandidateEvaluation>, allowNegative: bool, largest: seq<nat>, chosen: seq<nat>)
  {
    && FeasibleSelection(evals, largest) && LargestThenBest(evals, largest)
    && chosen == Passing(evals, largest, allowNegative)
  }

  /** With scores of any sign in range, the matcher commits what passes of a selection that is largest, then best. */
  lemma ChosenIsPassingPart(s: Solved, allowNegative: bool, full: Assignment, lowest: real, top: real)
    requires s.Valid() && s.evals != [] && |s.drivers| == |DriverIds(s.evals)| && |s.loads| == |LoadIds(s.evals)|
    requires ScoresInRange(s.evals, lowest, top)
    requires Optimal(s.matrix, |s.drivers|, |s.loads|, true, full) && s.a == Pruned(s.matrix, full, !allowNegative)
    ensures exists largest :: PassingPart(s.evals, allowNegative, largest, s.Chosen(allowNegative))
  {
    var whole := s.(a := full);
    FeasibleIsLargestThenBest(whole, lowest, top);
    ChosenIsPassing(s, whole, allowNegative);
    assert PassingPart(s.evals, allowNegative, whole.Chosen(true), s.Chosen(allowNegative));
  }

  /** A selection passes whole exactly when each of its arcs does. */
  lemma {:induction false} AllPass(evals: seq<CandidateEvaluation>, chosen: seq<nat>, allowNegative: bool)
    requires Within(evals, chosen)
    ensures |Passing(evals, chosen, allowNegative)| == |chosen|
       <==> forall x :: 0 <= x < |chosen| ==> Passes(evals[chosen[x]].totalScore, allowNegative)
    ensures |Passing(evals, chosen, allowNegative)| == |chosen| ==> Passing(evals, chosen, allowNegative) == chosen
  {
    if chosen != [] {
      AllPass(evals, chosen[..|chosen| - 1], allowNegative);
    }
  }

  lemma {:induction false} PassingIsSelection(evals: seq<CandidateEvaluation>, chosen: seq<nat>, allowNegative: bool)
    requires OneToOneSelection(evals, chosen)
    ensures var part := Passing(evals, chosen, allowNegative);
      FeasibleSelection(evals, part) && forall x :: 0 <= x < |part| ==> part[x] in chosen
  {
    if chosen != [] {
      var front := chosen[..|chosen| - 1];
      assert chosen == front + [chosen[|chosen| - 1]];
      PassingIsSelection(evals, front, allowNegative);
    }
  }

  /** It commits a largest selection exactly when every arc of that selection passes. */
  lemma ChosenIsLargestIff(evals: seq<CandidateEvaluation>, allowNegative: bool, largest: seq<nat>, chosen: seq<nat>)
    requires PassingPart(evals, allowNegative, largest, chosen)
    ensures FeasibleSelection(evals, chosen)
    ensures LargestThenBest(evals, chosen)
       <==> forall x :: 0 <= x < |largest| ==> Passes(evals[largest[x]].totalScore, allowNegative)
  {
    PassingIsSelection(evals, largest, allowNegative);
    AllPass(evals, largest, allowNegative);
  }
}
