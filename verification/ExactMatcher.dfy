/** The exact matcher: distinct identifiers, payout matrix, assignment solver, and the way back to evaluations. */
module ExactMatcher {
  import opened Wrappers
  import opened Pigeonhole
  import opened RowMajor
  import opened RealSums
  import opened Assignments
  import opened PartialAssignments
  import opened Sorting
  import opened Dispatch
  import opened PayoutMatrix
  import opened Lap

  import opened ExactChoice
  import opened MatchingTotals

  /** The index map leads from a scored pair to its arc. */
  lemma {:induction false} ArcOfPair(s: Solved, r: nat)
    requires s.Valid() && r < |s.drivers| && s.a[r] != -1 && s.matrix[r][s.a[r]] > INFEASIBLE_SCORE_SENTINEL
    ensures Key(r, s.a[r], |s.loads|) in s.arcAt && s.arcAt[Key(r, s.a[r], |s.loads|)] == s.Arc(r)
  {
    assert s.matrix[r][s.a[r]] == ScoreOf(s.evals, BestAt(s.evals, |s.evals|, s.drivers, s.loads, r, s.a[r]));
  }

  /** step is what the loop finds at row r. */
  ghost predicate FoundAt(evals: seq<CandidateEvaluation>, allowNegative: bool, drivers: seq<string>,
                          loads: seq<string>,
                          matrix: Matrix, arcAt: map<int, nat>, a: Assignment, r: nat, step: Option<nat>)
  {
    && r < |drivers| == |a| == |matrix| && -1 <= a[r] < |loads| == |matrix[r]|
    && match step {
      case None => a[r] == -1 || !Passes(matrix[r][a[r]], allowNegative)
      case Some(k) =>
        && a[r] != -1 && Passes(matrix[r][a[r]], allowNegative)
        && Key(r, a[r], |loads|) in arcAt && arcAt[Key(r, a[r], |loads|)] == k < |evals|
        && evals[k].driverID == drivers[r] && evals[k].loadID == loads[a[r]] && evals[k].totalScore == matrix[r][a[r]]
    }
  }

  lemma StepIsFound(s: Solved, allowNegative: bool, r: nat)
    requires s.Valid() && r < |s.drivers|
    ensures FoundAt(s.evals, allowNegative, s.drivers, s.loads, s.matrix, s.arcAt, s.a, r, s.Step(allowNegative, r))
  {
    if s.a[r] != -1 && Passes(s.matrix[r][s.a[r]], allowNegative) {
      ArcOfPair(s, r);
    }
  }

  /** The last loop: row by row, flag the arc, emit the match, add up the totals. */
  method MapBack(evals: seq<CandidateEvaluation>, epoch: int, allowNegative: bool, drivers: seq<string>,
                 loads: seq<string>,
                 matrix: Matrix, arcAt: map<int, nat>, rowToCol: Assignment, ghost steps: seq<Option<nat>>)
    returns (out: Outputs)
    requires |steps| == |drivers|
    requires forall r :: 0 <= r < |drivers| ==>
      FoundAt(evals, allowNegative, drivers, loads, matrix, arcAt, rowToCol, r, steps[r])
    ensures Within(evals, Collected(steps, |drivers|))
    ensures out == Committed(evals, Collected(steps, |drivers|), epoch)
  {
    out := Outputs([], evals, 0.0, 0.0);
    assert Marked(evals, []) == evals;
    var r := 0;
    while r < |drivers|
      invariant 0 <= r <= |drivers|
      invariant Within(evals, Collected(steps, r))
      invariant out == Committed(evals, Collected(steps, r), epoch)
    {
      assert FoundAt(evals, allowNegative, drivers, loads, matrix, arcAt, rowToCol, r, steps[r]);
      var c := rowToCol[r];
      if c != -1 {
        var score := matrix[r][c];
        if !(score <= INFEASIBLE_SCORE_SENTINEL + 1.0) && !(!allowNegative && score <= 0.0)
           && Key(r, c, |loads|) in arcAt {
          out := Commit(out, epoch, arcAt[Key(r, c, |loads|)], score, evals, Collected(steps, r));
        }
      }
      r := r + 1;
    }
  }

  // ---- Prices ----

  /** The prices of an arc's driver and load cover its score. */
  ghost predicate PricesCover(e: CandidateEvaluation, driverDuals: map<string, real>, loadDuals: map<string, real>) {
    && e.driverID in driverDuals && e.loadID in loadDuals
    && driverDuals[e.driverID] + loadDuals[e.loadID] >= e.totalScore
  }

  ghost predicate PricesMeet(e: CandidateEvaluation, driverDuals: map<string, real>, loadDuals: map<string, real>) {
    && e.driverID in driverDuals && e.loadID in loadDuals
    && driverDuals[e.driverID] + loadDuals[e.loadID] == e.totalScore
  }

  /** The dual values price every candidate arc at or above its score, and every chosen arc exactly. */
  ghost predicate PricesSupport(evals: seq<CandidateEvaluation>, chosen: seq<nat>,
                                driverDuals: map<string, real>, loadDuals: map<string, real>)
    requires Within(evals, chosen)
  {
    && driverDuals.Keys == DriverIds(evals) && loadDuals.Keys == LoadIds(evals)
    && (forall e :: e in evals ==> PricesCover(e, driverDuals, loadDuals))
    && (forall x :: 0 <= x < |chosen| ==> PricesMeet(evals[chosen[x]], driverDuals, loadDuals))
  }

  method PriceTable(ids: seq<string>, prices: seq<real>) returns (table: map<string, real>)
    requires Distinct(ids) && |prices| == |ids|
    ensures table.Keys == Elements(ids)
    ensures forall i :: 0 <= i < |ids| ==> table[ids[i]] == prices[i]
  {
    table := map[];
    var i := 0;
    while i < |ids|
      invariant 0 <= i <= |ids|
      invariant forall id :: id in table <==> id in ids[..i]
      invariant forall k :: 0 <= k < i ==> ids[k] in table && table[ids[k]] == prices[k]
    {
      table := table[ids[i] := prices[i]];
      i := i + 1;
    }
    assert ids[..|ids|] == ids;
  }

  /** The tables read the solver's duals back by identifier. */
  ghost predicate ReadBack(s: Solved, rowDuals: seq<real>, colDuals: seq<real>,
                           driverDuals: map<string, real>, loadDuals: map<string, real>)
  {
    && |rowDuals| == |s.drivers| && |colDuals| == |s.loads|
    && driverDuals.Keys == Elements(s.drivers) && loadDuals.Keys == Elements(s.loads)
    && (forall i :: 0 <= i < |s.drivers| ==> driverDuals[s.drivers[i]] == rowDuals[i])
    && (forall j :: 0 <= j < |s.loads| ==> loadDuals[s.loads[j]] == colDuals[j])
  }

  lemma DualsCover(s: Solved, full: Assignment, rowDuals: seq<real>, colDuals: seq<real>,
                   driverDuals: map<string, real>, loadDuals: map<string, real>, e: CandidateEvaluation)
    requires s.Valid() && e in s.evals
    requires Certified(s.matrix, |s.drivers|, |s.loads|, true, rowDuals, colDuals, full)
    requires ReadBack(s, rowDuals, colDuals, driverDuals, loadDuals)
    ensures PricesCover(e, driverDuals, loadDuals)
  {
    var i :| 0 <= i < |s.drivers| && s.drivers[i] == e.driverID;
    var j :| 0 <= j < |s.loads| && s.loads[j] == e.loadID;
    BestIsBest(s.evals, |s.evals|, e.driverID, e.loadID);
    assert Cell(s.evals, |s.evals|, s.drivers, s.loads, s.matrix[i][j], s.arcAt, i, j);
  }

  lemma DualsTight(s: Solved, allowNegative: bool, full: Assignment, rowDuals: seq<real>, colDuals: seq<real>,
                   driverDuals: map<string, real>, loadDuals: map<string, real>, r: nat)
    requires s.Valid() && r < |s.drivers| && s.a[r] != -1 && s.matrix[r][s.a[r]] > INFEASIBLE_SCORE_SENTINEL
    requires Certified(s.matrix, |s.drivers|, |s.loads|, true, rowDuals, colDuals, full)
    requires ReadBack(s, rowDuals, colDuals, driverDuals, loadDuals) && s.a == Pruned(s.matrix, full, !allowNegative)
    ensures PricesMeet(s.evals[s.Arc(r)], driverDuals, loadDuals)
  {
    assert full[r] == s.a[r];
    assert s.drivers[r] in Elements(s.drivers) && s.loads[s.a[r]] in Elements(s.loads);
  }

  lemma DualsSupport(s: Solved, allowNegative: bool, full: Assignment, rowDuals: seq<real>, colDuals: seq<real>,
                     driverDuals: map<string, real>, loadDuals: map<string, real>)
    requires s.Valid() && Elements(s.drivers) == DriverIds(s.evals) && Elements(s.loads) == LoadIds(s.evals)
    requires Certified(s.matrix, |s.drivers|, |s.loads|, true, rowDuals, colDuals, full)
    requires ReadBack(s, rowDuals, colDuals, driverDuals, loadDuals) && s.a == Pruned(s.matrix, full, !allowNegative)
    ensures PricesSupport(s.evals, s.Chosen(allowNegative), driverDuals, loadDuals)
  {
    forall e | e in s.evals
      ensures PricesCover(e, driverDuals, loadDuals)
    {
      DualsCover(s, full, rowDuals, colDuals, driverDuals, loadDuals, e);
    }
    var rows, chosen := Taking(s.Steps(allowNegative), |s.drivers|), s.Chosen(allowNegative);
    forall x | 0 <= x < |chosen|
      ensures PricesMeet(s.evals[chosen[x]], driverDuals, loadDuals)
    {
      assert s.Step(allowNegative, rows[x]) == Some(chosen[x]);
      DualsTight(s, allowNegative, full, rowDuals, colDuals, driverDuals, loadDuals, rows[x]);
    }
  }

  // ---- The matcher ----

  /** Order of committed matches. */
  predicate ByDriver(a: DriverLoadMatch, b: DriverLoadMatch) {
    IdLess(a.driverID, b.driverID)
  }

  /** Distinct driver and load identifiers, sorted. */
  method CollectIds(evals: seq<CandidateEvaluation>) returns (drivers: seq<string>, loads: seq<string>)
    ensures Distinct(drivers) && Distinct(loads) && Sorted(drivers, IdLess) && Sorted(loads, IdLess)
    ensures Elements(drivers) == DriverIds(evals) && Elements(loads) == LoadIds(evals)
  {
    var driverSet: set<string> := {};
    var loadSet: set<string> := {};
    var i := 0;
    while i < |evals|
      invariant 0 <= i <= |evals|
      invariant driverSet == DriverIds(evals[..i]) && loadSet == LoadIds(evals[..i])
    {
      assert evals[..i + 1] == evals[..i] + [evals[i]];
      driverSet := driverSet + {evals[i].driverID};
      loadSet := loadSet + {evals[i].loadID};
      i := i + 1;
    }
    assert evals[..|evals|] == evals;
    drivers := SortedIds(driverSet);
    loads := SortedIds(loadSet);
  }

  /** The lists and the matrix describe exactly the drivers, loads and scores of the evaluations. */
  ghost predicate Prepared(evals: seq<CandidateEvaluation>, drivers: seq<string>, loads: seq<string>,
                           matrix: Matrix, arcAt: map<int, nat>)
  {
    && Distinct(drivers) && Distinct(loads) && drivers != [] && loads != []
    && Sorted(drivers, IdLess) && Sorted(loads, IdLess)
    && Elements(drivers) == DriverIds(evals) && Elements(loads) == LoadIds(evals)
    && |drivers| == |DriverIds(evals)| && |loads| == |LoadIds(evals)|
    && (forall e :: e in evals ==> e.driverID in drivers && e.loadID in loads)
    && Payout(evals, |evals|, drivers, loads, matrix, arcAt)
  }

  method Prepare(evals: seq<CandidateEvaluation>)
    returns (drivers: seq<string>, loads: seq<string>, matrix: Matrix, arcAt: map<int, nat>)
    requires evals != []
    ensures Prepared(evals, drivers, loads, matrix, arcAt)
  {
    drivers, loads := CollectIds(evals);
    DistinctCard(drivers);
    DistinctCard(loads);
    forall e | e in evals
      ensures e.driverID in drivers && e.loadID in loads
    {
      assert e.driverID in Elements(drivers) && e.loadID in Elements(loads);
    }
    assert evals[0] in evals;
    matrix, arcAt := BuildPayout(evals, drivers, loads);
  }

  lemma StepsAreFound(s: Solved, allowNegative: bool, steps: seq<Option<nat>>)
    requires s.Valid() && |steps| == |s.drivers|
    requires forall r :: 0 <= r < |steps| ==> steps[r] == s.Step(allowNegative, r)
    ensures forall r :: 0 <= r < |s.drivers| ==>
      FoundAt(s.evals, allowNegative, s.drivers, s.loads, s.matrix, s.arcAt, s.a, r, steps[r])
  {
    forall r | 0 <= r < |s.drivers|
      ensures FoundAt(s.evals, allowNegative, s.drivers, s.loads, s.matrix, s.arcAt, s.a, r, steps[r])
    {
      StepIsFound(s, allowNegative, r);
    }
  }

  /** s is the payout matrix of the evaluations with what the solver makes of full, a best complete assignment of it. */
  ghost predicate Answers(evals: seq<CandidateEvaluation>, allowNegative: bool, s: Solved, full: Assignment) {
    && s.evals == evals && Prepared(evals, s.drivers, s.loads, s.matrix, s.arcAt)
    && Optimal(s.matrix, |s.drivers|, |s.loads|, true, full) && s.a == Pruned(s.matrix, full, !allowNegative)
    && s.Valid()
  }

  lemma SolverAnswers(s: Solved, allowNegative: bool, full: Assignment)
    requires Prepared(s.evals, s.drivers, s.loads, s.matrix, s.arcAt)
    requires Optimal(s.matrix, |s.drivers|, |s.loads|, true, full) && s.a == Pruned(s.matrix, full, !allowNegative)
    ensures Answers(s.evals, allowNegative, s, full)
  {
  }

  /** What the matcher promises of the arcs it commits. */
  ghost predicate RightChoice(evals: seq<CandidateEvaluation>, allowNegative: bool, s: Solved, full: Assignment,
                              chosen: seq<nat>)
  {
    && Answers(evals, allowNegative, s, full) && chosen == s.Chosen(allowNegative)
    && OneToOneSelection(evals, chosen)
    && (forall x :: 0 <= x < |chosen| ==> Passes(evals[chosen[x]].totalScore, allowNegative))
    && (BestTotal(evals, chosen) <==> TotalsBest(s, allowNegative, full))
    && forall lowest, top :: ScoresInRange(evals, lowest, top) ==>
         exists largest :: PassingPart(evals, allowNegative, largest, chosen)
  }

  lemma ChosenIsRight(evals: seq<CandidateEvaluation>, allowNegative: bool, s: Solved, full: Assignment)
    requires evals != [] && Answers(evals, allowNegative, s, full)
    ensures RightChoice(evals, allowNegative, s, full, s.Chosen(allowNegative))
  {
    ChosenPasses(s, allowNegative);
    BestTotalIff(s, allowNegative, full);
    forall lowest, top | ScoresInRange(evals, lowest, top)
      ensures exists largest :: PassingPart(evals, allowNegative, largest, s.Chosen(allowNegative))
    {
      ChosenIsPassingPart(s, allowNegative, full, lowest, top);
    }
  }

  lemma ByDriverOrder()
    ensures StrictWeakOrder(ByDriver)
  {
    IdOrder();
  }

  /** Price tables of a solved payout matrix. */
  method ReadDuals(ghost s: Solved, allowNegative: bool, ghost full: Assignment, drivers: seq<string>,
                   loads: seq<string>,
                   lap: LapAssignment)
    returns (driverDuals: map<string, real>, loadDuals: map<string, real>)
    requires s.drivers == drivers && s.loads == loads && Answers(s.evals, allowNegative, s, full)
    requires Certified(s.matrix, |drivers|, |loads|, true, lap.rowDuals, lap.colDuals, full)
    ensures PricesSupport(s.evals, s.Chosen(allowNegative), driverDuals, loadDuals)
  {
    driverDuals := PriceTable(drivers, lap.rowDuals);
    loadDuals := PriceTable(loads, lap.colDuals);
    DualsSupport(s, allowNegative, full, lap.rowDuals, lap.colDuals, driverDuals, loadDuals);
  }

  /** Matches, flags and totals of a solved payout matrix. */
  method CommitChosen(ghost s: Solved, evals: seq<CandidateEvaluation>, epoch: int, allowNegative: bool,
                      drivers: seq<string>,
                      loads: seq<string>, matrix: Matrix, arcAt: map<int, nat>, rowToCol: Assignment)
    returns (out: Outputs)
    requires s == Solved(evals, drivers, loads, matrix, arcAt, rowToCol) && s.Valid()
    ensures out == Committed(evals, s.Chosen(allowNegative), epoch)
  {
    ghost var steps := s.Steps(allowNegative);
    StepsAreFound(s, allowNegative, steps);
    out := MapBack(evals, epoch, allowNegative, drivers, loads, matrix, arcAt, rowToCol, steps);
  }

  /** The solver's answer to the payout matrix. */
  method SolvePrepared(evals: seq<CandidateEvaluation>, allowNegative: bool, drivers: seq<string>, loads: seq<string>,
                       matrix: Matrix, arcAt: map<int, nat>)
    returns (lap: LapAssignment, ghost s: Solved, ghost full: Assignment)
    requires Prepared(evals, drivers, loads, matrix, arcAt)
    ensures s == Solved(evals, drivers, loads, matrix, arcAt, lap.rowToCol) && Answers(evals, allowNegative, s, full)
    ensures Certified(matrix, |drivers|, |loads|, true, lap.rowDuals, lap.colDuals, full)
  {
    var assignment, complete, _ := SolveLAP(matrix, true, allowNegative);
    lap, full := assignment.value, complete;
    s := Solved(evals, drivers, loads, matrix, arcAt, lap.rowToCol);
    SolverAnswers(s, allowNegative, full);
  }

  lemma {:induction false} OneMatchPerDriver(evals: seq<CandidateEvaluation>, chosen: seq<nat>, epoch: int,
                                             matches: seq<DriverLoadMatch>)
    requires OneToOneSelection(evals, chosen) && Sorted(matches, ByDriver)
    requires multiset(matches) == multiset(MatchesOf(evals, chosen, epoch))
    ensures forall i, j :: 0 <= i < j < |matches| ==> IdLess(matches[i].driverID, matches[j].driverID)
  {
    var listed := MatchesOf(evals, chosen, epoch);
    var driver := (m: DriverLoadMatch) => m.driverID;
    MatchesNameArcs(evals, chosen, epoch);
    MapKeepsMultiset(matches, listed, driver);
    assert Distinct(MapSeq(listed, driver));
    PermutationKeepsElements(MapSeq(matches, driver), MapSeq(listed, driver));
    IdOrder();
    forall i, j | 0 <= i < j < |matches|
      ensures IdLess(matches[i].driverID, matches[j].driverID)
    {
      assert MapSeq(matches, driver)[i] != MapSeq(matches, driver)[j];
      assert !ByDriver(matches[j], matches[i]);
    }
  }

  /** The committed matches in the order of their drivers, and what they say. */
  method InDriverOrder(ghost evals: seq<CandidateEvaluation>, ghost chosen: seq<nat>, ghost epoch: int, out: Outputs)
    returns (matches: seq<DriverLoadMatch>)
    requires OneToOneSelection(evals, chosen) && out == Committed(evals, chosen, epoch)
    ensures multiset(matches) == multiset(out.matches) && Sorted(matches, ByDriver) && |matches| == |chosen|
    ensures forall x :: 0 <= x < |chosen| ==>
      var e := evals[chosen[x]];
      DriverLoadMatch(e.driverID, e.loadID, epoch, e.netContribution) in matches
    ensures forall i, j :: 0 <= i < j < |matches| ==> IdLess(matches[i].driverID, matches[j].driverID)
    ensures |out.evaluations| == |evals| && forall i :: 0 <= i < |evals| ==>
      out.evaluations[i] == evals[i].(isAssigned := evals[i].isAssigned || i in chosen)
    ensures out.objective == Sum(Scores(evals, chosen)) && out.net == Sum(Contributions(matches))
  {
    ByDriverOrder();
    matches := Sort(out.matches, ByDriver);
    SortedMatches(evals, chosen, epoch, matches);
    OneMatchPerDriver(evals, chosen, epoch, matches);
    TotalsAdd(evals, chosen, epoch);
  }

  /** Everything but the order of the matches. */
  method SolvePayout(evals: seq<CandidateEvaluation>, epoch: int, allowNegative: bool)
    returns (out: Outputs, driverDuals: map<string, real>, loadDuals: map<string, real>, ghost chosen: seq<nat>,
             ghost s: Solved, ghost full: Assignment)
    requires evals != []
    ensures RightChoice(evals, allowNegative, s, full, chosen)
    ensures out == Committed(evals, chosen, epoch) && PricesSupport(evals, chosen, driverDuals, loadDuals)
  {
    var drivers, loads, matrix, arcAt := Prepare(evals);
    var lap, solved, complete := SolvePrepared(evals, allowNegative, drivers, loads, matrix, arcAt);
    s, full := solved, complete;
    ChosenIsRight(evals, allowNegative, s, full);
    chosen := s.Chosen(allowNegative);
    driverDuals, loadDuals := ReadDuals(s, allowNegative, full, drivers, loads, lap);
    out := CommitChosen(s, evals, epoch, allowNegative, drivers, loads, matrix, arcAt, lap.rowToCol);
  }

  /** chosen lists the arcs the matcher commits, s and full are the payout matrix and the solver's answer behind it. */
  method SolveExact(evals: seq<CandidateEvaluation>, epoch: int, allowNegative: bool)
    returns (sol: MatchingSolution, ghost chosen: seq<nat>, ghost s: Solved, ghost full: Assignment)
    requires evals != []
    ensures Answers(evals, allowNegative, s, full) && chosen == s.Chosen(allowNegative)
    ensures OneToOneSelection(evals, chosen)
    ensures forall x :: 0 <= x < |chosen| ==> Passes(evals[chosen[x]].totalScore, allowNegative)
    ensures multiset(sol.matches) == multiset(MatchesOf(evals, chosen, epoch)) && Sorted(sol.matches, ByDriver)
    ensures sol.evaluations == Marked(evals, chosen)
    ensures sol.totalObjective == ScoreSum(evals, chosen) && sol.totalNetContribution == NetSum(evals, chosen)
    ensures |sol.matches| == |chosen|
    ensures forall x :: 0 <= x < |chosen| ==>
      var e := evals[chosen[x]];
      DriverLoadMatch(e.driverID, e.loadID, epoch, e.netContribution) in sol.matches
    ensures forall i, j :: 0 <= i < j < |sol.matches| ==> IdLess(sol.matches[i].driverID, sol.matches[j].driverID)
    ensures |sol.evaluations| == |evals| && forall i :: 0 <= i < |evals| ==>
      sol.evaluations[i] == evals[i].(isAssigned := evals[i].isAssigned || i in chosen)
    ensures sol.totalObjective == Sum(Scores(evals, chosen))
    ensures sol.totalNetContribution == Sum(Contributions(sol.matches))
    ensures PricesSupport(evals, chosen, sol.driverDualValues, sol.loadDualValues)
    ensures BestTotal(evals, chosen) <==> TotalsBest(s, allowNegative, full)
    ensures forall lowest, top :: ScoresInRange(evals, lowest, top) ==>
      exists largest :: PassingPart(evals, allowNegative, largest, chosen)
  {
    var out, driverDuals, loadDuals, picked, solved, complete := SolvePayout(evals, epoch, allowNegative);
    chosen, s, full := picked, solved, complete;
    var matches := InDriverOrder(evals, chosen, epoch, out);
    sol := MatchingSolution(matches, out.evaluations, out.objective, out.net, driverDuals, loadDuals);
  }

  // ---- Before the call ----

  lemma OnceEach(ids: seq<string>, ids': seq<string>)
    requires Distinct(ids) && Distinct(ids') && Elements(ids) == Elements(ids')
    ensures multiset(ids) == multiset(ids')
  {
    DistinctMeansOnce(ids);
    DistinctMeansOnce(ids');
    forall x
      ensures multiset(ids)[x] == multiset(ids')[x]
    {
      assert x in multiset(ids) <==> x in Elements(ids);
      assert x in multiset(ids') <==> x in Elements(ids');
    }
  }

  lemma SameIds(ids: seq<string>, ids': seq<string>)
    requires Distinct(ids) && Distinct(ids') && Elements(ids) == Elements(ids')
    requires Sorted(ids, IdLess) && Sorted(ids', IdLess)
    ensures ids == ids'
  {
    OnceEach(ids, ids');
    IdOrder();
    SortedIsUnique(ids, ids', IdLess);
  }

  lemma SameRow(evals: seq<CandidateEvaluation>, s: Solved, s': Solved, i: nat)
    requires s.drivers == s'.drivers && s.loads == s'.loads && i < |s.drivers|
    requires Payout(evals, |evals|, s.drivers, s.loads, s.matrix, s.arcAt)
    requires Payout(evals, |evals|, s.drivers, s.loads, s'.matrix, s'.arcAt)
    ensures s.matrix[i] == s'.matrix[i]
  {
    forall j | 0 <= j < |s.loads|
      ensures s.matrix[i][j] == s'.matrix[i][j]
    {
      assert Cell(evals, |evals|, s.drivers, s.loads, s.matrix[i][j], s.arcAt, i, j);
      assert Cell(evals, |evals|, s.drivers, s.loads, s'.matrix[i][j], s'.arcAt, i, j);
    }
  }

  /** The evaluations have one payout matrix. */
  lemma PayoutIsUnique(evals: seq<CandidateEvaluation>, s: Solved, s': Solved)
    requires Prepared(evals, s.drivers, s.loads, s.matrix, s.arcAt)
    requires Prepared(evals, s'.drivers, s'.loads, s'.matrix, s'.arcAt)
    ensures s'.drivers == s.drivers && s'.loads == s.loads && s'.matrix == s.matrix
  {
    SameIds(s.drivers, s'.drivers);
    SameIds(s.loads, s'.loads);
    forall i | 0 <= i < |s.drivers|
      ensures s.matrix[i] == s'.matrix[i]
    {
      SameRow(evals, s, s', i);
    }
  }

  /** When each best complete assignment of the payout matrix meets the condition, the matcher commits the best
      total. */
  lemma BestTotalForeseen(evals: seq<CandidateEvaluation>, allowNegative: bool, before: Solved, s: Solved,
                          full: Assignment)
    requires Prepared(evals, before.drivers, before.loads, before.matrix, before.arcAt) && before.Valid()
    requires forall f :: Optimal(before.matrix, |before.drivers|, |before.loads|, true, f) ==>
      TotalsBest(before, allowNegative, f)
    requires Answers(evals, allowNegative, s, full)
    ensures OneToOneSelection(evals, s.Chosen(allowNegative))
    ensures BestTotal(evals, s.Chosen(allowNegative))
  {
    PayoutIsUnique(evals, before, s);
    assert TotalsBest(before, allowNegative, full);
    BestTotalIff(s, allowNegative, full);
  }
}
