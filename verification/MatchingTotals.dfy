/** The exact matcher's total against every one-to-one selection, and its size. */
module MatchingTotals {
  import opened Pigeonhole
  import opened RealSums
  import opened Assignments
  import opened PartialAssignments
  import opened Lap
  import opened Dispatch
  import opened ExactChoice

  /** No one-to-one selection, however large, scores more. */
  ghost predicate BestTotal(evals: seq<CandidateEvaluation>, chosen: seq<nat>)
    requires OneToOneSelection(evals, chosen)
  {
    forall rival :: OneToOneSelection(evals, rival) ==> ScoreSum(evals, rival) <= ScoreSum(evals, chosen)
  }

  ghost predicate Largest(evals: seq<CandidateEvaluation>, chosen: seq<nat>)
    requires FeasibleSelection(evals, chosen)
  {
    forall rival :: FeasibleSelection(evals, rival) ==> |rival| <= |chosen|
  }

  // ---- The best total ----

  /** The pair of row r is no feasible loss. */
  ghost predicate NoLossAt(matrix: Matrix, a: Assignment, r: nat)
    requires r < |a| == |matrix| && forall r :: 0 <= r < |a| ==> -1 <= a[r] < |matrix[r]|
  {
    a[r] != -1 && Feasible(matrix[r][a[r]]) ==> matrix[r][a[r]] >= 0.0
  }

  /** No feasible pair among the first k rows is a loss. */
  ghost predicate LossFree(matrix: Matrix, a: Assignment, k: nat)
    requires k <= |a| == |matrix| && forall r :: 0 <= r < |a| ==> -1 <= a[r] < |matrix[r]|
  {
    forall r :: 0 <= r < k ==> NoLossAt(matrix, a, r)
  }

  lemma LossFreeNext(matrix: Matrix, a: Assignment, k: nat)
    requires 0 < k <= |a| == |matrix| && forall r :: 0 <= r < |a| ==> -1 <= a[r] < |matrix[r]|
    ensures LossFree(matrix, a, k) <==> LossFree(matrix, a, k - 1) && NoLossAt(matrix, a, k - 1)
  {
  }

  /** What is committed never weighs more than the gains of the whole assignment, and weighs as much exactly when no
      loss is committed. */
  lemma {:induction false} TakenWeight(matrix: Matrix, rows: nat, cols: nat, allowNegative: bool, full: Assignment,
                                       k: nat)
    requires Rectangular(matrix, rows, cols) && OneToOne(full, rows, cols) && k <= rows
    ensures var taken := Taken(matrix, Pruned(matrix, full, !allowNegative), allowNegative);
      && WeightTo(matrix, taken, k) <= WeightTo(matrix, Pruned(matrix, full, true), k)
      && (WeightTo(matrix, taken, k) == WeightTo(matrix, Pruned(matrix, full, true), k)
          <==> (allowNegative ==> LossFree(matrix, full, k)))
  {
    if k > 0 {
      TakenWeight(matrix, rows, cols, allowNegative, full, k - 1);
      LossFreeNext(matrix, full, k);
    }
  }

  lemma ChosenTotal(s: Solved, allowNegative: bool, full: Assignment)
    requires s.Valid() && OneToOne(full, |s.drivers|, |s.loads|) && s.a == Pruned(s.matrix, full, !allowNegative)
    ensures var chosen, gains := s.Chosen(allowNegative), Weight(s.matrix, Pruned(s.matrix, full, true));
      && ScoreSum(s.evals, chosen) <= gains
      && (ScoreSum(s.evals, chosen) == gains <==> (allowNegative ==> LossFree(s.matrix, full, |s.drivers|)))
  {
    ChosenTotals(s, allowNegative);
    TakenWeight(s.matrix, |s.drivers|, |s.loads|, allowNegative, full, |s.drivers|);
  }

  /** The gains of any assignment are a selection. */
  lemma GainsAsSelection(s: Solved, b: Assignment) returns (gains: seq<nat>)
    requires s.Valid() && OneToOne(b, |s.drivers|, |s.loads|)
    ensures OneToOneSelection(s.evals, gains)
    ensures ScoreSum(s.evals, gains) == Weight(s.matrix, Pruned(s.matrix, b, true))
  {
    PrunedIsOneToOne(s.matrix, |s.drivers|, |s.loads|, b);
    var s' := s.(a := Pruned(s.matrix, b, true));
    gains := s'.Chosen(false);
    ChosenIsOneToOne(s', false);
    ChosenTotal(s', false, b);
  }

  /** Leaving out what does not pass a filter against losses never lowers a total. */
  lemma {:induction false} GainsTotalMore(evals: seq<CandidateEvaluation>, rival: seq<nat>)
    requires Within(evals, rival)
    ensures ScoreSum(evals, Passing(evals, rival, false)) >= ScoreSum(evals, rival)
  {
    if rival != [] {
      var front, last := rival[..|rival| - 1], rival[|rival| - 1];
      GainsTotalMore(evals, front);
      if Passes(evals[last].totalScore, false) {
        var part := Passing(evals, front, false);
        ScoreAppends(evals, part, last, part + [last]);
      }
    }
  }

  lemma {:induction false} RivalWithin(s: Solved, rival: seq<nat>, best: Assignment)
    requires s.Valid() && OneToOneSelection(s.evals, rival)
    requires BestOfAll(s.matrix, |s.drivers|, |s.loads|, best)
    ensures ScoreSum(s.evals, rival) <= Weight(s.matrix, best)
  {
    var gains := Passing(s.evals, rival, false);
    GainsTotalMore(s.evals, rival);
    PassingIsSelection(s.evals, rival, false);
    var b := SelectionAsAssignment(s, gains);
  }

  lemma {:induction false} AssignmentWithin(s: Solved, b: Assignment, chosen: seq<nat>)
    requires s.Valid() && OneToOne(b, |s.drivers|, |s.loads|)
    requires OneToOneSelection(s.evals, chosen) && BestTotal(s.evals, chosen)
    ensures Weight(s.matrix, Pruned(s.matrix, b, true)) <= ScoreSum(s.evals, chosen)
    ensures Weight(s.matrix, b) <= ScoreSum(s.evals, chosen)
  {
    var gains := GainsAsSelection(s, b);
    PrunedWeight(s.matrix, |s.drivers|, |s.loads|, b, |s.drivers|);
  }

  /** The condition for the best total: the complete assignment is also optimal when losses count as nothing, and, where
      they are allowed, none is committed. */
  ghost predicate TotalsBest(s: Solved, allowNegative: bool, full: Assignment)
    requires s.Valid() && OneToOne(full, |s.drivers|, |s.loads|)
  {
    && Optimal(Raised(s.matrix, |s.drivers|, |s.loads|), |s.drivers|, |s.loads|, true, full)
    && (allowNegative ==> LossFree(s.matrix, full, |s.drivers|))
  }

  /** Whatever the scores, the committed arcs have the best total of all one-to-one selections exactly under that
      condition. */
  lemma BestTotalIff(s: Solved, allowNegative: bool, full: Assignment)
    requires s.Valid() && Complete(full, |s.drivers|, |s.loads|) && s.a == Pruned(s.matrix, full, !allowNegative)
    ensures OneToOneSelection(s.evals, s.Chosen(allowNegative))
    ensures BestTotal(s.evals, s.Chosen(allowNegative)) <==> TotalsBest(s, allowNegative, full)
  {
    var rows, cols, chosen := |s.drivers|, |s.loads|, s.Chosen(allowNegative);
    var pruned := Pruned(s.matrix, full, true);
    ChosenIsOneToOne(s, allowNegative);
    ChosenTotal(s, allowNegative, full);
    PrunedIsBestIff(s.matrix, rows, cols, full);
    PrunedIsOneToOne(s.matrix, rows, cols, full);
    if TotalsBest(s, allowNegative, full) {
      forall rival | OneToOneSelection(s.evals, rival)
        ensures ScoreSum(s.evals, rival) <= ScoreSum(s.evals, chosen)
      {
        RivalWithin(s, rival, pruned);
      }
    }
    if BestTotal(s.evals, chosen) {
      AssignmentWithin(s, full, chosen);
      forall b | OneToOne(b, rows, cols)
        ensures Weight(s.matrix, b) <= Weight(s.matrix, pruned)
      {
        AssignmentWithin(s, b, chosen);
      }
    }
  }

  /** s as it is when the solver comes back with the complete assignment full. */
  ghost function Returning(s: Solved, full: Assignment, allowNegative: bool): (s': Solved)
    requires s.Valid() && OneToOne(full, |s.drivers|, |s.loads|)
    ensures s'.Valid() && s' == s.(a := Pruned(s.matrix, full, !allowNegative))
  {
    s.(a := Pruned(s.matrix, full, !allowNegative))
  }

  /** Before the solver is called: every answer it may give has the best total exactly when each best complete
      assignment of the payout matrix meets the condition. */
  lemma AlwaysBestTotalIff(s: Solved, allowNegative: bool)
    requires s.Valid()
    ensures (forall full :: Optimal(s.matrix, |s.drivers|, |s.loads|, true, full) ==>
               var chosen := Returning(s, full, allowNegative).Chosen(allowNegative);
               OneToOneSelection(s.evals, chosen) && BestTotal(s.evals, chosen))
       <==> (forall full :: Optimal(s.matrix, |s.drivers|, |s.loads|, true, full) ==>
               TotalsBest(s, allowNegative, full))
  {
    forall full | Optimal(s.matrix, |s.drivers|, |s.loads|, true, full)
      ensures var chosen := Returning(s, full, allowNegative).Chosen(allowNegative);
        OneToOneSelection(s.evals, chosen) && (BestTotal(s.evals, chosen) <==> TotalsBest(s, allowNegative, full))
    {
      BestTotalIff(Returning(s, full, allowNegative), allowNegative, full);
    }
  }

  // ---- When every pair is a candidate ----

  ghost predicate IsArc(evals: seq<CandidateEvaluation>, k: nat, d: string, l: string) {
    k < |evals| && evals[k].driverID == d && evals[k].loadID == l
  }

  ghost predicate AllPairs(evals: seq<CandidateEvaluation>) {
    forall d, l :: d in DriverIds(evals) && l in LoadIds(evals) ==> exists k :: IsArc(evals, k, d, l)
  }

  lemma PairIsNoLoss(s: Solved, i: nat, j: nat)
    requires s.Valid() && i < |s.drivers| && j < |s.loads| && AllPairs(s.evals)
    requires s.drivers[i] in DriverIds(s.evals) && s.loads[j] in LoadIds(s.evals)
    requires forall e :: e in s.evals ==> e.totalScore >= 0.0
    ensures s.matrix[i][j] >= 0.0
  {
    var k: nat :| IsArc(s.evals, k, s.drivers[i], s.loads[j]);
    assert s.evals[k] in s.evals;
    EntryCoversArc(s, k, i, j);
  }

  /** When every driver-load pair is a candidate and no score is negative, the total is always best. */
  lemma AllPairsGiveBestTotal(s: Solved, allowNegative: bool, full: Assignment)
    requires s.Valid() && Elements(s.drivers) == DriverIds(s.evals) && Elements(s.loads) == LoadIds(s.evals)
    requires Optimal(s.matrix, |s.drivers|, |s.loads|, true, full) && s.a == Pruned(s.matrix, full, !allowNegative)
    requires AllPairs(s.evals) && forall e :: e in s.evals ==> e.totalScore >= 0.0
    ensures OneToOneSelection(s.evals, s.Chosen(allowNegative))
    ensures BestTotal(s.evals, s.Chosen(allowNegative))
  {
    forall i, j | 0 <= i < |s.drivers| && 0 <= j < |s.loads|
      ensures s.matrix[i][j] >= 0.0
    {
      assert s.drivers[i] in Elements(s.drivers) && s.loads[j] in Elements(s.loads);
      PairIsNoLoss(s, i, j);
    }
    PrunedIsBestWithoutLosses(s.matrix, |s.drivers|, |s.loads|, full);
    PrunedIsBestIff(s.matrix, |s.drivers|, |s.loads|, full);
    BestTotalIff(s, allowNegative, full);
  }

  // ---- When it is not ----

  /** One arc worth 10 that blocks two worth 1 each. */
  const BLOCKING := [CandidateEvaluation("d1", "l1", 10.0, 10.0, false),
                     CandidateEvaluation("d1", "l2", 1.0, 1.0, false),
                     CandidateEvaluation("d2", "l1", 1.0, 1.0, false)]

  ghost predicate TwoDrivers(evals: seq<CandidateEvaluation>) {
    forall e :: e in evals ==> e.driverID == "d1" || e.driverID == "d2"
  }

  lemma FewDrivers(evals: seq<CandidateEvaluation>, lowest: real, top: real)
    requires TwoDrivers(evals) && 0.0 <= top - lowest <= 100.0
    ensures Times(ShorterSide(|DriverIds(evals)|, |LoadIds(evals)|), top - lowest) < -INFEASIBLE_SCORE_SENTINEL
  {
    assert DriverIds(evals) <= {"d1", "d2"};
    SubsetCard(DriverIds(evals), {"d1", "d2"});
    var size := ShorterSide(|DriverIds(evals)|, |LoadIds(evals)|);
    TimesMonotone(size, 2, top - lowest, top - lowest);
    TimesIsProduct(2, top - lowest);
  }

  lemma AtMostTwo(evals: seq<CandidateEvaluation>, chosen: seq<nat>)
    requires OneToOneSelection(evals, chosen) && TwoDrivers(evals)
    ensures |chosen| <= 2
  {
    var ids := seq(|chosen|, x requires 0 <= x < |chosen| => evals[chosen[x]].driverID);
    forall x | 0 <= x < |ids|
      ensures ids[x] in {"d1", "d2"}
    {
      assert evals[chosen[x]] in evals;
    }
    DistinctCard(ids);
    SubsetCard(Elements(ids), {"d1", "d2"});
  }

  lemma BlockingScoresFit()
    ensures ScoresInRange(BLOCKING, 0.0, 10.0)
  {
    forall e | e in BLOCKING
      ensures e == BLOCKING[0] || e == BLOCKING[1] || e == BLOCKING[2]
    {
    }
    FewDrivers(BLOCKING, 0.0, 10.0);
  }

  lemma PairScores()
    ensures OneToOneSelection(BLOCKING, [0]) && ScoreSum(BLOCKING, [0]) == 10.0
    ensures FeasibleSelection(BLOCKING, [1, 2])
    ensures ScoreSum(BLOCKING, [1, 2]) == ScoreSum(BLOCKING, [2, 1]) == 2.0
  {
    assert [0][..0] == [] && [1, 2][..1] == [1] && [2, 1][..1] == [2] && [1][..0] == [] && [2][..0] == [];
    assert ScoreSum(BLOCKING, []) == 0.0;
    assert ScoreSum(BLOCKING, [1]) == 1.0 && ScoreSum(BLOCKING, [2]) == 1.0;
  }

  /** Two compatible arcs are the two small ones. */
  lemma TwoAreTheSmallOnes(chosen: seq<nat>)
    requires OneToOneSelection(BLOCKING, chosen) && |chosen| >= 2
    ensures chosen == [1, 2] || chosen == [2, 1]
  {
    assert chosen[0] < 3 && chosen[1] < 3;
    assert BLOCKING[chosen[0]].driverID != BLOCKING[chosen[1]].driverID;
    assert BLOCKING[chosen[0]].loadID != BLOCKING[chosen[1]].loadID;
    AtMostTwo(BLOCKING, chosen);
  }

  /** Here the matcher always commits 2, and the one big arc would have scored 10. */
  lemma {:induction false} LargestNeedNotBeBest(allowNegative: bool, largest: seq<nat>, chosen: seq<nat>)
    requires PassingPart(BLOCKING, allowNegative, largest, chosen)
    ensures ScoreSum(BLOCKING, chosen) == 2.0
    ensures OneToOneSelection(BLOCKING, [0]) && ScoreSum(BLOCKING, [0]) == 10.0
  {
    PairScores();
    assert |[1, 2]| <= |largest|;
    TwoAreTheSmallOnes(largest);
    AllPass(BLOCKING, largest, allowNegative);
  }

  /** A gain and a loss that do not compete. */
  const ONE_LOSS := [CandidateEvaluation("d1", "l1", 10.0, 10.0, false),
                     CandidateEvaluation("d2", "l2", -5.0, -5.0, false)]

  lemma OneLossFits()
    ensures ScoresInRange(ONE_LOSS, -5.0, 10.0)
  {
    forall e | e in ONE_LOSS
      ensures e == ONE_LOSS[0] || e == ONE_LOSS[1]
    {
    }
    FewDrivers(ONE_LOSS, -5.0, 10.0);
  }

  lemma OneLossScores()
    ensures ScoreSum(ONE_LOSS, []) == 0.0 && ScoreSum(ONE_LOSS, [0]) == 10.0 && ScoreSum(ONE_LOSS, [1]) == -5.0
    ensures ScoreSum(ONE_LOSS, [0, 1]) == ScoreSum(ONE_LOSS, [1, 0]) == 5.0
  {
    assert [0][..0] == [] && [1][..0] == [] && [0, 1][..1] == [0] && [1, 0][..1] == [1];
    assert ScoreSum(ONE_LOSS, []) == 0.0;
    assert ScoreSum(ONE_LOSS, [0]) == 10.0 && ScoreSum(ONE_LOSS, [1]) == -5.0;
  }

  lemma OneLossPasses()
    ensures Passing(ONE_LOSS, [0, 1], false) == Passing(ONE_LOSS, [1, 0], false) == [0]
  {
    assert [0][..0] == [] && [1][..0] == [] && [0, 1][..1] == [0] && [1, 0][..1] == [1];
    assert Passing(ONE_LOSS, [], false) == [];
    assert Passing(ONE_LOSS, [0], false) == [0] && Passing(ONE_LOSS, [1], false) == [];
  }

  /** All selections of the two. */
  lemma OneLossSelections(chosen: seq<nat>)
    requires OneToOneSelection(ONE_LOSS, chosen)
    ensures chosen == [] || chosen == [0] || chosen == [1] || chosen == [0, 1] || chosen == [1, 0]
  {
    AtMostTwo(ONE_LOSS, chosen);
    if |chosen| == 2 {
      assert ONE_LOSS[chosen[0]].driverID != ONE_LOSS[chosen[1]].driverID;
    }
  }

  lemma {:induction false} OneLossTotals(chosen: seq<nat>)
    requires OneToOneSelection(ONE_LOSS, chosen)
    ensures ScoreSum(ONE_LOSS, chosen) <= 10.0 && (|chosen| == 2 ==> ScoreSum(ONE_LOSS, chosen) == 5.0)
  {
    OneLossSelections(chosen);
    OneLossScores();
  }

  lemma OneLossBest()
    ensures OneToOneSelection(ONE_LOSS, [0]) && BestTotal(ONE_LOSS, [0])
    ensures forall any :: FeasibleSelection(ONE_LOSS, any) && |any| == 2 ==> !BestTotal(ONE_LOSS, any)
  {
    OneLossScores();
    forall any | OneToOneSelection(ONE_LOSS, any)
      ensures ScoreSum(ONE_LOSS, any) <= 10.0 && (|any| == 2 ==> ScoreSum(ONE_LOSS, any) == 5.0)
    {
      OneLossTotals(any);
    }
    assert OneToOneSelection(ONE_LOSS, [0]);
  }

  lemma BothAreLargest(any: seq<nat>)
    requires FeasibleSelection(ONE_LOSS, any) && Largest(ONE_LOSS, any)
    ensures any == [0, 1] || any == [1, 0]
  {
    var both: seq<nat> := [0, 1];
    assert FeasibleSelection(ONE_LOSS, both);
    assert |both| <= |any|;
    OneLossSelections(any);
  }

  /** With losses barred the matcher commits the gain alone. That is the best total, but not a largest selection, and no
      selection is both. */
  lemma LossIsDropped(largest: seq<nat>, chosen: seq<nat>)
    requires PassingPart(ONE_LOSS, false, largest, chosen)
    ensures chosen == [0] && FeasibleSelection(ONE_LOSS, [0])
    ensures BestTotal(ONE_LOSS, [0]) && !Largest(ONE_LOSS, [0])
    ensures forall any :: FeasibleSelection(ONE_LOSS, any) ==> !(Largest(ONE_LOSS, any) && BestTotal(ONE_LOSS, any))
  {
    OneLossBest();
    OneLossPasses();
    assert Largest(ONE_LOSS, largest);
    forall any | FeasibleSelection(ONE_LOSS, any) && Largest(ONE_LOSS, any)
      ensures any == [0, 1] || any == [1, 0]
    {
      BothAreLargest(any);
    }
    assert FeasibleSelection(ONE_LOSS, [0]) && |[0]| == 1;
  }
}
