/** The score-sorted greedy matcher, and its one-half guarantee. */
module GreedyMatcher {
  import opened RealSums
  import opened Sorting
  import opened Dispatch
  import opened GreedySelection
  import opened SlotSets

  /** What an arc occupies. */
  function Slots(e: CandidateEvaluation): set<Slot> {
    {DriverSlot(e.driverID), LoadSlot(e.loadID)}
  }

  function Score(e: CandidateEvaluation): real {
    e.totalScore
  }

  /** Everything the sort compares. */
  datatype ArcKey = ArcKey(score: real, driverID: string, loadID: string)

  function KeyOf(e: CandidateEvaluation): ArcKey {
    ArcKey(e.totalScore, e.driverID, e.loadID)
  }

  /** Score descending, then driver, then load. */
  predicate KeyBefore(a: ArcKey, b: ArcKey) {
    if a.score != b.score then a.score > b.score
    else if a.driverID != b.driverID then IdLess(a.driverID, b.driverID)
    else IdLess(a.loadID, b.loadID)
  }

  predicate Before(a: CandidateEvaluation, b: CandidateEvaluation) {
    KeyBefore(KeyOf(a), KeyOf(b))
  }

  lemma BeforeOrder()
    ensures StrictWeakOrder(KeyBefore) && Decides(KeyBefore)
    ensures StrictWeakOrder(Before)
  {
    IdOrder();
  }

  /** Arcs the pass looks at: all of them, or only the profitable ones. */
  function Eligible(s: seq<CandidateEvaluation>, allowNegative: bool): (r: seq<CandidateEvaluation>)
    ensures forall e :: e in r <==> e in s && (allowNegative || e.totalScore > 0.0)
  {
    if s == [] then []
    else if allowNegative || s[0].totalScore > 0.0 then [s[0]] + Eligible(s[1..], allowNegative)
    else Eligible(s[1..], allowNegative)
  }

  ghost predicate Descending(s: seq<CandidateEvaluation>) {
    forall i, j :: 0 <= i < j < |s| ==> Score(s[i]) >= Score(s[j])
  }

  lemma {:induction false} EligibleDescending(s: seq<CandidateEvaluation>, allowNegative: bool)
    requires Descending(s)
    ensures Descending(Eligible(s, allowNegative))
  {
    if s != [] {
      var rest := Eligible(s[1..], allowNegative);
      EligibleDescending(s[1..], allowNegative);
      forall i | 0 <= i < |rest|
        ensures Score(s[0]) >= Score(rest[i])
      {
        assert rest[i] in s[1..];
      }
    }
  }

  ghost function ArcsAt(evals: seq<CandidateEvaluation>, chosen: seq<nat>): seq<CandidateEvaluation>
    requires Within(evals, chosen)
  {
    seq(|chosen|, x requires 0 <= x < |chosen| => evals[chosen[x]])
  }

  /** The arcs chosen so far, followed by what the pass would still pick, make up the whole pick. */
  ghost predicate Progress(arcs: seq<CandidateEvaluation>, i: nat, allowNegative: bool, used: set<Slot>,
                           chosen: seq<nat>) {
    && i <= |arcs| && Within(arcs, chosen)
    && ArcsAt(arcs, chosen) + Greedy(Eligible(arcs[i..], allowNegative), used, Slots)
       == Greedy(Eligible(arcs, allowNegative), {}, Slots)
  }

  /** The pass takes arc i when it is eligible and both its slots are free. */
  predicate Takes(e: CandidateEvaluation, allowNegative: bool, drivers: set<string>, loads: set<string>) {
    (allowNegative || e.totalScore > 0.0) && e.driverID !in drivers && e.loadID !in loads
  }

  lemma SlotsOfArc(e: CandidateEvaluation)
    ensures Slots(e) == SlotsOf({e.driverID}, {e.loadID})
  {
    forall s: Slot
      ensures s in Slots(e) <==> s in SlotsOf({e.driverID}, {e.loadID})
    {
      SlotsAreNamed(s, {e.driverID}, {e.loadID});
    }
  }

  lemma {:induction false} PassHead(arcs: seq<CandidateEvaluation>, i: nat, allowNegative: bool, drivers: set<string>,
                                    loads: set<string>)
    requires i < |arcs|
    ensures var e := arcs[i];
      Greedy(Eligible(arcs[i..], allowNegative), SlotsOf(drivers, loads), Slots) ==
        if Takes(e, allowNegative, drivers, loads)
        then
          var taken := SlotsOf(drivers + {e.driverID}, loads + {e.loadID});
          [e] + Greedy(Eligible(arcs[i + 1..], allowNegative), taken, Slots)
        else Greedy(Eligible(arcs[i + 1..], allowNegative), SlotsOf(drivers, loads), Slots)
  {
    var e := arcs[i];
    SlotsOfArc(e);
    SlotsFree(drivers, loads, {e.driverID}, {e.loadID});
    SlotsOfMore(drivers, loads, {e.driverID}, {e.loadID});
    assert arcs[i..][1..] == arcs[i + 1..];
    var next := Eligible(arcs[i + 1..], allowNegative);
    assert ([e] + next)[1..] == next;
  }

  lemma MovePick(arcs: seq<CandidateEvaluation>, chosen: seq<nat>, i: nat, later: seq<CandidateEvaluation>)
    requires Within(arcs, chosen) && i < |arcs|
    ensures Within(arcs, chosen + [i])
    ensures ArcsAt(arcs, chosen + [i]) + later == ArcsAt(arcs, chosen) + ([arcs[i]] + later)
  {
  }

  lemma Advance(arcs: seq<CandidateEvaluation>, i: nat, allowNegative: bool, drivers: set<string>, loads: set<string>,
                chosen: seq<nat>)
    requires i < |arcs| && Progress(arcs, i, allowNegative, SlotsOf(drivers, loads), chosen)
    ensures if Takes(arcs[i], allowNegative, drivers, loads)
      then Progress(arcs, i + 1, allowNegative,
                    SlotsOf(drivers + {arcs[i].driverID}, loads + {arcs[i].loadID}), chosen + [i])
      else Progress(arcs, i + 1, allowNegative, SlotsOf(drivers, loads), chosen)
  {
    PassHead(arcs, i, allowNegative, drivers, loads);
    if Takes(arcs[i], allowNegative, drivers, loads) {
      MovePick(arcs, chosen, i, Greedy(Eligible(arcs[i + 1..], allowNegative),
                                       SlotsOf(drivers + {arcs[i].driverID}, loads + {arcs[i].loadID}), Slots));
    }
  }

  /** chosen picks, from the sorted evaluations, what the greedy pass over the eligible ones picks. */
  ghost predicate PicksGreedily(evals: seq<CandidateEvaluation>, allowNegative: bool, sorted: seq<CandidateEvaluation>,
                                chosen: seq<nat>) {
    && multiset(sorted) == multiset(evals) && Sorted(sorted, Before) && Within(sorted, chosen)
    && ArcsAt(sorted, chosen) == Greedy(Eligible(sorted, allowNegative), {}, Slots)
  }

  /** out carries the matches, flags and totals of a greedy pick. */
  ghost predicate IsGreedyMatching(evals: seq<CandidateEvaluation>, epoch: int, allowNegative: bool, out: Outputs) {
    exists sorted, chosen ::
      PicksGreedily(evals, allowNegative, sorted, chosen) && out == Committed(sorted, chosen, epoch)
  }

  /** Arc k passes the filter, and no chosen arc before it has its driver or its load. */
  ghost predicate FreeAt(arcs: seq<CandidateEvaluation>, allowNegative: bool, chosen: seq<nat>, k: nat)
    requires k < |arcs|
  {
    && (allowNegative || arcs[k].totalScore > 0.0)
    && forall h :: h in chosen && h < k ==>
         arcs[h].driverID != arcs[k].driverID && arcs[h].loadID != arcs[k].loadID
  }

  ghost function DriversAt(arcs: seq<CandidateEvaluation>, chosen: seq<nat>): set<string>
    requires Within(arcs, chosen)
  {
    set x | 0 <= x < |chosen| :: arcs[chosen[x]].driverID
  }

  ghost function LoadsAt(arcs: seq<CandidateEvaluation>, chosen: seq<nat>): set<string>
    requires Within(arcs, chosen)
  {
    set x | 0 <= x < |chosen| :: arcs[chosen[x]].loadID
  }

  lemma HoldMore(arcs: seq<CandidateEvaluation>, chosen: seq<nat>, i: nat)
    requires i < |arcs| && Within(arcs, chosen)
    ensures DriversAt(arcs, chosen + [i]) == DriversAt(arcs, chosen) + {arcs[i].driverID}
    ensures LoadsAt(arcs, chosen + [i]) == LoadsAt(arcs, chosen) + {arcs[i].loadID}
  {
    var more := chosen + [i];
    assert more[|chosen|] == i && forall x :: 0 <= x < |chosen| ==> more[x] == chosen[x];
    forall x | 0 <= x < |chosen|
      ensures arcs[chosen[x]].driverID in DriversAt(arcs, more) && arcs[chosen[x]].loadID in LoadsAt(arcs, more)
    {
      assert arcs[more[x]] == arcs[chosen[x]];
    }
    assert arcs[more[|chosen|]] == arcs[i];
  }

  /** Of the arcs below i exactly the free ones are chosen, in their order. */
  ghost predicate Decided(arcs: seq<CandidateEvaluation>, allowNegative: bool, i: nat, chosen: seq<nat>) {
    && i <= |arcs| && (forall x :: 0 <= x < |chosen| ==> chosen[x] < i)
    && (forall x, y :: 0 <= x < y < |chosen| ==> chosen[x] < chosen[y])
    && forall k :: 0 <= k < i ==> (k in chosen <==> FreeAt(arcs, allowNegative, chosen, k))
  }

  lemma FreeIsTaken(arcs: seq<CandidateEvaluation>, allowNegative: bool, i: nat, drivers: set<string>,
                    loads: set<string>, chosen: seq<nat>)
    requires i < |arcs| && forall x :: 0 <= x < |chosen| ==> chosen[x] < i
    requires drivers == DriversAt(arcs, chosen) && loads == LoadsAt(arcs, chosen)
    ensures FreeAt(arcs, allowNegative, chosen, i) <==> Takes(arcs[i], allowNegative, drivers, loads)
  {
  }

  lemma DecideNext(arcs: seq<CandidateEvaluation>, allowNegative: bool, i: nat, chosen: seq<nat>)
    requires i < |arcs| && Decided(arcs, allowNegative, i, chosen)
    ensures Decided(arcs, allowNegative, i + 1, if FreeAt(arcs, allowNegative, chosen, i) then chosen + [i] else chosen)
  {
    var more := if FreeAt(arcs, allowNegative, chosen, i) then chosen + [i] else chosen;
    assert forall k :: k in more <==> k in chosen || (k == i && FreeAt(arcs, allowNegative, chosen, i));
    forall k | 0 <= k < i + 1
      ensures k in more <==> FreeAt(arcs, allowNegative, more, k)
    {
      assert FreeAt(arcs, allowNegative, more, k) <==> FreeAt(arcs, allowNegative, chosen, k);
    }
  }

  /** The loop at arc i: what was picked so far, and what is committed of it. */
  ghost predicate Under(arcs: seq<CandidateEvaluation>, epoch: int, allowNegative: bool, i: nat, drivers: set<string>,
                        loads: set<string>, chosen: seq<nat>, out: Outputs) {
    && Progress(arcs, i, allowNegative, SlotsOf(drivers, loads), chosen)
    && Decided(arcs, allowNegative, i, chosen)
    && drivers == DriversAt(arcs, chosen) && loads == LoadsAt(arcs, chosen)
    && out == Committed(arcs, chosen, epoch)
  }

  lemma Begin(arcs: seq<CandidateEvaluation>, epoch: int, allowNegative: bool)
    ensures Under(arcs, epoch, allowNegative, 0, {}, {}, [], Outputs([], arcs, 0.0, 0.0))
  {
    assert Marked(arcs, []) == arcs;
    assert arcs[0..] == arcs && SlotsOf({}, {}) == {};
    assert ArcsAt(arcs, []) == [];
  }

  lemma Finish(evals: seq<CandidateEvaluation>, epoch: int, allowNegative: bool, arcs: seq<CandidateEvaluation>,
               drivers: set<string>, loads: set<string>, chosen: seq<nat>, out: Outputs)
    requires multiset(arcs) == multiset(evals) && Sorted(arcs, Before)
    requires Under(arcs, epoch, allowNegative, |arcs|, drivers, loads, chosen, out)
    ensures PicksGreedily(evals, allowNegative, arcs, chosen)
    ensures IsGreedyMatching(evals, epoch, allowNegative, out)
  {
    assert arcs[|arcs|..] == [] && Eligible([], allowNegative) == [];
    assert ArcsAt(arcs, chosen) + [] == ArcsAt(arcs, chosen);
    assert PicksGreedily(evals, allowNegative, arcs, chosen);
  }

  /** One turn of the loop. */
  method Consider(arcs: seq<CandidateEvaluation>, epoch: int, allowNegative: bool, i: nat, drivers: set<string>,
                  loads: set<string>, ghost chosen: seq<nat>, out: Outputs)
    returns (drivers': set<string>, loads': set<string>, ghost chosen': seq<nat>, out': Outputs)
    requires i < |arcs| && Under(arcs, epoch, allowNegative, i, drivers, loads, chosen, out)
    ensures Under(arcs, epoch, allowNegative, i + 1, drivers', loads', chosen', out')
  {
    var e := arcs[i];
    Advance(arcs, i, allowNegative, drivers, loads, chosen);
    FreeIsTaken(arcs, allowNegative, i, drivers, loads, chosen);
    HoldMore(arcs, chosen, i);
    DecideNext(arcs, allowNegative, i, chosen);
    drivers', loads', chosen', out' := drivers, loads, chosen, out;
    if Takes(e, allowNegative, drivers, loads) {
      out' := Commit(out, epoch, i, e.totalScore, arcs, chosen);
      chosen' := chosen + [i];
      drivers' := drivers + {e.driverID};
      loads' := loads + {e.loadID};
    }
  }

  /** Sorted as the matcher sorts: highest score first, then by driver, then by load. */
  lemma SortedReads(arcs: seq<CandidateEvaluation>, i: nat, j: nat)
    requires Sorted(arcs, Before) && i < j < |arcs|
    ensures arcs[i].totalScore >= arcs[j].totalScore
    ensures arcs[i].totalScore == arcs[j].totalScore ==>
      || IdLess(arcs[i].driverID, arcs[j].driverID)
      || (arcs[i].driverID == arcs[j].driverID
          && (IdLess(arcs[i].loadID, arcs[j].loadID) || arcs[i].loadID == arcs[j].loadID))
  {
    IdOrder();
    assert !Before(arcs[j], arcs[i]);
  }

  lemma OrderReads(arcs: seq<CandidateEvaluation>)
    requires Sorted(arcs, Before)
    ensures forall i, j :: 0 <= i < j < |arcs| ==>
      || arcs[i].totalScore > arcs[j].totalScore
      || (arcs[i].totalScore == arcs[j].totalScore
          && (|| IdLess(arcs[i].driverID, arcs[j].driverID)
              || (arcs[i].driverID == arcs[j].driverID
                  && (IdLess(arcs[i].loadID, arcs[j].loadID) || arcs[i].loadID == arcs[j].loadID))))
  {
    forall i, j | 0 <= i < j < |arcs|
      ensures arcs[i].totalScore >= arcs[j].totalScore
      ensures arcs[i].totalScore == arcs[j].totalScore ==>
        || IdLess(arcs[i].driverID, arcs[j].driverID)
        || (arcs[i].driverID == arcs[j].driverID
            && (IdLess(arcs[i].loadID, arcs[j].loadID) || arcs[i].loadID == arcs[j].loadID))
    {
      SortedReads(arcs, i, j);
    }
  }

  /** What a decided pass leaves, in the words of the arcs. */
  lemma CommittedReads(arcs: seq<CandidateEvaluation>, epoch: int, allowNegative: bool, chosen: seq<nat>, out: Outputs)
    requires Decided(arcs, allowNegative, |arcs|, chosen) && out == Committed(arcs, chosen, epoch)
    ensures forall x, y :: 0 <= x < y < |chosen| ==> chosen[x] < chosen[y] < |arcs|
    ensures forall i :: 0 <= i < |arcs| ==>
      (i in chosen <==>
        && (allowNegative || arcs[i].totalScore > 0.0)
        && forall h :: h in chosen && h < i ==>
             arcs[h].driverID != arcs[i].driverID && arcs[h].loadID != arcs[i].loadID)
    ensures |out.matches| == |chosen|
    ensures forall x :: 0 <= x < |chosen| ==>
      out.matches[x]
      == DriverLoadMatch(arcs[chosen[x]].driverID, arcs[chosen[x]].loadID, epoch, arcs[chosen[x]].netContribution)
    ensures |out.evaluations| == |arcs| && forall i :: 0 <= i < |arcs| ==>
      out.evaluations[i] == arcs[i].(isAssigned := arcs[i].isAssigned || i in chosen)
    ensures out.objective == Sum(Scores(arcs, chosen)) && out.net == Sum(Contributions(out.matches))
  {
    MatchesNameArcs(arcs, chosen, epoch);
    TotalsAdd(arcs, chosen, epoch);
    forall i | 0 <= i < |arcs|
      ensures i in chosen <==> FreeAt(arcs, allowNegative, chosen, i)
    {
    }
  }

  /** The sort and the pass. */
  method Pass(evals: seq<CandidateEvaluation>, epoch: int, allowNegative: bool)
    returns (out: Outputs, ghost arcs: seq<CandidateEvaluation>, ghost chosen: seq<nat>)
    ensures PicksGreedily(evals, allowNegative, arcs, chosen) && IsGreedyMatching(evals, epoch, allowNegative, out)
    ensures Decided(arcs, allowNegative, |arcs|, chosen) && out == Committed(arcs, chosen, epoch)
  {
    BeforeOrder();
    var sorted := Sort(evals, Before);
    arcs, chosen := sorted, [];
    var assignedDrivers: set<string> := {};
    var assignedLoads: set<string> := {};
    out := Outputs([], sorted, 0.0, 0.0);
    Begin(arcs, epoch, allowNegative);
    var i := 0;
    while i < |sorted|
      invariant 0 <= i <= |sorted| && arcs == sorted
      invariant Under(arcs, epoch, allowNegative, i, assignedDrivers, assignedLoads, chosen, out)
    {
      assignedDrivers, assignedLoads, chosen, out := Consider(sorted, epoch, allowNegative, i, assignedDrivers,
                                                              assignedLoads, chosen, out);
      i := i + 1;
    }
    Finish(evals, epoch, allowNegative, arcs, assignedDrivers, assignedLoads, chosen, out);
  }

  /** arcs are the evaluations as they are sorted, chosen the positions that are matched. */
  method SolveGreedy(evals: seq<CandidateEvaluation>, epoch: int, allowNegative: bool)
    returns (out: Outputs, ghost arcs: seq<CandidateEvaluation>, ghost chosen: seq<nat>)
    ensures PicksGreedily(evals, allowNegative, arcs, chosen) && IsGreedyMatching(evals, epoch, allowNegative, out)
    ensures multiset(arcs) == multiset(evals)
    ensures forall i, j :: 0 <= i < j < |arcs| ==>
      || arcs[i].totalScore > arcs[j].totalScore
      || (arcs[i].totalScore == arcs[j].totalScore
          && (|| IdLess(arcs[i].driverID, arcs[j].driverID)
              || (arcs[i].driverID == arcs[j].driverID
                  && (IdLess(arcs[i].loadID, arcs[j].loadID) || arcs[i].loadID == arcs[j].loadID))))
    ensures forall x, y :: 0 <= x < y < |chosen| ==> chosen[x] < chosen[y] < |arcs|
    ensures forall i :: 0 <= i < |arcs| ==>
      (i in chosen <==>
        && (allowNegative || arcs[i].totalScore > 0.0)
        && forall h :: h in chosen && h < i ==>
             arcs[h].driverID != arcs[i].driverID && arcs[h].loadID != arcs[i].loadID)
    ensures |out.matches| == |chosen|
    ensures forall x :: 0 <= x < |chosen| ==>
      out.matches[x]
      == DriverLoadMatch(arcs[chosen[x]].driverID, arcs[chosen[x]].loadID, epoch, arcs[chosen[x]].netContribution)
    ensures |out.evaluations| == |arcs| && forall i :: 0 <= i < |arcs| ==>
      out.evaluations[i] == arcs[i].(isAssigned := arcs[i].isAssigned || i in chosen)
    ensures out.objective == Sum(Scores(arcs, chosen)) && out.net == Sum(Contributions(out.matches))
  {
    out, arcs, chosen := Pass(evals, epoch, allowNegative);
    OrderReads(arcs);
    CommittedReads(arcs, epoch, allowNegative, chosen, out);
  }

  // ---- The guarantee ----

  lemma {:induction false} PickedTotal(arcs: seq<CandidateEvaluation>, chosen: seq<nat>)
    requires Within(arcs, chosen)
    ensures TotalOf(ArcsAt(arcs, chosen), Score) == ScoreSum(arcs, chosen)
  {
    if chosen != [] {
      var front, last := chosen[..|chosen| - 1], chosen[|chosen| - 1];
      PickedTotal(arcs, front);
      assert ArcsAt(arcs, chosen) == ArcsAt(arcs, front) + [arcs[last]];
      TotalOfAppend(ArcsAt(arcs, front), arcs[last], Score);
    }
  }

  /** The profitable arcs of a selection. */
  ghost function Profitable(evals: seq<CandidateEvaluation>, rival: seq<nat>): set<CandidateEvaluation>
    requires Within(evals, rival)
  {
    set x | 0 <= x < |rival| && evals[rival[x]].totalScore > 0.0 :: evals[rival[x]]
  }

  lemma ProfitIsCompatible(evals: seq<CandidateEvaluation>, rival: seq<nat>)
    requires OneToOneSelection(evals, rival)
    ensures Compatible(Profitable(evals, rival), Slots)
  {
    var b := Profitable(evals, rival);
    forall e, f | e in b && f in b && e != f
      ensures Slots(e) !! Slots(f)
    {
      var x :| 0 <= x < |rival| && evals[rival[x]] == e;
      var y :| 0 <= y < |rival| && evals[rival[y]] == f;
      assert e.driverID != f.driverID && e.loadID != f.loadID;
    }
  }

  lemma ProfitOneMore(evals: seq<CandidateEvaluation>, front: seq<nat>, last: nat)
    requires OneToOneSelection(evals, front + [last]) && Within(evals, front) && last < |evals|
    ensures var b, e := Profitable(evals, front), evals[last];
      Profitable(evals, front + [last]) == (if e.totalScore > 0.0 then b + {e} else b) && e !in b
  {
    var rival, e := front + [last], evals[last];
    assert rival[|front|] == last;
    assert forall x :: 0 <= x < |front| ==> rival[x] == front[x] && evals[front[x]].driverID != e.driverID;
    forall f
      ensures f in Profitable(evals, rival) <==> f in Profitable(evals, front) || (f == e && e.totalScore > 0.0)
    {
      if f in Profitable(evals, front) {
        var x :| 0 <= x < |front| && evals[front[x]] == f && f.totalScore > 0.0;
        assert evals[rival[x]] == f;
      } else if f == e {
        assert evals[rival[|front|]] == f;
      }
    }
  }

  lemma {:induction false} ProfitCovers(evals: seq<CandidateEvaluation>, rival: seq<nat>)
    requires OneToOneSelection(evals, rival)
    ensures ScoreSum(evals, rival) <= Total(Profitable(evals, rival), Score)
  {
    if rival == [] {
      assert Profitable(evals, rival) == {};
    } else {
      var front, last := rival[..|rival| - 1], rival[|rival| - 1];
      assert rival == front + [last] && OneToOneSelection(evals, front);
      ProfitCovers(evals, front);
      ProfitOneMore(evals, front, last);
      var e, b := evals[last], Profitable(evals, front);
      if e.totalScore > 0.0 {
        TotalWithout(b + {e}, e, Score);
        assert b + {e} - {e} == b;
      }
    }
  }

  /** With losses barred, no one-to-one selection scores more than twice the greedy total. */
  lemma {:induction false} GreedyIsHalfOptimal(evals: seq<CandidateEvaluation>, sorted: seq<CandidateEvaluation>,
                                               chosen: seq<nat>, rival: seq<nat>)
    requires PicksGreedily(evals, false, sorted, chosen) && OneToOneSelection(evals, rival)
    ensures ScoreSum(evals, rival) <= 2.0 * ScoreSum(sorted, chosen)
  {
    var cands, b := Eligible(sorted, false), Profitable(evals, rival);
    PermutationKeepsElements(sorted, evals);
    ProfitIsCompatible(evals, rival);
    ProfitCovers(evals, rival);
    assert Descending(sorted);
    EligibleDescending(sorted, false);
    GreedyRatio(cands, b, Slots, Score, 2);
    PickedTotal(sorted, chosen);
    TimesIsProduct(2, ScoreSum(sorted, chosen));
  }

  /** The objective of a greedy matching without losses is at least half of what any one-to-one selection scores. */
  lemma {:induction false} MatchingIsHalfOptimal(evals: seq<CandidateEvaluation>, epoch: int, out: Outputs,
                                                 rival: seq<nat>)
    requires IsGreedyMatching(evals, epoch, false, out) && OneToOneSelection(evals, rival)
    ensures ScoreSum(evals, rival) <= 2.0 * out.objective
  {
    var sorted, chosen :| PicksGreedily(evals, false, sorted, chosen) && out == Committed(sorted, chosen, epoch);
    GreedyIsHalfOptimal(evals, sorted, chosen, rival);
  }

  lemma {:induction false} GreedyIsOneToOne(sorted: seq<CandidateEvaluation>, allowNegative: bool, chosen: seq<nat>)
    requires Within(sorted, chosen)
    requires ArcsAt(sorted, chosen) == Greedy(Eligible(sorted, allowNegative), {}, Slots)
    ensures OneToOneSelection(sorted, chosen)
  {
    var picked := ArcsAt(sorted, chosen);
    GreedyIsCompatible(Eligible(sorted, allowNegative), {}, Slots);
    forall x, y | 0 <= x < y < |chosen|
      ensures sorted[chosen[x]].driverID != sorted[chosen[y]].driverID
      ensures sorted[chosen[x]].loadID != sorted[chosen[y]].loadID
    {
      assert Slots(picked[x]) !! Slots(picked[y]);
      assert DriverSlot(picked[x].driverID) in Slots(picked[x]) && LoadSlot(picked[x].loadID) in Slots(picked[x]);
    }
  }

  /** Two arcs compete when they share the driver or the load. */
  predicate Compete(a: CandidateEvaluation, b: CandidateEvaluation) {
    a.driverID == b.driverID || a.loadID == b.loadID
  }

  lemma SharedSlot(a: CandidateEvaluation, b: CandidateEvaluation)
    requires !(Slots(a) !! Slots(b))
    ensures Compete(b, a)
  {
  }

  lemma SomePickBlocks(cands: seq<CandidateEvaluation>, e: CandidateEvaluation) returns (g: CandidateEvaluation)
    requires Descending(cands) && e in cands
    ensures g in Greedy(cands, {}, Slots) && g.totalScore >= e.totalScore && Compete(g, e)
  {
    assert DriverSlot(e.driverID) in Slots(e);
    GreedyIsMaximal(cands, {}, Slots, Score, e);
    g :| g in Greedy(cands, {}, Slots) && !(Slots(e) !! Slots(g)) && Score(g) >= Score(e);
    SharedSlot(e, g);
  }

  /** Every profitable arc competes with a match that scores at least as much. */
  lemma {:induction false} GreedyIsStable(sorted: seq<CandidateEvaluation>, chosen: seq<nat>, e: CandidateEvaluation)
    requires Sorted(sorted, Before) && Within(sorted, chosen)
    requires ArcsAt(sorted, chosen) == Greedy(Eligible(sorted, false), {}, Slots)
    requires e in sorted && e.totalScore > 0.0
    ensures exists x ::
      0 <= x < |chosen| && sorted[chosen[x]].totalScore >= e.totalScore && Compete(sorted[chosen[x]], e)
  {
    assert Descending(sorted);
    EligibleDescending(sorted, false);
    var g := SomePickBlocks(Eligible(sorted, false), e);
    var x :| 0 <= x < |chosen| && sorted[chosen[x]] == g;
  }

  lemma {:induction false} EligibleFollowsKeys(s: seq<CandidateEvaluation>, t: seq<CandidateEvaluation>,
                                               allowNegative: bool)
    requires MapSeq(s, KeyOf) == MapSeq(t, KeyOf)
    ensures MapSeq(Eligible(s, allowNegative), KeyOf) == MapSeq(Eligible(t, allowNegative), KeyOf)
    decreases |s|
  {
    assert |s| == |MapSeq(s, KeyOf)| == |t|;
    if s != [] {
      assert KeyOf(s[0]) == MapSeq(s, KeyOf)[0] == MapSeq(t, KeyOf)[0] == KeyOf(t[0]);
      assert MapSeq(s[1..], KeyOf) == MapSeq(s, KeyOf)[1..] == MapSeq(t, KeyOf)[1..] == MapSeq(t[1..], KeyOf);
      EligibleFollowsKeys(s[1..], t[1..], allowNegative);
      HeadMap(Eligible(s[1..], allowNegative), s[0], KeyOf);
      HeadMap(Eligible(t[1..], allowNegative), t[0], KeyOf);
    }
  }

  /** Whatever order the evaluations come in, the matched drivers, loads and scores are the same. */
  lemma {:induction false} MatchingIgnoresInputOrder(s: seq<CandidateEvaluation>, t: seq<CandidateEvaluation>,
                                                     allowNegative: bool)
    requires multiset(s) == multiset(t) && Sorted(s, Before) && Sorted(t, Before)
    ensures MapSeq(Greedy(Eligible(s, allowNegative), {}, Slots), KeyOf)
         == MapSeq(Greedy(Eligible(t, allowNegative), {}, Slots), KeyOf)
  {
    BeforeOrder();
    assert Sorted(MapSeq(s, KeyOf), KeyBefore) && Sorted(MapSeq(t, KeyOf), KeyBefore);
    SortedKeysAgree(s, t, KeyOf, KeyBefore);
    EligibleFollowsKeys(s, t, allowNegative);
    GreedyFollowsKeys(Eligible(s, allowNegative), Eligible(t, allowNegative), {}, Slots, KeyOf);
  }
}
