/** Entities shared by the matching policies: scored candidate arcs and committed matches. */
module Dispatch {
  import opened RealSums
  import opened Sorting

  /** A scored driver-load arc; the descriptive fields that no matcher reads are not carried. */
  datatype CandidateEvaluation = CandidateEvaluation(driverID: string, loadID: string, totalScore: real,
                                                     netContribution: real, isAssigned: bool)

  datatype DriverLoadMatch = DriverLoadMatch(driverID: string, loadID: string, dispatchEpoch: int,
                                             estimatedContribution: real)

  datatype MatchingSolution = MatchingSolution(matches: seq<DriverLoadMatch>, evaluations: seq<CandidateEvaluation>,
                                               totalObjective: real, totalNetContribution: real,
                                               driverDualValues: map<string, real>, loadDualValues: map<string, real>)

  /** chosen lists positions of evals. */
  ghost predicate Within(evals: seq<CandidateEvaluation>, chosen: seq<nat>) {
    forall x :: 0 <= x < |chosen| ==> chosen[x] < |evals|
  }

  /** Positions of pairwise compatible arcs: no driver and no load twice. */
  ghost predicate OneToOneSelection(evals: seq<CandidateEvaluation>, chosen: seq<nat>) {
    && Within(evals, chosen)
    && (forall x, y :: 0 <= x < y < |chosen| ==>
          evals[chosen[x]].driverID != evals[chosen[y]].driverID && evals[chosen[x]].loadID != evals[chosen[y]].loadID)
  }

  function MatchOf(e: CandidateEvaluation, epoch: int): DriverLoadMatch {
    DriverLoadMatch(e.driverID, e.loadID, epoch, e.netContribution)
  }

  ghost function MatchesOf(evals: seq<CandidateEvaluation>, chosen: seq<nat>, epoch: int): seq<DriverLoadMatch>
    requires Within(evals, chosen)
  {
    if chosen == [] then []
    else MatchesOf(evals, chosen[..|chosen| - 1], epoch) + [MatchOf(evals[chosen[|chosen| - 1]], epoch)]
  }

  ghost function ScoreSum(evals: seq<CandidateEvaluation>, chosen: seq<nat>): real
    requires Within(evals, chosen)
  {
    if chosen == [] then 0.0
    else ScoreSum(evals, chosen[..|chosen| - 1]) + evals[chosen[|chosen| - 1]].totalScore
  }

  ghost function NetSum(evals: seq<CandidateEvaluation>, chosen: seq<nat>): real
    requires Within(evals, chosen)
  {
    if chosen == [] then 0.0
    else NetSum(evals, chosen[..|chosen| - 1]) + evals[chosen[|chosen| - 1]].netContribution
  }

  /** The evaluations with the chosen ones flagged. */
  ghost function Marked(evals: seq<CandidateEvaluation>, chosen: seq<nat>): seq<CandidateEvaluation> {
    seq(|evals|, i requires 0 <= i < |evals| => if i in chosen then evals[i].(isAssigned := true) else evals[i])
  }

  /** Scores of the flagged evaluations among the first k. */
  ghost function AssignedScore(evals: seq<CandidateEvaluation>, k: nat): real
    requires k <= |evals|
  {
    if k == 0 then 0.0
    else AssignedScore(evals, k - 1) + (if evals[k - 1].isAssigned then evals[k - 1].totalScore else 0.0)
  }

  ghost function AssignedNet(evals: seq<CandidateEvaluation>, k: nat): real
    requires k <= |evals|
  {
    if k == 0 then 0.0
    else AssignedNet(evals, k - 1) + (if evals[k - 1].isAssigned then evals[k - 1].netContribution else 0.0)
  }

  lemma {:induction false} AssignedAfterMark(evals: seq<CandidateEvaluation>, i: nat, k: nat)
    requires i < |evals| && k <= |evals|
    ensures var marked := evals[i := evals[i].(isAssigned := true)];
      var added := i < k && !evals[i].isAssigned;
      && AssignedScore(marked, k) == AssignedScore(evals, k) + (if added then evals[i].totalScore else 0.0)
      && AssignedNet(marked, k) == AssignedNet(evals, k) + (if added then evals[i].netContribution else 0.0)
  {
    if k > 0 {
      AssignedAfterMark(evals, i, k - 1);
    }
  }

  /** Scores of the first k evaluations that arrived flagged and were not chosen. */
  ghost function StaleScore(evals: seq<CandidateEvaluation>, chosen: seq<nat>, k: nat): real
    requires k <= |evals|
  {
    if k == 0 then 0.0
    else StaleScore(evals, chosen, k - 1)
         + (if evals[k - 1].isAssigned && k - 1 !in chosen then evals[k - 1].totalScore else 0.0)
  }

  ghost function StaleNet(evals: seq<CandidateEvaluation>, chosen: seq<nat>, k: nat): real
    requires k <= |evals|
  {
    if k == 0 then 0.0
    else StaleNet(evals, chosen, k - 1)
         + (if evals[k - 1].isAssigned && k - 1 !in chosen then evals[k - 1].netContribution else 0.0)
  }

  lemma {:induction false} AllStale(evals: seq<CandidateEvaluation>, k: nat)
    requires k <= |evals|
    ensures StaleScore(evals, [], k) == AssignedScore(evals, k) && StaleNet(evals, [], k) == AssignedNet(evals, k)
  {
    if k > 0 {
      AllStale(evals, k - 1);
    }
  }

  lemma {:induction false} StaleAfterChoice(evals: seq<CandidateEvaluation>, chosen: seq<nat>, i: nat, k: nat)
    requires i < |evals| && i !in chosen && k <= |evals|
    ensures var gone := i < k && evals[i].isAssigned;
      && StaleScore(evals, chosen + [i], k)
         == StaleScore(evals, chosen, k) - (if gone then evals[i].totalScore else 0.0)
      && StaleNet(evals, chosen + [i], k)
         == StaleNet(evals, chosen, k) - (if gone then evals[i].netContribution else 0.0)
  {
    if k > 0 {
      StaleAfterChoice(evals, chosen, i, k - 1);
      assert k - 1 in chosen + [i] <==> k - 1 in chosen || k - 1 == i;
    }
  }

  lemma MarkOneMore(evals: seq<CandidateEvaluation>, chosen: seq<nat>, i: nat)
    requires i < |evals| && Within(evals, chosen)
    ensures Marked(evals, chosen + [i]) == Marked(evals, chosen)[i := evals[i].(isAssigned := true)]
  {
  }

  lemma {:induction false} SelectOneMore(evals: seq<CandidateEvaluation>, chosen: seq<nat>, i: nat, epoch: int)
    requires i < |evals| && Within(evals, chosen)
    ensures MatchesOf(evals, chosen + [i], epoch) == MatchesOf(evals, chosen, epoch) + [MatchOf(evals[i], epoch)]
    ensures ScoreSum(evals, chosen + [i]) == ScoreSum(evals, chosen) + evals[i].totalScore
    ensures NetSum(evals, chosen + [i]) == NetSum(evals, chosen) + evals[i].netContribution
  {
    assert (chosen + [i])[..|chosen|] == chosen;
  }

  /** Outputs of a matcher that has committed the chosen arcs. */
  datatype Outputs = Outputs(matches: seq<DriverLoadMatch>, evaluations: seq<CandidateEvaluation>, objective: real,
                             net: real)

  ghost function Committed(evals: seq<CandidateEvaluation>, chosen: seq<nat>, epoch: int): Outputs
    requires Within(evals, chosen)
  {
    Outputs(MatchesOf(evals, chosen, epoch), Marked(evals, chosen), ScoreSum(evals, chosen), NetSum(evals, chosen))
  }

  /** Committing one more arc. */
  method Commit(out: Outputs, epoch: int, i: nat, score: real, ghost evals: seq<CandidateEvaluation>,
                ghost chosen: seq<nat>)
    returns (out': Outputs)
    requires Within(evals, chosen)
    requires out == Committed(evals, chosen, epoch) && i < |evals| && score == evals[i].totalScore
    ensures out' == Committed(evals, chosen + [i], epoch)
  {
    MarkOneMore(evals, chosen, i);
    SelectOneMore(evals, chosen, i, epoch);
    var e := out.evaluations[i].(isAssigned := true);
    out' := Outputs(out.matches + [DriverLoadMatch(e.driverID, e.loadID, epoch, e.netContribution)],
                    out.evaluations[i := e], out.objective + score, out.net + e.netContribution);
  }

  /** The flagged evaluations total what was selected and whatever arrived flagged without being selected. */
  lemma {:induction false} FlaggedTotals(evals: seq<CandidateEvaluation>, chosen: seq<nat>)
    requires OneToOneSelection(evals, chosen)
    ensures AssignedScore(Marked(evals, chosen), |evals|)
         == ScoreSum(evals, chosen) + StaleScore(evals, chosen, |evals|)
    ensures AssignedNet(Marked(evals, chosen), |evals|) == NetSum(evals, chosen) + StaleNet(evals, chosen, |evals|)
  {
    if chosen == [] {
      assert Marked(evals, chosen) == evals;
      AllStale(evals, |evals|);
    } else {
      var front, last := chosen[..|chosen| - 1], chosen[|chosen| - 1];
      assert chosen == front + [last];
      FlaggedTotals(evals, front);
      MarkOneMore(evals, front, last);
      assert last !in front;
      AssignedAfterMark(Marked(evals, front), last, |evals|);
      StaleAfterChoice(evals, front, last, |evals|);
    }
  }

  lemma {:induction false} NothingStale(evals: seq<CandidateEvaluation>, chosen: seq<nat>, k: nat)
    requires k <= |evals| && forall i :: 0 <= i < |evals| ==> !evals[i].isAssigned
    ensures StaleScore(evals, chosen, k) == 0.0 && StaleNet(evals, chosen, k) == 0.0
  {
    if k > 0 {
      NothingStale(evals, chosen, k - 1);
    }
  }

  /** So the totals of a selection are those of the flagged evaluations exactly when what arrived flagged and was not
      selected totals zero. */
  lemma {:induction false} MarkedTotals(evals: seq<CandidateEvaluation>, chosen: seq<nat>)
    requires OneToOneSelection(evals, chosen)
    ensures AssignedScore(Marked(evals, chosen), |evals|) == ScoreSum(evals, chosen)
       <==> StaleScore(evals, chosen, |evals|) == 0.0
    ensures AssignedNet(Marked(evals, chosen), |evals|) == NetSum(evals, chosen)
       <==> StaleNet(evals, chosen, |evals|) == 0.0
    ensures (forall i :: 0 <= i < |evals| ==> !evals[i].isAssigned) ==>
      StaleScore(evals, chosen, |evals|) == 0.0 && StaleNet(evals, chosen, |evals|) == 0.0
  {
    FlaggedTotals(evals, chosen);
    if forall i :: 0 <= i < |evals| ==> !evals[i].isAssigned {
      NothingStale(evals, chosen, |evals|);
    }
  }

  // ---- What the committed matches say ----

  ghost function Scores(evals: seq<CandidateEvaluation>, chosen: seq<nat>): (x: seq<real>)
    requires Within(evals, chosen)
    ensures |x| == |chosen| && forall k :: 0 <= k < |chosen| ==> x[k] == evals[chosen[k]].totalScore
  {
    seq(|chosen|, k requires 0 <= k < |chosen| => evals[chosen[k]].totalScore)
  }

  ghost function Contributions(matches: seq<DriverLoadMatch>): (x: seq<real>)
    ensures |x| == |matches| && forall k :: 0 <= k < |matches| ==> x[k] == matches[k].estimatedContribution
  {
    seq(|matches|, k requires 0 <= k < |matches| => matches[k].estimatedContribution)
  }

  lemma {:induction false} MatchesNameArcs(evals: seq<CandidateEvaluation>, chosen: seq<nat>, epoch: int)
    requires Within(evals, chosen)
    ensures |MatchesOf(evals, chosen, epoch)| == |chosen|
    ensures forall x :: 0 <= x < |chosen| ==>
      var m, e := MatchesOf(evals, chosen, epoch)[x], evals[chosen[x]];
      && m.driverID == e.driverID && m.loadID == e.loadID
      && m.dispatchEpoch == epoch && m.estimatedContribution == e.netContribution
  {
    if chosen != [] {
      MatchesNameArcs(evals, chosen[..|chosen| - 1], epoch);
    }
  }

  lemma SumAppend(x: seq<real>, y: seq<real>)
    requires x != [] && y == x[..|x| - 1]
    ensures Sum(x) == Sum(y) + x[|x| - 1]
  {
    SumToPrefix(x, y, |y|);
  }

  lemma {:induction false} TotalsAdd(evals: seq<CandidateEvaluation>, chosen: seq<nat>, epoch: int)
    requires Within(evals, chosen)
    ensures ScoreSum(evals, chosen) == Sum(Scores(evals, chosen))
    ensures NetSum(evals, chosen) == Sum(Contributions(MatchesOf(evals, chosen, epoch)))
  {
    if chosen != [] {
      var front := chosen[..|chosen| - 1];
      TotalsAdd(evals, front, epoch);
      assert chosen == front + [chosen[|chosen| - 1]];
      MatchesNameArcs(evals, chosen, epoch);
      MatchesNameArcs(evals, front, epoch);
      SumAppend(Scores(evals, chosen), Scores(evals, front));
      SumAppend(Contributions(MatchesOf(evals, chosen, epoch)), Contributions(MatchesOf(evals, front, epoch)));
    }
  }

  /** Sorting the matches changes neither what they say nor what they add up to. */
  lemma {:induction false} SortedMatches(evals: seq<CandidateEvaluation>, chosen: seq<nat>, epoch: int,
                                         matches: seq<DriverLoadMatch>)
    requires Within(evals, chosen) && multiset(matches) == multiset(MatchesOf(evals, chosen, epoch))
    ensures |matches| == |chosen| && Sum(Contributions(matches)) == NetSum(evals, chosen)
    ensures forall x :: 0 <= x < |chosen| ==>
      var e := evals[chosen[x]];
      DriverLoadMatch(e.driverID, e.loadID, epoch, e.netContribution) in matches
    ensures forall m :: m in matches ==>
      exists x ::
        && 0 <= x < |chosen| && m.driverID == evals[chosen[x]].driverID && m.loadID == evals[chosen[x]].loadID
        && m.dispatchEpoch == epoch && m.estimatedContribution == evals[chosen[x]].netContribution
  {
    var listed := MatchesOf(evals, chosen, epoch);
    MatchesNameArcs(evals, chosen, epoch);
    assert |matches| == |multiset(matches)| == |multiset(listed)| == |listed|;
    PermutationKeepsElements(matches, listed);
    PermutationKeepsElements(listed, matches);
    TotalsAdd(evals, chosen, epoch);
    MapKeepsMultiset(matches, listed, (m: DriverLoadMatch) => m.estimatedContribution);
    assert Contributions(matches) == MapSeq(matches, (m: DriverLoadMatch) => m.estimatedContribution);
    assert Contributions(listed) == MapSeq(listed, (m: DriverLoadMatch) => m.estimatedContribution);
    SumIgnoresOrder(Contributions(matches), Contributions(listed));
    forall x | 0 <= x < |chosen|
      ensures var e := evals[chosen[x]]; DriverLoadMatch(e.driverID, e.loadID, epoch, e.netContribution) in matches
    {
      assert listed[x] in listed;
    }
    forall m | m in matches
      ensures exists x ::
        && 0 <= x < |chosen| && m.driverID == evals[chosen[x]].driverID && m.loadID == evals[chosen[x]].loadID
        && m.dispatchEpoch == epoch && m.estimatedContribution == evals[chosen[x]].netContribution
    {
      var x :| 0 <= x < |listed| && listed[x] == m;
    }
  }
}
