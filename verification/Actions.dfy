/** Joint decisions: dispatches and bids, their canonical order, and their feasibility. */
module Actions {
  import opened Wrappers
  import opened Pigeonhole
  import opened Sorting
  import opened Dispatch
  import opened Resources
  import opened Transitions

  datatype SpotPriceBid = SpotPriceBid(loadID: string, bidPrice: real)

  datatype Action = Action(matches: seq<DriverLoadMatch>, bids: seq<SpotPriceBid>)

  datatype ActionError =
    | NilResource
    | BadMatch(cause: TransitionError)
    | DuplicateBid(loadID: string)
    | InvalidBidPrice(loadID: string)
    | UnknownBidLoad(loadID: string)

  predicate MatchBefore(a: DriverLoadMatch, b: DriverLoadMatch) {
    if a.driverID == b.driverID then IdLess(a.loadID, b.loadID) else IdLess(a.driverID, b.driverID)
  }

  predicate BidBefore(a: SpotPriceBid, b: SpotPriceBid) {
    IdLess(a.loadID, b.loadID)
  }

  lemma MatchWeak(x: DriverLoadMatch, y: DriverLoadMatch, z: DriverLoadMatch)
    ensures MatchBefore(x, z) ==> MatchBefore(x, y) || MatchBefore(y, z)
    ensures MatchBefore(x, y) ==> !MatchBefore(y, x)
  {
    IdOrder();
    IdWeak(x.loadID, y.loadID, z.loadID);
    IdWeak(x.driverID, y.driverID, z.driverID);
  }

  lemma ActionOrders()
    ensures StrictWeakOrder(MatchBefore) && StrictWeakOrder(BidBefore)
  {
    IdOrder();
    forall x, y, z
      ensures MatchBefore(x, z) ==> MatchBefore(x, y) || MatchBefore(y, z)
      ensures MatchBefore(x, y) ==> !MatchBefore(y, x)
    {
      MatchWeak(x, y, z);
    }
    forall x: SpotPriceBid, y: SpotPriceBid, z: SpotPriceBid
      ensures BidBefore(x, z) ==> BidBefore(x, y) || BidBefore(y, z)
    {
      IdWeak(x.loadID, y.loadID, z.loadID);
    }
  }

  lemma SortedReads(a: Action)
    requires Sorted(a.matches, MatchBefore) && Sorted(a.bids, BidBefore)
    ensures forall i, j :: 0 <= i < j < |a.matches| ==>
      || IdLess(a.matches[i].driverID, a.matches[j].driverID)
      || (a.matches[i].driverID == a.matches[j].driverID
          && (IdLess(a.matches[i].loadID, a.matches[j].loadID) || a.matches[i].loadID == a.matches[j].loadID))
    ensures forall i, j :: 0 <= i < j < |a.bids| ==>
      IdLess(a.bids[i].loadID, a.bids[j].loadID) || a.bids[i].loadID == a.bids[j].loadID
  {
    IdOrder();
    forall i, j | 0 <= i < j < |a.matches|
      ensures !MatchBefore(a.matches[j], a.matches[i])
    {
    }
    forall i, j | 0 <= i < j < |a.bids|
      ensures !BidBefore(a.bids[j], a.bids[i])
    {
    }
  }

  /** The decision with its parts in canonical order. */
  method NewAction(matches: seq<DriverLoadMatch>, bids: seq<SpotPriceBid>) returns (a: Action)
    ensures multiset(a.matches) == multiset(matches) && multiset(a.bids) == multiset(bids)
    ensures Sorted(a.matches, MatchBefore) && Sorted(a.bids, BidBefore)
    ensures forall i, j :: 0 <= i < j < |a.matches| ==>
      || IdLess(a.matches[i].driverID, a.matches[j].driverID)
      || (a.matches[i].driverID == a.matches[j].driverID
          && (IdLess(a.matches[i].loadID, a.matches[j].loadID) || a.matches[i].loadID == a.matches[j].loadID))
    ensures forall i, j :: 0 <= i < j < |a.bids| ==>
      IdLess(a.bids[i].loadID, a.bids[j].loadID) || a.bids[i].loadID == a.bids[j].loadID
  {
    ActionOrders();
    var sortedMatches := Sort(matches, MatchBefore);
    var sortedBids := Sort(bids, BidBefore);
    a := Action(sortedMatches, sortedBids);
    SortedReads(a);
  }

  function BidLoad(b: SpotPriceBid): string {
    b.loadID
  }

  ghost predicate BidOk(rs: ResourceState, b: SpotPriceBid) {
    b.bidPrice > 0.0 && rs.GetLoad(b.loadID).Some?
  }

  ghost predicate BidsOk(rs: ResourceState, bids: seq<SpotPriceBid>) {
    Distinct(MapSeq(bids, BidLoad)) && forall i :: 0 <= i < |bids| ==> BidOk(rs, bids[i])
  }

  ghost predicate Feasible(rs: ResourceState, a: Action) {
    MatchesOk(rs, a.matches) && BidsOk(rs, a.bids)
  }

  /** Bid i is the first that is refused, and e says why: a load already bid for, a price that is not positive, a load
      nobody knows, judged in this order. */
  ghost predicate BidRefused(rs: ResourceState, bids: seq<SpotPriceBid>, i: nat, e: ActionError) {
    && i < |bids| && (forall k :: 0 <= k < i ==> BidOk(rs, bids[k]))
    && var ids, b := MapSeq(bids, BidLoad), bids[i];
    && Distinct(ids[..i])
    && if b.loadID in ids[..i] then e == DuplicateBid(b.loadID)
       else if b.bidPrice <= 0.0 then e == InvalidBidPrice(b.loadID)
       else rs.GetLoad(b.loadID).None? && e == UnknownBidLoad(b.loadID)
  }

  method CheckBids(rs: ResourceState, bids: seq<SpotPriceBid>) returns (error: Option<ActionError>)
    requires ValidResource(rs)
    ensures error.None? <==> BidsOk(rs, bids)
    ensures error.Some? ==> exists i :: BidRefused(rs, bids, i, error.value)
  {
    ghost var ids := MapSeq(bids, BidLoad);
    var seen: set<string> := {};
    var i := 0;
    while i < |bids|
      invariant 0 <= i <= |bids|
      invariant SeenUpTo(seen, ids, i) && Distinct(ids[..i])
      invariant forall k :: 0 <= k < i ==> BidOk(rs, bids[k])
    {
      var b := bids[i];
      assert ids[..i + 1] == ids[..i] + [b.loadID];
      if b.loadID in seen {
        Repeated(ids, i);
        assert BidRefused(rs, bids, i, DuplicateBid(b.loadID));
        return Some(DuplicateBid(b.loadID));
      }
      seen := seen + {b.loadID};
      if b.bidPrice <= 0.0 {
        assert !BidOk(rs, bids[i]);
        assert BidRefused(rs, bids, i, InvalidBidPrice(b.loadID));
        return Some(InvalidBidPrice(b.loadID));
      }
      if rs.GetLoad(b.loadID).None? {
        assert !BidOk(rs, bids[i]);
        assert BidRefused(rs, bids, i, UnknownBidLoad(b.loadID));
        return Some(UnknownBidLoad(b.loadID));
      }
      i := i + 1;
    }
    assert ids[..|ids|] == ids;
    return None;
  }

  /** None exactly when the decision can be carried out in the state. Matches are checked before bids. */
  method ValidateFeasibility(a: Action, resource: Option<ResourceState>) returns (error: Option<ActionError>)
    requires resource.Some? ==> ValidResource(resource.value)
    ensures error == Some(NilResource) <==> resource.None?
    ensures error.None? <==> resource.Some? && Feasible(resource.value, a)
    ensures (error.Some? && error.value.BadMatch?) <==> resource.Some? && !MatchesOk(resource.value, a.matches)
    ensures error.Some? && error.value.BadMatch? ==>
      exists i :: Refused(resource.value, a.matches, i, error.value.cause)
    ensures error.Some? && resource.Some? && MatchesOk(resource.value, a.matches) ==>
      exists i :: BidRefused(resource.value, a.bids, i, error.value)
  {
    if resource.None? {
      return Some(NilResource);
    }
    var bad := CheckMatches(resource.value, a.matches);
    if bad.Some? {
      return Some(BadMatch(bad.value));
    }
    error := CheckBids(resource.value, a.bids);
  }

  /** Whether matches can be carried out does not depend on their order. */
  lemma FeasibilityIgnoresOrder(rs: ResourceState, s: seq<DriverLoadMatch>, t: seq<DriverLoadMatch>)
    requires multiset(s) == multiset(t) && MatchesOk(rs, s)
    ensures MatchesOk(rs, t)
  {
    MapKeepsMultiset(s, t, MatchDriver);
    MapKeepsMultiset(s, t, MatchLoad);
    PermutationKeepsElements(MapSeq(t, MatchDriver), MapSeq(s, MatchDriver));
    PermutationKeepsElements(MapSeq(t, MatchLoad), MapSeq(s, MatchLoad));
    PermutationKeepsElements(t, s);
    forall i | 0 <= i < |t|
      ensures MatchOk(rs, t[i])
    {
      assert t[i] in s;
    }
  }

  /** A decision that passes the feasibility check never makes the transition fail, in whatever order its matches are
      handed over; without bids the check is no stricter than the transition. */
  lemma FeasibleActionsTransition(rs: ResourceState, a: Action, matches: seq<DriverLoadMatch>)
    requires multiset(a.matches) == multiset(matches)
    ensures Feasible(rs, a) ==> MatchesOk(rs, matches)
    ensures a.bids == [] ==> (Feasible(rs, a) <==> MatchesOk(rs, matches))
  {
    if MatchesOk(rs, matches) {
      FeasibilityIgnoresOrder(rs, matches, a.matches);
    }
    if MatchesOk(rs, a.matches) {
      FeasibilityIgnoresOrder(rs, a.matches, matches);
    }
  }
}
