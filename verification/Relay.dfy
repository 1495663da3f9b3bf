/** Relay synthesis: sort the profitable dual-driver exchanges and keep the non-conflicting ones, best first. */
module Relay {
  import opened Pigeonhole
  import opened RealSums
  import opened Sorting
  import opened GreedySelection
  import opened SlotSets

  /** A profitable exchange: driverIn brings load loadID to hub, driverOut takes it on. */
  datatype RelayCandidate = RelayCandidate(driverIn: string, driverOut: string, loadID: string, net: real, hub: string)

  /** Everything the sort compares. */
  datatype RelayKey = RelayKey(net: real, loadID: string, driverIn: string, driverOut: string)

  function KeyOf(c: RelayCandidate): RelayKey {
    RelayKey(c.net, c.loadID, c.driverIn, c.driverOut)
  }

  function Needs(c: RelayCandidate): set<Slot> {
    {DriverSlot(c.driverIn), DriverSlot(c.driverOut), LoadSlot(c.loadID)}
  }

  function Net(c: RelayCandidate): real {
    c.net
  }

  predicate KeyBefore(a: RelayKey, b: RelayKey) {
    if a.net != b.net then a.net > b.net
    else if a.loadID != b.loadID then IdLess(a.loadID, b.loadID)
    else if a.driverIn != b.driverIn then IdLess(a.driverIn, b.driverIn)
    else IdLess(a.driverOut, b.driverOut)
  }

  predicate Before(a: RelayCandidate, b: RelayCandidate) {
    KeyBefore(KeyOf(a), KeyOf(b))
  }

  lemma KeyOrder()
    ensures StrictWeakOrder(KeyBefore) && Decides(KeyBefore)
    ensures StrictWeakOrder(Before)
  {
    IdOrder();
  }

  /** What the feasibility evaluation guarantees of the candidates it passes on. */
  ghost predicate Profitable(cands: seq<RelayCandidate>) {
    forall c :: c in cands ==> c.net > 0.0 && c.driverIn != c.driverOut
  }

  lemma SlotsOfCandidate(c: RelayCandidate)
    ensures Needs(c) == SlotsOf({c.driverIn, c.driverOut}, {c.loadID})
  {
    forall s: Slot
      ensures s in Needs(c) <==> s in SlotsOf({c.driverIn, c.driverOut}, {c.loadID})
    {
      SlotsAreNamed(s, {c.driverIn, c.driverOut}, {c.loadID});
    }
  }

  lemma PassHead(cands: seq<RelayCandidate>, i: nat, drivers: set<string>, loads: set<string>)
    requires i < |cands|
    ensures var c := cands[i];
      Greedy(cands[i..], SlotsOf(drivers, loads), Needs) ==
        if c.driverIn in drivers || c.driverOut in drivers || c.loadID in loads
        then Greedy(cands[i + 1..], SlotsOf(drivers, loads), Needs)
        else [c] + Greedy(cands[i + 1..], SlotsOf(drivers + {c.driverIn, c.driverOut}, loads + {c.loadID}), Needs)
  {
    var c := cands[i];
    SlotsOfCandidate(c);
    SlotsFree(drivers, loads, {c.driverIn, c.driverOut}, {c.loadID});
    SlotsOfMore(drivers, loads, {c.driverIn, c.driverOut}, {c.loadID});
    assert cands[i..][1..] == cands[i + 1..];
  }

  /** selected is the greedy pass over some sorted arrangement of what arrived. */
  ghost predicate IsSelection(arrived: seq<RelayCandidate>, selected: seq<RelayCandidate>) {
    exists sorted ::
      multiset(sorted) == multiset(arrived) && Sorted(sorted, Before) && selected == Greedy(sorted, {}, Needs)
  }

  /** The loop at candidate i: what is selected so far, followed by what the pass would still select, is the whole. */
  ghost predicate Under(cands: seq<RelayCandidate>, i: nat, drivers: set<string>, loads: set<string>,
                        selected: seq<RelayCandidate>) {
    i <= |cands| && selected + Greedy(cands[i..], SlotsOf(drivers, loads), Needs) == Greedy(cands, {}, Needs)
  }

  lemma Begin(cands: seq<RelayCandidate>)
    ensures Under(cands, 0, {}, {}, [])
  {
    assert cands[0..] == cands && SlotsOf({}, {}) == {};
  }

  lemma {:induction false} Finish(cands: seq<RelayCandidate>, drivers: set<string>, loads: set<string>,
                                  selected: seq<RelayCandidate>)
    requires Under(cands, |cands|, drivers, loads, selected)
    ensures selected == Greedy(cands, {}, Needs)
  {
    assert cands[|cands|..] == [] && selected + [] == selected;
  }

  lemma Skip(cands: seq<RelayCandidate>, i: nat, drivers: set<string>, loads: set<string>,
             selected: seq<RelayCandidate>)
    requires i < |cands| && Under(cands, i, drivers, loads, selected)
    requires cands[i].driverIn in drivers || cands[i].driverOut in drivers || cands[i].loadID in loads
    ensures Under(cands, i + 1, drivers, loads, selected)
  {
    PassHead(cands, i, drivers, loads);
  }

  lemma Take(cands: seq<RelayCandidate>, i: nat, drivers: set<string>, loads: set<string>,
             selected: seq<RelayCandidate>)
    requires i < |cands| && Under(cands, i, drivers, loads, selected)
    requires cands[i].driverIn !in drivers && cands[i].driverOut !in drivers && cands[i].loadID !in loads
    ensures Under(cands, i + 1, drivers + {cands[i].driverIn, cands[i].driverOut}, loads + {cands[i].loadID},
                  selected + [cands[i]])
  {
    var c := cands[i];
    PassHead(cands, i, drivers, loads);
    var later := Greedy(cands[i + 1..], SlotsOf(drivers + {c.driverIn, c.driverOut}, loads + {c.loadID}), Needs);
    assert selected + ([c] + later) == (selected + [c]) + later;
  }

  // ---- The pass in the words of the candidates ----

  /** No chosen candidate before k has one of its drivers or its load. */
  ghost predicate FreeAt(cands: seq<RelayCandidate>, chosen: seq<nat>, k: nat)
    requires k < |cands|
  {
    forall h :: h in chosen && h < k ==>
      && cands[h].loadID != cands[k].loadID
      && {cands[h].driverIn, cands[h].driverOut} !! {cands[k].driverIn, cands[k].driverOut}
  }

  ghost predicate Within(cands: seq<RelayCandidate>, chosen: seq<nat>) {
    forall x :: 0 <= x < |chosen| ==> chosen[x] < |cands|
  }

  ghost function DriversAt(cands: seq<RelayCandidate>, chosen: seq<nat>): set<string>
    requires Within(cands, chosen)
  {
    (set x | 0 <= x < |chosen| :: cands[chosen[x]].driverIn) + (set x | 0 <= x < |chosen| :: cands[chosen[x]].driverOut)
  }

  ghost function LoadsAt(cands: seq<RelayCandidate>, chosen: seq<nat>): set<string>
    requires Within(cands, chosen)
  {
    set x | 0 <= x < |chosen| :: cands[chosen[x]].loadID
  }

  lemma HoldMore(cands: seq<RelayCandidate>, chosen: seq<nat>, i: nat)
    requires i < |cands| && Within(cands, chosen)
    ensures DriversAt(cands, chosen + [i]) == DriversAt(cands, chosen) + {cands[i].driverIn, cands[i].driverOut}
    ensures LoadsAt(cands, chosen + [i]) == LoadsAt(cands, chosen) + {cands[i].loadID}
  {
    var more := chosen + [i];
    assert more[|chosen|] == i && forall x :: 0 <= x < |chosen| ==> more[x] == chosen[x];
    forall x | 0 <= x < |chosen|
      ensures cands[chosen[x]].driverIn in DriversAt(cands, more) && cands[chosen[x]].loadID in LoadsAt(cands, more)
      ensures cands[chosen[x]].driverOut in DriversAt(cands, more)
    {
      assert cands[more[x]] == cands[chosen[x]];
    }
    assert cands[more[|chosen|]] == cands[i];
  }

  /** Of the candidates below i exactly the free ones are chosen, in their order. */
  ghost predicate Decided(cands: seq<RelayCandidate>, i: nat, chosen: seq<nat>) {
    && i <= |cands| && (forall x :: 0 <= x < |chosen| ==> chosen[x] < i)
    && (forall x, y :: 0 <= x < y < |chosen| ==> chosen[x] < chosen[y])
    && forall k :: 0 <= k < i ==> (k in chosen <==> FreeAt(cands, chosen, k))
  }

  lemma FreeIsTaken(cands: seq<RelayCandidate>, i: nat, chosen: seq<nat>)
    requires i < |cands| && forall x :: 0 <= x < |chosen| ==> chosen[x] < i
    ensures FreeAt(cands, chosen, i) <==>
      && cands[i].driverIn !in DriversAt(cands, chosen) && cands[i].driverOut !in DriversAt(cands, chosen)
      && cands[i].loadID !in LoadsAt(cands, chosen)
  {
  }

  lemma DecideNext(cands: seq<RelayCandidate>, i: nat, chosen: seq<nat>)
    requires i < |cands| && Decided(cands, i, chosen)
    ensures Decided(cands, i + 1, if FreeAt(cands, chosen, i) then chosen + [i] else chosen)
  {
    var more := if FreeAt(cands, chosen, i) then chosen + [i] else chosen;
    assert forall k :: k in more <==> k in chosen || (k == i && FreeAt(cands, chosen, i));
    forall k | 0 <= k < i + 1
      ensures k in more <==> FreeAt(cands, more, k)
    {
      assert FreeAt(cands, more, k) <==> FreeAt(cands, chosen, k);
    }
  }

  /** selected lists the chosen candidates, and drivers and loads are theirs. */
  ghost predicate Keeps(cands: seq<RelayCandidate>, i: nat, drivers: set<string>, loads: set<string>,
                        selected: seq<RelayCandidate>, chosen: seq<nat>) {
    && Decided(cands, i, chosen) && |selected| == |chosen|
    && (forall x :: 0 <= x < |chosen| ==> selected[x] == cands[chosen[x]])
    && drivers == DriversAt(cands, chosen) && loads == LoadsAt(cands, chosen)
  }

  lemma KeepNext(cands: seq<RelayCandidate>, i: nat, drivers: set<string>, loads: set<string>,
                 selected: seq<RelayCandidate>, chosen: seq<nat>)
    requires i < |cands| && Keeps(cands, i, drivers, loads, selected, chosen)
    ensures var c := cands[i];
      if c.driverIn in drivers || c.driverOut in drivers || c.loadID in loads
      then Keeps(cands, i + 1, drivers, loads, selected, chosen)
      else Keeps(cands, i + 1, drivers + {c.driverIn, c.driverOut}, loads + {c.loadID}, selected + [c], chosen + [i])
  {
    FreeIsTaken(cands, i, chosen);
    DecideNext(cands, i, chosen);
    HoldMore(cands, chosen, i);
  }

  /** Sorted as the candidates are sorted: highest net value first, then by load, incoming and outgoing driver. */
  lemma OrderReads(cands: seq<RelayCandidate>)
    requires Sorted(cands, Before)
    ensures forall i, j :: 0 <= i < j < |cands| ==>
      || cands[i].net > cands[j].net
      || (cands[i].net == cands[j].net
          && (|| IdLess(cands[i].loadID, cands[j].loadID)
              || (cands[i].loadID == cands[j].loadID
                  && (|| IdLess(cands[i].driverIn, cands[j].driverIn)
                      || (cands[i].driverIn == cands[j].driverIn
                          && (|| IdLess(cands[i].driverOut, cands[j].driverOut)
                              || cands[i].driverOut == cands[j].driverOut))))))
  {
    IdOrder();
    forall i, j | 0 <= i < j < |cands|
      ensures !Before(cands[j], cands[i])
    {
    }
  }

  /** The sort and the pass. */
  method Pass(arrived: seq<RelayCandidate>)
    returns (selected: seq<RelayCandidate>, ghost cands: seq<RelayCandidate>, ghost chosen: seq<nat>)
    ensures IsSelection(arrived, selected)
    ensures multiset(cands) == multiset(arrived) && Sorted(cands, Before) && Decided(cands, |cands|, chosen)
    ensures |selected| == |chosen| && forall x :: 0 <= x < |chosen| ==> selected[x] == cands[chosen[x]]
  {
    KeyOrder();
    var sorted := Sort(arrived, Before);
    cands, chosen := sorted, [];
    var usedDrivers: set<string> := {};
    var usedLoads: set<string> := {};
    selected := [];
    Begin(sorted);
    var i := 0;
    while i < |sorted|
      invariant 0 <= i <= |sorted| && cands == sorted
      invariant Under(sorted, i, usedDrivers, usedLoads, selected)
      invariant Keeps(sorted, i, usedDrivers, usedLoads, selected, chosen)
    {
      var c := sorted[i];
      KeepNext(sorted, i, usedDrivers, usedLoads, selected, chosen);
      if c.driverIn in usedDrivers || c.driverOut in usedDrivers || c.loadID in usedLoads {
        Skip(sorted, i, usedDrivers, usedLoads, selected);
      } else {
        Take(sorted, i, usedDrivers, usedLoads, selected);
        usedDrivers := usedDrivers + {c.driverIn, c.driverOut};
        usedLoads := usedLoads + {c.loadID};
        selected, chosen := selected + [c], chosen + [i];
      }
      i := i + 1;
    }
    Finish(sorted, usedDrivers, usedLoads, selected);
  }

  /** arrived lists the candidates in the order the concurrent evaluations delivered them, cands as they are sorted. */
  method SelectRelays(arrived: seq<RelayCandidate>)
    returns (selected: seq<RelayCandidate>, ghost cands: seq<RelayCandidate>, ghost chosen: seq<nat>)
    ensures IsSelection(arrived, selected)
    ensures multiset(cands) == multiset(arrived)
    ensures forall i, j :: 0 <= i < j < |cands| ==>
      || cands[i].net > cands[j].net
      || (cands[i].net == cands[j].net
          && (|| IdLess(cands[i].loadID, cands[j].loadID)
              || (cands[i].loadID == cands[j].loadID
                  && (|| IdLess(cands[i].driverIn, cands[j].driverIn)
                      || (cands[i].driverIn == cands[j].driverIn
                          && (|| IdLess(cands[i].driverOut, cands[j].driverOut)
                              || cands[i].driverOut == cands[j].driverOut))))))
    ensures forall x, y :: 0 <= x < y < |chosen| ==> chosen[x] < chosen[y] < |cands|
    ensures forall i :: 0 <= i < |cands| ==>
      (i in chosen <==> forall h :: h in chosen && h < i ==>
        && cands[h].loadID != cands[i].loadID
        && {cands[h].driverIn, cands[h].driverOut} !! {cands[i].driverIn, cands[i].driverOut})
    ensures |selected| == |chosen| && forall x :: 0 <= x < |chosen| ==>
      chosen[x] < |cands| && selected[x] == cands[chosen[x]]
  {
    selected, cands, chosen := Pass(arrived);
    OrderReads(cands);
    assert forall i :: 0 <= i < |cands| ==> (i in chosen <==> FreeAt(cands, chosen, i));
  }

  /** No driver and no load is used twice. */
  ghost predicate NonConflicting(s: seq<RelayCandidate>) {
    forall i, j :: 0 <= i < j < |s| ==>
      && s[i].loadID != s[j].loadID
      && {s[i].driverIn, s[i].driverOut} !! {s[j].driverIn, s[j].driverOut}
  }

  lemma {:induction false} PicksDoNotConflict(sorted: seq<RelayCandidate>)
    ensures NonConflicting(Greedy(sorted, {}, Needs))
  {
    var picked := Greedy(sorted, {}, Needs);
    GreedyIsCompatible(sorted, {}, Needs);
    forall i, j | 0 <= i < j < |picked|
      ensures picked[i].loadID != picked[j].loadID
      ensures {picked[i].driverIn, picked[i].driverOut} !! {picked[j].driverIn, picked[j].driverOut}
    {
      NeedsApart(picked[i], picked[j]);
    }
  }

  lemma {:induction false} PicksCollectAThird(sorted: seq<RelayCandidate>, b: set<RelayCandidate>)
    requires Profitable(sorted) && Sorted(sorted, Before) && Compatible(b, Needs) && forall c :: c in b ==> c in sorted
    ensures Total(b, Net) <= 3.0 * TotalOf(Greedy(sorted, {}, Needs), Net)
  {
    assert forall i, j :: 0 <= i < j < |sorted| ==> !Before(sorted[j], sorted[i]);
    GreedyRatio(sorted, b, Needs, Net, 3);
    TimesIsProduct(3, TotalOf(Greedy(sorted, {}, Needs), Net));
  }

  ghost function Nets(s: seq<RelayCandidate>): (x: seq<real>)
    ensures |x| == |s| && forall i :: 0 <= i < |s| ==> x[i] == s[i].net
  {
    seq(|s|, i requires 0 <= i < |s| => s[i].net)
  }

  lemma {:induction false} NetsAreTotal(s: seq<RelayCandidate>)
    ensures TotalOf(s, Net) == Sum(Nets(s))
  {
    TotalOfIsSum(s, Net);
    assert MapSeq(s, Net) == Nets(s);
  }

  lemma RivalIsCompatible(rival: seq<RelayCandidate>)
    requires NonConflicting(rival)
    ensures Distinct(rival) && Compatible(Elements(rival), Needs)
  {
    forall c, d | c in Elements(rival) && d in Elements(rival) && c != d
      ensures Needs(c) !! Needs(d)
    {
      var i :| 0 <= i < |rival| && rival[i] == c;
      var j :| 0 <= j < |rival| && rival[j] == d;
      assert if i < j then NonConflicting([c, d]) else NonConflicting([d, c]);
    }
  }

  /** The selection reuses no driver or load, and nets at least a third of any non-conflicting selection. */
  lemma RelaysAreThirdOptimal(arrived: seq<RelayCandidate>, selected: seq<RelayCandidate>, rival: seq<RelayCandidate>)
    requires Profitable(arrived) && IsSelection(arrived, selected)
    requires NonConflicting(rival) && forall c :: c in rival ==> c in arrived
    ensures NonConflicting(selected)
    ensures Sum(Nets(rival)) <= 3.0 * Sum(Nets(selected))
  {
    var sorted :|
      multiset(sorted) == multiset(arrived) && Sorted(sorted, Before) && selected == Greedy(sorted, {}, Needs);
    PermutationKeepsElements(sorted, arrived);
    PicksDoNotConflict(sorted);
    RivalIsCompatible(rival);
    PicksCollectAThird(sorted, Elements(rival));
    TotalOfElements(rival, Net);
    NetsAreTotal(rival);
    NetsAreTotal(selected);
  }

  lemma NeedsApart(a: RelayCandidate, b: RelayCandidate)
    requires Needs(a) !! Needs(b)
    ensures a.loadID != b.loadID && {a.driverIn, a.driverOut} !! {b.driverIn, b.driverOut}
  {
    assert LoadSlot(a.loadID) in Needs(a);
    assert DriverSlot(a.driverIn) in Needs(a) && DriverSlot(a.driverOut) in Needs(a);
  }

  // ---- Reproducibility ----

  /** Whatever order the candidates arrive in, the selected drivers, loads and net contributions are the same. */
  lemma {:induction false} SelectionIgnoresArrivalOrder(s: seq<RelayCandidate>, t: seq<RelayCandidate>)
    requires multiset(s) == multiset(t) && Sorted(s, Before) && Sorted(t, Before)
    ensures MapSeq(Greedy(s, {}, Needs), KeyOf) == MapSeq(Greedy(t, {}, Needs), KeyOf)
  {
    KeyOrder();
    assert Sorted(MapSeq(s, KeyOf), KeyBefore) && Sorted(MapSeq(t, KeyOf), KeyBefore);
    SortedKeysAgree(s, t, KeyOf, KeyBefore);
    GreedyFollowsKeys(s, t, {}, Needs, KeyOf);
  }

  function KeyNeeds(k: RelayKey): set<Slot> {
    {DriverSlot(k.driverIn), DriverSlot(k.driverOut), LoadSlot(k.loadID)}
  }

  /** The keys that a greedy pass over the sorted keys alone would pick. */
  ghost function PickedKeys(s: seq<RelayCandidate>): seq<RelayKey> {
    Greedy(MapSeq(s, KeyOf), {}, KeyNeeds)
  }

  lemma {:induction false} PassSeesKeys(s: seq<RelayCandidate>, used: set<Slot>)
    ensures MapSeq(Greedy(s, used, Needs), KeyOf) == Greedy(MapSeq(s, KeyOf), used, KeyNeeds)
  {
    if s != [] {
      assert MapSeq(s, KeyOf)[1..] == MapSeq(s[1..], KeyOf) && Needs(s[0]) == KeyNeeds(KeyOf(s[0]));
      PassSeesKeys(s[1..], used);
      PassSeesKeys(s[1..], used + Needs(s[0]));
      HeadMap(Greedy(s[1..], used + Needs(s[0]), Needs), s[0], KeyOf);
    }
  }

  /** No two candidates share a picked key. */
  ghost predicate KeysSettle(s: seq<RelayCandidate>) {
    forall c, d :: c in s && d in s && KeyOf(c) == KeyOf(d) && KeyOf(c) in PickedKeys(s) ==> c == d
  }

  /** Every selected candidate is the only one with its key. */
  ghost predicate NoTwins(s: seq<RelayCandidate>) {
    forall c, d :: c in Greedy(s, {}, Needs) && d in s && KeyOf(c) == KeyOf(d) ==> c == d
  }

  lemma SettledMeansNoTwins(s: seq<RelayCandidate>)
    ensures KeysSettle(s) <==> NoTwins(s)
  {
    var picked := Greedy(s, {}, Needs);
    PassSeesKeys(s, {});
    if KeysSettle(s) {
      forall c, d | c in picked && d in s && KeyOf(c) == KeyOf(d)
        ensures c == d
      {
        var i :| 0 <= i < |picked| && picked[i] == c;
        assert PickedKeys(s)[i] == KeyOf(c);
      }
    }
    if NoTwins(s) {
      forall c, d | c in s && d in s && KeyOf(c) == KeyOf(d) && KeyOf(c) in PickedKeys(s)
        ensures c == d
      {
        var i :| 0 <= i < |PickedKeys(s)| && PickedKeys(s)[i] == KeyOf(c);
        assert KeyOf(picked[i]) == KeyOf(c) && picked[i] in picked;
      }
    }
  }

  /** Every arrival order leads to the same selection, hubs included. */
  ghost predicate Reproducible(s: seq<RelayCandidate>) {
    forall t :: multiset(t) == multiset(s) && Sorted(t, Before) ==> Greedy(t, {}, Needs) == Greedy(s, {}, Needs)
  }

  lemma {:induction false} SettledIsReproducible(s: seq<RelayCandidate>, t: seq<RelayCandidate>)
    requires multiset(s) == multiset(t) && Sorted(s, Before) && Sorted(t, Before) && NoTwins(s)
    ensures Greedy(t, {}, Needs) == Greedy(s, {}, Needs)
  {
    SelectionIgnoresArrivalOrder(s, t);
    PermutationKeepsElements(s, t);
    var x, y := Greedy(s, {}, Needs), Greedy(t, {}, Needs);
    assert |x| == |MapSeq(x, KeyOf)| == |y|;
    forall i | 0 <= i < |x|
      ensures x[i] == y[i]
    {
      assert MapSeq(x, KeyOf)[i] == MapSeq(y, KeyOf)[i];
      assert x[i] in x && y[i] in y && y[i] in s;
    }
  }

  lemma {:induction false} NeedsNothingFree(c: RelayCandidate, used: set<Slot>, s: seq<RelayCandidate>)
    requires !(Needs(c) !! used)
    ensures c !in Greedy(s, used, Needs)
  {
    GreedyIsCompatible(s, used, Needs);
  }

  lemma OwnNeeds(c: RelayCandidate, used: set<Slot>)
    ensures !(Needs(c) !! (used + Needs(c)))
  {
    assert LoadSlot(c.loadID) in Needs(c) && LoadSlot(c.loadID) in used + Needs(c);
  }

  /** A pass whose head has c's key: c is picked exactly when it is that head and its slots are free. */
  lemma {:induction false} HeadDecides(rest: seq<RelayCandidate>, used: set<Slot>, c: RelayCandidate)
    requires rest != [] && KeyOf(rest[0]) == KeyOf(c)
    ensures c in Greedy(rest, used, Needs) <==> rest[0] == c && Needs(c) !! used
  {
    if Needs(c) !! used {
      assert Needs(rest[0]) == Needs(c);
      assert Greedy(rest, used, Needs) == [rest[0]] + Greedy(rest[1..], used + Needs(c), Needs);
      OwnNeeds(c, used);
      NeedsNothingFree(c, used + Needs(c), rest[1..]);
    } else {
      NeedsNothingFree(c, used, rest);
    }
  }

  /** Of the candidates that share a key only the first can be selected, exactly when its slots are free there. */
  lemma {:induction false} FirstTwinDecides(s: seq<RelayCandidate>, i: nat, c: RelayCandidate)
    requires i < |s| && KeyOf(s[i]) == KeyOf(c) && forall k :: 0 <= k < i ==> KeyOf(s[k]) != KeyOf(c)
    ensures c in Greedy(s, {}, Needs) <==> s[i] == c && Needs(c) !! Occupied(Greedy(s[..i], {}, Needs), {}, Needs)
  {
    var before := Greedy(s[..i], {}, Needs);
    var used := Occupied(before, {}, Needs);
    assert s == s[..i] + s[i..];
    GreedySplit(s[..i], s[i..], {}, Needs);
    assert c !in before;
    HeadDecides(s[i..], used, c);
  }

  lemma ExchangePermutes(s: seq<RelayCandidate>, i: nat, j: nat)
    requires i < |s| && j < |s|
    ensures multiset(s[i := s[j]][j := s[i]]) == multiset(s)
  {
  }

  lemma SameKeysSorted(s: seq<RelayCandidate>, t: seq<RelayCandidate>)
    requires Sorted(s, Before) && |s| == |t| && forall k :: 0 <= k < |s| ==> KeyOf(t[k]) == KeyOf(s[k])
    ensures Sorted(t, Before)
  {
    forall i, j | 0 <= i < j < |t|
      ensures !Before(t[j], t[i])
    {
      assert !Before(s[j], s[i]);
    }
  }

  /** If c is selected and d shares its key, some arrival order selects d. */
  lemma TwinCanBeSelected(s: seq<RelayCandidate>, c: RelayCandidate, d: RelayCandidate) returns (t: seq<RelayCandidate>)
    requires Sorted(s, Before) && c in Greedy(s, {}, Needs) && d in s && KeyOf(c) == KeyOf(d) && c != d
    ensures multiset(t) == multiset(s) && Sorted(t, Before) && d in Greedy(t, {}, Needs)
  {
    var i := FirstWithKey(s, c);
    FirstTwinDecides(s, i, c);
    var j :| 0 <= j < |s| && s[j] == d;
    t := s[i := s[j]][j := s[i]];
    ExchangePermutes(s, i, j);
    SameKeysSorted(s, t);
    assert t[..i] == s[..i];
    FirstTwinDecides(t, i, d);
  }

  lemma FirstWithKey(s: seq<RelayCandidate>, c: RelayCandidate) returns (i: nat)
    requires c in s
    ensures i < |s| && KeyOf(s[i]) == KeyOf(c) && forall k :: 0 <= k < i ==> KeyOf(s[k]) != KeyOf(c)
  {
    i := 0;
    while KeyOf(s[i]) != KeyOf(c)
      invariant i < |s| && forall k :: 0 <= k < i ==> KeyOf(s[k]) != KeyOf(c)
      invariant exists j :: i <= j < |s| && s[j] == c
      decreases |s| - i
    {
      i := i + 1;
    }
  }

  /** The whole selection is reproducible exactly when no two candidates share a key that a pass over the keys alone
      picks. */
  lemma ReproducibleIffKeysSettle(s: seq<RelayCandidate>)
    requires Sorted(s, Before)
    ensures Reproducible(s) <==> KeysSettle(s)
  {
    SettledMeansNoTwins(s);
    if NoTwins(s) {
      forall t | multiset(t) == multiset(s) && Sorted(t, Before)
        ensures Greedy(t, {}, Needs) == Greedy(s, {}, Needs)
      {
        SettledIsReproducible(s, t);
      }
    } else {
      var c, d :| c in Greedy(s, {}, Needs) && d in s && KeyOf(c) == KeyOf(d) && c != d;
      var t := TwinCanBeSelected(s, c, d);
      var i := FirstWithKey(s, c);
      FirstTwinDecides(s, i, c);
      FirstTwinDecides(s, i, d);
    }
  }

  /** Before any pass: it is whenever different candidates have different keys. */
  lemma DistinctKeysAreReproducible(arrived: seq<RelayCandidate>, x: seq<RelayCandidate>, y: seq<RelayCandidate>)
    requires forall c, d :: c in arrived && d in arrived && KeyOf(c) == KeyOf(d) ==> c == d
    requires IsSelection(arrived, x) && IsSelection(arrived, y)
    ensures x == y
  {
    var s :| multiset(s) == multiset(arrived) && Sorted(s, Before) && x == Greedy(s, {}, Needs);
    var t :| multiset(t) == multiset(arrived) && Sorted(t, Before) && y == Greedy(t, {}, Needs);
    PermutationKeepsElements(s, arrived);
    ReproducibleIffKeysSettle(s);
  }

  /** Two hubs that tie on everything compared: the arrival order picks the hub. */
  lemma HubTieIsArrivalDependent() returns (s: seq<RelayCandidate>)
    ensures Sorted(s, Before) && Profitable(s) && !Reproducible(s)
  {
    var a := RelayCandidate("d1", "d2", "l", 1.0, "east");
    var b := a.(hub := "west");
    s := [a, b];
    KeyOrder();
    assert a.hub != b.hub;
    assert Greedy(s, {}, Needs)[0] == a;
    ReproducibleIffKeysSettle(s);
  }
}
