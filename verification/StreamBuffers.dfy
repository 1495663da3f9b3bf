/** The buffer that accumulates telemetry pings, load tenders and cancellations between synchronizations. */
module StreamBuffers {
  import opened Wrappers

  datatype Ping = Ping(driverID: string, timestamp: int, lat: real, lon: real, nodeID: string,
                       driveHoursRemaining: real,
                       dutyHoursRemaining: real, ptaEpoch: int, assignedLoadID: string, equipmentType: string,
                       endorsements: seq<string>)

  datatype Tender = Tender(loadID: string, timestamp: int, originNodeID: string, originLat: real, originLon: real,
                           destinationNodeID: string, destLat: real, destLon: real, pickupEarliestEpoch: int,
                           pickupLatestEpoch: int, deliveryEarliestEpoch: int, deliveryLatestEpoch: int, revenue: real,
                           requiredEquipment: string, requiredEndorsements: seq<string>)

  datatype Cancel = Cancel(loadID: string, reason: string, timestamp: int)

  datatype StreamError = EmptyDriverID | EmptyLoadID | InvalidCoordinates | InvalidHOS | InvalidRevenue | InvertedWindow

  // ---- Validation ----

  predicate IsSpace(c: char) {
    var x := c as int;
    || 9 <= x <= 13 || x == 0x20 || x == 0x85 || x == 0xA0 || x == 0x1680 || 0x2000 <= x <= 0x200A
    || x == 0x2028 || x == 0x2029 || x == 0x202F || x == 0x205F || x == 0x3000
  }

  /** Nothing is left of s after trimming white space. */
  predicate Blank(s: string) {
    forall i :: 0 <= i < |s| ==> IsSpace(s[i])
  }

  /** The code points of white space. */
  const WHITE_SPACE: set<int> := {9, 10, 11, 12, 13, 0x20, 0x85, 0xA0, 0x1680, 0x2000, 0x2001, 0x2002, 0x2003, 0x2004,
                                  0x2005, 0x2006, 0x2007, 0x2008, 0x2009, 0x200A, 0x2028, 0x2029, 0x202F, 0x205F,
                                  0x3000}

  /** s without its leading white space. */
  function Trimmed(s: string): string {
    if s != "" && s[0] as int in WHITE_SPACE then Trimmed(s[1..]) else s
  }

  /** A text is blank exactly when trimming leaves nothing of it. */
  lemma {:induction false} BlankIsTrimmedAway(s: string)
    ensures Blank(s) <==> Trimmed(s) == ""
  {
    if s != "" {
      BlankIsTrimmedAway(s[1..]);
      assert IsSpace(s[0]) <==> s[0] as int in WHITE_SPACE;
      assert Blank(s) <==> IsSpace(s[0]) && Blank(s[1..]) by {
        assert s == [s[0]] + s[1..];
        assert Blank(s) ==> forall i :: 0 <= i < |s| - 1 ==> IsSpace(s[1..][i]);
      }
    }
  }

  predicate OnGlobe(lat: real, lon: real) {
    -90.0 <= lat <= 90.0 && -180.0 <= lon <= 180.0
  }

  /** The checks are made in this order and the first that fails is reported. */
  function ValidateDriverPing(p: Ping): (error: Option<StreamError>)
    ensures error.None? <==>
      && !Blank(p.driverID) && -90.0 <= p.lat <= 90.0 && -180.0 <= p.lon <= 180.0
      && p.driveHoursRemaining >= 0.0 && p.dutyHoursRemaining >= 0.0
    ensures error == Some(EmptyDriverID) <==> Blank(p.driverID)
    ensures error == Some(InvalidCoordinates) <==> !Blank(p.driverID) && !OnGlobe(p.lat, p.lon)
    ensures error == Some(InvalidHOS) <==>
      && !Blank(p.driverID) && OnGlobe(p.lat, p.lon) && (p.driveHoursRemaining < 0.0 || p.dutyHoursRemaining < 0.0)
  {
    if Blank(p.driverID) then Some(EmptyDriverID)
    else if p.lat < -90.0 || p.lat > 90.0 || p.lon < -180.0 || p.lon > 180.0 then Some(InvalidCoordinates)
    else if p.driveHoursRemaining < 0.0 || p.dutyHoursRemaining < 0.0 then Some(InvalidHOS)
    else None
  }

  predicate Placed(t: Tender) {
    OnGlobe(t.originLat, t.originLon) && OnGlobe(t.destLat, t.destLon)
  }

  function ValidateLoadTender(t: Tender): (error: Option<StreamError>)
    ensures error.None? <==>
      && !Blank(t.loadID) && -90.0 <= t.originLat <= 90.0 && -180.0 <= t.originLon <= 180.0
      && -90.0 <= t.destLat <= 90.0 && -180.0 <= t.destLon <= 180.0 && t.revenue >= 0.0
      && (t.deliveryLatestEpoch > 0 ==> t.pickupEarliestEpoch <= t.deliveryLatestEpoch)
    ensures error == Some(EmptyLoadID) <==> Blank(t.loadID)
    ensures error == Some(InvalidCoordinates) <==> !Blank(t.loadID) && !Placed(t)
    ensures error == Some(InvalidRevenue) <==> !Blank(t.loadID) && Placed(t) && t.revenue < 0.0
    ensures error == Some(InvertedWindow) <==>
      && !Blank(t.loadID) && Placed(t) && t.revenue >= 0.0 && 0 < t.deliveryLatestEpoch < t.pickupEarliestEpoch
  {
    if Blank(t.loadID) then Some(EmptyLoadID)
    else if t.originLat < -90.0 || t.originLat > 90.0 || t.originLon < -180.0 || t.originLon > 180.0
            || t.destLat < -90.0 || t.destLat > 90.0 || t.destLon < -180.0 || t.destLon > 180.0
    then Some(InvalidCoordinates)
    else if t.revenue < 0.0 then Some(InvalidRevenue)
    else if t.deliveryLatestEpoch < t.pickupEarliestEpoch && t.deliveryLatestEpoch > 0 then Some(InvertedWindow)
    else None
  }

  // ---- Pings ----

  type Pings = map<string, Ping>

  /** A ping replaces the buffered one unless that one is strictly newer. */
  function Pinged(pings: Pings, p: Ping): Pings {
    if p.driverID in pings && pings[p.driverID].timestamp > p.timestamp then pings else pings[p.driverID := p]
  }

  function PingedAll(pings: Pings, arrivals: seq<Ping>): Pings {
    if arrivals == [] then pings
    else Pinged(PingedAll(pings, arrivals[..|arrivals| - 1]), arrivals[|arrivals| - 1])
  }

  /** Arrival i is the last to arrive among those of its driver with the greatest timestamp. */
  ghost predicate IsLatest(arrivals: seq<Ping>, i: nat)
    requires i < |arrivals|
  {
    forall j :: 0 <= j < |arrivals| && arrivals[j].driverID == arrivals[i].driverID ==>
      arrivals[j].timestamp < arrivals[i].timestamp || (arrivals[j].timestamp == arrivals[i].timestamp && j <= i)
  }

  ghost predicate HoldsLatest(pings: Pings, arrivals: seq<Ping>, id: string) {
    if id in pings
    then exists i ::
           0 <= i < |arrivals| && arrivals[i] == pings[id] && arrivals[i].driverID == id && IsLatest(arrivals, i)
    else forall j :: 0 <= j < |arrivals| ==> arrivals[j].driverID != id
  }

  lemma LatestExtends(arrivals: seq<Ping>, p: Ping, i: nat)
    requires i < |arrivals| && IsLatest(arrivals, i)
    requires p.driverID != arrivals[i].driverID || p.timestamp < arrivals[i].timestamp
    ensures IsLatest(arrivals + [p], i)
  {
  }

  lemma NewestIsLatest(arrivals: seq<Ping>, p: Ping, i: nat)
    requires i < |arrivals| && IsLatest(arrivals, i)
    requires p.driverID == arrivals[i].driverID && p.timestamp >= arrivals[i].timestamp
    ensures IsLatest(arrivals + [p], |arrivals|)
  {
    var all := arrivals + [p];
    forall j | 0 <= j < |all| && all[j].driverID == p.driverID
      ensures all[j].timestamp <= p.timestamp
    {
      if j < |arrivals| {
        assert all[j] == arrivals[j];
      }
    }
  }

  lemma OneMorePing(pings: Pings, arrivals: seq<Ping>, p: Ping, id: string)
    requires HoldsLatest(pings, arrivals, id) && HoldsLatest(pings, arrivals, p.driverID)
    requires forall k :: k in pings ==> pings[k].driverID == k
    ensures HoldsLatest(Pinged(pings, p), arrivals + [p], id)
  {
    var all := arrivals + [p];
    if id in pings {
      var i :| 0 <= i < |arrivals| && arrivals[i] == pings[id] && arrivals[i].driverID == id && IsLatest(arrivals, i);
      assert all[i] == arrivals[i];
      if p.driverID != id || p.timestamp < pings[id].timestamp {
        LatestExtends(arrivals, p, i);
      } else {
        NewestIsLatest(arrivals, p, i);
        assert all[|arrivals|] == p;
      }
    } else if p.driverID == id {
      assert all[|arrivals|] == p && IsLatest(all, |arrivals|);
    }
  }

  /** What is buffered for each driver is the last arrival among those with the greatest timestamp. */
  lemma {:induction false} BufferHoldsLatest(arrivals: seq<Ping>, id: string)
    ensures HoldsLatest(PingedAll(map[], arrivals), arrivals, id)
    ensures forall k :: k in PingedAll(map[], arrivals) ==> PingedAll(map[], arrivals)[k].driverID == k
  {
    if arrivals != [] {
      var n := |arrivals| - 1;
      BufferHoldsLatest(arrivals[..n], id);
      BufferHoldsLatest(arrivals[..n], arrivals[n].driverID);
      assert arrivals == arrivals[..n] + [arrivals[n]];
      OneMorePing(PingedAll(map[], arrivals[..n]), arrivals[..n], arrivals[n], id);
    }
  }

  lemma {:induction false} PingedInTurn(pings: Pings, x: seq<Ping>, y: seq<Ping>)
    ensures PingedAll(pings, x + y) == PingedAll(PingedAll(pings, x), y)
    decreases |y|
  {
    if y == [] {
      assert x + y == x;
    } else {
      PingedInTurn(pings, x, y[..|y| - 1]);
      assert (x + y)[..|x + y| - 1] == x + y[..|y| - 1];
    }
  }

  /** Of what two buffers hold for a driver, the later buffer's unless the earlier one's is strictly newer. */
  ghost function Newer(earlier: Pings, later: Pings, id: string): Ping
    requires id in earlier || id in later
  {
    if id in earlier && (id !in later || earlier[id].timestamp > later[id].timestamp) then earlier[id] else later[id]
  }

  /** Buffering on top of earlier pings is comparing with what the new ones alone would have left. */
  lemma {:induction false} PingedOnTop(pings: Pings, y: seq<Ping>, id: string)
    ensures id in PingedAll(pings, y) <==> id in pings || id in PingedAll(map[], y)
    ensures id in PingedAll(pings, y) ==> PingedAll(pings, y)[id] == Newer(pings, PingedAll(map[], y), id)
    decreases |y|
  {
    if y != [] {
      PingedOnTop(pings, y[..|y| - 1], id);
    }
  }

  // ---- Tenders and cancellations ----

  /** The pending load changes: what to add or replace, and what to drop. */
  datatype LoadChanges = LoadChanges(tenders: map<string, Tender>, cancels: map<string, Cancel>) {

    function Tendered(t: Tender): LoadChanges {
      LoadChanges(tenders[t.loadID := t], cancels - {t.loadID})
    }

    function Canceled(c: Cancel): LoadChanges {
      LoadChanges(tenders - {c.loadID}, cancels[c.loadID := c])
    }

    /** No load is both tendered and cancelled, and every tender is under its own name. */
    ghost predicate Coherent() {
      && (forall id :: id in tenders ==> id !in cancels)
      && forall id :: id in tenders ==> tenders[id].loadID == id
    }
  }

  const NO_CHANGES := LoadChanges(map[], map[])

  function TenderedAll(changes: LoadChanges, tenders: seq<Tender>): LoadChanges {
    if tenders == [] then changes
    else TenderedAll(changes, tenders[..|tenders| - 1]).Tendered(tenders[|tenders| - 1])
  }

  /** Length of the longest prefix of valid pings. */
  ghost function AcceptedPings(pings: seq<Ping>): (k: nat)
    ensures k <= |pings|
    ensures forall i :: 0 <= i < k ==> ValidateDriverPing(pings[i]).None?
    ensures k < |pings| ==> ValidateDriverPing(pings[k]).Some?
  {
    if pings == [] || ValidateDriverPing(pings[0]).Some? then 0 else 1 + AcceptedPings(pings[1..])
  }

  ghost function AcceptedTenders(tenders: seq<Tender>): (k: nat)
    ensures k <= |tenders|
    ensures forall i :: 0 <= i < k ==> ValidateLoadTender(tenders[i]).None?
    ensures k < |tenders| ==> ValidateLoadTender(tenders[k]).Some?
  {
    if tenders == [] || ValidateLoadTender(tenders[0]).Some? then 0 else 1 + AcceptedTenders(tenders[1..])
  }

  // ---- Batches are not atomic ----

  lemma {:induction false} PingedKeeps(pings: Pings, arrivals: seq<Ping>, id: string)
    requires id in pings || exists i :: 0 <= i < |arrivals| && arrivals[i].driverID == id
    ensures id in PingedAll(pings, arrivals)
  {
    if arrivals != [] && arrivals[|arrivals| - 1].driverID != id {
      PingedKeeps(pings, arrivals[..|arrivals| - 1], id);
    }
  }

  /** A refused batch leaves every buffer as it was exactly when its first ping is the invalid one. */
  lemma {:induction false} PingBatchIsAtomicIff(batch: seq<Ping>)
    requires AcceptedPings(batch) < |batch|
    ensures (forall before: Pings :: PingedAll(before, batch[..AcceptedPings(batch)]) == before)
       <==> ValidateDriverPing(batch[0]).Some?
  {
    var accepted := batch[..AcceptedPings(batch)];
    if accepted != [] {
      PingedKeeps(map[], accepted, accepted[0].driverID);
      assert PingedAll(map[], accepted) != map[];
    }
  }

  /** When the second ping is invalid, the first one is buffered although the batch is refused. */
  lemma FirstPingStays(p: Ping, bad: Ping)
    requires ValidateDriverPing(p).None? && ValidateDriverPing(bad).Some?
    ensures AcceptedPings([p, bad]) == 1 && PingedAll(map[], [p, bad][..1]) == map[p.driverID := p]
  {
    assert [p, bad][1..] == [bad] && [p, bad][..1] == [p] && [p][..0] == [];
    assert AcceptedPings([bad]) == 0;
    assert PingedAll(map[], [p]) == Pinged(PingedAll(map[], []), p);
  }

  lemma {:induction false} TenderedKeeps(changes: LoadChanges, tenders: seq<Tender>)
    requires tenders != []
    ensures tenders[|tenders| - 1].loadID in TenderedAll(changes, tenders).tenders
  {
  }

  lemma {:induction false} TenderBatchIsAtomicIff(batch: seq<Tender>)
    requires AcceptedTenders(batch) < |batch|
    ensures (forall before: LoadChanges :: TenderedAll(before, batch[..AcceptedTenders(batch)]) == before)
       <==> ValidateLoadTender(batch[0]).Some?
  {
    var accepted := batch[..AcceptedTenders(batch)];
    if accepted != [] {
      TenderedKeeps(NO_CHANGES, accepted);
      assert TenderedAll(NO_CHANGES, accepted) != NO_CHANGES;
    }
  }

  lemma FirstTenderStays(t: Tender, bad: Tender)
    requires ValidateLoadTender(t).None? && ValidateLoadTender(bad).Some?
    ensures AcceptedTenders([t, bad]) == 1
    ensures TenderedAll(NO_CHANGES, [t, bad][..1]) == LoadChanges(map[t.loadID := t], map[])
  {
    assert [t, bad][1..] == [bad] && [t, bad][..1] == [t] && [t][..0] == [];
    assert AcceptedTenders([bad]) == 0;
    assert TenderedAll(NO_CHANGES, [t]) == NO_CHANGES.Tendered(t);
  }

  // ---- Nor are they to a drain that falls between two items ----

  lemma {:induction false} SamePingsSameEffect(before: Pings, x: seq<Ping>, y: seq<Ping>)
    requires PingedAll(map[], x) == PingedAll(map[], y)
    ensures PingedAll(before, x) == PingedAll(before, y)
  {
    forall id
      ensures id in PingedAll(before, x) <==> id in PingedAll(before, y)
      ensures id in PingedAll(before, x) ==> PingedAll(before, x)[id] == PingedAll(before, y)[id]
    {
      PingedOnTop(before, x, id);
      PingedOnTop(before, y, id);
    }
  }

  /** The lock is taken per item, so a drain may find the first k pings of a batch. Whatever was buffered before,
      it sees nothing of the batch or all of it exactly when k is 0 or the rest of the batch changes nothing. */
  lemma {:induction false} DrainSeesWholePingBatchIff(batch: seq<Ping>, k: nat)
    requires k <= |batch|
    ensures (forall before: Pings :: PingedAll(before, batch[..k]) == before)
         || (forall before: Pings :: PingedAll(before, batch[..k]) == PingedAll(before, batch))
       <==> k == 0 || PingedAll(map[], batch[..k]) == PingedAll(map[], batch)
  {
    var seen := batch[..k];
    if k > 0 {
      PingedKeeps(map[], seen, seen[0].driverID);
      assert PingedAll(map[], seen) != map[];
    }
    if PingedAll(map[], seen) == PingedAll(map[], batch) {
      forall before: Pings
        ensures PingedAll(before, seen) == PingedAll(before, batch)
      {
        SamePingsSameEffect(before, seen, batch);
      }
    }
  }

  /** Two drivers' pings in one batch: a drain in the middle takes the first and leaves the second. */
  lemma DrainSplitsPings(p: Ping, q: Ping)
    requires p.driverID != q.driverID
    ensures PingedAll(map[], [p, q][..1]) == map[p.driverID := p]
    ensures PingedAll(map[], [p, q]) == map[p.driverID := p, q.driverID := q]
  {
    assert [p, q][..1] == [p] && [p][..0] == [];
    assert PingedAll(map[], [p]) == Pinged(PingedAll(map[], []), p);
  }

  lemma {:induction false} TenderedOnTop(before: LoadChanges, tenders: seq<Tender>)
    ensures TenderedAll(NO_CHANGES, tenders).cancels == map[]
    ensures TenderedAll(before, tenders).tenders == before.tenders + TenderedAll(NO_CHANGES, tenders).tenders
    ensures TenderedAll(before, tenders).cancels == before.cancels - TenderedAll(NO_CHANGES, tenders).tenders.Keys
  {
    if tenders != [] {
      TenderedOnTop(before, tenders[..|tenders| - 1]);
    }
  }

  /** The same of tenders. */
  lemma {:induction false} DrainSeesWholeTenderBatchIff(batch: seq<Tender>, k: nat)
    requires k <= |batch|
    ensures (forall before: LoadChanges :: TenderedAll(before, batch[..k]) == before)
         || (forall before: LoadChanges :: TenderedAll(before, batch[..k]) == TenderedAll(before, batch))
       <==> k == 0 || TenderedAll(NO_CHANGES, batch[..k]) == TenderedAll(NO_CHANGES, batch)
  {
    var seen := batch[..k];
    if k > 0 {
      TenderedKeeps(NO_CHANGES, seen);
      assert TenderedAll(NO_CHANGES, seen) != NO_CHANGES;
    }
    if TenderedAll(NO_CHANGES, seen) == TenderedAll(NO_CHANGES, batch) {
      forall before: LoadChanges
        ensures TenderedAll(before, seen) == TenderedAll(before, batch)
      {
        TenderedOnTop(before, seen);
        TenderedOnTop(before, batch);
      }
    }
  }

  class StreamBuffer {
    var driverPings: Pings
    var loadTenders: map<string, Tender>
    var cancellations: map<string, Cancel>
    var totalPings: nat
    var totalTenders: nat
    var lastIngest: int
    var lastSync: int

    function Changes(): LoadChanges
      reads this
    {
      LoadChanges(loadTenders, cancellations)
    }

    ghost predicate Valid()
      reads this
    {
      Changes().Coherent() && forall id :: id in driverPings ==> driverPings[id].driverID == id
    }

    constructor ()
      ensures Valid() && driverPings == map[] && Changes() == NO_CHANGES
      ensures totalPings == totalTenders == 0
    {
      driverPings := map[];
      loadTenders := map[];
      cancellations := map[];
      totalPings := 0;
      totalTenders := 0;
      lastIngest := 0;
      lastSync := 0;
    }

    method IngestDriverPing(p: Ping, now: int) returns (error: Option<StreamError>)
      requires Valid()
      modifies this
      ensures Valid() && error == ValidateDriverPing(p)
      ensures driverPings == if error.None? then Pinged(old(driverPings), p) else old(driverPings)
      ensures totalPings == old(totalPings) + if error.None? then 1 else 0
      ensures lastIngest == if error.None? then now else old(lastIngest)
      ensures Changes() == old(Changes()) && totalTenders == old(totalTenders) && lastSync == old(lastSync)
    {
      error := ValidateDriverPing(p);
      if error.Some? {
        return;
      }
      totalPings := totalPings + 1;
      lastIngest := now;
      if p.driverID in driverPings && driverPings[p.driverID].timestamp > p.timestamp {
        return;
      }
      driverPings := driverPings[p.driverID := p];
    }

    /** Buffers the pings one by one up to the first invalid one; those before it stay buffered. */
    method IngestDriverBatch(pings: seq<Ping>, now: int) returns (error: Option<StreamError>)
      requires Valid()
      modifies this
      ensures Valid() && Changes() == old(Changes())
      ensures error == if AcceptedPings(pings) == |pings| then None else ValidateDriverPing(pings[AcceptedPings(pings)])
      ensures driverPings == PingedAll(old(driverPings), pings[..AcceptedPings(pings)])
      ensures totalPings == old(totalPings) + AcceptedPings(pings)
      ensures lastIngest == if AcceptedPings(pings) > 0 then now else old(lastIngest)
      ensures totalTenders == old(totalTenders) && lastSync == old(lastSync)
    {
      var i := 0;
      while i < |pings|
        invariant 0 <= i <= AcceptedPings(pings) <= |pings|
        invariant Valid() && Changes() == old(Changes())
        invariant driverPings == PingedAll(old(driverPings), pings[..i]) && totalPings == old(totalPings) + i
        invariant lastIngest == if i > 0 then now else old(lastIngest)
        invariant totalTenders == old(totalTenders) && lastSync == old(lastSync)
      {
        error := IngestDriverPing(pings[i], now);
        if error.Some? {
          return;
        }
        assert pings[..i + 1][..i] == pings[..i];
        i := i + 1;
      }
      return None;
    }

    method IngestLoadTender(t: Tender, now: int) returns (error: Option<StreamError>)
      requires Valid()
      modifies this
      ensures Valid() && error == ValidateLoadTender(t)
      ensures Changes() == if error.None? then old(Changes()).Tendered(t) else old(Changes())
      ensures error.None? ==>
        loadTenders == old(loadTenders)[t.loadID := t] && cancellations == old(cancellations) - {t.loadID}
      ensures totalTenders == old(totalTenders) + if error.None? then 1 else 0
      ensures lastIngest == if error.None? then now else old(lastIngest)
      ensures driverPings == old(driverPings) && totalPings == old(totalPings) && lastSync == old(lastSync)
    {
      error := ValidateLoadTender(t);
      if error.Some? {
        return;
      }
      cancellations := cancellations - {t.loadID};
      loadTenders := loadTenders[t.loadID := t];
      totalTenders := totalTenders + 1;
      lastIngest := now;
    }

    /** Buffers the tenders one by one up to the first invalid one; those before it stay buffered. */
    method IngestTenderBatch(tenders: seq<Tender>, now: int) returns (error: Option<StreamError>)
      requires Valid()
      modifies this
      ensures Valid() && driverPings == old(driverPings)
      ensures error ==
        if AcceptedTenders(tenders) == |tenders| then None else ValidateLoadTender(tenders[AcceptedTenders(tenders)])
      ensures Changes() == TenderedAll(old(Changes()), tenders[..AcceptedTenders(tenders)])
      ensures totalTenders == old(totalTenders) + AcceptedTenders(tenders)
      ensures lastIngest == if AcceptedTenders(tenders) > 0 then now else old(lastIngest)
      ensures totalPings == old(totalPings) && lastSync == old(lastSync)
    {
      var i := 0;
      while i < |tenders|
        invariant 0 <= i <= AcceptedTenders(tenders) <= |tenders|
        invariant Valid() && driverPings == old(driverPings)
        invariant Changes() == TenderedAll(old(Changes()), tenders[..i]) && totalTenders == old(totalTenders) + i
        invariant lastIngest == if i > 0 then now else old(lastIngest)
        invariant totalPings == old(totalPings) && lastSync == old(lastSync)
      {
        error := IngestLoadTender(tenders[i], now);
        if error.Some? {
          return;
        }
        assert tenders[..i + 1][..i] == tenders[..i];
        i := i + 1;
      }
      return None;
    }

    method CancelTender(c: Cancel, now: int) returns (error: Option<StreamError>)
      requires Valid()
      modifies this
      ensures Valid() && error == if Blank(c.loadID) then Some(EmptyLoadID) else None
      ensures Changes() == if error.None? then old(Changes()).Canceled(c) else old(Changes())
      ensures error.None? ==>
        loadTenders == old(loadTenders) - {c.loadID} && cancellations == old(cancellations)[c.loadID := c]
      ensures lastIngest == if error.None? then now else old(lastIngest)
      ensures driverPings == old(driverPings) && totalPings == old(totalPings) && totalTenders == old(totalTenders)
      ensures lastSync == old(lastSync)
    {
      if Blank(c.loadID) {
        return Some(EmptyLoadID);
      }
      loadTenders := loadTenders - {c.loadID};
      cancellations := cancellations[c.loadID := c];
      lastIngest := now;
      return None;
    }

    /** Hands over everything buffered and starts afresh. */
    method Drain(now: int) returns (pings: Pings, changes: LoadChanges)
      requires Valid()
      modifies this
      ensures Valid() && pings == old(driverPings) && changes == old(Changes())
      ensures changes.tenders == old(loadTenders) && changes.cancels == old(cancellations)
      ensures driverPings == map[] && loadTenders == map[] && cancellations == map[] && lastSync == now
      ensures Changes() == NO_CHANGES
      ensures totalPings == old(totalPings) && totalTenders == old(totalTenders) && lastIngest == old(lastIngest)
    {
      pings, changes := driverPings, Changes();
      driverPings := map[];
      loadTenders := map[];
      cancellations := map[];
      lastSync := now;
    }
  }
}
