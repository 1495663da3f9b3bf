/** The lock-free decision journal as a step system: any number of callers, interleaved arbitrarily, each loading the
    published slice, copying it with one more entry, and publishing the copy only if nothing was published meanwhile. */
module JournalProtocol {

  /** Where one caller stands inside Record. */
  datatype Phase<E> = Idle | Started(entry: E) | Loaded(entry: E, pointer: nat)

  /** slices is every slice ever published, by pointer; pointers are never reused. */
  datatype State<E> = State(slices: seq<seq<E>>, current: nat, callers: seq<Phase<E>>)

  /** One atomic action of a caller. */
  datatype Event<E> = Begin(caller: nat, entry: E) | Load(caller: nat) | Swap(caller: nat)

  function Initial<E>(callers: nat): State<E> {
    State([[]], 0, seq(callers, _ => Idle))
  }

  ghost predicate Enabled<E(!new)>(s: State<E>, e: Event<E>) {
    && e.caller < |s.callers|
    && match e
       case Begin(c, _) => s.callers[c].Idle?
       case Load(c) => s.callers[c].Started?
       case Swap(c) => s.callers[c].Loaded?
  }

  ghost predicate Consistent<E(!new)>(s: State<E>) {
    && s.current == |s.slices| - 1
    && (forall p :: 0 <= p < |s.slices| ==> s.slices[p] <= s.slices[s.current])
    && forall c :: 0 <= c < |s.callers| && s.callers[c].Loaded? ==> s.callers[c].pointer < |s.slices|
  }

  ghost predicate Succeeds<E(!new)>(s: State<E>, e: Event<E>) {
    Enabled(s, e) && e.Swap? && s.callers[e.caller].pointer == s.current
  }

  ghost predicate Fails<E(!new)>(s: State<E>, e: Event<E>) {
    Enabled(s, e) && e.Swap? && s.callers[e.caller].pointer != s.current
  }

  ghost function Next<E(!new)>(s: State<E>, e: Event<E>): State<E>
    requires Consistent(s) && Enabled(s, e)
  {
    match e
    case Begin(c, entry) => s.(callers := s.callers[c := Started(entry)])
    case Load(c) => s.(callers := s.callers[c := Loaded(s.callers[c].entry, s.current)])
    case Swap(c) =>
      var entry, p := s.callers[c].entry, s.callers[c].pointer;
      if p == s.current
      then State(s.slices + [s.slices[p] + [entry]], |s.slices|, s.callers[c := Idle])
      else s.(callers := s.callers[c := Started(entry)])
  }

  /** The published entries. */
  ghost function Entries<E(!new)>(s: State<E>): seq<E>
    requires Consistent(s)
  {
    s.slices[s.current]
  }

  lemma NextConsistent<E(!new)>(s: State<E>, e: Event<E>)
    requires Consistent(s) && Enabled(s, e)
    ensures Consistent(Next(s, e)) && |Next(s, e).callers| == |s.callers|
    ensures Entries(Next(s, e)) == if Succeeds(s, e) then Entries(s) + [s.callers[e.caller].entry] else Entries(s)
  {
  }

  // ---- Runs ----

  ghost predicate Runs<E(!new)>(callers: nat, events: seq<Event<E>>)
    decreases |events|, 0
  {
    events == [] ||
    (var n := |events| - 1;
     Runs(callers, events[..n]) && Enabled(After(callers, events[..n]), events[n]))
  }

  /** The state after a run. */
  ghost function After<E(!new)>(callers: nat, events: seq<Event<E>>): (s: State<E>)
    requires Runs(callers, events)
    ensures Consistent(s) && |s.callers| == callers
    decreases |events|, 1
  {
    if events == [] then Initial(callers)
    else
      var n := |events| - 1;
      var s := After(callers, events[..n]);
      NextConsistent(s, events[n]);
      Next(s, events[n])
  }

  lemma {:induction false} PrefixRuns<E(!new)>(callers: nat, events: seq<Event<E>>, k: nat)
    requires Runs(callers, events) && k <= |events|
    ensures Runs(callers, events[..k])
    decreases |events|
  {
    if k < |events| {
      var n := |events| - 1;
      PrefixRuns(callers, events[..n], k);
      assert events[..n][..k] == events[..k];
    } else {
      assert events[..k] == events;
    }
  }

  /** From one run to the next the journal has only grown at its end. */
  ghost predicate Grown<E(!new)>(callers: nat, earlier: seq<Event<E>>, later: seq<Event<E>>) {
    && Runs(callers, earlier) && Runs(callers, later)
    && Entries(After(callers, earlier)) <= Entries(After(callers, later))
  }

  lemma {:induction false} StepGrows<E(!new)>(callers: nat, events: seq<Event<E>>)
    requires Runs(callers, events) && events != []
    ensures Grown(callers, events[..|events| - 1], events)
  {
    var n := |events| - 1;
    NextConsistent(After(callers, events[..n]), events[n]);
  }

  lemma GrownFurther<E(!new)>(callers: nat, a: seq<Event<E>>, b: seq<Event<E>>, c: seq<Event<E>>)
    requires Grown(callers, a, b) && Grown(callers, b, c)
    ensures Grown(callers, a, c)
  {
  }

  lemma {:induction false} PrefixGrown<E(!new)>(callers: nat, events: seq<Event<E>>, k: nat)
    requires Runs(callers, events) && k <= |events|
    ensures Grown(callers, events[..k], events)
    decreases |events|
  {
    if k < |events| {
      var n := |events| - 1;
      StepGrows(callers, events);
      PrefixGrown(callers, events[..n], k);
      assert events[..n][..k] == events[..k];
      GrownFurther(callers, events[..k], events[..n], events);
    } else {
      assert events[..k] == events;
    }
  }

  /** Over any stretch of any run the journal only grows at its end. */
  lemma {:induction false} OnlyGrowsAtTheEnd<E(!new)>(callers: nat, events: seq<Event<E>>, k: nat)
    requires Runs(callers, events) && k <= |events|
    ensures Runs(callers, events[..k])
    ensures Entries(After(callers, events[..k])) <= Entries(After(callers, events))
  {
    PrefixGrown(callers, events, k);
  }

  // ---- Nothing lost, nothing twice ----

  ghost function Pending<E(!new)>(p: Phase<E>): multiset<E> {
    if p.Idle? then multiset{} else multiset{p.entry}
  }

  /** Entries whose calls have begun and not returned. */
  ghost function InFlight<E(!new)>(callers: seq<Phase<E>>): multiset<E> {
    if callers == [] then multiset{}
    else
      var n := |callers| - 1;
      InFlight(callers[..n]) + Pending(callers[n])
  }

  lemma {:induction false} LastInFlight<E(!new)>(callers: seq<Phase<E>>, front: seq<Phase<E>>)
    requires callers != [] && front == callers[..|callers| - 1]
    ensures InFlight(callers) == InFlight(front) + Pending(callers[|front|])
  {
  }

  lemma {:induction false} InFlightUpdate<E(!new)>(callers: seq<Phase<E>>, c: nat, p: Phase<E>)
    requires c < |callers|
    ensures InFlight(callers[c := p]) + Pending(callers[c]) == InFlight(callers) + Pending(p)
  {
    var n := |callers| - 1;
    var front, last := callers[..n], Pending(callers[n]);
    if c < n {
      InFlightUpdate(front, c, p);
      LastInFlight(callers[c := p], front[c := p]);
      LastInFlight(callers, front);
      Shuffle(InFlight(front[c := p]), Pending(callers[c]), InFlight(front), Pending(p), last);
    } else {
      LastInFlight(callers[c := p], front);
      LastInFlight(callers, front);
      SwapLast(InFlight(front), Pending(p), last);
    }
  }

  lemma SwapLast<E>(a: multiset<E>, x: multiset<E>, y: multiset<E>)
    ensures (a + x) + y == (a + y) + x
  {
  }

  lemma Shuffle<E>(a: multiset<E>, b: multiset<E>, c: multiset<E>, d: multiset<E>, x: multiset<E>)
    requires a + b == c + d
    ensures (a + x) + b == (c + x) + d
  {
    assert (a + x) + b == (a + b) + x;
  }

  /** Entries handed to Record so far. */
  ghost function Begun<E(!new)>(events: seq<Event<E>>): multiset<E> {
    if events == [] then multiset{}
    else
      var n := |events| - 1;
      Begun(events[..n]) + Handed(events[n])
  }

  lemma {:induction false} NoneInFlight<E(!new)>(n: nat)
    ensures InFlight(seq(n, _ => Phase<E>.Idle)) == multiset{}
  {
    if n > 0 {
      NoneInFlight<E>(n - 1);
      assert seq(n, _ => Phase<E>.Idle)[..n - 1] == seq(n - 1, _ => Phase<E>.Idle);
    }
  }

  ghost function Handed<E(!new)>(e: Event<E>): multiset<E> {
    if e.Begin? then multiset{e.entry} else multiset{}
  }

  lemma PublishedPlusPending<E>(entries: seq<E>, entry: E)
    ensures multiset(entries + [entry]) == multiset(entries) + multiset{entry}
  {
  }

  /** Published entries and entries in flight, together. */
  ghost function Accounted<E(!new)>(s: State<E>): multiset<E>
    requires Consistent(s)
  {
    multiset(Entries(s)) + InFlight(s.callers)
  }

  lemma SuccessConserves<E(!new)>(s: State<E>, e: Event<E>)
    requires Consistent(s) && Enabled(s, e) && Succeeds(s, e)
    ensures Consistent(Next(s, e)) && Accounted(Next(s, e)) == Accounted(s)
  {
    var s' := Next(s, e);
    var one := Pending(s.callers[e.caller]);
    InFlightUpdate(s.callers, e.caller, s'.callers[e.caller]);
    PublishedPlusPending(Entries(s), s.callers[e.caller].entry);
    Balance(multiset(Entries(s)), multiset(Entries(s')), InFlight(s.callers), InFlight(s'.callers), one, one,
            multiset{});
  }

  lemma QuietStepInFlight<E(!new)>(s: State<E>, e: Event<E>)
    requires Consistent(s) && Enabled(s, e) && !Succeeds(s, e)
    ensures InFlight(Next(s, e).callers) == InFlight(s.callers) + Handed(e)
  {
    var before, p := s.callers[e.caller], Next(s, e).callers[e.caller];
    InFlightUpdate(s.callers, e.caller, p);
    if !e.Begin? {
      assert Pending(p) == Pending(before);
      CancelMany(InFlight(s.callers[e.caller := p]), InFlight(s.callers), Pending(p));
    }
  }

  lemma QuietStepConserves<E(!new)>(s: State<E>, e: Event<E>)
    requires Consistent(s) && Enabled(s, e) && !Succeeds(s, e)
    ensures Consistent(Next(s, e)) && Accounted(Next(s, e)) == Accounted(s) + Handed(e)
  {
    NextConsistent(s, e);
    QuietStepInFlight(s, e);
  }

  lemma CancelMany<E>(a: multiset<E>, b: multiset<E>, x: multiset<E>)
    requires a + x == b + x
    ensures a == b
  {
    assert a == a + x - x == b + x - x == b;
  }

  /** One action neither loses nor repeats an entry. */
  lemma StepConserves<E(!new)>(s: State<E>, e: Event<E>)
    requires Consistent(s) && Enabled(s, e)
    ensures Consistent(Next(s, e)) && Accounted(Next(s, e)) == Accounted(s) + Handed(e)
  {
    if Succeeds(s, e) {
      SuccessConserves(s, e);
    } else {
      QuietStepConserves(s, e);
    }
  }

  lemma Balance<E>(m: multiset<E>, m': multiset<E>, f: multiset<E>, f': multiset<E>, moved: multiset<E>,
                   gone: multiset<E>, added: multiset<E>)
    requires m' == m + moved && f' + gone == f + added && moved == gone
    ensures m' + f' == m + f + added
  {
    assert m' + f' == m + (f' + moved);
  }

  /** Every entry handed in is either published exactly once or still in flight: no interleaving loses or repeats
      one. */
  lemma {:induction false} EveryCallOnce<E(!new)>(callers: nat, events: seq<Event<E>>)
    requires Runs(callers, events)
    ensures Begun(events) == Accounted(After(callers, events))
    decreases |events|
  {
    if events == [] {
      NoneInFlight<E>(callers);
    } else {
      var n := |events| - 1;
      EveryCallOnce(callers, events[..n]);
      StepConserves(After(callers, events[..n]), events[n]);
    }
  }

  // ---- Progress ----

  /** The caller has loaded the slice that is still current. */
  ghost predicate UpToDate<E(!new)>(s: State<E>, c: nat) {
    c < |s.callers| && s.callers[c].Loaded? && s.callers[c].pointer == s.current
  }

  lemma StepKeepsUpToDate<E(!new)>(s: State<E>, e: Event<E>, c: nat)
    requires Consistent(s) && Enabled(s, e)
    ensures e == Load(c) ==> UpToDate(Next(s, e), c)
    ensures UpToDate(s, c) && e.caller != c && !Succeeds(s, e) ==> UpToDate(Next(s, e), c)
  {
  }

  lemma {:induction false} LastStep<E(!new)>(callers: nat, events: seq<Event<E>>, k: nat)
    requires k < |events| && Runs(callers, events[..k + 1])
    ensures Runs(callers, events[..k]) && Enabled(After(callers, events[..k]), events[k])
    ensures After(callers, events[..k + 1]) == Next(After(callers, events[..k]), events[k])
  {
    assert events[..k + 1][..k] == events[..k];
  }

  lemma {:induction false} QuietStretch<E(!new)>(callers: nat, events: seq<Event<E>>, i: nat, k: nat, c: nat)
    requires i < k <= |events| && Runs(callers, events[..k]) && events[i] == Load(c)
    requires forall j :: i < j < k ==> events[j].caller != c
    requires forall j :: i < j < k ==> Runs(callers, events[..j]) && !Succeeds(After(callers, events[..j]), events[j])
    ensures UpToDate(After(callers, events[..k]), c)
    decreases k
  {
    LastStep(callers, events, k - 1);
    StepKeepsUpToDate(After(callers, events[..k - 1]), events[k - 1], c);
    if i + 1 < k {
      QuietStretch(callers, events, i, k - 1, c);
    }
  }

  /** A swap fails only because another call got through since this caller's load. */
  lemma {:induction false} FailureMeansProgress<E(!new)>(callers: nat, events: seq<Event<E>>, i: nat, k: nat, c: nat)
    requires Runs(callers, events) && i < k < |events| && events[i] == Load(c) && events[k] == Swap(c)
    requires forall j :: i < j < k ==> events[j].caller != c
    requires Runs(callers, events[..k]) && Fails(After(callers, events[..k]), events[k])
    ensures exists j :: i < j < k && Runs(callers, events[..j]) && Succeeds(After(callers, events[..j]), events[j])
  {
    forall j | 0 <= j <= |events|
      ensures Runs(callers, events[..j])
    {
      PrefixRuns(callers, events, j);
    }
    assert events[..i + 1][..i] == events[..i];
    if forall j :: i < j < k ==> !Succeeds(After(callers, events[..j]), events[j]) {
      QuietStretch(callers, events, i, k, c);
    }
  }

  ghost function Successes<E(!new)>(callers: nat, events: seq<Event<E>>): nat
    requires Runs(callers, events)
    decreases |events|
  {
    if events == [] then 0
    else
      var n := |events| - 1;
      Successes(callers, events[..n]) + (if Succeeds(After(callers, events[..n]), events[n]) then 1 else 0)
  }

  ghost function Failures<E(!new)>(callers: nat, events: seq<Event<E>>): nat
    requires Runs(callers, events)
    decreases |events|
  {
    if events == [] then 0
    else
      var n := |events| - 1;
      Failures(callers, events[..n]) + (if Fails(After(callers, events[..n]), events[n]) then 1 else 0)
  }

  /** Callers holding a pointer that is no longer current: those whose next swap will fail. */
  ghost function Stale<E(!new)>(callers: seq<Phase<E>>, current: nat): nat {
    if callers == [] then 0
    else
      var n := |callers| - 1;
      Stale(callers[..n], current) + (if callers[n].Loaded? && callers[n].pointer != current then 1 else 0)
  }

  ghost function Staleness<E(!new)>(p: Phase<E>, current: nat): nat {
    if p.Loaded? && p.pointer != current then 1 else 0
  }

  lemma {:induction false} StaleUpdate<E(!new)>(callers: seq<Phase<E>>, c: nat, p: Phase<E>, current: nat)
    requires c < |callers|
    ensures Stale(callers[c := p], current) + Staleness(callers[c], current)
       == Stale(callers, current) + Staleness(p, current)
  {
    var n := |callers| - 1;
    if c < n {
      StaleUpdate(callers[..n], c, p, current);
      assert callers[c := p][..n] == callers[..n][c := p];
    } else {
      assert callers[c := p][..n] == callers[..n];
    }
  }

  lemma {:induction false} StaleBound<E(!new)>(callers: seq<Phase<E>>, current: nat, c: nat)
    ensures Stale(callers, current) <= |callers|
    ensures c < |callers| && callers[c].Idle? ==> Stale(callers, current) <= |callers| - 1
  {
    if callers != [] {
      StaleBound(callers[..|callers| - 1], current, c);
    }
  }

  ghost function Budget(each: nat, successes: nat): nat {
    if successes == 0 then 0 else Budget(each, successes - 1) + each
  }

  lemma {:induction false} StaleStart<E(!new)>(n: nat)
    ensures Stale(seq(n, _ => Phase<E>.Idle), 0) == 0
  {
    if n > 0 {
      StaleStart<E>(n - 1);
      assert seq(n, _ => Phase<E>.Idle)[..n - 1] == seq(n - 1, _ => Phase<E>.Idle);
    }
  }

  /** Lock-freedom, counted: however the callers interleave, each successful call can cost every other caller at most
      one failed swap, so failures never outnumber successes times the other callers. */
  lemma {:induction false} FailuresAreBounded<E(!new)>(callers: nat, events: seq<Event<E>>)
    requires Runs(callers, events) && callers > 0
    ensures Failures(callers, events) + Stale(After(callers, events).callers, After(callers, events).current)
         <= Budget(callers - 1, Successes(callers, events))
    decreases |events|
  {
    if events == [] {
      StaleStart<E>(callers);
    } else {
      var n := |events| - 1;
      var s, e := After(callers, events[..n]), events[n];
      FailuresAreBounded(callers, events[..n]);
      StepSpendsBudget(s, e);
      NextConsistent(s, e);
      if Succeeds(s, e) {
        assert Successes(callers, events) == Successes(callers, events[..n]) + 1;
        assert Failures(callers, events) == Failures(callers, events[..n]);
      } else {
        assert Successes(callers, events) == Successes(callers, events[..n]);
        assert Failures(callers, events) == Failures(callers, events[..n]) + (if Fails(s, e) then 1 else 0);
      }
    }
  }

  /** A success leaves at most every other caller stale; a failure uses up one stale caller; nothing else makes one. */
  lemma StepSpendsBudget<E(!new)>(s: State<E>, e: Event<E>)
    requires Consistent(s) && Enabled(s, e)
    ensures var s' := Next(s, e);
      if Succeeds(s, e) then Stale(s'.callers, s'.current) <= |s.callers| - 1
      else Stale(s'.callers, s'.current) + (if Fails(s, e) then 1 else 0) <= Stale(s.callers, s.current)
  {
    var s' := Next(s, e);
    if Succeeds(s, e) {
      StaleBound(s'.callers, s'.current, e.caller);
    } else {
      StaleUpdate(s.callers, e.caller, s'.callers[e.caller], s.current);
    }
  }
}
