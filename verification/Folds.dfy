/** Folding a list of events into a state, and when their order does not matter. */
module Folds {
  import opened Sorting

  ghost function Fold<S, O>(step: (S, O) -> S, s: S, events: seq<O>): S
    decreases |events|
  {
    if events == [] then s else Fold(step, step(s, events[0]), events[1..])
  }

  /** From a state in which inv holds, steps on ok events keep inv and commute. */
  ghost predicate Commuting<S(!new), O(!new)>(step: (S, O) -> S, inv: S -> bool, ok: O -> bool) {
    && (forall s, o :: inv(s) && ok(o) ==> inv(step(s, o)))
    && (forall s, o, o' :: inv(s) && ok(o) && ok(o') ==> step(step(s, o), o') == step(step(s, o'), o))
  }

  ghost predicate AllOk<O>(ok: O -> bool, events: seq<O>) {
    forall o :: o in events ==> ok(o)
  }

  /** The event at position i can be moved to the front. */
  lemma {:induction false} FoldFront<S(!new), O(!new)>(step: (S, O) -> S, inv: S -> bool, ok: O -> bool, s: S,
                                                       events: seq<O>, i: nat)
    requires Commuting(step, inv, ok) && inv(s) && AllOk(ok, events) && i < |events|
    ensures Fold(step, s, events) == Fold(step, step(s, events[i]), Without(events, i))
    decreases |events|
  {
    if i == 0 {
      assert Without(events, 0) == events[1..];
    } else {
      var first, rest := events[0], events[1..];
      assert first in events && events[i] in events;
      FoldFront(step, inv, ok, step(s, first), rest, i - 1);
      assert Without(events, i)[0] == first && Without(events, i)[1..] == Without(rest, i - 1);
    }
  }

  lemma {:induction false} FoldIgnoresOrder<S(!new), O(!new)>(step: (S, O) -> S, inv: S -> bool, ok: O -> bool, s: S,
                                                              events: seq<O>, events': seq<O>)
    requires Commuting(step, inv, ok) && inv(s) && AllOk(ok, events) && multiset(events) == multiset(events')
    ensures Fold(step, s, events) == Fold(step, s, events')
    decreases |events|
  {
    PermutationKeepsElements(events', events);
    if events != [] {
      assert events[0] in events';
      var i :| 0 <= i < |events'| && events'[i] == events[0];
      FoldFront(step, inv, ok, s, events', i);
      TakeOut(events', i);
      TakeOut(events, 0);
      assert Without(events, 0) == events[1..];
      CancelOne(multiset(events[1..]), multiset(Without(events', i)), events[0]);
      FoldIgnoresOrder(step, inv, ok, step(s, events[0]), events[1..], Without(events', i));
    }
  }

  /** A relation to the start that every step keeps holds after the whole run. */
  lemma {:induction false} FoldKeeps<S(!new), O(!new)>(step: (S, O) -> S, inv: S -> bool, ok: O -> bool, s: S,
                                                       events: seq<O>)
    requires inv(s) && AllOk(ok, events) && forall t, o :: inv(t) && ok(o) ==> inv(step(t, o))
    ensures inv(Fold(step, s, events))
    decreases |events|
  {
    if events != [] {
      assert events[0] in events;
      FoldKeeps(step, inv, ok, step(s, events[0]), events[1..]);
    }
  }

  /** Two steps that agree wherever inv holds lead to the same end. */
  lemma {:induction false} FoldSame<S(!new), O(!new)>(step: (S, O) -> S, step': (S, O) -> S, inv: S -> bool, s: S,
                                                      events: seq<O>)
    requires inv(s) && forall t, o :: inv(t) ==> inv(step(t, o)) && step'(t, o) == step(t, o)
    ensures Fold(step', s, events) == Fold(step, s, events)
    decreases |events|
  {
    if events != [] {
      FoldSame(step, step', inv, step(s, events[0]), events[1..]);
    }
  }
}
