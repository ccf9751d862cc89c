/** Pruning by (last place, set of used places) is lossless when an earlier start is never
    worse, and loses itineraries when the wait limit binds. */
module BusDominance {
  import opened Common
  import opened Ordering
  import opened BusBoarding
  import opened BusSearch
  import opened BusItinerary

  /** A state of the layer stands at the same place, has used the same places, and is no later. */
  ghost predicate Covers(kept: seq<State>, s: State) {
    exists k :: k in kept && SameKey(k, s) && k.at <= s.at
  }

  lemma {:induction false} UpsertCovers(kept: seq<State>, s: State)
    ensures Covers(Upsert(kept, s), s)
  {
    var i := IndexOfKey(kept, s);
    var now := Upsert(kept, s);
    if i == |kept| {
      assert now[i] == s;
    } else {
      assert now[i] in now && SameKey(now[i], s) && now[i].at <= s.at;
    }
  }

  lemma {:induction false} UpsertKeepsCovered(kept: seq<State>, s: State, x: State)
    requires Covers(kept, x)
    ensures Covers(Upsert(kept, s), x)
  {
    var k :| k in kept && SameKey(k, x) && k.at <= x.at;
    var j :| 0 <= j < |kept| && kept[j] == k;
    var now := Upsert(kept, s);
    assert now[j] in now && SameKey(now[j], x) && now[j].at <= x.at;
  }

  lemma {:induction false} OfferKeepsCovered(q: Request, useMinimum: bool, s: State, id: PlaceId, kept: seq<State>, x: State)
    requires id in q.places && Covers(kept, x)
    ensures Covers(Offer(q, useMinimum, s, id, kept), x)
  {
    var next := Visited(q, useMinimum, s, id);
    if next.Some? {
      UpsertKeepsCovered(kept, next.value, x);
    }
  }

  lemma {:induction false} OfferChoicesKeepsCovered(q: Request, useMinimum: bool, s: State, choices: seq<PlaceId>, n: nat, kept: seq<State>, x: State)
    requires n <= |choices| && forall id :: id in choices ==> id in q.places
    requires Covers(kept, x)
    ensures Covers(OfferChoices(q, useMinimum, s, choices, n, kept), x)
  {
    if n > 0 {
      OfferChoicesKeepsCovered(q, useMinimum, s, choices, n - 1, kept, x);
      OfferKeepsCovered(q, useMinimum, s, choices[n - 1], OfferChoices(q, useMinimum, s, choices, n - 1, kept), x);
    }
  }

  lemma {:induction false} OfferChoicesCovers(q: Request, useMinimum: bool, s: State, choices: seq<PlaceId>, n: nat, kept: seq<State>, k: nat)
    requires k < n <= |choices| && forall id :: id in choices ==> id in q.places
    requires Visited(q, useMinimum, s, choices[k]).Some?
    ensures Covers(OfferChoices(q, useMinimum, s, choices, n, kept), Visited(q, useMinimum, s, choices[k]).value)
  {
    var before, x := OfferChoices(q, useMinimum, s, choices, n - 1, kept), Visited(q, useMinimum, s, choices[k]).value;
    if k == n - 1 {
      UpsertCovers(before, x);
    } else {
      OfferChoicesCovers(q, useMinimum, s, choices, n - 1, kept, k);
      OfferKeepsCovered(q, useMinimum, s, choices[n - 1], before, x);
    }
  }

  lemma {:induction false} OfferStatesCovers(q: Request, useMinimum: bool, states: seq<State>, n: nat, choices: seq<PlaceId>, i: nat, k: nat)
    requires i < n <= |states| && k < |choices| && forall id :: id in choices ==> id in q.places
    requires Visited(q, useMinimum, states[i], choices[k]).Some?
    ensures Covers(OfferStates(q, useMinimum, states, n, choices), Visited(q, useMinimum, states[i], choices[k]).value)
  {
    var before := OfferStates(q, useMinimum, states, n - 1, choices);
    if i == n - 1 {
      OfferChoicesCovers(q, useMinimum, states[i], choices, |choices|, before, k);
    } else {
      OfferStatesCovers(q, useMinimum, states, n - 1, choices, i, k);
      OfferChoicesKeepsCovered(q, useMinimum, states[n - 1], choices, |choices|, before, Visited(q, useMinimum, states[i], choices[k]).value);
    }
  }

  // ------------------------------------------------------------------ the hypotheses

  /** Timetable rows run forward, and on every edge each leg is handed over from the start of
      the window: the exact condition under which an earlier start is never worse. */
  ghost predicate WaitLimitHarmless(q: Request) {
    && (forall leg :: leg in q.legs ==> leg.departsAt <= leg.arrivesAt && leg.accessDistance >= 0.0 && leg.egressDistance >= 0.0)
    && (forall origin, destination :: HandedOver(q.policy, q.legs, origin, destination, q.windowStart))
  }

  predicate CutIdle(q: Request, useMinimum: bool, pattern: seq<Role>, n: nat)
    requires q.Valid() && n < |pattern|
  {
    |Offered(q, useMinimum, pattern[n], Layers(q, useMinimum, pattern, n))| <= STATE_LIMIT
  }

  predicate CutNeverFires(q: Request, useMinimum: bool, pattern: seq<Role>)
    requires q.Valid()
  {
    forall n :: 0 <= n < |pattern| ==> CutIdle(q, useMinimum, pattern, n)
  }

  // ------------------------------------------------------------------ one step and one layer

  lemma {:induction false} VisitGoesForward(q: Request, useMinimum: bool, s: State, id: PlaceId)
    requires WaitLimitHarmless(q) && id in q.places && Visited(q, useMinimum, s, id).Some?
    ensures s.at <= Visited(q, useMinimum, s, id).value.at
  {
    RideGoesForward(q.policy, q.legs, s.current, id, s.at);
  }

  lemma {:induction false} ReplayGoesForward(q: Request, useMinimum: bool, order: seq<PlaceId>)
    requires WaitLimitHarmless(q) && Replay(q, useMinimum, order).Some?
    ensures q.windowStart <= Replay(q, useMinimum, order).value.at
  {
    if order != [] {
      ReplayGoesForward(q, useMinimum, order[..|order| - 1]);
      VisitGoesForward(q, useMinimum, Replay(q, useMinimum, order[..|order| - 1]).value, order[|order| - 1]);
    }
  }

  lemma {:induction false} ElementsOfAppend(used: seq<PlaceId>, id: PlaceId)
    ensures Elements(used + [id]) == Elements(used) + {id}
  {
  }

  lemma {:induction false} ArrivalNoLater(q: Request, a: State, b: State, destination: PlaceId)
    requires WaitLimitHarmless(q)
    requires SameKey(a, b) && q.windowStart <= a.at <= b.at
    requires NextArrival(q.policy, q.legs, b.current, destination, b.at).Some?
    ensures NextArrival(q.policy, q.legs, a.current, destination, a.at).Some?
    ensures NextArrival(q.policy, q.legs, a.current, destination, a.at).value <= NextArrival(q.policy, q.legs, b.current, destination, b.at).value
  {
    assert HandedOver(q.policy, q.legs, a.current, destination, q.windowStart);
    EarlierIsNoWorseIff(q.policy, q.legs, a.current, destination, q.windowStart);
  }

  lemma {:induction false} StayNoLater(q: Request, useMinimum: bool, a: State, b: State, id: PlaceId, x: int, y: int)
    requires id in q.places && x <= y && Stayed(q, useMinimum, b, id, y).Some?
    ensures Stayed(q, useMinimum, a, id, x).Some?
    ensures Stayed(q, useMinimum, a, id, x).value.at <= Stayed(q, useMinimum, b, id, y).value.at
  {
  }

  lemma {:induction false} VisitNoLater(q: Request, useMinimum: bool, a: State, b: State, id: PlaceId)
    requires WaitLimitHarmless(q)
    requires SameKey(a, b) && q.windowStart <= a.at <= b.at
    requires id in q.places && Visited(q, useMinimum, b, id).Some?
    ensures Visited(q, useMinimum, a, id).Some?
    ensures SameKey(Visited(q, useMinimum, a, id).value, Visited(q, useMinimum, b, id).value)
    ensures Visited(q, useMinimum, a, id).value.at <= Visited(q, useMinimum, b, id).value.at
  {
    assert id in a.used <==> id in Elements(a.used);
    assert id in b.used <==> id in Elements(b.used);
    ArrivalNoLater(q, a, b, id);
    StayNoLater(q, useMinimum, a, b, id,
                NextArrival(q.policy, q.legs, a.current, id, a.at).value, NextArrival(q.policy, q.legs, b.current, id, b.at).value);
    ElementsOfAppend(a.used, id);
    ElementsOfAppend(b.used, id);
  }

  ghost predicate StartInWindow(q: Request, states: seq<State>) {
    forall s :: s in states ==> q.windowStart <= s.at
  }

  /** One layer keeps a cover of every state reached from a kept state. */
  lemma {:induction false} LayerCovers(q: Request, useMinimum: bool, role: Role, states: seq<State>, a: State, id: PlaceId) returns (kept: State)
    requires q.Valid() && |Offered(q, useMinimum, role, states)| <= STATE_LIMIT && a in states
    requires id in q.places && q.places[id].role == role && Visited(q, useMinimum, a, id).Some?
    ensures kept in Layer(q, useMinimum, role, states)
    ensures SameKey(kept, Visited(q, useMinimum, a, id).value) && kept.at <= Visited(q, useMinimum, a, id).value.at
  {
    var next := Visited(q, useMinimum, a, id).value;
    OfferedCovers(q, useMinimum, role, states, a, id);
    var offered := Offered(q, useMinimum, role, states);
    kept :| kept in offered && SameKey(kept, next) && kept.at <= next.at;
    SortKeepsElements(StateLess, offered, kept);
  }

  lemma {:induction false} OfferedCovers(q: Request, useMinimum: bool, role: Role, states: seq<State>, a: State, id: PlaceId)
    requires q.Valid() && a in states
    requires id in q.places && q.places[id].role == role && Visited(q, useMinimum, a, id).Some?
    ensures Covers(Offered(q, useMinimum, role, states), Visited(q, useMinimum, a, id).value)
  {
    var i :| 0 <= i < |states| && states[i] == a;
    assert id in q.ids && q.ids[..|q.ids|] == q.ids;
    var choices := Choices(q, role, |q.ids|);
    var k :| 0 <= k < |choices| && choices[k] == id;
    OfferStatesCovers(q, useMinimum, states, |states|, choices, i, k);
  }

  lemma {:induction false} LayersStartInWindow(q: Request, useMinimum: bool, pattern: seq<Role>, n: nat)
    requires q.Valid() && WaitLimitHarmless(q) && n <= |pattern|
    ensures StartInWindow(q, Layers(q, useMinimum, pattern, n))
  {
    LayersGenuine(q, useMinimum, pattern, n);
    forall s | s in Layers(q, useMinimum, pattern, n) ensures q.windowStart <= s.at {
      assert Genuine(q, useMinimum, pattern[..n], s);
      ReplayGoesForward(q, useMinimum, s.used);
    }
  }

  /** One more visit, from a state kept in the layer before. */
  lemma {:induction false} NextLayerCovers(q: Request, useMinimum: bool, pattern: seq<Role>, n: nat, states: seq<State>, a: State, b: State, id: PlaceId)
    returns (kept: State)
    requires q.Valid() && WaitLimitHarmless(q) && 0 < n <= |pattern| && CutIdle(q, useMinimum, pattern, n - 1)
    requires states == Layers(q, useMinimum, pattern, n - 1) && a in states && q.windowStart <= a.at && SameKey(a, b) && a.at <= b.at
    requires id in q.places && q.places[id].role == pattern[n - 1] && Visited(q, useMinimum, b, id).Some?
    ensures kept in Layers(q, useMinimum, pattern, n)
    ensures SameKey(kept, Visited(q, useMinimum, b, id).value) && kept.at <= Visited(q, useMinimum, b, id).value.at
  {
    VisitNoLater(q, useMinimum, a, b, id);
    kept := LayerCovers(q, useMinimum, pattern[n - 1], states, a, id);
    NextLayer(q, useMinimum, pattern, n, states);
  }

  /** Every order that can be travelled is covered in its layer. */
  lemma {:induction false} LayersCover(q: Request, useMinimum: bool, pattern: seq<Role>, order: seq<PlaceId>, n: nat) returns (kept: State)
    requires q.Valid() && WaitLimitHarmless(q) && CutNeverFires(q, useMinimum, pattern)
    requires n == |order| <= |pattern| && HasRoles(q, order, pattern[..n])
    requires Replay(q, useMinimum, order).Some?
    ensures kept in Layers(q, useMinimum, pattern, n)
    ensures SameKey(kept, Replay(q, useMinimum, order).value) && kept.at <= Replay(q, useMinimum, order).value.at
  {
    if n == 0 {
      kept := Initial(q);
    } else {
      var front, id := order[..n - 1], order[n - 1];
      FrontTravels(q, useMinimum, pattern, order, n);
      var a := LayersCover(q, useMinimum, pattern, front, n - 1);
      LayersStartInWindow(q, useMinimum, pattern, n - 1);
      assert CutIdle(q, useMinimum, pattern, n - 1);
      kept := NextLayerCovers(q, useMinimum, pattern, n, Layers(q, useMinimum, pattern, n - 1), a, Replay(q, useMinimum, front).value, id);
    }
  }

  lemma {:induction false} FrontTravels(q: Request, useMinimum: bool, pattern: seq<Role>, order: seq<PlaceId>, n: nat)
    requires 0 < n == |order| <= |pattern| && HasRoles(q, order, pattern[..n]) && Replay(q, useMinimum, order).Some?
    ensures HasRoles(q, order[..n - 1], pattern[..n - 1]) && Replay(q, useMinimum, order[..n - 1]).Some?
    ensures order[n - 1] in q.places && q.places[order[n - 1]].role == pattern[n - 1]
    ensures Visited(q, useMinimum, Replay(q, useMinimum, order[..n - 1]).value, order[n - 1]) == Replay(q, useMinimum, order)
  {
  }

  // ------------------------------------------------------------------ main result: nothing is lost

  /** The same roles, the same places and the same last place, home no later. */
  predicate Matches(q: Request, sol: Solution, pattern: seq<Role>, order: seq<PlaceId>, home: int) {
    && HasRoles(q, sol.order, pattern)
    && Elements(sol.order) == Elements(order)
    && |sol.order| == |order|
    && (order != [] ==> sol.order[|order| - 1] == order[|order| - 1])
    && sol.returnAt <= home
  }

  ghost predicate Matched(q: Request, found: seq<Solution>, pattern: seq<Role>, order: seq<PlaceId>, home: int) {
    exists sol :: sol in found && Matches(q, sol, pattern, order, home)
  }

  lemma {:induction false} FinishNoLater(q: Request, a: State, b: State, home: int)
    requires WaitLimitHarmless(q) && !q.hardRestLimit
    requires SameKey(a, b) && q.windowStart <= a.at <= b.at
    requires forall id :: id in q.required ==> id in b.used
    requires NextArrival(q.policy, q.legs, b.current, q.end, b.at) == Some(home) && home <= q.windowEnd
    ensures ReturnAt(q, a).Some? && ReturnAt(q, a).value <= home
  {
    ArrivalNoLater(q, a, b, q.end);
    forall id | id in q.required ensures id in Elements(a.used) {
      assert id in Elements(b.used);
    }
  }

  lemma {:induction false} CoverMatches(q: Request, useMinimum: bool, pattern: seq<Role>, order: seq<PlaceId>, home: int, a: State)
    requires WaitLimitHarmless(q) && !q.hardRestLimit
    requires Itinerary(q, useMinimum, pattern, order, home)
    requires Genuine(q, useMinimum, pattern, a)
    requires SameKey(a, Replay(q, useMinimum, order).value) && a.at <= Replay(q, useMinimum, order).value.at
    ensures ReturnAt(q, a).Some? && Matches(q, Solution(ReturnAt(q, a).value, a.used), pattern, order, home)
  {
    ReplayGoesForward(q, useMinimum, a.used);
    ReplayShape(q, useMinimum, order);
    ReplayShape(q, useMinimum, a.used);
    FinishNoLater(q, a, Replay(q, useMinimum, order).value, home);
  }

  lemma {:induction false} LastLayerCover(q: Request, useMinimum: bool, pattern: seq<Role>, order: seq<PlaceId>) returns (a: State)
    requires q.Valid() && WaitLimitHarmless(q) && CutNeverFires(q, useMinimum, pattern)
    requires HasRoles(q, order, pattern) && Replay(q, useMinimum, order).Some?
    ensures a in Layers(q, useMinimum, pattern, |pattern|) && Genuine(q, useMinimum, pattern, a)
    ensures SameKey(a, Replay(q, useMinimum, order).value) && a.at <= Replay(q, useMinimum, order).value.at
  {
    assert pattern[..|pattern|] == pattern;
    a := LayersCover(q, useMinimum, pattern, order, |pattern|);
    LayersGenuine(q, useMinimum, pattern, |pattern|);
  }

  lemma {:induction false} PatternIsLossless(q: Request, useMinimum: bool, pattern: seq<Role>, order: seq<PlaceId>, home: int)
    requires q.Valid() && WaitLimitHarmless(q) && CutNeverFires(q, useMinimum, pattern) && !q.hardRestLimit
    requires Itinerary(q, useMinimum, pattern, order, home)
    ensures Matched(q, PatternSolutions(q, useMinimum, pattern), pattern, order, home)
  {
    var a := LastLayerCover(q, useMinimum, pattern, order);
    CoverMatches(q, useMinimum, pattern, order, home, a);
    var last := Layers(q, useMinimum, pattern, |pattern|);
    var k :| 0 <= k < |last| && last[k] == a;
    StateIsFinished(q, last, |last|, k, ReturnAt(q, a).value);
  }

  ghost predicate NoCut(q: Request)
    requires q.Valid()
  {
    forall useMinimum, pattern :: pattern in RolePatterns(q) ==> CutNeverFires(q, useMinimum, pattern)
  }

  /** Dominance is lossless: with the wait limit harmless, the state cut idle and the hard rest
      limit off, every itinerary of the phase that was used has a match among what was found,
      and the minimum-stay phase is used exactly when no full-stay itinerary exists at all. */
  lemma {:induction false} DominanceIsLossless(q: Request, pattern: seq<Role>, order: seq<PlaceId>, home: int)
    requires q.Valid() && WaitLimitHarmless(q) && NoCut(q) && !q.hardRestLimit
    requires pattern in RolePatterns(q)
    ensures Itinerary(q, UsedMinimum(q), pattern, order, home) ==> Matched(q, Found(q), pattern, order, home)
    ensures Itinerary(q, false, pattern, order, home) ==> !UsedMinimum(q)
    ensures !UsedMinimum(q) ==> exists p, o, h :: p in RolePatterns(q) && Itinerary(q, false, p, o, h)
  {
    var patterns := RolePatterns(q);
    var k :| 0 <= k < |patterns| && patterns[k] == pattern;
    if Itinerary(q, false, pattern, order, home) {
      var sol := MatchInPhase(q, false, patterns, k, order, home);
    }
    if Itinerary(q, UsedMinimum(q), pattern, order, home) {
      var sol := MatchInPhase(q, UsedMinimum(q), patterns, k, order, home);
    }
    if !UsedMinimum(q) {
      FoundAreItineraries(q, Found(q)[0]);
    }
  }

  lemma {:induction false} MatchInPhase(q: Request, useMinimum: bool, patterns: seq<seq<Role>>, k: nat, order: seq<PlaceId>, home: int) returns (sol: Solution)
    requires q.Valid() && WaitLimitHarmless(q) && !q.hardRestLimit
    requires k < |patterns| && CutNeverFires(q, useMinimum, patterns[k])
    requires Itinerary(q, useMinimum, patterns[k], order, home)
    ensures sol in PhaseSolutions(q, useMinimum, patterns)
    ensures Matched(q, PhaseSolutions(q, useMinimum, patterns), patterns[k], order, home)
  {
    PatternIsLossless(q, useMinimum, patterns[k], order, home);
    sol :| sol in PatternSolutions(q, useMinimum, patterns[k]) && Matches(q, sol, patterns[k], order, home);
    PartIsJoined(SolutionsByPattern(q, useMinimum, patterns), |patterns|, k, sol);
  }
}
