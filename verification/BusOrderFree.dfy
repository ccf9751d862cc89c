/** The bus search does not depend on the order in which places and legs are listed: dominance
    keeps the best state of each key, and every sort is decided by its whole key. */
module BusOrderFree {
  import opened Common
  import opened Ordering
  import opened BusBoarding
  import opened BusSearch
  import opened BusItinerary
  import opened BusKeys

  /** The same request with its places tried, and its legs listed, in another order. */
  ghost predicate Relisted(q: Request, r: Request) {
    && r == q.(ids := r.ids, legs := r.legs)
    && (forall id :: id in q.ids <==> id in r.ids)
    && (forall leg :: leg in q.legs <==> leg in r.legs)
  }

  // ------------------------------------------------------------------ one ride, one visit

  lemma {:induction false} RidesAgree(q: Request, r: Request, origin: PlaceId, destination: PlaceId, at: int)
    requires Relisted(q, r)
    ensures NextArrival(q.policy, q.legs, origin, destination, at) == NextArrival(r.policy, r.legs, origin, destination, at)
  {
    NextArrivalDependsOnUsableLegs(q.policy, q.legs, r.legs, origin, destination, at);
  }

  lemma {:induction false} StartsAgree(q: Request, r: Request, place: Place, arrival: int)
    requires q.transferSlack == r.transferSlack && q.lunchStart == r.lunchStart
    ensures ActivityStart(q, place, arrival) == ActivityStart(r, place, arrival)
  {
  }

  lemma {:induction false} LimitsAgree(q: Request, r: Request, place: Place, startAt: int, endAt: int)
    requires q.lunchEnd == r.lunchEnd
    ensures Admits(q, place, startAt, endAt) == Admits(r, place, startAt, endAt)
  {
  }

  lemma {:induction false} StaysAgree(q: Request, r: Request, useMinimum: bool, s: State, id: PlaceId, arrival: int)
    requires q.places == r.places && q.required == r.required && id in q.places
    requires q.transferSlack == r.transferSlack && q.lunchStart == r.lunchStart && q.lunchEnd == r.lunchEnd
    ensures Stayed(q, useMinimum, s, id, arrival) == Stayed(r, useMinimum, s, id, arrival)
  {
    StartsAgree(q, r, q.places[id], arrival);
    assert StayMinutes(q, useMinimum, id) == StayMinutes(r, useMinimum, id);
    var startAt := ActivityStart(q, q.places[id], arrival);
    LimitsAgree(q, r, q.places[id], startAt, startAt + 60 * StayMinutes(q, useMinimum, id));
  }

  lemma {:induction false} VisitsAgree(q: Request, r: Request, useMinimum: bool, s: State, id: PlaceId)
    requires Relisted(q, r) && id in q.places
    ensures Visited(q, useMinimum, s, id) == Visited(r, useMinimum, s, id)
  {
    RidesAgree(q, r, s.current, id, s.at);
    var arrival := NextArrival(q.policy, q.legs, s.current, id, s.at);
    if arrival.Some? {
      StaysAgree(q, r, useMinimum, s, id, arrival.value);
    }
  }

  lemma {:induction false} VisitEndsThere(q: Request, useMinimum: bool, s: State, id: PlaceId)
    requires id in q.places && Visited(q, useMinimum, s, id).Some?
    ensures var x := Visited(q, useMinimum, s, id).value; x.used != [] && x.current == x.used[|x.used| - 1]
  {
  }

  // ------------------------------------------------------------------ one layer

  lemma {:induction false} CandidatesAgree(q: Request, r: Request, useMinimum: bool, states: seq<State>, a: seq<PlaceId>, b: seq<PlaceId>, x: State)
    requires Relisted(q, r) && Known(q, a) && Known(r, b) && forall id :: id in a <==> id in b
    requires Candidate(q, useMinimum, states, a, x)
    ensures Candidate(r, useMinimum, states, b, x)
  {
    var s, id :| s in states && id in a && Visited(q, useMinimum, s, id) == Some(x);
    VisitsAgree(q, r, useMinimum, s, id);
    assert id in b;
  }

  lemma {:induction false} BackAgain(q: Request, r: Request)
    requires Relisted(q, r)
    ensures Relisted(r, q)
  {
  }

  lemma {:induction false} UnbeatenAgree(q: Request, r: Request, useMinimum: bool, states: seq<State>, a: seq<PlaceId>, b: seq<PlaceId>, x: State)
    requires Relisted(q, r) && Known(q, a) && Known(r, b) && forall id :: id in a <==> id in b
    requires Unbeaten(q, useMinimum, states, a, x)
    ensures Unbeaten(r, useMinimum, states, b, x)
  {
    CandidatesAgree(q, r, useMinimum, states, a, b, x);
    forall y | Candidate(r, useMinimum, states, b, y) && SameKey(x, y) ensures !StateLess(y, x) {
      BackAgain(q, r);
      CandidatesAgree(r, q, useMinimum, states, b, a, y);
    }
  }

  lemma {:induction false} OfferedAgree(q: Request, r: Request, useMinimum: bool, role: Role, states: seq<State>, x: State)
    requires q.Valid() && r.Valid() && Relisted(q, r) && x in Offered(q, useMinimum, role, states)
    ensures x in Offered(r, useMinimum, role, states)
  {
    var a, b := Choices(q, role, |q.ids|), Choices(r, role, |r.ids|);
    assert q.ids[..|q.ids|] == q.ids && r.ids[..|r.ids|] == r.ids;
    KeptIffUnbeaten(q, useMinimum, states, a, x);
    UnbeatenAgree(q, r, useMinimum, states, a, b, x);
    KeptIffUnbeaten(r, useMinimum, states, b, x);
  }

  lemma {:induction false} OfferedDistinct(q: Request, useMinimum: bool, role: Role, states: seq<State>)
    requires q.Valid()
    ensures KeysDistinct(Offered(q, useMinimum, role, states)) && Distinct(Offered(q, useMinimum, role, states))
  {
    StatesKeysDistinct(q, useMinimum, states, |states|, Choices(q, role, |q.ids|));
  }

  lemma {:induction false} OfferedEndThere(q: Request, useMinimum: bool, role: Role, states: seq<State>, x: State)
    requires q.Valid() && x in Offered(q, useMinimum, role, states)
    ensures x.used != [] && x.current == x.used[|x.used| - 1]
  {
    var choices := Choices(q, role, |q.ids|);
    StatesAreCandidates(q, useMinimum, states, |states|, choices, x);
    var s, id :| s in states && id in choices && Visited(q, useMinimum, s, id) == Some(x);
    VisitEndsThere(q, useMinimum, s, id);
  }

  lemma {:induction false} StateLessOrders()
    ensures StrictOrder(StateLess)
  {
    forall a: State, b: State, c: State
      ensures !StateLess(a, a)
      ensures StateLess(a, b) && StateLess(b, c) ==> StateLess(a, c)
      ensures StateLess(a, b) ==> StateLess(a, c) || StateLess(c, b)
    {
      StateLessIsStrict(a, b, c);
    }
  }

  /** Two lists of the same states, each once, are sorted into one. */
  lemma {:induction false} StatesSortAlike(a: seq<State>, b: seq<State>)
    requires Distinct(a) && Distinct(b) && forall x :: x in a <==> x in b
    requires forall x :: x in a ==> x.used != [] && x.current == x.used[|x.used| - 1]
    ensures Sort(StateLess, a) == Sort(StateLess, b)
  {
    DistinctPermutes(a, b);
    StateLessOrders();
    SortSorts(StateLess, a);
    SortSorts(StateLess, b);
    forall x, y | x in multiset(a) && y in multiset(a) && x != y ensures StateLess(x, y) || StateLess(y, x) {
      StateLessIsStrict(x, y, x);
    }
    SortedUnique(StateLess, Sort(StateLess, a), Sort(StateLess, b));
  }

  lemma {:induction false} LayerAgrees(q: Request, r: Request, useMinimum: bool, role: Role, states: seq<State>)
    requires q.Valid() && r.Valid() && Relisted(q, r)
    ensures Layer(q, useMinimum, role, states) == Layer(r, useMinimum, role, states)
  {
    var a, b := Offered(q, useMinimum, role, states), Offered(r, useMinimum, role, states);
    BackAgain(q, r);
    forall x ensures x in a <==> x in b {
      if x in a { OfferedAgree(q, r, useMinimum, role, states, x); }
      if x in b { OfferedAgree(r, q, useMinimum, role, states, x); }
    }
    OfferedDistinct(q, useMinimum, role, states);
    OfferedDistinct(r, useMinimum, role, states);
    forall x | x in a ensures x.used != [] && x.current == x.used[|x.used| - 1] {
      OfferedEndThere(q, useMinimum, role, states, x);
    }
    StatesSortAlike(a, b);
  }

  lemma {:induction false} NextLayersAgree(q: Request, r: Request, useMinimum: bool, pattern: seq<Role>, n: nat, before: seq<State>)
    requires q.Valid() && r.Valid() && Relisted(q, r) && 0 < n <= |pattern|
    requires before == Layers(q, useMinimum, pattern, n - 1) && before == Layers(r, useMinimum, pattern, n - 1)
    ensures Layers(q, useMinimum, pattern, n) == Layers(r, useMinimum, pattern, n)
  {
    NextLayer(q, useMinimum, pattern, n, before);
    NextLayer(r, useMinimum, pattern, n, before);
    LayerAgrees(q, r, useMinimum, pattern[n - 1], before);
  }

  lemma {:induction false} LayersAgree(q: Request, r: Request, useMinimum: bool, pattern: seq<Role>, n: nat)
    requires q.Valid() && r.Valid() && Relisted(q, r) && n <= |pattern|
    ensures Layers(q, useMinimum, pattern, n) == Layers(r, useMinimum, pattern, n)
  {
    if n > 0 {
      LayersAgree(q, r, useMinimum, pattern, n - 1);
      NextLayersAgree(q, r, useMinimum, pattern, n, Layers(q, useMinimum, pattern, n - 1));
    }
  }

  // ------------------------------------------------------------------ the whole search

  lemma {:induction false} HomecomingsAgree(q: Request, r: Request, states: seq<State>)
    requires Relisted(q, r)
    ensures Homecomings(q, states) == Homecomings(r, states)
  {
    forall i | 0 <= i < |states| ensures Homecoming(q, states[i]) == Homecoming(r, states[i]) {
      RidesAgree(q, r, states[i].current, q.end, states[i].at);
    }
  }

  lemma {:induction false} PatternsAgree(q: Request, r: Request, useMinimum: bool, pattern: seq<Role>)
    requires q.Valid() && r.Valid() && Relisted(q, r)
    ensures PatternSolutions(q, useMinimum, pattern) == PatternSolutions(r, useMinimum, pattern)
  {
    LayersAgree(q, r, useMinimum, pattern, |pattern|);
    HomecomingsAgree(q, r, Layers(q, useMinimum, pattern, |pattern|));
  }

  lemma {:induction false} PhasesAgree(q: Request, r: Request, useMinimum: bool, patterns: seq<seq<Role>>)
    requires q.Valid() && r.Valid() && Relisted(q, r)
    ensures PhaseSolutions(q, useMinimum, patterns) == PhaseSolutions(r, useMinimum, patterns)
  {
    forall i | 0 <= i < |patterns| ensures SolutionsByPattern(q, useMinimum, patterns)[i] == SolutionsByPattern(r, useMinimum, patterns)[i] {
      PatternsAgree(q, r, useMinimum, patterns[i]);
    }
    assert SolutionsByPattern(q, useMinimum, patterns) == SolutionsByPattern(r, useMinimum, patterns);
  }

  lemma {:induction false} UnknownAgree(q: Request, r: Request, order: seq<PlaceId>)
    requires q.places == r.places
    ensures UnknownHours(q, order) == UnknownHours(r, order)
  {
    if order != [] {
      UnknownAgree(q, r, order[1..]);
    }
  }

  lemma {:induction false} InsertAlike<T>(f: (T, T) -> bool, g: (T, T) -> bool, x: T, s: seq<T>)
    requires forall y :: y in s ==> f(x, y) == g(x, y)
    ensures Insert(f, x, s) == Insert(g, x, s)
  {
    if s != [] {
      InsertAlike(f, g, x, s[..|s| - 1]);
    }
  }

  lemma {:induction false} SortAlike<T(!new)>(f: (T, T) -> bool, g: (T, T) -> bool, s: seq<T>)
    requires forall x, y :: f(x, y) == g(x, y)
    ensures Sort(f, s) == Sort(g, s)
  {
    if s != [] {
      SortAlike(f, g, s[..|s| - 1]);
      InsertAlike(f, g, s[|s| - 1], Sort(f, s[..|s| - 1]));
    }
  }

  lemma {:induction false} RankingsAgree(q: Request, r: Request)
    requires q.places == r.places
    ensures forall a, b :: Ranking(q)(a, b) == Ranking(r)(a, b)
  {
    forall a: Solution, b: Solution ensures RankLess(q, a, b) == RankLess(r, a, b) {
      UnknownAgree(q, r, a.order);
      UnknownAgree(q, r, b.order);
    }
  }

  /** The solutions are the same, in the same order, however places and legs are listed, even
      when the cut of the states or of the solutions fires. */
  lemma {:induction false} ListingOrderDoesNotMatter(q: Request, r: Request)
    requires q.Valid() && r.Valid() && Relisted(q, r)
    ensures Solutions(q) == Solutions(r)
  {
    PhasesAgree(q, r, false, RolePatterns(q));
    PhasesAgree(q, r, true, RolePatterns(q));
    RankingsAgree(q, r);
    SortAlike(Ranking(q), Ranking(r), Unique(Found(q), |Found(q)|));
  }
}
