/** The bounded bus-only itinerary search: a layered programme over (last place, set of used
    places) that keeps one state per key, run for every arrangement of the wanted roles. */
module BusSearch {
  import opened Common
  import opened Ordering
  import opened BusBoarding

  // ------------------------------------------------------------------ data model

  /** In the order of their names, which is how the patterns are sorted. */
  datatype Role = Meal | Rest | Visit

  datatype Place = Place(
    role: Role,
    opensAt: Option<int>,
    closesAt: Option<int>,
    lastAdmissionAt: Option<int>,
    lastOrderAt: Option<int>,
    stay: nat,
    minimumStay: nat,
    verifiedHours: bool)

  datatype Request = Request(
    policy: Policy,
    legs: seq<Leg>,
    boundariesKnown: bool,        // both ends of the day name a place
    places: map<PlaceId, Place>,
    ids: seq<PlaceId>,            // the places in the order the search tries them
    start: PlaceId,
    end: PlaceId,
    windowStart: int,
    windowEnd: int,
    lunchStart: int,
    lunchEnd: int,
    transferSlack: nat,
    required: set<PlaceId>,
    visitTarget: nat,
    wantsMeal: bool,
    wantsRest: bool,
    hardRestLimit: bool,
    maxContinuous: int)
  {
    predicate Valid() {
      (forall id :: id in ids ==> id in places) && (forall id :: id in places ==> id in ids)
    }
  }

  /** Where a partial itinerary stands: (place, time, places in order, minutes since a rest). */
  datatype State = State(current: PlaceId, at: int, used: seq<PlaceId>, continuous: int)

  datatype Solution = Solution(returnAt: int, order: seq<PlaceId>)

  function Elements(s: seq<PlaceId>): set<PlaceId> {
    set id | id in s
  }

  predicate SameKey(a: State, b: State) {
    a.current == b.current && Elements(a.used) == Elements(b.used)
  }

  /** Python's comparison of tuples of ids. */
  predicate LexLess(a: seq<int>, b: seq<int>) {
    b != [] && (a == [] || a[0] < b[0] || (a[0] == b[0] && LexLess(a[1..], b[1..])))
  }

  predicate StateLess(a: State, b: State) {
    a.at < b.at || (a.at == b.at && (a.continuous < b.continuous || (a.continuous == b.continuous && LexLess(a.used, b.used))))
  }

  // ------------------------------------------------------------------ one leg and one stay

  function Later(a: int, b: Option<int>): int {
    if b.Some? && a < b.value then b.value else a
  }

  function StayMinutes(q: Request, useMinimum: bool, id: PlaceId): nat
    requires id in q.places
  {
    var place := q.places[id];
    if useMinimum && place.role == Visit && id !in q.required then place.minimumStay else place.stay
  }

  function ActivityStart(q: Request, place: Place, arrival: int): int {
    var doorsOpen := Later(arrival + 60 * q.transferSlack, place.opensAt);
    if place.role == Meal then Later(doorsOpen, Some(q.lunchStart)) else doorsOpen
  }

  predicate Admits(q: Request, place: Place, startAt: int, endAt: int) {
    && (place.lastAdmissionAt.Some? ==> startAt <= place.lastAdmissionAt.value)
    && (place.closesAt.Some? ==> endAt <= place.closesAt.value)
    && (place.role == Meal ==> endAt <= q.lunchEnd)
    && (place.role == Meal && place.lastOrderAt.Some? ==> startAt <= place.lastOrderAt.value)
  }

  /** The stay at `id` after arriving at `arrival`; `None` when it breaks a limit of the place
      or of lunch. */
  function Stayed(q: Request, useMinimum: bool, s: State, id: PlaceId, arrival: int): Option<State>
    requires id in q.places
  {
    var place := q.places[id];
    var startAt := ActivityStart(q, place, arrival);
    var stay := StayMinutes(q, useMinimum, id);
    var endAt := startAt + 60 * stay;
    if !Admits(q, place, startAt, endAt) then None
    else
      var ride := CeilMinutes(arrival - s.at);
      var rideMinutes := if ride < 0 then 0 else ride;
      Some(State(id, endAt, s.used + [id],
                 if place.role == Visit then s.continuous + rideMinutes + stay else 0))
  }

  /** Ride to an unused place and stay there. */
  function Visited(q: Request, useMinimum: bool, s: State, id: PlaceId): Option<State>
    requires id in q.places
  {
    if id in s.used then None
    else
      var arrival := NextArrival(q.policy, q.legs, s.current, id, s.at);
      if arrival.None? then None else Stayed(q, useMinimum, s, id, arrival.value)
  }

  // ------------------------------------------------------------------ the search, layer by layer

  function Initial(q: Request): State {
    State(q.start, q.windowStart, [], 0)
  }

  function Choices(q: Request, role: Role, n: nat): (r: seq<PlaceId>)
    requires q.Valid() && n <= |q.ids|
    ensures forall id :: id in r <==> id in q.ids[..n] && q.places[id].role == role
  {
    if n == 0 then []
    else
      assert q.ids[..n] == q.ids[..n - 1] + [q.ids[n - 1]];
      var last := q.ids[n - 1];
      assert last in q.ids && last in q.places;
      var before := Choices(q, role, n - 1);
      if q.places[last].role == role then before + [last] else before
  }

  function IndexOfKey(kept: seq<State>, s: State): (i: nat)
    ensures i <= |kept|
    ensures i < |kept| ==> SameKey(kept[i], s)
    ensures forall k :: 0 <= k < i ==> !SameKey(kept[k], s)
  {
    if kept == [] then 0
    else if SameKey(kept[0], s) then 0
    else 1 + IndexOfKey(kept[1..], s)
  }

  /** Keep the better of two states with the same key, in the older one's place. */
  function Upsert(kept: seq<State>, s: State): seq<State> {
    var i := IndexOfKey(kept, s);
    if i == |kept| then kept + [s]
    else if StateLess(s, kept[i]) then kept[i := s]
    else kept
  }

  function Offer(q: Request, useMinimum: bool, s: State, id: PlaceId, kept: seq<State>): seq<State>
    requires id in q.places
  {
    var next := Visited(q, useMinimum, s, id);
    if next.None? then kept else Upsert(kept, next.value)
  }

  function OfferChoices(q: Request, useMinimum: bool, s: State, choices: seq<PlaceId>, n: nat, kept: seq<State>): seq<State>
    requires n <= |choices| && forall id :: id in choices ==> id in q.places
  {
    if n == 0 then kept
    else Offer(q, useMinimum, s, choices[n - 1], OfferChoices(q, useMinimum, s, choices, n - 1, kept))
  }

  function OfferStates(q: Request, useMinimum: bool, states: seq<State>, n: nat, choices: seq<PlaceId>): seq<State>
    requires n <= |states| && forall id :: id in choices ==> id in q.places
  {
    if n == 0 then []
    else OfferChoices(q, useMinimum, states[n - 1], choices, |choices|, OfferStates(q, useMinimum, states, n - 1, choices))
  }

  const STATE_LIMIT := 12_000
  const SOLUTION_LIMIT := 80

  function Take<T>(s: seq<T>, limit: nat): seq<T> {
    if |s| <= limit then s else s[..limit]
  }

  /** Every state the next role offers, before the cut. */
  function Offered(q: Request, useMinimum: bool, role: Role, states: seq<State>): seq<State>
    requires q.Valid()
  {
    OfferStates(q, useMinimum, states, |states|, Choices(q, role, |q.ids|))
  }

  function Layer(q: Request, useMinimum: bool, role: Role, states: seq<State>): seq<State>
    requires q.Valid()
  {
    Take(Sort(StateLess, Offered(q, useMinimum, role, states)), STATE_LIMIT)
  }

  function Layers(q: Request, useMinimum: bool, pattern: seq<Role>, n: nat): seq<State>
    requires q.Valid() && n <= |pattern|
  {
    if n == 0 then [Initial(q)] else Layer(q, useMinimum, pattern[n - 1], Layers(q, useMinimum, pattern, n - 1))
  }

  lemma {:induction false} NextLayer(q: Request, useMinimum: bool, pattern: seq<Role>, n: nat, before: seq<State>)
    requires q.Valid() && 0 < n <= |pattern| && before == Layers(q, useMinimum, pattern, n - 1)
    ensures Layers(q, useMinimum, pattern, n) == Layer(q, useMinimum, pattern[n - 1], before)
  {
  }

  /** The ride home, when the itinerary is complete and within the request's limits. */
  function ReturnAt(q: Request, s: State): Option<int> {
    if !(q.required <= Elements(s.used)) then None
    else if q.hardRestLimit && s.continuous > q.maxContinuous then None
    else
      var home := NextArrival(q.policy, q.legs, s.current, q.end, s.at);
      if home.None? || home.value > q.windowEnd then None else home
  }

  /** The solution a state gives, if any. */
  function Homecoming(q: Request, s: State): seq<Solution> {
    var home := ReturnAt(q, s);
    if home.None? then [] else [Solution(home.value, s.used)]
  }

  /** The first `n` parts, one after the other. */
  function Joined(parts: seq<seq<Solution>>, n: nat): seq<Solution>
    requires n <= |parts|
  {
    if n == 0 then [] else Joined(parts, n - 1) + parts[n - 1]
  }

  function Homecomings(q: Request, states: seq<State>): (r: seq<seq<Solution>>)
    ensures |r| == |states| && forall i :: 0 <= i < |r| ==> r[i] == Homecoming(q, states[i])
  {
    seq(|states|, i requires 0 <= i < |states| => Homecoming(q, states[i]))
  }

  function Finished(q: Request, states: seq<State>, n: nat): seq<Solution>
    requires n <= |states|
  {
    Joined(Homecomings(q, states), n)
  }

  function PatternSolutions(q: Request, useMinimum: bool, pattern: seq<Role>): seq<Solution>
    requires q.Valid()
  {
    var last := Layers(q, useMinimum, pattern, |pattern|);
    Finished(q, last, |last|)
  }

  function SolutionsByPattern(q: Request, useMinimum: bool, patterns: seq<seq<Role>>): seq<seq<Solution>>
    requires q.Valid()
  {
    seq(|patterns|, i requires 0 <= i < |patterns| => PatternSolutions(q, useMinimum, patterns[i]))
  }

  function PhaseSolutions(q: Request, useMinimum: bool, patterns: seq<seq<Role>>): seq<Solution>
    requires q.Valid()
  {
    Joined(SolutionsByPattern(q, useMinimum, patterns), |patterns|)
  }

  /** Every distinct arrangement of `v` visits, `m` meals and `r` rests, in order. */
  function Patterns(m: nat, r: nat, v: nat): (p: seq<seq<Role>>)
    decreases m + r + v
  {
    if m + r + v == 0 then [[]]
    else
      (if m > 0 then Prefixed(Meal, Patterns(m - 1, r, v)) else [])
      + (if r > 0 then Prefixed(Rest, Patterns(m, r - 1, v)) else [])
      + (if v > 0 then Prefixed(Visit, Patterns(m, r, v - 1)) else [])
  }

  function Prefixed(role: Role, patterns: seq<seq<Role>>): (p: seq<seq<Role>>)
    ensures |p| == |patterns| && forall i :: 0 <= i < |p| ==> p[i] == [role] + patterns[i]
  {
    seq(|patterns|, i requires 0 <= i < |patterns| => [role] + patterns[i])
  }

  function RolePatterns(q: Request): seq<seq<Role>> {
    Patterns(if q.wantsMeal then 1 else 0, if q.wantsRest then 1 else 0, q.visitTarget)
  }

  /** Full stays first; the minimum stays are tried only when full stays find nothing. */
  function UsedMinimum(q: Request): bool
    requires q.Valid()
  {
    PhaseSolutions(q, false, RolePatterns(q)) == []
  }

  function Found(q: Request): seq<Solution>
    requires q.Valid()
  {
    PhaseSolutions(q, UsedMinimum(q), RolePatterns(q))
  }

  function IndexOfOrder(unique: seq<Solution>, order: seq<PlaceId>): (i: nat)
    ensures i <= |unique|
    ensures i < |unique| ==> unique[i].order == order
    ensures forall k :: 0 <= k < i ==> unique[k].order != order
  {
    if unique == [] then 0
    else if unique[0].order == order then 0
    else 1 + IndexOfOrder(unique[1..], order)
  }

  /** Enter one solution in the dictionary from order to earliest return. */
  function Recorded(unique: seq<Solution>, sol: Solution): seq<Solution> {
    var i := IndexOfOrder(unique, sol.order);
    if i == |unique| then unique + [sol]
    else if sol.returnAt < unique[i].returnAt then unique[i := sol]
    else unique
  }

  function Unique(found: seq<Solution>, n: nat): seq<Solution>
    requires n <= |found|
  {
    if n == 0 then [] else Recorded(Unique(found, n - 1), found[n - 1])
  }

  function UnknownHours(q: Request, order: seq<PlaceId>): nat {
    if order == [] then 0
    else UnknownHours(q, order[1..]) + (if order[0] in q.places && !q.places[order[0]].verifiedHours then 1 else 0)
  }

  predicate RankLess(q: Request, a: Solution, b: Solution) {
    var x, y := UnknownHours(q, a.order), UnknownHours(q, b.order);
    x < y || (x == y && (a.returnAt < b.returnAt || (a.returnAt == b.returnAt && LexLess(a.order, b.order))))
  }

  function Ranking(q: Request): (Solution, Solution) -> bool {
    (a, b) => RankLess(q, a, b)
  }

  function Solutions(q: Request): seq<Solution>
    requires q.Valid()
  {
    if !q.boundariesKnown then []
    else Take(Sort(Ranking(q), Unique(Found(q), |Found(q)|)), SOLUTION_LIMIT)
  }

  // ------------------------------------------------------------------ the search as it runs

  type Edges = map<(PlaceId, PlaceId), seq<Leg>>

  ghost predicate Groups(byEdge: Edges, legs: seq<Leg>) {
    && (forall edge, leg :: edge in byEdge && leg in byEdge[edge] ==> leg in legs && OnEdge(leg, edge.0, edge.1))
    && (forall leg :: leg in legs ==> (leg.origin, leg.destination) in byEdge && leg in byEdge[(leg.origin, leg.destination)])
  }

  method EdgeArrival(q: Request, byEdge: Edges, origin: PlaceId, destination: PlaceId, at: int) returns (r: Option<int>)
    requires Groups(byEdge, q.legs)
    ensures r == NextArrival(q.policy, q.legs, origin, destination, at)
  {
    var edgeLegs := if (origin, destination) in byEdge then byEdge[(origin, destination)] else [];
    r := NextBusArrival(q.policy, edgeLegs, origin, destination, at);
    NextArrivalDependsOnUsableLegs(q.policy, edgeLegs, q.legs, origin, destination, at);
  }

  method StayAt(q: Request, useMinimum: bool, role: Role, s: State, id: PlaceId, arrival: int) returns (next: Option<State>)
    requires id in q.places && q.places[id].role == role
    ensures next == Stayed(q, useMinimum, s, id, arrival)
  {
    var place := q.places[id];
    var startAt := arrival + 60 * q.transferSlack;
    if place.opensAt.Some? && startAt < place.opensAt.value {
      startAt := place.opensAt.value;
    }
    if role == Meal && startAt < q.lunchStart {
      startAt := q.lunchStart;
    }
    var stay := if useMinimum && role == Visit && id !in q.required then place.minimumStay else place.stay;
    var endAt := startAt + 60 * stay;
    if (place.lastAdmissionAt.Some? && startAt > place.lastAdmissionAt.value) || (place.closesAt.Some? && endAt > place.closesAt.value) {
      return None;
    }
    if role == Meal && (endAt > q.lunchEnd || (place.lastOrderAt.Some? && startAt > place.lastOrderAt.value)) {
      return None;
    }
    var ride := CeilMinutes(arrival - s.at);
    var rideMinutes := if ride < 0 then 0 else ride;
    var continuous := if role == Meal || role == Rest then 0 else s.continuous + rideMinutes + stay;
    return Some(State(id, endAt, s.used + [id], continuous));
  }

  method OfferLayer(q: Request, byEdge: Edges, useMinimum: bool, role: Role, states: seq<State>) returns (next: seq<State>)
    requires q.Valid() && Groups(byEdge, q.legs)
    ensures next == Layer(q, useMinimum, role, states)
  {
    var nextStates: seq<State> := [];
    var choices := Choices(q, role, |q.ids|);
    for i := 0 to |states|
      invariant nextStates == OfferStates(q, useMinimum, states, i, choices)
    {
      ghost var before := nextStates;
      for k := 0 to |choices|
        invariant nextStates == OfferChoices(q, useMinimum, states[i], choices, k, before)
      {
        assert choices[k] in choices;
        var s, id := states[i], choices[k];
        if id in s.used {
          continue;
        }
        var arrival := EdgeArrival(q, byEdge, s.current, id, s.at);
        if arrival.None? {
          continue;
        }
        var candidate := StayAt(q, useMinimum, role, s, id, arrival.value);
        if candidate.None? {
          continue;
        }
        nextStates := Upsert(nextStates, candidate.value);
      }
    }
    next := Take(Sort(StateLess, nextStates), STATE_LIMIT);
  }

  method AddLeg(start: Edges, ghost legs: seq<Leg>, leg: Leg) returns (byEdge: Edges)
    requires Groups(start, legs)
    ensures Groups(byEdge, legs + [leg])
  {
    var edge := (leg.origin, leg.destination);
    var before := if edge in start then start[edge] else [];
    byEdge := start[edge := before + [leg]];
    forall e, other | e in byEdge && other in byEdge[e] ensures other in legs + [leg] && OnEdge(other, e.0, e.1) {
      if e != edge {
        assert e in start && other in start[e];
      } else if other != leg {
        assert edge in start && other in start[edge];
      }
    }
    forall other | other in legs + [leg]
      ensures (other.origin, other.destination) in byEdge && other in byEdge[(other.origin, other.destination)]
    {
      if other == leg {
        assert (before + [leg])[|before|] == leg;
      } else {
        assert other in legs;
        assert (other.origin, other.destination) in start && other in start[(other.origin, other.destination)];
      }
    }
  }

  method GroupByEdge(legs: seq<Leg>) returns (byEdge: Edges)
    ensures Groups(byEdge, legs)
  {
    byEdge := map[];
    for i := 0 to |legs|
      invariant Groups(byEdge, legs[..i])
    {
      assert legs[..i + 1] == legs[..i] + [legs[i]];
      byEdge := AddLeg(byEdge, legs[..i], legs[i]);
    }
    assert legs[..|legs|] == legs;
  }

  method NextStates(q: Request, byEdge: Edges, useMinimum: bool, pattern: seq<Role>, n: nat, before: seq<State>) returns (states: seq<State>)
    requires q.Valid() && Groups(byEdge, q.legs) && n < |pattern| && before == Layers(q, useMinimum, pattern, n)
    ensures states == Layers(q, useMinimum, pattern, n + 1)
    ensures states == [] ==> Layers(q, useMinimum, pattern, |pattern|) == []
  {
    states := OfferLayer(q, byEdge, useMinimum, pattern[n], before);
    NextLayer(q, useMinimum, pattern, n + 1, before);
    if states == [] {
      NoStatesStayNone(q, useMinimum, pattern, n + 1);
    }
  }

  method SearchLayers(q: Request, byEdge: Edges, useMinimum: bool, pattern: seq<Role>) returns (states: seq<State>)
    requires q.Valid() && Groups(byEdge, q.legs)
    ensures states == Layers(q, useMinimum, pattern, |pattern|)
  {
    states := [Initial(q)];
    for n := 0 to |pattern|
      invariant states == Layers(q, useMinimum, pattern, n)
    {
      states := NextStates(q, byEdge, useMinimum, pattern, n, states);
      if states == [] {
        break;
      }
    }
  }

  method FinishState(q: Request, byEdge: Edges, s: State) returns (home: Option<int>)
    requires Groups(byEdge, q.legs)
    ensures home == ReturnAt(q, s)
  {
    if !(q.required <= Elements(s.used)) {
      return None;
    }
    if q.hardRestLimit && s.continuous > q.maxContinuous {
      return None;
    }
    home := EdgeArrival(q, byEdge, s.current, q.end, s.at);
    if home.None? || home.value > q.windowEnd {
      return None;
    }
  }

  method FinishStates(q: Request, byEdge: Edges, states: seq<State>) returns (found: seq<Solution>)
    requires Groups(byEdge, q.legs)
    ensures found == Finished(q, states, |states|)
  {
    found := [];
    for i := 0 to |states|
      invariant found == Finished(q, states, i)
    {
      var home := FinishState(q, byEdge, states[i]);
      if home.Some? {
        found := found + [Solution(home.value, states[i].used)];
      }
    }
  }

  lemma {:induction false} NoStatesStayNone(q: Request, useMinimum: bool, pattern: seq<Role>, n: nat)
    requires q.Valid() && n <= |pattern|
    requires Layers(q, useMinimum, pattern, n) == []
    ensures Layers(q, useMinimum, pattern, |pattern|) == []
    decreases |pattern| - n
  {
    if n < |pattern| {
      NoStatesStayNone(q, useMinimum, pattern, n + 1);
    }
  }

  method SearchPattern(q: Request, byEdge: Edges, useMinimum: bool, pattern: seq<Role>) returns (found: seq<Solution>)
    requires q.Valid() && Groups(byEdge, q.legs)
    ensures found == PatternSolutions(q, useMinimum, pattern)
  {
    var states := SearchLayers(q, byEdge, useMinimum, pattern);
    found := FinishStates(q, byEdge, states);
  }

  method SearchPhase(q: Request, byEdge: Edges, useMinimum: bool) returns (found: seq<Solution>)
    requires q.Valid() && Groups(byEdge, q.legs)
    ensures found == PhaseSolutions(q, useMinimum, RolePatterns(q))
  {
    found := [];
    var patterns := RolePatterns(q);
    ghost var parts := SolutionsByPattern(q, useMinimum, patterns);
    for i := 0 to |patterns|
      invariant found == Joined(parts, i)
    {
      var more := SearchPattern(q, byEdge, useMinimum, patterns[i]);
      assert parts[i] == more;
      found := found + more;
    }
  }

  method RecordSolutions(found: seq<Solution>) returns (unique: seq<Solution>)
    ensures unique == Unique(found, |found|)
  {
    unique := [];
    for k := 0 to |found|
      invariant unique == Unique(found, k)
    {
      var i := IndexOfOrder(unique, found[k].order);
      if i == |unique| {
        unique := unique + [found[k]];
      } else if found[k].returnAt < unique[i].returnAt {
        unique := unique[i := found[k]];
      }
    }
  }
}
