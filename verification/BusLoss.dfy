/** A request whose only itinerary the search does not find: the bus-wait limit binds, so the
    earlier of two states with one key is kept although only the later one gets home. */
module BusLoss {
  import opened Common
  import opened Ordering
  import opened BusBoarding
  import opened BusSearch
  import opened BusItinerary
  import opened BusDominance

  function Ride(origin: PlaceId, destination: PlaceId, departsAt: int, arrivesAt: int): Leg {
    Leg(origin, destination, departsAt, arrivesAt, 0.0, 0.0, 0)
  }

  function Rides(): seq<Leg> {
    [ Ride(0, 1, 0, 60), Ride(1, 2, 660, 720), Ride(2, 3, 1320, 1380),
      Ride(0, 2, 240, 300), Ride(2, 1, 900, 960), Ride(1, 3, 1800, 9340), Ride(3, 0, 10_000, 10_060) ]
  }

  function TenMinuteVisit(): Place {
    Place(Visit, None, None, None, None, 10, 10, true)
  }

  /** Three visits from place 0 back to place 0, with a wait limit of five minutes. */
  function Day(): Request {
    Request(Policy(1.0, 0, 0, 10, 5), Rides(), true,
            map[1 := TenMinuteVisit(), 2 := TenMinuteVisit(), 3 := TenMinuteVisit()], [1, 2, 3], 0, 0, 0, 20_000,
            0, 0, 0, {}, 3, false, false, false, 0)
  }

  ghost predicate SoleLeg(legs: seq<Leg>, leg: Leg) {
    leg in legs && forall other :: other in legs && OnEdge(other, leg.origin, leg.destination) ==> other == leg
  }

  lemma {:induction false} FreeWalk(policy: Policy, leg: Leg, at: int)
    requires policy.routeUncertainty == policy.boardingBuffer == 0 && policy.maxAccessWalk == 10 && policy.busWaitLimit == 5
    requires leg.accessDistance == leg.egressDistance == 0.0
    ensures Boardable(policy, leg, at) <==> at <= leg.departsAt <= at + 300
    ensures DoorArrival(policy, leg) == leg.arrivesAt
  {
    assert 0.0 / policy.metersPerMinute == 0.0;
    assert AccessMinutes(policy, leg) == EgressMinutes(policy, leg) == 0;
    BoardableIsAWindow(policy, leg, at);
  }

  /** `Arrives` hides the legs once the arrival is known. */
  ghost predicate Arrives(q: Request, origin: PlaceId, destination: PlaceId, at: int, r: Option<int>) {
    NextArrival(q.policy, q.legs, origin, destination, at) == r
  }

  lemma {:induction false} SoleArrival(q: Request, leg: Leg, at: int)
    requires q.policy == Policy(1.0, 0, 0, 10, 5) && SoleLeg(q.legs, leg)
    requires leg.accessDistance == leg.egressDistance == 0.0
    ensures Arrives(q, leg.origin, leg.destination, at, if at <= leg.departsAt <= at + 300 then Some(leg.arrivesAt) else None)
  {
    FreeWalk(q.policy, leg, at);
    assert Usable(q.policy, leg, leg.origin, leg.destination, at) <==> at <= leg.departsAt <= at + 300;
  }

  lemma {:induction false} NoArrival(q: Request, origin: PlaceId, destination: PlaceId, at: int)
    requires forall leg :: leg in q.legs ==> !OnEdge(leg, origin, destination)
    ensures Arrives(q, origin, destination, at, None)
  {
  }

  lemma {:induction false} SoleRide(legs: seq<Leg>, i: nat)
    requires legs == Rides() && i < 7
    ensures SoleLeg(legs, Rides()[i])
  {
  }

  /** What the proofs use of the request. */
  ghost predicate DayLike(q: Request) {
    && q.policy == Policy(1.0, 0, 0, 10, 5)
    && q.legs == Rides()
    && q.transferSlack == 0
    && q.places.Keys == {1, 2, 3}
    && (forall id :: id in q.places ==> q.places[id] == TenMinuteVisit())
    && q.ids == [1, 2, 3]
    && q.start == q.end == q.windowStart == 0
    && q.windowEnd == 20_000
    && q.required == {} && !q.hardRestLimit
    && q.visitTarget == 3 && !q.wantsMeal && !q.wantsRest && q.boundariesKnown
  }

  lemma {:induction false} RideArrival(q: Request, i: nat, leg: Leg, at: int)
    requires DayLike(q) && i < 7 && leg == Rides()[i]
    ensures Arrives(q, leg.origin, leg.destination, at, if at <= leg.departsAt <= at + 300 then Some(leg.arrivesAt) else None)
  {
    SoleRide(q.legs, i);
    SoleArrival(q, leg, at);
  }

  /** A ten-minute visit without limits, reached at `arrival`. */
  lemma {:induction false} TenMinutes(q: Request, useMinimum: bool, s: State, id: PlaceId, arrival: int)
    requires id in q.places && q.places[id] == TenMinuteVisit() && q.transferSlack == 0
    requires s.at <= arrival
    ensures Stayed(q, useMinimum, s, id, arrival)
            == Some(State(id, arrival + 600, s.used + [id], s.continuous + CeilMinutes(arrival - s.at) + 10))
  {
  }

  lemma {:induction false} ArriveAndVisit(q: Request, useMinimum: bool, s: State, id: PlaceId, arrival: int, next: State)
    requires id in q.places && q.places[id] == TenMinuteVisit() && q.transferSlack == 0
    requires Arrives(q, s.current, id, s.at, Some(arrival)) && s.at <= arrival && id !in s.used
    requires next == State(id, arrival + 600, s.used + [id], s.continuous + CeilMinutes(arrival - s.at) + 10)
    ensures Visited(q, useMinimum, s, id) == Some(next)
  {
    TenMinutes(q, useMinimum, s, id, arrival);
  }

  /** Ride `i` from the state's place, and the visit at its other end. */
  lemma {:induction false} RideAndVisit(q: Request, useMinimum: bool, s: State, i: nat, leg: Leg, next: State)
    requires DayLike(q) && i < 7 && leg == Rides()[i]
    requires leg.origin == s.current && leg.destination in q.places && leg.destination !in s.used
    requires s.at <= leg.departsAt <= s.at + 300 && s.at <= leg.arrivesAt
    requires next == State(leg.destination, leg.arrivesAt + 600, s.used + [leg.destination],
                           s.continuous + CeilMinutes(leg.arrivesAt - s.at) + 10)
    ensures Visited(q, useMinimum, s, leg.destination) == Some(next)
  {
    RideArrival(q, i, leg, s.at);
    ArriveAndVisit(q, useMinimum, s, leg.destination, leg.arrivesAt, next);
  }

  lemma {:induction false} MissesRide(q: Request, useMinimum: bool, s: State, i: nat, leg: Leg)
    requires DayLike(q) && i < 7 && leg == Rides()[i]
    requires leg.origin == s.current && leg.destination in q.places
    requires !(s.at <= leg.departsAt <= s.at + 300)
    ensures Visited(q, useMinimum, s, leg.destination) == None
  {
    RideArrival(q, i, leg, s.at);
  }

  // The partial itineraries, named by the places they hold.
  function At1(): State { State(1, 660, [1], 11) }
  function At2(): State { State(2, 900, [2], 15) }
  function At12(): State { State(2, 1320, [1, 2], 22) }
  function At21(): State { State(1, 1560, [2, 1], 26) }
  function At123(): State { State(3, 1980, [1, 2, 3], 33) }
  function At213(): State { State(3, 9940, [2, 1, 3], 166) }

  lemma {:induction false} FirstVisits(q: Request, useMinimum: bool, s: State)
    requires DayLike(q) && s == Initial(q)
    ensures Visited(q, useMinimum, s, 1) == Some(At1())
    ensures Visited(q, useMinimum, s, 2) == Some(At2())
    ensures Visited(q, useMinimum, s, 3) == None
  {
    RideAndVisit(q, useMinimum, s, 0, Ride(0, 1, 0, 60), At1());
    RideAndVisit(q, useMinimum, s, 3, Ride(0, 2, 240, 300), At2());
    NoArrival(q, 0, 3, 0);
  }

  lemma {:induction false} VisitsFrom1(q: Request, useMinimum: bool, a: State)
    requires DayLike(q) && a == At1()
    ensures Visited(q, useMinimum, a, 2) == Some(At12()) && Visited(q, useMinimum, a, 3) == None
  {
    RideAndVisit(q, useMinimum, a, 1, Ride(1, 2, 660, 720), At12());
    MissesRide(q, useMinimum, a, 5, Ride(1, 3, 1800, 9340));
  }

  lemma {:induction false} VisitsFrom2(q: Request, useMinimum: bool, b: State)
    requires DayLike(q) && b == At2()
    ensures Visited(q, useMinimum, b, 1) == Some(At21()) && Visited(q, useMinimum, b, 3) == None
  {
    RideAndVisit(q, useMinimum, b, 4, Ride(2, 1, 900, 960), At21());
    MissesRide(q, useMinimum, b, 2, Ride(2, 3, 1320, 1380));
  }

  lemma {:induction false} SecondVisits(q: Request, useMinimum: bool, a: State, b: State)
    requires DayLike(q) && a == At1() && b == At2()
    ensures Visited(q, useMinimum, a, 2) == Some(At12()) && Visited(q, useMinimum, a, 3) == None
    ensures Visited(q, useMinimum, b, 1) == Some(At21()) && Visited(q, useMinimum, b, 3) == None
  {
    VisitsFrom1(q, useMinimum, a);
    VisitsFrom2(q, useMinimum, b);
  }

  lemma {:induction false} ThirdVisits(q: Request, useMinimum: bool, a: State, b: State)
    requires DayLike(q) && a == At12() && b == At21()
    ensures Visited(q, useMinimum, a, 3) == Some(At123()) && Visited(q, useMinimum, b, 3) == Some(At213())
  {
    RideAndVisit(q, useMinimum, a, 2, Ride(2, 3, 1320, 1380), At123());
    RideAndVisit(q, useMinimum, b, 5, Ride(1, 3, 1800, 9340), At213());
  }

  lemma {:induction false} DayChoices(q: Request)
    requires DayLike(q) && q.Valid()
    ensures Choices(q, Visit, 3) == [1, 2, 3]
  {
    assert Choices(q, Visit, 0) == [];
    assert Choices(q, Visit, 1) == [1];
    assert Choices(q, Visit, 2) == [1, 2];
  }

  /** Offering the three places to a state, one at a time. */
  lemma {:induction false} OfferThree(q: Request, useMinimum: bool, s: State, kept: seq<State>, choices: seq<PlaceId>)
    requires DayLike(q) && choices == [1, 2, 3]
    ensures OfferChoices(q, useMinimum, s, choices, 3, kept)
            == Offer(q, useMinimum, s, 3, Offer(q, useMinimum, s, 2, Offer(q, useMinimum, s, 1, kept)))
  {
    assert OfferChoices(q, useMinimum, s, choices, 0, kept) == kept;
    assert OfferChoices(q, useMinimum, s, choices, 1, kept) == Offer(q, useMinimum, s, 1, kept);
    assert OfferChoices(q, useMinimum, s, choices, 2, kept) == Offer(q, useMinimum, s, 2, Offer(q, useMinimum, s, 1, kept));
  }

  lemma {:induction false} SortTwo(a: State, b: State)
    requires a.at < b.at
    ensures Sort(StateLess, [a, b]) == [a, b]
    ensures Sort(StateLess, [a]) == [a]
  {
    assert [a, b][..1] == [a] && [a][..0] == [];
  }

  lemma {:induction false} UpsertCases(kept: seq<State>, s: State, a: State)
    ensures Upsert([], s) == [s]
    ensures !SameKey(a, s) ==> Upsert([a], s) == [a, s]
    ensures SameKey(a, s) && !StateLess(s, a) ==> Upsert([a], s) == [a]
  {
    assert [a][1..] == [];
  }

  lemma {:induction false} FirstOffers(q: Request, useMinimum: bool, s: State, choices: seq<PlaceId>)
    requires DayLike(q) && s == Initial(q) && choices == [1, 2, 3]
    ensures OfferChoices(q, useMinimum, s, choices, 3, []) == [At1(), At2()]
  {
    FirstVisits(q, useMinimum, s);
    OfferThree(q, useMinimum, s, [], choices);
    UpsertCases([], At1(), At1());
    UpsertCases([], At2(), At1());
  }

  lemma {:induction false} OneStateLayer(q: Request, useMinimum: bool, s: State, choices: seq<PlaceId>)
    requires DayLike(q) && choices == [1, 2, 3]
    ensures OfferStates(q, useMinimum, [s], 1, choices) == OfferChoices(q, useMinimum, s, choices, 3, [])
  {
    assert OfferStates(q, useMinimum, [s], 0, choices) == [];
  }

  lemma {:induction false} FirstLayer(q: Request, useMinimum: bool)
    requires DayLike(q) && q.Valid()
    ensures Layer(q, useMinimum, Visit, [Initial(q)]) == [At1(), At2()]
  {
    var choices := Choices(q, Visit, 3);
    DayChoices(q);
    FirstOffers(q, useMinimum, Initial(q), choices);
    OneStateLayer(q, useMinimum, Initial(q), choices);
    SortTwo(At1(), At2());
  }

  /** A layer of two states, each of which offers one place that the next state does not hold. */
  lemma {:induction false} TwoStateLayer(q: Request, useMinimum: bool, states: seq<State>, choices: seq<PlaceId>, first: seq<State>, second: seq<State>)
    requires DayLike(q) && q.Valid() && |states| == 2 && choices == [1, 2, 3]
    requires OfferChoices(q, useMinimum, states[0], choices, 3, []) == first
    requires OfferChoices(q, useMinimum, states[1], choices, 3, first) == second
    ensures OfferStates(q, useMinimum, states, 2, choices) == second
  {
    assert OfferStates(q, useMinimum, states, 0, choices) == [];
    assert OfferStates(q, useMinimum, states, 1, choices) == first;
  }

  lemma {:induction false} SecondOffers(q: Request, useMinimum: bool, choices: seq<PlaceId>)
    requires DayLike(q) && choices == [1, 2, 3]
    ensures OfferChoices(q, useMinimum, At1(), choices, 3, []) == [At12()]
    ensures OfferChoices(q, useMinimum, At2(), choices, 3, [At12()]) == [At12(), At21()]
  {
    SecondVisits(q, useMinimum, At1(), At2());
    OfferThree(q, useMinimum, At1(), [], choices);
    OfferThree(q, useMinimum, At2(), [At12()], choices);
    UpsertCases([], At12(), At1());
    UpsertCases([], At21(), At12());
  }

  lemma {:induction false} SecondLayer(q: Request, useMinimum: bool)
    requires DayLike(q) && q.Valid()
    ensures Layer(q, useMinimum, Visit, [At1(), At2()]) == [At12(), At21()]
  {
    var choices := Choices(q, Visit, 3);
    DayChoices(q);
    SecondOffers(q, useMinimum, choices);
    TwoStateLayer(q, useMinimum, [At1(), At2()], choices, [At12()], [At12(), At21()]);
    SortTwo(At12(), At21());
  }

  lemma {:induction false} ClashOfKeys(a: State, b: State)
    requires a == At123() && b == At213()
    ensures Upsert([], a) == [a] && Upsert([a], b) == [a]
  {
    UpsertCases([], a, a);
    assert Elements(a.used) == {1, 2, 3} == Elements(b.used);
    UpsertCases([], b, a);
  }

  lemma {:induction false} ThirdOffers(q: Request, useMinimum: bool, choices: seq<PlaceId>)
    requires DayLike(q) && choices == [1, 2, 3]
    ensures OfferChoices(q, useMinimum, At12(), choices, 3, []) == [At123()]
    ensures OfferChoices(q, useMinimum, At21(), choices, 3, [At123()]) == [At123()]
  {
    ThirdVisits(q, useMinimum, At12(), At21());
    OfferThree(q, useMinimum, At12(), [], choices);
    OfferThree(q, useMinimum, At21(), [At123()], choices);
    ClashOfKeys(At123(), At213());
  }

  lemma {:induction false} ThirdLayer(q: Request, useMinimum: bool)
    requires DayLike(q) && q.Valid()
    ensures Layer(q, useMinimum, Visit, [At12(), At21()]) == [At123()]
  {
    var choices := Choices(q, Visit, 3);
    DayChoices(q);
    ThirdOffers(q, useMinimum, choices);
    TwoStateLayer(q, useMinimum, [At12(), At21()], choices, [At123()], [At123()]);
    SortTwo(At123(), At213());
  }

  lemma {:induction false} DayLayers(q: Request, useMinimum: bool, pattern: seq<Role>)
    requires DayLike(q) && q.Valid() && pattern == [Visit, Visit, Visit]
    ensures Layers(q, useMinimum, pattern, 0) == [Initial(q)]
    ensures Layers(q, useMinimum, pattern, 1) == [At1(), At2()]
    ensures Layers(q, useMinimum, pattern, 2) == [At12(), At21()]
    ensures Layers(q, useMinimum, pattern, 3) == [At123()]
  {
    FirstLayer(q, useMinimum);
    SecondLayer(q, useMinimum);
    ThirdLayer(q, useMinimum);
  }

  lemma {:induction false} NothingFound(q: Request, useMinimum: bool, pattern: seq<Role>)
    requires DayLike(q) && q.Valid() && pattern == [Visit, Visit, Visit]
    ensures PatternSolutions(q, useMinimum, pattern) == []
  {
    DayLayers(q, useMinimum, pattern);
    RideArrival(q, 6, Ride(3, 0, 10_000, 10_060), 1980);
    assert ReturnAt(q, At123()) == None;
    assert Finished(q, [At123()], 0) == [];
  }

  lemma {:induction false} ShortLayerWasNotCut(q: Request, useMinimum: bool, pattern: seq<Role>, n: nat)
    requires q.Valid() && n < |pattern| && |Layers(q, useMinimum, pattern, n + 1)| < STATE_LIMIT
    ensures CutIdle(q, useMinimum, pattern, n)
  {
  }

  lemma {:induction false} DayIsNotCut(q: Request, useMinimum: bool, pattern: seq<Role>)
    requires DayLike(q) && q.Valid() && pattern == [Visit, Visit, Visit]
    ensures CutNeverFires(q, useMinimum, pattern)
  {
    DayLayers(q, useMinimum, pattern);
    forall n | 0 <= n < |pattern|
      ensures CutIdle(q, useMinimum, pattern, n)
    {
      assert n == 0 || n == 1 || n == 2;
      ShortLayerWasNotCut(q, useMinimum, pattern, n);
    }
  }

  lemma {:induction false} OneMoreVisit(v: nat, pattern: seq<Role>)
    requires Patterns(0, 0, v) == [pattern]
    ensures Patterns(0, 0, v + 1) == [[Visit] + pattern]
  {
    assert Prefixed(Visit, [pattern]) == [[Visit] + pattern];
  }

  lemma {:induction false} ThreeVisitPatterns(v: nat)
    requires v == 3
    ensures Patterns(0, 0, v) == [[Visit, Visit, Visit]]
  {
    assert [Visit] + [] == [Visit] && [Visit] + [Visit] == [Visit, Visit] && [Visit] + [Visit, Visit] == [Visit, Visit, Visit];
    OneMoreVisit(0, []);
    OneMoreVisit(1, [Visit]);
    OneMoreVisit(2, [Visit, Visit]);
  }

  lemma {:induction false} ReplayStep(q: Request, useMinimum: bool, order: seq<PlaceId>, s: State, id: PlaceId)
    requires Replay(q, useMinimum, order) == Some(s) && id in q.places
    ensures Replay(q, useMinimum, order + [id]) == Visited(q, useMinimum, s, id)
  {
    assert (order + [id])[..|order|] == order;
  }

  lemma {:induction false} DayReplay(q: Request)
    requires DayLike(q)
    ensures Replay(q, false, [2, 1, 3]) == Some(At213())
  {
    FirstVisits(q, false, Initial(q));
    SecondVisits(q, false, At1(), At2());
    ThirdVisits(q, false, At12(), At21());
    ReplayStep(q, false, [], Initial(q), 2);
    ReplayStep(q, false, [2], At2(), 1);
    ReplayStep(q, false, [2, 1], At21(), 3);
    assert [] + [2] == [2] && [2] + [1] == [2, 1] && [2, 1] + [3] == [2, 1, 3];
  }

  lemma {:induction false} DayItinerary(q: Request, pattern: seq<Role>, order: seq<PlaceId>)
    requires DayLike(q) && pattern == [Visit, Visit, Visit] && order == [2, 1, 3]
    ensures Itinerary(q, false, pattern, order, 10_060)
  {
    DayReplay(q);
    RideArrival(q, 6, Ride(3, 0, 10_000, 10_060), 9940);
    assert Replay(q, false, order) == Some(At213());
  }

  lemma {:induction false} OnePattern(q: Request, useMinimum: bool, pattern: seq<Role>)
    requires q.Valid()
    ensures PhaseSolutions(q, useMinimum, [pattern]) == PatternSolutions(q, useMinimum, pattern)
  {
    var parts := SolutionsByPattern(q, useMinimum, [pattern]);
    assert Joined(parts, 0) == [];
    assert Joined(parts, 1) == parts[0];
  }

  lemma {:induction false} NothingSolved(q: Request, pattern: seq<Role>)
    requires DayLike(q) && q.Valid() && RolePatterns(q) == [pattern] && pattern == [Visit, Visit, Visit]
    ensures Solutions(q) == []
  {
    NothingFound(q, false, pattern);
    NothingFound(q, true, pattern);
    OnePattern(q, false, pattern);
    OnePattern(q, true, pattern);
    assert Found(q) == [];
    assert Unique(Found(q), 0) == [];
  }

  lemma {:induction false} DayLoses(q: Request, pattern: seq<Role>, order: seq<PlaceId>)
    requires DayLike(q) && q.Valid() && pattern == [Visit, Visit, Visit] && order == [2, 1, 3]
    ensures NoCut(q) && RolePatterns(q) == [pattern]
    ensures Itinerary(q, false, pattern, order, 10_060)
    ensures Solutions(q) == []
  {
    DayItinerary(q, pattern, order);
    ThreeVisitPatterns(q.visitTarget);
    DayIsNotCut(q, false, pattern);
    DayIsNotCut(q, true, pattern);
    NothingSolved(q, pattern);
  }

  lemma {:induction false} DayIsDayLike(q: Request)
    requires q == Day()
    ensures DayLike(q) && q.Valid()
  {
  }

  /** With no hard rest limit and no state cut, an itinerary exists and nothing is found. */
  lemma {:induction false} BindingWaitLimitLosesItinerary()
    ensures Day().Valid() && !Day().hardRestLimit && NoCut(Day())
    ensures exists pattern, order, home :: pattern in RolePatterns(Day()) && Itinerary(Day(), false, pattern, order, home)
    ensures Solutions(Day()) == []
  {
    var q, pattern := Day(), [Visit, Visit, Visit];
    DayIsDayLike(q);
    DayLoses(q, pattern, [2, 1, 3]);
    assert pattern in RolePatterns(q);
  }
}
