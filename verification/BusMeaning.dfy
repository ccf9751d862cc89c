/** What a day by bus means, written out on the timetable, the places and the clock alone, and that
    the search finds such days and, when nothing is cut and no wait binds, misses none. */
module BusMeaning {
  import opened Common
  import opened Counting
  import opened BusBoarding
  import opened BusSearch
  import opened BusItinerary
  import opened BusDominance
  import opened BusBound

  // ------------------------------------------------------------------ one ride

  /** With these two walks a traveller at the door of the origin at `at` takes this leg and is at the
      door of the destination at `door`: both walks, lengthened by the route's uncertainty, are short
      enough, the bus is reached with the buffer to spare, and the wait at the stop is within the
      limit. */
  predicate RidesBy(policy: Policy, leg: Leg, at: int, door: int, access: int, egress: int) {
    && WalkTakes(access, leg.accessDistance, policy.metersPerMinute) && WalkTakes(egress, leg.egressDistance, policy.metersPerMinute)
    && access + policy.routeUncertainty <= policy.maxAccessWalk && egress + policy.routeUncertainty <= policy.maxAccessWalk
    && at + 60 * (access + policy.routeUncertainty + policy.boardingBuffer) <= leg.departsAt
    && leg.departsAt - (at + 60 * (access + policy.routeUncertainty)) <= 60 * policy.busWaitLimit
    && door == leg.arrivesAt + 60 * (egress + policy.routeUncertainty)
  }

  ghost predicate Rides(policy: Policy, leg: Leg, origin: PlaceId, destination: PlaceId, at: int, door: int) {
    && leg.origin == origin && leg.destination == destination
    && exists access: int, egress: int :: RidesBy(policy, leg, at, door, access, egress)
  }

  lemma {:induction false} RidesByIff(policy: Policy, leg: Leg, at: int, door: int, access: int, egress: int)
    ensures RidesBy(policy, leg, at, door, access, egress) <==>
            && access == CeilReal(leg.accessDistance / policy.metersPerMinute) && egress == CeilReal(leg.egressDistance / policy.metersPerMinute)
            && Boardable(policy, leg, at) && door == DoorArrival(policy, leg)
  {
    CeilIsLeast(access, leg.accessDistance, policy.metersPerMinute);
    CeilIsLeast(egress, leg.egressDistance, policy.metersPerMinute);
    var wait := leg.departsAt - at - 60 * AccessMinutes(policy, leg);
    assert CeilMinutes(wait) <= policy.busWaitLimit <==> wait <= 60 * policy.busWaitLimit;
  }

  lemma {:induction false} RidesIff(policy: Policy, leg: Leg, origin: PlaceId, destination: PlaceId, at: int, door: int)
    ensures Rides(policy, leg, origin, destination, at, door) <==> Usable(policy, leg, origin, destination, at) && door == DoorArrival(policy, leg)
  {
    RidesByIff(policy, leg, at, door, CeilReal(leg.accessDistance / policy.metersPerMinute), CeilReal(leg.egressDistance / policy.metersPerMinute));
    if Rides(policy, leg, origin, destination, at, door) {
      var access: int, egress: int :| RidesBy(policy, leg, at, door, access, egress);
      RidesByIff(policy, leg, at, door, access, egress);
    }
  }

  /** The earliest door that any leg of the timetable reaches. */
  ghost predicate ArrivesFirst(policy: Policy, legs: seq<Leg>, origin: PlaceId, destination: PlaceId, at: int, door: int) {
    && (exists leg :: leg in legs && Rides(policy, leg, origin, destination, at, door))
    && (forall leg, other: int :: leg in legs && Rides(policy, leg, origin, destination, at, other) ==> door <= other)
  }

  lemma {:induction false} NextArrivalIsFirst(policy: Policy, legs: seq<Leg>, origin: PlaceId, destination: PlaceId, at: int)
    requires NextArrival(policy, legs, origin, destination, at).Some?
    ensures ArrivesFirst(policy, legs, origin, destination, at, NextArrival(policy, legs, origin, destination, at).value)
  {
    var door := NextArrival(policy, legs, origin, destination, at).value;
    var leg :| leg in legs && Usable(policy, leg, origin, destination, at) && DoorArrival(policy, leg) == door;
    RidesIff(policy, leg, origin, destination, at, door);
    forall other, later: int | other in legs && Rides(policy, other, origin, destination, at, later) ensures door <= later {
      RidesIff(policy, other, origin, destination, at, later);
    }
  }

  /** `_next_bus_arrival` gives that door, and none when no leg can be taken. */
  lemma {:induction false} NextArrivalMeans(policy: Policy, legs: seq<Leg>, origin: PlaceId, destination: PlaceId, at: int, door: int)
    ensures NextArrival(policy, legs, origin, destination, at) == Some(door) <==> ArrivesFirst(policy, legs, origin, destination, at, door)
  {
    if NextArrival(policy, legs, origin, destination, at).Some? {
      NextArrivalIsFirst(policy, legs, origin, destination, at);
    }
    if ArrivesFirst(policy, legs, origin, destination, at, door) {
      var leg :| leg in legs && Rides(policy, leg, origin, destination, at, door);
      RidesIff(policy, leg, origin, destination, at, door);
      FirstIsOne(policy, legs, origin, destination, at, door, NextArrival(policy, legs, origin, destination, at).value);
    }
  }

  lemma {:induction false} FirstIsOne(policy: Policy, legs: seq<Leg>, origin: PlaceId, destination: PlaceId, at: int, a: int, b: int)
    requires ArrivesFirst(policy, legs, origin, destination, at, a) && ArrivesFirst(policy, legs, origin, destination, at, b)
    ensures a == b
  {
  }

  // ------------------------------------------------------------------ one stop

  /** The activity starts as soon as the slack, the opening and, for a meal, the lunch time allow. */
  predicate StartsFirst(q: Request, place: Place, arrival: int, startAt: int) {
    && arrival + 60 * q.transferSlack <= startAt
    && (place.opensAt.Some? ==> place.opensAt.value <= startAt)
    && (place.role == Meal ==> q.lunchStart <= startAt)
    && (|| startAt == arrival + 60 * q.transferSlack
        || (place.opensAt.Some? && startAt == place.opensAt.value)
        || (place.role == Meal && startAt == q.lunchStart))
  }

  predicate WithinHours(q: Request, place: Place, startAt: int, endAt: int) {
    && (place.lastAdmissionAt.Some? ==> startAt <= place.lastAdmissionAt.value)
    && (place.closesAt.Some? ==> endAt <= place.closesAt.value)
    && (place.role == Meal ==> endAt <= q.lunchEnd && (place.lastOrderAt.Some? ==> startAt <= place.lastOrderAt.value))
  }

  /** The least whole number of minutes, not negative, that holds these seconds. */
  predicate Minutes(minutes: int, seconds: int) {
    minutes >= 0 && seconds <= 60 * minutes && (minutes == 0 || 60 * (minutes - 1) < seconds)
  }

  /** Only visits that are not required are shortened, and only in the second phase. */
  predicate StaysFor(q: Request, useMinimum: bool, id: PlaceId, stay: int)
    requires id in q.places
  {
    if useMinimum && q.places[id].role == Visit && id !in q.required then stay == q.places[id].minimumStay else stay == q.places[id].stay
  }

  /** Riding from `origin` at `at` to the place and staying there until `endAt`. A meal or a rest ends
      the stretch without a rest; a visit lengthens it by the ride and the stay. */
  ghost predicate StopsBy(q: Request, useMinimum: bool, id: PlaceId, origin: PlaceId, at: int, since: int, endAt: int, sinceAfter: int,
                          arrival: int, startAt: int, stay: int, ride: int)
    requires id in q.places
  {
    && ArrivesFirst(q.policy, q.legs, origin, id, at, arrival)
    && StartsFirst(q, q.places[id], arrival, startAt)
    && StaysFor(q, useMinimum, id, stay) && endAt == startAt + 60 * stay
    && WithinHours(q, q.places[id], startAt, endAt)
    && Minutes(ride, arrival - at) && sinceAfter == if q.places[id].role == Visit then since + ride + stay else 0
  }

  ghost predicate Stops(q: Request, useMinimum: bool, id: PlaceId, origin: PlaceId, at: int, since: int, endAt: int, sinceAfter: int)
    requires id in q.places
  {
    exists arrival: int, startAt: int, stay: int, ride: int :: StopsBy(q, useMinimum, id, origin, at, since, endAt, sinceAfter, arrival, startAt, stay, ride)
  }

  lemma {:induction false} StartIsFirst(q: Request, place: Place, arrival: int, startAt: int)
    ensures StartsFirst(q, place, arrival, startAt) <==> startAt == ActivityStart(q, place, arrival)
  {
  }

  lemma {:induction false} MinutesAreCeil(minutes: int, seconds: int)
    ensures Minutes(minutes, seconds) <==> minutes == if CeilMinutes(seconds) < 0 then 0 else CeilMinutes(seconds)
  {
  }

  lemma {:induction false} StayedMeans(q: Request, useMinimum: bool, s: State, id: PlaceId, arrival: int, startAt: int, stay: int, ride: int, next: State)
    requires id in q.places && StartsFirst(q, q.places[id], arrival, startAt) && StaysFor(q, useMinimum, id, stay) && Minutes(ride, arrival - s.at)
    ensures Stayed(q, useMinimum, s, id, arrival) == Some(next) <==>
            && WithinHours(q, q.places[id], startAt, startAt + 60 * stay) && next.at == startAt + 60 * stay
            && next.continuous == (if q.places[id].role == Visit then s.continuous + ride + stay else 0)
            && next.current == id && next.used == s.used + [id]
  {
    StartIsFirst(q, q.places[id], arrival, startAt);
    MinutesAreCeil(ride, arrival - s.at);
  }

  lemma {:induction false} VisitStops(q: Request, useMinimum: bool, s: State, id: PlaceId)
    requires id in q.places && Visited(q, useMinimum, s, id).Some?
    ensures var next := Visited(q, useMinimum, s, id).value;
            && id !in s.used && next.current == id && next.used == s.used + [id]
            && Stops(q, useMinimum, id, s.current, s.at, s.continuous, next.at, next.continuous)
  {
    var next := Visited(q, useMinimum, s, id).value;
    var arrival := NextArrival(q.policy, q.legs, s.current, id, s.at).value;
    var startAt, stay := ActivityStart(q, q.places[id], arrival), StayMinutes(q, useMinimum, id);
    var ride := if CeilMinutes(arrival - s.at) < 0 then 0 else CeilMinutes(arrival - s.at);
    NextArrivalIsFirst(q.policy, q.legs, s.current, id, s.at);
    StartIsFirst(q, q.places[id], arrival, startAt);
    MinutesAreCeil(ride, arrival - s.at);
    StayedMeans(q, useMinimum, s, id, arrival, startAt, stay, ride, next);
    assert StopsBy(q, useMinimum, id, s.current, s.at, s.continuous, next.at, next.continuous, arrival, startAt, stay, ride);
  }

  lemma {:induction false} StopIsVisit(q: Request, useMinimum: bool, s: State, id: PlaceId, next: State, arrival: int, startAt: int, stay: int, ride: int)
    requires id in q.places && id !in s.used && next.current == id && next.used == s.used + [id]
    requires StopsBy(q, useMinimum, id, s.current, s.at, s.continuous, next.at, next.continuous, arrival, startAt, stay, ride)
    ensures Visited(q, useMinimum, s, id) == Some(next)
  {
    NextArrivalMeans(q.policy, q.legs, s.current, id, s.at, arrival);
    StayedMeans(q, useMinimum, s, id, arrival, startAt, stay, ride, next);
  }

  /** One step of a replay is one stop at a place not used before. */
  lemma {:induction false} VisitedMeans(q: Request, useMinimum: bool, s: State, id: PlaceId, next: State)
    requires id in q.places
    ensures Visited(q, useMinimum, s, id) == Some(next) <==>
            && id !in s.used && next.current == id && next.used == s.used + [id]
            && Stops(q, useMinimum, id, s.current, s.at, s.continuous, next.at, next.continuous)
  {
    if Visited(q, useMinimum, s, id).Some? {
      VisitStops(q, useMinimum, s, id);
    }
    if id !in s.used && next.current == id && next.used == s.used + [id] && Stops(q, useMinimum, id, s.current, s.at, s.continuous, next.at, next.continuous) {
      var arrival: int, startAt: int, stay: int, ride: int :|
        StopsBy(q, useMinimum, id, s.current, s.at, s.continuous, next.at, next.continuous, arrival, startAt, stay, ride);
      StopIsVisit(q, useMinimum, s, id, next, arrival, startAt, stay, ride);
    }
  }

  // ------------------------------------------------------------------ a whole day

  function LastPlace(q: Request, order: seq<PlaceId>): PlaceId {
    if order == [] then q.start else order[|order| - 1]
  }

  ghost predicate StopAt(q: Request, useMinimum: bool, order: seq<PlaceId>, ends: seq<int>, since: seq<int>, i: nat)
    requires i < |order| && |ends| == |since| == |order| + 1
  {
    order[i] in q.places && Stops(q, useMinimum, order[i], LastPlace(q, order[..i]), ends[i], since[i], ends[i + 1], since[i + 1])
  }

  /** The places of `order`, one after the other: when each stop ends, and how long it is since a
      rest by then. */
  ghost predicate Travels(q: Request, useMinimum: bool, order: seq<PlaceId>, ends: seq<int>, since: seq<int>) {
    && |ends| == |since| == |order| + 1 && ends[0] == q.windowStart && since[0] == 0
    && (forall i, j :: 0 <= i < j < |order| ==> order[i] != order[j])
    && (forall i :: 0 <= i < |order| ==> StopAt(q, useMinimum, order, ends, since, i))
  }

  /** How many different places of the role the order holds. */
  ghost predicate Holds(q: Request, order: seq<PlaceId>, role: Role, count: nat) {
    |set id | id in order && id in q.places && q.places[id].role == role| == count
  }

  /** A day with the wanted meal, rest and visits and every required place, that keeps the rest limit,
      if it is hard, and is home inside the window, as early as the timetable allows. */
  ghost predicate DayBy(q: Request, useMinimum: bool, order: seq<PlaceId>, home: int, ends: seq<int>, since: seq<int>) {
    && Travels(q, useMinimum, order, ends, since)
    && Holds(q, order, Meal, if q.wantsMeal then 1 else 0) && Holds(q, order, Rest, if q.wantsRest then 1 else 0) && Holds(q, order, Visit, q.visitTarget)
    && (forall id :: id in q.required ==> id in order)
    && (q.hardRestLimit ==> since[|order|] <= q.maxContinuous)
    && ArrivesFirst(q.policy, q.legs, LastPlace(q, order), q.end, ends[|order|], home) && home <= q.windowEnd
  }

  ghost predicate Day(q: Request, useMinimum: bool, order: seq<PlaceId>, home: int) {
    exists ends, since :: DayBy(q, useMinimum, order, home, ends, since)
  }

  // ------------------------------------------------------------------ a replay is such a journey

  lemma {:induction false} TravelOneMore(q: Request, useMinimum: bool, front: seq<PlaceId>, id: PlaceId, ends: seq<int>, since: seq<int>, at: int, continuous: int)
    requires Travels(q, useMinimum, front, ends, since) && id !in front && id in q.places
    requires Stops(q, useMinimum, id, LastPlace(q, front), ends[|front|], since[|front|], at, continuous)
    ensures Travels(q, useMinimum, front + [id], ends + [at], since + [continuous])
  {
    var order, e, c := front + [id], ends + [at], since + [continuous];
    forall i | 0 <= i < |order| ensures StopAt(q, useMinimum, order, e, c, i) {
      if i < |front| {
        assert StopAt(q, useMinimum, front, ends, since, i);
        assert order[..i] == front[..i];
      } else {
        assert order[..i] == front;
      }
    }
  }

  lemma {:induction false} TravelOneLess(q: Request, useMinimum: bool, front: seq<PlaceId>, id: PlaceId, ends: seq<int>, since: seq<int>)
    requires Travels(q, useMinimum, front + [id], ends, since)
    ensures Travels(q, useMinimum, front, ends[..|front| + 1], since[..|front| + 1])
    ensures id !in front && id in q.places
    ensures Stops(q, useMinimum, id, LastPlace(q, front), ends[|front|], since[|front|], ends[|front| + 1], since[|front| + 1])
  {
    var order, e, c := front + [id], ends[..|front| + 1], since[..|front| + 1];
    forall i | 0 <= i < |front| ensures StopAt(q, useMinimum, front, e, c, i) {
      assert StopAt(q, useMinimum, order, ends, since, i);
      assert order[..i] == front[..i] && order[i] == front[i];
    }
    assert StopAt(q, useMinimum, order, ends, since, |front|) && order[..|front|] == front;
    forall i | 0 <= i < |front| ensures front[i] != id {
      assert order[i] != order[|front|];
    }
    forall i, j | 0 <= i < j < |front| ensures front[i] != front[j] {
      assert order[i] != order[j];
    }
  }

  lemma {:induction false} ReplayTravels(q: Request, useMinimum: bool, order: seq<PlaceId>) returns (ends: seq<int>, since: seq<int>)
    requires Replay(q, useMinimum, order).Some?
    ensures Travels(q, useMinimum, order, ends, since)
    ensures Replay(q, useMinimum, order).value == State(LastPlace(q, order), ends[|order|], order, since[|order|])
  {
    if order == [] {
      ends, since := [q.windowStart], [0];
    } else {
      var front, id := order[..|order| - 1], order[|order| - 1];
      assert order == front + [id];
      LastVisit(q, useMinimum, front, id);
      var e, c := ReplayTravels(q, useMinimum, front);
      var s, next := Replay(q, useMinimum, front).value, Replay(q, useMinimum, order).value;
      VisitStops(q, useMinimum, s, id);
      TravelOneMore(q, useMinimum, front, id, e, c, next.at, next.continuous);
      ends, since := e + [next.at], c + [next.continuous];
    }
  }

  lemma {:induction false} TravelReplays(q: Request, useMinimum: bool, order: seq<PlaceId>, ends: seq<int>, since: seq<int>)
    requires Travels(q, useMinimum, order, ends, since)
    ensures Replay(q, useMinimum, order) == Some(State(LastPlace(q, order), ends[|order|], order, since[|order|]))
  {
    if order != [] {
      var front, id := order[..|order| - 1], order[|order| - 1];
      assert order == front + [id];
      TravelOneLess(q, useMinimum, front, id, ends, since);
      TravelReplays(q, useMinimum, front, ends[..|order|], since[..|order|]);
      var s := State(LastPlace(q, front), ends[|front|], front, since[|front|]);
      VisitedMeans(q, useMinimum, s, id, State(id, ends[|order|], order, since[|order|]));
    }
  }

  // ------------------------------------------------------------------ roles

  lemma {:induction false} HeldPlaces(q: Request, order: seq<PlaceId>, role: Role)
    ensures (set id | id in order && id in q.places && q.places[id].role == role) == Elements(order) * PlacesOf(q, role)
  {
  }

  lemma {:induction false} RolesAreHeld(q: Request, order: seq<PlaceId>, pattern: seq<Role>, role: Role)
    requires HasRoles(q, order, pattern) && NoDuplicates(order)
    ensures Holds(q, order, role, RoleCount(pattern, role))
  {
    HeldPlaces(q, order, role);
    PlacesPerRole(q, order, pattern, role);
  }

  ghost function RolesOf(q: Request, order: seq<PlaceId>): (r: seq<Role>)
    requires forall i :: 0 <= i < |order| ==> order[i] in q.places
    ensures HasRoles(q, order, r)
  {
    seq(|order|, i requires 0 <= i < |order| => q.places[order[i]].role)
  }

  lemma {:induction false} WantedPatterns(q: Request, pattern: seq<Role>)
    ensures pattern in RolePatterns(q) <==>
            Counts(pattern, if q.wantsMeal then 1 else 0, if q.wantsRest then 1 else 0, q.visitTarget)
  {
    PatternsAreArrangements(if q.wantsMeal then 1 else 0, if q.wantsRest then 1 else 0, q.visitTarget, pattern);
  }

  lemma {:induction false} ItineraryIsDay(q: Request, useMinimum: bool, pattern: seq<Role>, order: seq<PlaceId>, home: int)
    requires pattern in RolePatterns(q) && Itinerary(q, useMinimum, pattern, order, home)
    ensures Day(q, useMinimum, order, home)
  {
    var ends, since := ReplayTravels(q, useMinimum, order);
    ReplayShape(q, useMinimum, order);
    WantedPatterns(q, pattern);
    RolesAreHeld(q, order, pattern, Meal);
    RolesAreHeld(q, order, pattern, Rest);
    RolesAreHeld(q, order, pattern, Visit);
    NextArrivalMeans(q.policy, q.legs, LastPlace(q, order), q.end, ends[|order|], home);
    assert DayBy(q, useMinimum, order, home, ends, since);
  }

  lemma {:induction false} DayIsItinerary(q: Request, useMinimum: bool, order: seq<PlaceId>, home: int) returns (pattern: seq<Role>)
    requires Day(q, useMinimum, order, home)
    ensures pattern in RolePatterns(q) && Itinerary(q, useMinimum, pattern, order, home)
  {
    var ends, since :| DayBy(q, useMinimum, order, home, ends, since);
    TravelReplays(q, useMinimum, order, ends, since);
    forall i | 0 <= i < |order| ensures order[i] in q.places {
      assert StopAt(q, useMinimum, order, ends, since, i);
    }
    pattern := RolesOf(q, order);
    RolesAreHeld(q, order, pattern, Meal);
    RolesAreHeld(q, order, pattern, Rest);
    RolesAreHeld(q, order, pattern, Visit);
    WantedPatterns(q, pattern);
    NextArrivalMeans(q.policy, q.legs, LastPlace(q, order), q.end, ends[|order|], home);
  }

  // ------------------------------------------------------------------ main results

  /** Everything the search finds, and so everything it returns, is a day of the phase it used. */
  lemma {:induction false} FoundAreDays(q: Request, sol: Solution)
    requires q.Valid() && sol in Found(q)
    ensures Day(q, UsedMinimum(q), sol.order, sol.returnAt)
  {
    FoundAreItineraries(q, sol);
    var pattern :| pattern in RolePatterns(q) && Itinerary(q, UsedMinimum(q), pattern, sol.order, sol.returnAt);
    ItineraryIsDay(q, UsedMinimum(q), pattern, sol.order, sol.returnAt);
  }

  /** The found order visits the same places, with the same role at each position and the same last
      place, and is home no later. */
  ghost predicate AsGood(q: Request, sol: Solution, order: seq<PlaceId>, home: int) {
    && |sol.order| == |order| && (forall id :: id in sol.order <==> id in order)
    && (forall i :: 0 <= i < |order| ==> sol.order[i] in q.places && order[i] in q.places && q.places[sol.order[i]].role == q.places[order[i]].role)
    && LastPlace(q, sol.order) == LastPlace(q, order) && sol.returnAt <= home
  }

  lemma {:induction false} MatchIsAsGood(q: Request, sol: Solution, pattern: seq<Role>, order: seq<PlaceId>, home: int)
    requires Matches(q, sol, pattern, order, home) && HasRoles(q, order, pattern)
    ensures AsGood(q, sol, order, home)
  {
    forall id ensures id in sol.order <==> id in order {
      assert id in Elements(sol.order) <==> id in Elements(order);
    }
  }

  /** When every leg is handed over, the places are few enough and the hard rest limit is off, every
      day of the phase used has one that is as good among what was found; the minimum stays are used
      exactly when there is no day with full stays. */
  lemma {:induction false} NoDayIsLost(q: Request, order: seq<PlaceId>, home: int)
    requires q.Valid() && WaitLimitHarmless(q) && FitsTheCut(q) && !q.hardRestLimit
    ensures Day(q, UsedMinimum(q), order, home) ==> exists sol :: sol in Found(q) && AsGood(q, sol, order, home)
    ensures UsedMinimum(q) <==> !exists o, h :: Day(q, false, o, h)
  {
    if Day(q, UsedMinimum(q), order, home) {
      var pattern := DayIsItinerary(q, UsedMinimum(q), order, home);
      SearchIsLossless(q, pattern, order, home);
      var sol :| sol in Found(q) && Matches(q, sol, pattern, order, home);
      MatchIsAsGood(q, sol, pattern, order, home);
    }
    if o, h :| Day(q, false, o, h) {
      var pattern := DayIsItinerary(q, false, o, h);
      SearchIsLossless(q, pattern, o, h);
    }
    if !UsedMinimum(q) {
      FoundAreDays(q, Found(q)[0]);
    }
  }
}
