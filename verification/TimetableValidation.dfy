/** The checks a timetable bundle passes before it is published. */
module TimetableValidation {
  import opened Common
  import opened Ordering
  import opened TimetableClock
  import opened TripChoice
  import opened TimetableBundle

  // ------------------------------------------------------------------ validation before publication

  datatype Invalidity =
    | RouteSequenceDuplicated | ServiceIdDuplicated | TripIdDuplicated | TripRouteDirectionMissing | TripServiceMissing
    | StopTimeTripMissing | StopNotOnRoute | TripStopsInsufficient | StopSequenceDuplicated | TripTimeOrderInvalid

  predicate UniqueRouteStops(stops: seq<RouteStopRecord>) {
    forall i, j :: 0 <= i < j < |stops| ==>
      (stops[i].route, stops[i].direction, stops[i].sequence) != (stops[j].route, stops[j].direction, stops[j].sequence)
  }

  function TripIds(trips: seq<TripRecord>): (r: seq<string>)
    ensures |r| == |trips| && forall i :: 0 <= i < |r| ==> r[i] == trips[i].tripId
  {
    seq(|trips|, i requires 0 <= i < |trips| => trips[i].tripId)
  }

  predicate UniqueTripIds(trips: seq<TripRecord>) {
    Distinct(TripIds(trips))
  }

  predicate RunsDirection(stops: seq<RouteStopRecord>, t: TripRecord) {
    exists s :: s in stops && s.route == t.route && s.direction == t.direction
  }

  predicate ServesStop(stops: seq<RouteStopRecord>, route: string, stop: string) {
    exists s :: s in stops && s.route == route && s.stop == stop
  }

  predicate TimesKnownStop(b: Bundle, x: StopTimeRecord) {
    exists t :: t in b.trips && t.tripId == x.tripId && ServesStop(b.routeStops, t.route, x.stop)
  }

  predicate SequenceBefore(x: StopTimeRecord, y: StopTimeRecord) {
    x.stopSequence < y.stopSequence
  }

  function Arrival(x: StopTimeRecord): int {
    x.arrivalDay * DAY + x.arrivalAt.OfDay()
  }

  function Departure(x: StopTimeRecord): int {
    x.departureDay * DAY + x.departureAt.OfDay()
  }

  function WithId(id: string): StopTimeRecord -> bool {
    (x: StopTimeRecord) => x.tripId == id
  }

  function TimesOfTrip(times: seq<StopTimeRecord>, tripId: string): seq<StopTimeRecord> {
    Sort(SequenceBefore, Filter(WithId(tripId), times))
  }

  function Sequences(times: seq<StopTimeRecord>): (r: seq<int>)
    ensures |r| == |times| && forall i :: 0 <= i < |r| ==> r[i] == times[i].stopSequence
  {
    seq(|times|, i requires 0 <= i < |times| => times[i].stopSequence as int)
  }

  predicate UniqueStopSequences(times: seq<StopTimeRecord>) {
    Distinct(Sequences(times))
  }

  predicate NeverGoesBack(times: seq<StopTimeRecord>) {
    && (forall i :: 0 <= i < |times| ==> Arrival(times[i]) <= Departure(times[i]))
    && (forall i :: 0 < i < |times| ==> Departure(times[i - 1]) <= Arrival(times[i]))
  }

  predicate RunsForward(times: seq<StopTimeRecord>) {
    |times| >= 2 && UniqueStopSequences(times) && NeverGoesBack(times)
  }

  predicate TripsHaveRoutes(b: Bundle) {
    forall t :: t in b.trips ==> RunsDirection(b.routeStops, t) && t.service in b.services
  }

  predicate StopTimesKnown(b: Bundle) {
    forall x :: x in b.stopTimes ==> TimesKnownStop(b, x)
  }

  predicate TripsRunForward(b: Bundle) {
    forall t :: t in b.trips ==> RunsForward(TimesOfTrip(b.stopTimes, t.tripId))
  }

  /** Route, trip and stop references close, and every trip runs forward. */
  predicate ValidBundle(b: Bundle) {
    && UniqueRouteStops(b.routeStops) && Distinct(b.services) && UniqueTripIds(b.trips)
    && TripsHaveRoutes(b) && StopTimesKnown(b) && TripsRunForward(b)
  }

  // ------------------------------------------------------------------ the error of a bundle that is not

  /** Trip `n` runs a direction no route stop has, or on a service there is not. */
  predicate Unplaced(b: Bundle, n: nat) {
    n < |b.trips| && !(RunsDirection(b.routeStops, b.trips[n]) && b.trips[n].service in b.services)
  }

  ghost predicate UnplacedError(b: Bundle, error: Invalidity) {
    exists n: nat :: Unplaced(b, n) && (forall k: nat :: k < n ==> !Unplaced(b, k))
                && error == if !RunsDirection(b.routeStops, b.trips[n]) then TripRouteDirectionMissing else TripServiceMissing
  }

  predicate HasTrip(b: Bundle, id: string) {
    exists t :: t in b.trips && t.tripId == id
  }

  /** Stop time `n` belongs to no trip, or stands at a stop its trip's route does not serve. */
  predicate Unknown(b: Bundle, n: nat) {
    n < |b.stopTimes| && !TimesKnownStop(b, b.stopTimes[n])
  }

  ghost predicate UnknownError(b: Bundle, error: Invalidity) {
    exists n: nat :: Unknown(b, n) && (forall k: nat :: k < n ==> !Unknown(b, k))
                && error == if HasTrip(b, b.stopTimes[n].tripId) then StopNotOnRoute else StopTimeTripMissing
  }

  predicate Stuck(b: Bundle, n: nat) {
    n < |b.trips| && !RunsForward(TimesOfTrip(b.stopTimes, b.trips[n].tripId))
  }

  predicate IsStuckBy(times: seq<StopTimeRecord>, error: Invalidity) {
    if |times| < 2 then error == TripStopsInsufficient
    else if !UniqueStopSequences(times) then error == StopSequenceDuplicated
    else !NeverGoesBack(times) && error == TripTimeOrderInvalid
  }

  ghost predicate StuckError(b: Bundle, error: Invalidity) {
    exists n: nat :: Stuck(b, n) && (forall k: nat :: k < n ==> !Stuck(b, k))
                && IsStuckBy(TimesOfTrip(b.stopTimes, b.trips[n].tripId), error)
  }

  /** The first failing check, at the first trip or stop time it fails on, names the error. */
  ghost predicate IsInvalidBy(b: Bundle, error: Invalidity) {
    if !UniqueRouteStops(b.routeStops) then error == RouteSequenceDuplicated
    else if !Distinct(b.services) then error == ServiceIdDuplicated
    else if !UniqueTripIds(b.trips) then error == TripIdDuplicated
    else if !TripsHaveRoutes(b) then UnplacedError(b, error)
    else if !StopTimesKnown(b) then UnknownError(b, error)
    else StuckError(b, error)
  }

  // ------------------------------------------------------------------ the checks as they run

  type RouteKey = (string, string, int)

  function KeyOfStop(s: RouteStopRecord): RouteKey {
    (s.route, s.direction, s.sequence)
  }

  method CheckRouteStops(stops: seq<RouteStopRecord>) returns (unique: bool, routeStops: map<string, set<string>>)
    ensures unique <==> UniqueRouteStops(stops)
    ensures unique ==> forall route, stop :: route in routeStops && stop in routeStops[route] <==> ServesStop(stops, route, stop)
  {
    unique, routeStops := true, map[];
    var keys: set<RouteKey> := {};
    for n := 0 to |stops|
      invariant unique && UniqueRouteStops(stops[..n])
      invariant forall key :: key in keys <==> exists k :: 0 <= k < n && KeyOfStop(stops[k]) == key
      invariant forall route, stop :: route in routeStops && stop in routeStops[route] <==> ServesStop(stops[..n], route, stop)
    {
      var s := stops[n];
      assert stops[..n + 1] == stops[..n] + [s];
      if KeyOfStop(s) in keys {
        return false, map[];
      }
      keys := keys + {KeyOfStop(s)};
      ServesOneMore(stops[..n], s);
      routeStops := routeStops[s.route := (if s.route in routeStops then routeStops[s.route] else {}) + {s.stop}];
    }
    assert stops[..|stops|] == stops;
  }

  lemma {:induction false} ServesOneMore(stops: seq<RouteStopRecord>, s: RouteStopRecord)
    ensures forall route, stop :: ServesStop(stops + [s], route, stop) <==> ServesStop(stops, route, stop) || (route == s.route && stop == s.stop)
  {
    assert forall x :: x in stops + [s] <==> x in stops || x == s;
  }

  type TripsById = map<string, TripRecord>

  function ById(trips: seq<TripRecord>): (r: TripsById)
    ensures forall id :: id in r <==> exists k :: 0 <= k < |trips| && trips[k].tripId == id
    ensures forall id :: id in r ==> r[id] in trips && r[id].tripId == id
  {
    if trips == [] then map[]
    else
      var front, last := ById(trips[..|trips| - 1]), trips[|trips| - 1];
      assert trips == trips[..|trips| - 1] + [last];
      front[last.tripId := last]
  }

  lemma {:induction false} FullWhenUnique(trips: seq<TripRecord>)
    ensures |ById(trips)| == |trips| <==> UniqueTripIds(trips)
  {
    var ids := TripIds(trips);
    assert ById(trips).Keys == set id | id in ids by {
      forall id ensures id in ById(trips) <==> id in ids {
        if id in ById(trips) {
          var k :| 0 <= k < |trips| && trips[k].tripId == id;
          assert ids[k] == id;
        }
      }
    }
    DistinctByCount(ids);
  }

  lemma {:induction false} UniqueTripById(trips: seq<TripRecord>, t: TripRecord, other: TripRecord)
    requires UniqueTripIds(trips) && t in trips && other in trips && t.tripId == other.tripId
    ensures t == other
  {
    var ids := TripIds(trips);
    var i :| 0 <= i < |trips| && trips[i] == t;
    var j :| 0 <= j < |trips| && trips[j] == other;
    assert ids[i] == ids[j];
  }

  method CheckTrips(b: Bundle) returns (error: Option<Invalidity>)
    ensures error.None? <==> TripsHaveRoutes(b)
    ensures error.Some? ==> UnplacedError(b, error.value)
  {
    var routeKeys := set s | s in b.routeStops :: (s.route, s.direction);
    var services := set x | x in b.services;
    for n := 0 to |b.trips|
      invariant forall k: nat :: k < n ==> !Unplaced(b, k)
    {
      var t := b.trips[n];
      assert t in b.trips;
      assert Unplaced(b, n) <==> !(RunsDirection(b.routeStops, t) && t.service in b.services);
      if (t.route, t.direction) !in routeKeys {
        return Some(TripRouteDirectionMissing);
      }
      if t.service !in services {
        return Some(TripServiceMissing);
      }
    }
    forall t | t in b.trips ensures RunsDirection(b.routeStops, t) && t.service in b.services {
      var k :| 0 <= k < |b.trips| && b.trips[k] == t;
      assert !Unplaced(b, k);
    }
    return None;
  }

  type TimesById = map<string, seq<StopTimeRecord>>

  function Grouped(byTrip: TimesById, id: string): seq<StopTimeRecord> {
    if id in byTrip then byTrip[id] else []
  }

  lemma {:induction false} FilterOneMore(times: seq<StopTimeRecord>, x: StopTimeRecord, id: string)
    ensures Filter(WithId(id), times + [x]) == Filter(WithId(id), times) + (if x.tripId == id then [x] else [])
  {
    assert (times + [x])[..|times|] == times;
  }

  ghost predicate Groups(byTrip: TimesById, times: seq<StopTimeRecord>) {
    forall id :: Grouped(byTrip, id) == Filter(WithId(id), times)
  }

  lemma {:induction false} GroupOneMore(byTrip: TimesById, times: seq<StopTimeRecord>, x: StopTimeRecord)
    requires Groups(byTrip, times)
    ensures Groups(byTrip[x.tripId := Grouped(byTrip, x.tripId) + [x]], times + [x])
  {
    var now := byTrip[x.tripId := Grouped(byTrip, x.tripId) + [x]];
    forall id ensures Grouped(now, id) == Filter(WithId(id), times + [x]) {
      assert Grouped(byTrip, id) == Filter(WithId(id), times);
      FilterOneMore(times, x, id);
    }
  }

  ghost predicate StopsByRoute(stops: seq<RouteStopRecord>, routeStops: map<string, set<string>>) {
    forall route, stop :: route in routeStops && stop in routeStops[route] <==> ServesStop(stops, route, stop)
  }

  lemma {:induction false} GroupNext(byTrip: TimesById, times: seq<StopTimeRecord>, n: nat)
    requires n < |times| && Groups(byTrip, times[..n])
    ensures Groups(byTrip[times[n].tripId := Grouped(byTrip, times[n].tripId) + [times[n]]], times[..n + 1])
  {
    assert times[..n + 1] == times[..n] + [times[n]];
    GroupOneMore(byTrip, times[..n], times[n]);
  }

  method CheckStopTime(ghost b: Bundle, trips: TripsById, routeStops: map<string, set<string>>, x: StopTimeRecord)
    returns (error: Option<Invalidity>)
    requires UniqueTripIds(b.trips) && trips == ById(b.trips) && StopsByRoute(b.routeStops, routeStops)
    ensures error.None? <==> TimesKnownStop(b, x)
    ensures error.Some? ==> error.value == if HasTrip(b, x.tripId) then StopNotOnRoute else StopTimeTripMissing
  {
    KnownByLookup(b, x);
    if x.tripId !in trips {
      return Some(StopTimeTripMissing);
    }
    var route := trips[x.tripId].route;
    if route !in routeStops || x.stop !in routeStops[route] {
      return Some(StopNotOnRoute);
    }
    return None;
  }

  ghost predicate KnownBefore(b: Bundle, n: nat) {
    forall k: nat :: k < n ==> !Unknown(b, k)
  }

  lemma {:induction false} KnownOneMore(b: Bundle, n: nat)
    requires n < |b.stopTimes|
    ensures KnownBefore(b, n + 1) <==> KnownBefore(b, n) && TimesKnownStop(b, b.stopTimes[n])
    ensures StopTimesKnown(b) ==> TimesKnownStop(b, b.stopTimes[n])
  {
    assert b.stopTimes[n] in b.stopTimes;
    assert Unknown(b, n) <==> !TimesKnownStop(b, b.stopTimes[n]);
  }

  lemma {:induction false} AllKnown(b: Bundle)
    requires KnownBefore(b, |b.stopTimes|)
    ensures StopTimesKnown(b)
  {
    forall x | x in b.stopTimes ensures TimesKnownStop(b, x) {
      var k :| 0 <= k < |b.stopTimes| && b.stopTimes[k] == x;
      assert !Unknown(b, k);
    }
  }

  method CheckStopTimes(b: Bundle, routeStops: map<string, set<string>>) returns (error: Option<Invalidity>, byTrip: TimesById)
    requires UniqueTripIds(b.trips) && StopsByRoute(b.routeStops, routeStops)
    ensures error.None? <==> StopTimesKnown(b)
    ensures error.Some? ==> UnknownError(b, error.value)
    ensures error.None? ==> Groups(byTrip, b.stopTimes)
  {
    error, byTrip := None, map[];
    var trips := ById(b.trips);
    for n := 0 to |b.stopTimes|
      invariant error.None? && KnownBefore(b, n)
      invariant Groups(byTrip, b.stopTimes[..n])
    {
      var x := b.stopTimes[n];
      var failed := CheckStopTime(b, trips, routeStops, x);
      KnownOneMore(b, n);
      if failed.Some? {
        assert Unknown(b, n);
        return failed, map[];
      }
      GroupNext(byTrip, b.stopTimes, n);
      byTrip := byTrip[x.tripId := Grouped(byTrip, x.tripId) + [x]];
    }
    assert b.stopTimes[..|b.stopTimes|] == b.stopTimes;
    AllKnown(b);
  }

  lemma {:induction false} KnownByLookup(b: Bundle, x: StopTimeRecord)
    requires UniqueTripIds(b.trips)
    ensures TimesKnownStop(b, x)
            <==> x.tripId in ById(b.trips) && ServesStop(b.routeStops, ById(b.trips)[x.tripId].route, x.stop)
  {
    if TimesKnownStop(b, x) {
      var t :| t in b.trips && t.tripId == x.tripId && ServesStop(b.routeStops, t.route, x.stop);
      UniqueTripById(b.trips, t, ById(b.trips)[x.tripId]);
    }
  }

  method CheckForward(times: seq<StopTimeRecord>) returns (error: Option<Invalidity>)
    ensures error.None? <==> RunsForward(times)
    ensures error.Some? ==> IsStuckBy(times, error.value)
  {
    if |times| < 2 {
      return Some(TripStopsInsufficient);
    }
    var sequences := Sequences(times);
    DistinctByCount(sequences);
    if |set x | x in sequences| != |times| {
      return Some(StopSequenceDuplicated);
    }
    assert UniqueStopSequences(times);
    var previous := -1;
    for i := 0 to |times|
      invariant if i == 0 then previous == -1 else previous == Departure(times[i - 1])
      invariant forall k :: 0 <= k < i ==> Arrival(times[k]) <= Departure(times[k])
      invariant forall k :: 0 < k < i ==> Departure(times[k - 1]) <= Arrival(times[k])
    {
      if Arrival(times[i]) < previous || Departure(times[i]) < Arrival(times[i]) {
        return Some(TripTimeOrderInvalid);
      }
      previous := Departure(times[i]);
    }
    return None;
  }

  method CheckTripTimes(b: Bundle, byTrip: TimesById) returns (error: Option<Invalidity>)
    requires Groups(byTrip, b.stopTimes)
    ensures error.None? <==> TripsRunForward(b)
    ensures error.Some? ==> StuckError(b, error.value)
  {
    for n := 0 to |b.trips|
      invariant forall k: nat :: k < n ==> !Stuck(b, k)
    {
      var id := b.trips[n].tripId;
      assert b.trips[n] in b.trips && Grouped(byTrip, id) == Filter(WithId(id), b.stopTimes);
      var failed := CheckForward(Sort(SequenceBefore, Grouped(byTrip, id)));
      if failed.Some? {
        assert Stuck(b, n);
        return failed;
      }
    }
    forall t | t in b.trips ensures RunsForward(TimesOfTrip(b.stopTimes, t.tripId)) {
      var k :| 0 <= k < |b.trips| && b.trips[k] == t;
      assert !Stuck(b, k);
    }
    return None;
  }
}
