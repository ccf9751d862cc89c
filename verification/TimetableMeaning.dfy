/** The manifest, the bundle and its validity, written out: which rows a bundle holds and under which
    error none is built, and what the validation asks of a bundle. */
module TimetableMeaning {
  import opened Common
  import opened Decimals
  import opened Ordering
  import opened TimetableClock
  import opened TripChoice
  import opened TripMapping
  import opened TripMeaning
  import opened TripRunMeaning
  import opened TimetableBundle
  import opened TimetableValidation

  // ------------------------------------------------------------------ a valid bundle

  ghost predicate RouteStopsDiffer(stops: seq<RouteStopRecord>) {
    forall i, j :: 0 <= i < j < |stops| ==>
      stops[i].route != stops[j].route || stops[i].direction != stops[j].direction || stops[i].sequence != stops[j].sequence
  }

  ghost predicate Placed(b: Bundle, t: TripRecord) {
    && (exists k :: 0 <= k < |b.routeStops| && b.routeStops[k].route == t.route && b.routeStops[k].direction == t.direction)
    && t.service in b.services
  }

  /** Some trip has the stop time's id and a route that serves its stop. */
  ghost predicate Reached(b: Bundle, x: StopTimeRecord) {
    exists i, k :: 0 <= i < |b.trips| && 0 <= k < |b.routeStops| && b.trips[i].tripId == x.tripId
                   && b.routeStops[k].route == b.trips[i].route && b.routeStops[k].stop == x.stop
  }

  function ArrivesAt(x: StopTimeRecord): int {
    1440 * x.arrivalDay + 60 * x.arrivalAt.hour + x.arrivalAt.minute
  }

  function LeavesAt(x: StopTimeRecord): int {
    1440 * x.departureDay + 60 * x.departureAt.hour + x.departureAt.minute
  }

  predicate Earlier(x: StopTimeRecord, y: StopTimeRecord, id: string) {
    x.tripId == id && y.tripId == id && x.stopSequence < y.stopSequence
  }

  /** Among the stop times of one trip there are two; no sequence repeats, none leaves before it
      arrives, and a later one in sequence arrives no earlier than an earlier one leaves. */
  ghost predicate Forward(times: seq<StopTimeRecord>, id: string) {
    && (exists i, j :: 0 <= i < j < |times| && times[i].tripId == id && times[j].tripId == id)
    && (forall i, j :: 0 <= i < j < |times| && times[i].tripId == id && times[j].tripId == id ==>
          times[i].stopSequence != times[j].stopSequence)
    && (forall i :: 0 <= i < |times| && times[i].tripId == id ==> ArrivesAt(times[i]) <= LeavesAt(times[i]))
    && (forall i, j :: 0 <= i < |times| && 0 <= j < |times| && Earlier(times[i], times[j], id) ==>
          LeavesAt(times[i]) <= ArrivesAt(times[j]))
  }

  ghost predicate IdsDiffer(trips: seq<TripRecord>) {
    forall i, j :: 0 <= i < j < |trips| ==> trips[i].tripId != trips[j].tripId
  }

  ghost predicate AllPlaced(b: Bundle) {
    forall i :: 0 <= i < |b.trips| ==> Placed(b, b.trips[i])
  }

  ghost predicate AllReached(b: Bundle) {
    forall i :: 0 <= i < |b.stopTimes| ==> Reached(b, b.stopTimes[i])
  }

  ghost predicate AllForward(b: Bundle) {
    forall i :: 0 <= i < |b.trips| ==> Forward(b.stopTimes, b.trips[i].tripId)
  }

  ghost predicate Valid(b: Bundle) {
    && RouteStopsDiffer(b.routeStops)
    && (forall i, j :: 0 <= i < j < |b.services| ==> b.services[i] != b.services[j])
    && IdsDiffer(b.trips) && AllPlaced(b) && AllReached(b) && AllForward(b)
  }

  /** The sorted stop times of a trip, with their positions. */
  ghost predicate IsTripOf(times: seq<StopTimeRecord>, id: string, at: seq<nat>, own: seq<StopTimeRecord>) {
    && |own| == |at|
    && (forall i :: 0 <= i < |at| ==> at[i] < |times| && own[i] == times[at[i]] && own[i].tripId == id)
    && (forall k :: 0 <= k < |times| && times[k].tripId == id ==> k in at)
    && (forall i, j :: 0 <= i < j < |at| ==> at[i] != at[j] && own[i].stopSequence <= own[j].stopSequence)
  }

  lemma {:induction false} TripTimesMean(times: seq<StopTimeRecord>, id: string) returns (at: seq<nat>)
    ensures IsTripOf(times, id, at, TimesOfTrip(times, id))
  {
    at := SortedFilterMeans(WithId(id), SequenceBefore, times);
    var own := TimesOfTrip(times, id);
    forall i, j | 0 <= i < j < |at| ensures own[i].stopSequence <= own[j].stopSequence {
      assert SequenceBefore(own[i], own[j]) || !SequenceBefore(own[j], own[i]);
    }
  }

  lemma {:induction false} InOwn(times: seq<StopTimeRecord>, id: string, at: seq<nat>, own: seq<StopTimeRecord>, k: nat) returns (i: nat)
    requires IsTripOf(times, id, at, own) && k < |times| && times[k].tripId == id
    ensures i < |own| && at[i] == k && own[i] == times[k]
  {
    assert k in at;
    i :| 0 <= i < |at| && at[i] == k;
  }

  lemma {:induction false} TwoIff(times: seq<StopTimeRecord>, id: string, at: seq<nat>, own: seq<StopTimeRecord>)
    requires IsTripOf(times, id, at, own)
    ensures |own| >= 2 <==> exists i, j :: 0 <= i < j < |times| && times[i].tripId == id && times[j].tripId == id
  {
    if |own| >= 2 {
      var i, j := if at[0] < at[1] then at[0] else at[1], if at[0] < at[1] then at[1] else at[0];
      assert at[0] != at[1] && 0 <= i < j < |times|;
      assert times[i].tripId == id && times[j].tripId == id;
    }
    if i, j :| 0 <= i < j < |times| && times[i].tripId == id && times[j].tripId == id {
      var k := InOwn(times, id, at, own, i);
      var l := InOwn(times, id, at, own, j);
      assert k != l;
    }
  }

  lemma {:induction false} SequencesDifferIff(times: seq<StopTimeRecord>, id: string, at: seq<nat>, own: seq<StopTimeRecord>)
    requires IsTripOf(times, id, at, own)
    ensures UniqueStopSequences(own) <==>
            forall i, j :: 0 <= i < j < |times| && times[i].tripId == id && times[j].tripId == id ==> times[i].stopSequence != times[j].stopSequence
  {
    var all := Sequences(own);
    if UniqueStopSequences(own) {
      forall i, j | 0 <= i < j < |times| && times[i].tripId == id && times[j].tripId == id
        ensures times[i].stopSequence != times[j].stopSequence
      {
        var k := InOwn(times, id, at, own, i);
        var l := InOwn(times, id, at, own, j);
        assert k != l && (k < l ==> all[k] != all[l]) && (l < k ==> all[l] != all[k]);
      }
    }
    if forall i, j :: 0 <= i < j < |times| && times[i].tripId == id && times[j].tripId == id ==> times[i].stopSequence != times[j].stopSequence {
      forall k, l | 0 <= k < l < |all| ensures all[k] != all[l] {
        assert own[k] == times[at[k]] && own[l] == times[at[l]] && at[k] != at[l];
        assert at[k] < at[l] || at[l] < at[k];
      }
    }
  }

  /** The stop times never go back, said of any two. */
  ghost predicate OwnForward(own: seq<StopTimeRecord>) {
    && (forall i :: 0 <= i < |own| ==> ArrivesAt(own[i]) <= LeavesAt(own[i]))
    && (forall i, j :: 0 <= i < j < |own| ==> LeavesAt(own[i]) <= ArrivesAt(own[j]))
  }

  lemma {:induction false} NeverBackAny(own: seq<StopTimeRecord>, i: nat, j: nat)
    requires NeverGoesBack(own) && i < j < |own|
    ensures LeavesAt(own[i]) <= ArrivesAt(own[j])
  {
    assert Departure(own[j - 1]) <= Arrival(own[j]);
    if i < j - 1 {
      NeverBackAny(own, i, j - 1);
      assert Arrival(own[j - 1]) <= Departure(own[j - 1]);
    }
  }

  lemma {:induction false} NeverBackIff(own: seq<StopTimeRecord>)
    ensures NeverGoesBack(own) <==> OwnForward(own)
  {
    assert forall x: StopTimeRecord :: Arrival(x) == ArrivesAt(x) && Departure(x) == LeavesAt(x);
    if NeverGoesBack(own) {
      forall i, j | 0 <= i < j < |own| ensures LeavesAt(own[i]) <= ArrivesAt(own[j]) {
        NeverBackAny(own, i, j);
      }
      forall i | 0 <= i < |own| ensures ArrivesAt(own[i]) <= LeavesAt(own[i]) {
        assert Arrival(own[i]) <= Departure(own[i]);
      }
    }
  }

  ghost predicate TimesForward(times: seq<StopTimeRecord>, id: string) {
    && (forall i :: 0 <= i < |times| && times[i].tripId == id ==> ArrivesAt(times[i]) <= LeavesAt(times[i]))
    && (forall i, j :: 0 <= i < |times| && 0 <= j < |times| && Earlier(times[i], times[j], id) ==>
          LeavesAt(times[i]) <= ArrivesAt(times[j]))
  }

  lemma {:induction false} OwnForwardIff(times: seq<StopTimeRecord>, id: string, at: seq<nat>, own: seq<StopTimeRecord>)
    requires IsTripOf(times, id, at, own) && UniqueStopSequences(own)
    ensures OwnForward(own) <==> TimesForward(times, id)
  {
    var all := Sequences(own);
    if OwnForward(own) {
      forall i | 0 <= i < |times| && times[i].tripId == id ensures ArrivesAt(times[i]) <= LeavesAt(times[i]) {
        var k := InOwn(times, id, at, own, i);
      }
      forall i, j | 0 <= i < |times| && 0 <= j < |times| && Earlier(times[i], times[j], id)
        ensures LeavesAt(times[i]) <= ArrivesAt(times[j])
      {
        var k := InOwn(times, id, at, own, i);
        var l := InOwn(times, id, at, own, j);
        assert k < l;
      }
    }
    if TimesForward(times, id) {
      forall k | 0 <= k < |own| ensures ArrivesAt(own[k]) <= LeavesAt(own[k]) {
        assert own[k] == times[at[k]];
      }
      forall k, l | 0 <= k < l < |own| ensures LeavesAt(own[k]) <= ArrivesAt(own[l]) {
        assert all[k] != all[l];
        assert own[k] == times[at[k]] && own[l] == times[at[l]];
      }
    }
  }

  lemma {:induction false} ForwardIff(times: seq<StopTimeRecord>, id: string)
    ensures RunsForward(TimesOfTrip(times, id)) <==> Forward(times, id)
  {
    var own := TimesOfTrip(times, id);
    var at := TripTimesMean(times, id);
    TwoIff(times, id, at, own);
    SequencesDifferIff(times, id, at, own);
    NeverBackIff(own);
    if UniqueStopSequences(own) {
      OwnForwardIff(times, id, at, own);
    }
  }

  lemma {:induction false} PlacedIff(b: Bundle, t: TripRecord)
    ensures Placed(b, t) <==> RunsDirection(b.routeStops, t) && t.service in b.services
  {
    if RunsDirection(b.routeStops, t) {
      var s :| s in b.routeStops && s.route == t.route && s.direction == t.direction;
      var k :| 0 <= k < |b.routeStops| && b.routeStops[k] == s;
    }
  }

  lemma {:induction false} ReachedIff(b: Bundle, x: StopTimeRecord)
    ensures Reached(b, x) <==> TimesKnownStop(b, x)
  {
    if TimesKnownStop(b, x) {
      var t :| t in b.trips && t.tripId == x.tripId && ServesStop(b.routeStops, t.route, x.stop);
      var s :| s in b.routeStops && s.route == t.route && s.stop == x.stop;
      var i :| 0 <= i < |b.trips| && b.trips[i] == t;
      var k :| 0 <= k < |b.routeStops| && b.routeStops[k] == s;
      assert b.routeStops[k].route == b.trips[i].route;
    }
    if Reached(b, x) {
      var i, k :| 0 <= i < |b.trips| && 0 <= k < |b.routeStops| && b.trips[i].tripId == x.tripId
                  && b.routeStops[k].route == b.trips[i].route && b.routeStops[k].stop == x.stop;
      assert b.routeStops[k] in b.routeStops && b.trips[i] in b.trips;
      assert ServesStop(b.routeStops, b.trips[i].route, x.stop);
    }
  }

  lemma {:induction false} AllPlacedIff(b: Bundle)
    ensures AllPlaced(b) <==> TripsHaveRoutes(b)
  {
    forall t ensures Placed(b, t) <==> RunsDirection(b.routeStops, t) && t.service in b.services {
      PlacedIff(b, t);
    }
    assert forall i :: 0 <= i < |b.trips| ==> b.trips[i] in b.trips;
  }

  lemma {:induction false} AllReachedIff(b: Bundle)
    ensures AllReached(b) <==> StopTimesKnown(b)
  {
    forall x ensures Reached(b, x) <==> TimesKnownStop(b, x) {
      ReachedIff(b, x);
    }
    assert forall i :: 0 <= i < |b.stopTimes| ==> b.stopTimes[i] in b.stopTimes;
  }

  lemma {:induction false} AllForwardIff(b: Bundle)
    ensures AllForward(b) <==> TripsRunForward(b)
  {
    forall id ensures Forward(b.stopTimes, id) <==> RunsForward(TimesOfTrip(b.stopTimes, id)) {
      ForwardIff(b.stopTimes, id);
    }
    assert forall i :: 0 <= i < |b.trips| ==> b.trips[i] in b.trips;
  }

  lemma {:induction false} IdsDifferIff(trips: seq<TripRecord>)
    ensures IdsDiffer(trips) <==> UniqueTripIds(trips)
  {
    var ids := TripIds(trips);
    if UniqueTripIds(trips) {
      forall i, j | 0 <= i < j < |trips| ensures trips[i].tripId != trips[j].tripId {
        assert ids[i] != ids[j];
      }
    }
  }

  lemma {:induction false} RouteStopsDifferIff(stops: seq<RouteStopRecord>)
    ensures RouteStopsDiffer(stops) <==> UniqueRouteStops(stops)
  {
  }

  /** Main result: what the validation accepts, said of the bundle's own rows. */
  lemma {:induction false} ValidMeans(b: Bundle)
    ensures ValidBundle(b) <==> Valid(b)
  {
    RouteStopsDifferIff(b.routeStops);
    IdsDifferIff(b.trips);
    AllPlacedIff(b);
    AllReachedIff(b);
    AllForwardIff(b);
  }

  // ------------------------------------------------------------------ texts and clocks

  predicate Blank(c: char) {
    c == ' ' || c == '\t' || c == '\n' || c == '\r'
  }

  predicate Spaces(text: string) {
    forall i :: 0 <= i < |text| ==> Blank(text[i])
  }

  /** Text `t` is the text without the spaces around it, and not empty. */
  ghost predicate TrimsTo(text: string, t: string) {
    exists i, j :: TrimsAt(text, t, i, j)
  }

  ghost predicate TrimsAt(text: string, t: string, i: int, j: int) {
    && 0 <= i < j <= |text| && t == text[i..j] && !Blank(text[i]) && !Blank(text[j - 1])
    && forall k :: 0 <= k < |text| && (k < i || j <= k) ==> Blank(text[k])
  }

  lemma {:induction false} TrimBehind(text: string, t: string)
    requires text != "" && Blank(text[0])
    ensures Spaces(text[1..]) <==> Spaces(text)
    ensures TrimsTo(text[1..], t) ==> TrimsTo(text, t)
  {
    var rest := text[1..];
    forall k | 0 <= k < |rest| ensures rest[k] == text[k + 1] {}
    if Spaces(rest) {
      forall k | 0 <= k < |text| ensures Blank(text[k]) {
        assert k > 0 ==> text[k] == rest[k - 1];
      }
    }
    if i, j :| TrimsAt(rest, t, i, j) {
      assert text[i + 1..j + 1] == rest[i..j];
      forall k | 0 <= k < |text| && (k < i + 1 || j + 1 <= k) ensures Blank(text[k]) {
        assert k > 0 ==> text[k] == rest[k - 1];
      }
      assert TrimsAt(text, t, i + 1, j + 1);
    }
  }

  lemma {:induction false} TrimBefore(text: string, t: string)
    requires text != "" && Blank(text[|text| - 1])
    ensures Spaces(text[..|text| - 1]) <==> Spaces(text)
    ensures TrimsTo(text[..|text| - 1], t) ==> TrimsTo(text, t)
  {
    var rest := text[..|text| - 1];
    forall k | 0 <= k < |rest| ensures rest[k] == text[k] {}
    if Spaces(rest) {
      forall k | 0 <= k < |text| ensures Blank(text[k]) {
        assert k < |rest| ==> text[k] == rest[k];
      }
    }
    if i, j :| TrimsAt(rest, t, i, j) {
      assert text[i..j] == rest[i..j];
      forall k | 0 <= k < |text| && (k < i || j <= k) ensures Blank(text[k]) {
        assert k < |rest| ==> text[k] == rest[k];
      }
      assert TrimsAt(text, t, i, j);
    }
  }

  lemma {:induction false} StripMeans(text: string)
    ensures Spaces(text) <==> Strip(text) == ""
    ensures !Spaces(text) ==> TrimsTo(text, Strip(text))
  {
    if text == "" {
    } else if Blank(text[0]) {
      StripMeans(text[1..]);
      TrimBehind(text, Strip(text));
    } else if Blank(text[|text| - 1]) {
      StripMeans(text[..|text| - 1]);
      TrimBefore(text, Strip(text));
    } else {
      assert text[0..|text|] == text;
      assert TrimsAt(text, text, 0, |text|);
    }
  }

  /** Without colons the text is four digits, of an hour up to 71 and a minute up to 59. */
  ghost predicate ReadsAs(text: string, hour: int, minute: int) {
    var digits := Filter((c: char) => c != ':', text);
    && |digits| == 4 && (forall i :: 0 <= i < 4 ==> '0' <= digits[i] <= '9')
    && hour == 10 * (digits[0] - '0') as int + (digits[1] - '0') as int <= 71
    && minute == 10 * (digits[2] - '0') as int + (digits[3] - '0') as int <= 59
  }

  lemma {:induction false} ColonsAreFiltered(text: string)
    ensures WithoutColons(text) == Filter((c: char) => c != ':', text)
  {
    if text != "" {
      ColonsAreFiltered(text[..|text| - 1]);
    }
  }

  lemma {:induction false} TwoDigitValue(text: string)
    requires |text| == 2 && AllDigits(text)
    ensures Value(text) == 10 * (text[0] - '0') as int + (text[1] - '0') as int
  {
    assert text[..1] == [text[0]] && Value(text[..1]) == DigitValue(text[0]) by {
      assert text[..1][..0] == "";
    }
  }

  lemma {:induction false} ServiceTimeMeans(text: string, hour: int, minute: int)
    ensures ReadsAs(text, hour, minute)
            <==> ServiceTime(text).Some? && hour == 24 * ServiceTime(text).value.1 + ServiceTime(text).value.0.hour
                 && minute == ServiceTime(text).value.0.minute
  {
    ColonsAreFiltered(text);
    var digits := WithoutColons(text);
    if |digits| == 4 && AllDigits(digits) {
      TwoDigitValue(digits[..2]);
      TwoDigitValue(digits[2..]);
    }
  }

  /** `validate_timetable_bundle` accepts exactly the valid bundles, and else names the first fault. */
  method ValidateTimetableBundle(b: Bundle) returns (error: Option<Invalidity>)
    ensures error.None? <==> Valid(b)
    ensures error.Some? ==> IsInvalidBy(b, error.value)
  {
    ValidMeans(b);
    var unique, routeStops := CheckRouteStops(b.routeStops);
    if !unique {
      return Some(RouteSequenceDuplicated);
    }
    DistinctByCount(b.services);
    if |set x | x in b.services| != |b.services| {
      return Some(ServiceIdDuplicated);
    }
    FullWhenUnique(b.trips);
    if |ById(b.trips)| != |b.trips| {
      return Some(TripIdDuplicated);
    }
    error := CheckTrips(b);
    if error.Some? {
      return;
    }
    var byTrip;
    error, byTrip := CheckStopTimes(b, routeStops);
    if error.Some? {
      return;
    }
    error := CheckTripTimes(b, byTrip);
  }
}
