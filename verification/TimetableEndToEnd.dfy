/** The mapped trips reach publication: the manifest is built, the bundle is built exactly when no
    trip passes midnight more than twice, and the validation accepts it. */
module TimetableEndToEnd {
  import opened Common
  import opened Ordering
  import opened TimetableClock
  import opened TripChoice
  import opened TripMapping
  import opened TripMappingResults
  import opened TimetableBundle
  import opened TimetableValidation
  import opened TimetablePublication
  import opened TimetableSections

  // ------------------------------------------------------------------ every section is kept

  lemma {:induction false} NormalAllStays<R>(normal: R -> Option<R>, rows: seq<R>)
    requires forall i :: 0 <= i < |rows| ==> normal(rows[i]) == Some(rows[i])
    ensures NormalAll(normal, rows) == Some(rows)
  {
    assert NormalAll(normal, rows).value == rows;
  }

  lemma {:induction false} StopsStay(stops: seq<RouteStop>)
    requires WellFormedStops(stops)
    ensures NormalAll(NormalStop, StopRows(stops)) == Some(StopRows(stops))
  {
    forall i | 0 <= i < |stops| ensures NormalStop(StopRows(stops)[i]) == Some(StopRows(stops)[i]) {
      var s := stops[i];
      assert s in stops;
      CleanFacts(s.pattern, s.stopId);
      CleanStays(RouteFact(s.pattern));
      CleanStays(StopFact(s.stopId));
      CleanStays(s.direction);
    }
    NormalAllStays(NormalStop, StopRows(stops));
  }

  lemma {:induction false} TripRowsAre(service: string, entries: seq<TripEntry>, target: int, n: nat)
    requires n <= |entries| && AllInForce(entries, target)
    ensures var rows := TripRows(service, entries, target, n);
            |rows| == n && forall i :: 0 <= i < n ==> rows[i] == TripRow(service, entries[i])
  {
    if n > 0 {
      TripRowsAre(service, entries, target, n - 1);
    }
  }

  lemma {:induction false} TripsStay(stops: seq<RouteStop>, service: string, entries: seq<TripEntry>, rows: seq<seq<Checkpoint>>, target: int)
    requires FineEntries(stops, target, entries, rows) && Clean(service)
    ensures NormalAll(NormalTrip, TripRows(service, entries, target, |entries|)) == Some(TripRows(service, entries, target, |entries|))
  {
    FineAreInForce(stops, target, entries, rows);
    TripRowsAre(service, entries, target, |entries|);
    forall i | 0 <= i < |entries| ensures NormalTrip(TripRow(service, entries[i])) == Some(TripRow(service, entries[i])) {
      var e := entries[i];
      assert FineEntry(stops, target, e, rows[i]);
      CleanFacts(e.pattern, "");
      CleanStays(e.tripId);
      CleanStays(RouteFact(e.pattern));
      CleanStays(service);
      CleanStays(e.direction);
    }
    NormalAllStays(NormalTrip, TripRows(service, entries, target, |entries|));
  }

  lemma {:induction false} FineAreInForce(stops: seq<RouteStop>, target: int, entries: seq<TripEntry>, rows: seq<seq<Checkpoint>>)
    requires FineEntries(stops, target, entries, rows)
    ensures AllInForce(entries, target)
  {
    forall i | 0 <= i < |entries| ensures InForce(entries[i], target) {
      assert FineEntry(stops, target, entries[i], rows[i]);
    }
  }

  lemma {:induction false} FineHasNoError(stops: seq<RouteStop>, target: int, e: TripEntry, selected: seq<Checkpoint>)
    requires WellFormedStops(stops) && FineEntry(stops, target, e, selected)
    ensures EntryError(e) == None
  {
    forall t | t in e.stopTimes ensures t.stopId != "" {
      var i :| 0 <= i < |selected| && Timed(selected)[i] == t;
      assert selected[i] in selected;
    }
  }

  lemma {:induction false} NoRowErrors(stops: seq<RouteStop>, target: int, entries: seq<TripEntry>, rows: seq<seq<Checkpoint>>, n: nat)
    requires WellFormedStops(stops) && FineEntries(stops, target, entries, rows) && n <= |entries|
    ensures RowsError(entries, target, n) == None
  {
    if n > 0 {
      NoRowErrors(stops, target, entries, rows, n - 1);
      FineHasNoError(stops, target, entries[n - 1], rows[n - 1]);
    }
  }

  function Parts(entries: seq<TripEntry>): (r: seq<Option<seq<StopTimeRecord>>>)
    ensures |r| == |entries| && forall k :: 0 <= k < |r| ==> r[k] == NormalAll(NormalTime, TimesOf(entries[k]))
  {
    seq(|entries|, k requires 0 <= k < |entries| => NormalAll(NormalTime, TimesOf(entries[k])))
  }

  ghost predicate AtMostTwice(rows: seq<seq<Checkpoint>>) {
    forall k :: 0 <= k < |rows| ==> Drops(ClocksOf(rows[k])) <= 2
  }

  lemma {:induction false} PartIsTrip(stops: seq<RouteStop>, target: int, e: TripEntry, selected: seq<Checkpoint>, part: Option<seq<StopTimeRecord>>)
    requires WellFormedStops(stops) && FineEntry(stops, target, e, selected) && part == NormalAll(NormalTime, TimesOf(e))
    ensures part.Some? <==> Drops(ClocksOf(selected)) <= 2
    ensures part.Some? ==> TripRecords(part.value, e.tripId, selected, Times(ClocksOf(selected)))
  {
    TripIsNormalIff(stops, target, e, selected);
    if part.Some? {
      forall i | 0 <= i < |selected| ensures RecordFor(part.value[i], e.tripId, selected[i], i, Times(ClocksOf(selected))[i]) {
        assert TimeOf(ClocksOf(selected), i) == Times(ClocksOf(selected))[i];
      }
    }
  }

  ghost predicate PartsAreTrips(entries: seq<TripEntry>, rows: seq<seq<Checkpoint>>, parts: seq<Option<seq<StopTimeRecord>>>) {
    && |rows| == |entries| == |parts|
    && (forall k :: 0 <= k < |parts| ==> (parts[k].Some? <==> Drops(ClocksOf(rows[k])) <= 2))
    && (forall k :: 0 <= k < |parts| && parts[k].Some? ==> TripRecords(parts[k].value, entries[k].tripId, rows[k], Times(ClocksOf(rows[k]))))
  }

  lemma {:induction false} AllPartsAreTrips(stops: seq<RouteStop>, target: int, entries: seq<TripEntry>, rows: seq<seq<Checkpoint>>)
    requires WellFormedStops(stops) && FineEntries(stops, target, entries, rows)
    ensures PartsAreTrips(entries, rows, Parts(entries))
  {
    var parts := Parts(entries);
    forall k | 0 <= k < |parts|
      ensures parts[k].Some? <==> Drops(ClocksOf(rows[k])) <= 2
      ensures parts[k].Some? ==> TripRecords(parts[k].value, entries[k].tripId, rows[k], Times(ClocksOf(rows[k])))
    {
      PartIsTrip(stops, target, entries[k], rows[k], parts[k]);
    }
  }

  /** No check before the normalisation fails. */
  lemma {:induction false} BuildReachesNormalisation(dates: Dates, stops: seq<RouteStop>, target: int, entries: seq<TripEntry>, rows: seq<seq<Checkpoint>>)
    requires WellFormedStops(stops) && FineEntries(stops, target, entries, rows) && entries != []
    requires IsoWeekday(target) <= 5
    ensures var service := ServiceId(dates, target);
            BuildBundle(dates, Manifest(stops, entries), true, target)
            == Normalised(StopRows(stops), service, TripRows(service, entries, target, |entries|), TimeRows(entries, target, |entries|))
  {
    var service := ServiceId(dates, target);
    NoRowErrors(stops, target, entries, rows, |entries|);
    FineAreInForce(stops, target, entries, rows);
    TripRowsAre(service, entries, target, |entries|);
    assert TripRows(service, entries, target, |entries|) != [];
    StopsHaveIds(stops);
    StopsExist(stops, target, entries, rows);
  }

  lemma {:induction false} NormalisedIs(stops: seq<RouteStopRecord>, service: string, trips: seq<TripRecord>, times: seq<StopTimeRow>, records: Option<seq<StopTimeRecord>>)
    requires NormalAll(NormalStop, stops) == Some(stops) && NormalAll(NormalTrip, trips) == Some(trips)
    requires NormalAll(NormalTime, times) == records
    ensures Normalised(stops, service, trips, times)
            == if records.Some? then Ok(Bundle(stops, [service], trips, records.value)) else Err(StopTimesRejected)
  {
  }

  function BundleFor(dates: Dates, stops: seq<RouteStop>, target: int, entries: seq<TripEntry>): Bundle
    requires Join(Parts(entries), |entries|).Some?
  {
    var service := ServiceId(dates, target);
    Bundle(StopRows(stops), [service], TripRows(service, entries, target, |entries|), Join(Parts(entries), |entries|).value)
  }

  /** The bundle is built exactly when no trip passes midnight more than twice. */
  lemma {:induction false} BundleIsBuiltIff(dates: Dates, stops: seq<RouteStop>, target: int, entries: seq<TripEntry>, rows: seq<seq<Checkpoint>>)
    requires WellFormedStops(stops) && FineEntries(stops, target, entries, rows) && entries != []
    requires IsoWeekday(target) <= 5 && Clean(ServiceId(dates, target))
    ensures Join(Parts(entries), |entries|).Some? <==> AtMostTwice(rows)
    ensures BuildBundle(dates, Manifest(stops, entries), true, target)
            == if AtMostTwice(rows) then Ok(BundleFor(dates, stops, target, entries)) else Err(StopTimesRejected)
  {
    var service, parts := ServiceId(dates, target), Parts(entries);
    FineAreInForce(stops, target, entries, rows);
    AllPartsAreTrips(stops, target, entries, rows);
    JoinSomeIff(parts, |entries|);
    RowsJoin(NormalTime, entries, target, parts, |entries|);
    StopsStay(stops);
    TripsStay(stops, service, entries, rows, target);
    NormalisedIs(StopRows(stops), service, TripRows(service, entries, target, |entries|), TimeRows(entries, target, |entries|),
                 Join(parts, |entries|));
    BuildReachesNormalisation(dates, stops, target, entries, rows);
  }

  lemma {:induction false} StopsHaveIds(stops: seq<RouteStop>)
    requires WellFormedStops(stops)
    ensures forall s :: s in stops ==> HasIds(s)
  {
  }

  lemma {:induction false} StopsExist(stops: seq<RouteStop>, target: int, entries: seq<TripEntry>, rows: seq<seq<Checkpoint>>)
    requires FineEntries(stops, target, entries, rows) && entries != []
    ensures stops != []
  {
    assert FineEntry(stops, target, entries[0], rows[0]);
  }

  // ------------------------------------------------------------------ and it is valid

  function EntryIds(entries: seq<TripEntry>): (r: seq<string>)
    ensures |r| == |entries| && forall i :: 0 <= i < |r| ==> r[i] == entries[i].tripId
  {
    seq(|entries|, i requires 0 <= i < |entries| => entries[i].tripId)
  }

  lemma {:induction false} RouteStopsAreUnique(stops: seq<RouteStop>)
    requires WellFormedStops(stops)
    ensures UniqueRouteStops(StopRows(stops))
  {
    forall i, j | 0 <= i < j < |stops| ensures RouteFact(stops[i].pattern) != RouteFact(stops[j].pattern) || stops[i].sequence != stops[j].sequence {
      FactsDiffer(stops[i].pattern, stops[j].pattern);
    }
  }

  lemma {:induction false} PartsOwnIds(entries: seq<TripEntry>, rows: seq<seq<Checkpoint>>, parts: seq<Option<seq<StopTimeRecord>>>)
    requires PartsAreTrips(entries, rows, parts)
    ensures OwnIds(parts, EntryIds(entries))
  {
    forall k, x | 0 <= k < |parts| && parts[k].Some? && x in parts[k].value ensures x.tripId == EntryIds(entries)[k] {
      var i :| 0 <= i < |parts[k].value| && parts[k].value[i] == x;
      assert RecordFor(parts[k].value[i], entries[k].tripId, rows[k][i], i, Times(ClocksOf(rows[k]))[i]);
    }
  }

  /** The records of one trip in the bundle show its row's unrolled minutes. */
  ghost predicate TripKept(b: Bundle, tripId: string, selected: seq<Checkpoint>) {
    TripRecords(TimesOfTrip(b.stopTimes, tripId), tripId, selected, Times(ClocksOf(selected)))
  }

  lemma {:induction false} TripRunsForward(entries: seq<TripEntry>, rows: seq<seq<Checkpoint>>, parts: seq<Option<seq<StopTimeRecord>>>, b: Bundle, k: nat)
    requires PartsAreTrips(entries, rows, parts) && Distinct(EntryIds(entries)) && k < |entries| && |rows[k]| >= 2
    requires Join(parts, |parts|) == Some(b.stopTimes)
    ensures RunsForward(TimesOfTrip(b.stopTimes, entries[k].tripId)) && TripKept(b, entries[k].tripId, rows[k])
  {
    PartsOwnIds(entries, rows, parts);
    RecordsOfTrip(parts, EntryIds(entries), |parts|, k);
    TimesLift(ClocksOf(rows[k]));
    RecordsRunForward(parts[k].value, entries[k].tripId, rows[k], Times(ClocksOf(rows[k])));
  }

  lemma {:induction false} RecordIsKnown(stops: seq<RouteStop>, target: int, entries: seq<TripEntry>, rows: seq<seq<Checkpoint>>,
                      parts: seq<Option<seq<StopTimeRecord>>>, service: string, b: Bundle, x: StopTimeRecord)
    requires FineEntries(stops, target, entries, rows) && PartsAreTrips(entries, rows, parts)
    requires Join(parts, |parts|) == Some(b.stopTimes) && x in b.stopTimes
    requires b.routeStops == StopRows(stops) && b.trips == TripRows(service, entries, target, |entries|)
    ensures TimesKnownStop(b, x)
  {
    var k := RecordHasPart(parts, |parts|, x);
    var i :| 0 <= i < |parts[k].value| && parts[k].value[i] == x;
    assert RecordFor(parts[k].value[i], entries[k].tripId, rows[k][i], i, Times(ClocksOf(rows[k]))[i]);
    var e, c := entries[k], rows[k][i];
    assert FineEntry(stops, target, e, rows[k]) && c in rows[k];
    FineAreInForce(stops, target, entries, rows);
    TripRowsAre(service, entries, target, |entries|);
    assert b.trips[k] in b.trips && b.trips[k] == TripRow(service, e);
    var j :| 0 <= j < |stops| && stops[j] == c.stop;
    assert StopRows(stops)[j] == StopRow(c.stop);
    assert StopRow(c.stop) in b.routeStops;
    assert ServesStop(b.routeStops, RouteFact(e.pattern), x.stop);
  }

  lemma {:induction false} TripsAreOnRoutes(stops: seq<RouteStop>, target: int, entries: seq<TripEntry>, rows: seq<seq<Checkpoint>>, service: string, b: Bundle)
    requires FineEntries(stops, target, entries, rows)
    requires b.routeStops == StopRows(stops) && b.services == [service] && b.trips == TripRows(service, entries, target, |entries|)
    ensures TripsHaveRoutes(b)
  {
    FineAreInForce(stops, target, entries, rows);
    TripRowsAre(service, entries, target, |entries|);
    forall t | t in b.trips ensures RunsDirection(b.routeStops, t) && t.service in b.services {
      var k :| 0 <= k < |b.trips| && b.trips[k] == t;
      assert FineEntry(stops, target, entries[k], rows[k]);
      var s :| s in stops && s.pattern == entries[k].pattern && s.direction == entries[k].direction;
      var j :| 0 <= j < |stops| && stops[j] == s;
      assert b.routeStops[j] == StopRow(s);
      assert StopRow(s) in b.routeStops;
    }
  }

  lemma {:induction false} AllRecordsAreKnown(stops: seq<RouteStop>, target: int, entries: seq<TripEntry>, rows: seq<seq<Checkpoint>>,
                                              parts: seq<Option<seq<StopTimeRecord>>>, service: string, b: Bundle)
    requires FineEntries(stops, target, entries, rows) && PartsAreTrips(entries, rows, parts)
    requires Join(parts, |parts|) == Some(b.stopTimes)
    requires b.routeStops == StopRows(stops) && b.trips == TripRows(service, entries, target, |entries|)
    ensures StopTimesKnown(b)
  {
    forall x | x in b.stopTimes ensures TimesKnownStop(b, x) {
      RecordIsKnown(stops, target, entries, rows, parts, service, b, x);
    }
  }

  ghost predicate AllKept(b: Bundle, entries: seq<TripEntry>, rows: seq<seq<Checkpoint>>) {
    |rows| == |entries| && TripIds(b.trips) == EntryIds(entries)
    && forall k :: 0 <= k < |entries| ==> TripKept(b, entries[k].tripId, rows[k])
  }

  lemma {:induction false} TripsKeepIds(entries: seq<TripEntry>, service: string, target: int)
    requires AllInForce(entries, target)
    ensures TripIds(TripRows(service, entries, target, |entries|)) == EntryIds(entries)
  {
    TripRowsAre(service, entries, target, |entries|);
  }

  lemma {:induction false} AllTripsRunForward(entries: seq<TripEntry>, rows: seq<seq<Checkpoint>>,
                                              parts: seq<Option<seq<StopTimeRecord>>>, b: Bundle)
    requires PartsAreTrips(entries, rows, parts) && Distinct(EntryIds(entries)) && forall k :: 0 <= k < |rows| ==> |rows[k]| >= 2
    requires Join(parts, |parts|) == Some(b.stopTimes) && TripIds(b.trips) == EntryIds(entries)
    ensures TripsRunForward(b) && AllKept(b, entries, rows)
  {
    forall k | 0 <= k < |entries|
      ensures RunsForward(TimesOfTrip(b.stopTimes, entries[k].tripId)) && TripKept(b, entries[k].tripId, rows[k])
    {
      TripRunsForward(entries, rows, parts, b, k);
    }
    RunForwardById(b, entries);
  }

  lemma {:induction false} RunForwardById(b: Bundle, entries: seq<TripEntry>)
    requires TripIds(b.trips) == EntryIds(entries)
    requires forall k :: 0 <= k < |entries| ==> RunsForward(TimesOfTrip(b.stopTimes, entries[k].tripId))
    ensures TripsRunForward(b)
  {
    forall t | t in b.trips ensures RunsForward(TimesOfTrip(b.stopTimes, t.tripId)) {
      var k :| 0 <= k < |b.trips| && b.trips[k] == t;
      assert TripIds(b.trips)[k] == EntryIds(entries)[k];
    }
  }

  /** What was built from the entries passes the validation and keeps every trip. */
  lemma {:induction false} BundleIsValid(dates: Dates, stops: seq<RouteStop>, target: int, entries: seq<TripEntry>, rows: seq<seq<Checkpoint>>)
    requires WellFormedStops(stops) && FineEntries(stops, target, entries, rows) && Distinct(EntryIds(entries))
    requires Join(Parts(entries), |entries|).Some?
    ensures ValidBundle(BundleFor(dates, stops, target, entries)) && AllKept(BundleFor(dates, stops, target, entries), entries, rows)
  {
    var service, parts, b := ServiceId(dates, target), Parts(entries), BundleFor(dates, stops, target, entries);
    AllPartsAreTrips(stops, target, entries, rows);
    RouteStopsAreUnique(stops);
    TripsAreOnRoutes(stops, target, entries, rows, service, b);
    AllRecordsAreKnown(stops, target, entries, rows, parts, service, b);
    FineAreInForce(stops, target, entries, rows);
    TripsKeepIds(entries, service, target);
    forall k | 0 <= k < |rows| ensures |rows[k]| >= 2 {
      assert FineEntry(stops, target, entries[k], rows[k]);
    }
    AllTripsRunForward(entries, rows, parts, b);
  }
}
