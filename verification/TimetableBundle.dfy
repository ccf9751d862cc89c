/** From the mapped trips to a timetable bundle: the lineage manifest, the normalised records, and
    the validation before publication. */
module TimetableBundle {
  import opened Common
  import opened Decimals
  import opened Ordering
  import opened TimetableClock
  import opened TripChoice
  import opened TripMapping

  // ------------------------------------------------------------------ required texts

  predicate IsSpace(c: char) {
    c == ' ' || c == '\t' || c == '\n' || c == '\r'
  }

  function Strip(text: string): string {
    if text == "" then text
    else if IsSpace(text[0]) then Strip(text[1..])
    else if IsSpace(text[|text| - 1]) then Strip(text[..|text| - 1])
    else text
  }

  function RequiredText(text: string): Option<string> {
    if Strip(text) == "" then None else Some(Strip(text))
  }

  /** Not empty and without space around it. */
  predicate Clean(text: string) {
    text != "" && !IsSpace(text[0]) && !IsSpace(text[|text| - 1])
  }

  lemma {:induction false} CleanStays(text: string)
    requires Clean(text)
    ensures RequiredText(text) == Some(text)
  {
  }

  // ------------------------------------------------------------------ the manifest

  /** How calendar days are written, which is not part of this model. */
  datatype Dates = Dates(compact: int -> string, iso: int -> string)

  datatype TripEntry = TripEntry(tripId: string, pattern: string, direction: string, effectiveFrom: int, effectiveTo: int, stopTimes: seq<StopTime>)

  datatype Manifest = Manifest(stops: seq<RouteStop>, trips: seq<TripEntry>)

  datatype BundleError =
    | MappingEmpty | RouteStopsIncomplete
    | NotWeekday | NoticeReviewMissing | RowsEmpty | RouteStopIdInvalid | TripIdInvalid | TripTimesInsufficient | StopIdInvalid
    | DateNotCovered | RouteStopsRejected | TripsRejected | StopTimesRejected

  function TripId(dates: Dates, m: Mapping, sequence: nat): string {
    "weekday-" + dates.compact(m.effectiveTo) + "-" + m.routeNumber + "-" + Padded(sequence, 5)
  }

  function EntryFor(dates: Dates, m: Mapping, sequence: nat): TripEntry {
    TripEntry(TripId(dates, m, sequence), m.pattern, m.direction, m.effectiveFrom, m.effectiveTo, m.stopTimes)
  }

  function Entries(dates: Dates, mappings: seq<Mapping>): (r: seq<TripEntry>)
    ensures |r| == |mappings| && forall i :: 0 <= i < |r| ==> r[i] == EntryFor(dates, mappings[i], i + 1)
  {
    seq(|mappings|, i requires 0 <= i < |mappings| => EntryFor(dates, mappings[i], i + 1))
  }

  function MappedPatterns(mappings: seq<Mapping>): set<string> {
    set m | m in mappings :: m.pattern
  }

  predicate PatternThenSequence(a: RouteStop, b: RouteStop) {
    TextLess(a.pattern, b.pattern) || (a.pattern == b.pattern && a.sequence < b.sequence)
  }

  function SelectedStops(stops: seq<RouteStop>, patterns: set<string>): seq<RouteStop> {
    Filter((s: RouteStop) => s.pattern in patterns, stops)
  }

  /** `build_exact_mapping_manifest`. */
  function BuildManifest(dates: Dates, snapshot: string, stops: seq<RouteStop>, mappings: seq<Mapping>): Result<Manifest, BundleError> {
    if Strip(snapshot) == "" || mappings == [] then Err(MappingEmpty)
    else
      var selected := SelectedStops(stops, MappedPatterns(mappings));
      if (set s | s in selected :: s.pattern) != MappedPatterns(mappings) then Err(RouteStopsIncomplete)
      else Ok(Manifest(Sort(PatternThenSequence, selected), Entries(dates, mappings)))
  }

  // ------------------------------------------------------------------ the bundle's rows and records

  datatype RouteStopRecord = RouteStopRecord(route: string, stop: string, sequence: int, direction: string)

  datatype TripRecord = TripRecord(tripId: string, route: string, service: string, direction: string, effectiveFrom: int, effectiveTo: int)

  datatype StopTimeRow = StopTimeRow(tripId: string, stop: string, stopSequence: nat, arrival: string, departure: string)

  datatype StopTimeRecord = StopTimeRecord(tripId: string, stop: string, stopSequence: nat, arrivalAt: Clock, arrivalDay: nat,
                                           departureAt: Clock, departureDay: nat)

  datatype Bundle = Bundle(routeStops: seq<RouteStopRecord>, services: seq<string>, trips: seq<TripRecord>, stopTimes: seq<StopTimeRecord>)

  function RouteFact(pattern: string): string {
    "tago.bus-route:" + pattern
  }

  function StopFact(stopId: string): string {
    "tago.bus-stop:" + stopId
  }

  function ServiceId(dates: Dates, target: int): string {
    "weekday:" + dates.iso(target)
  }

  predicate HasIds(s: RouteStop) {
    s.pattern != "" && s.stopId != ""
  }

  function StopRow(s: RouteStop): RouteStopRecord {
    RouteStopRecord(RouteFact(s.pattern), StopFact(s.stopId), s.sequence, s.direction)
  }

  predicate InForce(e: TripEntry, target: int) {
    e.effectiveFrom <= target <= e.effectiveTo
  }

  function TripRow(service: string, e: TripEntry): TripRecord {
    TripRecord(e.tripId, RouteFact(e.pattern), service, e.direction, e.effectiveFrom, e.effectiveTo)
  }

  function TimeRow(tripId: string, t: StopTime): StopTimeRow {
    StopTimeRow(tripId, StopFact(t.stopId), t.stopSequence, t.arrival, t.departure)
  }

  function EntryError(e: TripEntry): Option<BundleError> {
    if e.tripId == "" then Some(TripIdInvalid)
    else if |e.stopTimes| < 2 then Some(TripTimesInsufficient)
    else if exists t :: t in e.stopTimes && t.stopId == "" then Some(StopIdInvalid)
    else None
  }

  function RowsError(entries: seq<TripEntry>, target: int, n: nat): Option<BundleError>
    requires n <= |entries|
  {
    if n == 0 then None
    else
      var before := RowsError(entries, target, n - 1);
      if before.Some? || !InForce(entries[n - 1], target) then before else EntryError(entries[n - 1])
  }

  function TripRows(service: string, entries: seq<TripEntry>, target: int, n: nat): seq<TripRecord>
    requires n <= |entries|
  {
    if n == 0 then []
    else
      var before := TripRows(service, entries, target, n - 1);
      if InForce(entries[n - 1], target) then before + [TripRow(service, entries[n - 1])] else before
  }

  function TimesOf(e: TripEntry): (r: seq<StopTimeRow>)
    ensures |r| == |e.stopTimes| && forall i :: 0 <= i < |r| ==> r[i] == TimeRow(e.tripId, e.stopTimes[i])
  {
    seq(|e.stopTimes|, i requires 0 <= i < |e.stopTimes| => TimeRow(e.tripId, e.stopTimes[i]))
  }

  function TimeRows(entries: seq<TripEntry>, target: int, n: nat): seq<StopTimeRow>
    requires n <= |entries|
  {
    if n == 0 then []
    else
      var before := TimeRows(entries, target, n - 1);
      if InForce(entries[n - 1], target) then before + TimesOf(entries[n - 1]) else before
  }

  // The normalisers keep a row or reject it; one rejection fails the section.

  function NormalStop(row: RouteStopRecord): Option<RouteStopRecord> {
    var route, stop, direction := RequiredText(row.route), RequiredText(row.stop), RequiredText(row.direction);
    if row.sequence <= 0 || route.None? || stop.None? || direction.None? then None
    else Some(RouteStopRecord(route.value, stop.value, row.sequence, direction.value))
  }

  function NormalTrip(row: TripRecord): Option<TripRecord> {
    var id, route, service, direction :=
      RequiredText(row.tripId), RequiredText(row.route), RequiredText(row.service), RequiredText(row.direction);
    if id.None? || row.effectiveTo < row.effectiveFrom || route.None? || service.None? || direction.None? then None
    else Some(TripRecord(id.value, route.value, service.value, direction.value, row.effectiveFrom, row.effectiveTo))
  }

  function NormalTime(row: StopTimeRow): Option<StopTimeRecord> {
    var id, stop := RequiredText(row.tripId), RequiredText(row.stop);
    var arrival, departure := ServiceTime(row.arrival), ServiceTime(row.departure);
    if id.None? || stop.None? || row.stopSequence == 0 || arrival.None? || departure.None? then None
    else if departure.value.1 * DAY + departure.value.0.OfDay() < arrival.value.1 * DAY + arrival.value.0.OfDay() then None
    else Some(StopTimeRecord(id.value, stop.value, row.stopSequence, arrival.value.0, arrival.value.1, departure.value.0, departure.value.1))
  }

  function NormalAll<R, T>(normal: R -> Option<T>, rows: seq<R>): (r: Option<seq<T>>)
    ensures r.Some? <==> forall i :: 0 <= i < |rows| ==> normal(rows[i]).Some?
    ensures r.Some? ==> |r.value| == |rows| && forall i :: 0 <= i < |rows| ==> normal(rows[i]) == Some(r.value[i])
  {
    if rows == [] then Some([])
    else
      var front, last := NormalAll(normal, rows[..|rows| - 1]), normal(rows[|rows| - 1]);
      assert forall i :: 0 <= i < |rows| - 1 ==> rows[..|rows| - 1][i] == rows[i];
      if front.None? || last.None? then None else Some(front.value + [last.value])
  }

  function StopRows(stops: seq<RouteStop>): (r: seq<RouteStopRecord>)
    ensures |r| == |stops| && forall i :: 0 <= i < |r| ==> r[i] == StopRow(stops[i])
  {
    seq(|stops|, i requires 0 <= i < |stops| => StopRow(stops[i]))
  }

  /** The records of the three sections, when no row is rejected. */
  function Normalised(stops: seq<RouteStopRecord>, service: string, trips: seq<TripRecord>, times: seq<StopTimeRow>): Result<Bundle, BundleError> {
    var s, t, u := NormalAll(NormalStop, stops), NormalAll(NormalTrip, trips), NormalAll(NormalTime, times);
    if s.None? then Err(RouteStopsRejected)
    else if t.None? then Err(TripsRejected)
    else if u.None? then Err(StopTimesRejected)
    else Ok(Bundle(s.value, [service], t.value, u.value))
  }

  /** `build_weekday_timetable_bundle`, for a service-day manifest without exceptions. */
  function BuildBundle(dates: Dates, manifest: Manifest, reviewed: bool, target: int): Result<Bundle, BundleError> {
    var stops, entries, service := manifest.stops, manifest.trips, ServiceId(dates, target);
    if IsoWeekday(target) > 5 then Err(NotWeekday)
    else if !reviewed then Err(NoticeReviewMissing)
    else if stops == [] || entries == [] then Err(RowsEmpty)
    else if exists s :: s in stops && !HasIds(s) then Err(RouteStopIdInvalid)
    else if RowsError(entries, target, |entries|).Some? then Err(RowsError(entries, target, |entries|).value)
    else if TripRows(service, entries, target, |entries|) == [] then Err(DateNotCovered)
    else Normalised(StopRows(stops), service, TripRows(service, entries, target, |entries|), TimeRows(entries, target, |entries|))
  }

  // ------------------------------------------------------------------ building the rows, as it runs

  lemma {:induction false} RowsErrorStays(entries: seq<TripEntry>, target: int, n: nat, m: nat)
    requires n <= m <= |entries| && RowsError(entries, target, n).Some?
    ensures RowsError(entries, target, m) == RowsError(entries, target, n)
  {
    if n < m {
      RowsErrorStays(entries, target, n, m - 1);
    }
  }

  method CheckEntry(e: TripEntry) returns (error: Option<BundleError>, rows: seq<StopTimeRow>)
    ensures error == EntryError(e)
    ensures error.None? ==> rows == TimesOf(e)
  {
    error, rows := None, [];
    if e.tripId == "" {
      return Some(TripIdInvalid), [];
    }
    if |e.stopTimes| < 2 {
      return Some(TripTimesInsufficient), [];
    }
    for i := 0 to |e.stopTimes|
      invariant rows == TimesOf(e)[..i]
      invariant forall k :: 0 <= k < i ==> e.stopTimes[k].stopId != ""
    {
      if e.stopTimes[i].stopId == "" {
        assert e.stopTimes[i] in e.stopTimes;
        return Some(StopIdInvalid), [];
      }
      rows := rows + [TimeRow(e.tripId, e.stopTimes[i])];
    }
  }

  method CollectRows(service: string, entries: seq<TripEntry>, target: int)
    returns (error: Option<BundleError>, trips: seq<TripRecord>, times: seq<StopTimeRow>)
    ensures error == RowsError(entries, target, |entries|)
    ensures error.None? ==> trips == TripRows(service, entries, target, |entries|) && times == TimeRows(entries, target, |entries|)
  {
    error, trips, times := None, [], [];
    for n := 0 to |entries|
      invariant error.None? && RowsError(entries, target, n) == None
      invariant trips == TripRows(service, entries, target, n) && times == TimeRows(entries, target, n)
    {
      if !InForce(entries[n], target) {
        continue;
      }
      var failed, rows := CheckEntry(entries[n]);
      if failed.Some? {
        RowsErrorStays(entries, target, n + 1, |entries|);
        error := failed;
        return;
      }
      trips := trips + [TripRow(service, entries[n])];
      times := times + rows;
    }
  }

  method CollectStops(stops: seq<RouteStop>) returns (allIds: bool, rows: seq<RouteStopRecord>)
    ensures allIds <==> forall s :: s in stops ==> HasIds(s)
    ensures allIds ==> rows == StopRows(stops)
  {
    allIds, rows := true, [];
    for i := 0 to |stops|
      invariant rows == StopRows(stops)[..i] && allIds
      invariant forall k :: 0 <= k < i ==> HasIds(stops[k])
    {
      if !HasIds(stops[i]) {
        assert stops[i] in stops;
        return false, [];
      }
      rows := rows + [StopRow(stops[i])];
    }
  }
}
