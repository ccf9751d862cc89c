/** What building a manifest and a bundle answers, written out: the rows of each section, and which
    error is reported when none is built. */
module TimetableBundleMeaning {
  import opened Common
  import opened Decimals
  import opened Ordering
  import opened TimetableClock
  import opened TripChoice
  import opened TripMapping
  import opened TripMeaning
  import opened TripRunMeaning
  import opened TimetableBundle
  import opened TimetableMeaning

  // ------------------------------------------------------------------ the manifest

  /** Trip `i` of the manifest. */
  ghost predicate IsEntry(dates: Dates, m: Mapping, i: nat, e: TripEntry) {
    && e.tripId == "weekday-" + dates.compact(m.effectiveTo) + "-" + m.routeNumber + "-" + Padded(i + 1, 5)
    && e.pattern == m.pattern && e.direction == m.direction
    && e.effectiveFrom == m.effectiveFrom && e.effectiveTo == m.effectiveTo && e.stopTimes == m.stopTimes
  }

  ghost predicate HasTrips(mappings: seq<Mapping>, pattern: string) {
    exists i :: 0 <= i < |mappings| && mappings[i].pattern == pattern
  }

  ghost predicate HasStops(stops: seq<RouteStop>, pattern: string) {
    exists i :: 0 <= i < |stops| && stops[i].pattern == pattern
  }

  /** The stops of the mapped patterns by pattern and sequence; equal ones as they were given. */
  ghost predicate AreTheStops(stops: seq<RouteStop>, mappings: seq<Mapping>, at: seq<nat>, chosen: seq<RouteStop>) {
    && |chosen| == |at|
    && (forall i :: 0 <= i < |at| ==> at[i] < |stops| && chosen[i] == stops[at[i]] && HasTrips(mappings, chosen[i].pattern))
    && (forall k :: 0 <= k < |stops| && HasTrips(mappings, stops[k].pattern) ==> k in at)
    && (forall i, j :: 0 <= i < j < |at| ==> at[i] != at[j] && InPlace(chosen[i], chosen[j], at[i], at[j]))
  }

  ghost predicate InPlace(a: RouteStop, b: RouteStop, i: nat, j: nat) {
    || ComesBefore(a.pattern, b.pattern)
    || (a.pattern == b.pattern && a.sequence < b.sequence)
    || (a.pattern == b.pattern && a.sequence == b.sequence && i < j)
  }

  lemma {:induction false} PatternOrder()
    ensures StrictOrder(PatternThenSequence)
  {
    TextsAreOrdered();
    forall a: RouteStop, b: RouteStop, c: RouteStop | PatternThenSequence(a, b) ensures PatternThenSequence(a, c) || PatternThenSequence(c, b) {
      PatternBetween(a, b, c);
    }
  }

  lemma {:induction false} PatternBetween(a: RouteStop, b: RouteStop, c: RouteStop)
    requires PatternThenSequence(a, b)
    ensures PatternThenSequence(a, c) || PatternThenSequence(c, b)
  {
    TextsCompare(a.pattern, c.pattern);
    TextsCompare(c.pattern, b.pattern);
    if TextLess(c.pattern, a.pattern) {
      if TextLess(a.pattern, b.pattern) {
        TextsChain(c.pattern, a.pattern, b.pattern);
      }
    }
  }

  lemma {:induction false} MappedIff(mappings: seq<Mapping>, pattern: string)
    ensures pattern in MappedPatterns(mappings) <==> HasTrips(mappings, pattern)
  {
    if pattern in MappedPatterns(mappings) {
      var m :| m in mappings && m.pattern == pattern;
      var i :| 0 <= i < |mappings| && mappings[i] == m;
    }
  }

  lemma {:induction false} NotBehind(a: RouteStop, b: RouteStop)
    requires !PatternThenSequence(b, a)
    ensures ComesBefore(a.pattern, b.pattern) || (a.pattern == b.pattern && a.sequence <= b.sequence)
  {
    TextsCompare(a.pattern, b.pattern);
    TextLessMeans(a.pattern, b.pattern);
  }

  lemma {:induction false} StopsMean(stops: seq<RouteStop>, mappings: seq<Mapping>) returns (at: seq<nat>)
    ensures AreTheStops(stops, mappings, at, Sort(PatternThenSequence, SelectedStops(stops, MappedPatterns(mappings))))
  {
    var patterns := MappedPatterns(mappings);
    var keep := (s: RouteStop) => s.pattern in patterns;
    PatternOrder();
    at := SortedFilterMeans(keep, PatternThenSequence, stops);
    var chosen := Sort(PatternThenSequence, SelectedStops(stops, patterns));
    forall p ensures p in patterns <==> HasTrips(mappings, p) {
      MappedIff(mappings, p);
    }
    StopsArePlaced(at, chosen);
  }

  lemma {:induction false} StopsArePlaced(at: seq<nat>, chosen: seq<RouteStop>)
    requires |at| == |chosen|
    requires forall i, j :: 0 <= i < j < |at| ==> at[i] != at[j] && (PatternThenSequence(chosen[i], chosen[j]) || (!PatternThenSequence(chosen[j], chosen[i]) && at[i] < at[j]))
    ensures forall i, j :: 0 <= i < j < |at| ==> at[i] != at[j] && InPlace(chosen[i], chosen[j], at[i], at[j])
  {
    forall i, j | 0 <= i < j < |at| ensures at[i] != at[j] && InPlace(chosen[i], chosen[j], at[i], at[j]) {
      TextLessMeans(chosen[i].pattern, chosen[j].pattern);
      if !PatternThenSequence(chosen[i], chosen[j]) {
        NotBehind(chosen[i], chosen[j]);
      }
    }
  }

  /** Every mapped pattern has a stop. */
  lemma {:induction false} CompleteIff(stops: seq<RouteStop>, mappings: seq<Mapping>)
    ensures (set s | s in SelectedStops(stops, MappedPatterns(mappings)) :: s.pattern) == MappedPatterns(mappings)
            <==> forall i :: 0 <= i < |mappings| ==> HasStops(stops, mappings[i].pattern)
  {
    var patterns := MappedPatterns(mappings);
    var selected := SelectedStops(stops, patterns);
    var found := set s | s in selected :: s.pattern;
    forall p ensures p in found <==> p in patterns && HasStops(stops, p) {
      if p in patterns && HasStops(stops, p) {
        var i :| 0 <= i < |stops| && stops[i].pattern == p;
        assert stops[i] in selected;
      }
      if p in found {
        var s :| s in selected && s.pattern == p;
        var i :| 0 <= i < |stops| && stops[i] == s;
      }
    }
    if found == patterns {
      forall i | 0 <= i < |mappings| ensures HasStops(stops, mappings[i].pattern) {
        assert mappings[i] in mappings && mappings[i].pattern in patterns;
      }
    }
    if forall i :: 0 <= i < |mappings| ==> HasStops(stops, mappings[i].pattern) {
      forall p | p in patterns ensures p in found {
        MappedIff(mappings, p);
      }
    }
  }

  /** Main result: the manifest of the mapped trips, or the error in its place. */
  lemma {:induction false} ManifestMeans(dates: Dates, snapshot: string, stops: seq<RouteStop>, mappings: seq<Mapping>) returns (at: seq<nat>)
    ensures var built := BuildManifest(dates, snapshot, stops, mappings);
            && (built == Err(MappingEmpty) <==> Spaces(snapshot) || mappings == [])
            && (built == Err(RouteStopsIncomplete) <==>
                  !Spaces(snapshot) && mappings != [] && exists i :: 0 <= i < |mappings| && !HasStops(stops, mappings[i].pattern))
            && (built.Err? ==> built.error == MappingEmpty || built.error == RouteStopsIncomplete)
            && (built.Ok? ==>
                  && AreTheStops(stops, mappings, at, built.value.stops)
                  && |built.value.trips| == |mappings|
                  && forall i :: 0 <= i < |mappings| ==> IsEntry(dates, mappings[i], i, built.value.trips[i]))
  {
    StripMeans(snapshot);
    CompleteIff(stops, mappings);
    at := StopsMean(stops, mappings);
  }

  // ------------------------------------------------------------------ the rows a bundle is built from

  ghost predicate Runs(e: TripEntry, target: int) {
    e.effectiveFrom <= target && target <= e.effectiveTo
  }

  /** Why a trip in force stops the bundle. */
  ghost predicate IsFault(e: TripEntry, error: BundleError) {
    if e.tripId == "" then error == TripIdInvalid
    else if |e.stopTimes| < 2 then error == TripTimesInsufficient
    else error == StopIdInvalid && exists i :: 0 <= i < |e.stopTimes| && e.stopTimes[i].stopId == ""
  }

  ghost predicate Faulty(entries: seq<TripEntry>, target: int, k: nat) {
    k < |entries| && Runs(entries[k], target) && exists error :: IsFault(entries[k], error)
  }

  ghost predicate FirstFaulty(entries: seq<TripEntry>, target: int, k: nat) {
    Faulty(entries, target, k) && forall j: nat :: j < k ==> !Faulty(entries, target, j)
  }

  lemma {:induction false} EntryErrorMeans(e: TripEntry)
    ensures EntryError(e).Some? ==> IsFault(e, EntryError(e).value)
    ensures EntryError(e).None? ==> forall error :: !IsFault(e, error)
  {
    if t :| t in e.stopTimes && t.stopId == "" {
      var i :| 0 <= i < |e.stopTimes| && e.stopTimes[i] == t;
      assert e.stopTimes[i].stopId == "";
    } else {
      forall i | 0 <= i < |e.stopTimes| ensures e.stopTimes[i].stopId != "" {
        assert e.stopTimes[i] in e.stopTimes;
      }
    }
  }

  lemma {:induction false} RowsErrorMeans(entries: seq<TripEntry>, target: int, n: nat) returns (k: nat)
    requires n <= |entries|
    ensures RowsError(entries, target, n) == None ==> forall j: nat :: j < n ==> !Faulty(entries, target, j)
    ensures RowsError(entries, target, n).Some? ==>
              k < n && FirstFaulty(entries, target, k) && IsFault(entries[k], RowsError(entries, target, n).value)
  {
    k := 0;
    if n > 0 {
      k := RowsErrorMeans(entries, target, n - 1);
      if RowsError(entries, target, n - 1) == None {
        k := n - 1;
        EntryErrorMeans(entries[n - 1]);
      }
    }
  }

  /** The trips in force among the first `n`, by position. */
  ghost predicate InForceAt(entries: seq<TripEntry>, target: int, n: nat, live: seq<nat>) {
    && (forall i, j :: 0 <= i < j < |live| ==> live[i] < live[j])
    && (forall k: nat :: k in live <==> k < n && k < |entries| && Runs(entries[k], target))
  }

  /** A trip row: the ids, the route as a fact, the service of the day and the dates. */
  ghost predicate IsTripRow(dates: Dates, target: int, e: TripEntry, row: TripRecord) {
    && row.tripId == e.tripId && row.route == "tago.bus-route:" + e.pattern && row.service == "weekday:" + dates.iso(target)
    && row.direction == e.direction && row.effectiveFrom == e.effectiveFrom && row.effectiveTo == e.effectiveTo
  }

  lemma {:induction false} TripRowsMean(dates: Dates, entries: seq<TripEntry>, target: int, n: nat) returns (live: seq<nat>)
    requires n <= |entries|
    ensures InForceAt(entries, target, n, live)
    ensures var rows := TripRows(ServiceId(dates, target), entries, target, n);
            |rows| == |live| && forall i :: 0 <= i < |rows| ==> live[i] < n && IsTripRow(dates, target, entries[live[i]], rows[i])
  {
    live := [];
    if n > 0 {
      live := TripRowsMean(dates, entries, target, n - 1);
      if InForce(entries[n - 1], target) {
        forall i | 0 <= i < |live| ensures live[i] < n - 1 {
          assert live[i] in live;
        }
        live := live + [n - 1];
      }
    }
  }

  /** A stop time of the bundle: trip `entry` of the manifest, its stop time `index`. */
  datatype Cell = Cell(entry: nat, index: nat)

  ghost predicate IsCell(entries: seq<TripEntry>, target: int, n: nat, c: Cell) {
    c.entry < n && c.entry < |entries| && Runs(entries[c.entry], target) && c.index < |entries[c.entry].stopTimes|
  }

  predicate CellBefore(c: Cell, d: Cell) {
    c.entry < d.entry || (c.entry == d.entry && c.index < d.index)
  }

  /** Each stop time of the trips in force once, trip by trip. */
  ghost predicate AreCells(entries: seq<TripEntry>, target: int, n: nat, cells: seq<Cell>) {
    && (forall i, j :: 0 <= i < j < |cells| ==> CellBefore(cells[i], cells[j]))
    && (forall c :: c in cells <==> IsCell(entries, target, n, c))
  }

  ghost predicate IsTimeRow(entries: seq<TripEntry>, c: Cell, row: StopTimeRow) {
    && c.entry < |entries| && c.index < |entries[c.entry].stopTimes|
    && row.tripId == entries[c.entry].tripId && row.stop == "tago.bus-stop:" + entries[c.entry].stopTimes[c.index].stopId
    && row.stopSequence == entries[c.entry].stopTimes[c.index].stopSequence
    && row.arrival == entries[c.entry].stopTimes[c.index].arrival && row.departure == entries[c.entry].stopTimes[c.index].departure
  }

  ghost predicate AreTimeRows(entries: seq<TripEntry>, cells: seq<Cell>, rows: seq<StopTimeRow>) {
    |rows| == |cells| && forall i :: 0 <= i < |rows| ==> IsTimeRow(entries, cells[i], rows[i])
  }

  function CellsOf(k: nat, m: nat): (r: seq<Cell>)
    ensures |r| == m && forall i :: 0 <= i < m ==> r[i] == Cell(k, i)
  {
    seq(m, i requires 0 <= i < m => Cell(k, i))
  }

  lemma {:induction false} CellsJoin(entries: seq<TripEntry>, target: int, k: nat, cells: seq<Cell>)
    requires k < |entries| && Runs(entries[k], target) && AreCells(entries, target, k, cells)
    ensures AreCells(entries, target, k + 1, cells + CellsOf(k, |entries[k].stopTimes|))
  {
    var own := CellsOf(k, |entries[k].stopTimes|);
    var all := cells + own;
    forall i, j | 0 <= i < j < |all| ensures CellBefore(all[i], all[j]) {
      if i < |cells| && |cells| <= j {
        assert all[i] in cells;
      }
    }
    forall c ensures c in all <==> IsCell(entries, target, k + 1, c) {
      if c.entry == k && IsCell(entries, target, k + 1, c) {
        assert own[c.index] == c;
      }
    }
  }

  lemma {:induction false} TimeRowsMean(entries: seq<TripEntry>, target: int, n: nat) returns (cells: seq<Cell>)
    requires n <= |entries|
    ensures AreCells(entries, target, n, cells)
    ensures AreTimeRows(entries, cells, TimeRows(entries, target, n))
  {
    cells := [];
    if n > 0 {
      cells := TimeRowsMean(entries, target, n - 1);
      if InForce(entries[n - 1], target) {
        CellsJoin(entries, target, n - 1, cells);
        cells := cells + CellsOf(n - 1, |entries[n - 1].stopTimes|);
      }
    }
  }

  // ------------------------------------------------------------------ the records of the rows

  /** The record of a route stop; there is none without a positive sequence and a direction. */
  ghost predicate IsStopRecord(s: RouteStop, rec: RouteStopRecord) {
    && TrimsTo("tago.bus-route:" + s.pattern, rec.route) && TrimsTo("tago.bus-stop:" + s.stopId, rec.stop)
    && rec.sequence == s.sequence && s.sequence > 0 && TrimsTo(s.direction, rec.direction)
  }

  ghost predicate StopRefused(s: RouteStop) {
    s.sequence <= 0 || Spaces(s.direction)
  }

  ghost predicate IsTripRecord(dates: Dates, target: int, e: TripEntry, rec: TripRecord) {
    && TrimsTo(e.tripId, rec.tripId) && TrimsTo("tago.bus-route:" + e.pattern, rec.route)
    && TrimsTo("weekday:" + dates.iso(target), rec.service) && TrimsTo(e.direction, rec.direction)
    && rec.effectiveFrom == e.effectiveFrom && rec.effectiveTo == e.effectiveTo
  }

  ghost predicate TripRefused(e: TripEntry) {
    Spaces(e.tripId) || Spaces(e.direction)
  }

  ghost predicate Unreadable(text: string) {
    forall hour, minute :: !ReadsAs(text, hour, minute)
  }

  /** Both clocks can be read and the departure is earlier. */
  ghost predicate LeavesEarly(t: StopTime) {
    exists h, m, hour, minute :: ReadsAs(t.arrival, h, m) && ReadsAs(t.departure, hour, minute) && 60 * hour + minute < 60 * h + m
  }

  ghost predicate IsTimeRecord(e: TripEntry, t: StopTime, rec: StopTimeRecord) {
    && TrimsTo(e.tripId, rec.tripId) && TrimsTo("tago.bus-stop:" + t.stopId, rec.stop)
    && rec.stopSequence == t.stopSequence && t.stopSequence > 0
    && ReadsAs(t.arrival, 24 * rec.arrivalDay + rec.arrivalAt.hour, rec.arrivalAt.minute)
    && ReadsAs(t.departure, 24 * rec.departureDay + rec.departureAt.hour, rec.departureAt.minute)
    && !LeavesEarly(t)
  }

  ghost predicate TimeRefused(e: TripEntry, t: StopTime) {
    Spaces(e.tripId) || t.stopSequence == 0 || Unreadable(t.arrival) || Unreadable(t.departure) || LeavesEarly(t)
  }

  lemma {:induction false} RequiredMeans(text: string)
    ensures RequiredText(text).None? <==> Spaces(text)
    ensures RequiredText(text).Some? ==> TrimsTo(text, RequiredText(text).value)
  {
    StripMeans(text);
  }

  lemma {:induction false} PrefixedIsNotBlank(prefix: string, text: string)
    requires prefix != "" && !Blank(prefix[0])
    ensures !Spaces(prefix + text)
  {
    assert (prefix + text)[0] == prefix[0];
  }

  lemma {:induction false} StopRecordMeans(s: RouteStop)
    ensures NormalStop(StopRow(s)).None? <==> StopRefused(s)
    ensures NormalStop(StopRow(s)).Some? ==> IsStopRecord(s, NormalStop(StopRow(s)).value)
  {
    PrefixedIsNotBlank("tago.bus-route:", s.pattern);
    PrefixedIsNotBlank("tago.bus-stop:", s.stopId);
    RequiredMeans("tago.bus-route:" + s.pattern);
    RequiredMeans("tago.bus-stop:" + s.stopId);
    RequiredMeans(s.direction);
  }

  lemma {:induction false} TripRecordMeans(dates: Dates, target: int, e: TripEntry, row: TripRecord)
    requires IsTripRow(dates, target, e, row) && Runs(e, target)
    ensures NormalTrip(row).None? <==> TripRefused(e)
    ensures NormalTrip(row).Some? ==> IsTripRecord(dates, target, e, NormalTrip(row).value)
  {
    PrefixedIsNotBlank("tago.bus-route:", e.pattern);
    PrefixedIsNotBlank("weekday:", dates.iso(target));
    RequiredMeans("tago.bus-route:" + e.pattern);
    RequiredMeans("weekday:" + dates.iso(target));
    RequiredMeans(e.tripId);
    RequiredMeans(e.direction);
  }

  lemma {:induction false} ClockMeans(text: string)
    ensures ServiceTime(text).None? <==> Unreadable(text)
    ensures ServiceTime(text).Some? ==>
              forall hour, minute :: ReadsAs(text, hour, minute)
                                     <==> hour == 24 * ServiceTime(text).value.1 + ServiceTime(text).value.0.hour && minute == ServiceTime(text).value.0.minute
  {
    forall hour, minute
      ensures ReadsAs(text, hour, minute)
              <==> ServiceTime(text).Some? && hour == 24 * ServiceTime(text).value.1 + ServiceTime(text).value.0.hour
                   && minute == ServiceTime(text).value.0.minute
    {
      ServiceTimeMeans(text, hour, minute);
    }
    if ServiceTime(text).Some? {
      assert ReadsAs(text, 24 * ServiceTime(text).value.1 + ServiceTime(text).value.0.hour, ServiceTime(text).value.0.minute);
    }
  }

  lemma {:induction false} TimeRecordMeans(e: TripEntry, t: StopTime, row: StopTimeRow)
    requires row.tripId == e.tripId && row.stop == "tago.bus-stop:" + t.stopId && row.stopSequence == t.stopSequence
    requires row.arrival == t.arrival && row.departure == t.departure
    ensures NormalTime(row).None? <==> TimeRefused(e, t)
    ensures NormalTime(row).Some? ==> IsTimeRecord(e, t, NormalTime(row).value)
  {
    PrefixedIsNotBlank("tago.bus-stop:", t.stopId);
    RequiredMeans("tago.bus-stop:" + t.stopId);
    RequiredMeans(e.tripId);
    ClockMeans(t.arrival);
    ClockMeans(t.departure);
    var arrival, departure := ServiceTime(row.arrival), ServiceTime(row.departure);
    if arrival.Some? && departure.Some? {
      var h, m, hour, minute := 24 * arrival.value.1 + arrival.value.0.hour, arrival.value.0.minute,
                                24 * departure.value.1 + departure.value.0.hour, departure.value.0.minute;
      assert ReadsAs(t.arrival, h, m) && ReadsAs(t.departure, hour, minute);
      assert 60 * h + m == arrival.value.1 * DAY + arrival.value.0.OfDay();
      assert 60 * hour + minute == departure.value.1 * DAY + departure.value.0.OfDay();
      assert LeavesEarly(t) <==> 60 * hour + minute < 60 * h + m;
    }
  }

  // ------------------------------------------------------------------ the bundle

  /** The bundle holds a record for every stop, every trip in force and each of its stop times. */
  ghost predicate Holds(dates: Dates, manifest: Manifest, target: int, live: seq<nat>, cells: seq<Cell>, b: Bundle) {
    && b.services == ["weekday:" + dates.iso(target)]
    && |b.routeStops| == |manifest.stops| && (forall i :: 0 <= i < |b.routeStops| ==> IsStopRecord(manifest.stops[i], b.routeStops[i]))
    && |b.trips| == |live|
    && (forall i :: 0 <= i < |live| ==> live[i] < |manifest.trips| && IsTripRecord(dates, target, manifest.trips[live[i]], b.trips[i]))
    && |b.stopTimes| == |cells|
    && (forall i :: 0 <= i < |cells| ==> IsCell(manifest.trips, target, |manifest.trips|, cells[i])
                                         && IsTimeRecord(manifest.trips[cells[i].entry], manifest.trips[cells[i].entry].stopTimes[cells[i].index], b.stopTimes[i]))
  }

  ghost predicate SomeTimeRefused(entries: seq<TripEntry>, cells: seq<Cell>) {
    exists i :: 0 <= i < |cells| && cells[i].entry < |entries| && cells[i].index < |entries[cells[i].entry].stopTimes|
                && TimeRefused(entries[cells[i].entry], entries[cells[i].entry].stopTimes[cells[i].index])
  }

  /** The answer to the rows that passed the checks: the first section with a refused row, or the
      bundle. */
  ghost predicate Sections(dates: Dates, manifest: Manifest, target: int, live: seq<nat>, cells: seq<Cell>, built: Result<Bundle, BundleError>)
    requires InForceAt(manifest.trips, target, |manifest.trips|, live)
  {
    if exists i :: 0 <= i < |manifest.stops| && StopRefused(manifest.stops[i]) then built == Err(RouteStopsRejected)
    else if exists k: nat :: k in live && TripRefused(manifest.trips[k]) then built == Err(TripsRejected)
    else if SomeTimeRefused(manifest.trips, cells) then built == Err(StopTimesRejected)
    else built.Ok? && Holds(dates, manifest, target, live, cells, built.value)
  }

  /** The checks of the build in their order. */
  ghost predicate Answer(dates: Dates, manifest: Manifest, reviewed: bool, target: int, live: seq<nat>, cells: seq<Cell>, built: Result<Bundle, BundleError>)
    requires InForceAt(manifest.trips, target, |manifest.trips|, live)
  {
    if target % 7 == 6 || target % 7 == 0 then built == Err(NotWeekday)
    else if !reviewed then built == Err(NoticeReviewMissing)
    else if |manifest.stops| == 0 || |manifest.trips| == 0 then built == Err(RowsEmpty)
    else if exists i :: 0 <= i < |manifest.stops| && (manifest.stops[i].pattern == "" || manifest.stops[i].stopId == "") then
      built == Err(RouteStopIdInvalid)
    else if exists k: nat :: Faulty(manifest.trips, target, k) then
      built.Err? && exists k: nat :: FirstFaulty(manifest.trips, target, k) && IsFault(manifest.trips[k], built.error)
    else if live == [] then built == Err(DateNotCovered)
    else Sections(dates, manifest, target, live, cells, built)
  }

  lemma {:induction false} StopSection(stops: seq<RouteStop>)
    ensures NormalAll(NormalStop, StopRows(stops)).None? <==> exists i :: 0 <= i < |stops| && StopRefused(stops[i])
    ensures NormalAll(NormalStop, StopRows(stops)).Some? ==>
              forall i :: 0 <= i < |stops| ==> IsStopRecord(stops[i], NormalAll(NormalStop, StopRows(stops)).value[i])
  {
    var rows := StopRows(stops);
    forall i | 0 <= i < |stops|
      ensures NormalStop(rows[i]).None? <==> StopRefused(stops[i])
      ensures NormalStop(rows[i]).Some? ==> IsStopRecord(stops[i], NormalStop(rows[i]).value)
    {
      StopRecordMeans(stops[i]);
    }
  }

  lemma {:induction false} TripSection(dates: Dates, entries: seq<TripEntry>, target: int, live: seq<nat>, rows: seq<TripRecord>)
    requires InForceAt(entries, target, |entries|, live) && |rows| == |live|
    requires forall i :: 0 <= i < |rows| ==> live[i] < |entries| && IsTripRow(dates, target, entries[live[i]], rows[i])
    ensures NormalAll(NormalTrip, rows).None? <==> exists k: nat :: k in live && TripRefused(entries[k])
    ensures NormalAll(NormalTrip, rows).Some? ==>
              forall i :: 0 <= i < |rows| ==> IsTripRecord(dates, target, entries[live[i]], NormalAll(NormalTrip, rows).value[i])
  {
    forall i | 0 <= i < |rows|
      ensures live[i] in live
      ensures NormalTrip(rows[i]).None? <==> TripRefused(entries[live[i]])
      ensures NormalTrip(rows[i]).Some? ==> IsTripRecord(dates, target, entries[live[i]], NormalTrip(rows[i]).value)
    {
      assert live[i] in live;
      TripRecordMeans(dates, target, entries[live[i]], rows[i]);
    }
    if k: nat :| k in live && TripRefused(entries[k]) {
      var i :| 0 <= i < |live| && live[i] == k;
      assert NormalTrip(rows[i]).None?;
    }
  }

  lemma {:induction false} TimeSection(entries: seq<TripEntry>, cells: seq<Cell>, rows: seq<StopTimeRow>)
    requires AreTimeRows(entries, cells, rows)
    ensures NormalAll(NormalTime, rows).None? <==> SomeTimeRefused(entries, cells)
    ensures NormalAll(NormalTime, rows).Some? ==>
              forall i :: 0 <= i < |rows| ==>
                IsTimeRecord(entries[cells[i].entry], entries[cells[i].entry].stopTimes[cells[i].index], NormalAll(NormalTime, rows).value[i])
  {
    forall i | 0 <= i < |rows|
      ensures NormalTime(rows[i]).None? <==> TimeRefused(entries[cells[i].entry], entries[cells[i].entry].stopTimes[cells[i].index])
      ensures NormalTime(rows[i]).Some? ==>
                IsTimeRecord(entries[cells[i].entry], entries[cells[i].entry].stopTimes[cells[i].index], NormalTime(rows[i]).value)
    {
      assert IsTimeRow(entries, cells[i], rows[i]);
      TimeRecordMeans(entries[cells[i].entry], entries[cells[i].entry].stopTimes[cells[i].index], rows[i]);
    }
  }

  lemma {:induction false} SectionsMean(dates: Dates, manifest: Manifest, target: int, live: seq<nat>, cells: seq<Cell>, trips: seq<TripRecord>, times: seq<StopTimeRow>)
    requires InForceAt(manifest.trips, target, |manifest.trips|, live) && |trips| == |live|
    requires forall i :: 0 <= i < |trips| ==> live[i] < |manifest.trips| && IsTripRow(dates, target, manifest.trips[live[i]], trips[i])
    requires AreCells(manifest.trips, target, |manifest.trips|, cells) && AreTimeRows(manifest.trips, cells, times)
    ensures Sections(dates, manifest, target, live, cells, Normalised(StopRows(manifest.stops), ServiceId(dates, target), trips, times))
  {
    StopSection(manifest.stops);
    TripSection(dates, manifest.trips, target, live, trips);
    TimeSection(manifest.trips, cells, times);
    forall i | 0 <= i < |cells| ensures IsCell(manifest.trips, target, |manifest.trips|, cells[i]) {
      assert cells[i] in cells;
    }
  }

  lemma {:induction false} IdsIff(stops: seq<RouteStop>)
    ensures (exists s :: s in stops && !HasIds(s)) <==> exists i :: 0 <= i < |stops| && (stops[i].pattern == "" || stops[i].stopId == "")
  {
    if s :| s in stops && !HasIds(s) {
      var i :| 0 <= i < |stops| && stops[i] == s;
      assert stops[i].pattern == "" || stops[i].stopId == "";
    }
    if i :| 0 <= i < |stops| && (stops[i].pattern == "" || stops[i].stopId == "") {
      assert stops[i] in stops && !HasIds(stops[i]);
    }
  }

  /** Main result: building a bundle answers as the checks say, and a bundle holds the records of
      just the trips in force. */
  lemma {:induction false} BundleMeans(dates: Dates, manifest: Manifest, reviewed: bool, target: int) returns (live: seq<nat>, cells: seq<Cell>)
    ensures InForceAt(manifest.trips, target, |manifest.trips|, live) && AreCells(manifest.trips, target, |manifest.trips|, cells)
    ensures Answer(dates, manifest, reviewed, target, live, cells, BuildBundle(dates, manifest, reviewed, target))
  {
    var entries := manifest.trips;
    assert (target - 1) % 7 == if target % 7 == 0 then 6 else target % 7 - 1;
    IdsIff(manifest.stops);
    live := TripRowsMean(dates, entries, target, |entries|);
    cells := TimeRowsMean(entries, target, |entries|);
    var k := RowsErrorMeans(entries, target, |entries|);
    SectionsMean(dates, manifest, target, live, cells, TripRows(ServiceId(dates, target), entries, target, |entries|), TimeRows(entries, target, |entries|));
    BundleAnswer(dates, manifest, reviewed, target, live, cells, k);
  }

  lemma {:induction false} BundleAnswer(dates: Dates, manifest: Manifest, reviewed: bool, target: int, live: seq<nat>, cells: seq<Cell>, k: nat)
    requires InForceAt(manifest.trips, target, |manifest.trips|, live)
    requires IsoWeekday(target) > 5 <==> target % 7 == 6 || target % 7 == 0
    requires (exists s :: s in manifest.stops && !HasIds(s))
             <==> exists i :: 0 <= i < |manifest.stops| && (manifest.stops[i].pattern == "" || manifest.stops[i].stopId == "")
    requires RowsError(manifest.trips, target, |manifest.trips|) == None ==> forall j: nat :: j < |manifest.trips| ==> !Faulty(manifest.trips, target, j)
    requires RowsError(manifest.trips, target, |manifest.trips|).Some? ==>
               FirstFaulty(manifest.trips, target, k) && IsFault(manifest.trips[k], RowsError(manifest.trips, target, |manifest.trips|).value)
    requires |TripRows(ServiceId(dates, target), manifest.trips, target, |manifest.trips|)| == |live|
    requires Sections(dates, manifest, target, live, cells,
                      Normalised(StopRows(manifest.stops), ServiceId(dates, target), TripRows(ServiceId(dates, target), manifest.trips, target, |manifest.trips|),
                                 TimeRows(manifest.trips, target, |manifest.trips|)))
    ensures Answer(dates, manifest, reviewed, target, live, cells, BuildBundle(dates, manifest, reviewed, target))
  {
  }

  /** `build_weekday_timetable_bundle`, for a service-day manifest without exceptions. */
  method BuildWeekdayBundle(dates: Dates, manifest: Manifest, reviewed: bool, target: int) returns (result: Result<Bundle, BundleError>, ghost live: seq<nat>, ghost cells: seq<Cell>)
    ensures result == BuildBundle(dates, manifest, reviewed, target)
    ensures InForceAt(manifest.trips, target, |manifest.trips|, live) && AreCells(manifest.trips, target, |manifest.trips|, cells)
    ensures Answer(dates, manifest, reviewed, target, live, cells, result)
  {
    live, cells := BundleMeans(dates, manifest, reviewed, target);
    if IsoWeekday(target) > 5 {
      return Err(NotWeekday), live, cells;
    }
    if !reviewed {
      return Err(NoticeReviewMissing), live, cells;
    }
    if manifest.stops == [] || manifest.trips == [] {
      return Err(RowsEmpty), live, cells;
    }
    var allIds, rows := CollectStops(manifest.stops);
    if !allIds {
      return Err(RouteStopIdInvalid), live, cells;
    }
    var service := ServiceId(dates, target);
    var error, trips, times := CollectRows(service, manifest.trips, target);
    if error.Some? {
      return Err(error.value), live, cells;
    }
    if trips == [] {
      return Err(DateNotCovered), live, cells;
    }
    return Normalised(rows, service, trips, times), live, cells;
  }
}
