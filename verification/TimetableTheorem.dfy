/** From the workbooks to a valid publication. */
module TimetableTheorem {
  import opened Common
  import opened Decimals
  import opened Ordering
  import opened TimetableClock
  import opened TripChoice
  import opened TripMapping
  import opened TripMappingResults
  import opened TimetableBundle
  import opened TimetableValidation
  import opened TimetablePublication
  import opened TimetableSections
  import opened TimetableEndToEnd

  // ------------------------------------------------------------------ the manifest's stops

  lemma {:induction false} UniqueBySequence(stops: seq<RouteStop>)
    requires WellFormedStops(stops)
    ensures UniqueSequences(stops) && Distinct(stops)
  {
    forall s, t | s in stops && t in stops && s.pattern == t.pattern && s.sequence == t.sequence ensures s == t {
      var i :| 0 <= i < |stops| && stops[i] == s;
      var j :| 0 <= j < |stops| && stops[j] == t;
    }
  }

  function ManifestStops(stops: seq<RouteStop>, mappings: seq<Mapping>): seq<RouteStop> {
    Sort(PatternThenSequence, SelectedStops(stops, MappedPatterns(mappings)))
  }

  lemma {:induction false} ManifestStopsAre(stops: seq<RouteStop>, mappings: seq<Mapping>, s: RouteStop)
    ensures s in ManifestStops(stops, mappings) <==> s in stops && s.pattern in MappedPatterns(mappings)
  {
    SortKeepsElements(PatternThenSequence, SelectedStops(stops, MappedPatterns(mappings)), s);
  }

  lemma {:induction false} ManifestStopsWellFormed(stops: seq<RouteStop>, mappings: seq<Mapping>)
    requires WellFormedStops(stops)
    ensures WellFormedStops(ManifestStops(stops, mappings))
  {
    var chosen := ManifestStops(stops, mappings);
    UniqueBySequence(stops);
    FilterKeepsDistinct((s: RouteStop) => s.pattern in MappedPatterns(mappings), stops);
    SortKeepsDistinct(PatternThenSequence, SelectedStops(stops, MappedPatterns(mappings)));
    forall s | s in chosen ensures s in stops {
      ManifestStopsAre(stops, mappings, s);
    }
    forall i, j | 0 <= i < j < |chosen| ensures chosen[i].pattern != chosen[j].pattern || chosen[i].sequence != chosen[j].sequence {
      assert chosen[i] in chosen && chosen[j] in chosen && chosen[i] != chosen[j];
    }
  }

  // ------------------------------------------------------------------ the entries of genuine trips

  function RowOfTrip(texts: Texts, stops: seq<RouteStop>, m: Mapping, headers: seq<string>, values: seq<string>): seq<Checkpoint> {
    Checkpoints(texts, RouteOf(stops, m.pattern), headers, values, |values|)
  }

  /** The workbook row the trip was read from goes back at most twice. */
  ghost predicate PassesAtMostTwice(texts: Texts, books: seq<Workbook>, stops: seq<RouteStop>, target: int, m: Mapping) {
    forall job :: job in AllJobs(texts, books) && ReadFrom(texts, stops, target, m, job)
      ==> Drops(ClocksOf(RowOfTrip(texts, stops, m, job.headers, job.values))) <= 2
  }

  ghost predicate Genuine(texts: Texts, books: seq<Workbook>, stops: seq<RouteStop>, target: int, m: Mapping) {
    exists job :: job in AllJobs(texts, books) && ReadFrom(texts, stops, target, m, job)
  }

  lemma {:induction false} SameTimesSameDrops(a: seq<Checkpoint>, b: seq<Checkpoint>)
    requires Timed(a) == Timed(b)
    ensures Drops(ClocksOf(a)) <= 2 <==> Drops(ClocksOf(b)) <= 2
  {
    ReadableIff(a);
    ReadableIff(b);
  }

  lemma {:induction false} RouteStopsAreOnPattern(stops: seq<RouteStop>, pattern: string, s: RouteStop)
    ensures s in RouteOf(stops, pattern) <==> s in stops && s.pattern == pattern
  {
    SortKeepsElements(SequenceLess, Filter((s: RouteStop) => s.pattern == pattern, stops), s);
  }

  lemma {:induction false} TimesOfRow(texts: Texts, stops: seq<RouteStop>, target: int, m: Mapping, headers: seq<string>, values: seq<string>)
    requires FromRow(texts, stops, target, m, headers, values)
    ensures m.stopTimes == Timed(RowOfTrip(texts, stops, m, headers, values)) && |RowOfTrip(texts, stops, m, headers, values)| >= 2
    ensures forall c :: c in RowOfTrip(texts, stops, m, headers, values) ==> c.stop in stops && c.stop.pattern == m.pattern
  {
    CheckpointsRise(texts, RouteOf(stops, m.pattern), headers, values, |values|);
    forall c | c in RowOfTrip(texts, stops, m, headers, values) ensures c.stop in stops && c.stop.pattern == m.pattern {
      RouteStopsAreOnPattern(stops, m.pattern, c.stop);
    }
  }

  lemma {:induction false} TripIdIsClean(dates: Dates, m: Mapping, sequence: nat)
    ensures Clean(TripId(dates, m, sequence))
  {
    var digits, id := Padded(sequence, 5), TripId(dates, m, sequence);
    assert id[|id| - 1] == digits[|digits| - 1];
    assert id[0] == 'w';
  }

  /** Whichever row a trip is taken to be read from, it goes back as often. */
  lemma {:induction false} OwnRowDecides(texts: Texts, books: seq<Workbook>, stops: seq<RouteStop>, target: int, m: Mapping, job: Job)
    requires job in AllJobs(texts, books) && ReadFrom(texts, stops, target, m, job)
    ensures Drops(ClocksOf(RowOfTrip(texts, stops, m, job.headers, job.values))) <= 2 <==> PassesAtMostTwice(texts, books, stops, target, m)
  {
    var row := RowOfTrip(texts, stops, m, job.headers, job.values);
    TimesOfRow(texts, stops, target, m, job.headers, job.values);
    forall other | other in AllJobs(texts, books) && ReadFrom(texts, stops, target, m, other)
      ensures Drops(ClocksOf(row)) <= 2 <==> Drops(ClocksOf(RowOfTrip(texts, stops, m, other.headers, other.values))) <= 2
    {
      TimesOfRow(texts, stops, target, m, other.headers, other.values);
      SameTimesSameDrops(row, RowOfTrip(texts, stops, m, other.headers, other.values));
    }
  }

  lemma {:induction false} ReadIsFine(texts: Texts, dates: Dates, stops: seq<RouteStop>, target: int, mappings: seq<Mapping>, k: nat, job: Job)
    requires WellFormedStops(stops) && k < |mappings| && ReadFrom(texts, stops, target, mappings[k], job)
    ensures FineEntry(ManifestStops(stops, mappings), target, EntryFor(dates, mappings[k], k + 1),
                      RowOfTrip(texts, stops, mappings[k], job.headers, job.values))
  {
    var m := mappings[k];
    var row := RowOfTrip(texts, stops, m, job.headers, job.values);
    TimesOfRow(texts, stops, target, m, job.headers, job.values);
    TripIdIsClean(dates, m, k + 1);
    var first := RouteOf(stops, m.pattern)[0];
    RouteStopsAreOnPattern(stops, m.pattern, first);
    assert m in mappings && m.pattern in MappedPatterns(mappings);
    ManifestStopsAre(stops, mappings, first);
    forall c | c in row ensures c.stop in ManifestStops(stops, mappings) {
      ManifestStopsAre(stops, mappings, c.stop);
    }
  }

  lemma {:induction false} GenuineIsFine(texts: Texts, books: seq<Workbook>, dates: Dates, stops: seq<RouteStop>, target: int, mappings: seq<Mapping>, k: nat)
    returns (row: seq<Checkpoint>)
    requires WellFormedStops(stops) && k < |mappings| && Genuine(texts, books, stops, target, mappings[k])
    ensures RowFor(texts, books, dates, stops, target, mappings, k, row)
  {
    var job :| job in AllJobs(texts, books) && ReadFrom(texts, stops, target, mappings[k], job);
    row := RowOfTrip(texts, stops, mappings[k], job.headers, job.values);
    ReadIsFine(texts, dates, stops, target, mappings, k, job);
    OwnRowDecides(texts, books, stops, target, mappings[k], job);
  }

  /** The checkpoints of one mapped trip. */
  ghost predicate RowFor(texts: Texts, books: seq<Workbook>, dates: Dates, stops: seq<RouteStop>, target: int, mappings: seq<Mapping>, k: nat, row: seq<Checkpoint>)
    requires k < |mappings|
  {
    && FineEntry(ManifestStops(stops, mappings), target, EntryFor(dates, mappings[k], k + 1), row)
    && (Drops(ClocksOf(row)) <= 2 <==> PassesAtMostTwice(texts, books, stops, target, mappings[k]))
  }

  ghost predicate RowsUpTo(texts: Texts, books: seq<Workbook>, dates: Dates, stops: seq<RouteStop>, target: int, mappings: seq<Mapping>, rows: seq<seq<Checkpoint>>) {
    |rows| <= |mappings| && forall k :: 0 <= k < |rows| ==> RowFor(texts, books, dates, stops, target, mappings, k, rows[k])
  }

  lemma {:induction false} RowsAppend(texts: Texts, books: seq<Workbook>, dates: Dates, stops: seq<RouteStop>, target: int, mappings: seq<Mapping>,
                                      rows: seq<seq<Checkpoint>>, row: seq<Checkpoint>)
    requires RowsUpTo(texts, books, dates, stops, target, mappings, rows)
    requires |rows| < |mappings| && RowFor(texts, books, dates, stops, target, mappings, |rows|, row)
    ensures RowsUpTo(texts, books, dates, stops, target, mappings, rows + [row])
  {
    var all := rows + [row];
    forall k | 0 <= k < |all| ensures RowFor(texts, books, dates, stops, target, mappings, k, all[k]) {
      if k < |rows| {
        assert RowFor(texts, books, dates, stops, target, mappings, k, rows[k]);
        assert all[k] == rows[k];
      } else {
        assert k == |rows| && all[k] == row;
      }
    }
  }

  ghost predicate AllGenuineTrips(texts: Texts, books: seq<Workbook>, stops: seq<RouteStop>, target: int, mappings: seq<Mapping>) {
    forall m :: m in mappings ==> Genuine(texts, books, stops, target, m)
  }

  lemma {:induction false} RowOfMapping(texts: Texts, books: seq<Workbook>, dates: Dates, stops: seq<RouteStop>, target: int, mappings: seq<Mapping>, k: nat)
    returns (row: seq<Checkpoint>)
    requires WellFormedStops(stops) && k < |mappings| && AllGenuineTrips(texts, books, stops, target, mappings)
    ensures RowFor(texts, books, dates, stops, target, mappings, k, row)
  {
    assert mappings[k] in mappings;
    row := GenuineIsFine(texts, books, dates, stops, target, mappings, k);
  }

  lemma {:induction false} RowsExist(texts: Texts, books: seq<Workbook>, dates: Dates, stops: seq<RouteStop>, target: int, mappings: seq<Mapping>, n: nat)
    returns (rows: seq<seq<Checkpoint>>)
    requires WellFormedStops(stops) && n <= |mappings| && AllGenuineTrips(texts, books, stops, target, mappings)
    ensures |rows| == n && RowsUpTo(texts, books, dates, stops, target, mappings, rows)
  {
    if n == 0 {
      rows := [];
    } else {
      var front := RowsExist(texts, books, dates, stops, target, mappings, n - 1);
      var row := RowOfMapping(texts, books, dates, stops, target, mappings, n - 1);
      RowsAppend(texts, books, dates, stops, target, mappings, front, row);
      rows := front + [row];
    }
  }

  lemma {:induction false} EntryIdsDiffer(dates: Dates, mappings: seq<Mapping>)
    ensures Distinct(EntryIds(Entries(dates, mappings)))
  {
    var ids := EntryIds(Entries(dates, mappings));
    forall i, j | 0 <= i < j < |ids| ensures ids[i] != ids[j] {
      if ids[i] == ids[j] {
        TripIdsDiffer(dates, mappings[i], i + 1, mappings[j], j + 1);
      }
    }
  }

  /** The manifest is built from every non-empty mapping. */
  lemma {:induction false} ManifestIsBuilt(texts: Texts, books: seq<Workbook>, dates: Dates, snapshot: string, stops: seq<RouteStop>, target: int, mappings: seq<Mapping>)
    requires mappings != [] && Strip(snapshot) != "" && AllGenuineTrips(texts, books, stops, target, mappings)
    ensures BuildManifest(dates, snapshot, stops, mappings) == Ok(Manifest(ManifestStops(stops, mappings), Entries(dates, mappings)))
  {
    var selected := SelectedStops(stops, MappedPatterns(mappings));
    forall p | p in MappedPatterns(mappings) ensures p in (set s | s in selected :: s.pattern) {
      var m :| m in mappings && m.pattern == p;
      assert Genuine(texts, books, stops, target, m);
      var first := RouteOf(stops, p)[0];
      RouteStopsAreOnPattern(stops, p, first);
      assert first in selected;
    }
    assert (set s | s in selected :: s.pattern) == MappedPatterns(mappings);
  }

  /** The bundle keeps every mapped trip: its id is the manifest's and its records show the
      unrolled minutes of the row it was read from. */
  ghost predicate KeepsTrips(texts: Texts, books: seq<Workbook>, dates: Dates, stops: seq<RouteStop>, target: int, mappings: seq<Mapping>, b: Bundle) {
    exists rows :: |rows| == |mappings| && RowsUpTo(texts, books, dates, stops, target, mappings, rows) && AllKept(b, Entries(dates, mappings), rows)
  }

  /** Main result: for well-formed route stops, every non-empty mapping becomes a manifest; the
      bundle is built exactly when no row goes back more than twice; the validation accepts it and
      no trip is lost. */
  lemma {:induction false} MappedTripsReachPublication(texts: Texts, books: seq<Workbook>, dates: Dates, snapshot: string, stops: seq<RouteStop>,
                                                       target: int, result: State)
    requires MapTrips(texts, books, stops, target) == Ok(result) && result.mappings != []
    requires WellFormedStops(stops) && Strip(snapshot) != "" && Clean(ServiceId(dates, target))
    ensures BuildManifest(dates, snapshot, stops, result.mappings).Ok?
    ensures var built := BuildBundle(dates, BuildManifest(dates, snapshot, stops, result.mappings).value, true, target);
            && (built.Ok? <==> forall m :: m in result.mappings ==> PassesAtMostTwice(texts, books, stops, target, m))
            && (built.Ok? ==> ValidBundle(built.value) && KeepsTrips(texts, books, dates, stops, target, result.mappings, built.value))
  {
    var mappings := result.mappings;
    forall m | m in mappings ensures Genuine(texts, books, stops, target, m) {
      var job := MappedIsRead(texts, books, stops, target, result, m);
    }
    ManifestIsBuilt(texts, books, dates, snapshot, stops, target, mappings);
    var rows := RowsExist(texts, books, dates, stops, target, mappings, |mappings|);
    EntriesReachPublication(texts, books, dates, stops, target, mappings, rows);
  }

  lemma {:induction false} EntriesReachPublication(texts: Texts, books: seq<Workbook>, dates: Dates, stops: seq<RouteStop>, target: int, mappings: seq<Mapping>,
                                                   rows: seq<seq<Checkpoint>>)
    requires WellFormedStops(stops) && mappings != [] && IsoWeekday(target) <= 5 && Clean(ServiceId(dates, target))
    requires |rows| == |mappings| && RowsUpTo(texts, books, dates, stops, target, mappings, rows)
    ensures var built := BuildBundle(dates, Manifest(ManifestStops(stops, mappings), Entries(dates, mappings)), true, target);
            && (built.Ok? <==> forall m :: m in mappings ==> PassesAtMostTwice(texts, books, stops, target, m))
            && (built.Ok? ==> ValidBundle(built.value) && KeepsTrips(texts, books, dates, stops, target, mappings, built.value))
  {
    var chosen, entries := ManifestStops(stops, mappings), Entries(dates, mappings);
    ManifestStopsWellFormed(stops, mappings);
    EntryIdsDiffer(dates, mappings);
    forall k | 0 <= k < |rows| ensures FineEntry(chosen, target, entries[k], rows[k]) {
      assert RowFor(texts, books, dates, stops, target, mappings, k, rows[k]);
    }
    BundleIsBuiltIff(dates, chosen, target, entries, rows);
    TwiceIff(texts, books, dates, stops, target, mappings, rows);
    if AtMostTwice(rows) {
      BundleIsValid(dates, chosen, target, entries, rows);
    }
  }

  lemma {:induction false} TwiceIff(texts: Texts, books: seq<Workbook>, dates: Dates, stops: seq<RouteStop>, target: int, mappings: seq<Mapping>, rows: seq<seq<Checkpoint>>)
    requires |rows| == |mappings| && RowsUpTo(texts, books, dates, stops, target, mappings, rows)
    ensures AtMostTwice(rows) <==> forall m :: m in mappings ==> PassesAtMostTwice(texts, books, stops, target, m)
  {
    if forall m :: m in mappings ==> PassesAtMostTwice(texts, books, stops, target, m) {
      forall k | 0 <= k < |rows| ensures Drops(ClocksOf(rows[k])) <= 2 {
        assert mappings[k] in mappings && RowFor(texts, books, dates, stops, target, mappings, k, rows[k]);
      }
    }
    if AtMostTwice(rows) {
      forall m | m in mappings ensures PassesAtMostTwice(texts, books, stops, target, m) {
        var k :| 0 <= k < |mappings| && mappings[k] == m;
        assert RowFor(texts, books, dates, stops, target, mappings, k, rows[k]);
      }
    }
  }
}
