/** The sections of the bundle built from well-formed entries, and their validity. */
module TimetableSections {
  import opened Common
  import opened Ordering
  import opened TimetableClock
  import opened TripChoice
  import opened TripMapping
  import opened TimetableBundle
  import opened TimetableValidation
  import opened TimetablePublication

  // ------------------------------------------------------------------ well-formed stops and entries

  /** No sequence is used twice on a pattern, sequences are positive and texts need no stripping. */
  ghost predicate WellFormedStops(stops: seq<RouteStop>) {
    && (forall i, j :: 0 <= i < j < |stops| ==> stops[i].pattern != stops[j].pattern || stops[i].sequence != stops[j].sequence)
    && (forall s :: s in stops ==> s.sequence > 0 && Clean(s.pattern) && Clean(s.stopId) && Clean(s.direction))
  }

  /** The entry's stop times are those of these checkpoints, on stops of its pattern. */
  ghost predicate FineEntry(stops: seq<RouteStop>, target: int, e: TripEntry, selected: seq<Checkpoint>) {
    && Clean(e.tripId) && Clean(e.pattern) && Clean(e.direction) && e.effectiveFrom <= target == e.effectiveTo
    && e.stopTimes == Timed(selected) && |selected| >= 2
    && (forall c :: c in selected ==> c.stop in stops && c.stop.pattern == e.pattern)
    && (exists s :: s in stops && s.pattern == e.pattern && s.direction == e.direction)
  }

  ghost predicate FineEntries(stops: seq<RouteStop>, target: int, entries: seq<TripEntry>, rows: seq<seq<Checkpoint>>) {
    |rows| == |entries| && forall i :: 0 <= i < |entries| ==> FineEntry(stops, target, entries[i], rows[i])
  }

  lemma {:induction false} CleanFacts(pattern: string, stopId: string)
    ensures Clean(pattern) ==> Clean(RouteFact(pattern))
    ensures Clean(stopId) ==> Clean(StopFact(stopId))
  {
    if Clean(pattern) {
      assert RouteFact(pattern)[|RouteFact(pattern)| - 1] == pattern[|pattern| - 1];
    }
    if Clean(stopId) {
      assert StopFact(stopId)[|StopFact(stopId)| - 1] == stopId[|stopId| - 1];
    }
  }

  lemma {:induction false} FactsDiffer(a: string, b: string)
    ensures RouteFact(a) == RouteFact(b) ==> a == b
  {
    var prefix := "tago.bus-route:";
    assert RouteFact(a)[|prefix|..] == a && RouteFact(b)[|prefix|..] == b;
  }

  // ------------------------------------------------------------------ the records of one trip

  /** The normalised record of one checkpoint. */
  ghost predicate RecordFor(x: StopTimeRecord, tripId: string, c: Checkpoint, k: nat, minutes: int) {
    x.tripId == tripId && x.stop == StopFact(c.stop.stopId) && x.stopSequence == k + 1 && Arrival(x) == minutes && Departure(x) == minutes
  }

  lemma {:induction false} TimeIsNormalIff(tripId: string, c: Checkpoint, minutes: nat, k: nat)
    requires Clean(tripId) && Clean(c.stop.stopId)
    ensures var normal := NormalTime(TimeRow(tripId, StopTimeAt(c, minutes, k + 1)));
            && (normal.Some? <==> ServiceTime(Printed(minutes)).Some?)
            && (normal.Some? ==> RecordFor(normal.value, tripId, c, k, minutes))
  {
    CleanFacts("", c.stop.stopId);
    CleanStays(tripId);
    CleanStays(StopFact(c.stop.stopId));
    PrintedReadsBackIff(minutes);
    if minutes / DAY <= 2 {
      ServiceMinutes(minutes);
    }
  }

  lemma {:induction false} StopIsNormalIff(stops: seq<RouteStop>, target: int, e: TripEntry, selected: seq<Checkpoint>, i: nat)
    requires WellFormedStops(stops) && FineEntry(stops, target, e, selected) && i < |selected|
    ensures NormalTime(TimesOf(e)[i]).Some? <==> ServiceTime(Timed(selected)[i].arrival).Some?
    ensures NormalTime(TimesOf(e)[i]).Some? ==>
              RecordFor(NormalTime(TimesOf(e)[i]).value, e.tripId, selected[i], i, TimeOf(ClocksOf(selected), i))
  {
    assert selected[i] in selected;
    TimeIsNormalIff(e.tripId, selected[i], TimeOf(ClocksOf(selected), i), i);
  }

  /** One stop time is kept exactly when its clock can be read, and then shows its minutes. */
  ghost predicate StopKept(normal: StopTimeRow -> Option<StopTimeRecord>, e: TripEntry, selected: seq<Checkpoint>, i: nat)
    requires i < |selected| == |e.stopTimes|
  {
    var kept := normal(TimesOf(e)[i]);
    && (kept.Some? <==> ServiceTime(Timed(selected)[i].arrival).Some?)
    && (kept.Some? ==> RecordFor(kept.value, e.tripId, selected[i], i, TimeOf(ClocksOf(selected), i)))
  }

  lemma {:induction false} TripIsNormalBy(normal: StopTimeRow -> Option<StopTimeRecord>, e: TripEntry, selected: seq<Checkpoint>)
    requires |selected| == |e.stopTimes| && forall i :: 0 <= i < |selected| ==> StopKept(normal, e, selected, i)
    ensures var records := NormalAll(normal, TimesOf(e));
            && (records.Some? <==> Drops(ClocksOf(selected)) <= 2)
            && (records.Some? ==> forall i :: 0 <= i < |selected| ==> RecordFor(records.value[i], e.tripId, selected[i], i, TimeOf(ClocksOf(selected), i)))
  {
    ReadableIff(selected);
    forall i | 0 <= i < |selected| ensures normal(TimesOf(e)[i]).Some? <==> ServiceTime(Timed(selected)[i].arrival).Some? {
      assert StopKept(normal, e, selected, i);
    }
    var records := NormalAll(normal, TimesOf(e));
    if records.Some? {
      forall i | 0 <= i < |selected| ensures RecordFor(records.value[i], e.tripId, selected[i], i, TimeOf(ClocksOf(selected), i)) {
        assert StopKept(normal, e, selected, i) && normal(TimesOf(e)[i]) == Some(records.value[i]);
      }
    }
  }

  /** A trip's stop times are all kept exactly when its row goes back at most twice, and then each
      record shows the unrolled minutes. */
  lemma {:induction false} TripIsNormalIff(stops: seq<RouteStop>, target: int, e: TripEntry, selected: seq<Checkpoint>)
    requires WellFormedStops(stops) && FineEntry(stops, target, e, selected)
    ensures var records := NormalAll(NormalTime, TimesOf(e));
            && (records.Some? <==> Drops(ClocksOf(selected)) <= 2)
            && (records.Some? ==> forall i :: 0 <= i < |selected| ==> RecordFor(records.value[i], e.tripId, selected[i], i, TimeOf(ClocksOf(selected), i)))
  {
    forall i | 0 <= i < |selected| ensures StopKept(NormalTime, e, selected, i) {
      StopIsNormalIff(stops, target, e, selected, i);
    }
    TripIsNormalBy(NormalTime, e, selected);
  }

  lemma {:induction false} SortOfSorted<T>(less: (T, T) -> bool, s: seq<T>)
    requires SortedBy(less, s)
    ensures Sort(less, s) == s
  {
    if s != [] {
      SortOfSorted(less, s[..|s| - 1]);
      assert s == s[..|s| - 1] + [s[|s| - 1]];
    }
  }

  ghost predicate TripRecords(records: seq<StopTimeRecord>, tripId: string, selected: seq<Checkpoint>, times: seq<int>) {
    && |records| == |selected| == |times|
    && forall i :: 0 <= i < |records| ==> RecordFor(records[i], tripId, selected[i], i, times[i])
  }

  lemma {:induction false} RecordsAreSorted(records: seq<StopTimeRecord>, tripId: string, selected: seq<Checkpoint>, times: seq<int>)
    requires TripRecords(records, tripId, selected, times)
    ensures Sort(SequenceBefore, records) == records && UniqueStopSequences(records)
  {
    assert forall i :: 0 <= i < |records| ==> RecordFor(records[i], tripId, selected[i], i, times[i]);
    assert SortedBy(SequenceBefore, records);
    SortOfSorted(SequenceBefore, records);
    var sequences := Sequences(records);
    forall i, j | 0 <= i < j < |sequences| ensures sequences[i] != sequences[j] {
      assert records[i].stopSequence == i + 1 && records[j].stopSequence == j + 1;
    }
  }

  /** The records of one trip are in order and run forward. */
  lemma {:induction false} RecordsRunForward(records: seq<StopTimeRecord>, tripId: string, selected: seq<Checkpoint>, times: seq<int>)
    requires TripRecords(records, tripId, selected, times) && |selected| >= 2 && Nondecreasing(times)
    ensures Sort(SequenceBefore, records) == records && RunsForward(records)
  {
    RecordsAreSorted(records, tripId, selected, times);
    forall i | 0 <= i < |records| ensures Arrival(records[i]) == times[i] == Departure(records[i]) {
      assert RecordFor(records[i], tripId, selected[i], i, times[i]);
    }
  }

  // ------------------------------------------------------------------ the records of all trips

  lemma {:induction false} NormalAllAppend<R, T>(normal: R -> Option<T>, a: seq<R>, b: seq<R>)
    ensures NormalAll(normal, a + b).Some? <==> NormalAll(normal, a).Some? && NormalAll(normal, b).Some?
    ensures NormalAll(normal, a + b).Some? ==> NormalAll(normal, a + b).value == NormalAll(normal, a).value + NormalAll(normal, b).value
  {
    var all := a + b;
    if NormalAll(normal, all).Some? {
      assert forall i :: 0 <= i < |a| ==> all[i] == a[i];
      assert forall i :: 0 <= i < |b| ==> all[|a| + i] == b[i];
      forall i | 0 <= i < |a| ensures normal(a[i]) == Some(NormalAll(normal, all).value[i]) {
        assert all[i] == a[i];
      }
      forall i | 0 <= i < |b| ensures normal(b[i]) == Some(NormalAll(normal, all).value[|a| + i]) {
        assert all[|a| + i] == b[i];
      }
    }
  }

  ghost predicate AllInForce(entries: seq<TripEntry>, target: int) {
    forall i :: 0 <= i < |entries| ==> InForce(entries[i], target)
  }

  /** The first `n` parts one after the other, unless one is missing. */
  function Join<X>(parts: seq<Option<seq<X>>>, n: nat): Option<seq<X>>
    requires n <= |parts|
  {
    if n == 0 then Some([])
    else
      var before, own := Join(parts, n - 1), parts[n - 1];
      if before.None? || own.None? then None else Some(before.value + own.value)
  }

  ghost predicate Normalises(normal: StopTimeRow -> Option<StopTimeRecord>, entries: seq<TripEntry>, parts: seq<Option<seq<StopTimeRecord>>>) {
    |parts| == |entries| && forall k :: 0 <= k < |parts| ==> parts[k] == NormalAll(normal, TimesOf(entries[k]))
  }

  lemma {:induction false} JoinOne<R, T>(normal: R -> Option<T>, a: seq<R>, b: seq<R>, before: Option<seq<T>>, own: Option<seq<T>>)
    requires NormalAll(normal, a) == before && NormalAll(normal, b) == own
    ensures NormalAll(normal, a + b) == if before.None? || own.None? then None else Some(before.value + own.value)
  {
    NormalAllAppend(normal, a, b);
  }

  function Concatenated<R>(lists: seq<seq<R>>, n: nat): seq<R>
    requires n <= |lists|
  {
    if n == 0 then [] else Concatenated(lists, n - 1) + lists[n - 1]
  }

  /** Normalising rows list by list is normalising them all. */
  lemma {:induction false} NormalisedJoin<R, T>(normal: R -> Option<T>, lists: seq<seq<R>>, parts: seq<Option<seq<T>>>, n: nat)
    requires n <= |lists| == |parts| && forall k :: 0 <= k < |parts| ==> parts[k] == NormalAll(normal, lists[k])
    ensures NormalAll(normal, Concatenated(lists, n)) == Join(parts, n)
  {
    if n > 0 {
      NormalisedJoin(normal, lists, parts, n - 1);
      JoinOne(normal, Concatenated(lists, n - 1), lists[n - 1], Join(parts, n - 1), parts[n - 1]);
    }
  }

  lemma {:induction false} RowsAreConcatenated(entries: seq<TripEntry>, target: int, lists: seq<seq<StopTimeRow>>, n: nat)
    requires n <= |entries| == |lists| && AllInForce(entries, target)
    requires forall k :: 0 <= k < |lists| ==> lists[k] == TimesOf(entries[k])
    ensures TimeRows(entries, target, n) == Concatenated(lists, n)
  {
    if n > 0 {
      RowsAreConcatenated(entries, target, lists, n - 1);
    }
  }

  lemma {:induction false} RowsJoin(normal: StopTimeRow -> Option<StopTimeRecord>, entries: seq<TripEntry>, target: int,
                                    parts: seq<Option<seq<StopTimeRecord>>>, n: nat)
    requires n <= |entries| && AllInForce(entries, target) && Normalises(normal, entries, parts)
    ensures NormalAll(normal, TimeRows(entries, target, n)) == Join(parts, n)
  {
    var lists := seq(|entries|, k requires 0 <= k < |entries| => TimesOf(entries[k]));
    RowsAreConcatenated(entries, target, lists, n);
    NormalisedJoin(normal, lists, parts, n);
  }

  lemma {:induction false} JoinSomeIff<X>(parts: seq<Option<seq<X>>>, n: nat)
    requires n <= |parts|
    ensures Join(parts, n).Some? <==> forall k :: 0 <= k < n ==> parts[k].Some?
  {
    if n > 0 {
      JoinSomeIff(parts, n - 1);
    }
  }

  lemma {:induction false} FilterAppend<T(!new)>(keep: T -> bool, a: seq<T>, b: seq<T>)
    ensures Filter(keep, a + b) == Filter(keep, a) + Filter(keep, b)
  {
    if b == [] {
      assert a + b == a;
    } else {
      FilterAppend(keep, a, b[..|b| - 1]);
      assert (a + b)[..|a + b| - 1] == a + b[..|b| - 1];
    }
  }

  lemma {:induction false} FilterAll<T(!new)>(keep: T -> bool, s: seq<T>, all: bool)
    requires forall x :: x in s ==> keep(x) == all
    ensures Filter(keep, s) == if all then s else []
  {
    if s != [] {
      assert s == s[..|s| - 1] + [s[|s| - 1]];
      FilterAll(keep, s[..|s| - 1], all);
    }
  }

  /** Part `k` holds records with the `k`-th id only. */
  ghost predicate OwnIds(parts: seq<Option<seq<StopTimeRecord>>>, ids: seq<string>) {
    |ids| == |parts| && forall k, x :: 0 <= k < |parts| && parts[k].Some? && x in parts[k].value ==> x.tripId == ids[k]
  }

  lemma {:induction false} OwnOrOther(parts: seq<Option<seq<StopTimeRecord>>>, ids: seq<string>, n: nat, k: nat)
    requires k < |parts| && n < |parts| && OwnIds(parts, ids) && Distinct(ids) && parts[n].Some?
    ensures Filter(WithId(ids[k]), parts[n].value) == if k == n then parts[n].value else []
  {
    var own := parts[n].value;
    forall x | x in own ensures WithId(ids[k])(x) == (k == n) {
      assert x.tripId == ids[n];
      assert k < n ==> ids[k] != ids[n];
      assert n < k ==> ids[n] != ids[k];
    }
    FilterAll(WithId(ids[k]), own, k == n);
  }

  /** Picking one trip's records out of all of them gives back that trip's own. */
  lemma {:induction false} RecordsOfTrip(parts: seq<Option<seq<StopTimeRecord>>>, ids: seq<string>, n: nat, k: nat)
    requires k < |parts| && n <= |parts| && OwnIds(parts, ids) && Distinct(ids) && Join(parts, n).Some?
    ensures k < n ==> parts[k].Some?
    ensures Filter(WithId(ids[k]), Join(parts, n).value) == if k < n then parts[k].value else []
  {
    if n > 0 {
      RecordsOfTrip(parts, ids, n - 1, k);
      FilterAppend(WithId(ids[k]), Join(parts, n - 1).value, parts[n - 1].value);
      OwnOrOther(parts, ids, n - 1, k);
    }
  }

  lemma {:induction false} RecordHasPart(parts: seq<Option<seq<StopTimeRecord>>>, n: nat, x: StopTimeRecord) returns (k: nat)
    requires n <= |parts| && Join(parts, n).Some? && x in Join(parts, n).value
    ensures k < n && parts[k].Some? && x in parts[k].value
  {
    if x in parts[n - 1].value {
      k := n - 1;
    } else {
      k := RecordHasPart(parts, n - 1, x);
    }
  }
}
