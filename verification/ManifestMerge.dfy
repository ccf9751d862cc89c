/** Merging an expanded timetable manifest into an earlier one without renaming any earlier trip. */
module ManifestMerge {
  import opened Common
  import opened Ordering

  // ------------------------------------------------------------------ manifests

  /** The official row a trip was read from; the numbers stand for the texts in their own order. */
  datatype Lineage = Lineage(workbook: int, sheet: int, sourceRow: int, route: int)

  /** A JSON entry: the trip id, the lineage, and every other field as one text. */
  datatype TripRow = NotAnObject | Trip(tripId: Option<string>, lineage: Lineage, fields: string)

  datatype StopRow = NotAStop | Stop(pattern: string, sequence: int, fields: string)

  /** `remainder` is every other top-level field of the manifest. */
  datatype Manifest = Manifest(workbooks: string, stops: seq<StopRow>, trips: seq<TripRow>, remainder: string)

  datatype MergeError =
    | Invalid | RouteDuplicated | RouteRegression
    | BaseDuplicated | ExpansionDuplicated | TripRegression | TripIdConflict | TripRemoved

  type StableId = Lineage -> string

  predicate LineageLess(a: Lineage, b: Lineage) {
    a.workbook < b.workbook
    || (a.workbook == b.workbook
        && (a.sheet < b.sheet
            || (a.sheet == b.sheet
                && (a.sourceRow < b.sourceRow || (a.sourceRow == b.sourceRow && a.route < b.route)))))
  }

  // Only trips are sorted; putting other entries first makes this an order of all rows.
  predicate TripLess(a: TripRow, b: TripRow) {
    b.Trip? && (a.Trip? ==> LineageLess(a.lineage, b.lineage))
  }

  function LineagesOf(rows: seq<TripRow>): set<Lineage> {
    set r | r in rows && r.Trip? :: r.lineage
  }

  function IdsOf(rows: seq<TripRow>): set<string> {
    set r | r in rows && r.Trip? && r.tripId.Some? :: r.tripId.value
  }

  // ------------------------------------------------------------------ the merge, check by check

  predicate StopsOk(stops: seq<StopRow>) {
    && (forall s :: s in stops ==> s.Stop?)
    && (forall i, j :: 0 <= i < j < |stops| ==> stops[i].pattern != stops[j].pattern || stops[i].sequence != stops[j].sequence)
  }

  function StopsError(base: seq<StopRow>, expanded: seq<StopRow>, n: nat): Option<MergeError>
    requires n <= |base|
  {
    if n == 0 then None
    else
      var before := StopsError(base, expanded, n - 1);
      if before.Some? then before
      else if base[n - 1].NotAStop? then Some(Invalid)
      else if base[n - 1] !in expanded then Some(RouteRegression) else None
  }

  function BaseError(base: seq<TripRow>, n: nat): Option<MergeError>
    requires n <= |base|
  {
    if n == 0 then None
    else
      var before, row := BaseError(base, n - 1), base[n - 1];
      if before.Some? then before
      else if row.NotAnObject? || row.tripId.None? then Some(Invalid)
      else if row.lineage in LineagesOf(base[..n - 1]) || row.tripId.value in IdsOf(base[..n - 1]) then Some(BaseDuplicated)
      else None
  }

  function Identified(id: StableId, row: TripRow): TripRow
    requires row.Trip?
  {
    row.(tripId := Some(id(row.lineage)))
  }

  /** The rows whose lineage the base does not have, under their stable ids. */
  function Additions(id: StableId, base: seq<TripRow>, expanded: seq<TripRow>, n: nat): seq<TripRow>
    requires n <= |expanded|
  {
    if n == 0 then []
    else
      var before, row := Additions(id, base, expanded, n - 1), expanded[n - 1];
      if row.NotAnObject? || row.lineage in LineagesOf(base) then before else before + [Identified(id, row)]
  }

  /** The base has this row's lineage with other fields. */
  predicate Regresses(base: seq<TripRow>, row: TripRow)
    requires row.Trip?
  {
    exists b :: b in base && b.Trip? && b.lineage == row.lineage && b.fields != row.fields
  }

  /** The error of one expanded row, after rows with these lineages and ids. */
  function RowError(id: StableId, base: seq<TripRow>, lineages: set<Lineage>, ids: set<string>, row: TripRow): Option<MergeError> {
    if row.NotAnObject? then Some(Invalid)
    else if row.lineage in lineages then Some(ExpansionDuplicated)
    else if row.lineage in LineagesOf(base) then
      if Regresses(base, row) then Some(TripRegression) else None
    else if id(row.lineage) in ids then Some(TripIdConflict)
    else None
  }

  function ExpandedError(id: StableId, base: seq<TripRow>, expanded: seq<TripRow>, n: nat): Option<MergeError>
    requires n <= |expanded|
  {
    if n == 0 then None
    else
      var before := ExpandedError(id, base, expanded, n - 1);
      if before.Some? then before
      else RowError(id, base, LineagesOf(expanded[..n - 1]), IdsOf(base) + IdsOf(Additions(id, base, expanded, n - 1)), expanded[n - 1])
  }

  function FirstError(id: StableId, base: Manifest, expanded: Manifest): Option<MergeError> {
    if base.workbooks != expanded.workbooks then Some(Invalid)
    else if !StopsOk(expanded.stops) then Some(RouteDuplicated)
    else
      var stops := StopsError(base.stops, expanded.stops, |base.stops|);
      if stops.Some? then stops
      else
        var rows := BaseError(base.trips, |base.trips|);
        if rows.Some? then rows
        else
          var more := ExpandedError(id, base.trips, expanded.trips, |expanded.trips|);
          if more.Some? then more
          else if !(LineagesOf(base.trips) <= LineagesOf(expanded.trips)) then Some(TripRemoved) else None
  }

  function Merged(id: StableId, base: Manifest, expanded: Manifest): Manifest {
    expanded.(trips := base.trips + Sort(TripLess, Additions(id, base.trips, expanded.trips, |expanded.trips|)))
  }

  function Merge(id: StableId, base: Manifest, expanded: Manifest): Result<Manifest, MergeError> {
    var error := FirstError(id, base, expanded);
    if error.Some? then Err(error.value) else Ok(Merged(id, base, expanded))
  }

  // ------------------------------------------------------------------ the merge as it runs

  function StopKey(s: StopRow): (string, int)
    requires s.Stop?
  {
    (s.pattern, s.sequence)
  }

  /** The dictionary of stop rows; a later row replaces an earlier one with its key. */
  function StopsByKey(stops: seq<StopRow>): (r: map<(string, int), StopRow>)
    ensures forall key :: key in r ==> r[key] in stops && r[key].Stop? && StopKey(r[key]) == key
    ensures forall s :: s in stops && s.Stop? ==> StopKey(s) in r
  {
    if stops == [] then map[]
    else
      assert stops == stops[..|stops| - 1] + [stops[|stops| - 1]];
      var before, last := StopsByKey(stops[..|stops| - 1]), stops[|stops| - 1];
      if last.NotAStop? then before else before[StopKey(last) := last]
  }

  /** It has as many keys as there are rows exactly when all are objects and none repeats a key. */
  lemma {:induction false} FullExactlyWhenOk(stops: seq<StopRow>)
    ensures |StopsByKey(stops)| <= |stops|
    ensures |StopsByKey(stops)| == |stops| <==> StopsOk(stops)
  {
    if stops != [] {
      var front, last := stops[..|stops| - 1], stops[|stops| - 1];
      assert stops == front + [last];
      FullExactlyWhenOk(front);
      StopsOkSplits(front, last);
      if last.Stop? && StopKey(last) !in StopsByKey(front) {
        assert StopsByKey(stops).Keys == StopsByKey(front).Keys + {StopKey(last)};
      } else if last.Stop? {
        assert StopsByKey(stops).Keys == StopsByKey(front).Keys;
      }
    }
  }

  lemma {:induction false} StopsOkSplits(front: seq<StopRow>, last: StopRow)
    ensures StopsOk(front + [last]) <==> StopsOk(front) && last.Stop? && StopKey(last) !in StopsByKey(front)
  {
    var all := front + [last];
    if StopsOk(all) {
      assert forall s :: s in front ==> s in all;
      assert StopsOk(front) by {
        assert forall i :: 0 <= i < |front| ==> all[i] == front[i];
      }
      assert last in all;
      forall s | s in front ensures s.Stop? && StopKey(s) != StopKey(last) {
        var k :| 0 <= k < |front| && front[k] == s;
        assert all[k] == s && all[|front|] == last;
      }
    }
    if StopsOk(front) && last.Stop? && StopKey(last) !in StopsByKey(front) {
      forall k | 0 <= k < |front| ensures StopKey(front[k]) != StopKey(last) {
        assert front[k] in front;
      }
    }
  }

  lemma {:induction false} LookupIsMembership(stops: seq<StopRow>, s: StopRow)
    requires StopsOk(stops) && s.Stop?
    ensures s in stops <==> StopKey(s) in StopsByKey(stops) && StopsByKey(stops)[StopKey(s)] == s
  {
    if s in stops {
      var t := StopsByKey(stops)[StopKey(s)];
      var i :| 0 <= i < |stops| && stops[i] == s;
      var j :| 0 <= j < |stops| && stops[j] == t;
    }
  }

  method CheckStops(base: seq<StopRow>, expanded: seq<StopRow>) returns (error: Option<MergeError>)
    ensures error == if !StopsOk(expanded) then Some(RouteDuplicated) else StopsError(base, expanded, |base|)
  {
    var byKey := StopsByKey(expanded);
    FullExactlyWhenOk(expanded);
    if |byKey| != |expanded| {
      return Some(RouteDuplicated);
    }
    for n := 0 to |base|
      invariant StopsError(base, expanded, n) == None
    {
      if base[n].NotAStop? {
        StopsErrorStays(base, expanded, n + 1, |base|);
        return Some(Invalid);
      }
      LookupIsMembership(expanded, base[n]);
      var key := StopKey(base[n]);
      if key !in byKey || byKey[key] != base[n] {
        StopsErrorStays(base, expanded, n + 1, |base|);
        return Some(RouteRegression);
      }
    }
    return None;
  }

  lemma {:induction false} StopsErrorStays(base: seq<StopRow>, expanded: seq<StopRow>, n: nat, m: nat)
    requires n <= m <= |base| && StopsError(base, expanded, n).Some?
    ensures StopsError(base, expanded, m) == StopsError(base, expanded, n)
  {
    if n < m {
      StopsErrorStays(base, expanded, n, m - 1);
    }
  }

  // The base's trips: a dictionary by lineage, and the ids seen.

  ghost predicate IndexesLineages(byLineage: map<Lineage, TripRow>, rows: seq<TripRow>) {
    && byLineage.Keys == LineagesOf(rows)
    && (forall l :: l in byLineage ==> byLineage[l] in rows && byLineage[l].Trip? && byLineage[l].lineage == l)
    && (forall r :: r in rows && r.Trip? ==> byLineage[r.lineage] == r)
  }

  lemma {:induction false} LineagesOfAppend(rows: seq<TripRow>, row: TripRow)
    ensures LineagesOf(rows + [row]) == LineagesOf(rows) + (if row.Trip? then {row.lineage} else {})
    ensures IdsOf(rows + [row]) == IdsOf(rows) + (if row.Trip? && row.tripId.Some? then {row.tripId.value} else {})
  {
    var all := rows + [row];
    assert all[|rows|] == row;
    forall r | r in rows ensures r in all {}
  }

  method IndexBase(base: seq<TripRow>) returns (error: Option<MergeError>, byLineage: map<Lineage, TripRow>, tripIds: set<string>)
    ensures error == BaseError(base, |base|)
    ensures error.None? ==> IndexesLineages(byLineage, base) && tripIds == IdsOf(base)
  {
    error, byLineage, tripIds := None, map[], {};
    for n := 0 to |base|
      invariant error.None? && BaseError(base, n) == None
      invariant IndexesLineages(byLineage, base[..n]) && tripIds == IdsOf(base[..n])
    {
      var row := base[n];
      assert base[..n + 1] == base[..n] + [row];
      LineagesOfAppend(base[..n], row);
      if row.NotAnObject? || row.tripId.None? {
        BaseErrorStays(base, n + 1, |base|);
        error := Some(Invalid);
        return;
      }
      if row.lineage in byLineage || row.tripId.value in tripIds {
        BaseErrorStays(base, n + 1, |base|);
        error := Some(BaseDuplicated);
        return;
      }
      byLineage := byLineage[row.lineage := row];
      tripIds := tripIds + {row.tripId.value};
    }
    assert base[..|base|] == base;
  }

  lemma {:induction false} BaseErrorStays(base: seq<TripRow>, n: nat, m: nat)
    requires n <= m <= |base| && BaseError(base, n).Some?
    ensures BaseError(base, m) == BaseError(base, n)
  {
    if n < m {
      BaseErrorStays(base, n, m - 1);
    }
  }

  lemma {:induction false} RegressesByLookup(byLineage: map<Lineage, TripRow>, base: seq<TripRow>, row: TripRow)
    requires IndexesLineages(byLineage, base) && row.Trip? && row.lineage in byLineage
    ensures Regresses(base, row) <==> byLineage[row.lineage].fields != row.fields
  {
  }

  method CheckRow(id: StableId, ghost base: seq<TripRow>, byLineage: map<Lineage, TripRow>, lineages: set<Lineage>, tripIds: set<string>, row: TripRow)
    returns (error: Option<MergeError>)
    requires IndexesLineages(byLineage, base)
    ensures error == RowError(id, base, lineages, tripIds, row)
  {
    if row.NotAnObject? {
      return Some(Invalid);
    }
    if row.lineage in lineages {
      return Some(ExpansionDuplicated);
    }
    if row.lineage in byLineage {
      RegressesByLookup(byLineage, base, row);
      return if byLineage[row.lineage].fields != row.fields then Some(TripRegression) else None;
    }
    return if id(row.lineage) in tripIds then Some(TripIdConflict) else None;
  }

  lemma {:induction false} ErrorOfNext(id: StableId, base: seq<TripRow>, expanded: seq<TripRow>, n: nat)
    requires n < |expanded| && ExpandedError(id, base, expanded, n) == None
    ensures ExpandedError(id, base, expanded, n + 1)
            == RowError(id, base, LineagesOf(expanded[..n]), IdsOf(base) + IdsOf(Additions(id, base, expanded, n)), expanded[n])
  {
  }

  /** What the loop has after `n` rows without an error. */
  ghost predicate Collected(id: StableId, base: seq<TripRow>, expanded: seq<TripRow>, n: nat, additions: seq<TripRow>, lineages: set<Lineage>, tripIds: set<string>)
    requires n <= |expanded|
  {
    && ExpandedError(id, base, expanded, n) == None
    && additions == Additions(id, base, expanded, n)
    && lineages == LineagesOf(expanded[..n])
    && tripIds == IdsOf(base) + IdsOf(additions)
  }

  lemma {:induction false} FailedRowIsTheError(id: StableId, base: seq<TripRow>, expanded: seq<TripRow>, n: nat, additions: seq<TripRow>, lineages: set<Lineage>, tripIds: set<string>)
    requires n < |expanded| && Collected(id, base, expanded, n, additions, lineages, tripIds)
    requires RowError(id, base, lineages, tripIds, expanded[n]).Some?
    ensures ExpandedError(id, base, expanded, |expanded|) == RowError(id, base, lineages, tripIds, expanded[n])
  {
    ErrorOfNext(id, base, expanded, n);
    ExpandedErrorStays(id, base, expanded, n + 1, |expanded|);
  }

  /** What one more accepted row adds. */
  lemma {:induction false} RowIsCollected(id: StableId, base: seq<TripRow>, expanded: seq<TripRow>, n: nat, additions: seq<TripRow>, lineages: set<Lineage>, tripIds: set<string>)
    requires n < |expanded| && Collected(id, base, expanded, n, additions, lineages, tripIds)
    requires RowError(id, base, lineages, tripIds, expanded[n]) == None
    ensures var row := expanded[n];
            if row.lineage in LineagesOf(base) then Collected(id, base, expanded, n + 1, additions, lineages + {row.lineage}, tripIds)
            else Collected(id, base, expanded, n + 1, additions + [Identified(id, row)], lineages + {row.lineage}, tripIds + {id(row.lineage)})
  {
    ErrorOfNext(id, base, expanded, n);
    assert expanded[..n + 1] == expanded[..n] + [expanded[n]];
    LineagesOfAppend(expanded[..n], expanded[n]);
    LineagesOfAppend(additions, Identified(id, expanded[n]));
  }

  method CollectAdditions(id: StableId, ghost base: seq<TripRow>, byLineage: map<Lineage, TripRow>, startIds: set<string>, expanded: seq<TripRow>)
    returns (error: Option<MergeError>, additions: seq<TripRow>, lineages: set<Lineage>)
    requires IndexesLineages(byLineage, base) && startIds == IdsOf(base)
    ensures error == ExpandedError(id, base, expanded, |expanded|)
    ensures error.None? ==> additions == Additions(id, base, expanded, |expanded|) && lineages == LineagesOf(expanded)
  {
    error, additions, lineages := None, [], {};
    var tripIds := startIds;
    for n := 0 to |expanded|
      invariant error.None? && Collected(id, base, expanded, n, additions, lineages, tripIds)
    {
      var row := expanded[n];
      error := CheckRow(id, base, byLineage, lineages, tripIds, row);
      if error.Some? {
        FailedRowIsTheError(id, base, expanded, n, additions, lineages, tripIds);
        return;
      }
      RowIsCollected(id, base, expanded, n, additions, lineages, tripIds);
      lineages := lineages + {row.lineage};
      if row.lineage !in byLineage {
        tripIds := tripIds + {id(row.lineage)};
        additions := additions + [Identified(id, row)];
      }
    }
    assert expanded[..|expanded|] == expanded;
  }

  lemma {:induction false} ExpandedErrorStays(id: StableId, base: seq<TripRow>, expanded: seq<TripRow>, n: nat, m: nat)
    requires n <= m <= |expanded| && ExpandedError(id, base, expanded, n).Some?
    ensures ExpandedError(id, base, expanded, m) == ExpandedError(id, base, expanded, n)
  {
    if n < m {
      ExpandedErrorStays(id, base, expanded, n, m - 1);
    }
  }
}
