/** Which error a refused merge reports, written out row by row, and the order of a merge's rows. */
module ManifestErrors {
  import opened Common
  import opened Ordering
  import opened ManifestMerge

  // ------------------------------------------------------------------ the rows the checks report

  /** A base stop row that is no object, or that the expansion does not hold. */
  ghost predicate BadStop(base: seq<StopRow>, expanded: seq<StopRow>, i: nat) {
    i < |base| && (base[i].NotAStop? || forall k :: 0 <= k < |expanded| ==> expanded[k] != base[i])
  }

  ghost predicate Unreadable(rows: seq<TripRow>, i: nat)
    requires i < |rows|
  {
    rows[i].NotAnObject? || rows[i].tripId.None?
  }

  /** A base row without an id, or with the lineage or the id of an earlier one. */
  ghost predicate BadBase(rows: seq<TripRow>, i: nat) {
    i < |rows| && (Unreadable(rows, i) || exists j :: 0 <= j < i && Clashes(rows, j, i))
  }

  ghost predicate Clashes(rows: seq<TripRow>, j: nat, i: nat)
    requires j < i < |rows|
  {
    rows[i].Trip? && rows[j].Trip? && (rows[j].lineage == rows[i].lineage || (rows[j].tripId.Some? && rows[j].tripId == rows[i].tripId))
  }

  /** Row `j` of the expansion stands before row `i` with its lineage. */
  ghost predicate SameLineage(rows: seq<TripRow>, j: nat, i: nat)
    requires j < i < |rows|
  {
    rows[i].Trip? && rows[j].Trip? && rows[j].lineage == rows[i].lineage
  }

  ghost predicate Known(base: seq<TripRow>, lineage: Lineage) {
    exists k :: 0 <= k < |base| && base[k].Trip? && base[k].lineage == lineage
  }

  ghost predicate Changed(base: seq<TripRow>, row: TripRow)
    requires row.Trip?
  {
    exists k :: 0 <= k < |base| && base[k].Trip? && base[k].lineage == row.lineage && base[k].fields != row.fields
  }

  /** The new row's stable id is a base row's id, or the stable id of an earlier new row. */
  ghost predicate IdTaken(id: StableId, base: seq<TripRow>, rows: seq<TripRow>, i: nat)
    requires i < |rows| && rows[i].Trip?
  {
    || (exists k :: 0 <= k < |base| && base[k].Trip? && base[k].tripId == Some(id(rows[i].lineage)))
    || (exists j :: 0 <= j < i && rows[j].Trip? && !Known(base, rows[j].lineage) && id(rows[j].lineage) == id(rows[i].lineage))
  }

  ghost function Complaint(id: StableId, base: seq<TripRow>, rows: seq<TripRow>, i: nat): Option<MergeError>
    requires i < |rows|
  {
    if rows[i].NotAnObject? then Some(Invalid)
    else if exists j :: 0 <= j < i && SameLineage(rows, j, i) then Some(ExpansionDuplicated)
    else if Known(base, rows[i].lineage) then if Changed(base, rows[i]) then Some(TripRegression) else None
    else if IdTaken(id, base, rows, i) then Some(TripIdConflict)
    else None
  }

  // ------------------------------------------------------------------ the first row reported

  ghost predicate FirstBadStop(base: seq<StopRow>, expanded: seq<StopRow>, i: nat) {
    BadStop(base, expanded, i) && forall j: nat :: j < i ==> !BadStop(base, expanded, j)
  }

  lemma {:induction false} StopsErrorMeans(base: seq<StopRow>, expanded: seq<StopRow>, n: nat) returns (i: nat)
    requires n <= |base|
    ensures StopsError(base, expanded, n) == None ==> forall j: nat :: j < n ==> !BadStop(base, expanded, j)
    ensures StopsError(base, expanded, n).Some? ==>
              i < n && FirstBadStop(base, expanded, i)
              && StopsError(base, expanded, n) == Some(if base[i].NotAStop? then Invalid else RouteRegression)
  {
    i := 0;
    if n > 0 {
      i := StopsErrorMeans(base, expanded, n - 1);
      if StopsError(base, expanded, n - 1) == None {
        i := n - 1;
        assert base[n - 1] in expanded <==> exists k :: 0 <= k < |expanded| && expanded[k] == base[n - 1];
      }
    }
  }

  lemma {:induction false} InSetsIff(rows: seq<TripRow>, n: nat, lineage: Lineage, name: string)
    requires n <= |rows|
    ensures lineage in LineagesOf(rows[..n]) <==> exists j :: 0 <= j < n && rows[j].Trip? && rows[j].lineage == lineage
    ensures name in IdsOf(rows[..n]) <==> exists j :: 0 <= j < n && rows[j].Trip? && rows[j].tripId == Some(name)
  {
    if lineage in LineagesOf(rows[..n]) {
      var r :| r in rows[..n] && r.Trip? && r.lineage == lineage;
      var j :| 0 <= j < n && rows[..n][j] == r;
      assert rows[j].lineage == lineage;
    }
    if name in IdsOf(rows[..n]) {
      var r :| r in rows[..n] && r.Trip? && r.tripId == Some(name);
      var j :| 0 <= j < n && rows[..n][j] == r;
      assert rows[j].tripId == Some(name);
    }
    forall j | 0 <= j < n ensures rows[j] in rows[..n] {
      assert rows[..n][j] == rows[j];
    }
  }

  ghost predicate FirstBadBase(rows: seq<TripRow>, i: nat) {
    BadBase(rows, i) && forall j: nat :: j < i ==> !BadBase(rows, j)
  }

  lemma {:induction false} ClashIff(rows: seq<TripRow>, i: nat)
    requires i < |rows| && !Unreadable(rows, i)
    ensures (exists j :: 0 <= j < i && Clashes(rows, j, i))
            <==> rows[i].lineage in LineagesOf(rows[..i]) || rows[i].tripId.value in IdsOf(rows[..i])
  {
    InSetsIff(rows, i, rows[i].lineage, rows[i].tripId.value);
    if j :| 0 <= j < i && rows[j].Trip? && rows[j].lineage == rows[i].lineage {
      assert Clashes(rows, j, i);
    }
    if j :| 0 <= j < i && rows[j].Trip? && rows[j].tripId == Some(rows[i].tripId.value) {
      assert Clashes(rows, j, i);
    }
  }

  lemma {:induction false} BaseErrorMeans(rows: seq<TripRow>, n: nat) returns (i: nat)
    requires n <= |rows|
    ensures BaseError(rows, n) == None ==> forall j: nat :: j < n ==> !BadBase(rows, j)
    ensures BaseError(rows, n).Some? ==>
              i < n && FirstBadBase(rows, i) && BaseError(rows, n) == Some(if Unreadable(rows, i) then Invalid else BaseDuplicated)
  {
    i := 0;
    if n > 0 {
      i := BaseErrorMeans(rows, n - 1);
      if BaseError(rows, n - 1) == None {
        i := n - 1;
        if !Unreadable(rows, n - 1) {
          ClashIff(rows, n - 1);
        }
      }
    }
  }

  lemma {:induction false} AddedIds(id: StableId, base: seq<TripRow>, rows: seq<TripRow>, n: nat, name: string)
    requires n <= |rows|
    ensures name in IdsOf(Additions(id, base, rows, n))
            <==> exists j :: 0 <= j < n && rows[j].Trip? && !Known(base, rows[j].lineage) && id(rows[j].lineage) == name
  {
    if n > 0 {
      AddedIds(id, base, rows, n - 1, name);
      var row, before := rows[n - 1], Additions(id, base, rows, n - 1);
      if row.Trip? {
        InSetsIff(base, |base|, row.lineage, name);
        assert base[..|base|] == base;
        LineagesOfAppend(before, Identified(id, row));
      }
    }
  }

  lemma {:induction false} RowErrorMeans(id: StableId, base: seq<TripRow>, rows: seq<TripRow>, i: nat)
    requires i < |rows|
    ensures RowError(id, base, LineagesOf(rows[..i]), IdsOf(base) + IdsOf(Additions(id, base, rows, i)), rows[i]) == Complaint(id, base, rows, i)
  {
    if rows[i].Trip? {
      var l := rows[i].lineage;
      InSetsIff(rows, i, l, id(l));
      assert (exists j :: 0 <= j < i && SameLineage(rows, j, i)) <==> l in LineagesOf(rows[..i]) by {
        if j :| 0 <= j < i && rows[j].Trip? && rows[j].lineage == l {
          assert SameLineage(rows, j, i);
        }
      }
      InSetsIff(base, |base|, l, id(l));
      assert base[..|base|] == base;
      AddedIds(id, base, rows, i, id(l));
      ChangedIff(base, rows[i]);
    }
  }

  lemma {:induction false} ChangedIff(base: seq<TripRow>, row: TripRow)
    requires row.Trip?
    ensures Changed(base, row) <==> Regresses(base, row)
  {
    if Regresses(base, row) {
      var b :| b in base && b.Trip? && b.lineage == row.lineage && b.fields != row.fields;
      var k :| 0 <= k < |base| && base[k] == b;
      assert base[k].fields != row.fields;
    }
  }

  ghost predicate FirstComplaint(id: StableId, base: seq<TripRow>, rows: seq<TripRow>, i: nat) {
    i < |rows| && Complaint(id, base, rows, i).Some? && forall j: nat :: j < i ==> Complaint(id, base, rows, j) == None
  }

  lemma {:induction false} ExpandedErrorMeans(id: StableId, base: seq<TripRow>, rows: seq<TripRow>, n: nat) returns (i: nat)
    requires n <= |rows|
    ensures ExpandedError(id, base, rows, n) == None ==> forall j: nat :: j < n ==> Complaint(id, base, rows, j) == None
    ensures ExpandedError(id, base, rows, n).Some? ==>
              i < n && FirstComplaint(id, base, rows, i) && ExpandedError(id, base, rows, n) == Complaint(id, base, rows, i)
  {
    i := 0;
    if n > 0 {
      i := ExpandedErrorMeans(id, base, rows, n - 1);
      if ExpandedError(id, base, rows, n - 1) == None {
        i := n - 1;
        ErrorOfNext(id, base, rows, n - 1);
        RowErrorMeans(id, base, rows, n - 1);
      }
    }
  }

  // ------------------------------------------------------------------ the answer to a merge

  /** Two stop rows of the expansion share their pattern and sequence, or one is no object. */
  ghost predicate StopsRepeat(stops: seq<StopRow>) {
    || (exists i :: 0 <= i < |stops| && stops[i].NotAStop?)
    || (exists i, j :: 0 <= i < j < |stops| && stops[i].pattern == stops[j].pattern && stops[i].sequence == stops[j].sequence)
  }

  /** A base row whose lineage no row of the expansion has. */
  ghost predicate Dropped(base: seq<TripRow>, rows: seq<TripRow>, k: nat) {
    k < |base| && base[k].Trip? && !Known(rows, base[k].lineage)
  }

  /** The error a merge must report, or none: the checks in their order, each at its first row. */
  ghost predicate Answers(id: StableId, base: Manifest, expanded: Manifest, error: Option<MergeError>) {
    if base.workbooks != expanded.workbooks then error == Some(Invalid)
    else if StopsRepeat(expanded.stops) then error == Some(RouteDuplicated)
    else if exists i: nat :: BadStop(base.stops, expanded.stops, i) then
      exists i: nat :: FirstBadStop(base.stops, expanded.stops, i) && error == Some(if base.stops[i].NotAStop? then Invalid else RouteRegression)
    else if exists i: nat :: BadBase(base.trips, i) then
      exists i: nat :: FirstBadBase(base.trips, i) && error == Some(if Unreadable(base.trips, i) then Invalid else BaseDuplicated)
    else if exists i :: 0 <= i < |expanded.trips| && Complaint(id, base.trips, expanded.trips, i).Some? then
      exists i: nat :: FirstComplaint(id, base.trips, expanded.trips, i) && error == Complaint(id, base.trips, expanded.trips, i)
    else if exists k: nat :: Dropped(base.trips, expanded.trips, k) then error == Some(TripRemoved)
    else error == None
  }

  lemma {:induction false} StopsRepeatIff(stops: seq<StopRow>)
    ensures StopsRepeat(stops) <==> !StopsOk(stops)
  {
    if StopsOk(stops) {
      forall i | 0 <= i < |stops| ensures stops[i].Stop? {
        assert stops[i] in stops;
      }
    }
    if !StopsOk(stops) {
      if s :| s in stops && !s.Stop? {
        var i :| 0 <= i < |stops| && stops[i] == s;
        assert stops[i].NotAStop?;
      }
    }
  }

  lemma {:induction false} DroppedIff(base: seq<TripRow>, rows: seq<TripRow>)
    ensures (exists k: nat :: Dropped(base, rows, k)) <==> !(LineagesOf(base) <= LineagesOf(rows))
  {
    assert base[..|base|] == base && rows[..|rows|] == rows;
    forall l ensures l in LineagesOf(base) <==> Known(base, l) {
      InSetsIff(base, |base|, l, "");
    }
    forall l ensures l in LineagesOf(rows) <==> Known(rows, l) {
      InSetsIff(rows, |rows|, l, "");
    }
    if k: nat :| Dropped(base, rows, k) {
      assert Known(base, base[k].lineage);
      assert base[k].lineage in LineagesOf(base) && base[k].lineage !in LineagesOf(rows);
    }
    if l :| l in LineagesOf(base) && l !in LineagesOf(rows) {
      var k :| 0 <= k < |base| && base[k].Trip? && base[k].lineage == l;
      assert Dropped(base, rows, k);
    }
  }

  /** Main result: the first failing check, at the first row it fails on, names the error, and a
      merge without one succeeds. */
  lemma {:induction false} MergeAnswers(id: StableId, base: Manifest, expanded: Manifest)
    ensures var merged := Merge(id, base, expanded); Answers(id, base, expanded, if merged.Err? then Some(merged.error) else None)
  {
    StopsRepeatIff(expanded.stops);
    if base.workbooks == expanded.workbooks && StopsOk(expanded.stops) {
      var i := StopsErrorMeans(base.stops, expanded.stops, |base.stops|);
      if StopsError(base.stops, expanded.stops, |base.stops|) == None {
        var j := BaseErrorMeans(base.trips, |base.trips|);
        if BaseError(base.trips, |base.trips|) == None {
          var k := ExpandedErrorMeans(id, base.trips, expanded.trips, |expanded.trips|);
          DroppedIff(base.trips, expanded.trips);
        }
      }
    }
  }

  // ------------------------------------------------------------------ the order of the merged rows

  lemma {:induction false} LineagesAreOrdered()
    ensures StrictOrder(TripLess)
  {
  }

  lemma {:induction false} AdditionsAreTrips(id: StableId, base: seq<TripRow>, rows: seq<TripRow>, n: nat)
    requires n <= |rows|
    ensures forall r :: r in Additions(id, base, rows, n) ==> r.Trip?
  {
    if n > 0 {
      AdditionsAreTrips(id, base, rows, n - 1);
    }
  }

  /** Lineages by workbook, then sheet, then row, then route. */
  ghost predicate NotAfter(a: Lineage, b: Lineage) {
    || a.workbook < b.workbook
    || (a.workbook == b.workbook && a.sheet < b.sheet)
    || (a.workbook == b.workbook && a.sheet == b.sheet && a.sourceRow < b.sourceRow)
    || (a.workbook == b.workbook && a.sheet == b.sheet && a.sourceRow == b.sourceRow && a.route <= b.route)
  }

  /** The base's rows come first, as they were; the new ones follow by lineage. */
  lemma {:induction false} NewRowsByLineage(id: StableId, base: Manifest, expanded: Manifest)
    ensures var trips := Merged(id, base, expanded).trips;
            && |base.trips| <= |trips| && trips[..|base.trips|] == base.trips
            && (forall i :: |base.trips| <= i < |trips| ==> trips[i].Trip?)
            && (forall i, j :: |base.trips| <= i < j < |trips| ==> NotAfter(trips[i].lineage, trips[j].lineage))
  {
    var additions := Additions(id, base.trips, expanded.trips, |expanded.trips|);
    var sorted, trips, n := Sort(TripLess, additions), Merged(id, base, expanded).trips, |base.trips|;
    AdditionsAreTrips(id, base.trips, expanded.trips, |expanded.trips|);
    LineagesAreOrdered();
    SortSorts(TripLess, additions);
    forall i | n <= i < |trips| ensures trips[i] == sorted[i - n] && trips[i].Trip? {
      assert sorted[i - n] in sorted;
      SortKeepsElements(TripLess, additions, sorted[i - n]);
    }
    forall i, j | n <= i < j < |trips| ensures NotAfter(trips[i].lineage, trips[j].lineage) {
      assert !TripLess(sorted[j - n], sorted[i - n]);
    }
  }

  /** `merge_incremental_mapping_manifest`. */
  method MergeIncremental(id: StableId, base: Manifest, expanded: Manifest) returns (result: Result<Manifest, MergeError>)
    ensures result == Merge(id, base, expanded)
    ensures Answers(id, base, expanded, if result.Err? then Some(result.error) else None)
    ensures result.Ok? ==> result.value.workbooks == expanded.workbooks && result.value.stops == expanded.stops && result.value.remainder == expanded.remainder
  {
    MergeAnswers(id, base, expanded);
    if base.workbooks != expanded.workbooks {
      return Err(Invalid);
    }
    var stopsError := CheckStops(base.stops, expanded.stops);
    if stopsError.Some? {
      return Err(stopsError.value);
    }
    var baseError, byLineage, tripIds := IndexBase(base.trips);
    if baseError.Some? {
      return Err(baseError.value);
    }
    var expandedError, additions, lineages := CollectAdditions(id, base.trips, byLineage, tripIds, expanded.trips);
    if expandedError.Some? {
      return Err(expandedError.value);
    }
    if byLineage.Keys - lineages != {} {
      return Err(TripRemoved);
    }
    forall l | l in LineagesOf(base.trips) ensures l in LineagesOf(expanded.trips) {
      assert l in byLineage.Keys - lineages || l in lineages;
    }
    return Ok(expanded.(trips := base.trips + Sort(TripLess, additions)));
  }
}
