/** When the incremental merge accepts, what it keeps, and why the route to a manifest does not
    matter: repeating a merge, or going through a smaller expansion, gives the same rows. */
module ManifestResults {
  import opened Common
  import opened Ordering
  import opened ManifestMerge

  // ------------------------------------------------------------------ when the merge accepts

  ghost predicate AllTrips(rows: seq<TripRow>) {
    forall r :: r in rows ==> r.Trip?
  }

  ghost predicate DistinctLineages(rows: seq<TripRow>) {
    forall i, j :: 0 <= i < j < |rows| && rows[i].Trip? && rows[j].Trip? ==> rows[i].lineage != rows[j].lineage
  }

  ghost predicate DistinctIds(rows: seq<TripRow>) {
    forall i, j :: 0 <= i < j < |rows| && rows[i].Trip? && rows[j].Trip? && rows[i].tripId.Some? ==> rows[i].tripId != rows[j].tripId
  }

  ghost predicate AllIdentified(rows: seq<TripRow>) {
    forall r :: r in rows ==> r.Trip? && r.tripId.Some?
  }

  /** Every row is a trip with an id; no lineage and no id appears twice. */
  ghost predicate Identifiable(rows: seq<TripRow>) {
    AllIdentified(rows) && DistinctLineages(rows) && DistinctIds(rows)
  }

  /** The row is there under some trip id. */
  ghost predicate HasRow(rows: seq<TripRow>, lineage: Lineage, fields: string) {
    exists r :: r in rows && r.Trip? && r.lineage == lineage && r.fields == fields
  }

  ghost predicate Contains(rows: seq<TripRow>, some: seq<TripRow>) {
    forall r :: r in some && r.Trip? ==> HasRow(rows, r.lineage, r.fields)
  }

  /** The stable ids of these lineages differ from each other and from the taken ids. */
  ghost predicate FreshIds(id: StableId, taken: set<string>, lineages: set<Lineage>) {
    && (forall l :: l in lineages ==> id(l) !in taken)
    && (forall l, m :: l in lineages && m in lineages && id(l) == id(m) ==> l == m)
  }

  ghost predicate HasStops(stops: seq<StopRow>, some: seq<StopRow>) {
    forall s :: s in some ==> s in stops
  }

  /** The expansion contains the base: the same workbooks, every stop row and every trip row. */
  ghost predicate Extends(base: Manifest, expanded: Manifest) {
    base.workbooks == expanded.workbooks && HasStops(expanded.stops, base.stops) && Contains(expanded.trips, base.trips)
  }

  ghost predicate WellFormed(expanded: Manifest) {
    StopsOk(expanded.stops) && AllTrips(expanded.trips) && DistinctLineages(expanded.trips)
  }

  ghost predicate Accepted(id: StableId, base: Manifest, expanded: Manifest) {
    && WellFormed(expanded) && Identifiable(base.trips) && Extends(base, expanded)
    && FreshIds(id, IdsOf(base.trips), LineagesOf(expanded.trips) - LineagesOf(base.trips))
  }

  lemma {:induction false} DistinctByAppending(rows: seq<TripRow>, row: TripRow)
    ensures AllTrips(rows + [row]) <==> AllTrips(rows) && row.Trip?
    ensures AllIdentified(rows + [row]) <==> AllIdentified(rows) && row.Trip? && row.tripId.Some?
    ensures row.Trip? ==> (DistinctLineages(rows + [row]) <==> DistinctLineages(rows) && row.lineage !in LineagesOf(rows))
  {
    var all := rows + [row];
    assert all[|rows|] == row;
    assert forall i :: 0 <= i < |rows| ==> all[i] == rows[i];
    assert forall r :: r in all <==> r in rows || r == row;
    if row.Trip? && row.lineage in LineagesOf(rows) {
      var r :| r in rows && r.Trip? && r.lineage == row.lineage;
      var i :| 0 <= i < |rows| && rows[i] == r;
      assert all[i] == r;
    }
  }

  lemma {:induction false} DistinctIdsByAppending(rows: seq<TripRow>, row: TripRow)
    requires row.Trip? && row.tripId.Some?
    ensures DistinctIds(rows + [row]) <==> DistinctIds(rows) && row.tripId.value !in IdsOf(rows)
  {
    var all := rows + [row];
    assert all[|rows|] == row;
    assert forall i :: 0 <= i < |rows| ==> all[i] == rows[i];
    if row.tripId.value in IdsOf(rows) {
      var r :| r in rows && r.Trip? && r.tripId == row.tripId;
      var i :| 0 <= i < |rows| && rows[i] == r;
      assert all[i] == r;
    }
  }

  lemma {:induction false} BaseAcceptedIff(rows: seq<TripRow>, n: nat)
    requires n <= |rows|
    ensures BaseError(rows, n) == None <==> Identifiable(rows[..n])
  {
    if n > 0 {
      BaseAcceptedIff(rows, n - 1);
      var front, row := rows[..n - 1], rows[n - 1];
      assert rows[..n] == front + [row];
      DistinctByAppending(front, row);
      if row.Trip? && row.tripId.Some? {
        DistinctIdsByAppending(front, row);
      }
    }
  }

  lemma {:induction false} StopsAcceptedIff(base: seq<StopRow>, expanded: seq<StopRow>, n: nat)
    requires n <= |base| && StopsOk(expanded)
    ensures StopsError(base, expanded, n) == None <==> HasStops(expanded, base[..n])
  {
    if n > 0 {
      StopsAcceptedIff(base, expanded, n - 1);
      var front, last := base[..n - 1], base[n - 1];
      assert base[..n] == front + [last];
      assert forall s :: s in front + [last] <==> s in front || s == last;
      assert last.NotAStop? ==> last !in expanded;
    }
  }

  // ------------------------------------------------------------------ what is added

  ghost function StableIds(id: StableId, lineages: set<Lineage>): set<string> {
    set l | l in lineages :: id(l)
  }

  /** The additions carry the new lineages under their stable ids, with the expansion's fields. */
  lemma {:induction false} AdditionsAre(id: StableId, base: seq<TripRow>, expanded: seq<TripRow>, n: nat)
    requires n <= |expanded|
    ensures LineagesOf(Additions(id, base, expanded, n)) == LineagesOf(expanded[..n]) - LineagesOf(base)
    ensures IdsOf(Additions(id, base, expanded, n)) == StableIds(id, LineagesOf(expanded[..n]) - LineagesOf(base))
  {
    if n > 0 {
      AdditionsAre(id, base, expanded, n - 1);
      var row := expanded[n - 1];
      assert expanded[..n] == expanded[..n - 1] + [row];
      LineagesOfAppend(expanded[..n - 1], row);
      if row.Trip? && row.lineage !in LineagesOf(base) {
        LineagesOfAppend(Additions(id, base, expanded, n - 1), Identified(id, row));
        assert LineagesOf(expanded[..n]) - LineagesOf(base) == (LineagesOf(expanded[..n - 1]) - LineagesOf(base)) + {row.lineage};
      } else {
        assert LineagesOf(expanded[..n]) - LineagesOf(base) == LineagesOf(expanded[..n - 1]) - LineagesOf(base);
      }
    }
  }

  lemma {:induction false} RowIsAddedIff(id: StableId, base: seq<TripRow>, expanded: seq<TripRow>, n: nat, x: TripRow)
    requires n <= |expanded|
    ensures x in Additions(id, base, expanded, n) <==>
            x.Trip? && x.lineage !in LineagesOf(base) && x.tripId == Some(id(x.lineage)) && HasRow(expanded[..n], x.lineage, x.fields)
  {
    if n > 0 {
      RowIsAddedIff(id, base, expanded, n - 1, x);
      var front, row := expanded[..n - 1], expanded[n - 1];
      assert expanded[..n] == front + [row];
      if x.Trip? {
        HasRowAppend(front, row, x.lineage, x.fields);
      }
    }
  }

  lemma {:induction false} HasRowAppend(rows: seq<TripRow>, row: TripRow, lineage: Lineage, fields: string)
    ensures HasRow(rows + [row], lineage, fields) <==> HasRow(rows, lineage, fields) || (row.Trip? && row.lineage == lineage && row.fields == fields)
  {
    var all := rows + [row];
    assert forall r :: r in all <==> r in rows || r == row;
  }

  // ------------------------------------------------------------------ the expansion's rows

  ghost predicate NoneRegresses(base: seq<TripRow>, rows: seq<TripRow>) {
    forall r :: r in rows && r.Trip? ==> !Regresses(base, r)
  }

  lemma {:induction false} FreshIdsAdd(id: StableId, taken: set<string>, lineages: set<Lineage>, l: Lineage)
    requires l !in lineages
    ensures FreshIds(id, taken, lineages + {l}) <==> FreshIds(id, taken, lineages) && id(l) !in taken + StableIds(id, lineages)
  {
    if FreshIds(id, taken, lineages + {l}) {
      assert l in lineages + {l};
      assert forall m :: m in lineages ==> m in lineages + {l};
    }
  }

  /** Rows of an expansion that no check reports. */
  ghost predicate ExpansionFine(id: StableId, base: seq<TripRow>, rows: seq<TripRow>) {
    && AllTrips(rows) && DistinctLineages(rows) && NoneRegresses(base, rows)
    && FreshIds(id, IdsOf(base), LineagesOf(rows) - LineagesOf(base))
  }

  lemma {:induction false} ExpandedAcceptedIff(id: StableId, base: seq<TripRow>, expanded: seq<TripRow>, n: nat)
    requires n <= |expanded|
    ensures ExpandedError(id, base, expanded, n) == None <==> ExpansionFine(id, base, expanded[..n])
  {
    if n == 0 {
      assert LineagesOf(expanded[..0]) - LineagesOf(base) == {};
    } else {
      ExpandedAcceptedIff(id, base, expanded, n - 1);
      ExpandedErrorNext(id, base, expanded, n);
      assert expanded[..n] == expanded[..n - 1] + [expanded[n - 1]];
      RowAcceptedIff(id, base, expanded[..n - 1], expanded[n - 1]);
    }
  }

  lemma {:induction false} RegressesOneMore(base: seq<TripRow>, front: seq<TripRow>, row: TripRow)
    ensures NoneRegresses(base, front + [row]) <==> NoneRegresses(base, front) && (row.Trip? ==> !Regresses(base, row))
  {
    assert forall r :: r in front + [row] <==> r in front || r == row;
  }

  lemma {:induction false} UnknownNeverRegresses(base: seq<TripRow>, row: TripRow)
    requires row.Trip? && row.lineage !in LineagesOf(base)
    ensures !Regresses(base, row)
  {
  }

  lemma {:induction false} FreshOneMore(id: StableId, base: seq<TripRow>, front: seq<TripRow>, row: TripRow)
    requires row.Trip? && row.lineage !in LineagesOf(front)
    ensures var before := LineagesOf(front) - LineagesOf(base);
            FreshIds(id, IdsOf(base), LineagesOf(front + [row]) - LineagesOf(base))
            <==> FreshIds(id, IdsOf(base), before) && (row.lineage in LineagesOf(base) || id(row.lineage) !in IdsOf(base) + StableIds(id, before))
  {
    var before := LineagesOf(front) - LineagesOf(base);
    LineagesOfAppend(front, row);
    if row.lineage in LineagesOf(base) {
      assert LineagesOf(front + [row]) - LineagesOf(base) == before;
    } else {
      assert LineagesOf(front + [row]) - LineagesOf(base) == before + {row.lineage};
      FreshIdsAdd(id, IdsOf(base), before, row.lineage);
    }
  }

  /** Some rows and one more are fine when the rows are and the check of that one passes. */
  lemma {:induction false} RowAcceptedIff(id: StableId, base: seq<TripRow>, front: seq<TripRow>, row: TripRow)
    ensures ExpansionFine(id, base, front + [row]) <==>
            ExpansionFine(id, base, front)
            && RowError(id, base, LineagesOf(front), IdsOf(base) + StableIds(id, LineagesOf(front) - LineagesOf(base)), row) == None
  {
    DistinctByAppending(front, row);
    RegressesOneMore(base, front, row);
    if row.Trip? && row.lineage !in LineagesOf(front) {
      FreshOneMore(id, base, front, row);
      if row.lineage !in LineagesOf(base) {
        UnknownNeverRegresses(base, row);
      }
    }
  }

  lemma {:induction false} ExpandedErrorNext(id: StableId, base: seq<TripRow>, expanded: seq<TripRow>, n: nat)
    requires 0 < n <= |expanded|
    ensures var front := LineagesOf(expanded[..n - 1]);
            ExpandedError(id, base, expanded, n) == None <==>
            ExpandedError(id, base, expanded, n - 1) == None
            && RowError(id, base, front, IdsOf(base) + StableIds(id, front - LineagesOf(base)), expanded[n - 1]) == None
  {
    AdditionsAre(id, base, expanded, n - 1);
  }

  lemma {:induction false} LineageDeterminesRow(rows: seq<TripRow>, a: TripRow, b: TripRow)
    requires DistinctLineages(rows) && a in rows && b in rows && a.Trip? && b.Trip? && a.lineage == b.lineage
    ensures a == b
  {
    var i :| 0 <= i < |rows| && rows[i] == a;
    var j :| 0 <= j < |rows| && rows[j] == b;
  }

  lemma {:induction false} ContainsIff(base: seq<TripRow>, expanded: seq<TripRow>)
    requires DistinctLineages(expanded)
    ensures NoneRegresses(base, expanded) && LineagesOf(base) <= LineagesOf(expanded) <==> Contains(expanded, base)
  {
    if NoneRegresses(base, expanded) && LineagesOf(base) <= LineagesOf(expanded) {
      forall b | b in base && b.Trip? ensures HasRow(expanded, b.lineage, b.fields) {
        assert b.lineage in LineagesOf(expanded);
        var e :| e in expanded && e.Trip? && e.lineage == b.lineage;
        assert !Regresses(base, e);
      }
    }
    if Contains(expanded, base) {
      forall l | l in LineagesOf(base) ensures l in LineagesOf(expanded) {
        var b :| b in base && b.Trip? && b.lineage == l;
        assert HasRow(expanded, b.lineage, b.fields);
      }
      forall e | e in expanded && e.Trip? ensures !Regresses(base, e) {
        forall b | b in base && b.Trip? && b.lineage == e.lineage ensures b.fields == e.fields {
          assert HasRow(expanded, b.lineage, b.fields);
          var r :| r in expanded && r.Trip? && r.lineage == b.lineage && r.fields == b.fields;
          LineageDeterminesRow(expanded, e, r);
        }
      }
    }
  }

  /** The merge succeeds exactly for a well-formed expansion that contains the base, whose new
      rows get ids nobody has. */
  lemma {:induction false} MergeAcceptsIff(id: StableId, base: Manifest, expanded: Manifest)
    ensures Merge(id, base, expanded).Ok? <==> Accepted(id, base, expanded)
  {
    assert base.stops[..|base.stops|] == base.stops;
    assert base.trips[..|base.trips|] == base.trips;
    assert expanded.trips[..|expanded.trips|] == expanded.trips;
    if StopsOk(expanded.stops) {
      StopsAcceptedIff(base.stops, expanded.stops, |base.stops|);
    }
    BaseAcceptedIff(base.trips, |base.trips|);
    ExpandedAcceptedIff(id, base.trips, expanded.trips, |expanded.trips|);
    if DistinctLineages(expanded.trips) {
      ContainsIff(base.trips, expanded.trips);
    }
  }

  // ------------------------------------------------------------------ what an accepted merge gives

  /** A row of the merge is a base row, or a row of the expansion with a new lineage under its
      stable id. */
  lemma {:induction false} RowIsMergedIff(id: StableId, base: Manifest, expanded: Manifest, x: TripRow)
    ensures x in Merged(id, base, expanded).trips <==>
            x in base.trips
            || (x.Trip? && x.lineage !in LineagesOf(base.trips) && x.tripId == Some(id(x.lineage))
                && HasRow(expanded.trips, x.lineage, x.fields))
  {
    var all := expanded.trips;
    var additions := Additions(id, base.trips, all, |all|);
    assert all[..|all|] == all;
    RowIsAddedIff(id, base.trips, all, |all|, x);
    SortKeepsElements(TripLess, additions, x);
  }

  /** The merged lineages are exactly the expansion's. */
  lemma {:induction false} LineagesOfMerged(id: StableId, base: Manifest, expanded: Manifest)
    requires Contains(expanded.trips, base.trips)
    ensures LineagesOf(Merged(id, base, expanded).trips) == LineagesOf(expanded.trips)
    ensures IdsOf(Merged(id, base, expanded).trips)
            == IdsOf(base.trips) + StableIds(id, LineagesOf(expanded.trips) - LineagesOf(base.trips))
  {
    var all := expanded.trips;
    var additions := Additions(id, base.trips, all, |all|);
    assert all[..|all|] == all;
    AdditionsAre(id, base.trips, all, |all|);
    SameRowsSameSets(Sort(TripLess, additions), additions);
    SetsOfJoined(base.trips, Sort(TripLess, additions));
    forall b | b in base.trips && b.Trip? ensures b.lineage in LineagesOf(all) {
      assert HasRow(all, b.lineage, b.fields);
    }
  }

  lemma {:induction false} SameRowsSameSets(a: seq<TripRow>, b: seq<TripRow>)
    requires multiset(a) == multiset(b)
    ensures LineagesOf(a) == LineagesOf(b) && IdsOf(a) == IdsOf(b)
  {
    forall x ensures x in a <==> x in b {
      assert x in multiset(a) <==> x in multiset(b);
    }
  }

  lemma {:induction false} SetsOfJoined(a: seq<TripRow>, b: seq<TripRow>)
    ensures LineagesOf(a + b) == LineagesOf(a) + LineagesOf(b)
    ensures IdsOf(a + b) == IdsOf(a) + IdsOf(b)
  {
    assert forall x :: x in a + b <==> x in a || x in b;
  }

  lemma {:induction false} AdditionsDistinct(id: StableId, base: seq<TripRow>, expanded: seq<TripRow>, n: nat)
    requires n <= |expanded| && DistinctLineages(expanded)
    ensures DistinctLineages(Additions(id, base, expanded, n)) && AllTrips(Additions(id, base, expanded, n))
  {
    if n > 0 {
      AdditionsDistinct(id, base, expanded, n - 1);
      var front, row := expanded[..n - 1], expanded[n - 1];
      if row.Trip? && row.lineage !in LineagesOf(base) {
        AdditionsAre(id, base, expanded, n - 1);
        forall r | r in front && r.Trip? ensures r.lineage != row.lineage {
          var k :| 0 <= k < n - 1 && front[k] == r;
          assert expanded[k] == r;
        }
        DistinctByAppending(Additions(id, base, expanded, n - 1), Identified(id, row));
      }
    }
  }

  lemma {:induction false} SortKeepsLineagesDistinct(rows: seq<TripRow>)
    requires DistinctLineages(rows) && AllTrips(rows)
    ensures DistinctLineages(Sort(TripLess, rows))
  {
    var sorted := Sort(TripLess, rows);
    assert Distinct(rows) by {
      forall i, j | 0 <= i < j < |rows| ensures rows[i] != rows[j] {
        assert rows[i] in rows && rows[j] in rows;
      }
    }
    SortKeepsDistinct(TripLess, rows);
    forall i, j | 0 <= i < j < |sorted| && sorted[i].Trip? && sorted[j].Trip? ensures sorted[i].lineage != sorted[j].lineage {
      SortKeepsElements(TripLess, rows, sorted[i]);
      SortKeepsElements(TripLess, rows, sorted[j]);
      if sorted[i].lineage == sorted[j].lineage {
        LineageDeterminesRow(rows, sorted[i], sorted[j]);
      }
    }
  }

  lemma {:induction false} JoinedIsIdentifiable(a: seq<TripRow>, b: seq<TripRow>)
    requires Identifiable(a) && Identifiable(b)
    requires LineagesOf(a) !! LineagesOf(b) && IdsOf(a) !! IdsOf(b)
    ensures Identifiable(a + b)
  {
    var all := a + b;
    forall i, j | 0 <= i < j < |all| ensures all[i].lineage != all[j].lineage && all[i].tripId != all[j].tripId {
      if i < |a| <= j {
        assert all[i] in a && all[j] in b;
        assert all[i].lineage in LineagesOf(a) && all[j].lineage in LineagesOf(b);
        assert all[i].tripId.value in IdsOf(a) && all[j].tripId.value in IdsOf(b);
      } else if j < |a| {
        assert all[i] == a[i] && all[j] == a[j];
        assert a[i] in a && a[j] in a;
      } else {
        assert all[i] == b[i - |a|] && all[j] == b[j - |a|];
        assert b[i - |a|] in b && b[j - |a|] in b;
      }
    }
  }

  lemma {:induction false} AdditionsIdentifiable(id: StableId, base: seq<TripRow>, expanded: seq<TripRow>)
    requires DistinctLineages(expanded) && FreshIds(id, IdsOf(base), LineagesOf(expanded) - LineagesOf(base))
    ensures Identifiable(Sort(TripLess, Additions(id, base, expanded, |expanded|)))
  {
    var additions := Additions(id, base, expanded, |expanded|);
    var sorted := Sort(TripLess, additions);
    assert expanded[..|expanded|] == expanded;
    AdditionsDistinct(id, base, expanded, |expanded|);
    SortKeepsLineagesDistinct(additions);
    AdditionsAre(id, base, expanded, |expanded|);
    forall r | r in sorted ensures r.Trip? && r.tripId == Some(id(r.lineage)) && r.lineage in LineagesOf(expanded) - LineagesOf(base) {
      SortKeepsElements(TripLess, additions, r);
      RowIsAddedIff(id, base, expanded, |expanded|, r);
      assert r.lineage in LineagesOf(additions);
    }
    forall i, j | 0 <= i < j < |sorted| ensures sorted[i].tripId != sorted[j].tripId {
      assert sorted[i] in sorted && sorted[j] in sorted;
    }
  }

  /** An accepted merge is itself a manifest the merge accepts as a base: no lineage and no trip
      id appears twice. */
  lemma {:induction false} MergedIsIdentifiable(id: StableId, base: Manifest, expanded: Manifest)
    requires Accepted(id, base, expanded)
    ensures Identifiable(Merged(id, base, expanded).trips)
  {
    var all := expanded.trips;
    var sorted := Sort(TripLess, Additions(id, base.trips, all, |all|));
    assert all[..|all|] == all;
    AdditionsIdentifiable(id, base.trips, all);
    AdditionsAre(id, base.trips, all, |all|);
    SameRowsSameSets(sorted, Additions(id, base.trips, all, |all|));
    JoinedIsIdentifiable(base.trips, sorted);
  }

  /** The earlier rows come first, unchanged; the trip ids are distinct; the lineages are exactly
      the expansion's, each once; and every trip has the fields the expansion gives it. */
  lemma {:induction false} MergeKeepsBase(id: StableId, base: Manifest, expanded: Manifest)
    requires Merge(id, base, expanded).Ok?
    ensures var merged := Merge(id, base, expanded).value;
            && base.trips <= merged.trips
            && Identifiable(merged.trips)
            && LineagesOf(merged.trips) == LineagesOf(expanded.trips)
            && Contains(expanded.trips, merged.trips)
            && |merged.trips| == |expanded.trips|
  {
    var merged := Merge(id, base, expanded).value;
    MergeAcceptsIff(id, base, expanded);
    MergedIsIdentifiable(id, base, expanded);
    LineagesOfMerged(id, base, expanded);
    MergedIsContained(id, base, expanded);
    OneRowPerLineage(merged.trips);
    OneRowPerLineage(expanded.trips);
  }

  lemma {:induction false} MergedIsContained(id: StableId, base: Manifest, expanded: Manifest)
    requires Contains(expanded.trips, base.trips)
    ensures Contains(expanded.trips, Merged(id, base, expanded).trips)
  {
    forall x | x in Merged(id, base, expanded).trips && x.Trip? ensures HasRow(expanded.trips, x.lineage, x.fields) {
      RowIsMergedIff(id, base, expanded, x);
    }
  }

  lemma {:induction false} OneRowPerLineage(rows: seq<TripRow>)
    requires AllTrips(rows) && DistinctLineages(rows)
    ensures |LineagesOf(rows)| == |rows|
  {
    if rows != [] {
      var front, row := rows[..|rows| - 1], rows[|rows| - 1];
      assert rows == front + [row];
      DistinctByAppending(front, row);
      OneRowPerLineage(front);
      LineagesOfAppend(front, row);
    }
  }

  // ------------------------------------------------------------------ merging again, merging in steps

  /** Merging the result with the same expansion adds nothing. */
  lemma {:induction false} MergeIsIdempotent(id: StableId, base: Manifest, expanded: Manifest)
    requires Merge(id, base, expanded).Ok?
    ensures Merge(id, Merge(id, base, expanded).value, expanded) == Merge(id, base, expanded)
  {
    var merged := Merge(id, base, expanded).value;
    MergeAcceptsIff(id, base, expanded);
    MergeKeepsBase(id, base, expanded);
    assert LineagesOf(expanded.trips) - LineagesOf(merged.trips) == {};
    assert Accepted(id, merged, expanded);
    MergeAcceptsIff(id, merged, expanded);
    NothingToAdd(id, merged.trips, expanded.trips, |expanded.trips|);
    assert Sort(TripLess, []) == [] && merged.trips + [] == merged.trips;
  }

  lemma {:induction false} NothingToAdd(id: StableId, base: seq<TripRow>, expanded: seq<TripRow>, n: nat)
    requires n <= |expanded| && LineagesOf(expanded) <= LineagesOf(base)
    ensures Additions(id, base, expanded, n) == []
  {
    if n > 0 {
      NothingToAdd(id, base, expanded, n - 1);
      assert expanded[n - 1] in expanded;
    }
  }

  lemma {:induction false} FreshInSteps(id: StableId, taken: set<string>, first: set<Lineage>, second: set<Lineage>)
    requires first !! second
    ensures FreshIds(id, taken, first + second) <==> FreshIds(id, taken, first) && FreshIds(id, taken + StableIds(id, first), second)
  {
    if FreshIds(id, taken, first + second) {
      forall l | l in second ensures id(l) !in taken + StableIds(id, first) {
        assert l in first + second;
      }
    }
    if FreshIds(id, taken, first) && FreshIds(id, taken + StableIds(id, first), second) {
      forall l, m | l in first + second && m in first + second && id(l) == id(m) ensures l == m {
        assert l in first ==> id(l) in StableIds(id, first);
        assert m in first ==> id(m) in StableIds(id, first);
      }
    }
  }

  lemma {:induction false} ContainsInSteps(base: seq<TripRow>, middle: seq<TripRow>, expanded: seq<TripRow>)
    requires Contains(middle, base) && Contains(expanded, middle)
    ensures Contains(expanded, base)
  {
    forall b | b in base && b.Trip? ensures HasRow(expanded, b.lineage, b.fields) {
      assert HasRow(middle, b.lineage, b.fields);
      var m :| m in middle && m.Trip? && m.lineage == b.lineage && m.fields == b.fields;
      assert HasRow(expanded, m.lineage, m.fields);
    }
  }

  lemma {:induction false} LineagesContained(some: seq<TripRow>, rows: seq<TripRow>)
    requires Contains(rows, some)
    ensures LineagesOf(some) <= LineagesOf(rows)
  {
    forall b | b in some && b.Trip? ensures b.lineage in LineagesOf(rows) {
      assert HasRow(rows, b.lineage, b.fields);
    }
  }

  /** The middle manifest's rows and the merged rows are contained in the same expansions. */
  lemma {:induction false} SameContainment(id: StableId, base: Manifest, middle: Manifest, expanded: seq<TripRow>)
    requires Merge(id, base, middle).Ok?
    ensures Contains(expanded, Merge(id, base, middle).value.trips) <==> Contains(expanded, middle.trips)
  {
    var merged := Merge(id, base, middle).value;
    MergeAcceptsIff(id, base, middle);
    MergeKeepsBase(id, base, middle);
    if Contains(expanded, middle.trips) {
      ContainsInSteps(merged.trips, middle.trips, expanded);
    }
    if Contains(expanded, merged.trips) {
      assert Contains(merged.trips, middle.trips) by {
        forall m | m in middle.trips && m.Trip? ensures HasRow(merged.trips, m.lineage, m.fields) {
          assert m.lineage in LineagesOf(merged.trips);
          var x :| x in merged.trips && x.Trip? && x.lineage == m.lineage;
          assert HasRow(middle.trips, x.lineage, x.fields);
          var y :| y in middle.trips && y.Trip? && y.lineage == x.lineage && y.fields == x.fields;
          LineageDeterminesRow(middle.trips, m, y);
        }
      }
      ContainsInSteps(middle.trips, merged.trips, expanded);
    }
  }

  /** Going through a middle manifest succeeds exactly when the direct merge does and the middle
      is no more than the expansion. */
  lemma {:induction false} StepsAcceptIff(id: StableId, base: Manifest, middle: Manifest, expanded: Manifest)
    requires Merge(id, base, middle).Ok?
    ensures Merge(id, Merge(id, base, middle).value, expanded).Ok?
            <==> Merge(id, base, expanded).Ok? && Extends(middle, expanded)
  {
    var merged := Merge(id, base, middle).value;
    MergeAcceptsIff(id, base, middle);
    MergeAcceptsIff(id, base, expanded);
    MergeAcceptsIff(id, merged, expanded);
    MergeKeepsBase(id, base, middle);
    SameContainment(id, base, middle, expanded.trips);
    assert Extends(merged, expanded) <==> Extends(middle, expanded);
    if Extends(middle, expanded) {
      ContainsInSteps(base.trips, middle.trips, expanded.trips);
      FreshThroughMiddle(id, base, middle, expanded);
    }
  }

  lemma {:induction false} FreshThroughMiddle(id: StableId, base: Manifest, middle: Manifest, expanded: Manifest)
    requires Accepted(id, base, middle) && Contains(expanded.trips, middle.trips)
    ensures FreshIds(id, IdsOf(base.trips), LineagesOf(expanded.trips) - LineagesOf(base.trips))
            <==> FreshIds(id, IdsOf(Merged(id, base, middle).trips), LineagesOf(expanded.trips) - LineagesOf(middle.trips))
  {
    var first, second := LineagesOf(middle.trips) - LineagesOf(base.trips), LineagesOf(expanded.trips) - LineagesOf(middle.trips);
    LineagesOfMerged(id, base, middle);
    LineagesContained(base.trips, middle.trips);
    LineagesContained(middle.trips, expanded.trips);
    assert first + second == LineagesOf(expanded.trips) - LineagesOf(base.trips);
    FreshInSteps(id, IdsOf(base.trips), first, second);
  }

  /** Either way every trip gets the same row, so the same id: only the order of the rows differs. */
  lemma {:induction false} MergeIsPathIndependent(id: StableId, base: Manifest, middle: Manifest, expanded: Manifest, merged: Manifest, stepwise: Manifest)
    requires Merge(id, base, middle) == Ok(merged) && Merge(id, merged, expanded) == Ok(stepwise)
    ensures Merge(id, base, expanded).Ok?
    ensures var direct := Merge(id, base, expanded).value;
            && stepwise.workbooks == direct.workbooks && stepwise.stops == direct.stops && stepwise.remainder == direct.remainder
            && multiset(stepwise.trips) == multiset(direct.trips)
  {
    StepsAcceptIff(id, base, middle, expanded);
    MergeAcceptsIff(id, base, middle);
    MergeAcceptsIff(id, base, expanded);
    MergeAcceptsIff(id, merged, expanded);
    var direct := Merged(id, base, expanded);
    MergedIsIdentifiable(id, base, expanded);
    MergedIsIdentifiable(id, merged, expanded);
    forall x ensures x in stepwise.trips <==> x in direct.trips {
      SameRowEitherWay(id, base, middle, expanded, x);
    }
    IdentifiableIsDistinct(stepwise.trips);
    IdentifiableIsDistinct(direct.trips);
    DistinctPermutes(stepwise.trips, direct.trips);
  }

  lemma {:induction false} SameRowEitherWay(id: StableId, base: Manifest, middle: Manifest, expanded: Manifest, x: TripRow)
    requires Accepted(id, base, middle) && Extends(middle, expanded) && Accepted(id, base, expanded)
    ensures x in Merged(id, Merged(id, base, middle), expanded).trips <==> x in Merged(id, base, expanded).trips
  {
    var merged := Merged(id, base, middle);
    RowIsMergedIff(id, base, middle, x);
    RowIsMergedIff(id, base, expanded, x);
    RowIsMergedIff(id, merged, expanded, x);
    LineagesOfMerged(id, base, middle);
    LineagesContained(base.trips, middle.trips);
    if x.Trip? && x.lineage in LineagesOf(middle.trips) {
      assert HasRow(middle.trips, x.lineage, x.fields) <==> HasRow(expanded.trips, x.lineage, x.fields) by {
        MiddleRowIffExpandedRow(middle.trips, expanded.trips, x.lineage, x.fields);
      }
    }
  }

  lemma {:induction false} MiddleRowIffExpandedRow(middle: seq<TripRow>, expanded: seq<TripRow>, l: Lineage, fields: string)
    requires DistinctLineages(expanded) && Contains(expanded, middle) && l in LineagesOf(middle)
    ensures HasRow(middle, l, fields) <==> HasRow(expanded, l, fields)
  {
    var m :| m in middle && m.Trip? && m.lineage == l;
    assert HasRow(expanded, m.lineage, m.fields);
    var e :| e in expanded && e.Trip? && e.lineage == l && e.fields == m.fields;
    if HasRow(middle, l, fields) {
      var r :| r in middle && r.Trip? && r.lineage == l && r.fields == fields;
      assert HasRow(expanded, r.lineage, r.fields);
    }
    if HasRow(expanded, l, fields) {
      var r :| r in expanded && r.Trip? && r.lineage == l && r.fields == fields;
      LineageDeterminesRow(expanded, e, r);
    }
  }

  lemma {:induction false} IdentifiableIsDistinct(rows: seq<TripRow>)
    requires Identifiable(rows)
    ensures Distinct(rows)
  {
    forall i, j | 0 <= i < j < |rows| ensures rows[i] != rows[j] {
      assert rows[i] in rows && rows[j] in rows;
    }
  }
}
