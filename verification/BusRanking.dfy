/** Which states a layer keeps and which orders are returned, written out: what is compared, in
    which order, and how many come first. */
module BusRanking {
  import opened Common
  import opened Ordering
  import opened BusBoarding
  import opened BusSearch
  import opened BusItinerary
  import opened BusKeys
  import opened BusOrderFree
  import opened BusMeaning

  // ------------------------------------------------------------------ the first so many of a sorted list

  /** In a sorted list without repetition as many stand before an element as come first. */
  lemma {:induction false} RankIsPosition<T(!new)>(less: (T, T) -> bool, sorted: seq<T>, i: nat)
    requires StrictOrder(less) && SortedBy(less, sorted) && Distinct(sorted) && i < |sorted|
    requires forall x, y :: x in sorted && y in sorted && x != y ==> less(x, y) || less(y, x)
    ensures |set y | y in sorted && less(y, sorted[i])| == i
  {
    var before := sorted[..i];
    assert Distinct(before);
    DistinctByCount(before);
    forall y ensures y in before <==> y in sorted && less(y, sorted[i]) {
      if y in before {
        var k :| 0 <= k < i && sorted[k] == y;
        assert !less(sorted[i], sorted[k]) && sorted[k] != sorted[i];
      }
      if y in sorted && less(y, sorted[i]) {
        var k :| 0 <= k < |sorted| && sorted[k] == y;
        assert !less(sorted[i], sorted[i]);
        assert k < i;
        assert before[k] == y;
      }
    }
    assert (set y | y in sorted && less(y, sorted[i])) == set y | y in before;
  }

  /** Sorting and cutting keeps exactly those before which fewer than `limit` come. */
  lemma {:induction false} CutByRank<T(!new)>(less: (T, T) -> bool, s: seq<T>, limit: nat, x: T, ahead: set<T>)
    requires StrictOrder(less) && Distinct(s)
    requires forall a, b :: a in s && b in s && a != b ==> less(a, b) || less(b, a)
    requires forall y :: y in ahead <==> y in s && less(y, x)
    ensures x in Take(Sort(less, s), limit) <==> x in s && |ahead| < limit
  {
    var sorted := Sort(less, s);
    SortSorts(less, s);
    SortKeepsDistinct(less, s);
    forall y ensures y in sorted <==> y in s {
      SortKeepsElements(less, s, y);
    }
    if x in s {
      var i :| 0 <= i < |sorted| && sorted[i] == x;
      RankIsPosition(less, sorted, i);
      assert (set y | y in sorted && less(y, sorted[i])) == ahead;
      TakeHoldsPosition(sorted, limit, i);
    }
  }

  lemma {:induction false} TakeHoldsPosition<T>(s: seq<T>, limit: nat, i: nat)
    requires Distinct(s) && i < |s|
    ensures s[i] in Take(s, limit) <==> i < limit
  {
    if i < limit {
      assert Take(s, limit)[i] == s[i];
    }
  }

  // ------------------------------------------------------------------ the comparisons, written out

  /** At the first position where they differ `a` has the smaller place, or `a` ends there. */
  ghost predicate SmallerOrder(a: seq<PlaceId>, b: seq<PlaceId>) {
    exists k: nat :: SmallerFrom(a, b, k)
  }

  predicate SmallerFrom(a: seq<PlaceId>, b: seq<PlaceId>, k: nat) {
    k <= |a| && k < |b| && a[..k] == b[..k] && (k == |a| || a[k] < b[k])
  }

  lemma {:induction false} SmallerFromHead(a: seq<PlaceId>, b: seq<PlaceId>, k: nat)
    requires SmallerFrom(a, b, k)
    ensures k > 0 ==> a != [] && b != [] && a[0] == b[0]
  {
    if k > 0 {
      assert a[..k][0] == b[..k][0];
    }
  }

  lemma {:induction false} LexLessMeans(a: seq<PlaceId>, b: seq<PlaceId>)
    ensures LexLess(a, b) <==> SmallerOrder(a, b)
    decreases |a|
  {
    if a == [] || b == [] || a[0] != b[0] {
      if LexLess(a, b) {
        assert SmallerFrom(a, b, 0);
      }
      if SmallerOrder(a, b) {
        var k: nat :| SmallerFrom(a, b, k);
        SmallerFromHead(a, b, k);
      }
    } else {
      LexLessMeans(a[1..], b[1..]);
      if LexLess(a, b) {
        var k: nat :| SmallerFrom(a[1..], b[1..], k);
        assert a[..k + 1] == [a[0]] + a[1..][..k] && b[..k + 1] == [b[0]] + b[1..][..k];
        assert SmallerFrom(a, b, k + 1);
      }
      if SmallerOrder(a, b) {
        var k: nat :| SmallerFrom(a, b, k);
        assert a[..k] == b[..k] && k > 0;
        assert a[1..][..k - 1] == a[..k][1..] && b[1..][..k - 1] == b[..k][1..];
        assert SmallerFrom(a[1..], b[1..], k - 1);
      }
    }
  }

  /** The state ends earlier, or as early with less time since a rest, or equal in both with the
      smaller order. */
  ghost predicate Beats(a: State, b: State) {
    || a.at < b.at
    || (a.at == b.at && a.continuous < b.continuous)
    || (a.at == b.at && a.continuous == b.continuous && SmallerOrder(a.used, b.used))
  }

  lemma {:induction false} StateLessMeans(a: State, b: State)
    ensures StateLess(a, b) <==> Beats(a, b)
  {
    LexLessMeans(a.used, b.used);
  }

  /** The places of the order whose opening hours are not verified. */
  ghost function Unsure(q: Request, order: seq<PlaceId>): set<PlaceId> {
    set id | id in order && id in q.places && !q.places[id].verifiedHours
  }

  /** Fewer places with unverified hours, or as many and home earlier, or equal in both with the
      smaller order. */
  ghost predicate Ahead(q: Request, a: Solution, b: Solution) {
    || |Unsure(q, a.order)| < |Unsure(q, b.order)|
    || (|Unsure(q, a.order)| == |Unsure(q, b.order)| && a.returnAt < b.returnAt)
    || (|Unsure(q, a.order)| == |Unsure(q, b.order)| && a.returnAt == b.returnAt && SmallerOrder(a.order, b.order))
  }

  lemma {:induction false} UnknownHoursMeans(q: Request, order: seq<PlaceId>)
    requires NoDuplicates(order)
    ensures UnknownHours(q, order) == |Unsure(q, order)|
  {
    if order == [] {
      assert Unsure(q, order) == {};
    } else {
      var first, rest := order[0], order[1..];
      UnknownHoursMeans(q, rest);
      assert order == [first] + rest && first !in rest;
      if first in q.places && !q.places[first].verifiedHours {
        assert Unsure(q, order) == Unsure(q, rest) + {first};
      } else {
        assert Unsure(q, order) == Unsure(q, rest);
      }
    }
  }

  lemma {:induction false} RankLessMeans(q: Request, a: Solution, b: Solution)
    requires NoDuplicates(a.order) && NoDuplicates(b.order)
    ensures RankLess(q, a, b) <==> Ahead(q, a, b)
  {
    UnknownHoursMeans(q, a.order);
    UnknownHoursMeans(q, b.order);
    LexLessMeans(a.order, b.order);
  }

  // ------------------------------------------------------------------ one layer

  /** Some state of the layer before can visit a place of the role and then be `x`. */
  ghost predicate Reaches(q: Request, useMinimum: bool, role: Role, states: seq<State>, x: State) {
    exists s, id :: s in states && id in q.places && q.places[id].role == role && Visited(q, useMinimum, s, id) == Some(x)
  }

  /** Nobody with the same last place and the same set of places beats it. */
  ghost predicate BestOfKey(q: Request, useMinimum: bool, role: Role, states: seq<State>, x: State) {
    && Reaches(q, useMinimum, role, states, x)
    && forall y :: Reaches(q, useMinimum, role, states, y) && y.current == x.current && (forall id :: id in y.used <==> id in x.used) ==> !Beats(y, x)
  }

  lemma {:induction false} CandidateReaches(q: Request, useMinimum: bool, role: Role, states: seq<State>, x: State)
    requires q.Valid()
    ensures Candidate(q, useMinimum, states, Choices(q, role, |q.ids|), x) <==> Reaches(q, useMinimum, role, states, x)
  {
    assert q.ids[..|q.ids|] == q.ids;
  }

  lemma {:induction false} SameKeyMeans(a: State, b: State)
    ensures SameKey(a, b) <==> a.current == b.current && forall id :: id in a.used <==> id in b.used
  {
    if SameKey(a, b) {
      forall id ensures id in a.used <==> id in b.used {
        assert id in Elements(a.used) <==> id in Elements(b.used);
      }
    }
    if forall id :: id in a.used <==> id in b.used {
      assert Elements(a.used) == Elements(b.used);
    }
  }

  lemma {:induction false} UnbeatenMeans(q: Request, useMinimum: bool, role: Role, states: seq<State>, x: State)
    requires q.Valid()
    ensures Unbeaten(q, useMinimum, states, Choices(q, role, |q.ids|), x) <==> BestOfKey(q, useMinimum, role, states, x)
  {
    CandidateReaches(q, useMinimum, role, states, x);
    forall y
      ensures Candidate(q, useMinimum, states, Choices(q, role, |q.ids|), y) <==> Reaches(q, useMinimum, role, states, y)
      ensures StateLess(y, x) <==> Beats(y, x)
      ensures SameKey(x, y) <==> y.current == x.current && forall id :: id in y.used <==> id in x.used
    {
      CandidateReaches(q, useMinimum, role, states, y);
      StateLessMeans(y, x);
      SameKeyMeans(y, x);
    }
  }

  lemma {:induction false} OfferedMeans(q: Request, useMinimum: bool, role: Role, states: seq<State>, x: State)
    requires q.Valid()
    ensures x in Offered(q, useMinimum, role, states) <==> BestOfKey(q, useMinimum, role, states, x)
  {
    KeptIffUnbeaten(q, useMinimum, states, Choices(q, role, |q.ids|), x);
    UnbeatenMeans(q, useMinimum, role, states, x);
  }

  lemma {:induction false} OfferedSeparates(q: Request, useMinimum: bool, role: Role, states: seq<State>, x: State, y: State)
    requires q.Valid() && x in Offered(q, useMinimum, role, states) && y in Offered(q, useMinimum, role, states) && x != y
    ensures StateLess(x, y) || StateLess(y, x)
  {
    OfferedEndThere(q, useMinimum, role, states, x);
    OfferedEndThere(q, useMinimum, role, states, y);
    StateLessIsStrict(x, y, x);
  }

  lemma {:induction false} OfferedInOrder(q: Request, useMinimum: bool, role: Role, states: seq<State>)
    requires q.Valid()
    ensures var offered := Offered(q, useMinimum, role, states);
            StrictOrder(StateLess) && Distinct(offered) && forall a, b :: a in offered && b in offered && a != b ==> StateLess(a, b) || StateLess(b, a)
  {
    var offered := Offered(q, useMinimum, role, states);
    OfferedDistinct(q, useMinimum, role, states);
    StateLessOrders();
    forall a, b | a in offered && b in offered && a != b ensures StateLess(a, b) || StateLess(b, a) {
      OfferedSeparates(q, useMinimum, role, states, a, b);
    }
  }

  /** A layer holds exactly the offered states, the best ones of their keys, before which fewer than
      twelve thousand come. */
  lemma {:induction false} LayerMeans(q: Request, useMinimum: bool, role: Role, states: seq<State>, x: State)
    requires q.Valid()
    ensures x in Layer(q, useMinimum, role, states) <==>
            BestOfKey(q, useMinimum, role, states, x) && |set y | y in Offered(q, useMinimum, role, states) && Beats(y, x)| < 12_000
  {
    var offered := Offered(q, useMinimum, role, states);
    var ahead := set y | y in offered && Beats(y, x);
    forall y ensures y in ahead <==> y in offered && StateLess(y, x) {
      StateLessMeans(y, x);
    }
    OfferedMeans(q, useMinimum, role, states, x);
    OfferedInOrder(q, useMinimum, role, states);
    CutByRank(StateLess, offered, 12_000, x, ahead);
  }

  // ------------------------------------------------------------------ what is found

  /** The state has every required place, keeps the rest limit, if it is hard, and is home in time. */
  ghost predicate ComesHome(q: Request, s: State, sol: Solution) {
    && sol.order == s.used && (forall id :: id in q.required ==> id in s.used)
    && (q.hardRestLimit ==> s.continuous <= q.maxContinuous)
    && ArrivesFirst(q.policy, q.legs, s.current, q.end, s.at, sol.returnAt) && sol.returnAt <= q.windowEnd
  }

  /** Kept in the last layer of a wanted arrangement of roles, and home in time. */
  ghost predicate FoundIn(q: Request, useMinimum: bool, sol: Solution)
    requires q.Valid()
  {
    exists pattern, s :: pattern in RolePatterns(q) && s in Layers(q, useMinimum, pattern, |pattern|) && ComesHome(q, s, sol)
  }

  lemma {:induction false} HomecomingMeans(q: Request, s: State, sol: Solution)
    ensures sol in Homecoming(q, s) <==> ComesHome(q, s, sol)
  {
    NextArrivalMeans(q.policy, q.legs, s.current, q.end, s.at, sol.returnAt);
    AllUsed(q.required, s.used);
  }

  lemma {:induction false} AllUsed(wanted: set<PlaceId>, used: seq<PlaceId>)
    ensures wanted <= Elements(used) <==> forall id :: id in wanted ==> id in used
  {
    if forall id :: id in wanted ==> id in used {
      forall id | id in wanted ensures id in Elements(used) {}
    }
    if wanted <= Elements(used) {
      forall id | id in wanted ensures id in used {
        assert id in Elements(used);
      }
    }
  }

  lemma {:induction false} PatternSolutionsMean(q: Request, useMinimum: bool, pattern: seq<Role>, sol: Solution)
    requires q.Valid()
    ensures sol in PatternSolutions(q, useMinimum, pattern) <==>
            exists s :: s in Layers(q, useMinimum, pattern, |pattern|) && ComesHome(q, s, sol)
  {
    var last := Layers(q, useMinimum, pattern, |pattern|);
    var parts := Homecomings(q, last);
    if sol in PatternSolutions(q, useMinimum, pattern) {
      var k := JoinedHasPart(parts, |last|, sol);
      HomecomingMeans(q, last[k], sol);
    }
    if s :| s in last && ComesHome(q, s, sol) {
      var k :| 0 <= k < |last| && last[k] == s;
      HomecomingMeans(q, s, sol);
      PartIsJoined(parts, |last|, k, sol);
    }
  }

  lemma {:induction false} PhaseMeans(q: Request, useMinimum: bool, sol: Solution)
    requires q.Valid()
    ensures sol in PhaseSolutions(q, useMinimum, RolePatterns(q)) <==> FoundIn(q, useMinimum, sol)
  {
    var patterns := RolePatterns(q);
    var parts := SolutionsByPattern(q, useMinimum, patterns);
    if sol in PhaseSolutions(q, useMinimum, patterns) {
      var k := JoinedHasPart(parts, |patterns|, sol);
      PatternSolutionsMean(q, useMinimum, patterns[k], sol);
      assert patterns[k] in patterns;
    }
    if FoundIn(q, useMinimum, sol) {
      var pattern, s :| pattern in patterns && s in Layers(q, useMinimum, pattern, |pattern|) && ComesHome(q, s, sol);
      var k :| 0 <= k < |patterns| && patterns[k] == pattern;
      PatternSolutionsMean(q, useMinimum, pattern, sol);
      PartIsJoined(parts, |patterns|, k, sol);
    }
  }

  /** Full stays are tried first; the minimum stays are used exactly when full stays find nothing. */
  lemma {:induction false} FoundMeans(q: Request, sol: Solution)
    requires q.Valid()
    ensures sol in Found(q) <==> FoundIn(q, UsedMinimum(q), sol)
    ensures UsedMinimum(q) <==> !exists other :: FoundIn(q, false, other)
  {
    PhaseMeans(q, UsedMinimum(q), sol);
    if other :| FoundIn(q, false, other) {
      PhaseMeans(q, false, other);
    }
    if !UsedMinimum(q) {
      PhaseMeans(q, false, PhaseSolutions(q, false, RolePatterns(q))[0]);
    }
  }

  // ------------------------------------------------------------------ the returned orders

  lemma {:induction false} FoundHasShape(q: Request, sol: Solution)
    requires q.Valid() && sol in Found(q)
    ensures NoDuplicates(sol.order)
  {
    FoundAreItineraries(q, sol);
    ReplayShape(q, UsedMinimum(q), sol.order);
  }

  /** The dictionary holds exactly what was found. */
  lemma {:induction false} UniqueHoldsFound(q: Request, sol: Solution)
    requires q.Valid()
    ensures sol in Unique(Found(q), |Found(q)|) <==> sol in Found(q)
  {
    var found := Found(q);
    if sol in Unique(found, |found|) {
      UniqueWasFound(found, |found|, sol);
    }
    if sol in found {
      var k :| 0 <= k < |found| && found[k] == sol;
      FoundIsRepresented(found, |found|, k);
      var u :| u in Unique(found, |found|) && u.order == sol.order && u.returnAt <= sol.returnAt;
      UniqueWasFound(found, |found|, u);
      OneReturnPerOrder(q, u, sol);
    }
  }

  lemma {:induction false} UniqueHasOneEach(q: Request)
    requires q.Valid()
    ensures Distinct(Unique(Found(q), |Found(q)|))
    ensures var unique := Unique(Found(q), |Found(q)|);
            forall a, b :: a in unique && b in unique && a != b ==> RankLess(q, a, b) || RankLess(q, b, a)
  {
    var unique := Unique(Found(q), |Found(q)|);
    UniqueIsDistinct(Found(q), |Found(q)|);
    forall a, b | a in unique && b in unique && a != b ensures RankLess(q, a, b) || RankLess(q, b, a) {
      UniqueHoldsFound(q, a);
      UniqueHoldsFound(q, b);
      if a.order == b.order {
        OneReturnPerOrder(q, a, b);
      }
      LexLessIsStrict(a.order, b.order, a.order);
    }
  }

  lemma {:induction false} RankAmongFound(q: Request, a: Solution, b: Solution)
    requires q.Valid() && a in Found(q) && b in Found(q)
    ensures RankLess(q, a, b) <==> Ahead(q, a, b)
  {
    FoundHasShape(q, a);
    FoundHasShape(q, b);
    RankLessMeans(q, a, b);
  }

  lemma {:induction false} AheadAmongUnique(q: Request, sol: Solution, ahead: set<Solution>)
    requires q.Valid() && sol in Found(q)
    requires ahead == set other | other in Found(q) && Ahead(q, other, sol)
    ensures forall other :: other in ahead <==> other in Unique(Found(q), |Found(q)|) && Ranking(q)(other, sol)
  {
    forall other ensures other in ahead <==> other in Unique(Found(q), |Found(q)|) && Ranking(q)(other, sol) {
      UniqueHoldsFound(q, other);
      if other in Found(q) {
        RankAmongFound(q, other, sol);
      }
    }
  }

  lemma {:induction false} SolutionIsFound(q: Request, sol: Solution)
    requires q.Valid() && sol in Solutions(q)
    ensures sol in Found(q)
  {
    SortKeepsElements(Ranking(q), Unique(Found(q), |Found(q)|), sol);
    UniqueHoldsFound(q, sol);
  }

  /** What is returned is what was found with fewer than eighty ahead of it: of two orders the one
      with fewer unverified places, then the earlier return, then the smaller order. */
  lemma {:induction false} ReturnedIffAmongBest(q: Request, sol: Solution)
    requires q.Valid()
    ensures sol in Solutions(q) <==> q.boundariesKnown && sol in Found(q) && |set other | other in Found(q) && Ahead(q, other, sol)| < 80
  {
    if sol in Solutions(q) {
      SolutionIsFound(q, sol);
    }
    if q.boundariesKnown && sol in Found(q) {
      var ahead := set other | other in Found(q) && Ahead(q, other, sol);
      AheadAmongUnique(q, sol, ahead);
      FoundIsCut(q, sol, ahead);
    }
  }

  lemma {:induction false} FoundIsCut(q: Request, sol: Solution, ahead: set<Solution>)
    requires q.Valid() && q.boundariesKnown && sol in Found(q)
    requires forall other :: other in ahead <==> other in Unique(Found(q), |Found(q)|) && Ranking(q)(other, sol)
    ensures sol in Solutions(q) <==> |ahead| < 80
  {
    UniqueHoldsFound(q, sol);
    UniqueHasOneEach(q);
    RankingIsStrict(q);
    CutByRank(Ranking(q), Unique(Found(q), |Found(q)|), 80, sol, ahead);
  }

  /** And it is returned in that order. */
  lemma {:induction false} ReturnedInOrder(q: Request, i: nat, j: nat)
    requires q.Valid() && i < j < |Solutions(q)|
    ensures Ahead(q, Solutions(q)[i], Solutions(q)[j])
  {
    var a, b := Solutions(q)[i], Solutions(q)[j];
    SearchIsSound(q);
    SolutionIsFound(q, a);
    SolutionIsFound(q, b);
    UniqueHasOneEach(q);
    UniqueHoldsFound(q, a);
    UniqueHoldsFound(q, b);
    assert !Ranking(q)(b, a);
    RankAmongFound(q, a, b);
  }

  /** So a found order that comes before a returned one is returned itself. */
  lemma {:induction false} AheadOfReturnedIsReturned(q: Request, sol: Solution, kept: Solution)
    requires q.Valid() && sol in Found(q) && kept in Solutions(q) && Ahead(q, sol, kept)
    ensures sol in Solutions(q)
  {
    SolutionIsFound(q, kept);
    RankAmongFound(q, sol, kept);
    CutKeepsBest(q, sol, kept);
    var better :| better in Solutions(q) && better.order == sol.order;
    SolutionIsFound(q, better);
    OneReturnPerOrder(q, better, sol);
  }

  /** What is returned, all together. */
  lemma {:induction false} SolutionsMean(q: Request)
    requires q.Valid()
    ensures forall sol :: sol in Solutions(q) <==> q.boundariesKnown && sol in Found(q) && |set other | other in Found(q) && Ahead(q, other, sol)| < 80
    ensures forall i, j :: 0 <= i < j < |Solutions(q)| ==> Ahead(q, Solutions(q)[i], Solutions(q)[j])
    ensures forall sol :: sol in Solutions(q) ==> Day(q, UsedMinimum(q), sol.order, sol.returnAt)
  {
    forall sol ensures sol in Solutions(q) <==> q.boundariesKnown && sol in Found(q) && |set other | other in Found(q) && Ahead(q, other, sol)| < 80 {
      ReturnedIffAmongBest(q, sol);
    }
    forall i, j | 0 <= i < j < |Solutions(q)| ensures Ahead(q, Solutions(q)[i], Solutions(q)[j]) {
      ReturnedInOrder(q, i, j);
    }
    forall sol | sol in Solutions(q) ensures Day(q, UsedMinimum(q), sol.order, sol.returnAt) {
      SolutionIsFound(q, sol);
      FoundAreDays(q, sol);
    }
  }

  /** `_bus_only_strategy_solutions`. */
  method BusOnlySolutions(q: Request) returns (solutions: seq<Solution>)
    requires q.Valid()
    ensures solutions == Solutions(q)
    ensures forall sol :: sol in solutions <==> q.boundariesKnown && sol in Found(q) && |set other | other in Found(q) && Ahead(q, other, sol)| < 80
    ensures forall i, j :: 0 <= i < j < |solutions| ==> Ahead(q, solutions[i], solutions[j])
    ensures forall sol :: sol in solutions ==> Day(q, UsedMinimum(q), sol.order, sol.returnAt)
  {
    SolutionsMean(q);
    if !q.boundariesKnown {
      return [];
    }
    var byEdge := GroupByEdge(q.legs);
    var results := SearchPhase(q, byEdge, false);
    if results == [] {
      results := SearchPhase(q, byEdge, true);
    }
    var unique := RecordSolutions(results);
    solutions := Take(Sort(Ranking(q), unique), SOLUTION_LIMIT);
  }
}
