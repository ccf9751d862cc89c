/** What the bus search promises: every solution is the leg-by-leg replay of its order, and,
    when an earlier start is never worse, pruning loses no itinerary. */
module BusItinerary {
  import opened Common
  import opened Ordering
  import opened BusBoarding
  import opened BusSearch

  // ------------------------------------------------------------------ the reference: no pruning

  /** Visit the places of `order` one after the other, keeping nothing but the present state. */
  function Replay(q: Request, useMinimum: bool, order: seq<PlaceId>): Option<State> {
    if order == [] then Some(Initial(q))
    else
      var before := Replay(q, useMinimum, order[..|order| - 1]);
      var id := order[|order| - 1];
      if before.None? || id !in q.places then None else Visited(q, useMinimum, before.value, id)
  }

  predicate HasRoles(q: Request, order: seq<PlaceId>, pattern: seq<Role>) {
    |order| == |pattern| && forall i :: 0 <= i < |order| ==> order[i] in q.places && q.places[order[i]].role == pattern[i]
  }

  /** A complete day: the order can be travelled, has the pattern's roles, holds every required
      place, keeps the rest limit, and is home at `home`, inside the window. */
  predicate Itinerary(q: Request, useMinimum: bool, pattern: seq<Role>, order: seq<PlaceId>, home: int) {
    && HasRoles(q, order, pattern)
    && Replay(q, useMinimum, order).Some?
    && var s := Replay(q, useMinimum, order).value;
       && (forall id :: id in q.required ==> id in order)
       && (q.hardRestLimit ==> s.continuous <= q.maxContinuous)
       && NextArrival(q.policy, q.legs, s.current, q.end, s.at) == Some(home)
       && home <= q.windowEnd
  }

  predicate NoDuplicates(order: seq<PlaceId>) {
    forall i, j :: 0 <= i < j < |order| ==> order[i] != order[j]
  }

  lemma {:induction false} VisitShape(q: Request, useMinimum: bool, s: State, id: PlaceId)
    requires id in q.places && Visited(q, useMinimum, s, id).Some?
    ensures Visited(q, useMinimum, s, id).value.used == s.used + [id] && Visited(q, useMinimum, s, id).value.current == id
    ensures id !in s.used
  {
  }

  /** What the last visit of a replay started from. */
  lemma {:induction false} LastVisit(q: Request, useMinimum: bool, front: seq<PlaceId>, id: PlaceId)
    requires Replay(q, useMinimum, front + [id]).Some?
    ensures id in q.places && Replay(q, useMinimum, front).Some?
    ensures Visited(q, useMinimum, Replay(q, useMinimum, front).value, id) == Replay(q, useMinimum, front + [id])
  {
    assert (front + [id])[..|front|] == front;
  }

  lemma {:induction false} ReplayShape(q: Request, useMinimum: bool, order: seq<PlaceId>)
    requires Replay(q, useMinimum, order).Some?
    ensures Replay(q, useMinimum, order).value.used == order
    ensures Replay(q, useMinimum, order).value.current == (if order == [] then q.start else order[|order| - 1])
    ensures NoDuplicates(order)
  {
    if order != [] {
      var front, id := order[..|order| - 1], order[|order| - 1];
      assert order == front + [id];
      LastVisit(q, useMinimum, front, id);
      ReplayShape(q, useMinimum, front);
      VisitShape(q, useMinimum, Replay(q, useMinimum, front).value, id);
    }
  }

  /** The limits of the i-th stop, written out: it starts after the ride, the slack, the opening
      and (for a meal) the lunch start, and it meets every last-entry and closing time. */
  lemma {:induction false} StopMeetsLimits(q: Request, useMinimum: bool, order: seq<PlaceId>, i: nat)
    returns (arrival: int, startAt: int, endAt: int)
    requires i < |order| && Replay(q, useMinimum, order[..i + 1]).Some?
    ensures order[i] in q.places && Replay(q, useMinimum, order[..i]).Some?
    ensures var before, after, place := Replay(q, useMinimum, order[..i]).value, Replay(q, useMinimum, order[..i + 1]).value, q.places[order[i]];
            && NextArrival(q.policy, q.legs, before.current, order[i], before.at) == Some(arrival)
            && after.at == endAt
            && endAt == startAt + 60 * (if useMinimum && place.role == Visit && order[i] !in q.required then place.minimumStay else place.stay)
            && startAt >= arrival + 60 * q.transferSlack
            && (place.opensAt.Some? ==> startAt >= place.opensAt.value)
            && (place.role == Meal ==> q.lunchStart <= startAt && endAt <= q.lunchEnd)
            && (place.closesAt.Some? ==> endAt <= place.closesAt.value)
            && (place.lastAdmissionAt.Some? ==> startAt <= place.lastAdmissionAt.value)
            && (place.role == Meal && place.lastOrderAt.Some? ==> startAt <= place.lastOrderAt.value)
  {
    assert order[..i + 1][..i] == order[..i];
    var before := Replay(q, useMinimum, order[..i]).value;
    arrival := NextArrival(q.policy, q.legs, before.current, order[i], before.at).value;
    startAt := ActivityStart(q, q.places[order[i]], arrival);
    endAt := startAt + 60 * StayMinutes(q, useMinimum, order[i]);
  }

  // ------------------------------------------------------------------ soundness of the layers

  /** `s` is what travelling its own order gives, and the order has these roles. */
  predicate Genuine(q: Request, useMinimum: bool, pattern: seq<Role>, s: State) {
    HasRoles(q, s.used, pattern) && Replay(q, useMinimum, s.used) == Some(s)
  }

  ghost predicate AllGenuine(q: Request, useMinimum: bool, pattern: seq<Role>, states: seq<State>) {
    forall s :: s in states ==> Genuine(q, useMinimum, pattern, s)
  }

  lemma {:induction false} VisitIsGenuine(q: Request, useMinimum: bool, pattern: seq<Role>, s: State, id: PlaceId)
    requires Genuine(q, useMinimum, pattern, s)
    requires id in q.places && Visited(q, useMinimum, s, id).Some?
    ensures Genuine(q, useMinimum, pattern + [q.places[id].role], Visited(q, useMinimum, s, id).value)
  {
    var order := s.used + [id];
    assert order[..|order| - 1] == s.used;
  }

  lemma {:induction false} UpsertAddsOnly(kept: seq<State>, s: State, x: State)
    requires x in Upsert(kept, s)
    ensures x in kept || x == s
  {
  }

  lemma {:induction false} OfferGenuine(q: Request, useMinimum: bool, pattern: seq<Role>, role: Role, s: State, id: PlaceId, kept: seq<State>)
    requires id in q.places && q.places[id].role == role && Genuine(q, useMinimum, pattern, s)
    requires AllGenuine(q, useMinimum, pattern + [role], kept)
    ensures AllGenuine(q, useMinimum, pattern + [role], Offer(q, useMinimum, s, id, kept))
  {
    var next := Visited(q, useMinimum, s, id);
    if next.Some? {
      VisitIsGenuine(q, useMinimum, pattern, s, id);
      forall x | x in Upsert(kept, next.value) ensures Genuine(q, useMinimum, pattern + [role], x) {
        UpsertAddsOnly(kept, next.value, x);
      }
    }
  }

  lemma {:induction false} OfferChoicesGenuine(q: Request, useMinimum: bool, pattern: seq<Role>, role: Role, s: State,
                                               choices: seq<PlaceId>, n: nat, kept: seq<State>)
    requires n <= |choices|
    requires forall id :: id in choices ==> id in q.places && q.places[id].role == role
    requires Genuine(q, useMinimum, pattern, s)
    requires AllGenuine(q, useMinimum, pattern + [role], kept)
    ensures AllGenuine(q, useMinimum, pattern + [role], OfferChoices(q, useMinimum, s, choices, n, kept))
  {
    if n > 0 {
      OfferChoicesGenuine(q, useMinimum, pattern, role, s, choices, n - 1, kept);
      OfferGenuine(q, useMinimum, pattern, role, s, choices[n - 1], OfferChoices(q, useMinimum, s, choices, n - 1, kept));
    }
  }

  lemma {:induction false} OfferStatesGenuine(q: Request, useMinimum: bool, pattern: seq<Role>, role: Role,
                                              states: seq<State>, n: nat, choices: seq<PlaceId>)
    requires n <= |states|
    requires forall id :: id in choices ==> id in q.places && q.places[id].role == role
    requires AllGenuine(q, useMinimum, pattern, states)
    ensures AllGenuine(q, useMinimum, pattern + [role], OfferStates(q, useMinimum, states, n, choices))
  {
    if n > 0 {
      OfferStatesGenuine(q, useMinimum, pattern, role, states, n - 1, choices);
      assert states[n - 1] in states;
      OfferChoicesGenuine(q, useMinimum, pattern, role, states[n - 1], choices, |choices|,
                          OfferStates(q, useMinimum, states, n - 1, choices));
    }
  }

  lemma {:induction false} LayerGenuine(q: Request, useMinimum: bool, pattern: seq<Role>, role: Role, states: seq<State>)
    requires q.Valid() && AllGenuine(q, useMinimum, pattern, states)
    ensures AllGenuine(q, useMinimum, pattern + [role], Layer(q, useMinimum, role, states))
  {
    OfferStatesGenuine(q, useMinimum, pattern, role, states, |states|, Choices(q, role, |q.ids|));
    forall s | s in Layer(q, useMinimum, role, states) ensures s in Offered(q, useMinimum, role, states) {
      SortKeepsElements(StateLess, Offered(q, useMinimum, role, states), s);
    }
  }

  lemma {:induction false} FirstLayerGenuine(q: Request, useMinimum: bool, pattern: seq<Role>)
    requires q.Valid()
    ensures AllGenuine(q, useMinimum, pattern[..0], Layers(q, useMinimum, pattern, 0))
  {
    assert Genuine(q, useMinimum, pattern[..0], Initial(q));
  }

  /** Every kept state of a layer is the replay of its own order. */
  lemma {:induction false} LayersGenuine(q: Request, useMinimum: bool, pattern: seq<Role>, n: nat)
    requires q.Valid() && n <= |pattern|
    ensures AllGenuine(q, useMinimum, pattern[..n], Layers(q, useMinimum, pattern, n))
  {
    if n == 0 {
      FirstLayerGenuine(q, useMinimum, pattern);
    } else {
      LayersGenuine(q, useMinimum, pattern, n - 1);
      NextLayerGenuine(q, useMinimum, pattern, n, Layers(q, useMinimum, pattern, n - 1));
    }
  }

  lemma {:induction false} NextLayerGenuine(q: Request, useMinimum: bool, pattern: seq<Role>, n: nat, states: seq<State>)
    requires q.Valid() && 0 < n <= |pattern| && states == Layers(q, useMinimum, pattern, n - 1)
    requires AllGenuine(q, useMinimum, pattern[..n - 1], states)
    ensures AllGenuine(q, useMinimum, pattern[..n], Layers(q, useMinimum, pattern, n))
  {
    var role := pattern[n - 1];
    assert pattern[..n] == pattern[..n - 1] + [role];
    LayerGenuine(q, useMinimum, pattern[..n - 1], role, states);
    NextLayer(q, useMinimum, pattern, n, states);
  }

  lemma {:induction false} JoinedHasPart(parts: seq<seq<Solution>>, n: nat, sol: Solution) returns (k: nat)
    requires n <= |parts| && sol in Joined(parts, n)
    ensures k < n && sol in parts[k]
  {
    if sol in parts[n - 1] {
      k := n - 1;
    } else {
      k := JoinedHasPart(parts, n - 1, sol);
    }
  }

  lemma {:induction false} PartIsJoined(parts: seq<seq<Solution>>, n: nat, k: nat, sol: Solution)
    requires k < n <= |parts| && sol in parts[k]
    ensures sol in Joined(parts, n)
  {
    if k < n - 1 {
      PartIsJoined(parts, n - 1, k, sol);
    }
  }

  lemma {:induction false} FinishedHasState(q: Request, states: seq<State>, n: nat, sol: Solution) returns (k: nat)
    requires n <= |states| && sol in Finished(q, states, n)
    ensures k < n && states[k].used == sol.order && ReturnAt(q, states[k]) == Some(sol.returnAt)
  {
    k := JoinedHasPart(Homecomings(q, states), n, sol);
  }

  lemma {:induction false} StateIsFinished(q: Request, states: seq<State>, n: nat, k: nat, home: int)
    requires k < n <= |states| && ReturnAt(q, states[k]) == Some(home)
    ensures Solution(home, states[k].used) in Finished(q, states, n)
  {
    assert Homecomings(q, states)[k] == [Solution(home, states[k].used)];
    PartIsJoined(Homecomings(q, states), n, k, Solution(home, states[k].used));
  }

  lemma {:induction false} PatternSolutionsAreItineraries(q: Request, useMinimum: bool, pattern: seq<Role>, sol: Solution)
    requires q.Valid() && sol in PatternSolutions(q, useMinimum, pattern)
    ensures Itinerary(q, useMinimum, pattern, sol.order, sol.returnAt)
  {
    var last := Layers(q, useMinimum, pattern, |pattern|);
    LayersGenuine(q, useMinimum, pattern, |pattern|);
    assert pattern[..|pattern|] == pattern;
    var k := FinishedHasState(q, last, |last|, sol);
    assert last[k] in last;
    assert Genuine(q, useMinimum, pattern, last[k]);
    forall id | id in q.required ensures id in sol.order {
      assert id in Elements(last[k].used);
    }
  }

  // ------------------------------------------------------------------ role patterns

  function RoleCount(pattern: seq<Role>, role: Role): nat {
    if pattern == [] then 0 else (if pattern[0] == role then 1 else 0) + RoleCount(pattern[1..], role)
  }

  lemma {:induction false} PrefixedContains(role: Role, patterns: seq<seq<Role>>, w: seq<Role>)
    ensures w in Prefixed(role, patterns) <==> w != [] && w[0] == role && w[1..] in patterns
  {
    var p := Prefixed(role, patterns);
    if w in p {
      var i :| 0 <= i < |p| && p[i] == w;
      assert w[1..] == patterns[i];
    }
    if w != [] && w[0] == role && w[1..] in patterns {
      var i :| 0 <= i < |patterns| && patterns[i] == w[1..];
      assert p[i] == w;
    }
  }

  /** A pattern is its first role and a pattern of what remains. */
  lemma {:induction false} PatternsByFirstRole(m: nat, r: nat, v: nat, w: seq<Role>)
    requires m + r + v > 0
    ensures w in Patterns(m, r, v) <==>
            w != [] && match w[0]
                       case Meal => m > 0 && w[1..] in Patterns(m - 1, r, v)
                       case Rest => r > 0 && w[1..] in Patterns(m, r - 1, v)
                       case Visit => v > 0 && w[1..] in Patterns(m, r, v - 1)
  {
    if m > 0 { PrefixedContains(Meal, Patterns(m - 1, r, v), w); }
    if r > 0 { PrefixedContains(Rest, Patterns(m, r - 1, v), w); }
    if v > 0 { PrefixedContains(Visit, Patterns(m, r, v - 1), w); }
  }

  predicate Counts(w: seq<Role>, m: nat, r: nat, v: nat) {
    RoleCount(w, Meal) == m && RoleCount(w, Rest) == r && RoleCount(w, Visit) == v
  }

  lemma {:induction false} CountsByFirstRole(m: nat, r: nat, v: nat, w: seq<Role>)
    requires w != []
    ensures Counts(w, m, r, v) <==>
            match w[0]
            case Meal => m > 0 && Counts(w[1..], m - 1, r, v)
            case Rest => r > 0 && Counts(w[1..], m, r - 1, v)
            case Visit => v > 0 && Counts(w[1..], m, r, v - 1)
  {
  }

  /** The patterns are exactly the arrangements with these role counts. */
  lemma {:induction false} PatternsAreArrangements(m: nat, r: nat, v: nat, w: seq<Role>)
    ensures w in Patterns(m, r, v) <==> Counts(w, m, r, v)
    decreases m + r + v
  {
    if m + r + v == 0 {
      assert w in Patterns(m, r, v) <==> w == [];
    } else {
      PatternsByFirstRole(m, r, v, w);
      if w != [] {
        CountsByFirstRole(m, r, v, w);
        match w[0]
        case Meal => if m > 0 { PatternsAreArrangements(m - 1, r, v, w[1..]); }
        case Rest => if r > 0 { PatternsAreArrangements(m, r - 1, v, w[1..]); }
        case Visit => if v > 0 { PatternsAreArrangements(m, r, v - 1, w[1..]); }
      }
    }
  }

  // ------------------------------------------------------------------ the dictionary of orders and the final cut

  ghost predicate DistinctOrders(s: seq<Solution>) {
    forall i, j :: 0 <= i < j < |s| ==> s[i].order != s[j].order
  }

  /** Some entry of the dictionary has this order and returns no later. */
  ghost predicate Represented(unique: seq<Solution>, sol: Solution) {
    exists u :: u in unique && u.order == sol.order && u.returnAt <= sol.returnAt
  }

  lemma {:induction false} RecordingRepresents(before: seq<Solution>, sol: Solution)
    requires DistinctOrders(before)
    ensures DistinctOrders(Recorded(before, sol))
    ensures Represented(Recorded(before, sol), sol)
    ensures forall x :: x in Recorded(before, sol) ==> x in before || x == sol
  {
    var i := IndexOfOrder(before, sol.order);
    var now := Recorded(before, sol);
    if i == |before| {
      assert now[i] == sol;
    } else {
      assert now[i] in now && now[i].order == sol.order && now[i].returnAt <= sol.returnAt;
    }
  }

  lemma {:induction false} RecordingKeepsRepresented(before: seq<Solution>, sol: Solution, x: Solution)
    requires Represented(before, x)
    ensures Represented(Recorded(before, sol), x)
  {
    var u :| u in before && u.order == x.order && u.returnAt <= x.returnAt;
    var j :| 0 <= j < |before| && before[j] == u;
    var now := Recorded(before, sol);
    assert now[j] in now && now[j].order == x.order && now[j].returnAt <= x.returnAt;
  }

  lemma {:induction false} UniqueIsDistinct(found: seq<Solution>, n: nat)
    requires n <= |found|
    ensures DistinctOrders(Unique(found, n))
  {
    if n > 0 {
      UniqueIsDistinct(found, n - 1);
      RecordingRepresents(Unique(found, n - 1), found[n - 1]);
    }
  }

  lemma {:induction false} UniqueWasFound(found: seq<Solution>, n: nat, sol: Solution)
    requires n <= |found| && sol in Unique(found, n)
    ensures sol in found
  {
    UniqueIsDistinct(found, n - 1);
    RecordingRepresents(Unique(found, n - 1), found[n - 1]);
    if sol != found[n - 1] {
      UniqueWasFound(found, n - 1, sol);
    }
  }

  lemma {:induction false} FoundIsRepresented(found: seq<Solution>, n: nat, k: nat)
    requires k < n <= |found|
    ensures Represented(Unique(found, n), found[k])
  {
    if k == n - 1 {
      UniqueIsDistinct(found, n - 1);
      RecordingRepresents(Unique(found, n - 1), found[n - 1]);
    } else {
      FoundIsRepresented(found, n - 1, k);
      RecordingKeepsRepresented(Unique(found, n - 1), found[n - 1], found[k]);
    }
  }

  lemma {:induction false} LexLessIsStrict(a: seq<int>, b: seq<int>, c: seq<int>)
    ensures !LexLess(a, a)
    ensures LexLess(a, b) && LexLess(b, c) ==> LexLess(a, c)
    ensures LexLess(a, b) ==> LexLess(a, c) || LexLess(c, b)
    ensures LexLess(a, b) || a == b || LexLess(b, a)
    decreases |a| + |b| + |c|
  {
    if a != [] && b != [] && c != [] {
      LexLessIsStrict(a[1..], b[1..], c[1..]);
      assert a[0] == b[0] && a[1..] == b[1..] ==> a == b by {
        assert a == [a[0]] + a[1..] && b == [b[0]] + b[1..];
      }
    } else if a != [] && b != [] {
      LexLessIsStrict(a[1..], b[1..], []);
      assert a[0] == b[0] && a[1..] == b[1..] ==> a == b by {
        assert a == [a[0]] + a[1..] && b == [b[0]] + b[1..];
      }
    } else if a != [] {
      LexLessIsStrict(a[1..], [], []);
    }
  }

  lemma {:induction false} RankingIsStrict(q: Request)
    ensures StrictOrder(Ranking(q))
  {
    forall a: Solution, b: Solution, c: Solution
      ensures !RankLess(q, a, a)
      ensures RankLess(q, a, b) && RankLess(q, b, c) ==> RankLess(q, a, c)
      ensures RankLess(q, a, b) ==> RankLess(q, a, c) || RankLess(q, c, b)
    {
      LexLessIsStrict(a.order, b.order, c.order);
    }
  }

  // ------------------------------------------------------------------ main result: soundness

  lemma {:induction false} SolutionIsItinerary(q: Request, sol: Solution)
    requires q.Valid() && sol in Solutions(q)
    ensures IsFoundItinerary(q, sol)
  {
    var found := Found(q);
    SortKeepsElements(Ranking(q), Unique(found, |found|), sol);
    UniqueWasFound(found, |found|, sol);
    FoundAreItineraries(q, sol);
  }

  /** Every solution is a genuine itinerary of one of the role arrangements, with the stays of
      the phase that was used; orders are pairwise distinct, ranked and at most eighty. */
  lemma {:induction false} SearchIsSound(q: Request)
    requires q.Valid()
    ensures |Solutions(q)| <= 80
    ensures DistinctOrders(Solutions(q))
    ensures SortedBy(Ranking(q), Solutions(q))
    ensures forall sol :: sol in Solutions(q) ==> IsFoundItinerary(q, sol)
  {
    var found := Found(q);
    var unique := Unique(found, |found|);
    var sorted := Sort(Ranking(q), unique);
    UniqueIsDistinct(found, |found|);
    RankingIsStrict(q);
    SortSorts(Ranking(q), unique);
    SortKeepsDistinctOrders(q, unique);
    forall sol | sol in Solutions(q) ensures IsFoundItinerary(q, sol) {
      SolutionIsItinerary(q, sol);
    }
  }

  ghost predicate IsFoundItinerary(q: Request, sol: Solution)
    requires q.Valid()
  {
    exists pattern :: pattern in RolePatterns(q) && Itinerary(q, UsedMinimum(q), pattern, sol.order, sol.returnAt)
  }

  lemma {:induction false} FoundAreItineraries(q: Request, sol: Solution)
    requires q.Valid() && sol in Found(q)
    ensures IsFoundItinerary(q, sol)
  {
    var patterns := RolePatterns(q);
    var k := JoinedHasPart(SolutionsByPattern(q, UsedMinimum(q), patterns), |patterns|, sol);
    PatternSolutionsAreItineraries(q, UsedMinimum(q), patterns[k], sol);
    assert patterns[k] in patterns;
  }

  lemma {:induction false} ReplayDecidesReturn(q: Request, useMinimum: bool, a: seq<Role>, b: seq<Role>, order: seq<PlaceId>, x: int, y: int)
    requires Itinerary(q, useMinimum, a, order, x) && Itinerary(q, useMinimum, b, order, y)
    ensures x == y
  {
  }

  /** Two solutions found with one order are the same solution. */
  lemma {:induction false} OneReturnPerOrder(q: Request, a: Solution, b: Solution)
    requires q.Valid() && a in Found(q) && b in Found(q) && a.order == b.order
    ensures a == b
  {
    FoundAreItineraries(q, a);
    FoundAreItineraries(q, b);
    var u := UsedMinimum(q);
    var p :| p in RolePatterns(q) && Itinerary(q, u, p, a.order, a.returnAt);
    var r :| r in RolePatterns(q) && Itinerary(q, u, r, b.order, b.returnAt);
    ReplayDecidesReturn(q, u, p, r, a.order, a.returnAt, b.returnAt);
  }

  /** So the dictionary of orders only ever adds an order it does not have; it never has an
      earlier return to put in the place of a later one. */
  lemma {:induction false} DictionaryNeverReplaces(q: Request, n: nat)
    requires q.Valid() && n < |Found(q)|
    ensures Unique(Found(q), n + 1) == if Found(q)[n] in Unique(Found(q), n) then Unique(Found(q), n) else Unique(Found(q), n) + [Found(q)[n]]
    ensures Found(q)[n] !in Unique(Found(q), n) ==> forall u :: u in Unique(Found(q), n) ==> u.order != Found(q)[n].order
  {
    var found, sol := Found(q), Found(q)[n];
    var before := Unique(found, n);
    forall u | u in before && u.order == sol.order ensures u == sol {
      UniqueWasFound(found, n, u);
      OneReturnPerOrder(q, u, sol);
    }
  }

  lemma {:induction false} SortKeepsDistinctOrders(q: Request, unique: seq<Solution>)
    requires DistinctOrders(unique)
    ensures DistinctOrders(Sort(Ranking(q), unique))
  {
    var sorted := Sort(Ranking(q), unique);
    SortKeepsDistinct(Ranking(q), unique);
    forall i, j | 0 <= i < j < |sorted| ensures sorted[i].order != sorted[j].order {
      SortKeepsElements(Ranking(q), unique, sorted[i]);
      SortKeepsElements(Ranking(q), unique, sorted[j]);
    }
  }

  /** Whatever sorts before a kept element is kept too. */
  lemma {:induction false} CutIsAPrefix(q: Request, sorted: seq<Solution>, u: Solution, kept: Solution)
    requires SortedBy(Ranking(q), sorted)
    requires u in sorted && kept in Take(sorted, SOLUTION_LIMIT) && RankLess(q, u, kept)
    ensures u in Take(sorted, SOLUTION_LIMIT)
  {
    var a :| 0 <= a < |sorted| && sorted[a] == u;
    var b :| 0 <= b < |Take(sorted, SOLUTION_LIMIT)| && Take(sorted, SOLUTION_LIMIT)[b] == kept;
    assert sorted[b] == kept;
    assert Ranking(q)(sorted[a], sorted[b]);
    assert a <= b;
    assert Take(sorted, SOLUTION_LIMIT)[a] == u;
  }

  /** Nothing that was found ranks before a solution while its order is cut. */
  lemma {:induction false} CutKeepsBest(q: Request, sol: Solution, kept: Solution)
    requires q.Valid() && sol in Found(q) && kept in Solutions(q) && RankLess(q, sol, kept)
    ensures exists better :: better in Solutions(q) && better.order == sol.order
  {
    var found := Found(q);
    var unique := Unique(found, |found|);
    var k :| 0 <= k < |found| && found[k] == sol;
    FoundIsRepresented(found, |found|, k);
    var u :| u in unique && u.order == sol.order && u.returnAt <= sol.returnAt;
    SortKeepsElements(Ranking(q), unique, u);
    RankingIsStrict(q);
    SortSorts(Ranking(q), unique);
    CutIsAPrefix(q, Sort(Ranking(q), unique), u, kept);
  }
}
