/** How many states a layer of the bus search can hold, counted on the request alone, and so when
    the cut at twelve thousand states cannot fire and nothing is lost. */
module BusBound {
  import opened Common
  import opened Ordering
  import opened Counting
  import opened BusBoarding
  import opened BusSearch
  import opened BusItinerary
  import opened BusKeys
  import opened BusDominance

  // ------------------------------------------------------------------ the bound

  function PlacesOf(q: Request, role: Role): set<PlaceId> {
    set id | id in q.places && q.places[id].role == role
  }

  /** In how many ways places can be chosen for these roles, apart from their order. */
  function SetBound(q: Request, roles: seq<Role>): nat {
    Binomial(|PlacesOf(q, Meal)|, RoleCount(roles, Meal)) * Binomial(|PlacesOf(q, Rest)|, RoleCount(roles, Rest))
    * Binomial(|PlacesOf(q, Visit)|, RoleCount(roles, Visit))
  }

  /** In how many ways with a last place. */
  function KeyBound(q: Request, roles: seq<Role>): nat
    requires roles != []
  {
    SetBound(q, roles) * RoleCount(roles, roles[|roles| - 1])
  }

  /** No beginning of a pattern can be filled in more than twelve thousand ways; only the numbers
      of places per role and the wanted roles enter. */
  predicate FitsTheCut(q: Request) {
    forall pattern, n :: pattern in RolePatterns(q) && 0 < n <= |pattern| ==> KeyBound(q, pattern[..n]) <= STATE_LIMIT
  }

  // ------------------------------------------------------------------ the keys of a layer

  ghost function SetsOf(q: Request, roles: seq<Role>): set<set<PlaceId>> {
    Unions(Unions(Subsets(PlacesOf(q, Meal), RoleCount(roles, Meal)), Subsets(PlacesOf(q, Rest), RoleCount(roles, Rest))),
           Subsets(PlacesOf(q, Visit), RoleCount(roles, Visit)))
  }

  lemma {:induction false} ThreeUnionsCount<T(!new)>(a: set<set<T>>, b: set<set<T>>, c: set<set<T>>, x: nat, y: nat, z: nat)
    requires |a| <= x && |b| <= y && |c| <= z
    ensures |Unions(Unions(a, b), c)| <= x * y * z
  {
    UnionsCount(a, b);
    UnionsCount(Unions(a, b), c);
    TimesMonotone(|a|, |b|, x, y);
    TimesMonotone(|Unions(a, b)|, |c|, x * y, z);
  }

  lemma {:induction false} SetsCount(q: Request, roles: seq<Role>)
    ensures |SetsOf(q, roles)| <= SetBound(q, roles)
  {
    var m, r, v := RoleCount(roles, Meal), RoleCount(roles, Rest), RoleCount(roles, Visit);
    SubsetsCount(PlacesOf(q, Meal), m);
    SubsetsCount(PlacesOf(q, Rest), r);
    SubsetsCount(PlacesOf(q, Visit), v);
    ThreeUnionsCount(Subsets(PlacesOf(q, Meal), m), Subsets(PlacesOf(q, Rest), r), Subsets(PlacesOf(q, Visit), v),
                     Binomial(|PlacesOf(q, Meal)|, m), Binomial(|PlacesOf(q, Rest)|, r), Binomial(|PlacesOf(q, Visit)|, v));
  }

  lemma {:induction false} RolesApart(q: Request)
    ensures PlacesOf(q, Meal) !! PlacesOf(q, Rest) && PlacesOf(q, Meal) !! PlacesOf(q, Visit) && PlacesOf(q, Rest) !! PlacesOf(q, Visit)
  {
  }

  lemma {:induction false} OwnPart<T>(s: set<T>, own: set<T>, x: set<T>, y: set<T>, from: set<T>)
    requires s == own + x + y && own <= from && x !! from && y !! from
    ensures s * from == own
  {
  }

  lemma {:induction false} OwnParts<T>(s: set<T>, a: set<T>, b: set<T>, c: set<T>, m: set<T>, r: set<T>, v: set<T>)
    requires s == a + b + c && a <= m && b <= r && c <= v && m !! r && m !! v && r !! v
    ensures s * m == a && s * r == b && s * v == c
  {
    OwnPart(s, a, b, c, m);
    OwnPart(s, b, a, c, r);
    OwnPart(s, c, a, b, v);
  }

  lemma {:induction false} ThreeParts<T(!new)>(s: set<T>, m: set<T>, r: set<T>, v: set<T>, i: nat, j: nat, k: nat)
    returns (a: set<T>, b: set<T>, c: set<T>)
    requires s in Unions(Unions(Subsets(m, i), Subsets(r, j)), Subsets(v, k))
    ensures s == a + b + c && a <= m && b <= r && c <= v && |a| == i && |b| == j && |c| == k
  {
    var ab, rest :| ab in Unions(Subsets(m, i), Subsets(r, j)) && rest in Subsets(v, k) && s == ab + rest;
    c := rest;
    a, b :| a in Subsets(m, i) && b in Subsets(r, j) && ab == a + b;
  }

  lemma {:induction false} UnionShares<T(!new)>(s: set<T>, m: set<T>, r: set<T>, v: set<T>, i: nat, j: nat, k: nat)
    requires m !! r && m !! v && r !! v
    requires s in Unions(Unions(Subsets(m, i), Subsets(r, j)), Subsets(v, k))
    ensures Shares(s, m, i) && Shares(s, r, j) && Shares(s, v, k)
  {
    var a, b, c := ThreeParts(s, m, r, v, i, j, k);
    OwnParts(s, a, b, c, m, r, v);
  }

  lemma {:induction false} UnionIsListed<T(!new)>(x: set<T>, y: set<T>, a: set<set<T>>, b: set<set<T>>)
    requires x in a && y in b
    ensures x + y in Unions(a, b)
  {
  }

  lemma {:induction false} SharesAreUnion<T(!new)>(s: set<T>, m: set<T>, r: set<T>, v: set<T>, i: nat, j: nat, k: nat)
    requires s <= m + r + v && Shares(s, m, i) && Shares(s, r, j) && Shares(s, v, k)
    ensures s in Unions(Unions(Subsets(m, i), Subsets(r, j)), Subsets(v, k))
  {
    var a, b, c := s * m, s * r, s * v;
    UnionIsListed(a, b, Subsets(m, i), Subsets(r, j));
    UnionIsListed(a + b, c, Unions(Subsets(m, i), Subsets(r, j)), Subsets(v, k));
    assert s == (a + b) + c;
  }

  lemma {:induction false} SetsShare(q: Request, roles: seq<Role>, s: set<PlaceId>, role: Role)
    requires s in SetsOf(q, roles)
    ensures Shares(s, PlacesOf(q, role), RoleCount(roles, role))
  {
    RolesApart(q);
    UnionShares(s, PlacesOf(q, Meal), PlacesOf(q, Rest), PlacesOf(q, Visit), RoleCount(roles, Meal), RoleCount(roles, Rest), RoleCount(roles, Visit));
  }

  lemma {:induction false} OneMoreShared<T(!new)>(x: T, s: set<T>, among: set<T>, k: nat)
    requires x !in s && Shares(s, among, k)
    ensures Shares({x} + s, among, if x in among then 1 + k else k)
  {
    if x in among {
      assert ({x} + s) * among == {x} + s * among;
    } else {
      assert ({x} + s) * among == s * among;
    }
  }

  lemma {:induction false} ElementsOfFirst(order: seq<PlaceId>)
    requires order != [] && NoDuplicates(order)
    ensures Elements(order) == {order[0]} + Elements(order[1..]) && order[0] !in Elements(order[1..])
  {
    assert order == [order[0]] + order[1..];
  }

  /** An order's places of a role are as many as the roles say. */
  lemma {:induction false} PlacesPerRole(q: Request, order: seq<PlaceId>, roles: seq<Role>, role: Role)
    requires HasRoles(q, order, roles) && NoDuplicates(order)
    ensures Shares(Elements(order), PlacesOf(q, role), RoleCount(roles, role))
  {
    if order == [] {
      assert Elements(order) * PlacesOf(q, role) == {};
    } else {
      PlacesPerRole(q, order[1..], roles[1..], role);
      ElementsOfFirst(order);
      OneMoreShared(order[0], Elements(order[1..]), PlacesOf(q, role), RoleCount(roles[1..], role));
    }
  }

  lemma {:induction false} OrderIsCounted(q: Request, order: seq<PlaceId>, roles: seq<Role>)
    requires HasRoles(q, order, roles) && NoDuplicates(order)
    ensures Elements(order) in SetsOf(q, roles)
  {
    PlacesPerRole(q, order, roles, Meal);
    PlacesPerRole(q, order, roles, Rest);
    PlacesPerRole(q, order, roles, Visit);
    assert Elements(order) <= PlacesOf(q, Meal) + PlacesOf(q, Rest) + PlacesOf(q, Visit);
    SharesAreUnion(Elements(order), PlacesOf(q, Meal), PlacesOf(q, Rest), PlacesOf(q, Visit),
                   RoleCount(roles, Meal), RoleCount(roles, Rest), RoleCount(roles, Visit));
  }

  function KeyOf(s: State): (PlaceId, set<PlaceId>) {
    (s.current, Elements(s.used))
  }

  lemma {:induction false} KeyIsCounted(q: Request, useMinimum: bool, roles: seq<Role>, s: State)
    requires roles != [] && Genuine(q, useMinimum, roles, s)
    ensures KeyOf(s) in Marked(SetsOf(q, roles), PlacesOf(q, roles[|roles| - 1]))
  {
    ReplayShape(q, useMinimum, s.used);
    OrderIsCounted(q, s.used, roles);
    assert s.current in Elements(s.used) * PlacesOf(q, roles[|roles| - 1]);
  }

  /** States with different keys are no more than the keys there are. */
  lemma {:induction false} KeysCount(kept: seq<State>, keys: set<(PlaceId, set<PlaceId>)>)
    requires KeysDistinct(kept) && forall s :: s in kept ==> KeyOf(s) in keys
    ensures |kept| <= |keys|
  {
    var own := Mapped(KeyOf, kept);
    assert Distinct(own);
    DistinctByCount(own);
    Smaller((set k | k in own), keys);
  }

  lemma {:induction false} GenuineCount(q: Request, useMinimum: bool, roles: seq<Role>, kept: seq<State>)
    requires roles != [] && KeysDistinct(kept) && AllGenuine(q, useMinimum, roles, kept)
    ensures |kept| <= KeyBound(q, roles)
  {
    var role := roles[|roles| - 1];
    var sets, among := SetsOf(q, roles), PlacesOf(q, role);
    forall s | s in kept ensures KeyOf(s) in Marked(sets, among) {
      KeyIsCounted(q, useMinimum, roles, s);
    }
    KeysCount(kept, Marked(sets, among));
    forall s | s in sets ensures Shares(s, among, RoleCount(roles, role)) {
      SetsShare(q, roles, s, role);
    }
    MarkedCount(sets, among, RoleCount(roles, role));
    SetsCount(q, roles);
    TimesMonotone(|sets|, RoleCount(roles, role), SetBound(q, roles), RoleCount(roles, role));
  }

  // ------------------------------------------------------------------ the cut, and what is lost

  /** Before the cut, a layer holds no more states than its roles can be filled in. */
  lemma {:induction false} OfferedCount(q: Request, useMinimum: bool, pattern: seq<Role>, n: nat)
    requires q.Valid() && n < |pattern|
    ensures |Offered(q, useMinimum, pattern[n], Layers(q, useMinimum, pattern, n))| <= KeyBound(q, pattern[..n + 1])
  {
    var states, choices := Layers(q, useMinimum, pattern, n), Choices(q, pattern[n], |q.ids|);
    assert pattern[..n + 1] == pattern[..n] + [pattern[n]];
    assert q.ids[..|q.ids|] == q.ids;
    LayersGenuine(q, useMinimum, pattern, n);
    OfferStatesGenuine(q, useMinimum, pattern[..n], pattern[n], states, |states|, choices);
    StatesKeysDistinct(q, useMinimum, states, |states|, choices);
    GenuineCount(q, useMinimum, pattern[..n + 1], OfferStates(q, useMinimum, states, |states|, choices));
  }

  lemma {:induction false} FittingNeverCuts(q: Request)
    requires q.Valid() && FitsTheCut(q)
    ensures NoCut(q)
  {
    forall useMinimum, pattern, n | pattern in RolePatterns(q) && 0 <= n < |pattern| ensures CutIdle(q, useMinimum, pattern, n) {
      OfferedCount(q, useMinimum, pattern, n);
      assert KeyBound(q, pattern[..n + 1]) <= STATE_LIMIT;
    }
  }

  /** Nothing is lost, on conditions a caller can check before the search: the timetable hands
      every leg over, the places are few enough, and the hard rest limit is off. */
  lemma {:induction false} SearchIsLossless(q: Request, pattern: seq<Role>, order: seq<PlaceId>, home: int)
    requires q.Valid() && WaitLimitHarmless(q) && FitsTheCut(q) && !q.hardRestLimit
    requires pattern in RolePatterns(q)
    ensures Itinerary(q, UsedMinimum(q), pattern, order, home) ==> Matched(q, Found(q), pattern, order, home)
    ensures Itinerary(q, false, pattern, order, home) ==> !UsedMinimum(q)
    ensures !UsedMinimum(q) ==> exists p, o, h :: p in RolePatterns(q) && Itinerary(q, false, p, o, h)
  {
    FittingNeverCuts(q);
    DominanceIsLossless(q, pattern, order, home);
  }
}
