/** The relaxed strategy: a balanced order cut down to a few visits, meals and rests kept. */
module RelaxedOrder {
  import opened Common
  import opened Ordering
  import opened BusBoarding
  import opened BusSearch
  import opened BusItinerary

  const FEWEST_VISITS := 2

  predicate IsVisit(q: Request, id: PlaceId) {
    id in q.places && q.places[id].role == Visit
  }

  function RequiredVisits(q: Request): set<PlaceId> {
    set id | id in q.required && IsVisit(q, id)
  }

  function VisitsIn(q: Request, order: seq<PlaceId>): set<PlaceId> {
    set id | id in order && IsVisit(q, id)
  }

  /** The order without the visits outside `kept`. */
  function Trimmed(q: Request, order: seq<PlaceId>, kept: set<PlaceId>): (r: seq<PlaceId>)
    ensures forall id :: id in r <==> id in order && (IsVisit(q, id) ==> id in kept)
  {
    if order == [] then []
    else
      var front, last := Trimmed(q, order[..|order| - 1], kept), order[|order| - 1];
      assert order == order[..|order| - 1] + [last];
      if IsVisit(q, last) && last !in kept then front else front + [last]
  }

  function Target(q: Request): nat {
    if |RequiredVisits(q)| > FEWEST_VISITS then |RequiredVisits(q)| else FEWEST_VISITS
  }

  /** The visits kept after looking at the first `n` places: once the target is met, no more. */
  function KeptAfter(q: Request, order: seq<PlaceId>, n: nat): set<PlaceId>
    requires n <= |order|
  {
    if n == 0 then RequiredVisits(q)
    else
      var before := KeptAfter(q, order, n - 1);
      if IsVisit(q, order[n - 1]) && |before| < Target(q) then before + {order[n - 1]} else before
  }

  function Relaxed(q: Request, order: seq<PlaceId>): seq<PlaceId> {
    Trimmed(q, order, KeptAfter(q, order, |order|))
  }

  lemma {:induction false} KeptStays(q: Request, order: seq<PlaceId>, n: nat, m: nat)
    requires n <= m <= |order| && |KeptAfter(q, order, n)| >= Target(q)
    ensures KeptAfter(q, order, m) == KeptAfter(q, order, n)
  {
    if n < m {
      KeptStays(q, order, n, m - 1);
    }
  }

  /** `_relaxed_prefix_order`. */
  method RelaxedPrefixOrder(q: Request, order: seq<PlaceId>) returns (relaxed: seq<PlaceId>)
    requires forall i :: 0 <= i < |order| ==> order[i] in q.places
    ensures relaxed == Relaxed(q, order)
  {
    var kept := RequiredVisits(q);
    for i := 0 to |order|
      invariant kept == KeptAfter(q, order, i)
    {
      if q.places[order[i]].role != Visit {
        continue;
      }
      if |kept| >= Target(q) {
        KeptStays(q, order, i, |order|);
        break;
      }
      kept := kept + {order[i]};
    }
    return Trimmed(q, order, kept);
  }

  // ------------------------------------------------------------------ how many visits are kept

  lemma {:induction false} SubsetOf(a: set<PlaceId>, b: set<PlaceId>)
    requires a <= b
    ensures |a| <= |b| && (|a| == |b| ==> a == b)
  {
    assert b == a + (b - a);
  }

  /** As many as the target, or all there are. */
  lemma {:induction false} KeptCount(q: Request, order: seq<PlaceId>, n: nat)
    requires n <= |order|
    ensures RequiredVisits(q) <= KeptAfter(q, order, n) <= RequiredVisits(q) + VisitsIn(q, order)
    ensures |KeptAfter(q, order, n)| <= Target(q)
    ensures |KeptAfter(q, order, n)| < Target(q) ==> VisitsIn(q, order[..n]) <= KeptAfter(q, order, n)
  {
    if n > 0 {
      KeptCount(q, order, n - 1);
      var before, last := KeptAfter(q, order, n - 1), order[n - 1];
      assert order[..n] == order[..n - 1] + [last] && last in order;
      assert VisitsIn(q, order[..n]) == VisitsIn(q, order[..n - 1]) + (if IsVisit(q, last) then {last} else {});
    }
  }

  /** The relaxed order keeps every meal, every rest and every required visit, and exactly as many
      visits as the target asks for and the order has. */
  lemma {:induction false} RelaxedKeeps(q: Request, order: seq<PlaceId>)
    requires RequiredVisits(q) <= VisitsIn(q, order)
    ensures forall id :: id in order && !IsVisit(q, id) ==> id in Relaxed(q, order)
    ensures RequiredVisits(q) <= VisitsIn(q, Relaxed(q, order)) <= VisitsIn(q, order)
    ensures |VisitsIn(q, Relaxed(q, order))| == if Target(q) <= |VisitsIn(q, order)| then Target(q) else |VisitsIn(q, order)|
  {
    var kept, visits := KeptAfter(q, order, |order|), VisitsIn(q, order);
    KeptCount(q, order, |order|);
    assert order[..|order|] == order;
    assert kept <= visits;
    SubsetOf(kept, visits);
    if |kept| < Target(q) {
      assert kept == visits;
    }
    TrimmedVisits(q, order, kept);
  }

  lemma {:induction false} TrimmedVisits(q: Request, order: seq<PlaceId>, kept: set<PlaceId>)
    requires kept <= VisitsIn(q, order)
    ensures VisitsIn(q, Trimmed(q, order, kept)) == kept
  {
  }

  /** `s` is `t` with some entries left out. */
  predicate SubsequenceOf(s: seq<PlaceId>, t: seq<PlaceId>) {
    if s == [] then true
    else if t == [] then false
    else if s[|s| - 1] == t[|t| - 1] && SubsequenceOf(s[..|s| - 1], t[..|t| - 1]) then true
    else SubsequenceOf(s, t[..|t| - 1])
  }

  /** The order of the places is kept. */
  lemma {:induction false} TrimmedIsSubsequence(q: Request, order: seq<PlaceId>, kept: set<PlaceId>)
    ensures SubsequenceOf(Trimmed(q, order, kept), order)
  {
    if order != [] {
      TrimmedIsSubsequence(q, order[..|order| - 1], kept);
    }
  }

  /** Of the visits that are not required, the first ones are kept: none is dropped before one that
      stays. */
  lemma {:induction false} FirstVisitsAreKept(q: Request, order: seq<PlaceId>, i: nat, j: nat)
    requires i < j < |order| && IsVisit(q, order[i]) && order[i] !in KeptAfter(q, order, |order|)
    requires IsVisit(q, order[j]) && order[j] !in RequiredVisits(q) && order[j] !in order[..j]
    ensures order[j] !in KeptAfter(q, order, |order|)
  {
    KeptGrows(q, order, i + 1, |order|);
    assert |KeptAfter(q, order, i)| >= Target(q);
    KeptStays(q, order, i, |order|);
    KeptCameEarlier(q, order, i, order[j]);
    assert forall k :: 0 <= k < i ==> order[..i][k] == order[..j][k];
  }

  lemma {:induction false} KeptGrows(q: Request, order: seq<PlaceId>, n: nat, m: nat)
    requires n <= m <= |order|
    ensures KeptAfter(q, order, n) <= KeptAfter(q, order, m)
  {
    if n < m {
      KeptGrows(q, order, n, m - 1);
    }
  }

  lemma {:induction false} KeptCameEarlier(q: Request, order: seq<PlaceId>, n: nat, id: PlaceId)
    requires n <= |order|
    ensures id in KeptAfter(q, order, n) ==> id in RequiredVisits(q) || id in order[..n]
  {
    if n > 0 {
      KeptCameEarlier(q, order, n - 1, id);
      assert order[..n] == order[..n - 1] + [order[n - 1]];
    }
  }

  /** The search's solutions contain every required visit, so relaxing any of them keeps the counts. */
  lemma {:induction false} RelaxedSolution(q: Request, sol: Solution)
    requires q.Valid() && sol in Solutions(q)
    ensures RequiredVisits(q) <= VisitsIn(q, Relaxed(q, sol.order))
    ensures |VisitsIn(q, Relaxed(q, sol.order))| == if Target(q) <= |VisitsIn(q, sol.order)| then Target(q) else |VisitsIn(q, sol.order)|
  {
    SearchIsSound(q);
    assert IsFoundItinerary(q, sol);
    RelaxedKeeps(q, sol.order);
  }

  // ------------------------------------------------------------------ which places stay

  ghost predicate VisitAt(q: Request, order: seq<PlaceId>, i: nat)
    requires i < |order|
  {
    order[i] in q.places && q.places[order[i]].role == Visit
  }

  /** The required places that are visits. */
  ghost function Required(q: Request): set<PlaceId> {
    set id | id in q.required && id in q.places && q.places[id].role == Visit
  }

  /** The other visits among the first `n` places. */
  ghost function OptionalBefore(q: Request, order: seq<PlaceId>, n: nat): set<PlaceId>
    requires n <= |order|
  {
    set j | 0 <= j < n && VisitAt(q, order, j) && order[j] !in q.required :: order[j]
  }

  /** A meal or rest stays, a required visit stays, and another visit stays while the required ones
      and those before it are fewer than two. */
  ghost predicate Stays(q: Request, order: seq<PlaceId>, i: nat)
    requires i < |order|
  {
    VisitAt(q, order, i) && order[i] !in q.required ==> |Required(q)| + |OptionalBefore(q, order, i)| < 2
  }

  lemma {:induction false} OptionalNext(q: Request, order: seq<PlaceId>, n: nat)
    requires n < |order|
    ensures OptionalBefore(q, order, n + 1)
            == OptionalBefore(q, order, n) + if VisitAt(q, order, n) && order[n] !in q.required then {order[n]} else {}
  {
  }

  /** After `n` places the required visits and the others so far are kept, or enough are. */
  ghost predicate FirstKept(q: Request, order: seq<PlaceId>, n: nat)
    requires n <= |order|
  {
    var count := |Required(q)| + |OptionalBefore(q, order, n)|;
    && (count <= Target(q) ==> KeptAfter(q, order, n) == Required(q) + OptionalBefore(q, order, n))
    && (count >= Target(q) ==> |KeptAfter(q, order, n)| >= Target(q))
  }

  lemma {:induction false} NoneBefore(q: Request, order: seq<PlaceId>)
    ensures FirstKept(q, order, 0)
  {
    assert OptionalBefore(q, order, 0) == {} && KeptAfter(q, order, 0) == Required(q);
  }

  lemma {:induction false} CountNext(q: Request, order: seq<PlaceId>, n: nat)
    requires n < |order| && FirstKept(q, order, n)
    ensures FirstKept(q, order, n + 1)
  {
    var before, after := OptionalBefore(q, order, n), OptionalBefore(q, order, n + 1);
    OptionalNext(q, order, n);
    KeptGrows(q, order, n, n + 1);
    SubsetOf(KeptAfter(q, order, n), KeptAfter(q, order, n + 1));
    SubsetOf(before, after);
    assert Required(q) !! before && Required(q) !! after;
    assert |Required(q) + before| == |Required(q)| + |before|;
    assert |Required(q) + after| == |Required(q)| + |after|;
  }

  lemma {:induction false} KeptIsFirst(q: Request, order: seq<PlaceId>, n: nat)
    requires n <= |order|
    ensures FirstKept(q, order, n)
  {
    if n == 0 {
      NoneBefore(q, order);
    } else {
      KeptIsFirst(q, order, n - 1);
      CountNext(q, order, n - 1);
    }
  }

  lemma {:induction false} OptionalIsKeptIff(q: Request, order: seq<PlaceId>, i: nat)
    requires i < |order| && Distinct(order) && VisitAt(q, order, i) && order[i] !in q.required
    ensures order[i] in KeptAfter(q, order, |order|) <==> |Required(q)| + |OptionalBefore(q, order, i)| < Target(q)
  {
    KeptIsFirst(q, order, i);
    if |Required(q)| + |OptionalBefore(q, order, i)| < Target(q) {
      OptionalNext(q, order, i);
      SubsetOf(OptionalBefore(q, order, i + 1), OptionalBefore(q, order, i) + {order[i]});
      KeptIsFirst(q, order, i + 1);
      KeptGrows(q, order, i + 1, |order|);
    } else {
      KeptStays(q, order, i, |order|);
      KeptCameEarlier(q, order, i, order[i]);
      assert forall k :: 0 <= k < i ==> order[..i][k] == order[k];
    }
  }

  lemma {:induction false} StaysIff(q: Request, order: seq<PlaceId>, i: nat)
    requires i < |order| && Distinct(order)
    ensures Stays(q, order, i) <==> !IsVisit(q, order[i]) || order[i] in KeptAfter(q, order, |order|)
  {
    KeptCount(q, order, |order|);
    assert RequiredVisits(q) == Required(q);
    if VisitAt(q, order, i) && order[i] !in q.required {
      OptionalIsKeptIff(q, order, i);
      assert OptionalBefore(q, order, i) == {} || |OptionalBefore(q, order, i)| >= 1;
    }
  }

  predicate IsKept(q: Request, kept: set<PlaceId>, id: PlaceId) {
    !IsVisit(q, id) || id in kept
  }

  /** List `r` has the kept entries, those at `at`, in their order. */
  ghost predicate KeptAt(q: Request, order: seq<PlaceId>, kept: set<PlaceId>, at: seq<nat>, r: seq<PlaceId>) {
    && |r| == |at|
    && (forall i, j :: 0 <= i < j < |at| ==> at[i] < at[j])
    && (forall i :: 0 <= i < |at| ==> at[i] < |order| && r[i] == order[at[i]] && IsKept(q, kept, r[i]))
    && (forall k :: 0 <= k < |order| && IsKept(q, kept, order[k]) ==> k in at)
  }

  lemma {:induction false} KeptOneMore(q: Request, front: seq<PlaceId>, last: PlaceId, kept: set<PlaceId>, at: seq<nat>, r: seq<PlaceId>)
    requires KeptAt(q, front, kept, at, r)
    ensures IsKept(q, kept, last) ==> KeptAt(q, front + [last], kept, at + [|front|], r + [last])
    ensures !IsKept(q, kept, last) ==> KeptAt(q, front + [last], kept, at, r)
  {
    var order := front + [last];
    forall k | 0 <= k < |order| && IsKept(q, kept, order[k]) ensures k in at + [|front|] {
      if k < |front| {
        assert k in at;
      } else {
        assert (at + [|front|])[|at|] == k;
      }
    }
  }

  lemma {:induction false} TrimmedMeans(q: Request, order: seq<PlaceId>, kept: set<PlaceId>) returns (at: seq<nat>)
    ensures KeptAt(q, order, kept, at, Trimmed(q, order, kept))
  {
    at := [];
    if order != [] {
      var front, last := order[..|order| - 1], order[|order| - 1];
      assert order == front + [last];
      var before := TrimmedMeans(q, front, kept);
      KeptOneMore(q, front, last, kept, before, Trimmed(q, front, kept));
      at := if IsKept(q, kept, last) then before + [|front|] else before;
    }
  }

  /** Main result: the relaxed order has just the places that stay, in their order. */
  lemma {:induction false} RelaxedMeans(q: Request, order: seq<PlaceId>) returns (at: seq<nat>)
    requires Distinct(order)
    ensures |Relaxed(q, order)| == |at| && forall i, j :: 0 <= i < j < |at| ==> at[i] < at[j]
    ensures forall k: nat :: k in at <==> k < |order| && Stays(q, order, k)
    ensures forall i :: 0 <= i < |at| ==> at[i] < |order| && Relaxed(q, order)[i] == order[at[i]]
  {
    at := TrimmedMeans(q, order, KeptAfter(q, order, |order|));
    forall k: nat | k < |order| ensures Stays(q, order, k) <==> IsKept(q, KeptAfter(q, order, |order|), order[k]) {
      StaysIff(q, order, k);
    }
  }
}
