/** The one-transfer join as it runs, and its equality with the brute-force join. */
module TransferScan {
  import opened Common
  import opened Ordering
  import opened Counting
  import opened TransferJoin

  /** A second ride: where it is boarded and where it ends. */
  datatype Second = Second(board: Call, alight: Call)

  type Index = map<StopId, seq<Second>>

  predicate SecondLess(a: Second, b: Second) {
    || a.board.departsAt < b.board.departsAt
    || (a.board.departsAt == b.board.departsAt &&
        (a.alight.arrivesAt < b.alight.arrivesAt || (a.alight.arrivesAt == b.alight.arrivesAt && a.board.trip < b.board.trip)))
  }

  predicate IsSecond(q: Search, rows: seq<Call>, r: Second) {
    r.board in rows && r.alight in rows && Before(r.board, r.alight) && r.alight.stop in q.endpoints
  }

  ghost predicate IndexSound(q: Search, rows: seq<Call>, index: Index) {
    forall stop, r :: stop in index && r in index[stop] ==> IsSecond(q, rows, r) && r.board.stop == stop
  }

  predicate Listed(index: Index, r: Second) {
    r.board.stop in index && r in index[r.board.stop]
  }

  ghost predicate IndexComplete(q: Search, rows: seq<Call>, index: Index) {
    forall r :: IsSecond(q, rows, r) ==> Listed(index, r)
  }

  method IndexTrip(q: Search, ghost rows: seq<Call>, calls: seq<Call>, start: Index) returns (index: Index)
    requires IndexSound(q, rows, start)
    requires forall i :: 0 <= i < |calls| ==> calls[i] in rows
    requires forall i, j :: 0 <= i < j < |calls| ==> Before(calls[i], calls[j])
    ensures IndexSound(q, rows, index)
    ensures forall r :: Listed(start, r) ==> Listed(index, r)
    ensures forall i, j :: 0 <= i < j < |calls| && calls[j].stop in q.endpoints ==> Listed(index, Second(calls[i], calls[j]))
  {
    index := start;
    for i := 0 to |calls|
      invariant IndexSound(q, rows, index)
      invariant forall r :: Listed(start, r) ==> Listed(index, r)
      invariant forall a, j :: 0 <= a < i && a < j < |calls| && calls[j].stop in q.endpoints ==> Listed(index, Second(calls[a], calls[j]))
    {
      for j := i + 1 to |calls|
        invariant IndexSound(q, rows, index)
        invariant forall r :: Listed(start, r) ==> Listed(index, r)
        invariant forall a, k :: 0 <= a < i && a < k < |calls| && calls[k].stop in q.endpoints ==> Listed(index, Second(calls[a], calls[k]))
        invariant forall k :: i < k < j && calls[k].stop in q.endpoints ==> Listed(index, Second(calls[i], calls[k]))
      {
        if calls[j].stop !in q.endpoints {
          continue;
        }
        index := AddSecond(q, rows, index, Second(calls[i], calls[j]));
      }
    }
  }

  method AddSecond(q: Search, ghost rows: seq<Call>, start: Index, r: Second) returns (index: Index)
    requires IndexSound(q, rows, start) && IsSecond(q, rows, r)
    ensures IndexSound(q, rows, index)
    ensures forall x :: Listed(start, x) ==> Listed(index, x)
    ensures Listed(index, r)
  {
    var stop := r.board.stop;
    var listed := (if stop in start then start[stop] else []) + [r];
    index := start[stop := listed];
    assert listed[|listed| - 1] == r;
  }

  method IndexSeconds(q: Search, ghost rows: seq<Call>, trips: Trips) returns (index: Index)
    requires Groups(trips, rows)
    ensures IndexSound(q, rows, index) && IndexComplete(q, rows, index)
    ensures forall stop :: stop in index ==> SortedBy(SecondLess, index[stop])
  {
    index := map[];
    for t := 0 to |trips|
      invariant IndexSound(q, rows, index)
      invariant forall u, i, j :: 0 <= u < t && 0 <= i < j < |trips[u]| && trips[u][j].stop in q.endpoints ==> Listed(index, Second(trips[u][i], trips[u][j]))
    {
      index := IndexTrip(q, rows, trips[t], index);
    }
    forall r | IsSecond(q, rows, r) ensures Listed(index, r) {
      assert InTrips(trips, r.board, r.alight);
      var t, i, j :| 0 <= t < |trips| && 0 <= i < j < |trips[t]| && trips[t][i] == r.board && trips[t][j] == r.alight;
      assert Listed(index, Second(trips[t][i], trips[t][j]));
    }
    index := SortIndex(q, rows, index);
  }

  method SortIndex(q: Search, ghost rows: seq<Call>, start: Index) returns (index: Index)
    requires IndexSound(q, rows, start) && IndexComplete(q, rows, start)
    ensures IndexSound(q, rows, index) && IndexComplete(q, rows, index)
    ensures forall stop :: stop in index ==> SortedBy(SecondLess, index[stop])
  {
    index := map stop | stop in start :: Sort(SecondLess, start[stop]);
    forall stop, r | stop in start ensures r in index[stop] <==> r in start[stop] {
      SortKeepsElements(SecondLess, start[stop], r);
    }
    forall stop | stop in index ensures SortedBy(SecondLess, index[stop]) {
      SecondLessIsStrict();
      SortSorts(SecondLess, start[stop]);
    }
    forall r | IsSecond(q, rows, r) ensures Listed(index, r) {
      assert Listed(start, r);
    }
  }

  lemma {:induction false} SecondLessIsStrict()
    ensures StrictOrder(SecondLess)
  {
  }

  /** `bisect_left`: the first position not below `x`. */
  method BisectLeft(departures: seq<int>, x: int) returns (cursor: nat)
    requires forall i, j :: 0 <= i < j < |departures| ==> departures[i] <= departures[j]
    ensures cursor <= |departures|
    ensures forall i :: 0 <= i < cursor ==> departures[i] < x
    ensures forall i :: cursor <= i < |departures| ==> x <= departures[i]
  {
    var lo, hi := 0, |departures|;
    while lo < hi
      invariant 0 <= lo <= hi <= |departures|
      invariant forall i :: 0 <= i < lo ==> departures[i] < x
      invariant forall i :: hi <= i < |departures| ==> x <= departures[i]
    {
      var mid := (lo + hi) / 2;
      if departures[mid] < x {
        lo := mid + 1;
      } else {
        hi := mid;
      }
    }
    cursor := lo;
  }

  /** What the scan still checks of a second ride inside the departure interval. */
  predicate Joins(q: Search, board: Call, r: Second) {
    r.board.trip != board.trip && r.board.route != board.route && r.alight.arrivesAt <= q.LatestArrival()
  }

  predicate InInterval(ready: int, latest: int, r: Second) {
    ready <= r.board.departsAt <= latest
  }

  /** A second ride that a scan of one stop offers. */
  predicate Offerable(q: Search, board: Call, ready: int, latest: int, options: seq<Second>, r: Second) {
    r in options && InInterval(ready, latest, r) && Joins(q, board, r)
  }

  /** The scan adds exactly the candidates of the offerable second rides. */
  ghost predicate ScanAdds(q: Search, board: Call, ready: int, latest: int, options: seq<Second>, before: set<Candidate>, seen: set<Candidate>) {
    && before <= seen
    && (forall r :: Offerable(q, board, ready, latest, options, r) ==> CandidateOf(board, r.board, r.alight) in seen)
    && (forall c :: c in seen && c !in before ==>
          exists r :: Offerable(q, board, ready, latest, options, r) && c == CandidateOf(board, r.board, r.alight))
  }

  /** The sorted index is searched, not scanned: everything before the position departs too early. */
  method FirstDeparture(options: seq<Second>, ready: int) returns (first: nat)
    requires SortedBy(SecondLess, options)
    ensures first <= |options|
    ensures forall i :: 0 <= i < first ==> options[i].board.departsAt < ready
    ensures forall i :: first <= i < |options| ==> ready <= options[i].board.departsAt
    ensures forall i, j :: 0 <= i < j < |options| ==> options[i].board.departsAt <= options[j].board.departsAt
  {
    var departures := seq(|options|, i requires 0 <= i < |options| => options[i].board.departsAt);
    assert forall i, j :: 0 <= i < j < |options| ==> !SecondLess(options[j], options[i]);
    assert forall i, j :: 0 <= i < j < |options| ==> departures[i] <= departures[j];
    first := BisectLeft(departures, ready);
    assert forall i :: 0 <= i < |options| ==> departures[i] == options[i].board.departsAt;
  }

  /** The candidate comes from a joining second ride between the two positions. */
  ghost predicate ScannedBetween(q: Search, board: Call, options: seq<Second>, first: nat, last: nat, c: Candidate)
    requires first <= last <= |options|
  {
    exists i :: first <= i < last && Joins(q, board, options[i]) && c == CandidateOf(board, options[i].board, options[i].alight)
  }

  /** The positions from `first` up to `last` have been scanned, and nothing else was offered. */
  ghost predicate Scanned(q: Search, board: Call, latest: int, options: seq<Second>, first: nat, last: nat, seen: set<Candidate>, seenNow: set<Candidate>) {
    && first <= last <= |options| && seen <= seenNow
    && (forall i :: first <= i < last ==> options[i].board.departsAt <= latest)
    && (forall i :: first <= i < last && Joins(q, board, options[i]) ==> CandidateOf(board, options[i].board, options[i].alight) in seenNow)
    && (forall c :: c in seenNow ==> c in seen || ScannedBetween(q, board, options, first, last, c))
  }

  /** One more position of the scan, offered or skipped. */
  lemma {:induction false} ScannedOneMore(q: Search, board: Call, latest: int, options: seq<Second>, first: nat, last: nat, seen: set<Candidate>, before: set<Candidate>, now: set<Candidate>)
    requires Scanned(q, board, latest, options, first, last, seen, before)
    requires last < |options| && options[last].board.departsAt <= latest
    requires now == if Joins(q, board, options[last]) then before + {CandidateOf(board, options[last].board, options[last].alight)} else before
    ensures Scanned(q, board, latest, options, first, last + 1, seen, now)
  {
    forall c | c in now && c !in seen ensures ScannedBetween(q, board, options, first, last + 1, c) {
      if c in before {
        var i :| first <= i < last && Joins(q, board, options[i]) && c == CandidateOf(board, options[i].board, options[i].alight);
      }
    }
  }

  /** What was scanned between the two positions is everything offerable. */
  lemma {:induction false} ScanIsComplete(q: Search, board: Call, ready: int, latest: int, options: seq<Second>, first: nat, last: nat, seen: set<Candidate>, seenNow: set<Candidate>)
    requires Scanned(q, board, latest, options, first, last, seen, seenNow)
    requires forall i :: 0 <= i < first ==> options[i].board.departsAt < ready
    requires forall i :: first <= i < last ==> ready <= options[i].board.departsAt
    requires forall i :: last <= i < |options| ==> latest < options[i].board.departsAt
    ensures ScanAdds(q, board, ready, latest, options, seen, seenNow)
  {
    forall r | Offerable(q, board, ready, latest, options, r) ensures CandidateOf(board, r.board, r.alight) in seenNow {
      var i :| 0 <= i < |options| && options[i] == r;
    }
    forall c | c in seenNow && c !in seen
      ensures exists r :: Offerable(q, board, ready, latest, options, r) && c == CandidateOf(board, r.board, r.alight)
    {
      var i :| first <= i < last && Joins(q, board, options[i]) && c == CandidateOf(board, options[i].board, options[i].alight);
      assert Offerable(q, board, ready, latest, options, options[i]);
    }
  }

  /** Scan from one position until a departure is too late. */
  method ScanFrom(q: Search, board: Call, latest: int, options: seq<Second>, first: nat, buckets: Buckets, ghost seen: set<Candidate>)
    returns (now: Buckets, cursor: nat, ghost seenNow: set<Candidate>)
    requires first <= |options| && Streams(buckets, seen)
    ensures Streams(now, seenNow) && Scanned(q, board, latest, options, first, cursor, seen, seenNow)
    ensures cursor < |options| ==> latest < options[cursor].board.departsAt
  {
    now, cursor, seenNow := buckets, first, seen;
    while cursor < |options|
      invariant Streams(now, seenNow) && Scanned(q, board, latest, options, first, cursor, seen, seenNow)
    {
      var r := options[cursor];
      if r.board.departsAt > latest {
        break;
      }
      ghost var before := seenNow;
      cursor := cursor + 1;
      if r.board.trip == board.trip || r.board.route == board.route || r.alight.arrivesAt > q.LatestArrival() {
        ScannedOneMore(q, board, latest, options, first, cursor - 1, seen, before, before);
        continue;
      }
      var c := CandidateOf(board, r.board, r.alight);
      now := OfferCandidate(now, seenNow, c);
      seenNow := seenNow + {c};
      ScannedOneMore(q, board, latest, options, first, cursor - 1, seen, before, seenNow);
    }
  }

  /** Scan the second rides of one stop from the first allowed departure to the last: exactly
      those inside the interval are offered. */
  method ScanSeconds(q: Search, board: Call, ready: int, latest: int, options: seq<Second>, buckets: Buckets, ghost seen: set<Candidate>)
    returns (now: Buckets, ghost seenNow: set<Candidate>)
    requires SortedBy(SecondLess, options)
    requires Streams(buckets, seen)
    ensures Streams(now, seenNow)
    ensures ScanAdds(q, board, ready, latest, options, seen, seenNow)
  {
    var first := FirstDeparture(options, ready);
    var cursor;
    now, cursor, seenNow := ScanFrom(q, board, latest, options, first, buckets, seen);
    ScanIsComplete(q, board, ready, latest, options, first, cursor, seen, seenNow);
  }

  // ------------------------------------------------------------------ walks between stops

  type Walks = map<StopId, seq<StopId>>

  function WalkLess(q: Search, from: StopId): (StopId, StopId) -> bool {
    (a, b) => q.Near(from, a) && q.Near(from, b)
              && (q.distance[(from, a)] < q.distance[(from, b)] || (q.distance[(from, a)] == q.distance[(from, b)] && a < b))
  }

  function StopsOf(rows: seq<Call>): (r: seq<StopId>)
    ensures forall c :: c in rows ==> c.stop in r
    ensures forall s :: s in r ==> exists c :: c in rows && c.stop == s
  {
    if rows == [] then []
    else
      assert rows == rows[..|rows| - 1] + [rows[|rows| - 1]];
      var front := StopsOf(rows[..|rows| - 1]);
      if rows[|rows| - 1].stop in front then front else front + [rows[|rows| - 1].stop]
  }

  /** Every stop within 300 metres, nearest first. */
  method NearStops(q: Search, stops: seq<StopId>, from: StopId) returns (near: seq<StopId>)
    ensures forall s :: s in near <==> s in stops && q.Near(from, s)
  {
    near := [];
    for i := 0 to |stops|
      invariant forall s :: s in near <==> s in stops[..i] && q.Near(from, s)
    {
      assert stops[..i + 1] == stops[..i] + [stops[i]];
      if q.Near(from, stops[i]) {
        near := near + [stops[i]];
      }
    }
    assert stops[..|stops|] == stops;
    forall s ensures s in Sort(WalkLess(q, from), near) <==> s in near {
      SortKeepsElements(WalkLess(q, from), near, s);
    }
    near := Sort(WalkLess(q, from), near);
  }

  ghost predicate WalksComplete(q: Search, rows: seq<Call>, walks: Walks) {
    && (forall c :: c in rows ==> c.stop in walks)
    && (forall from, to :: from in walks && to in walks[from] ==> q.Near(from, to))
    && (forall from, c :: from in walks && c in rows && q.Near(from, c.stop) ==> c.stop in walks[from])
  }

  method BuildWalks(q: Search, rows: seq<Call>) returns (walks: Walks)
    ensures WalksComplete(q, rows, walks)
  {
    var stops := StopsOf(rows);
    walks := map[];
    for i := 0 to |stops|
      invariant forall k :: 0 <= k < i ==> stops[k] in walks
      invariant forall from, to :: from in walks ==> (to in walks[from] <==> to in stops && q.Near(from, to))
    {
      var near := NearStops(q, stops, stops[i]);
      walks := walks[stops[i] := near];
    }
    forall c | c in rows ensures c.stop in walks {
      var k :| 0 <= k < |stops| && stops[k] == c.stop;
    }
  }

  // ------------------------------------------------------------------ the whole join

  ghost predicate Witnessed(q: Search, rows: seq<Call>, c: Candidate) {
    exists board, from, second, alight ::
      board in rows && from in rows && second in rows && alight in rows
      && Witness(q, board, from, second, alight) && c == CandidateOf(board, second, alight)
  }

  ghost predicate AllWitnessed(q: Search, rows: seq<Call>, seen: set<Candidate>) {
    forall c :: c in seen ==> Witnessed(q, rows, c)
  }

  /** Every witness that transfers from `from` after boarding `board` has been seen. */
  ghost predicate PairCovered(q: Search, rows: seq<Call>, seen: set<Candidate>, board: Call, from: Call) {
    forall r :: IsSecond(q, rows, r) && Witness(q, board, from, r.board, r.alight) ==> CandidateOf(board, r.board, r.alight) in seen
  }

  ghost predicate Boarded(q: Search, rows: seq<Call>, board: Call, from: Call) {
    board in rows && from in rows && Before(board, from)
    && board.stop in q.endpoints && q.windowStart <= board.departsAt <= q.LatestArrival()
  }

  ghost predicate GoodIndex(q: Search, rows: seq<Call>, index: Index) {
    && IndexSound(q, rows, index) && IndexComplete(q, rows, index)
    && forall stop :: stop in index ==> SortedBy(SecondLess, index[stop])
  }

  /** Which second rides of one stop make a witness. */
  lemma {:induction false} WitnessAtStop(q: Search, rows: seq<Call>, board: Call, from: Call, to: StopId, ready: int, r: Second)
    requires Boarded(q, rows, board, from) && q.Near(from.stop, to) && ready == q.ReadyAt(from.arrivesAt, from.stop, to)
    requires IsSecond(q, rows, r) && r.board.stop == to
    ensures Witness(q, board, from, r.board, r.alight) <==> InInterval(ready, ready + 60 * q.busWaitLimit, r) && Joins(q, board, r)
  {
  }

  lemma {:induction false} ScanIsWitnessed(q: Search, rows: seq<Call>, index: Index, board: Call, from: Call, to: StopId, ready: int, options: seq<Second>,
                        before: set<Candidate>, seen: set<Candidate>)
    requires Boarded(q, rows, board, from) && q.Near(from.stop, to) && ready == q.ReadyAt(from.arrivesAt, from.stop, to)
    requires GoodIndex(q, rows, index) && options == if to in index then index[to] else []
    requires AllWitnessed(q, rows, before) && ScanAdds(q, board, ready, ready + 60 * q.busWaitLimit, options, before, seen)
    ensures AllWitnessed(q, rows, seen)
  {
    forall c | c in seen && c !in before ensures Witnessed(q, rows, c) {
      var r :| Offerable(q, board, ready, ready + 60 * q.busWaitLimit, options, r) && c == CandidateOf(board, r.board, r.alight);
      WitnessAtStop(q, rows, board, from, to, ready, r);
    }
  }

  lemma {:induction false} ScanCovers(q: Search, rows: seq<Call>, index: Index, board: Call, from: Call, to: StopId, ready: int, options: seq<Second>,
                   before: set<Candidate>, seen: set<Candidate>, r: Second)
    requires Boarded(q, rows, board, from) && q.Near(from.stop, to) && ready == q.ReadyAt(from.arrivesAt, from.stop, to)
    requires GoodIndex(q, rows, index) && options == if to in index then index[to] else []
    requires ScanAdds(q, board, ready, ready + 60 * q.busWaitLimit, options, before, seen)
    requires IsSecond(q, rows, r) && r.board.stop == to && Witness(q, board, from, r.board, r.alight)
    ensures CandidateOf(board, r.board, r.alight) in seen
  {
    WitnessAtStop(q, rows, board, from, to, ready, r);
    assert Listed(index, r);
    assert Offerable(q, board, ready, ready + 60 * q.busWaitLimit, options, r);
  }

  /** Every witness that boards at one of these stops after transferring has been seen. */
  ghost predicate StopsCovered(q: Search, rows: seq<Call>, seen: set<Candidate>, board: Call, from: Call, stops: seq<StopId>) {
    forall r :: IsSecond(q, rows, r) && r.board.stop in stops && Witness(q, board, from, r.board, r.alight)
                ==> CandidateOf(board, r.board, r.alight) in seen
  }

  /** Scan the second rides of one stop near the transfer. */
  method ScanStop(q: Search, ghost rows: seq<Call>, index: Index, board: Call, from: Call, to: StopId, buckets: Buckets, ghost seen: set<Candidate>)
    returns (now: Buckets, ghost seenNow: set<Candidate>)
    requires Boarded(q, rows, board, from) && q.Near(from.stop, to) && GoodIndex(q, rows, index)
    requires Streams(buckets, seen) && AllWitnessed(q, rows, seen)
    ensures Streams(now, seenNow) && AllWitnessed(q, rows, seenNow) && seen <= seenNow
    ensures StopsCovered(q, rows, seenNow, board, from, [to])
  {
    var ready := q.ReadyAt(from.arrivesAt, from.stop, to);
    var options := if to in index then index[to] else [];
    now, seenNow := ScanSeconds(q, board, ready, ready + 60 * q.busWaitLimit, options, buckets, seen);
    ScanIsWitnessed(q, rows, index, board, from, to, ready, options, seen, seenNow);
    forall r | IsSecond(q, rows, r) && r.board.stop in [to] && Witness(q, board, from, r.board, r.alight)
      ensures CandidateOf(board, r.board, r.alight) in seenNow
    {
      ScanCovers(q, rows, index, board, from, to, ready, options, seen, seenNow, r);
    }
  }

  method ScanTransfer(q: Search, ghost rows: seq<Call>, walks: Walks, index: Index, board: Call, from: Call, buckets: Buckets, ghost seen: set<Candidate>)
    returns (now: Buckets, ghost seenNow: set<Candidate>)
    requires Boarded(q, rows, board, from)
    requires WalksComplete(q, rows, walks) && GoodIndex(q, rows, index)
    requires Streams(buckets, seen) && AllWitnessed(q, rows, seen)
    ensures Streams(now, seenNow) && AllWitnessed(q, rows, seenNow) && seen <= seenNow
    ensures PairCovered(q, rows, seenNow, board, from)
  {
    now, seenNow := buckets, seen;
    var near := walks[from.stop];
    for n := 0 to |near|
      invariant Streams(now, seenNow) && AllWitnessed(q, rows, seenNow) && seen <= seenNow
      invariant StopsCovered(q, rows, seenNow, board, from, near[..n])
    {
      assert near[n] in near && near[..n + 1] == near[..n] + [near[n]];
      now, seenNow := ScanStop(q, rows, index, board, from, near[n], now, seenNow);
    }
    assert near[..|near|] == near;
  }

  /** Every pair of calls that starts with the `a`-th is covered. */
  ghost predicate BoardCovered(q: Search, rows: seq<Call>, seen: set<Candidate>, calls: seq<Call>, a: nat)
    requires a < |calls|
  {
    forall k :: a < k < |calls| ==> PairCovered(q, rows, seen, calls[a], calls[k])
  }

  lemma {:induction false} BoardsStayCovered(q: Search, rows: seq<Call>, seen: set<Candidate>, more: set<Candidate>, calls: seq<Call>, n: nat)
    requires n <= |calls| && seen <= more && forall a :: 0 <= a < n ==> BoardCovered(q, rows, seen, calls, a)
    ensures forall a :: 0 <= a < n ==> BoardCovered(q, rows, more, calls, a)
  {
    forall a, k | 0 <= a < n && a < k < |calls| ensures PairCovered(q, rows, more, calls[a], calls[k]) {
      assert BoardCovered(q, rows, seen, calls, a);
      assert PairCovered(q, rows, seen, calls[a], calls[k]);
    }
  }

  /** Scan the transfers of every later call of the trip. */
  method ScanBoard(q: Search, ghost rows: seq<Call>, walks: Walks, index: Index, calls: seq<Call>, i: nat, buckets: Buckets, ghost seen: set<Candidate>)
    returns (now: Buckets, ghost seenNow: set<Candidate>)
    requires i < |calls| && forall k :: i < k < |calls| ==> Boarded(q, rows, calls[i], calls[k])
    requires WalksComplete(q, rows, walks) && GoodIndex(q, rows, index)
    requires Streams(buckets, seen) && AllWitnessed(q, rows, seen)
    ensures Streams(now, seenNow) && AllWitnessed(q, rows, seenNow) && seen <= seenNow
    ensures BoardCovered(q, rows, seenNow, calls, i)
  {
    now, seenNow := buckets, seen;
    for j := i + 1 to |calls|
      invariant Streams(now, seenNow) && AllWitnessed(q, rows, seenNow) && seen <= seenNow
      invariant forall k :: i < k < j ==> PairCovered(q, rows, seenNow, calls[i], calls[k])
    {
      now, seenNow := ScanTransfer(q, rows, walks, index, calls[i], calls[j], now, seenNow);
    }
  }

  method ScanTrip(q: Search, ghost rows: seq<Call>, walks: Walks, index: Index, calls: seq<Call>, buckets: Buckets, ghost seen: set<Candidate>)
    returns (now: Buckets, ghost seenNow: set<Candidate>)
    requires forall i :: 0 <= i < |calls| ==> calls[i] in rows
    requires forall i, j :: 0 <= i < j < |calls| ==> Before(calls[i], calls[j])
    requires WalksComplete(q, rows, walks) && GoodIndex(q, rows, index)
    requires Streams(buckets, seen) && AllWitnessed(q, rows, seen)
    ensures Streams(now, seenNow) && AllWitnessed(q, rows, seenNow) && seen <= seenNow
    ensures forall a :: 0 <= a < |calls| ==> BoardCovered(q, rows, seenNow, calls, a)
  {
    now, seenNow := buckets, seen;
    for i := 0 to |calls|
      invariant Streams(now, seenNow) && AllWitnessed(q, rows, seenNow) && seen <= seenNow
      invariant forall a :: 0 <= a < i ==> BoardCovered(q, rows, seenNow, calls, a)
    {
      var board := calls[i];
      if board.stop !in q.endpoints || board.departsAt < q.windowStart || board.departsAt > q.LatestArrival() {
        continue;
      }
      ghost var before := seenNow;
      now, seenNow := ScanBoard(q, rows, walks, index, calls, i, now, seenNow);
      BoardsStayCovered(q, rows, before, seenNow, calls, i);
    }
  }

  /** The candidates of every witness, found with no index and no eviction. */
  ghost function BruteForce(q: Search, rows: seq<Call>): set<Candidate> {
    set board, from, second, alight |
      board in rows && from in rows && second in rows && alight in rows && Witness(q, board, from, second, alight)
      :: CandidateOf(board, second, alight)
  }

  predicate RowLess(a: Candidate, b: Candidate) {
    || a.board < b.board
    || (a.board == b.board &&
        (a.alight < b.alight ||
         (a.alight == b.alight &&
          (a.departsAt < b.departsAt ||
           (a.departsAt == b.departsAt &&
            (a.arrivesAt < b.arrivesAt || (a.arrivesAt == b.arrivesAt && SignatureLess(a.signature, b.signature))))))))
  }

  method StreamAll(q: Search, rows: seq<Call>) returns (buckets: Buckets)
    requires UniqueSequences(rows)
    ensures Streams(buckets, BruteForce(q, rows))
  {
    var trips := GroupTrips(rows);
    var walks := BuildWalks(q, rows);
    var index := IndexSeconds(q, rows, trips);
    buckets := map[];
    ghost var seen: set<Candidate> := {};
    for t := 0 to |trips|
      invariant Streams(buckets, seen) && AllWitnessed(q, rows, seen)
      invariant forall u, a :: 0 <= u < t && 0 <= a < |trips[u]| ==> BoardCovered(q, rows, seen, trips[u], a)
    {
      ghost var before := seen;
      buckets, seen := ScanTrip(q, rows, walks, index, trips[t], buckets, seen);
      forall u | 0 <= u < t ensures forall a :: 0 <= a < |trips[u]| ==> BoardCovered(q, rows, seen, trips[u], a) {
        BoardsStayCovered(q, rows, before, seen, trips[u], |trips[u]|);
      }
    }
    AllSeen(q, rows, trips, seen);
  }

  lemma {:induction false} AllSeen(q: Search, rows: seq<Call>, trips: Trips, seen: set<Candidate>)
    requires Groups(trips, rows) && AllWitnessed(q, rows, seen)
    requires forall u, a :: 0 <= u < |trips| && 0 <= a < |trips[u]| ==> BoardCovered(q, rows, seen, trips[u], a)
    ensures seen == BruteForce(q, rows)
  {
    forall c | c in BruteForce(q, rows) ensures c in seen {
      var board, from, second, alight :| board in rows && from in rows && second in rows && alight in rows
        && Witness(q, board, from, second, alight) && c == CandidateOf(board, second, alight);
      assert InTrips(trips, board, from);
      var t, i, j :| 0 <= t < |trips| && 0 <= i < j < |trips[t]| && trips[t][i] == board && trips[t][j] == from;
      assert BoardCovered(q, rows, seen, trips[t], i);
      assert PairCovered(q, rows, seen, trips[t][i], trips[t][j]);
      assert IsSecond(q, rows, Second(second, alight));
    }
    forall c | c in seen ensures c in BruteForce(q, rows) {
      assert Witnessed(q, rows, c);
    }
  }

  // ------------------------------------------------------------------ listing the buckets

  method ListBucket(bucket: Bucket, start: seq<Candidate>) returns (listed: seq<Candidate>)
    requires Distinct(start) && forall c :: c in start ==> c !in bucket.Values
    requires forall s :: s in bucket ==> bucket[s].signature == s
    ensures Distinct(listed)
    ensures forall c :: c in listed <==> c in start || c in bucket.Values
  {
    listed := start;
    var rest := bucket.Keys;
    while rest != {}
      invariant rest <= bucket.Keys && Distinct(listed)
      invariant forall c :: c in listed <==> c in start || exists s :: s in bucket && s !in rest && bucket[s] == c
      decreases rest
    {
      var s :| s in rest;
      assert bucket[s] !in listed;
      listed := listed + [bucket[s]];
      rest := rest - {s};
    }
  }

  method ListBuckets(buckets: Buckets, ghost seen: set<Candidate>) returns (listed: seq<Candidate>)
    requires Streams(buckets, seen)
    ensures Distinct(listed)
    ensures forall c :: c in listed <==> BucketOf(c) in buckets && c in buckets[BucketOf(c)].Values
  {
    listed := [];
    var rest := buckets.Keys;
    while rest != {}
      invariant rest <= buckets.Keys && Distinct(listed)
      invariant forall c :: c in listed <==> BucketOf(c) in buckets && BucketOf(c) !in rest && c in buckets[BucketOf(c)].Values
      decreases rest
    {
      var key :| key in rest;
      listed := ListBucket(buckets[key], listed);
      rest := rest - {key};
    }
  }

  // ------------------------------------------------------------------ how many are selected

  ghost function Below(among: set<Candidate>, c: Candidate): set<Candidate> {
    set d | d in among && Better(d, c)
  }

  ghost function Top(among: set<Candidate>): set<Candidate> {
    set c | c in among && |Below(among, c)| < 3
  }

  ghost predicate InBucket(among: set<Candidate>, key: BucketKey) {
    forall c :: c in among ==> BucketOf(c) == key
  }

  lemma {:induction false} BucketIsOrdered(a: Candidate, b: Candidate)
    requires BucketOf(a) == BucketOf(b)
    ensures a == b || Better(a, b) || Better(b, a)
  {
  }

  lemma {:induction false} WorstOf(among: set<Candidate>) returns (worst: Candidate)
    requires among != {}
    ensures worst in among && forall c :: c in among ==> !Better(worst, c)
    decreases |among|
  {
    worst :| worst in among;
    var rest := among - {worst};
    if rest == {} {
      assert among == {worst};
      BetterIsStrict(worst, worst, worst);
    } else {
      var other := WorstOf(rest);
      forall c ensures !Better(c, c) && (Better(worst, other) && Better(other, c) ==> Better(worst, c))
        ensures Better(worst, c) ==> Better(worst, other) || Better(other, c)
      {
        BetterIsStrict(c, c, c);
        BetterIsStrict(worst, other, c);
        BetterIsStrict(worst, c, other);
      }
      if Better(worst, other) {
        worst := other;
      }
    }
  }

  lemma {:induction false} FewAreTop(among: set<Candidate>)
    requires |among| <= 3
    ensures Top(among) == among
  {
    forall c | c in among ensures |Below(among, c)| < 3 {
      BetterIsStrict(c, c, c);
      Smaller(Below(among, c), among - {c});
    }
  }

  lemma {:induction false} WorstIsNotTop(among: set<Candidate>, key: BucketKey, worst: Candidate)
    requires InBucket(among, key) && |among| > 3
    requires worst in among && forall c :: c in among ==> !Better(worst, c)
    ensures Top(among) == Top(among - {worst})
  {
    var rest := among - {worst};
    forall c | c in rest ensures Below(among, c) == Below(rest, c) && Better(c, worst) {
      BucketIsOrdered(c, worst);
    }
    BetterIsStrict(worst, worst, worst);
    assert Below(among, worst) == rest;
  }

  lemma {:induction false} TopCount(among: set<Candidate>, key: BucketKey)
    requires InBucket(among, key)
    ensures |Top(among)| == if |among| < 3 then |among| else 3
    decreases |among|
  {
    if |among| <= 3 {
      FewAreTop(among);
    } else {
      var worst := WorstOf(among);
      WorstIsNotTop(among, key, worst);
      TopCount(among - {worst}, key);
    }
  }

  /** Of every bucket exactly three trip pairs are selected, or all when there are fewer. */
  lemma {:induction false} ThreePerBucket(seen: set<Candidate>, key: BucketKey)
    ensures var pairs := set c | c in seen && BucketOf(c) == key && BestOfPair(c, seen);
            var chosen := set c | c in seen && BucketOf(c) == key && Selected(c, seen);
            |chosen| == if |pairs| < 3 then |pairs| else 3
  {
    var pairs := set c | c in seen && BucketOf(c) == key && BestOfPair(c, seen);
    var chosen := set c | c in seen && BucketOf(c) == key && Selected(c, seen);
    forall c | c in pairs ensures Below(pairs, c) == Rivals(c, seen) {}
    assert chosen == Top(pairs);
    TopCount(pairs, key);
  }
}
