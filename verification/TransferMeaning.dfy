/** What the rows of the one-transfer join are, written out field by field on the four calls they
    come from. */
module TransferMeaning {
  import opened Common
  import opened Ordering
  import opened Counting
  import opened BusBoarding
  import opened TransferJoin
  import opened TransferScan

  // ------------------------------------------------------------------ one ride

  /** Ride one trip from `board` to `from`, walk to `second` in `walk` minutes, and ride another trip
      of another route to `alight`: within the day's limits, at most 300 metres on foot, with ten
      minutes to spare, and waiting no longer than the limit. */
  predicate RideBy(q: Search, board: Call, from: Call, second: Call, alight: Call, walk: int) {
    && board.trip == from.trip && board.sequence < from.sequence
    && second.trip == alight.trip && second.sequence < alight.sequence
    && board.trip != second.trip && board.route != second.route
    && board.stop in q.endpoints && alight.stop in q.endpoints
    && q.windowStart <= board.departsAt <= q.windowEnd + 14_400 && alight.arrivesAt <= q.windowEnd + 14_400
    && (from.stop, second.stop) in q.distance && q.distance[(from.stop, second.stop)] <= 300.0
    && WalkTakes(walk, q.distance[(from.stop, second.stop)], q.metersPerMinute)
    && from.arrivesAt + 60 * walk + 600 <= second.departsAt <= from.arrivesAt + 60 * walk + 600 + 60 * q.busWaitLimit
  }

  /** The row's fields are those of the ride. */
  predicate RowOf(c: Candidate, board: Call, second: Call, alight: Call) {
    && c.signature.first == board.trip && c.signature.second == second.trip
    && c.board == board.stop && c.alight == alight.stop
    && c.departsAt == board.departsAt && c.arrivesAt == alight.arrivesAt
  }

  ghost predicate Ridden(q: Search, rows: seq<Call>, c: Candidate, board: Call, from: Call, second: Call, alight: Call, walk: int) {
    board in rows && from in rows && second in rows && alight in rows && RideBy(q, board, from, second, alight, walk) && RowOf(c, board, second, alight)
  }

  ghost predicate IsRide(q: Search, rows: seq<Call>, c: Candidate) {
    exists board, from, second, alight, walk: int :: Ridden(q, rows, c, board, from, second, alight, walk)
  }

  // ------------------------------------------------------------------ which rides are kept

  /** Between the same two stops and boarded in the same hour of the same day. */
  ghost predicate SameHour(c: Candidate, d: Candidate) {
    c.board == d.board && c.alight == d.alight && exists hour: int :: WithinHour(c.departsAt, hour) && WithinHour(d.departsAt, hour)
  }

  predicate WithinHour(time: int, hour: int) {
    3600 * hour <= time < 3600 * (hour + 1)
  }

  /** Earlier arrival, then earlier departure, then the smaller pair of trips. */
  predicate Sooner(c: Candidate, d: Candidate) {
    || c.arrivesAt < d.arrivesAt
    || (c.arrivesAt == d.arrivesAt && c.departsAt < d.departsAt)
    || (c.arrivesAt == d.arrivesAt && c.departsAt == d.departsAt && c.signature.first < d.signature.first)
    || (c.arrivesAt == d.arrivesAt && c.departsAt == d.departsAt && c.signature.first == d.signature.first && c.signature.second < d.signature.second)
  }

  /** No ride of the same two trips, stops and hour is sooner. */
  ghost predicate SoonestOfPair(q: Search, rows: seq<Call>, c: Candidate) {
    IsRide(q, rows, c) && forall d :: IsRide(q, rows, d) && SameHour(c, d) && d.signature == c.signature ==> !Sooner(d, c)
  }

  /** Soonest of its two trips, and no three soonest rides of other trips between these stops in this
      hour are sooner. */
  ghost predicate Kept(q: Search, rows: seq<Call>, c: Candidate) {
    SoonestOfPair(q, rows, c)
    && !exists x, y, z :: Rivalling(q, rows, c, x) && Rivalling(q, rows, c, y) && Rivalling(q, rows, c, z) && x != y && x != z && y != z
  }

  ghost predicate Rivalling(q: Search, rows: seq<Call>, c: Candidate, d: Candidate) {
    SoonestOfPair(q, rows, d) && SameHour(c, d) && Sooner(d, c)
  }

  // ------------------------------------------------------------------ the join keeps exactly those

  lemma {:induction false} WitnessMeans(q: Search, board: Call, from: Call, second: Call, alight: Call, walk: int)
    ensures RideBy(q, board, from, second, alight, walk) <==>
            Witness(q, board, from, second, alight) && walk == CeilReal(q.distance[(from.stop, second.stop)] / q.metersPerMinute)
  {
    if (from.stop, second.stop) in q.distance {
      CeilIsLeast(walk, q.distance[(from.stop, second.stop)], q.metersPerMinute);
    }
  }

  lemma {:induction false} RowOfMeans(c: Candidate, board: Call, second: Call, alight: Call)
    ensures RowOf(c, board, second, alight) <==> c == CandidateOf(board, second, alight)
  {
  }

  lemma {:induction false} IsRideMeans(q: Search, rows: seq<Call>, c: Candidate)
    ensures IsRide(q, rows, c) <==> c in BruteForce(q, rows)
  {
    if IsRide(q, rows, c) {
      var board, from, second, alight, walk: int :| Ridden(q, rows, c, board, from, second, alight, walk);
      WitnessMeans(q, board, from, second, alight, walk);
      RowOfMeans(c, board, second, alight);
    }
    if c in BruteForce(q, rows) {
      var board, from, second, alight :| board in rows && from in rows && second in rows && alight in rows
        && Witness(q, board, from, second, alight) && c == CandidateOf(board, second, alight);
      var walk := CeilReal(q.distance[(from.stop, second.stop)] / q.metersPerMinute);
      WitnessMeans(q, board, from, second, alight, walk);
      RowOfMeans(c, board, second, alight);
      assert Ridden(q, rows, c, board, from, second, alight, walk);
    }
  }

  lemma {:induction false} HourMeans(a: int, b: int)
    ensures (exists hour: int :: WithinHour(a, hour) && WithinHour(b, hour)) <==> a / 86_400 == b / 86_400 && a % 86_400 / 3600 == b % 86_400 / 3600
  {
    var hour := a / 3600;
    assert WithinHour(a, hour);
    HourOfDay(a);
    HourOfDay(b);
    if a / 86_400 == b / 86_400 && a % 86_400 / 3600 == b % 86_400 / 3600 {
      assert WithinHour(b, hour);
    }
    if h: int :| WithinHour(a, h) && WithinHour(b, h) {
      assert h == a / 3600 == b / 3600;
    }
  }

  lemma {:induction false} HourOfDay(t: int)
    ensures t / 3600 == 24 * (t / 86_400) + t % 86_400 / 3600
    ensures 0 <= t % 86_400 / 3600 < 24
  {
  }

  lemma {:induction false} SameHourMeans(c: Candidate, d: Candidate)
    ensures SameHour(c, d) <==> BucketOf(d) == BucketOf(c)
  {
    HourMeans(c.departsAt, d.departsAt);
  }

  lemma {:induction false} SoonerMeans(c: Candidate, d: Candidate)
    ensures Sooner(c, d) <==> Better(c, d)
  {
  }

  lemma {:induction false} SoonestMeans(q: Search, rows: seq<Call>, c: Candidate)
    ensures SoonestOfPair(q, rows, c) <==> BestOfPair(c, BruteForce(q, rows))
  {
    IsRideMeans(q, rows, c);
    forall d
      ensures IsRide(q, rows, d) <==> d in BruteForce(q, rows)
      ensures SameHour(c, d) <==> BucketOf(d) == BucketOf(c)
      ensures Sooner(d, c) <==> Better(d, c)
    {
      IsRideMeans(q, rows, d);
      SameHourMeans(c, d);
      SoonerMeans(d, c);
    }
  }

  lemma {:induction false} RivalMeans(q: Search, rows: seq<Call>, c: Candidate, d: Candidate)
    ensures Rivalling(q, rows, c, d) <==> d in Rivals(c, BruteForce(q, rows))
  {
    SoonestMeans(q, rows, d);
    SameHourMeans(c, d);
    SoonerMeans(d, c);
  }

  /** A set has three different members exactly when it has at least three. */
  lemma {:induction false} ThreeMembers<T(!new)>(s: set<T>)
    ensures |s| >= 3 <==> exists x, y, z :: x in s && y in s && z in s && x != y && x != z && y != z
  {
    if |s| >= 3 {
      var x :| x in s;
      var rest := s - {x};
      assert |rest| == |s| - 1;
      var y :| y in rest;
      assert |rest - {y}| == |rest| - 1;
      var z :| z in rest - {y};
    }
    if x, y, z :| x in s && y in s && z in s && x != y && x != z && y != z {
      Smaller({x, y, z}, s);
    }
  }

  lemma {:induction false} KeptMeans(q: Search, rows: seq<Call>, c: Candidate)
    ensures Kept(q, rows, c) <==> Selected(c, BruteForce(q, rows))
  {
    var rivals := Rivals(c, BruteForce(q, rows));
    SoonestMeans(q, rows, c);
    forall d ensures Rivalling(q, rows, c, d) <==> d in rivals {
      RivalMeans(q, rows, c, d);
    }
    ThreeMembers(rivals);
  }

  predicate InRowOrder(c: Candidate, d: Candidate) {
    || c.board < d.board
    || (c.board == d.board && c.alight < d.alight)
    || (c.board == d.board && c.alight == d.alight && c.departsAt < d.departsAt)
    || (c.board == d.board && c.alight == d.alight && c.departsAt == d.departsAt && c.arrivesAt < d.arrivesAt)
    || (c.board == d.board && c.alight == d.alight && c.departsAt == d.departsAt && c.arrivesAt == d.arrivesAt && c.signature.first < d.signature.first)
    || (c.board == d.board && c.alight == d.alight && c.departsAt == d.departsAt && c.arrivesAt == d.arrivesAt && c.signature.first == d.signature.first
        && c.signature.second < d.signature.second)
  }

  lemma {:induction false} RowsAreListed(rows: seq<Candidate>, i: nat, j: nat)
    requires Distinct(rows) && SortedBy(RowLess, rows) && i < j < |rows|
    ensures InRowOrder(rows[i], rows[j])
  {
    assert !RowLess(rows[j], rows[i]) && rows[i] != rows[j];
  }

  /** `_one_transfer_candidate_rows`: the streaming join returns exactly the offline selection of the
      brute-force join, that is the kept rides, each once, ordered by board stop, final stop,
      departure, arrival and trips. */
  method OneTransferRows(q: Search, rows: seq<Call>) returns (result: seq<Candidate>)
    requires UniqueSequences(rows)
    ensures forall c :: c in result <==> Selected(c, BruteForce(q, rows))
    ensures Distinct(result) && SortedBy(RowLess, result)
    ensures forall c :: c in result <==> Kept(q, rows, c)
    ensures forall i, j :: 0 <= i < j < |result| ==> InRowOrder(result[i], result[j])
  {
    var buckets := StreamAll(q, rows);
    var listed := ListBuckets(buckets, BruteForce(q, rows));
    result := Sort(RowLess, listed);
    SortSorts(RowLess, listed);
    SortKeepsDistinct(RowLess, listed);
    forall c
      ensures c in result <==> Selected(c, BruteForce(q, rows))
      ensures c in result <==> Kept(q, rows, c)
    {
      SortKeepsElements(RowLess, listed, c);
      if BucketOf(c) in buckets {
        BucketIsSelection(buckets[BucketOf(c)], BruteForce(q, rows), BucketOf(c), c);
      }
      KeptMeans(q, rows, c);
    }
    forall i, j | 0 <= i < j < |result| ensures InRowOrder(result[i], result[j]) {
      RowsAreListed(result, i, j);
    }
  }
}
