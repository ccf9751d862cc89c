/** The one-transfer timetable join: an in-memory join over sorted departures that keeps, per
    (board stop, final stop, date, hour), the three best trip pairs. */
module TransferJoin {
  import opened Common
  import opened Ordering
  import opened BusBoarding

  type TripId = int
  type StopId = int

  datatype Call = Call(trip: TripId, route: int, stop: StopId, sequence: int, arrivesAt: int, departsAt: int)

  /** `first>second`: the two trips of the ride. */
  datatype Signature = Signature(first: TripId, second: TripId)

  datatype Candidate = Candidate(signature: Signature, board: StopId, alight: StopId, departsAt: int, arrivesAt: int)

  datatype BucketKey = BucketKey(board: StopId, alight: StopId, day: int, hour: int)

  datatype Search = Search(
    endpoints: set<StopId>,
    windowStart: int,
    windowEnd: int,
    busWaitLimit: int,
    metersPerMinute: Speed,
    distance: map<(StopId, StopId), real>)    // between the stops of the rows
  {
    /** Four hours after the window. */
    function LatestArrival(): int {
      windowEnd + 4 * 3600
    }

    predicate Near(a: StopId, b: StopId) {
      (a, b) in distance && distance[(a, b)] <= 300.0
    }

    /** Ready for the second bus: the walk and ten minutes of slack after arriving. */
    function ReadyAt(arrivesAt: int, a: StopId, b: StopId): int
      requires Near(a, b)
    {
      arrivesAt + 60 * (CeilReal(distance[(a, b)] / metersPerMinute) + 10)
    }
  }

  predicate Before(a: Call, b: Call) {
    a.trip == b.trip && a.sequence < b.sequence
  }

  // ------------------------------------------------------------------ the brute-force join

  /** Four calls that make a one-transfer ride. */
  predicate Witness(q: Search, board: Call, from: Call, second: Call, alight: Call) {
    && Before(board, from) && Before(second, alight)
    && board.stop in q.endpoints && alight.stop in q.endpoints
    && q.windowStart <= board.departsAt <= q.LatestArrival()
    && q.Near(from.stop, second.stop)
    && q.ReadyAt(from.arrivesAt, from.stop, second.stop) <= second.departsAt
    && second.departsAt <= q.ReadyAt(from.arrivesAt, from.stop, second.stop) + 60 * q.busWaitLimit
    && second.trip != board.trip && second.route != board.route
    && alight.arrivesAt <= q.LatestArrival()
  }

  function CandidateOf(board: Call, second: Call, alight: Call): Candidate {
    Candidate(Signature(board.trip, second.trip), board.stop, alight.stop, board.departsAt, alight.arrivesAt)
  }

  /** Local calendar day and hour of a time in seconds. */
  function BucketOf(c: Candidate): BucketKey {
    BucketKey(c.board, c.alight, c.departsAt / 86_400, c.departsAt % 86_400 / 3600)
  }

  predicate SignatureLess(a: Signature, b: Signature) {
    a.first < b.first || (a.first == b.first && a.second < b.second)
  }

  /** (arrival, departure, signature). */
  predicate Better(a: Candidate, b: Candidate) {
    || a.arrivesAt < b.arrivesAt
    || (a.arrivesAt == b.arrivesAt && (a.departsAt < b.departsAt || (a.departsAt == b.departsAt && SignatureLess(a.signature, b.signature))))
  }

  lemma {:induction false} BetterIsStrict(a: Candidate, b: Candidate, c: Candidate)
    ensures !Better(a, a)
    ensures Better(a, b) && Better(b, c) ==> Better(a, c)
    ensures Better(a, b) ==> Better(a, c) || Better(c, b)
  {
  }

  /** The best candidate of its trip pair within its bucket. */
  ghost predicate BestOfPair(c: Candidate, seen: set<Candidate>) {
    c in seen && forall d :: d in seen && BucketOf(d) == BucketOf(c) && d.signature == c.signature ==> !Better(d, c)
  }

  /** The better rivals of `c`: best candidates of other trip pairs in its bucket. */
  ghost function Rivals(c: Candidate, seen: set<Candidate>): set<Candidate> {
    set d | d in seen && BestOfPair(d, seen) && BucketOf(d) == BucketOf(c) && Better(d, c)
  }

  /** Offline selection: best of its trip pair, and among the three best of its bucket. */
  ghost predicate Selected(c: Candidate, seen: set<Candidate>) {
    BestOfPair(c, seen) && |Rivals(c, seen)| < 3
  }

  // ------------------------------------------------------------------ one streaming bucket

  type Bucket = map<Signature, Candidate>

  ghost predicate TopThree(bucket: Bucket, seen: set<Candidate>, key: BucketKey) {
    && |bucket| <= 3
    && (forall s :: s in bucket ==> bucket[s].signature == s && BucketOf(bucket[s]) == key && BestOfPair(bucket[s], seen))
    && (forall c :: BestOfPair(c, seen) && BucketOf(c) == key && c.signature !in bucket
          ==> |bucket| == 3 && forall s :: s in bucket ==> Better(bucket[s], c))
  }

  /** The entry no other entry is worse than. */
  method Worst(bucket: Bucket) returns (worst: Signature)
    requires |bucket| > 0
    ensures worst in bucket && forall s :: s in bucket ==> !Better(bucket[worst], bucket[s])
  {
    var rest := bucket.Keys;
    assert rest != {};
    worst :| worst in rest;
    rest := rest - {worst};
    while rest != {}
      invariant worst in bucket && rest <= bucket.Keys
      invariant forall s :: s in bucket && s !in rest ==> !Better(bucket[worst], bucket[s])
      decreases rest
    {
      var s :| s in rest;
      if Better(bucket[worst], bucket[s]) {
        worst := s;
      }
      rest := rest - {s};
    }
  }

  predicate SamePair(c: Candidate, d: Candidate) {
    BucketOf(c) == BucketOf(d) && c.signature == d.signature
  }

  /** How the best of a pair changes when `c` is seen. */
  lemma {:induction false} BestAfterSeeing(seen: set<Candidate>, c: Candidate, d: Candidate)
    ensures d != c ==> (BestOfPair(d, seen + {c}) <==> BestOfPair(d, seen) && !(SamePair(c, d) && Better(c, d)))
    ensures BestOfPair(c, seen + {c}) <==> forall e :: e in seen && SamePair(e, c) ==> !Better(e, c)
  {
  }

  /** Better is total on one pair. */
  lemma {:induction false} OneOfPairIsBetter(c: Candidate, d: Candidate)
    requires SamePair(c, d)
    ensures c == d || Better(c, d) || Better(d, c)
  {
  }

  lemma {:induction false} BetterIsBest(seen: set<Candidate>, entry: Candidate, c: Candidate)
    requires BestOfPair(entry, seen) && SamePair(entry, c) && Better(c, entry)
    ensures BestOfPair(c, seen + {c})
  {
    BetterIsStrict(c, c, c);
    forall e | e in seen && SamePair(e, c) ensures !Better(e, c) {
      assert !Better(e, entry);
      BetterIsStrict(e, c, entry);
    }
  }

  /** Same trip pair, better time: the entry is replaced. */
  lemma {:induction false} ReplaceKeepsTopThree(bucket: Bucket, seen: set<Candidate>, key: BucketKey, c: Candidate)
    requires TopThree(bucket, seen, key) && BucketOf(c) == key
    requires c.signature in bucket && Better(c, bucket[c.signature])
    ensures TopThree(bucket[c.signature := c], seen + {c}, key)
  {
    var now := bucket[c.signature := c];
    var entry := bucket[c.signature];
    assert now.Keys == bucket.Keys && |now| == |now.Keys| == |bucket.Keys| == |bucket|;
    BetterIsBest(seen, entry, c);
    forall s | s in now ensures now[s].signature == s && BucketOf(now[s]) == key && BestOfPair(now[s], seen + {c}) {
      BestAfterSeeing(seen, c, bucket[s]);
    }
    forall d | BestOfPair(d, seen + {c}) && BucketOf(d) == key && d.signature !in now
      ensures |now| == 3 && forall s :: s in now ==> Better(now[s], d)
    {
      ReplacedBeatsRest(bucket, seen, key, c, d);
    }
  }

  lemma {:induction false} ReplacedBeatsRest(bucket: Bucket, seen: set<Candidate>, key: BucketKey, c: Candidate, d: Candidate)
    requires TopThree(bucket, seen, key) && BucketOf(c) == key
    requires c.signature in bucket && Better(c, bucket[c.signature])
    requires BestOfPair(d, seen + {c}) && BucketOf(d) == key && d.signature !in bucket
    ensures |bucket| == 3 && Better(c, d) && forall s :: s in bucket ==> Better(bucket[s], d)
  {
    BestAfterSeeing(seen, c, d);
    assert Better(bucket[c.signature], d);
    BetterIsStrict(c, bucket[c.signature], d);
  }

  lemma {:induction false} IgnoreKeepsTopThree(bucket: Bucket, seen: set<Candidate>, key: BucketKey, c: Candidate)
    requires TopThree(bucket, seen, key) && BucketOf(c) == key
    requires c.signature in bucket && !Better(c, bucket[c.signature])
    ensures TopThree(bucket, seen + {c}, key)
  {
    forall s | s in bucket ensures BestOfPair(bucket[s], seen + {c}) {
      BestAfterSeeing(seen, c, bucket[s]);
      OneOfPairIsBetter(c, bucket[c.signature]);
    }
    forall d | BestOfPair(d, seen + {c}) && BucketOf(d) == key && d.signature !in bucket
      ensures |bucket| == 3 && forall s :: s in bucket ==> Better(bucket[s], d)
    {
      BestAfterSeeing(seen, c, d);
    }
  }

  /** A new trip pair joins a bucket that is not full. */
  lemma {:induction false} JoinKeepsTopThree(bucket: Bucket, seen: set<Candidate>, key: BucketKey, c: Candidate)
    requires TopThree(bucket, seen, key) && BucketOf(c) == key
    requires c.signature !in bucket && |bucket| < 3
    ensures TopThree(bucket[c.signature := c], seen + {c}, key)
  {
    var now := bucket[c.signature := c];
    assert now.Keys == bucket.Keys + {c.signature};
    assert |now| == |now.Keys| == |bucket.Keys| + 1;
    forall e | e in seen && SamePair(e, c) ensures false {
      var best := PairHasBest(seen, e);
      assert false;
    }
    forall s | s in now ensures now[s].signature == s && BucketOf(now[s]) == key && BestOfPair(now[s], seen + {c}) {
      BestAfterSeeing(seen, c, now[s]);
    }
    forall d | BestOfPair(d, seen + {c}) && BucketOf(d) == key && d.signature !in now ensures false {
      BestAfterSeeing(seen, c, d);
    }
  }

  /** Every seen candidate's pair has a best candidate. */
  lemma {:induction false} PairHasBest(seen: set<Candidate>, e: Candidate) returns (best: Candidate)
    requires e in seen
    ensures BestOfPair(best, seen) && SamePair(best, e) && !Better(e, best)
    decreases seen
  {
    var others := seen - {e};
    if d :| d in others && SamePair(d, e) && Better(d, e) {
      var top := PairHasBest(others, d);
      BestAfterSeeing(others, e, top);
      BetterIsStrict(d, e, top);
      assert others + {e} == seen;
      BetterIsStrict(e, top, d);
      best := top;
    } else {
      best := e;
      BetterIsStrict(e, e, e);
    }
  }

  /** A new trip pair joins a full bucket and the worst of the four leaves: the joined bucket is
      still the top three, even when the newcomer is a pair that was evicted before. */
  lemma {:induction false} EvictKeepsTopThree(bucket: Bucket, seen: set<Candidate>, key: BucketKey, c: Candidate, four: Bucket, worst: Signature)
    requires TopThree(bucket, seen, key) && BucketOf(c) == key
    requires c.signature !in bucket && |bucket| == 3 && four == bucket[c.signature := c]
    requires worst in four && forall s :: s in four ==> !Better(four[worst], four[s])
    ensures TopThree(four - {worst}, seen + {c}, key)
  {
    var now := four - {worst};
    assert four.Keys == bucket.Keys + {c.signature} && now.Keys == four.Keys - {worst};
    assert |now| == |now.Keys| == 3;
    forall s | s in now ensures Better(now[s], four[worst]) {
      DifferentPairsCompare(four[s], four[worst]);
    }
    forall s | s in now ensures now[s].signature == s && BucketOf(now[s]) == key && BestOfPair(now[s], seen + {c}) {
      BestAfterSeeing(seen, c, now[s]);
      if s == c.signature {
        NewcomerIsBest(bucket, seen, key, c, worst);
      }
    }
    forall d | BestOfPair(d, seen + {c}) && BucketOf(d) == key && d.signature !in now
      ensures forall s :: s in now ==> Better(now[s], d)
    {
      BestAfterSeeing(seen, c, d);
      forall s | s in now ensures Better(now[s], d) {
        EvictedIsWorse(bucket, seen, key, c, four, worst, d, s);
      }
    }
  }

  lemma {:induction false} DifferentPairsCompare(c: Candidate, d: Candidate)
    requires c.signature != d.signature
    ensures Better(c, d) || Better(d, c)
  {
  }

  /** The newcomer stays only when something of another pair is worse than it. */
  lemma {:induction false} NewcomerIsBest(bucket: Bucket, seen: set<Candidate>, key: BucketKey, c: Candidate, worst: Signature)
    requires TopThree(bucket, seen, key) && BucketOf(c) == key
    requires c.signature !in bucket && worst in bucket
    requires !Better(bucket[worst], c)
    ensures forall e :: e in seen && SamePair(e, c) ==> !Better(e, c)
  {
    forall e | e in seen && SamePair(e, c) ensures !Better(e, c) {
      var best := PairHasBest(seen, e);
      assert Better(bucket[worst], best);
      BetterIsStrict(bucket[worst], best, e);
      BetterIsStrict(best, e, c);
      BetterIsStrict(bucket[worst], e, c);
    }
  }

  lemma {:induction false} EvictedIsWorse(bucket: Bucket, seen: set<Candidate>, key: BucketKey, c: Candidate, four: Bucket, worst: Signature, d: Candidate, s: Signature)
    requires TopThree(bucket, seen, key) && BucketOf(c) == key && |bucket| == 3
    requires c.signature !in bucket && four == bucket[c.signature := c]
    requires worst in four && forall t :: t in four ==> !Better(four[worst], four[t])
    requires BestOfPair(d, seen + {c}) && BucketOf(d) == key && d.signature !in four - {worst}
    requires s in four - {worst}
    ensures Better(four[s], d)
  {
    DifferentPairsCompare(four[s], four[worst]);
    BestAfterSeeing(seen, c, d);
    if d == four[worst] {
    } else if d.signature == worst {
      if worst == c.signature {
        assert BestOfPair(d, seen);
      }
    } else {
      assert BestOfPair(d, seen) && d.signature !in bucket;
      if s == c.signature {
        BetterIsStrict(c, bucket[worst], d);
      }
    }
  }

  /** Offer one candidate to its bucket. */
  method OfferToBucket(bucket: Bucket, ghost seen: set<Candidate>, ghost key: BucketKey, c: Candidate) returns (now: Bucket)
    requires TopThree(bucket, seen, key) && BucketOf(c) == key
    ensures TopThree(now, seen + {c}, key)
  {
    now := bucket;
    if c.signature !in bucket {
      now := now[c.signature := c];
      assert now.Keys == bucket.Keys + {c.signature};
      assert |now| == |now.Keys| == |bucket.Keys| + 1;
      if |now| > 3 {
        var worst := Worst(now);
        EvictKeepsTopThree(bucket, seen, key, c, now, worst);
        now := now - {worst};
      } else {
        JoinKeepsTopThree(bucket, seen, key, c);
      }
    } else if Better(c, bucket[c.signature]) {
      ReplaceKeepsTopThree(bucket, seen, key, c);
      now := now[c.signature := c];
    } else {
      IgnoreKeepsTopThree(bucket, seen, key, c);
    }
  }

  type Buckets = map<BucketKey, Bucket>

  ghost predicate Streams(buckets: Buckets, seen: set<Candidate>) {
    && (forall key :: key in buckets ==> TopThree(buckets[key], seen, key))
    && (forall c :: c in seen ==> BucketOf(c) in buckets)
  }

  lemma {:induction false} OtherBucketUnchanged(bucket: Bucket, seen: set<Candidate>, key: BucketKey, c: Candidate)
    requires TopThree(bucket, seen, key) && BucketOf(c) != key
    ensures TopThree(bucket, seen + {c}, key)
  {
    forall d | BucketOf(d) == key ensures BestOfPair(d, seen + {c}) <==> BestOfPair(d, seen) {
      BestAfterSeeing(seen, c, d);
    }
  }

  lemma {:induction false} EmptyBucketStreams(seen: set<Candidate>, key: BucketKey)
    requires forall c :: c in seen ==> BucketOf(c) != key
    ensures TopThree(map[], seen, key)
  {
  }

  method OfferCandidate(buckets: Buckets, ghost seen: set<Candidate>, c: Candidate) returns (now: Buckets)
    requires Streams(buckets, seen)
    ensures Streams(now, seen + {c})
  {
    var key := BucketOf(c);
    if key !in buckets {
      EmptyBucketStreams(seen, key);
    }
    var bucket := OfferToBucket(if key in buckets then buckets[key] else map[], seen, key, c);
    now := buckets[key := bucket];
    forall other | other in now ensures TopThree(now[other], seen + {c}, other) {
      if other != key {
        OtherBucketUnchanged(buckets[other], seen, other, c);
      }
    }
  }

  // ------------------------------------------------------------------ streaming equals the offline selection

  lemma {:induction false} BucketIsSelection(bucket: Bucket, seen: set<Candidate>, key: BucketKey, c: Candidate)
    requires TopThree(bucket, seen, key) && BucketOf(c) == key
    ensures c in bucket.Values <==> Selected(c, seen)
  {
    if c in bucket.Values {
      assert bucket[c.signature] == c;
      var others := bucket - {c.signature};
      assert others.Keys == bucket.Keys - {c.signature};
      assert |others| == |others.Keys| == |bucket.Keys| - 1;
      forall d | d in Rivals(c, seen) ensures d in others.Values {
        if d.signature !in bucket {
          BetterIsStrict(c, d, c);
          assert false;
        }
        OneOfPairIsBetter(d, bucket[d.signature]);
        assert others[d.signature] == d;
      }
      ValuesBound(others, Rivals(c, seen));
    }
    if Selected(c, seen) && c !in bucket.Values {
      if c.signature in bucket {
        OneOfPairIsBetter(c, bucket[c.signature]);
        assert false;
      }
      assert |bucket| == |bucket.Keys| == 3;
      forall s | s in bucket ensures bucket[s] in Rivals(c, seen) {}
      KeysBound(bucket, Rivals(c, seen));
      assert false;
    }
  }

  lemma {:induction false} ValuesBound(bucket: Bucket, some: set<Candidate>)
    requires forall d :: d in some ==> d.signature in bucket && bucket[d.signature] == d
    ensures |some| <= |bucket|
    decreases |some|
  {
    if some != {} {
      var d :| d in some;
      var rest := bucket - {d.signature};
      assert rest.Keys == bucket.Keys - {d.signature};
      assert |rest| == |rest.Keys| && |bucket| == |bucket.Keys|;
      ValuesBound(rest, some - {d});
    }
  }

  lemma {:induction false} KeysBound(bucket: Bucket, some: set<Candidate>)
    requires forall s :: s in bucket ==> bucket[s] in some && bucket[s].signature == s
    ensures |bucket| <= |some|
    decreases |bucket|
  {
    if |bucket| > 0 {
      assert |bucket| == |bucket.Keys|;
      var s :| s in bucket.Keys;
      var rest := bucket - {s};
      assert rest.Keys == bucket.Keys - {s};
      assert |rest| == |rest.Keys|;
      KeysBound(rest, some - {bucket[s]});
    }
  }

  // ------------------------------------------------------------------ trips and second rides

  type Trips = seq<seq<Call>>

  predicate CallLess(a: Call, b: Call) {
    a.sequence < b.sequence || (a.sequence == b.sequence && a.stop < b.stop)
  }

  /** The database keeps (trip, sequence) unique. */
  predicate UniqueSequences(rows: seq<Call>) {
    forall i, j :: 0 <= i < j < |rows| && rows[i].trip == rows[j].trip ==> rows[i].sequence != rows[j].sequence
  }

  function CallsOf(rows: seq<Call>, trip: TripId): (r: seq<Call>)
    ensures forall c :: c in r <==> c in rows && c.trip == trip
  {
    if rows == [] then []
    else
      assert rows == rows[..|rows| - 1] + [rows[|rows| - 1]];
      var front := CallsOf(rows[..|rows| - 1], trip);
      if rows[|rows| - 1].trip == trip then front + [rows[|rows| - 1]] else front
  }

  /** Positions inside the trips stand for `Before` among the rows. */
  ghost predicate Groups(trips: Trips, rows: seq<Call>) {
    && (forall t, i, j :: 0 <= t < |trips| && 0 <= i < j < |trips[t]| ==> Before(trips[t][i], trips[t][j]))
    && (forall t, i :: 0 <= t < |trips| && 0 <= i < |trips[t]| ==> trips[t][i] in rows)
    && (forall a, b :: a in rows && b in rows && Before(a, b) ==> InTrips(trips, a, b))
  }

  ghost predicate InTrips(trips: Trips, a: Call, b: Call) {
    exists t, i, j :: 0 <= t < |trips| && 0 <= i < j < |trips[t]| && trips[t][i] == a && trips[t][j] == b
  }

  lemma {:induction false} CallLessIsStrict()
    ensures StrictOrder(CallLess)
  {
  }

  lemma {:induction false} CallsOfUnique(rows: seq<Call>, trip: TripId)
    requires UniqueSequences(rows)
    ensures UniqueSequences(CallsOf(rows, trip))
  {
    if rows != [] {
      var front, last := rows[..|rows| - 1], rows[|rows| - 1];
      CallsOfUnique(front, trip);
      forall c | c in CallsOf(front, trip) && c.trip == last.trip ensures c.sequence != last.sequence {
        var i :| 0 <= i < |front| && front[i] == c;
        assert rows[i] == c && rows[|rows| - 1] == last;
      }
    }
  }

  lemma {:induction false} OrderedCallsRise(s: seq<Call>, a: Call, b: Call)
    requires UniqueSequences(s) && (forall x, y :: x in s && y in s ==> x.trip == y.trip)
    requires a in s && b in s && a != b && !CallLess(b, a)
    ensures Before(a, b)
  {
    var k :| 0 <= k < |s| && s[k] == a;
    var m :| 0 <= m < |s| && s[m] == b;
  }

  /** Sorting a trip's calls gives strictly rising sequences. */
  lemma {:induction false} SortedTripRises(s: seq<Call>, i: nat, j: nat)
    requires UniqueSequences(s) && (forall a, b :: a in s && b in s ==> a.trip == b.trip)
    requires i < j < |Sort(CallLess, s)|
    ensures Before(Sort(CallLess, s)[i], Sort(CallLess, s)[j])
  {
    var r := Sort(CallLess, s);
    assert !CallLess(r[j], r[i]) by {
      CallLessIsStrict();
      SortSorts(CallLess, s);
    }
    assert r[i] != r[j] by {
      CallsAreDistinct(s);
      SortKeepsDistinct(CallLess, s);
    }
    SortKeepsElements(CallLess, s, r[i]);
    SortKeepsElements(CallLess, s, r[j]);
    OrderedCallsRise(s, r[i], r[j]);
  }

  lemma {:induction false} CallsAreDistinct(s: seq<Call>)
    requires UniqueSequences(s)
    ensures Distinct(s)
  {
  }

  lemma {:induction false} NoCalls(rows: seq<Call>, trip: TripId)
    requires forall c :: c in rows ==> c.trip != trip
    ensures CallsOf(rows, trip) == []
  {
    if rows != [] {
      NoCalls(rows[..|rows| - 1], trip);
    }
  }

  method GroupRows(rows: seq<Call>) returns (byTrip: map<TripId, seq<Call>>, ids: seq<TripId>)
    ensures forall id :: id in ids <==> id in byTrip
    ensures forall id :: id in byTrip ==> byTrip[id] == CallsOf(rows, id)
    ensures forall c :: c in rows ==> c.trip in byTrip
  {
    byTrip := map[];
    ids := [];
    for i := 0 to |rows|
      invariant forall id :: id in ids <==> id in byTrip
      invariant forall id :: id in byTrip ==> byTrip[id] == CallsOf(rows[..i], id)
      invariant forall c :: c in rows[..i] ==> c.trip in byTrip
    {
      var call := rows[i];
      assert rows[..i + 1][..i] == rows[..i] && rows[..i + 1] == rows[..i] + [call];
      if call.trip !in byTrip {
        NoCalls(rows[..i], call.trip);
        ids := ids + [call.trip];
        byTrip := byTrip[call.trip := [call]];
      } else {
        byTrip := byTrip[call.trip := byTrip[call.trip] + [call]];
      }
    }
    assert rows[..|rows|] == rows;
  }

  predicate IdLess(a: TripId, b: TripId) {
    a < b
  }

  function OrderedIds(ids: seq<TripId>): (r: seq<TripId>)
    ensures forall id :: id in r <==> id in ids
  {
    var r := Sort(IdLess, ids);
    assert forall id :: id in r <==> id in ids by {
      forall id: TripId ensures id in r <==> id in ids {
        SortKeepsElements(IdLess, ids, id);
      }
    }
    r
  }

  function SortedCalls(rows: seq<Call>, trip: TripId): seq<Call> {
    Sort(CallLess, CallsOf(rows, trip))
  }

  method SortTrips(ghost rows: seq<Call>, byTrip: map<TripId, seq<Call>>, ordered: seq<TripId>) returns (trips: Trips)
    requires forall t :: 0 <= t < |ordered| ==> ordered[t] in byTrip && byTrip[ordered[t]] == CallsOf(rows, ordered[t])
    ensures |trips| == |ordered| && forall u :: 0 <= u < |trips| ==> trips[u] == SortedCalls(rows, ordered[u])
  {
    trips := [];
    for t := 0 to |ordered|
      invariant |trips| == t
      invariant forall u :: 0 <= u < t ==> trips[u] == SortedCalls(rows, ordered[u])
    {
      trips := trips + [Sort(CallLess, byTrip[ordered[t]])];
    }
  }

  /** The trips in the order of their ids, each with its calls in sequence order. */
  method GroupTrips(rows: seq<Call>) returns (trips: Trips)
    requires UniqueSequences(rows)
    ensures Groups(trips, rows)
  {
    var byTrip, ids := GroupRows(rows);
    var ordered := OrderedIds(ids);
    forall t | 0 <= t < |ordered| ensures ordered[t] in byTrip {
      var id := ordered[t];
      assert id in ordered;
      assert id in ids;
      assert id in byTrip;
    }
    trips := SortTrips(rows, byTrip, ordered);
    SortedTripsGroup(rows, ordered, trips);
  }

  lemma {:induction false} TripHolds(rows: seq<Call>, trip: TripId, a: Call, b: Call) returns (i: nat, j: nat)
    requires UniqueSequences(rows) && a in rows && b in rows && Before(a, b) && a.trip == trip
    ensures i < j < |Sort(CallLess, CallsOf(rows, trip))|
    ensures Sort(CallLess, CallsOf(rows, trip))[i] == a && Sort(CallLess, CallsOf(rows, trip))[j] == b
  {
    var calls := CallsOf(rows, trip);
    SortKeepsElements(CallLess, calls, a);
    SortKeepsElements(CallLess, calls, b);
    i :| 0 <= i < |Sort(CallLess, calls)| && Sort(CallLess, calls)[i] == a;
    j :| 0 <= j < |Sort(CallLess, calls)| && Sort(CallLess, calls)[j] == b;
    CallsOfUnique(rows, trip);
    if j < i {
      SortedTripRises(calls, j, i);
    }
  }

  lemma {:induction false} SortedTripsRise(rows: seq<Call>, ordered: seq<TripId>, trips: Trips, t: nat)
    requires UniqueSequences(rows) && t < |trips| == |ordered| && trips[t] == SortedCalls(rows, ordered[t])
    ensures forall i, j :: 0 <= i < j < |trips[t]| ==> Before(trips[t][i], trips[t][j])
    ensures forall i :: 0 <= i < |trips[t]| ==> trips[t][i] in rows
  {
    var calls := CallsOf(rows, ordered[t]);
    CallsOfUnique(rows, ordered[t]);
    forall i, j | 0 <= i < j < |trips[t]| ensures Before(trips[t][i], trips[t][j]) {
      SortedTripRises(calls, i, j);
    }
    forall i | 0 <= i < |trips[t]| ensures trips[t][i] in rows {
      SortKeepsElements(CallLess, calls, trips[t][i]);
    }
  }

  lemma {:induction false} SortedTripsHold(rows: seq<Call>, ordered: seq<TripId>, trips: Trips, a: Call, b: Call)
    requires UniqueSequences(rows)
    requires |trips| == |ordered| && forall u :: 0 <= u < |trips| ==> trips[u] == SortedCalls(rows, ordered[u])
    requires a in rows && b in rows && Before(a, b) && a.trip in ordered
    ensures InTrips(trips, a, b)
  {
    var t :| 0 <= t < |ordered| && ordered[t] == a.trip;
    var i, j := TripHolds(rows, ordered[t], a, b);
    assert trips[t][i] == a && trips[t][j] == b;
  }

  lemma {:induction false} SortedTripsGroup(rows: seq<Call>, ordered: seq<TripId>, trips: Trips)
    requires UniqueSequences(rows)
    requires |trips| == |ordered| && forall u :: 0 <= u < |trips| ==> trips[u] == SortedCalls(rows, ordered[u])
    requires forall c :: c in rows ==> c.trip in ordered
    ensures Groups(trips, rows)
  {
    forall t | 0 <= t < |trips|
      ensures forall i, j :: 0 <= i < j < |trips[t]| ==> Before(trips[t][i], trips[t][j])
      ensures forall i :: 0 <= i < |trips[t]| ==> trips[t][i] in rows
    {
      SortedTripsRise(rows, ordered, trips, t);
    }
    forall a, b | a in rows && b in rows && Before(a, b) ensures InTrips(trips, a, b) {
      SortedTripsHold(rows, ordered, trips, a, b);
    }
  }
}
