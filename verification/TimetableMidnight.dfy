/** Rows that pass midnight any number of times: the mapping accepts them, and from the third time
    on the normaliser cannot read what it prints. */
module TimetableMidnight {
  import opened Common
  import opened TimetableClock
  import opened TimetablePublication

  const LATE: Clock := WallClock(23, 0)
  const EARLY: Clock := WallClock(1, 0)

  /** Late, early, late, early and so on. */
  function ClockAt(i: nat): Clock {
    if i % 2 == 0 then LATE else EARLY
  }

  function NameAt(i: nat): string {
    seq(i, _ => 'x')
  }

  function ValueAt(i: nat): string {
    if i % 2 == 0 then "23:00" else "01:00"
  }

  function StopAt(i: nat): RouteStop {
    RouteStop("p", "1", "s" + NameAt(i), i + 1, "up", NameAt(i))
  }

  /** A header names the stop of the same name. */
  function PlainTexts(): Texts {
    Texts(v => if v == "23:00" then Some(LATE) else if v == "01:00" then Some(EARLY) else None, _ => 1, (h, n) => h == n, (h, n) => h == n,
          _ => false, _ => None, _ => Some("1"), _ => false, _ => false, _ => Some(0), _ => [])
  }

  ghost predicate Plain(texts: Texts) {
    && texts.clock(ValueAt(0)) == Some(LATE) && texts.clock(ValueAt(1)) == Some(EARLY)
    && (forall h, n :: texts.named(h, n) == (h == n))
    && (forall h, n :: texts.exactly(h, n) == (h == n))
  }

  lemma {:induction false} PlainTextsArePlain()
    ensures Plain(PlainTexts())
  {
  }

  function Route(n: nat): (r: seq<RouteStop>)
    ensures |r| == n && forall i :: 0 <= i < n ==> r[i] == StopAt(i)
  {
    seq(n, i requires 0 <= i < n => StopAt(i))
  }

  function Headers(n: nat): (r: seq<string>)
    ensures |r| == n && forall i :: 0 <= i < n ==> r[i] == NameAt(i)
  {
    seq(n, i requires 0 <= i < n => NameAt(i))
  }

  function Values(n: nat): (r: seq<string>)
    ensures |r| == n && forall i :: 0 <= i < n ==> r[i] == ValueAt(i)
  {
    seq(n, i requires 0 <= i < n => ValueAt(i))
  }

  function Selected(n: nat): (r: seq<Checkpoint>)
    ensures |r| == n && forall i :: 0 <= i < n ==> r[i] == Checkpoint(StopAt(i), ClockAt(i), true)
  {
    seq(n, i requires 0 <= i < n => Checkpoint(StopAt(i), ClockAt(i), true))
  }

  lemma {:induction false} NamesDiffer(i: nat, j: nat)
    ensures NameAt(i) == NameAt(j) <==> i == j
  {
    assert |NameAt(i)| == i && |NameAt(j)| == j;
  }

  /** What one more stop adds to the matches of a header. */
  lemma {:induction false} MatchesOneMore(texts: Texts, front: seq<RouteStop>, last: RouteStop, header: string, after: int)
    ensures Matches(texts, front + [last], header, after)
            == Matches(texts, front, header, after) + if last.sequence > after && texts.named(header, last.name) then [last] else []
  {
    assert (front + [last])[..|front|] == front;
  }

  lemma {:induction false} RouteOneMore(n: nat)
    requires n > 0
    ensures Route(n) == Route(n - 1) + [StopAt(n - 1)]
  {
  }

  /** The `k`-th header names the `k`-th stop and no other past the ones before. */
  lemma {:induction false} OwnStopMatches(texts: Texts, n: nat, k: nat)
    requires Plain(texts)
    ensures Matches(texts, Route(n), NameAt(k), k) == if k < n then [StopAt(k)] else []
  {
    if n > 0 {
      OwnStopMatches(texts, n - 1, k);
      RouteOneMore(n);
      MatchesOneMore(texts, Route(n - 1), StopAt(n - 1), NameAt(k), k);
      NamesDiffer(k, n - 1);
    }
  }

  lemma {:induction false} ValueReads(texts: Texts, k: nat)
    requires Plain(texts)
    ensures texts.clock(ValueAt(k)) == Some(ClockAt(k))
  {
    assert ValueAt(k) == if k % 2 == 0 then ValueAt(0) else ValueAt(1);
  }

  lemma {:induction false} CellCounts(texts: Texts, all: nat, k: nat, before: seq<Checkpoint>)
    requires Plain(texts) && k < all && before == Selected(k)
    ensures WithCell(texts, Route(all), NameAt(k), ValueAt(k), before) == before + [Checkpoint(StopAt(k), ClockAt(k), true)]
  {
    assert LastSequence(before) == k;
    OwnStopMatches(texts, all, k);
    ValueReads(texts, k);
  }

  lemma {:induction false} OneMoreSelected(k: nat)
    ensures Selected(k + 1) == Selected(k) + [Checkpoint(StopAt(k), ClockAt(k), true)]
  {
  }

  lemma {:induction false} NextCell(texts: Texts, route: seq<RouteStop>, headers: seq<string>, values: seq<string>, n: nat)
    requires 0 < n <= |values| && n <= |headers|
    ensures Checkpoints(texts, route, headers, values, n)
            == WithCell(texts, route, headers[n - 1], values[n - 1], Checkpoints(texts, route, headers, values, n - 1))
  {
  }

  lemma {:induction false} EveryCellCounts(texts: Texts, route: seq<RouteStop>, headers: seq<string>, values: seq<string>, n: nat)
    requires Plain(texts) && n <= |values| && route == Route(|values|) && headers == Headers(|values|) && values == Values(|values|)
    ensures Checkpoints(texts, route, headers, values, n) == Selected(n)
  {
    if n > 0 {
      EveryCellCounts(texts, route, headers, values, n - 1);
      NextCell(texts, route, headers, values, n);
      CellCounts(texts, |values|, n - 1, Selected(n - 1));
      OneMoreSelected(n - 1);
    }
  }

  lemma {:induction false} Alternating(n: nat)
    ensures AllFollow(ClocksOf(Selected(n)))
    ensures Drops(ClocksOf(Selected(n))) == n / 2
  {
    var clocks := ClocksOf(Selected(n));
    forall i | 0 < i < n ensures FollowsAt(clocks, i) {
      assert clocks[i - 1] == ClockAt(i - 1) && clocks[i] == ClockAt(i);
    }
    if n > 1 {
      Alternating(n - 1);
      assert clocks[..n - 1] == ClocksOf(Selected(n - 1));
      assert clocks[n - 2] == ClockAt(n - 2) && clocks[n - 1] == ClockAt(n - 1);
    }
  }

  /** For every `k` there is a row that the mapping reads in full and that goes back `k` times; all
      its printed clocks are read back exactly when `k` is at most two. */
  lemma {:induction false} RowsPassAnyNumberOfTimes(k: nat) returns (texts: Texts, route: seq<RouteStop>, headers: seq<string>, values: seq<string>)
    ensures |values| == 2 * k && |StopTimes(texts, route, headers, values)| == 2 * k
    ensures Drops(ClocksOf(Checkpoints(texts, route, headers, values, |values|))) == k
    ensures (forall t :: t in StopTimes(texts, route, headers, values) ==> ServiceTime(t.arrival).Some?) <==> k <= 2
  {
    var n := 2 * k;
    texts, route, headers, values := PlainTexts(), Route(n), Headers(n), Values(n);
    PlainTextsArePlain();
    EveryCellCounts(texts, route, headers, values, n);
    Alternating(n);
    ReadableIff(Selected(n));
    var times := StopTimes(texts, route, headers, values);
    assert times == Timed(Selected(n));
    assert (forall t :: t in times ==> ServiceTime(t.arrival).Some?) <==> forall i :: 0 <= i < n ==> ServiceTime(times[i].arrival).Some?;
  }
}
