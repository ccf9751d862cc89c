/** What a timetable row is matched with, written out: how the cells of a row are read along a route,
    what each pattern scores, and which pattern wins. */
module TripMeaning {
  import opened Common
  import opened Decimals
  import opened Ordering
  import opened TimetableClock
  import opened TripChoice
  import opened TripMapping
  import TripMappingResults

  // ------------------------------------------------------------------ the route of a pattern

  /** The stops of the pattern by sequence; stops with one sequence keep the order they were given in. */
  ghost predicate IsRoute(stops: seq<RouteStop>, pattern: string, at: seq<nat>, route: seq<RouteStop>) {
    && |route| == |at|
    && (forall i :: 0 <= i < |at| ==> at[i] < |stops| && route[i] == stops[at[i]] && route[i].pattern == pattern)
    && (forall k :: 0 <= k < |stops| && stops[k].pattern == pattern ==> k in at)
    && (forall i, j :: 0 <= i < j < |at| ==>
          at[i] != at[j] && (route[i].sequence < route[j].sequence || (route[i].sequence == route[j].sequence && at[i] < at[j])))
  }

  /** The positions of the kept elements among the first `n`, from left to right. */
  function Positions<T>(keep: T -> bool, s: seq<T>, n: nat): (r: seq<nat>)
    requires n <= |s|
    ensures forall k: nat :: k in r <==> k < n && keep(s[k])
    ensures forall i, j :: 0 <= i < j < |r| ==> r[i] < r[j]
  {
    if n == 0 then []
    else
      var front := Positions(keep, s, n - 1);
      if keep(s[n - 1]) then
        assert forall i :: 0 <= i < |front| ==> front[i] in front;
        front + [n - 1]
      else front
  }

  /** The elements at these positions. */
  function At<T>(s: seq<T>, positions: seq<nat>): (r: seq<T>)
    requires forall i :: 0 <= i < |positions| ==> positions[i] < |s|
    ensures |r| == |positions| && forall i :: 0 <= i < |r| ==> r[i] == s[positions[i]]
  {
    seq(|positions|, i requires 0 <= i < |positions| => s[positions[i]])
  }

  lemma {:induction false} PositionsInside<T>(keep: T -> bool, s: seq<T>, n: nat)
    requires n <= |s|
    ensures forall i :: 0 <= i < |Positions(keep, s, n)| ==> Positions(keep, s, n)[i] < n && keep(s[Positions(keep, s, n)[i]])
  {
    var r := Positions(keep, s, n);
    forall i | 0 <= i < |r| ensures r[i] < n && keep(s[r[i]]) {
      assert r[i] in r;
    }
  }

  lemma {:induction false} FilterNext<T(!new)>(keep: T -> bool, s: seq<T>, n: nat)
    requires n < |s|
    ensures Filter(keep, s[..n + 1]) == Filter(keep, s[..n]) + if keep(s[n]) then [s[n]] else []
  {
    assert s[..n + 1][..n] == s[..n];
  }

  lemma {:induction false} FilterIsAt<T(!new)>(keep: T -> bool, s: seq<T>, n: nat)
    requires n <= |s|
    ensures |Filter(keep, s[..n])| == |Positions(keep, s, n)|
    ensures forall i :: 0 <= i < |Positions(keep, s, n)| ==> Positions(keep, s, n)[i] < n && Filter(keep, s[..n])[i] == s[Positions(keep, s, n)[i]]
  {
    PositionsInside(keep, s, n);
    if n > 0 {
      FilterIsAt(keep, s, n - 1);
      FilterNext(keep, s, n - 1);
    }
  }

  lemma {:induction false} FilterPicks<T(!new)>(keep: T -> bool, s: seq<T>) returns (picks: seq<nat>)
    ensures picks == Positions(keep, s, |s|) && (forall i :: 0 <= i < |picks| ==> picks[i] < |s|) && Filter(keep, s) == At(s, picks)
  {
    picks := Positions(keep, s, |s|);
    FilterIsAt(keep, s, |s|);
    assert s[..|s|] == s;
  }

  /** List `r` holds the kept elements, rising; equal ones stay in the order they were given. */
  ghost predicate Arranged<T(!new)>(keep: T -> bool, less: (T, T) -> bool, s: seq<T>, at: seq<nat>, r: seq<T>) {
    && |r| == |at|
    && (forall i :: 0 <= i < |at| ==> at[i] < |s| && r[i] == s[at[i]] && keep(r[i]))
    && (forall k :: 0 <= k < |s| && keep(s[k]) ==> k in at)
    && (forall i, j :: 0 <= i < j < |at| ==> at[i] != at[j] && (less(r[i], r[j]) || (!less(r[j], r[i]) && at[i] < at[j])))
  }

  lemma {:induction false} PickedAll<T(!new)>(keep: T -> bool, s: seq<T>, picks: seq<nat>, order: seq<nat>, at: seq<nat>)
    requires picks == Positions(keep, s, |s|)
    requires HasEach(order, |picks|) && |at| == |order|
    requires forall i :: 0 <= i < |at| ==> order[i] < |picks| && at[i] == picks[order[i]]
    ensures forall k :: 0 <= k < |s| && keep(s[k]) ==> k in at
  {
    forall k: nat | k < |s| && keep(s[k]) ensures k in at {
      assert k in picks;
      var j :| 0 <= j < |picks| && picks[j] == k;
      assert j in order;
      var i :| 0 <= i < |order| && order[i] == j;
      assert at[i] == k;
    }
  }

  /** Sorting what was picked keeps the order of equals. */
  lemma {:induction false} SortedPicks<T(!new)>(keep: T -> bool, less: (T, T) -> bool, s: seq<T>, picks: seq<nat>, order: seq<nat>, r: seq<T>)
    returns (at: seq<nat>)
    requires picks == Positions(keep, s, |s|)
    requires forall i :: 0 <= i < |picks| ==> picks[i] < |s| && keep(s[picks[i]])
    requires Rearranged(less, At(s, picks), order, r) && HasEach(order, |picks|)
    ensures Arranged(keep, less, s, at, r)
  {
    at := seq(|order|, i requires 0 <= i < |order| => picks[order[i]]);
    PickedAll(keep, s, picks, order, at);
    forall i, j | 0 <= i < j < |at| ensures at[i] != at[j] && (less(r[i], r[j]) || (!less(r[j], r[i]) && at[i] < at[j])) {
      assert order[i] != order[j];
    }
  }

  lemma {:induction false} SortedFilterMeans<T(!new)>(keep: T -> bool, less: (T, T) -> bool, s: seq<T>) returns (at: seq<nat>)
    requires StrictOrder(less)
    ensures Arranged(keep, less, s, at, Sort(less, Filter(keep, s)))
  {
    var picks := FilterPicks(keep, s);
    PositionsInside(keep, s, |s|);
    var order := SortIsStable(less, Filter(keep, s));
    at := SortedPicks(keep, less, s, picks, order, Sort(less, Filter(keep, s)));
  }

  lemma {:induction false} RouteMeans(stops: seq<RouteStop>, pattern: string) returns (at: seq<nat>)
    ensures IsRoute(stops, pattern, at, RouteOf(stops, pattern))
  {
    var onRoute := (s: RouteStop) => s.pattern == pattern;
    at := SortedFilterMeans(onRoute, SequenceLess, stops);
    var route := RouteOf(stops, pattern);
    forall i, j | 0 <= i < j < |at|
      ensures at[i] != at[j] && (route[i].sequence < route[j].sequence || (route[i].sequence == route[j].sequence && at[i] < at[j]))
    {
      assert SequenceLess(route[i], route[j]) || (!SequenceLess(route[j], route[i]) && at[i] < at[j]);
    }
  }

  // ------------------------------------------------------------------ reading labels along a route

  ghost predicate Fits(texts: Texts, route: seq<RouteStop>, text: string, after: int, i: nat) {
    i < |route| && route[i].sequence > after && texts.named(text, route[i].name)
  }

  /** Stop `i` is the only one past `after` that the label names. */
  ghost predicate Names(texts: Texts, route: seq<RouteStop>, text: string, after: int, i: nat) {
    Fits(texts, route, text, after, i) && forall j :: Fits(texts, route, text, after, j) ==> j == i
  }

  /** `k` of the chosen labels stand before label `c`. */
  ghost predicate Between(cols: seq<nat>, k: nat, c: nat) {
    k <= |cols| && (k > 0 ==> cols[k - 1] < c) && (k < |cols| ==> c < cols[k])
  }

  /** Label `cols[k]` stands for stop `found[k]`, the only one past `passed[k]` that it names. */
  ghost predicate Taken(texts: Texts, route: seq<RouteStop>, labels: seq<Option<string>>, cols: seq<nat>, found: seq<nat>, passed: seq<int>, k: nat)
    requires k < |cols| == |found| == |passed| - 1
  {
    && cols[k] < |labels| && labels[cols[k]].Some?
    && Names(texts, route, labels[cols[k]].value, passed[k], found[k])
    && passed[k + 1] == route[found[k]].sequence
  }

  /** Label `c` is none, or it does not name exactly one stop past the sequence passed before it. */
  ghost predicate Skipped(texts: Texts, route: seq<RouteStop>, labels: seq<Option<string>>, cols: seq<nat>, passed: seq<int>, c: nat)
    requires c < |labels| && |passed| == |cols| + 1
  {
    labels[c].Some? ==> forall k: nat, i: nat :: Between(cols, k, c) ==> !Names(texts, route, labels[c].value, passed[k], i)
  }

  /** The first `n` labels read from left to right: those at `cols` name exactly one stop past the
      sequence passed so far, which starts at 0, and stand for the stops at `found`; no other does. */
  ghost predicate Reads(texts: Texts, route: seq<RouteStop>, labels: seq<Option<string>>, n: nat, cols: seq<nat>, found: seq<nat>, passed: seq<int>) {
    && n <= |labels| && |cols| == |found| == |passed| - 1
    && passed[0] == 0
    && (forall k, l :: 0 <= k < l < |cols| ==> cols[k] < cols[l])
    && (forall k :: 0 <= k < |cols| ==> cols[k] < n)
    && (forall k :: 0 <= k < |cols| ==> Taken(texts, route, labels, cols, found, passed, k))
    && (forall c :: 0 <= c < n && c !in cols ==> Skipped(texts, route, labels, cols, passed, c))
  }

  /** One label that names no stop, or is none, is passed over. */
  lemma {:induction false} ReadsPast(texts: Texts, route: seq<RouteStop>, labels: seq<Option<string>>, n: nat, cols: seq<nat>, found: seq<nat>, passed: seq<int>)
    requires n < |labels| && Reads(texts, route, labels, n, cols, found, passed)
    requires labels[n].Some? ==> forall i: nat :: !Names(texts, route, labels[n].value, passed[|cols|], i)
    ensures Reads(texts, route, labels, n + 1, cols, found, passed)
  {
    forall k: nat | Between(cols, k, n) ensures k == |cols| {}
    assert Skipped(texts, route, labels, cols, passed, n);
  }

  lemma {:induction false} ReadsOne(texts: Texts, route: seq<RouteStop>, labels: seq<Option<string>>, n: nat, cols: seq<nat>, found: seq<nat>, passed: seq<int>, at: nat)
    requires n < |labels| && labels[n].Some? && Reads(texts, route, labels, n, cols, found, passed)
    requires Names(texts, route, labels[n].value, passed[|cols|], at)
    ensures Reads(texts, route, labels, n + 1, cols + [n], found + [at], passed + [route[at].sequence])
  {
    var more, also, past := cols + [n], found + [at], passed + [route[at].sequence];
    forall k | 0 <= k < |more| ensures Taken(texts, route, labels, more, also, past, k) {
      if k < |cols| {
        assert Taken(texts, route, labels, cols, found, passed, k);
        assert more[k] == cols[k] && also[k] == found[k] && past[k] == passed[k] && past[k + 1] == passed[k + 1];
      }
    }
    forall c: nat | c < n + 1 && c !in more ensures Skipped(texts, route, labels, more, past, c) {
      assert more[|cols|] == n;
      assert c !in cols && Skipped(texts, route, labels, cols, passed, c);
      forall k: nat | Between(more, k, c) ensures k <= |cols| && Between(cols, k, c) && past[k] == passed[k] {}
    }
  }

  /** The matches are one exactly when the text names a stop. */
  lemma {:induction false} MatchesMean(texts: Texts, route: seq<RouteStop>, text: string, after: int) returns (at: nat)
    ensures |Matches(texts, route, text, after)| == 1 ==> Names(texts, route, text, after, at) && Matches(texts, route, text, after)[0] == route[at]
    ensures |Matches(texts, route, text, after)| != 1 ==> forall i: nat :: !Names(texts, route, text, after, i)
  {
    var keep := (s: RouteStop) => s.sequence > after && texts.named(text, s.name);
    MatchesFilter(texts, route, text, after);
    var picks := FilterPicks(keep, route);
    assert forall j: nat :: j in picks <==> Fits(texts, route, text, after, j);
    at := NameAmong(texts, route, text, after, picks);
  }

  lemma {:induction false} NameAmong(texts: Texts, route: seq<RouteStop>, text: string, after: int, picks: seq<nat>) returns (at: nat)
    requires forall j: nat :: j in picks <==> Fits(texts, route, text, after, j)
    requires forall i, j :: 0 <= i < j < |picks| ==> picks[i] < picks[j]
    ensures |picks| == 1 ==> Names(texts, route, text, after, at) && at == picks[0]
    ensures |picks| != 1 ==> forall i: nat :: !Names(texts, route, text, after, i)
  {
    at := 0;
    if |picks| == 1 {
      at := picks[0];
      assert at in picks;
    } else if |picks| > 1 {
      assert picks[0] in picks && picks[1] in picks;
    }
  }

  lemma {:induction false} MatchesFilter(texts: Texts, route: seq<RouteStop>, text: string, after: int)
    ensures Matches(texts, route, text, after) == Filter((s: RouteStop) => s.sequence > after && texts.named(text, s.name), route)
  {
    if route != [] {
      MatchesFilter(texts, route[..|route| - 1], text, after);
    }
  }

  // ------------------------------------------------------------------ the cells of a row

  /** The header over each cell that holds a clock. */
  function TimedHeaders(texts: Texts, row: Row): (r: seq<Option<string>>)
    ensures |r| == |row.values|
  {
    seq(|row.values|, c requires 0 <= c < |row.values| =>
      if c < |row.headers| && texts.clock(row.values[c]).Some? then Some(row.headers[c]) else None)
  }

  function Words(texts: Texts, row: Row): seq<Option<string>> {
    var tokens := texts.titleTokens(row.sheet);
    seq(|tokens|, i requires 0 <= i < |tokens| => Some(tokens[i]))
  }

  /** The checkpoints of the cells at `cols`, over the stops at `found`. */
  ghost predicate Marked(texts: Texts, route: seq<RouteStop>, row: Row, cols: seq<nat>, found: seq<nat>, selected: seq<Checkpoint>) {
    && |selected| == |cols| == |found|
    && forall k :: 0 <= k < |cols| ==>
         && cols[k] < |row.headers| && cols[k] < |row.values| && found[k] < |route|
         && selected[k].stop == route[found[k]]
         && texts.clock(row.values[cols[k]]) == Some(selected[k].clock)
         && selected[k].exact == texts.exactly(row.headers[cols[k]], route[found[k]].name)
  }

  lemma {:induction false} MarkedOneMore(texts: Texts, route: seq<RouteStop>, row: Row, cols: seq<nat>, found: seq<nat>, before: seq<Checkpoint>, n: nat, at: nat)
    requires Marked(texts, route, row, cols, found, before) && n < |row.values| && n < |row.headers| && at < |route|
    requires texts.clock(row.values[n]).Some?
    ensures Marked(texts, route, row, cols + [n], found + [at],
                   before + [Checkpoint(route[at], texts.clock(row.values[n]).value, texts.exactly(row.headers[n], route[at].name))])
  {
    var more, also := cols + [n], found + [at];
    assert forall k :: 0 <= k < |cols| ==> more[k] == cols[k] && also[k] == found[k];
  }

  /** One more cell. */
  lemma {:induction false} CellMeans(texts: Texts, route: seq<RouteStop>, row: Row, n: nat, before: seq<Checkpoint>, cols: seq<nat>, found: seq<nat>, passed: seq<int>)
    returns (more: seq<nat>, also: seq<nat>, past: seq<int>)
    requires n < |row.values| && n < |row.headers| && Reads(texts, route, TimedHeaders(texts, row), n, cols, found, passed)
    requires Marked(texts, route, row, cols, found, before)
    ensures Reads(texts, route, TimedHeaders(texts, row), n + 1, more, also, past)
    ensures Marked(texts, route, row, more, also, WithCell(texts, route, row.headers[n], row.values[n], before))
  {
    more, also, past := cols, found, passed;
    var labels, last := TimedHeaders(texts, row), LastSequence(before);
    assert passed[|cols|] == last by {
      assert |cols| > 0 ==> Taken(texts, route, labels, cols, found, passed, |cols| - 1);
    }
    var at := MatchesMean(texts, route, row.headers[n], last);
    if labels[n].Some? && |Matches(texts, route, row.headers[n], last)| == 1 {
      ReadsOne(texts, route, labels, n, cols, found, passed, at);
      MarkedOneMore(texts, route, row, cols, found, before, n, at);
      more, also, past := cols + [n], found + [at], passed + [route[at].sequence];
    } else {
      ReadsPast(texts, route, labels, n, cols, found, passed);
    }
  }

  lemma {:induction false} ReadsNone(texts: Texts, route: seq<RouteStop>, labels: seq<Option<string>>)
    ensures Reads(texts, route, labels, 0, [], [], [0])
  {
  }

  lemma {:induction false} CheckpointsMean(texts: Texts, route: seq<RouteStop>, row: Row, n: nat) returns (cols: seq<nat>, found: seq<nat>, passed: seq<int>)
    requires n <= |row.values|
    ensures Reads(texts, route, TimedHeaders(texts, row), n, cols, found, passed)
    ensures Marked(texts, route, row, cols, found, Checkpoints(texts, route, row.headers, row.values, n))
  {
    if n == 0 {
      ReadsNone(texts, route, TimedHeaders(texts, row));
      return [], [], [0];
    }
    cols, found, passed := CheckpointsMean(texts, route, row, n - 1);
    cols, found, passed := ColumnMeans(texts, route, row, n - 1, cols, found, passed);
  }

  lemma {:induction false} ColumnMeans(texts: Texts, route: seq<RouteStop>, row: Row, n: nat, cols: seq<nat>, found: seq<nat>, passed: seq<int>)
    returns (more: seq<nat>, also: seq<nat>, past: seq<int>)
    requires n < |row.values| && Reads(texts, route, TimedHeaders(texts, row), n, cols, found, passed)
    requires Marked(texts, route, row, cols, found, Checkpoints(texts, route, row.headers, row.values, n))
    ensures Reads(texts, route, TimedHeaders(texts, row), n + 1, more, also, past)
    ensures Marked(texts, route, row, more, also, Checkpoints(texts, route, row.headers, row.values, n + 1))
  {
    if n < |row.headers| {
      more, also, past := CellMeans(texts, route, row, n, Checkpoints(texts, route, row.headers, row.values, n), cols, found, passed);
    } else {
      ReadsPast(texts, route, TimedHeaders(texts, row), n, cols, found, passed);
      more, also, past := cols, found, passed;
    }
  }

  /** One more word of the title. */
  lemma {:induction false} WordMeans(texts: Texts, route: seq<RouteStop>, row: Row, n: nat, cols: seq<nat>, found: seq<nat>, passed: seq<int>)
    returns (more: seq<nat>, also: seq<nat>, past: seq<int>)
    requires n < |texts.titleTokens(row.sheet)| && Reads(texts, route, Words(texts, row), n, cols, found, passed)
    requires TitleStops(texts, route, texts.titleTokens(row.sheet), n) == (|cols|, passed[|cols|])
    ensures Reads(texts, route, Words(texts, row), n + 1, more, also, past)
    ensures TitleStops(texts, route, texts.titleTokens(row.sheet), n + 1) == (|more|, past[|more|])
  {
    more, also, past := cols, found, passed;
    var word, last := texts.titleTokens(row.sheet)[n], passed[|cols|];
    var at := MatchesMean(texts, route, word, last);
    if |Matches(texts, route, word, last)| == 1 {
      ReadsOne(texts, route, Words(texts, row), n, cols, found, passed, at);
      more, also, past := cols + [n], found + [at], passed + [route[at].sequence];
    } else {
      ReadsPast(texts, route, Words(texts, row), n, cols, found, passed);
    }
  }

  lemma {:induction false} TitleMeans(texts: Texts, route: seq<RouteStop>, row: Row, n: nat) returns (cols: seq<nat>, found: seq<nat>, passed: seq<int>)
    requires n <= |texts.titleTokens(row.sheet)|
    ensures Reads(texts, route, Words(texts, row), n, cols, found, passed)
    ensures TitleStops(texts, route, texts.titleTokens(row.sheet), n) == (|cols|, passed[|cols|])
  {
    if n == 0 {
      ReadsNone(texts, route, Words(texts, row));
      return [], [], [0];
    }
    cols, found, passed := TitleMeans(texts, route, row, n - 1);
    cols, found, passed := WordMeans(texts, route, row, n - 1, cols, found, passed);
  }

  // ------------------------------------------------------------------ the times of a row

  /** Minutes since the first midnight: each clock at or after the one before, less than a day later. */
  ghost predicate Unrolls(clocks: seq<Clock>, minutes: seq<nat>) {
    && |minutes| == |clocks|
    && (forall k :: 0 <= k < |minutes| ==> minutes[k] % 1440 == 60 * clocks[k].hour + clocks[k].minute)
    && (|minutes| > 0 ==> minutes[0] < 1440)
    && (forall k :: 0 < k < |minutes| ==> minutes[k - 1] <= minutes[k] < minutes[k - 1] + 1440)
  }

  /** Clock `k` goes back other than from 18:00 or later to 06:59 or earlier. */
  ghost predicate GoesBackWrongly(clocks: seq<Clock>, k: nat) {
    && 0 < k < |clocks|
    && 60 * clocks[k].hour + clocks[k].minute < 60 * clocks[k - 1].hour + clocks[k - 1].minute
    && (clocks[k - 1].hour < 18 || clocks[k].hour > 6)
  }

  ghost predicate StopsAt(minutes: seq<nat>, selected: seq<Checkpoint>, times: seq<StopTime>, k: nat)
    requires k < |times| == |selected| == |minutes|
  {
    && times[k].stopId == selected[k].stop.stopId && times[k].routeSequence == selected[k].stop.sequence
    && times[k].stopSequence == k + 1
    && times[k].arrival == times[k].departure == Padded(minutes[k] / 60, 2) + Padded(minutes[k] % 60, 2)
  }

  /** No times at all when a clock goes back wrongly; else one for every checkpoint. */
  ghost predicate TimesOf(selected: seq<Checkpoint>, minutes: seq<nat>, times: seq<StopTime>) {
    && Unrolls(ClocksOf(selected), minutes)
    && ((exists k :: GoesBackWrongly(ClocksOf(selected), k)) ==> times == [])
    && ((forall k :: !GoesBackWrongly(ClocksOf(selected), k)) ==>
          |times| == |selected| && forall k :: 0 <= k < |times| ==> StopsAt(minutes, selected, times, k))
  }

  lemma {:induction false} TimesMean(clocks: seq<Clock>) returns (minutes: seq<nat>)
    ensures minutes == Times(clocks) && Unrolls(clocks, minutes)
  {
    TimesLift(clocks);
    var all := Times(clocks);
    minutes := seq(|all|, i requires 0 <= i < |all| => all[i] as nat);
    forall k | 0 < k < |minutes| ensures minutes[k - 1] <= minutes[k] < minutes[k - 1] + 1440 {
      TimeAt(clocks, k);
      NextIsLeast(all[k - 1], clocks[k], 0);
    }
    if clocks != [] {
      TimeAt(clocks, 0);
    }
  }

  lemma {:induction false} WrongIff(clocks: seq<Clock>)
    ensures AllFollow(clocks) <==> forall k :: !GoesBackWrongly(clocks, k)
  {
    forall i | 0 < i < |clocks| ensures FollowsAt(clocks, i) <==> !GoesBackWrongly(clocks, i) {}
  }

  lemma {:induction false} UnrolledMeans(selected: seq<Checkpoint>) returns (minutes: seq<nat>)
    ensures TimesOf(selected, minutes, Unrolled(selected))
  {
    var clocks := ClocksOf(selected);
    minutes := TimesMean(clocks);
    WrongIff(clocks);
    var times := Unrolled(selected);
    if AllFollow(clocks) {
      forall k | 0 <= k < |times| ensures StopsAt(minutes, selected, times, k) {
        assert times[k] == StopTimeAt(selected[k], TimeOf(clocks, k), k + 1);
      }
    }
  }

  // ------------------------------------------------------------------ what a pattern scores

  /** How one row reads on one pattern. */
  datatype Reading = Reading(at: seq<nat>, route: seq<RouteStop>, cols: seq<nat>, found: seq<nat>, passed: seq<int>,
                             selected: seq<Checkpoint>, minutes: seq<nat>, times: seq<StopTime>,
                             words: seq<nat>, waypoints: seq<nat>, along: seq<int>)

  ghost predicate IsReading(texts: Texts, stops: seq<RouteStop>, row: Row, pattern: string, r: Reading) {
    && IsRoute(stops, pattern, r.at, r.route)
    && Reads(texts, r.route, TimedHeaders(texts, row), |row.values|, r.cols, r.found, r.passed)
    && Marked(texts, r.route, row, r.cols, r.found, r.selected)
    && TimesOf(r.selected, r.minutes, r.times)
    && Reads(texts, r.route, Words(texts, row), |texts.titleTokens(row.sheet)|, r.words, r.waypoints, r.along)
  }

  /** The first time stands at the first stop of the route and the last one at the last. */
  predicate EndToEnd(r: Reading) {
    && r.route != [] && r.times != []
    && r.times[0].routeSequence == r.route[0].sequence
    && r.times[|r.times| - 1].routeSequence == r.route[|r.route| - 1].sequence
  }

  ghost function ExactlyNamed(r: Reading): nat {
    |set k | 0 <= k < |r.selected| && r.selected[k].exact|
  }

  lemma {:induction false} FilterIsCounted(selected: seq<Checkpoint>)
    ensures |Filter((c: Checkpoint) => c.exact, selected)| == |set k | 0 <= k < |selected| && selected[k].exact|
  {
    if selected != [] {
      var n := |selected| - 1;
      FilterIsCounted(selected[..n]);
      var before, all := set k | 0 <= k < n && selected[..n][k].exact, set k | 0 <= k < |selected| && selected[k].exact;
      assert all == if selected[n].exact then before + {n} else before;
    }
  }

  lemma {:induction false} RowReads(texts: Texts, stops: seq<RouteStop>, row: Row, pattern: string) returns (r: Reading)
    ensures IsReading(texts, stops, row, pattern, r)
    ensures r.route == RouteOf(stops, pattern) && r.times == CandidateFor(texts, stops, row, pattern).times
    ensures ExactlyNamed(r) == ExactNames(texts, stops, row, pattern)
    ensures |r.words| == TitleScore(texts, stops, row, pattern)
  {
    var route := RouteOf(stops, pattern);
    var at := RouteMeans(stops, pattern);
    var cols, found, passed := CheckpointsMean(texts, route, row, |row.values|);
    var selected := Checkpoints(texts, route, row.headers, row.values, |row.values|);
    var minutes := UnrolledMeans(selected);
    var words, waypoints, along := TitleMeans(texts, route, row, |texts.titleTokens(row.sheet)|);
    FilterIsCounted(selected);
    r := Reading(at, route, cols, found, passed, selected, minutes, Unrolled(selected), words, waypoints, along);
  }

  // ------------------------------------------------------------------ which pattern wins

  /** What a pattern brings to the comparison. */
  datatype Tally = Tally(times: nat, ends: bool, exact: nat, waypoints: nat)

  /** It has the most stop times of all, and at least two. */
  ghost predicate Longest(field: map<string, Tally>, p: string) {
    p in field && field[p].times >= 2 && forall d :: d in field ==> field[d].times <= field[p].times
  }

  ghost predicate OnlyLongest(field: map<string, Tally>, p: string) {
    Longest(field, p) && forall d :: Longest(field, d) ==> d == p
  }

  ghost predicate OnlyWhole(field: map<string, Tally>, p: string) {
    Longest(field, p) && field[p].ends && forall d :: Longest(field, d) && field[d].ends ==> d == p
  }

  ghost predicate MostExact(field: map<string, Tally>, p: string) {
    Longest(field, p) && field[p].exact >= 1 && forall d :: Longest(field, d) && d != p ==> field[d].exact < field[p].exact
  }

  ghost predicate MostWaypoints(field: map<string, Tally>, p: string) {
    Longest(field, p) && field[p].waypoints >= 2 && forall d :: Longest(field, d) && d != p ==> field[d].waypoints < field[p].waypoints
  }

  /** The pattern the row belongs to. */
  ghost predicate Wins(field: map<string, Tally>, p: string) {
    || OnlyLongest(field, p)
    || OnlyWhole(field, p)
    || ((forall d :: !OnlyWhole(field, d)) && MostExact(field, p))
    || ((forall d :: !OnlyWhole(field, d) && !MostExact(field, d)) && MostWaypoints(field, p))
  }

  lemma {:induction false} AtMostOneWins(field: map<string, Tally>, p: string, d: string)
    requires Wins(field, p) && Wins(field, d)
    ensures p == d
  {
    assert Longest(field, p) && Longest(field, d);
  }

  // ------------------------------------------------------------------ the cascade finds the winner

  /** Element `c` is in the list and scores more than every other. */
  ghost predicate Top<T(!new)>(score: T -> nat, s: seq<T>, c: T) {
    c in s && forall d :: d in s && d != c ==> score(d) < score(c)
  }

  lemma {:induction false} SingleIff<T(!new)>(s: seq<T>, c: T)
    requires Distinct(s)
    ensures s == [c] <==> c in s && forall d :: d in s ==> d == c
  {
    if c in s && forall d :: d in s ==> d == c {
      assert s[|s| - 1] in s && s[0] in s;
    }
  }

  lemma {:induction false} BestIsDistinct<T(!new)>(score: T -> nat, s: seq<T>)
    requires s != [] && Distinct(s)
    ensures Distinct(Best(score, s))
  {
    var max := MaxOf(score, s);
    TripMappingResults.FilterKeepsDistinct(x => score(x) == max, s);
  }

  lemma {:induction false} BestIsTop<T(!new)>(score: T -> nat, s: seq<T>, c: T)
    requires s != [] && Distinct(s)
    ensures Distinct(Best(score, s)) && (Best(score, s) == [c] <==> Top(score, s, c))
    ensures Top(score, s, c) ==> MaxOf(score, s) == score(c)
  {
    BestIsDistinct(score, s);
    SingleIff(Best(score, s), c);
    var x := MaxIsReached(score, s);
    assert x in Best(score, s);
  }

  /** The candidates bring their tallies, one for each pattern. */
  ghost predicate Tallied(scores: Scores<Candidate>, cs: seq<Candidate>, field: map<string, Tally>) {
    && cs != [] && Distinct(cs)
    && (forall c :: c in cs ==>
          c.pattern in field && field[c.pattern] == Tally(scores.length(c), scores.spans(c), scores.exact(c), scores.title(c)))
    && (forall c, d :: c in cs && d in cs && c.pattern == d.pattern ==> c == d)
    && (forall p :: p in field ==> exists c :: c in cs && c.pattern == p)
  }

  lemma {:induction false} BestAreLongest(scores: Scores<Candidate>, cs: seq<Candidate>, field: map<string, Tally>, best: seq<Candidate>)
    requires Tallied(scores, cs, field) && best == Best(scores.length, cs)
    ensures Distinct(best)
    ensures MaxOf(scores.length, cs) < 2 <==> forall p :: p in field ==> field[p].times < 2
    ensures MaxOf(scores.length, cs) >= 2 ==> AreLongest(scores, cs, field, best)
  {
    var max := MaxOf(scores.length, cs);
    BestIsDistinct(scores.length, cs);
    var x := MaxIsReached(scores.length, cs);
    assert field[x.pattern].times == max && x in best;
    forall p | p in field ensures field[p].times <= max {
      var c :| c in cs && c.pattern == p;
    }
    if max >= 2 {
      forall c ensures c in best <==> c in cs && Longest(field, c.pattern) {
        if c in best {
          assert field[c.pattern].times == max;
          assert Longest(field, c.pattern);
        }
        if c in cs && Longest(field, c.pattern) {
          assert field[x.pattern].times <= field[c.pattern].times;
          assert scores.length(c) == max;
        }
      }
    }
  }

  /** A list of candidates holds just those of the field's longest patterns. */
  ghost predicate AreLongest(scores: Scores<Candidate>, cs: seq<Candidate>, field: map<string, Tally>, best: seq<Candidate>) {
    && Tallied(scores, cs, field) && Distinct(best) && best != []
    && (forall c :: c in best <==> c in cs && Longest(field, c.pattern))
  }

  lemma {:induction false} WholeIff(scores: Scores<Candidate>, cs: seq<Candidate>, field: map<string, Tally>, best: seq<Candidate>, c: Candidate)
    requires AreLongest(scores, cs, field, best)
    ensures Filter(scores.spans, best) == [c] <==> c in cs && OnlyWhole(field, c.pattern)
  {
    TripMappingResults.FilterKeepsDistinct(scores.spans, best);
    SingleIff(Filter(scores.spans, best), c);
    if c in cs && OnlyWhole(field, c.pattern) {
      forall d | d in Filter(scores.spans, best) ensures d == c {
        assert d.pattern == c.pattern;
      }
    }
    if Filter(scores.spans, best) == [c] {
      assert c in Filter(scores.spans, best);
      forall p | Longest(field, p) && field[p].ends ensures p == c.pattern {
        var d :| d in cs && d.pattern == p;
        assert d in Filter(scores.spans, best);
      }
    }
  }

  lemma {:induction false} ExactIff(scores: Scores<Candidate>, cs: seq<Candidate>, field: map<string, Tally>, best: seq<Candidate>, c: Candidate)
    requires AreLongest(scores, cs, field, best)
    ensures Best(scores.exact, best) == [c] && MaxOf(scores.exact, best) > 0 <==> c in cs && MostExact(field, c.pattern)
  {
    BestIsTop(scores.exact, best, c);
    if Top(scores.exact, best, c) && scores.exact(c) > 0 {
      forall p | Longest(field, p) && p != c.pattern ensures field[p].exact < field[c.pattern].exact {
        var d :| d in cs && d.pattern == p;
        assert d in best;
      }
    }
  }

  lemma {:induction false} WaypointsIff(scores: Scores<Candidate>, cs: seq<Candidate>, field: map<string, Tally>, best: seq<Candidate>, c: Candidate)
    requires AreLongest(scores, cs, field, best)
    ensures Best(scores.title, best) == [c] && MaxOf(scores.title, best) >= 2 <==> c in cs && MostWaypoints(field, c.pattern)
  {
    BestIsTop(scores.title, best, c);
    if Top(scores.title, best, c) && scores.title(c) >= 2 {
      forall p | Longest(field, p) && p != c.pattern ensures field[p].waypoints < field[c.pattern].waypoints {
        var d :| d in cs && d.pattern == p;
        assert d in best;
      }
    }
  }

  lemma {:induction false} AloneIff(scores: Scores<Candidate>, cs: seq<Candidate>, field: map<string, Tally>, best: seq<Candidate>, c: Candidate)
    requires AreLongest(scores, cs, field, best)
    ensures best == [c] <==> c in cs && OnlyLongest(field, c.pattern)
  {
    SingleIff(best, c);
    if best == [c] {
      forall p | Longest(field, p) ensures p == c.pattern {
        var d :| d in cs && d.pattern == p;
        assert d in best;
      }
    }
    if c in cs && OnlyLongest(field, c.pattern) {
      forall d | d in best ensures d == c {
        assert d.pattern == c.pattern;
      }
    }
  }

  /** When a stage does not leave a single candidate, no pattern passes it. */
  lemma {:induction false} NobodyAlone(scores: Scores<Candidate>, cs: seq<Candidate>, field: map<string, Tally>, best: seq<Candidate>)
    requires AreLongest(scores, cs, field, best) && |best| != 1
    ensures forall p :: !OnlyLongest(field, p)
  {
    forall p ensures !OnlyLongest(field, p) {
      if p in field {
        var c :| c in cs && c.pattern == p;
        AloneIff(scores, cs, field, best, c);
      }
    }
  }

  lemma {:induction false} NobodyWhole(scores: Scores<Candidate>, cs: seq<Candidate>, field: map<string, Tally>, best: seq<Candidate>)
    requires AreLongest(scores, cs, field, best) && |Filter(scores.spans, best)| != 1
    ensures forall p :: !OnlyWhole(field, p)
  {
    forall p ensures !OnlyWhole(field, p) {
      if p in field {
        var c :| c in cs && c.pattern == p;
        WholeIff(scores, cs, field, best, c);
      }
    }
  }

  lemma {:induction false} NobodyExact(scores: Scores<Candidate>, cs: seq<Candidate>, field: map<string, Tally>, best: seq<Candidate>)
    requires AreLongest(scores, cs, field, best) && !(MaxOf(scores.exact, best) > 0 && |Best(scores.exact, best)| == 1)
    ensures forall p :: !MostExact(field, p)
  {
    forall p ensures !MostExact(field, p) {
      if p in field {
        var c :| c in cs && c.pattern == p;
        ExactIff(scores, cs, field, best, c);
      }
    }
  }

  lemma {:induction false} NobodyByTitle(scores: Scores<Candidate>, cs: seq<Candidate>, field: map<string, Tally>, best: seq<Candidate>)
    requires AreLongest(scores, cs, field, best) && !(MaxOf(scores.title, best) >= 2 && |Best(scores.title, best)| == 1)
    ensures forall p :: !MostWaypoints(field, p)
  {
    forall p ensures !MostWaypoints(field, p) {
      if p in field {
        var c :| c in cs && c.pattern == p;
        WaypointsIff(scores, cs, field, best, c);
      }
    }
  }

  /** The stages after the first leave the winner, or nobody wins. */
  lemma {:induction false} LaterStages(scores: Scores<Candidate>, cs: seq<Candidate>, field: map<string, Tally>, best: seq<Candidate>)
    requires AreLongest(scores, cs, field, best) && |best| > 1
    ensures |ByRoute(scores, best)| == 1 ==> ByRoute(scores, best)[0] in cs && Wins(field, ByRoute(scores, best)[0].pattern)
    ensures |ByRoute(scores, best)| != 1 ==>
              match ByTitle(scores, ByRoute(scores, best)) {
                case Insufficient => false
                case Chosen(c) => c in cs && Wins(field, c.pattern)
                case NotUnique => forall p :: !Wins(field, p)
              }
  {
    NobodyAlone(scores, cs, field, best);
    var full, named, titled := Filter(scores.spans, best), Best(scores.exact, best), Best(scores.title, best);
    if |full| == 1 {
      WholeIff(scores, cs, field, best, full[0]);
    } else {
      NobodyWhole(scores, cs, field, best);
      if MaxOf(scores.exact, best) > 0 && |named| == 1 {
        ExactIff(scores, cs, field, best, named[0]);
      } else {
        NobodyExact(scores, cs, field, best);
        assert ByRoute(scores, best) == best;
        if MaxOf(scores.title, best) >= 2 && |titled| == 1 {
          WaypointsIff(scores, cs, field, best, titled[0]);
        } else {
          NobodyByTitle(scores, cs, field, best);
        }
      }
    }
  }

  lemma {:induction false} WinnerIff(scores: Scores<Candidate>, cs: seq<Candidate>, field: map<string, Tally>, d: Candidate)
    requires Tallied(scores, cs, field) && d in cs && Wins(field, d.pattern)
    ensures forall c :: c == d <==> c in cs && Wins(field, c.pattern)
  {
    forall c | c in cs && Wins(field, c.pattern) ensures c == d {
      AtMostOneWins(field, c.pattern, d.pattern);
    }
  }

  lemma {:induction false} ChosenIff(scores: Scores<Candidate>, cs: seq<Candidate>, field: map<string, Tally>, best: seq<Candidate>)
    requires AreLongest(scores, cs, field, best) && best == Best(scores.length, cs) && MaxOf(scores.length, cs) >= 2
    ensures forall c :: Choose(scores, cs) == Chosen(c) <==> c in cs && Wins(field, c.pattern)
  {
    if |best| == 1 {
      AloneIff(scores, cs, field, best, best[0]);
      WinnerIff(scores, cs, field, best[0]);
    } else {
      LaterStages(scores, cs, field, best);
      var narrowed := ByRoute(scores, best);
      if |narrowed| == 1 {
        WinnerIff(scores, cs, field, narrowed[0]);
      } else if ByTitle(scores, narrowed).Chosen? {
        WinnerIff(scores, cs, field, ByTitle(scores, narrowed).candidate);
      }
    }
  }

  /** Main result of the comparison: the cascade chooses the winner, and gives up exactly when there
      are too few times or nobody wins. */
  lemma {:induction false} ChooseMeans(scores: Scores<Candidate>, cs: seq<Candidate>, field: map<string, Tally>)
    requires Tallied(scores, cs, field)
    ensures Choose(scores, cs) == Insufficient <==> forall p :: p in field ==> field[p].times < 2
    ensures forall c :: Choose(scores, cs) == Chosen(c) <==> c in cs && Wins(field, c.pattern)
  {
    var best := Best(scores.length, cs);
    BestAreLongest(scores, cs, field, best);
    if MaxOf(scores.length, cs) >= 2 {
      ChosenIff(scores, cs, field, best);
      ChosenOrNot(scores, cs);
    } else {
      forall p ensures !Wins(field, p) {
        assert !Longest(field, p);
      }
    }
  }

  lemma {:induction false} ChosenOrNot(scores: Scores<Candidate>, cs: seq<Candidate>)
    requires cs != []
    ensures Choose(scores, cs) == Insufficient <==> MaxOf(scores.length, cs) < 2
  {
    var narrowed := ByRoute(scores, Best(scores.length, cs));
  }

  // ------------------------------------------------------------------ what becomes of a row

  /** How the row reads on every pattern there is. */
  ghost predicate Readings(texts: Texts, stops: seq<RouteStop>, row: Row, all: map<string, Reading>) {
    && (forall p :: p in all <==> exists s :: s in stops && s.pattern == p)
    && (forall p :: p in all ==> IsReading(texts, stops, row, p, all[p]))
  }

  /** A pattern competes when the first stop of its route carries the row's number. */
  predicate Competes(all: map<string, Reading>, number: string, p: string) {
    p in all && all[p].route != [] && all[p].route[0].routeNumber == number
  }

  ghost function FieldOf(all: map<string, Reading>, number: string): map<string, Tally> {
    map p | p in all && Competes(all, number, p)
      :: Tally(|all[p].times|, EndToEnd(all[p]), ExactlyNamed(all[p]), |all[p].words|)
  }

  /** The readings are the ones the scores are taken from. */
  ghost predicate Scored(texts: Texts, stops: seq<RouteStop>, row: Row, all: map<string, Reading>) {
    forall p :: p in all ==>
      && all[p].route == RouteOf(stops, p) && all[p].times == CandidateFor(texts, stops, row, p).times
      && ExactlyNamed(all[p]) == ExactNames(texts, stops, row, p) && |all[p].words| == TitleScore(texts, stops, row, p)
  }

  lemma {:induction false} ReadPatterns(texts: Texts, stops: seq<RouteStop>, row: Row, patterns: seq<string>) returns (all: map<string, Reading>)
    ensures forall p :: p in all <==> p in patterns
    ensures forall p :: p in all ==> IsReading(texts, stops, row, p, all[p])
    ensures Scored(texts, stops, row, all)
  {
    all := map[];
    if patterns != [] {
      var front, last := patterns[..|patterns| - 1], patterns[|patterns| - 1];
      assert patterns == front + [last];
      var before := ReadPatterns(texts, stops, row, front);
      var r := RowReads(texts, stops, row, last);
      all := before[last := r];
    }
  }

  /** The candidates are those of the competing patterns, one for each. */
  lemma {:induction false} CandidatesOf(texts: Texts, stops: seq<RouteStop>, row: Row, number: string)
    ensures Distinct(Candidates(texts, stops, row, PatternsOfNumber(stops, number)))
    ensures forall c :: c in Candidates(texts, stops, row, PatternsOfNumber(stops, number))
                        <==> c.pattern in PatternsOfNumber(stops, number) && c == CandidateFor(texts, stops, row, c.pattern)
  {
    var patterns := PatternsOfNumber(stops, number);
    TripMappingResults.FilterKeepsDistinct((p: string) => RouteOf(stops, p) != [] && RouteOf(stops, p)[0].routeNumber == number, PatternsOf(stops));
    forall c ensures c in Candidates(texts, stops, row, patterns) <==> c.pattern in patterns && c == CandidateFor(texts, stops, row, c.pattern) {
      TripMappingResults.CandidateIsListedIff(texts, stops, row, patterns, c);
    }
  }

  lemma {:induction false} CompetesIff(texts: Texts, stops: seq<RouteStop>, row: Row, number: string, all: map<string, Reading>, p: string)
    requires Scored(texts, stops, row, all) && forall p :: p in all <==> p in PatternsOf(stops)
    ensures Competes(all, number, p) <==> p in PatternsOfNumber(stops, number)
  {
  }

  lemma {:induction false} TallyOf(texts: Texts, stops: seq<RouteStop>, row: Row, number: string, all: map<string, Reading>, c: Candidate)
    requires Scored(texts, stops, row, all) && Competes(all, number, c.pattern) && c == CandidateFor(texts, stops, row, c.pattern)
    ensures c.pattern in FieldOf(all, number)
    ensures var scores := RowScores(texts, stops, row);
            FieldOf(all, number)[c.pattern] == Tally(scores.length(c), scores.spans(c), scores.exact(c), scores.title(c))
  {
    assert EndToEnd(all[c.pattern]) <==> SpansRoute(stops, c);
  }

  lemma {:induction false} RowIsTallied(texts: Texts, stops: seq<RouteStop>, row: Row, number: string, all: map<string, Reading>)
    requires Scored(texts, stops, row, all) && PatternsOfNumber(stops, number) != []
    requires forall p :: p in all <==> p in PatternsOf(stops)
    ensures Tallied(RowScores(texts, stops, row), Candidates(texts, stops, row, PatternsOfNumber(stops, number)), FieldOf(all, number))
  {
    var scores, cs, field := RowScores(texts, stops, row), Candidates(texts, stops, row, PatternsOfNumber(stops, number)), FieldOf(all, number);
    CandidatesOf(texts, stops, row, number);
    forall c | c in cs
      ensures c.pattern in field && field[c.pattern] == Tally(scores.length(c), scores.spans(c), scores.exact(c), scores.title(c))
    {
      CompetesIff(texts, stops, row, number, all, c.pattern);
      TallyOf(texts, stops, row, number, all, c);
    }
    forall p | p in field ensures exists c :: c in cs && c.pattern == p {
      CompetesIff(texts, stops, row, number, all, p);
      var c := CandidateFor(texts, stops, row, p);
      assert c in cs && c.pattern == p;
    }
  }

  /** What becomes of a row with this route number: nobody competes, nobody has two stop times, a
      pattern wins, or none does. */
  ghost predicate Verdict(stops: seq<RouteStop>, target: int, job: Job, number: string, all: map<string, Reading>, outcome: Outcome)
    requires job.RowJob? && job.effectiveFrom.Some?
  {
    var field := FieldOf(all, number);
    && (field == map[] ==>
          outcome == Reported(Issue(RouteUnknown, job.workbook, job.sheet, Some(job.rowNumber), Some(number))))
    && (field != map[] && (forall p :: p in field ==> field[p].times < 2) ==>
          outcome == Reported(Issue(StopTimesInsufficient, job.workbook, job.sheet, Some(job.rowNumber), Some(number))))
    && (forall p :: Wins(field, p) ==>
          p in field && outcome == Mapped(Mapping(job.workbook, job.sheet, job.rowNumber, number, p, all[p].route[0].direction,
                                    job.effectiveFrom.value, target, all[p].times)))
    && ((forall p :: !Wins(field, p)) && (exists p :: p in field && field[p].times >= 2) ==>
          outcome == Reported(Issue(PatternNotUnique, job.workbook, job.sheet, Some(job.rowNumber), Some(number))))
  }

  /** Main result: the outcome of a row is the verdict on how it reads on the patterns. */
  lemma {:induction false} NumberMeans(texts: Texts, stops: seq<RouteStop>, target: int, job: Job, number: string) returns (all: map<string, Reading>)
    requires job.RowJob? && job.effectiveFrom.Some?
    ensures Readings(texts, stops, Row(job.sheet, job.headers, job.values), all)
    ensures Verdict(stops, target, job, number, all, NumberOutcome(texts, stops, target, job, number))
  {
    var row := Row(job.sheet, job.headers, job.values);
    all := ReadPatterns(texts, stops, row, PatternsOf(stops));
    NumberVerdict(texts, stops, target, job, number, all);
  }

  /** What the cascade chooses, said of the field. */
  ghost predicate ChoiceVerdict(all: map<string, Reading>, field: map<string, Tally>, choice: Choice<Candidate>) {
    && field != map[]
    && (choice == Insufficient <==> forall p :: p in field ==> field[p].times < 2)
    && (forall p :: Wins(field, p) ==> p in all && choice == Chosen(Candidate(p, all[p].times)))
    && (choice.Chosen? ==> Wins(field, choice.candidate.pattern))
  }

  lemma {:induction false} ChooseVerdict(scores: Scores<Candidate>, cs: seq<Candidate>, field: map<string, Tally>, all: map<string, Reading>)
    requires Tallied(scores, cs, field)
    requires forall c :: c in cs ==> c.pattern in all && c.times == all[c.pattern].times
    ensures ChoiceVerdict(all, field, Choose(scores, cs))
  {
    ChooseMeans(scores, cs, field);
    assert cs[0] in cs && cs[0].pattern in field;
    forall p | Wins(field, p) ensures p in all && Choose(scores, cs) == Chosen(Candidate(p, all[p].times)) {
      assert Longest(field, p);
      var c :| c in cs && c.pattern == p;
      assert c == Candidate(p, all[p].times);
    }
  }

  lemma {:induction false} ChoiceIsVerdict(texts: Texts, stops: seq<RouteStop>, row: Row, number: string, all: map<string, Reading>)
    requires Scored(texts, stops, row, all) && PatternsOfNumber(stops, number) != []
    requires forall p :: p in all <==> p in PatternsOf(stops)
    ensures ChoiceVerdict(all, FieldOf(all, number), ChoiceOf(texts, stops, row, PatternsOfNumber(stops, number)))
  {
    var cs := Candidates(texts, stops, row, PatternsOfNumber(stops, number));
    RowIsTallied(texts, stops, row, number, all);
    CandidatesOf(texts, stops, row, number);
    forall c | c in cs ensures c.pattern in all && c.times == all[c.pattern].times {
      CompetesIff(texts, stops, row, number, all, c.pattern);
    }
    ChooseVerdict(RowScores(texts, stops, row), cs, FieldOf(all, number), all);
  }

  lemma {:induction false} ChosenVerdict(stops: seq<RouteStop>, target: int, job: Job, number: string, all: map<string, Reading>, choice: Choice<Candidate>)
    requires job.RowJob? && job.effectiveFrom.Some?
    requires ChoiceVerdict(all, FieldOf(all, number), choice) && forall p :: p in all ==> all[p].route == RouteOf(stops, p)
    ensures Verdict(stops, target, job, number, all, ChoiceOutcome(stops, target, job, number, choice))
  {
    var field := FieldOf(all, number);
    forall p | Wins(field, p) ensures p in field {
      assert Longest(field, p);
    }
    if forall p :: p in field ==> field[p].times < 2 {
      forall p ensures !Wins(field, p) {
        assert !Longest(field, p);
      }
    }
  }

  lemma {:induction false} NobodyCompetes(texts: Texts, stops: seq<RouteStop>, row: Row, number: string, all: map<string, Reading>)
    requires Scored(texts, stops, row, all) && PatternsOfNumber(stops, number) == []
    requires forall p :: p in all <==> p in PatternsOf(stops)
    ensures FieldOf(all, number) == map[]
  {
    forall p ensures p !in FieldOf(all, number) {
      CompetesIff(texts, stops, row, number, all, p);
    }
  }

  lemma {:induction false} EmptyVerdict(stops: seq<RouteStop>, target: int, job: Job, number: string, all: map<string, Reading>)
    requires job.RowJob? && job.effectiveFrom.Some? && FieldOf(all, number) == map[]
    ensures Verdict(stops, target, job, number, all, Reported(IssueFor(job, RouteUnknown, Some(number))))
  {
  }

  lemma {:induction false} NumberVerdict(texts: Texts, stops: seq<RouteStop>, target: int, job: Job, number: string, all: map<string, Reading>)
    requires job.RowJob? && job.effectiveFrom.Some?
    requires Scored(texts, stops, RowOf(job), all) && forall p :: p in all <==> p in PatternsOf(stops)
    ensures Verdict(stops, target, job, number, all, NumberOutcome(texts, stops, target, job, number))
  {
    if PatternsOfNumber(stops, number) == [] {
      NobodyCompetes(texts, stops, RowOf(job), number, all);
      EmptyVerdict(stops, target, job, number, all);
    } else {
      var choice := ChoiceOf(texts, stops, RowOf(job), PatternsOfNumber(stops, number));
      ChoiceIsVerdict(texts, stops, RowOf(job), number, all);
      ChosenVerdict(stops, target, job, number, all, choice);
      assert NumberOutcome(texts, stops, target, job, number) == ChoiceOutcome(stops, target, job, number, choice);
    }
  }
}
