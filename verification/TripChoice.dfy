/** Choosing the one route pattern a timetable row belongs to: the most stop times, then the whole
    route, then exactly named stops, then the sheet's title; no stage accepts a tie. */
module TripChoice {
  import opened Common
  import opened Ordering
  import opened TimetableClock

  // ------------------------------------------------------------------ lists, as comprehensions build them

  function Filter<T(!new)>(keep: T -> bool, s: seq<T>): (r: seq<T>)
    ensures forall x :: x in r <==> x in s && keep(x)
  {
    if s == [] then []
    else
      var front := Filter(keep, s[..|s| - 1]);
      assert s == s[..|s| - 1] + [s[|s| - 1]];
      if keep(s[|s| - 1]) then front + [s[|s| - 1]] else front
  }

  function MaxOf<T(!new)>(score: T -> nat, s: seq<T>): (m: nat)
    requires s != []
    ensures forall x :: x in s ==> score(x) <= m
  {
    var last := score(s[|s| - 1]);
    if |s| == 1 then last
    else
      assert s == s[..|s| - 1] + [s[|s| - 1]];
      var front := MaxOf(score, s[..|s| - 1]);
      if last > front then last else front
  }

  lemma {:induction false} MaxIsReached<T(!new)>(score: T -> nat, s: seq<T>) returns (x: T)
    requires s != []
    ensures x in s && score(x) == MaxOf(score, s)
  {
    x := s[|s| - 1];
    if |s| > 1 {
      var y := MaxIsReached(score, s[..|s| - 1]);
      x := if score(x) > score(y) then x else y;
    }
  }

  /** Those with the highest score. */
  function Best<T(!new)>(score: T -> nat, s: seq<T>): (r: seq<T>)
    requires s != []
    ensures forall x :: x in r <==> x in s && score(x) == MaxOf(score, s)
    ensures r != []
  {
    var max := MaxOf(score, s);
    var r := Filter(x => score(x) == max, s);
    assert r != [] by {
      var x := MaxIsReached(score, s);
      assert x in r;
    }
    r
  }

  lemma {:induction false} FilterCounts<T(!new)>(keep: T -> bool, s: seq<T>, x: T)
    ensures multiset(Filter(keep, s))[x] == if keep(x) then multiset(s)[x] else 0
  {
    if s != [] {
      var front, last := s[..|s| - 1], s[|s| - 1];
      assert s == front + [last];
      FilterCounts(keep, front, x);
    }
  }

  lemma {:induction false} FilterPermutes<T(!new)>(keep: T -> bool, a: seq<T>, b: seq<T>)
    requires multiset(a) == multiset(b)
    ensures multiset(Filter(keep, a)) == multiset(Filter(keep, b))
  {
    forall x ensures multiset(Filter(keep, a))[x] == multiset(Filter(keep, b))[x] {
      FilterCounts(keep, a, x);
      FilterCounts(keep, b, x);
    }
  }

  lemma {:induction false} SameMembers<T>(a: seq<T>, b: seq<T>)
    requires multiset(a) == multiset(b)
    ensures |a| == |b| && forall x :: x in a <==> x in b
  {
    assert |a| == |multiset(a)| && |b| == |multiset(b)|;
    forall x ensures x in a <==> x in b {
      assert x in multiset(a) <==> x in multiset(b);
    }
  }

  lemma {:induction false} BestPermutes<T(!new)>(score: T -> nat, a: seq<T>, b: seq<T>)
    requires multiset(a) == multiset(b) && a != []
    ensures b != [] && MaxOf(score, a) == MaxOf(score, b)
    ensures multiset(Best(score, a)) == multiset(Best(score, b))
  {
    SameMembers(a, b);
    var x := MaxIsReached(score, a);
    var y := MaxIsReached(score, b);
    assert score(x) <= MaxOf(score, b) && score(y) <= MaxOf(score, a);
    FilterPermutes(z => score(z) == MaxOf(score, a), a, b);
  }

  lemma {:induction false} SingleIsSame<T>(a: seq<T>, b: seq<T>)
    requires multiset(a) == multiset(b) && |a| == 1
    ensures a == b
  {
    SameMembers(a, b);
    assert a[0] in b;
  }

  // ------------------------------------------------------------------ the cascade

  datatype Choice<C> = Insufficient | NotUnique | Chosen(candidate: C)

  /** What the stages compare: stop times, whole-route runs, exactly named stops, title waypoints. */
  datatype Scores<!C> = Scores(length: C -> nat, spans: C -> bool, exact: C -> nat, title: C -> nat)

  /** The candidate that runs the whole route, if there is exactly one, else the one with most
      exactly named stops, if that is unique and there are any; else all of them. */
  function ByRoute<C(!new)>(scores: Scores<C>, best: seq<C>): (r: seq<C>)
    requires best != []
    ensures r != [] && forall c :: c in r ==> c in best
  {
    var full := Filter(scores.spans, best);
    if |full| == 1 then full
    else
      var named := Best(scores.exact, best);
      if MaxOf(scores.exact, best) > 0 && |named| == 1 then named else best
  }

  function ByTitle<C(!new)>(scores: Scores<C>, best: seq<C>): (r: Choice<C>)
    requires best != []
    ensures r.Chosen? ==> r.candidate in best
  {
    var titled := Best(scores.title, best);
    if MaxOf(scores.title, best) >= 2 && |titled| == 1 then assert titled[0] in titled; Chosen(titled[0]) else NotUnique
  }

  function Choose<C(!new)>(scores: Scores<C>, candidates: seq<C>): Choice<C>
    requires candidates != []
  {
    var best := Best(scores.length, candidates);
    if MaxOf(scores.length, candidates) < 2 then Insufficient
    else if |best| == 1 then Chosen(best[0])
    else
      var narrowed := ByRoute(scores, best);
      if |narrowed| == 1 then Chosen(narrowed[0]) else ByTitle(scores, narrowed)
  }

  /** Whatever is chosen is a candidate with the most stop times, at least two. */
  lemma {:induction false} ChosenIsLongest<C(!new)>(scores: Scores<C>, candidates: seq<C>)
    requires candidates != [] && Choose(scores, candidates).Chosen?
    ensures var c := Choose(scores, candidates).candidate;
            c in candidates && scores.length(c) >= 2 && forall d :: d in candidates ==> scores.length(d) <= scores.length(c)
  {
    var best := Best(scores.length, candidates);
    assert best[0] in best;
    if |best| != 1 {
      var narrowed := ByRoute(scores, best);
      assert narrowed[0] in narrowed;
    }
  }

  lemma {:induction false} ByRoutePermutes<C(!new)>(scores: Scores<C>, a: seq<C>, b: seq<C>)
    requires multiset(a) == multiset(b) && a != [] && b != []
    ensures multiset(ByRoute(scores, a)) == multiset(ByRoute(scores, b))
  {
    FilterPermutes(scores.spans, a, b);
    SameMembers(Filter(scores.spans, a), Filter(scores.spans, b));
    BestPermutes(scores.exact, a, b);
    SameMembers(Best(scores.exact, a), Best(scores.exact, b));
  }

  lemma {:induction false} ByTitlePermutes<C(!new)>(scores: Scores<C>, a: seq<C>, b: seq<C>)
    requires multiset(a) == multiset(b) && a != [] && b != []
    ensures ByTitle(scores, a) == ByTitle(scores, b)
  {
    BestPermutes(scores.title, a, b);
    SameMembers(Best(scores.title, a), Best(scores.title, b));
    if |Best(scores.title, a)| == 1 {
      SingleIsSame(Best(scores.title, a), Best(scores.title, b));
    }
  }

  /** The choice does not depend on the order of the candidates. */
  lemma {:induction false} ChoicePermutes<C(!new)>(scores: Scores<C>, a: seq<C>, b: seq<C>)
    requires multiset(a) == multiset(b) && a != [] && b != []
    ensures Choose(scores, a) == Choose(scores, b)
  {
    BestPermutes(scores.length, a, b);
    var x, y := Best(scores.length, a), Best(scores.length, b);
    SameMembers(x, y);
    if |x| == 1 {
      SingleIsSame(x, y);
    } else {
      ByRoutePermutes(scores, x, y);
      var p, r := ByRoute(scores, x), ByRoute(scores, y);
      SameMembers(p, r);
      if |p| == 1 {
        SingleIsSame(p, r);
      } else {
        ByTitlePermutes(scores, p, r);
      }
    }
  }

  // ------------------------------------------------------------------ routes and candidates

  predicate SequenceLess(a: RouteStop, b: RouteStop) {
    a.sequence < b.sequence
  }

  /** The stops of one pattern in route order. */
  function RouteOf(stops: seq<RouteStop>, pattern: string): seq<RouteStop> {
    Sort(SequenceLess, Filter((s: RouteStop) => s.pattern == pattern, stops))
  }

  /** The patterns in the order the grouping meets them. */
  function PatternsOf(stops: seq<RouteStop>): (r: seq<string>)
    ensures forall p :: p in r <==> exists s :: s in stops && s.pattern == p
    ensures Distinct(r)
  {
    if stops == [] then []
    else
      assert stops == stops[..|stops| - 1] + [stops[|stops| - 1]];
      var front, last := PatternsOf(stops[..|stops| - 1]), stops[|stops| - 1];
      if last.pattern in front then front else front + [last.pattern]
  }

  /** The patterns whose first stop carries this route number. */
  function PatternsOfNumber(stops: seq<RouteStop>, number: string): seq<string> {
    Filter((p: string) => RouteOf(stops, p) != [] && RouteOf(stops, p)[0].routeNumber == number, PatternsOf(stops))
  }

  datatype Candidate = Candidate(pattern: string, times: seq<StopTime>)

  /** One row of the workbook under its sheet's header. */
  datatype Row = Row(sheet: string, headers: seq<string>, values: seq<string>)

  function CandidateFor(texts: Texts, stops: seq<RouteStop>, row: Row, pattern: string): Candidate {
    Candidate(pattern, StopTimes(texts, RouteOf(stops, pattern), row.headers, row.values))
  }

  function Candidates(texts: Texts, stops: seq<RouteStop>, row: Row, patterns: seq<string>): (r: seq<Candidate>)
    ensures |r| == |patterns|
    ensures forall i :: 0 <= i < |r| ==> r[i] == CandidateFor(texts, stops, row, patterns[i])
  {
    seq(|patterns|, i requires 0 <= i < |patterns| => CandidateFor(texts, stops, row, patterns[i]))
  }

  predicate SpansRoute(stops: seq<RouteStop>, c: Candidate) {
    var route := RouteOf(stops, c.pattern);
    route != [] && c.times != []
    && c.times[0].routeSequence == route[0].sequence && c.times[|c.times| - 1].routeSequence == route[|route| - 1].sequence
  }

  function ExactNames(texts: Texts, stops: seq<RouteStop>, row: Row, pattern: string): nat {
    |Filter((c: Checkpoint) => c.exact, Checkpoints(texts, RouteOf(stops, pattern), row.headers, row.values, |row.values|))|
  }

  /** How many of the title's waypoints name exactly one stop further along the route, and the
      sequence of the last one. */
  function TitleStops(texts: Texts, route: seq<RouteStop>, tokens: seq<string>, n: nat): (nat, int)
    requires n <= |tokens|
  {
    if n == 0 then (0, 0)
    else
      var before := TitleStops(texts, route, tokens, n - 1);
      var found := Matches(texts, route, tokens[n - 1], before.1);
      if |found| == 1 then (before.0 + 1, found[0].sequence) else before
  }

  function TitleScore(texts: Texts, stops: seq<RouteStop>, row: Row, pattern: string): nat {
    var tokens := texts.titleTokens(row.sheet);
    TitleStops(texts, RouteOf(stops, pattern), tokens, |tokens|).0
  }

  function RowScores(texts: Texts, stops: seq<RouteStop>, row: Row): Scores<Candidate> {
    Scores(
      (c: Candidate) => |c.times|,
      (c: Candidate) => SpansRoute(stops, c),
      (c: Candidate) => ExactNames(texts, stops, row, c.pattern),
      (c: Candidate) => TitleScore(texts, stops, row, c.pattern))
  }
}
