/** The mapping does not depend on the order of the route stops, and it answers for every row. */
module TripMappingResults {
  import opened Common
  import opened Ordering
  import opened TimetableClock
  import opened TripChoice
  import opened TripMapping

  // ------------------------------------------------------------------ scores that agree choose alike

  lemma {:induction false} FilterAgrees<T(!new)>(keep: T -> bool, other: T -> bool, s: seq<T>)
    requires forall x :: x in s ==> keep(x) == other(x)
    ensures Filter(keep, s) == Filter(other, s)
  {
    if s != [] {
      assert s == s[..|s| - 1] + [s[|s| - 1]];
      FilterAgrees(keep, other, s[..|s| - 1]);
    }
  }

  lemma {:induction false} MaxAgrees<T(!new)>(score: T -> nat, other: T -> nat, s: seq<T>)
    requires s != [] && forall x :: x in s ==> score(x) == other(x)
    ensures MaxOf(score, s) == MaxOf(other, s)
  {
    if |s| > 1 {
      MaxAgrees(score, other, s[..|s| - 1]);
    }
  }

  lemma {:induction false} BestAgrees<T(!new)>(score: T -> nat, other: T -> nat, s: seq<T>)
    requires s != [] && forall x :: x in s ==> score(x) == other(x)
    ensures MaxOf(score, s) == MaxOf(other, s) && Best(score, s) == Best(other, s)
  {
    MaxAgrees(score, other, s);
    var max := MaxOf(score, s);
    FilterAgrees(x => score(x) == max, x => other(x) == max, s);
  }

  ghost predicate SameScores<C(!new)>(a: Scores<C>, b: Scores<C>) {
    forall c :: a.length(c) == b.length(c) && a.spans(c) == b.spans(c) && a.exact(c) == b.exact(c) && a.title(c) == b.title(c)
  }

  lemma {:induction false} ChoiceAgrees<C(!new)>(a: Scores<C>, b: Scores<C>, candidates: seq<C>)
    requires candidates != [] && SameScores(a, b)
    ensures Choose(a, candidates) == Choose(b, candidates)
  {
    BestAgrees(a.length, b.length, candidates);
    var best := Best(a.length, candidates);
    FilterAgrees(a.spans, b.spans, best);
    BestAgrees(a.exact, b.exact, best);
    assert ByRoute(a, best) == ByRoute(b, best);
    BestAgrees(a.title, b.title, ByRoute(a, best));
  }

  // ------------------------------------------------------------------ the order of the route stops

  /** No two stops of a pattern share a sequence. */
  ghost predicate UniqueSequences(stops: seq<RouteStop>) {
    forall s, t :: s in stops && t in stops && s.pattern == t.pattern && s.sequence == t.sequence ==> s == t
  }

  lemma {:induction false} RouteOfPermutes(a: seq<RouteStop>, b: seq<RouteStop>, pattern: string)
    requires multiset(a) == multiset(b) && UniqueSequences(a)
    ensures RouteOf(a, pattern) == RouteOf(b, pattern)
  {
    var onRoute := (s: RouteStop) => s.pattern == pattern;
    FilterPermutes(onRoute, a, b);
    var x, y := Filter(onRoute, a), Filter(onRoute, b);
    assert StrictOrder(SequenceLess);
    SortSorts(SequenceLess, x);
    SortSorts(SequenceLess, y);
    assert Separates(SequenceLess, multiset(Sort(SequenceLess, x))) by {
      forall s, t | s in multiset(x) && t in multiset(x) && s != t ensures SequenceLess(s, t) || SequenceLess(t, s) {
        assert s in x && t in x;
      }
    }
    SortedUnique(SequenceLess, Sort(SequenceLess, x), Sort(SequenceLess, y));
  }

  lemma {:induction false} FilterKeepsDistinct<T(!new)>(keep: T -> bool, s: seq<T>)
    requires Distinct(s)
    ensures Distinct(Filter(keep, s))
  {
    if s != [] {
      var front, last := s[..|s| - 1], s[|s| - 1];
      FilterKeepsDistinct(keep, front);
      assert last !in Filter(keep, front);
    }
  }

  lemma {:induction false} PatternsOfNumberPermutes(a: seq<RouteStop>, b: seq<RouteStop>, number: string)
    requires multiset(a) == multiset(b) && UniqueSequences(a)
    ensures multiset(PatternsOfNumber(a, number)) == multiset(PatternsOfNumber(b, number))
    ensures Distinct(PatternsOfNumber(a, number)) && Distinct(PatternsOfNumber(b, number))
  {
    SameMembers(a, b);
    forall p ensures p in PatternsOfNumber(a, number) <==> p in PatternsOfNumber(b, number) {
      RouteOfPermutes(a, b, p);
    }
    FilterKeepsDistinct((p: string) => RouteOf(a, p) != [] && RouteOf(a, p)[0].routeNumber == number, PatternsOf(a));
    FilterKeepsDistinct((p: string) => RouteOf(b, p) != [] && RouteOf(b, p)[0].routeNumber == number, PatternsOf(b));
    DistinctPermutes(PatternsOfNumber(a, number), PatternsOfNumber(b, number));
  }

  lemma {:induction false} CandidateIsListedIff(texts: Texts, stops: seq<RouteStop>, row: Row, patterns: seq<string>, c: Candidate)
    ensures c in Candidates(texts, stops, row, patterns) <==> c.pattern in patterns && c == CandidateFor(texts, stops, row, c.pattern)
  {
    if c.pattern in patterns && c == CandidateFor(texts, stops, row, c.pattern) {
      var i :| 0 <= i < |patterns| && patterns[i] == c.pattern;
      assert Candidates(texts, stops, row, patterns)[i] == c;
    }
  }

  lemma {:induction false} CandidatesPermute(texts: Texts, a: seq<RouteStop>, b: seq<RouteStop>, row: Row, p: seq<string>, r: seq<string>)
    requires multiset(a) == multiset(b) && UniqueSequences(a)
    requires Distinct(p) && Distinct(r) && multiset(p) == multiset(r)
    ensures multiset(Candidates(texts, a, row, p)) == multiset(Candidates(texts, b, row, r))
  {
    SameMembers(p, r);
    var x, y := Candidates(texts, a, row, p), Candidates(texts, b, row, r);
    forall c ensures c in x <==> c in y {
      CandidateIsListedIff(texts, a, row, p, c);
      CandidateIsListedIff(texts, b, row, r, c);
      RouteOfPermutes(a, b, c.pattern);
    }
    DistinctPermutes(x, y);
  }

  lemma {:induction false} ScoresPermute(texts: Texts, a: seq<RouteStop>, b: seq<RouteStop>, row: Row)
    requires multiset(a) == multiset(b) && UniqueSequences(a)
    ensures SameScores(RowScores(texts, a, row), RowScores(texts, b, row))
  {
    var x, y := RowScores(texts, a, row), RowScores(texts, b, row);
    forall c: Candidate
      ensures x.length(c) == y.length(c) && x.spans(c) == y.spans(c) && x.exact(c) == y.exact(c) && x.title(c) == y.title(c)
    {
      RouteOfPermutes(a, b, c.pattern);
    }
  }

  lemma {:induction false} ChoiceIgnoresStopOrder(texts: Texts, a: seq<RouteStop>, b: seq<RouteStop>, row: Row, p: seq<string>, r: seq<string>)
    requires multiset(a) == multiset(b) && UniqueSequences(a)
    requires Distinct(p) && Distinct(r) && multiset(p) == multiset(r) && p != [] && r != []
    ensures Choose(RowScores(texts, a, row), Candidates(texts, a, row, p)) == Choose(RowScores(texts, b, row), Candidates(texts, b, row, r))
  {
    CandidatesPermute(texts, a, b, row, p, r);
    ScoresPermute(texts, a, b, row);
    var x, y := Candidates(texts, a, row, p), Candidates(texts, b, row, r);
    ChoicePermutes(RowScores(texts, a, row), x, y);
    ChoiceAgrees(RowScores(texts, a, row), RowScores(texts, b, row), y);
  }

  lemma {:induction false} ChoiceOutcomeIgnoresStopOrder(a: seq<RouteStop>, b: seq<RouteStop>, target: int, job: Job, number: string, choice: Choice<Candidate>)
    requires multiset(a) == multiset(b) && UniqueSequences(a)
    requires job.RowJob? && job.effectiveFrom.Some?
    ensures ChoiceOutcome(a, target, job, number, choice) == ChoiceOutcome(b, target, job, number, choice)
  {
    if choice.Chosen? {
      RouteOfPermutes(a, b, choice.candidate.pattern);
    }
  }

  lemma {:induction false} DecisionIgnoresStopOrder(texts: Texts, a: seq<RouteStop>, b: seq<RouteStop>, target: int, job: Job, number: string)
    requires multiset(a) == multiset(b) && UniqueSequences(a)
    requires job.RowJob? && job.effectiveFrom.Some?
    ensures NumberOutcome(texts, a, target, job, number) == NumberOutcome(texts, b, target, job, number)
  {
    PatternsOfNumberPermutes(a, b, number);
    var p, r := PatternsOfNumber(a, number), PatternsOfNumber(b, number);
    SameMembers(p, r);
    if p != [] {
      ChoiceIgnoresStopOrder(texts, a, b, RowOf(job), p, r);
      ChoiceOutcomeIgnoresStopOrder(a, b, target, job, number, ChoiceOf(texts, a, RowOf(job), p));
    }
  }

  lemma {:induction false} OutcomeIgnoresStopOrder(texts: Texts, a: seq<RouteStop>, b: seq<RouteStop>, target: int, job: Job)
    requires multiset(a) == multiset(b) && UniqueSequences(a)
    ensures Decision(texts, a, target, job) == Decision(texts, b, target, job)
  {
    if Compared(texts, target, job) {
      DecisionIgnoresStopOrder(texts, a, b, target, job, RouteNumber(texts, job).value);
    }
  }

  lemma {:induction false} FoldAgrees<J(!new), S(!new)>(step: (J, S) -> S, other: (J, S) -> S, start: S, jobs: seq<J>)
    requires forall j, s :: step(j, s) == other(j, s)
    ensures Fold(step, start, jobs) == Fold(other, start, jobs)
  {
    if jobs != [] {
      FoldAgrees(step, other, start, jobs[..|jobs| - 1]);
    }
  }

  lemma {:induction false} StepAgrees(rules: Rules, other: Rules, job: Job, s: State)
    requires rules.outcome(job, s.seen) == other.outcome(job, s.seen) && rules.identity(job) == other.identity(job)
    ensures StepOf(rules)(job, s) == StepOf(other)(job, s)
  {
  }

  /** The trips and the reports are the same for every order of the route stops. */
  lemma {:induction false} MappingIgnoresStopOrder(texts: Texts, books: seq<Workbook>, a: seq<RouteStop>, b: seq<RouteStop>, target: int)
    requires multiset(a) == multiset(b) && UniqueSequences(a)
    ensures MapTrips(texts, books, a, target) == MapTrips(texts, books, b, target)
  {
    var rules, other := RulesOf(texts, a, target), RulesOf(texts, b, target);
    forall job, s ensures StepOf(rules)(job, s) == StepOf(other)(job, s) {
      OutcomeIgnoresStopOrder(texts, a, b, target, job);
      StepAgrees(rules, other, job, s);
    }
    FoldAgrees(StepOf(rules), StepOf(other), EMPTY, AllJobs(texts, books));
  }
}
