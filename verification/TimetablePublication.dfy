/** End to end: whatever the mapping accepts becomes a manifest, a bundle and a valid publication
    without losing a trip, exactly when no trip passes midnight more than twice. */
module TimetablePublication {
  import opened Common
  import opened Decimals
  import opened Ordering
  import opened TimetableClock
  import opened TripChoice
  import opened TripMapping
  import opened TripMappingResults
  import opened TripAccounting
  import opened TimetableBundle
  import opened TimetableValidation

  // ------------------------------------------------------------------ what a mapped trip is

  /** The trip's stop times are those of this row on its route, and its dates include the target. */
  ghost predicate FromRow(texts: Texts, stops: seq<RouteStop>, target: int, m: Mapping, headers: seq<string>, values: seq<string>) {
    var route := RouteOf(stops, m.pattern);
    && route != [] && m.direction == route[0].direction
    && m.stopTimes == StopTimes(texts, route, headers, values) && |m.stopTimes| >= 2
    && m.effectiveFrom <= target == m.effectiveTo
  }

  /** The trip was read from this row of a workbook. */
  ghost predicate ReadFrom(texts: Texts, stops: seq<RouteStop>, target: int, m: Mapping, job: Job) {
    && job.RowJob? && m.workbook == job.workbook && m.sheet == job.sheet && m.rowNumber == job.rowNumber
    && FromRow(texts, stops, target, m, job.headers, job.values)
  }

  lemma {:induction false} ChosenFromRow(texts: Texts, stops: seq<RouteStop>, target: int, job: Job, number: string, c: Candidate)
    requires job.RowJob? && job.effectiveFrom.Some? && job.effectiveFrom.value <= target
    requires c == CandidateFor(texts, stops, RowOf(job), c.pattern) && |c.times| >= 2 && RouteOf(stops, c.pattern) != []
    ensures ReadFrom(texts, stops, target, ChoiceOutcome(stops, target, job, number, Chosen(c)).mapping, job)
  {
    assert FromRow(texts, stops, target, ChoiceOutcome(stops, target, job, number, Chosen(c)).mapping, job.headers, job.values);
  }

  lemma {:induction false} ChoiceIsOnRoute(texts: Texts, stops: seq<RouteStop>, row: Row, number: string)
    requires PatternsOfNumber(stops, number) != [] && ChoiceOf(texts, stops, row, PatternsOfNumber(stops, number)).Chosen?
    ensures var c := ChoiceOf(texts, stops, row, PatternsOfNumber(stops, number)).candidate;
            c == CandidateFor(texts, stops, row, c.pattern) && |c.times| >= 2 && RouteOf(stops, c.pattern) != []
  {
    var patterns := PatternsOfNumber(stops, number);
    var c := ChoiceOf(texts, stops, row, patterns).candidate;
    ChosenIsLongest(RowScores(texts, stops, row), Candidates(texts, stops, row, patterns));
    CandidateIsListedIff(texts, stops, row, patterns, c);
  }

  lemma {:induction false} ChoiceIsRead(texts: Texts, stops: seq<RouteStop>, target: int, job: Job, number: string, choice: Choice<Candidate>)
    requires job.RowJob? && job.effectiveFrom.Some? && job.effectiveFrom.value <= target
    requires PatternsOfNumber(stops, number) != [] && choice == ChoiceOf(texts, stops, RowOf(job), PatternsOfNumber(stops, number))
    requires choice.Chosen?
    ensures ReadFrom(texts, stops, target, ChoiceOutcome(stops, target, job, number, choice).mapping, job)
  {
    ChoiceIsOnRoute(texts, stops, RowOf(job), number);
    ChosenFromRow(texts, stops, target, job, number, choice.candidate);
  }

  lemma {:induction false} NumberIsRead(texts: Texts, stops: seq<RouteStop>, target: int, job: Job, number: string, m: Mapping)
    requires job.RowJob? && job.effectiveFrom.Some? && job.effectiveFrom.value <= target
    requires NumberOutcome(texts, stops, target, job, number) == Mapped(m)
    ensures ReadFrom(texts, stops, target, m, job)
  {
    ChoiceIsRead(texts, stops, target, job, number, ChoiceOf(texts, stops, RowOf(job), PatternsOfNumber(stops, number)));
  }

  lemma {:induction false} AnsweredIsMapped(texts: Texts, target: int, job: Job, seen: set<Identity>, decision: Outcome, m: Mapping)
    requires Answered(texts, target, job, seen, decision) == Mapped(m)
    ensures Compared(texts, target, job) && decision == Mapped(m) && job.effectiveFrom.Some? && job.effectiveFrom.value <= target
  {
  }

  lemma {:induction false} DecisionIsRead(texts: Texts, stops: seq<RouteStop>, target: int, job: Job, m: Mapping)
    requires Compared(texts, target, job) && job.effectiveFrom.Some? && job.effectiveFrom.value <= target
    requires Decision(texts, stops, target, job) == Mapped(m)
    ensures ReadFrom(texts, stops, target, m, job)
  {
    var number := RouteNumber(texts, job).value;
    assert Decision(texts, stops, target, job) == NumberOutcome(texts, stops, target, job, number);
    NumberIsRead(texts, stops, target, job, number, m);
  }

  lemma {:induction false} OutcomeIsRead(texts: Texts, stops: seq<RouteStop>, target: int, job: Job, seen: set<Identity>, m: Mapping)
    requires OutcomeOf(texts, stops, target, job, seen) == Mapped(m)
    ensures ReadFrom(texts, stops, target, m, job)
  {
    AnsweredIsMapped(texts, target, job, seen, Decision(texts, stops, target, job), m);
    DecisionIsRead(texts, stops, target, job, m);
  }

  lemma {:induction false} MappingsCome(rules: Rules, jobs: seq<Job>, n: nat, m: Mapping) returns (job: Job, seen: set<Identity>)
    requires n <= |jobs| && m in After(rules, jobs, n).mappings
    ensures job in jobs && rules.outcome(job, seen) == Mapped(m)
  {
    var before := After(rules, jobs, n - 1);
    if m in before.mappings {
      job, seen := MappingsCome(rules, jobs, n - 1, m);
    } else {
      job, seen := jobs[n - 1], before.seen;
    }
  }

  lemma {:induction false} MappedIsRead(texts: Texts, books: seq<Workbook>, stops: seq<RouteStop>, target: int, result: State, m: Mapping)
    returns (job: Job)
    requires MapTrips(texts, books, stops, target) == Ok(result) && m in result.mappings
    ensures job in AllJobs(texts, books) && ReadFrom(texts, stops, target, m, job)
  {
    var rules, jobs := RulesOf(texts, stops, target), AllJobs(texts, books);
    AfterIsFold(rules, jobs, |jobs|);
    assert jobs[..|jobs|] == jobs;
    var seen;
    job, seen := MappingsCome(rules, jobs, |jobs|, m);
    OutcomeIsRead(texts, stops, target, job, seen, m);
  }

  // ------------------------------------------------------------------ passing midnight

  /** How often the clocks of a row go back. */
  function Drops(clocks: seq<Clock>): nat {
    if |clocks| <= 1 then 0
    else Drops(clocks[..|clocks| - 1]) + if clocks[|clocks| - 1].OfDay() < clocks[|clocks| - 2].OfDay() then 1 else 0
  }

  lemma {:induction false} LastDayIsDrops(clocks: seq<Clock>)
    requires clocks != []
    ensures TimeOf(clocks, |clocks| - 1) / DAY == Drops(clocks)
  {
    var n := |clocks| - 1;
    TimesLift(clocks);
    if n == 0 {
      SameDay(0, clocks[0].OfDay());
    } else {
      var front := clocks[..n];
      LastDayIsDrops(front);
      TimesLift(front);
      TimeAt(clocks, n);
      TimesOfPrefix(clocks, n);
      var previous := Times(front)[n - 1];
      NextDay(previous, clocks[n]);
      assert previous == previous / DAY * DAY + front[n - 1].OfDay();
    }
  }

  /** Every printed clock of a row is read back exactly when the row goes back at most twice. */
  lemma {:induction false} ReadableIff(selected: seq<Checkpoint>)
    ensures (forall i :: 0 <= i < |selected| ==> ServiceTime(Timed(selected)[i].arrival).Some?) <==> Drops(ClocksOf(selected)) <= 2
  {
    var clocks := ClocksOf(selected);
    TimesLift(clocks);
    forall i | 0 <= i < |selected| ensures ServiceTime(Timed(selected)[i].arrival).Some? <==> TimeOf(clocks, i) / DAY <= 2 {
      PrintedReadsBackIff(TimeOf(clocks, i));
    }
    if clocks != [] {
      LastDayIsDrops(clocks);
      forall i | 0 <= i < |selected| ensures TimeOf(clocks, i) / DAY <= TimeOf(clocks, |clocks| - 1) / DAY {
        assert Times(clocks)[i] <= Times(clocks)[|clocks| - 1];
      }
    }
  }

  // ------------------------------------------------------------------ trip ids

  lemma {:induction false} DashSeparates(a: string, p: string, b: string, r: string)
    requires a + "-" + p == b + "-" + r && AllDigits(p) && AllDigits(r)
    ensures p == r
  {
    var s := a + "-" + p;
    assert s[|s| - |p|..] == p && s[|s| - |r|..] == r;
    assert s[|a|] == '-' && s[|b|] == '-';
  }

  /** Trip ids of different positions differ, whatever the route numbers look like. */
  lemma {:induction false} TripIdsDiffer(dates: Dates, m: Mapping, i: nat, n: Mapping, j: nat)
    requires TripId(dates, m, i) == TripId(dates, n, j)
    ensures i == j
  {
    var a, b := "weekday-" + dates.compact(m.effectiveTo) + "-" + m.routeNumber, "weekday-" + dates.compact(n.effectiveTo) + "-" + n.routeNumber;
    DashSeparates(a, Padded(i, 5), b, Padded(j, 5));
    PaddedReadsBack(i, 5);
    PaddedReadsBack(j, 5);
  }
}
