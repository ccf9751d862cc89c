/** Mapping the rows of the official workbooks to route patterns: which rows become trips, which
    are reported and why, and which repeat an earlier row. */
module TripMapping {
  import opened Common
  import opened Ordering
  import opened TimetableClock
  import opened TripChoice

  // ------------------------------------------------------------------ workbooks as lists of rows

  const HEADER_ROW := 7
  const FIRST_DATA_ROW := 8

  datatype CellRow = CellRow(sheet: string, rowNumber: int, values: seq<string>)

  datatype Workbook = Workbook(name: string, rows: seq<CellRow>)

  type Table = map<int, seq<string>>

  predicate TextLess(a: string, b: string) {
    if b == "" then false
    else if a == "" then true
    else a[0] < b[0] || (a[0] == b[0] && TextLess(a[1..], b[1..]))
  }

  /** The rows of one sheet by number; a later row replaces an earlier one with its number. */
  function TableOf(rows: seq<CellRow>, sheet: string): Table {
    if rows == [] then map[]
    else
      var before, last := TableOf(rows[..|rows| - 1], sheet), rows[|rows| - 1];
      if last.sheet == sheet then before[last.rowNumber := last.values] else before
  }

  function SheetsOf(rows: seq<CellRow>): (r: seq<string>)
    ensures Distinct(r)
  {
    if rows == [] then []
    else
      var before, last := SheetsOf(rows[..|rows| - 1]), rows[|rows| - 1];
      if last.sheet in before then before else before + [last.sheet]
  }

  /** The row numbers of one sheet, in the order its table received them. */
  function NumbersOf(rows: seq<CellRow>, sheet: string): (r: seq<int>)
    ensures Distinct(r) && forall k :: k in r <==> k in TableOf(rows, sheet)
  {
    if rows == [] then []
    else
      var before, last := NumbersOf(rows[..|rows| - 1], sheet), rows[|rows| - 1];
      if last.sheet != sheet || last.rowNumber in before then before else before + [last.rowNumber]
  }

  // ------------------------------------------------------------------ one row at a time

  datatype Reason =
    | HeaderMissing | NonWeekday | EffectiveDateMissing | BeforeEffectiveFrom | OnDemand | MultipleClocks
    | RouteNumberMissing | RouteUnknown | StopTimesInsufficient | PatternNotUnique

  datatype Issue = Issue(reason: Reason, workbook: string, sheet: string, rowNumber: Option<int>, routeNumber: Option<string>)

  datatype Mapping = Mapping(workbook: string, sheet: string, rowNumber: int, routeNumber: string, pattern: string,
                             direction: string, effectiveFrom: int, effectiveTo: int, stopTimes: seq<StopTime>)

  /** What a loop over the workbooks meets: a sheet without a header, or a row under one. */
  datatype Job =
    | Headless(workbook: string, sheet: string)
    | RowJob(workbook: string, sheet: string, rowNumber: int, headers: seq<string>, values: seq<string>, effectiveFrom: Option<int>)

  datatype Identity = Identity(workbook: string, routeNumber: string, headers: seq<string>, values: seq<string>)

  datatype Outcome = Ignored | Repeated | Reported(issue: Issue) | Mapped(mapping: Mapping)

  function ClockTotal(texts: Texts, values: seq<string>): nat {
    if values == [] then 0 else ClockTotal(texts, values[..|values| - 1]) + texts.clocks(values[|values| - 1])
  }

  /** A data row with at least two clocks: the rows the mapping answers for. */
  predicate IsTripRow(texts: Texts, job: Job) {
    job.RowJob? && job.rowNumber >= FIRST_DATA_ROW && ClockTotal(texts, job.values) >= 2
  }

  function RouteColumn(texts: Texts, headers: seq<string>): (i: nat)
    ensures i <= |headers| && (i < |headers| ==> texts.routeHeader(headers[i]))
    ensures forall k :: 0 <= k < i ==> !texts.routeHeader(headers[k])
  {
    if headers == [] then 0
    else if texts.routeHeader(headers[0]) then 0
    else 1 + RouteColumn(texts, headers[1..])
  }

  /** The number in the route column, or else the one the sheet's title starts with. */
  function RouteNumber(texts: Texts, job: Job): Option<string>
    requires job.RowJob?
  {
    var column := RouteColumn(texts, job.headers);
    if column < |job.headers| && column < |job.values| && texts.routeIn(job.values[column]).Some? then texts.routeIn(job.values[column])
    else texts.routeOf(job.sheet)
  }

  /** The first check that reports the row before its route is looked at. */
  function EarlyReason(texts: Texts, target: int, job: Job): Option<Reason>
    requires job.RowJob?
  {
    if texts.holiday(job.sheet) then Some(NonWeekday)
    else if job.effectiveFrom.None? then Some(EffectiveDateMissing)
    else if job.effectiveFrom.value > target then Some(BeforeEffectiveFrom)
    else if exists v :: v in job.values && texts.onDemand(v) then Some(OnDemand)
    else if exists v :: v in job.values && texts.clocks(v) > 1 then Some(MultipleClocks)
    else if RouteNumber(texts, job).None? then Some(RouteNumberMissing)
    else None
  }

  function IdentityOf(texts: Texts, job: Job): Identity
    requires job.RowJob? && RouteNumber(texts, job).Some?
  {
    Identity(job.workbook, RouteNumber(texts, job).value, job.headers, if job.values == [] then [] else job.values[1..])
  }

  function RowOf(job: Job): Row
    requires job.RowJob?
  {
    Row(job.sheet, job.headers, job.values)
  }

  function IssueFor(job: Job, reason: Reason, routeNumber: Option<string>): Issue {
    Issue(reason, job.workbook, job.sheet, if job.RowJob? then Some(job.rowNumber) else None, routeNumber)
  }

  /** The trip of a chosen candidate, or the report when the cascade found none or several. */
  function ChoiceOutcome(stops: seq<RouteStop>, target: int, job: Job, number: string, choice: Choice<Candidate>): (r: Outcome)
    requires job.RowJob? && job.effectiveFrom.Some?
    ensures r.Reported? || r.Mapped?
  {
    match choice
    case Insufficient => Reported(IssueFor(job, StopTimesInsufficient, Some(number)))
    case NotUnique => Reported(IssueFor(job, PatternNotUnique, Some(number)))
    case Chosen(c) =>
      Mapped(Mapping(job.workbook, job.sheet, job.rowNumber, number, c.pattern, DirectionOf(stops, c.pattern),
                     job.effectiveFrom.value, target, c.times))
  }

  function ChoiceOf(texts: Texts, stops: seq<RouteStop>, row: Row, patterns: seq<string>): Choice<Candidate>
    requires patterns != []
  {
    Choose(RowScores(texts, stops, row), Candidates(texts, stops, row, patterns))
  }

  /** What the cascade makes of a row with this route number. */
  function NumberOutcome(texts: Texts, stops: seq<RouteStop>, target: int, job: Job, number: string): (r: Outcome)
    requires job.RowJob? && job.effectiveFrom.Some?
    ensures r.Reported? || r.Mapped?
  {
    var patterns := PatternsOfNumber(stops, number);
    if patterns == [] then Reported(IssueFor(job, RouteUnknown, Some(number)))
    else ChoiceOutcome(stops, target, job, number, ChoiceOf(texts, stops, RowOf(job), patterns))
  }

  function Decided(texts: Texts, stops: seq<RouteStop>, target: int, job: Job): Outcome
    requires job.RowJob? && EarlyReason(texts, target, job).None?
  {
    NumberOutcome(texts, stops, target, job, RouteNumber(texts, job).value)
  }

  /** The direction of the route's first stop. */
  function DirectionOf(stops: seq<RouteStop>, pattern: string): string {
    var route := RouteOf(stops, pattern);
    if route == [] then "" else route[0].direction
  }

  /** The row passes every check before its identity is compared. */
  predicate Compared(texts: Texts, target: int, job: Job) {
    IsTripRow(texts, job) && EarlyReason(texts, target, job).None?
  }

  /** The row's outcome, given what the cascade would make of it. */
  function Answered(texts: Texts, target: int, job: Job, seen: set<Identity>, decision: Outcome): Outcome {
    if job.Headless? then Reported(IssueFor(job, HeaderMissing, None))
    else if !IsTripRow(texts, job) then Ignored
    else if EarlyReason(texts, target, job).Some? then Reported(IssueFor(job, EarlyReason(texts, target, job).value, None))
    else if IdentityOf(texts, job) in seen then Repeated
    else decision
  }

  function Decision(texts: Texts, stops: seq<RouteStop>, target: int, job: Job): Outcome {
    if Compared(texts, target, job) then Decided(texts, stops, target, job) else Ignored
  }

  function OutcomeOf(texts: Texts, stops: seq<RouteStop>, target: int, job: Job, seen: set<Identity>): Outcome {
    Answered(texts, target, job, seen, Decision(texts, stops, target, job))
  }

  // ------------------------------------------------------------------ all rows

  datatype State = State(mappings: seq<Mapping>, issues: seq<Issue>, seen: set<Identity>)

  const EMPTY := State([], [], {})

  /** What the loop asks about a row: its outcome given the identities seen, and the identity it
      adds, if it comes to that. */
  datatype Rules = Rules(outcome: (Job, set<Identity>) -> Outcome, identity: Job -> Option<Identity>)

  function RulesOf(texts: Texts, stops: seq<RouteStop>, target: int): Rules {
    Rules((job, seen) => OutcomeOf(texts, stops, target, job, seen),
          job => if Compared(texts, target, job) then Some(IdentityOf(texts, job)) else None)
  }

  function Step(rules: Rules, job: Job, s: State): State {
    var seen := if rules.identity(job).Some? then s.seen + {rules.identity(job).value} else s.seen;
    match rules.outcome(job, s.seen)
    case Ignored => State(s.mappings, s.issues, seen)
    case Repeated => State(s.mappings, s.issues, seen)
    case Reported(issue) => State(s.mappings, s.issues + [issue], seen)
    case Mapped(mapping) => State(s.mappings + [mapping], s.issues, seen)
  }

  function StepOf(rules: Rules): (Job, State) -> State {
    (job, s) => Step(rules, job, s)
  }

  function Fold<J, S>(step: (J, S) -> S, start: S, jobs: seq<J>): S {
    if jobs == [] then start else step(jobs[|jobs| - 1], Fold(step, start, jobs[..|jobs| - 1]))
  }

  lemma {:induction false} FoldOne<J, S>(step: (J, S) -> S, start: S, jobs: seq<J>, job: J)
    ensures Fold(step, start, jobs + [job]) == step(job, Fold(step, start, jobs))
  {
    assert (jobs + [job])[..|jobs|] == jobs;
  }

  lemma {:induction false} FoldAppend<J, S>(step: (J, S) -> S, start: S, a: seq<J>, b: seq<J>)
    ensures Fold(step, start, a + b) == Fold(step, Fold(step, start, a), b)
  {
    if b == [] {
      assert a + b == a;
    } else {
      var front, last := b[..|b| - 1], b[|b| - 1];
      FoldAppend(step, start, a, front);
      assert a + b == (a + front) + [last];
      FoldOne(step, start, a + front, last);
    }
  }

  function RowJobs(book: string, sheet: string, table: Table, numbers: seq<int>, effective: Option<int>): (r: seq<Job>)
    requires HEADER_ROW in table && forall i :: 0 <= i < |numbers| ==> numbers[i] in table
    ensures |r| == |numbers|
    ensures forall i :: 0 <= i < |r| ==> r[i] == RowJob(book, sheet, numbers[i], table[HEADER_ROW], table[numbers[i]], effective)
  {
    seq(|numbers|, i requires 0 <= i < |numbers| => RowJob(book, sheet, numbers[i], table[HEADER_ROW], table[numbers[i]], effective))
  }

  function SortedNumbers(rows: seq<CellRow>, sheet: string): (r: seq<int>)
    ensures forall k :: k in r <==> k in TableOf(rows, sheet)
  {
    var numbers := NumbersOf(rows, sheet);
    var r := Sort((a: int, b: int) => a < b, numbers);
    assert forall k :: k in r <==> k in numbers by {
      forall k ensures k in r <==> k in numbers {
        SortKeepsElements((a: int, b: int) => a < b, numbers, k);
      }
    }
    r
  }

  /** The date is read from the rows above the header. */
  function EffectiveFrom(texts: Texts, table: Table): Option<int> {
    texts.effective(map k | k in table && k < HEADER_ROW :: table[k])
  }

  function SheetJobs(texts: Texts, book: Workbook, sheet: string): seq<Job> {
    var table := TableOf(book.rows, sheet);
    if HEADER_ROW !in table then [Headless(book.name, sheet)]
    else RowJobs(book.name, sheet, table, SortedNumbers(book.rows, sheet), EffectiveFrom(texts, table))
  }

  function SortedSheets(book: Workbook): seq<string> {
    Sort(TextLess, SheetsOf(book.rows))
  }

  function SheetsJobs(texts: Texts, book: Workbook, sheets: seq<string>): seq<Job> {
    if sheets == [] then [] else SheetsJobs(texts, book, sheets[..|sheets| - 1]) + SheetJobs(texts, book, sheets[|sheets| - 1])
  }

  function BookJobs(texts: Texts, book: Workbook): seq<Job> {
    SheetsJobs(texts, book, SortedSheets(book))
  }

  function BooksJobs(texts: Texts, books: seq<Workbook>): seq<Job> {
    if books == [] then [] else BooksJobs(texts, books[..|books| - 1]) + BookJobs(texts, books[|books| - 1])
  }

  function ByName(): (Workbook, Workbook) -> bool {
    (a: Workbook, b: Workbook) => TextLess(a.name, b.name)
  }

  function AllJobs(texts: Texts, books: seq<Workbook>): seq<Job> {
    BooksJobs(texts, Sort(ByName(), books))
  }

  // Days are counted so that day 1 is a Monday.
  function IsoWeekday(day: int): int {
    (day - 1) % 7 + 1
  }

  datatype Rejection = TargetNotWeekday

  /** The mapped trips and the reported rows. */
  function MapTrips(texts: Texts, books: seq<Workbook>, stops: seq<RouteStop>, target: int): Result<State, Rejection> {
    if IsoWeekday(target) > 5 then Err(TargetNotWeekday) else Ok(Fold(StepOf(RulesOf(texts, stops, target)), EMPTY, AllJobs(texts, books)))
  }

  // ------------------------------------------------------------------ the mapping as it runs

  method CandidateList(texts: Texts, stops: seq<RouteStop>, row: Row, patterns: seq<string>) returns (candidates: seq<Candidate>)
    ensures candidates == Candidates(texts, stops, row, patterns)
  {
    candidates := [];
    for i := 0 to |patterns|
      invariant candidates == Candidates(texts, stops, row, patterns)[..i]
    {
      var times := CandidateStopTimes(texts, RouteOf(stops, patterns[i]), row.headers, row.values);
      candidates := candidates + [Candidate(patterns[i], times)];
    }
  }

  method DecideRow(texts: Texts, stops: seq<RouteStop>, target: int, job: Job, number: string) returns (outcome: Outcome)
    requires job.RowJob? && job.effectiveFrom.Some?
    ensures outcome == NumberOutcome(texts, stops, target, job, number)
  {
    var patterns := PatternsOfNumber(stops, number);
    if patterns == [] {
      return Reported(IssueFor(job, RouteUnknown, Some(number)));
    }
    var row := RowOf(job);
    var candidates := CandidateList(texts, stops, row, patterns);
    match Choose(RowScores(texts, stops, row), candidates)
    case Insufficient => return Reported(IssueFor(job, StopTimesInsufficient, Some(number)));
    case NotUnique => return Reported(IssueFor(job, PatternNotUnique, Some(number)));
    case Chosen(c) =>
      return Mapped(Mapping(job.workbook, job.sheet, job.rowNumber, number, c.pattern, DirectionOf(stops, c.pattern),
                            job.effectiveFrom.value, target, c.times));
  }

  method MapRow(texts: Texts, stops: seq<RouteStop>, target: int, job: Job, s: State) returns (now: State)
    requires job.RowJob?
    ensures now == Step(RulesOf(texts, stops, target), job, s)
  {
    now := s;
    if job.rowNumber < FIRST_DATA_ROW || ClockTotal(texts, job.values) < 2 {
      return;
    }
    var early := EarlyReason(texts, target, job);
    if early.Some? {
      now := now.(issues := now.issues + [IssueFor(job, early.value, None)]);
      return;
    }
    var identity := IdentityOf(texts, job);
    if identity in now.seen {
      assert s.seen + {identity} == s.seen;
      return;
    }
    now := now.(seen := now.seen + {identity});
    var outcome := DecideRow(texts, stops, target, job, RouteNumber(texts, job).value);
    if outcome.Mapped? {
      now := now.(mappings := now.mappings + [outcome.mapping]);
    } else {
      now := now.(issues := now.issues + [outcome.issue]);
    }
  }

  lemma {:induction false} FoldNext<J, S>(step: (J, S) -> S, start: S, jobs: seq<J>, i: nat)
    requires i < |jobs|
    ensures Fold(step, start, jobs[..i + 1]) == step(jobs[i], Fold(step, start, jobs[..i]))
  {
    assert jobs[..i + 1] == jobs[..i] + [jobs[i]];
    FoldOne(step, start, jobs[..i], jobs[i]);
  }

  method MapRows(texts: Texts, stops: seq<RouteStop>, target: int, book: string, sheet: string, table: Table, numbers: seq<int>,
                 effective: Option<int>, s: State)
    returns (now: State)
    requires HEADER_ROW in table && forall i :: 0 <= i < |numbers| ==> numbers[i] in table
    ensures now == Fold(StepOf(RulesOf(texts, stops, target)), s, RowJobs(book, sheet, table, numbers, effective))
  {
    now := s;
    ghost var step, jobs := StepOf(RulesOf(texts, stops, target)), RowJobs(book, sheet, table, numbers, effective);
    for i := 0 to |numbers|
      invariant now == Fold(step, s, jobs[..i])
    {
      FoldNext(step, s, jobs, i);
      now := MapRow(texts, stops, target, RowJob(book, sheet, numbers[i], table[HEADER_ROW], table[numbers[i]], effective), now);
    }
    assert jobs[..|numbers|] == jobs;
  }

  method MapSheet(texts: Texts, stops: seq<RouteStop>, target: int, book: Workbook, sheet: string, s: State) returns (now: State)
    ensures now == Fold(StepOf(RulesOf(texts, stops, target)), s, SheetJobs(texts, book, sheet))
  {
    var table := TableOf(book.rows, sheet);
    if HEADER_ROW in table {
      now := MapRows(texts, stops, target, book.name, sheet, table, SortedNumbers(book.rows, sheet), EffectiveFrom(texts, table), s);
    } else {
      var job := Headless(book.name, sheet);
      FoldOne(StepOf(RulesOf(texts, stops, target)), s, [], job);
      assert [] + [job] == [job];
      now := s.(issues := s.issues + [IssueFor(job, HeaderMissing, None)]);
    }
  }

  lemma {:induction false} SheetsFold(step: (Job, State) -> State, start: State, texts: Texts, book: Workbook, sheets: seq<string>, i: nat)
    requires i < |sheets|
    ensures Fold(step, start, SheetsJobs(texts, book, sheets[..i + 1]))
            == Fold(step, Fold(step, start, SheetsJobs(texts, book, sheets[..i])), SheetJobs(texts, book, sheets[i]))
  {
    assert sheets[..i + 1][..i] == sheets[..i];
    FoldAppend(step, start, SheetsJobs(texts, book, sheets[..i]), SheetJobs(texts, book, sheets[i]));
  }

  lemma {:induction false} BooksFold(step: (Job, State) -> State, start: State, texts: Texts, books: seq<Workbook>, i: nat)
    requires i < |books|
    ensures Fold(step, start, BooksJobs(texts, books[..i + 1]))
            == Fold(step, Fold(step, start, BooksJobs(texts, books[..i])), BookJobs(texts, books[i]))
  {
    assert books[..i + 1][..i] == books[..i];
    FoldAppend(step, start, BooksJobs(texts, books[..i]), BookJobs(texts, books[i]));
  }

  method MapBook(texts: Texts, stops: seq<RouteStop>, target: int, book: Workbook, s: State) returns (now: State)
    ensures now == Fold(StepOf(RulesOf(texts, stops, target)), s, BookJobs(texts, book))
  {
    now := s;
    var sheets := SortedSheets(book);
    for i := 0 to |sheets|
      invariant now == Fold(StepOf(RulesOf(texts, stops, target)), s, SheetsJobs(texts, book, sheets[..i]))
    {
      SheetsFold(StepOf(RulesOf(texts, stops, target)), s, texts, book, sheets, i);
      now := MapSheet(texts, stops, target, book, sheets[i], now);
    }
    assert sheets[..|sheets|] == sheets;
  }
}
