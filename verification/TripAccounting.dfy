/** Every timetable row with clocks is mapped once, reported once, or repeats an earlier row. */
module TripAccounting {
  import opened Common
  import opened Ordering
  import opened TimetableClock
  import opened TripChoice
  import opened TripMapping

  // ------------------------------------------------------------------ where a result came from

  datatype Key = Key(workbook: string, sheet: string, rowNumber: Option<int>)

  function KeyOf(job: Job): Key {
    Key(job.workbook, job.sheet, if job.RowJob? then Some(job.rowNumber) else None)
  }

  function MappingKey(m: Mapping): Key {
    Key(m.workbook, m.sheet, Some(m.rowNumber))
  }

  function IssueKey(i: Issue): Key {
    Key(i.workbook, i.sheet, i.rowNumber)
  }

  function HasMappingKey(key: Key): Mapping -> bool {
    (m: Mapping) => MappingKey(m) == key
  }

  function HasIssueKey(key: Key): Issue -> bool {
    (i: Issue) => IssueKey(i) == key
  }

  /** How many mappings and issues the row has. */
  function Answers(s: State, key: Key): nat {
    |Filter(HasMappingKey(key), s.mappings)| + |Filter(HasIssueKey(key), s.issues)|
  }

  predicate SameIdentity(texts: Texts, target: int, job: Job, identity: Identity) {
    Compared(texts, target, job) && IdentityOf(texts, job) == identity
  }

  /** An earlier row of the same workbook has the same route, header and cells. */
  predicate RepeatsEarlier(texts: Texts, target: int, jobs: seq<Job>, k: nat)
    requires k < |jobs|
  {
    Compared(texts, target, jobs[k]) && exists i :: 0 <= i < k && SameIdentity(texts, target, jobs[i], IdentityOf(texts, jobs[k]))
  }

  ghost predicate DistinctKeys(jobs: seq<Job>) {
    forall i, j :: 0 <= i < j < |jobs| ==> KeyOf(jobs[i]) != KeyOf(jobs[j])
  }

  // ------------------------------------------------------------------ one step answers for one row

  lemma {:induction false} FilterOneMore<T(!new)>(keep: T -> bool, s: seq<T>, x: T)
    ensures |Filter(keep, s + [x])| == |Filter(keep, s)| + (if keep(x) then 1 else 0)
  {
    assert (s + [x])[..|s|] == s;
  }

  function AnswersFor(outcome: Outcome): nat {
    if outcome.Reported? || outcome.Mapped? then 1 else 0
  }

  ghost predicate Carries(o: Outcome, key: Key) {
    (o.Reported? ==> IssueKey(o.issue) == key) && (o.Mapped? ==> MappingKey(o.mapping) == key)
  }

  lemma {:induction false} ChoiceHasKey(stops: seq<RouteStop>, target: int, job: Job, number: string, choice: Choice<Candidate>)
    requires job.RowJob? && job.effectiveFrom.Some?
    ensures Carries(ChoiceOutcome(stops, target, job, number, choice), KeyOf(job))
  {
  }

  lemma {:induction false} DecisionHasKey(texts: Texts, stops: seq<RouteStop>, target: int, job: Job, number: string)
    requires job.RowJob? && job.effectiveFrom.Some?
    ensures Carries(NumberOutcome(texts, stops, target, job, number), KeyOf(job))
  {
    var patterns := PatternsOfNumber(stops, number);
    if patterns != [] {
      ChoiceHasKey(stops, target, job, number, ChoiceOf(texts, stops, RowOf(job), patterns));
    }
  }

  lemma {:induction false} AnsweredHasKey(texts: Texts, target: int, job: Job, seen: set<Identity>, decision: Outcome)
    requires Carries(decision, KeyOf(job))
    ensures Carries(Answered(texts, target, job, seen, decision), KeyOf(job))
  {
  }

  lemma {:induction false} OutcomeHasKey(texts: Texts, stops: seq<RouteStop>, target: int, job: Job, seen: set<Identity>)
    ensures Carries(OutcomeOf(texts, stops, target, job, seen), KeyOf(job))
  {
    if Compared(texts, target, job) {
      DecisionHasKey(texts, stops, target, job, RouteNumber(texts, job).value);
    }
    AnsweredHasKey(texts, target, job, seen, Decision(texts, stops, target, job));
  }

  // ------------------------------------------------------------------ counting answers, whatever the rules

  /** Results carry the key of their row. */
  ghost predicate KeysCarried(rules: Rules) {
    forall job, seen :: Carries(rules.outcome(job, seen), KeyOf(job))
  }

  lemma {:induction false} StepAnswers(rules: Rules, job: Job, s: State, key: Key)
    requires KeysCarried(rules)
    ensures Answers(Step(rules, job, s), key) == Answers(s, key) + if KeyOf(job) == key then AnswersFor(rules.outcome(job, s.seen)) else 0
  {
    assert Carries(rules.outcome(job, s.seen), KeyOf(job));
    match rules.outcome(job, s.seen)
    case Ignored =>
    case Repeated =>
    case Reported(issue) => FilterOneMore(HasIssueKey(key), s.issues, issue);
    case Mapped(mapping) => FilterOneMore(HasMappingKey(key), s.mappings, mapping);
  }

  function After(rules: Rules, jobs: seq<Job>, n: nat): State
    requires n <= |jobs|
  {
    if n == 0 then EMPTY else Step(rules, jobs[n - 1], After(rules, jobs, n - 1))
  }

  lemma {:induction false} AfterIsFold(rules: Rules, jobs: seq<Job>, n: nat)
    requires n <= |jobs|
    ensures Fold(StepOf(rules), EMPTY, jobs[..n]) == After(rules, jobs, n)
  {
    if n > 0 {
      AfterIsFold(rules, jobs, n - 1);
      FoldNext(StepOf(rules), EMPTY, jobs, n - 1);
    }
  }

  predicate Identifies(rules: Rules, job: Job, identity: Identity) {
    rules.identity(job) == Some(identity)
  }

  /** The identities seen are those of the rows so far. */
  lemma {:induction false} SeenSoFar(rules: Rules, jobs: seq<Job>, n: nat, identity: Identity)
    requires n <= |jobs|
    ensures identity in After(rules, jobs, n).seen <==> exists i :: 0 <= i < n && Identifies(rules, jobs[i], identity)
  {
    if n > 0 {
      SeenSoFar(rules, jobs, n - 1, identity);
      assert identity in After(rules, jobs, n).seen
             <==> identity in After(rules, jobs, n - 1).seen || Identifies(rules, jobs[n - 1], identity);
    }
  }

  /** How many answers the `n`-th row adds. */
  function AnswersAt(rules: Rules, jobs: seq<Job>, n: nat): nat
    requires n < |jobs|
  {
    AnswersFor(rules.outcome(jobs[n], After(rules, jobs, n).seen))
  }

  function Total(jobs: seq<Job>, added: seq<nat>, n: nat, key: Key): nat
    requires n <= |jobs| == |added|
  {
    if n == 0 then 0 else Total(jobs, added, n - 1, key) + if KeyOf(jobs[n - 1]) == key then added[n - 1] else 0
  }

  lemma {:induction false} TotalIsOwn(jobs: seq<Job>, added: seq<nat>, n: nat, k: nat)
    requires n <= |jobs| == |added| && k < |jobs| && DistinctKeys(jobs)
    ensures Total(jobs, added, n, KeyOf(jobs[k])) == if k < n then added[k] else 0
  {
    if n > 0 {
      TotalIsOwn(jobs, added, n - 1, k);
    }
  }

  lemma {:induction false} AnswersNext(rules: Rules, jobs: seq<Job>, n: nat, key: Key)
    requires n < |jobs| && KeysCarried(rules)
    ensures Answers(After(rules, jobs, n + 1), key)
            == Answers(After(rules, jobs, n), key) + if KeyOf(jobs[n]) == key then AnswersAt(rules, jobs, n) else 0
  {
    StepAnswers(rules, jobs[n], After(rules, jobs, n), key);
  }

  /** What the rows add, one number per row, adds up to the answers. */
  lemma {:induction false} AnswersAddUp(rules: Rules, jobs: seq<Job>, added: seq<nat>, n: nat, key: Key)
    requires n <= |jobs| == |added| && KeysCarried(rules)
    requires forall m :: 0 <= m < |jobs| ==> Adds(rules, jobs, m, added[m])
    ensures Answers(After(rules, jobs, n), key) == Total(jobs, added, n, key)
  {
    if n == 0 {
      NoAnswersYet(key);
    } else {
      AnswersAddUp(rules, jobs, added, n - 1, key);
      AnswersNext(rules, jobs, n - 1, key);
      assert Adds(rules, jobs, n - 1, added[n - 1]);
    }
  }

  ghost predicate Adds(rules: Rules, jobs: seq<Job>, m: nat, count: nat)
    requires m < |jobs|
  {
    count == AnswersAt(rules, jobs, m)
  }

  lemma {:induction false} NoAnswersYet(key: Key)
    ensures Answers(EMPTY, key) == 0
  {
  }

  lemma {:induction false} AnswersSoFar(rules: Rules, jobs: seq<Job>, k: nat)
    requires k < |jobs| && DistinctKeys(jobs) && KeysCarried(rules)
    ensures Answers(After(rules, jobs, |jobs|), KeyOf(jobs[k])) == AnswersAt(rules, jobs, k)
  {
    var added := seq(|jobs|, m requires 0 <= m < |jobs| => AnswersAt(rules, jobs, m));
    forall m | 0 <= m < |jobs| ensures Adds(rules, jobs, m, added[m]) {}
    AnswersAddUp(rules, jobs, added, |jobs|, KeyOf(jobs[k]));
    TotalIsOwn(jobs, added, |jobs|, k);
  }

  // ------------------------------------------------------------------ every row is answered once

  lemma {:induction false} RulesCarryKeys(texts: Texts, stops: seq<RouteStop>, target: int)
    ensures KeysCarried(RulesOf(texts, stops, target))
  {
    forall job, seen ensures Carries(RulesOf(texts, stops, target).outcome(job, seen), KeyOf(job)) {
      OutcomeHasKey(texts, stops, target, job, seen);
    }
  }

  lemma {:induction false} AnsweredUnlessSeen(texts: Texts, stops: seq<RouteStop>, target: int, job: Job, seen: set<Identity>)
    requires IsTripRow(texts, job)
    ensures AnswersFor(RulesOf(texts, stops, target).outcome(job, seen))
            == if Compared(texts, target, job) && IdentityOf(texts, job) in seen then 0 else 1
  {
  }

  lemma {:induction false} SeenIffRepeats(texts: Texts, stops: seq<RouteStop>, target: int, jobs: seq<Job>, k: nat)
    requires k < |jobs| && Compared(texts, target, jobs[k])
    ensures IdentityOf(texts, jobs[k]) in After(RulesOf(texts, stops, target), jobs, k).seen <==> RepeatsEarlier(texts, target, jobs, k)
  {
    var rules, identity := RulesOf(texts, stops, target), IdentityOf(texts, jobs[k]);
    SeenSoFar(rules, jobs, k, identity);
    assert forall i :: 0 <= i < k ==> (Identifies(rules, jobs[i], identity) <==> SameIdentity(texts, target, jobs[i], identity));
  }

  /** A row with clocks is either mapped once or reported once, never both, unless an earlier row
      is the same: then it is dropped. */
  lemma {:induction false} EveryRowIsAnsweredOnce(texts: Texts, stops: seq<RouteStop>, target: int, jobs: seq<Job>, k: nat)
    requires k < |jobs| && DistinctKeys(jobs) && IsTripRow(texts, jobs[k])
    ensures Answers(Fold(StepOf(RulesOf(texts, stops, target)), EMPTY, jobs), KeyOf(jobs[k]))
            == if RepeatsEarlier(texts, target, jobs, k) then 0 else 1
  {
    var rules := RulesOf(texts, stops, target);
    assert jobs[..|jobs|] == jobs;
    AfterIsFold(rules, jobs, |jobs|);
    RulesCarryKeys(texts, stops, target);
    AnswersSoFar(rules, jobs, k);
    AnsweredUnlessSeen(texts, stops, target, jobs[k], After(rules, jobs, k).seen);
    if Compared(texts, target, jobs[k]) {
      SeenIffRepeats(texts, stops, target, jobs, k);
    }
  }

  /** A dropped row repeats one that is itself answered. */
  lemma {:induction false} FirstOfItsKind(texts: Texts, target: int, jobs: seq<Job>, k: nat) returns (i: nat)
    requires k < |jobs| && Compared(texts, target, jobs[k])
    ensures i <= k && SameIdentity(texts, target, jobs[i], IdentityOf(texts, jobs[k])) && !RepeatsEarlier(texts, target, jobs, i)
  {
    i := k;
    if RepeatsEarlier(texts, target, jobs, k) {
      var j :| 0 <= j < k && SameIdentity(texts, target, jobs[j], IdentityOf(texts, jobs[k]));
      i := FirstOfItsKind(texts, target, jobs, j);
    }
  }

  // ------------------------------------------------------------------ every row of the workbooks is met once

  lemma {:induction false} JoinedKeys(a: seq<Job>, b: seq<Job>)
    requires DistinctKeys(a) && DistinctKeys(b)
    requires forall x, y :: x in a && y in b ==> KeyOf(x) != KeyOf(y)
    ensures DistinctKeys(a + b)
  {
    var all := a + b;
    forall i, j | 0 <= i < j < |all| ensures KeyOf(all[i]) != KeyOf(all[j]) {
      assert if i < |a| then all[i] == a[i] && all[i] in a else all[i] == b[i - |a|];
      assert if j < |a| then all[j] == a[j] else all[j] == b[j - |a|] && all[j] in b;
    }
  }

  lemma {:induction false} SheetKeys(texts: Texts, book: Workbook, sheet: string)
    ensures DistinctKeys(SheetJobs(texts, book, sheet))
    ensures forall job :: job in SheetJobs(texts, book, sheet) ==> job.workbook == book.name && job.sheet == sheet
  {
    SortKeepsDistinct((a: int, b: int) => a < b, NumbersOf(book.rows, sheet));
  }

  lemma {:induction false} SheetsKeys(texts: Texts, book: Workbook, sheets: seq<string>)
    requires Distinct(sheets)
    ensures DistinctKeys(SheetsJobs(texts, book, sheets))
    ensures forall job :: job in SheetsJobs(texts, book, sheets) ==> job.workbook == book.name && job.sheet in sheets
  {
    if sheets != [] {
      var front, last := sheets[..|sheets| - 1], sheets[|sheets| - 1];
      SheetsKeys(texts, book, front);
      SheetKeys(texts, book, last);
      assert last !in front;
      JoinedKeys(SheetsJobs(texts, book, front), SheetJobs(texts, book, last));
    }
  }

  ghost predicate DistinctNames(books: seq<Workbook>) {
    forall i, j :: 0 <= i < j < |books| ==> books[i].name != books[j].name
  }

  predicate Named(books: seq<Workbook>, name: string) {
    exists b :: b in books && b.name == name
  }

  lemma {:induction false} BooksKeys(texts: Texts, books: seq<Workbook>)
    requires DistinctNames(books)
    ensures DistinctKeys(BooksJobs(texts, books))
    ensures forall job :: job in BooksJobs(texts, books) ==> Named(books, job.workbook)
  {
    if books != [] {
      var front, last := books[..|books| - 1], books[|books| - 1];
      BooksKeys(texts, front);
      SortKeepsDistinct(TextLess, SheetsOf(last.rows));
      SheetsKeys(texts, last, SortedSheets(last));
      assert forall b :: b in front ==> b in books;
      assert !Named(front, last.name);
      JoinedKeys(BooksJobs(texts, front), BookJobs(texts, last));
    }
  }

  lemma {:induction false} SortedBooksKeys(texts: Texts, books: seq<Workbook>)
    requires DistinctNames(books)
    ensures DistinctKeys(AllJobs(texts, books))
  {
    var sorted := Sort(ByName(), books);
    SortKeepsDistinct(ByName(), books);
    forall i, j | 0 <= i < j < |sorted| ensures sorted[i].name != sorted[j].name {
      SortKeepsElements(ByName(), books, sorted[i]);
      SortKeepsElements(ByName(), books, sorted[j]);
      var k :| 0 <= k < |books| && books[k] == sorted[i];
      var l :| 0 <= l < |books| && books[l] == sorted[j];
    }
    BooksKeys(texts, sorted);
  }

  /** The row with this number in the sheet, under the sheet's header. */
  function JobFor(texts: Texts, book: Workbook, sheet: string, number: int): Job
    requires HEADER_ROW in TableOf(book.rows, sheet) && number in TableOf(book.rows, sheet)
  {
    var table := TableOf(book.rows, sheet);
    RowJob(book.name, sheet, number, table[HEADER_ROW], table[number], EffectiveFrom(texts, table))
  }

  lemma {:induction false} SheetIsListed(rows: seq<CellRow>, sheet: string)
    ensures sheet in SheetsOf(rows) <==> TableOf(rows, sheet) != map[]
  {
    if rows != [] {
      SheetIsListed(rows[..|rows| - 1], sheet);
      var last := rows[|rows| - 1];
      assert last.sheet == sheet ==> last.rowNumber in TableOf(rows, sheet);
    }
  }

  lemma {:induction false} RowIsMet(texts: Texts, book: Workbook, sheet: string, number: int)
    requires HEADER_ROW in TableOf(book.rows, sheet) && number in TableOf(book.rows, sheet)
    ensures JobFor(texts, book, sheet, number) in SheetJobs(texts, book, sheet)
  {
    var numbers := SortedNumbers(book.rows, sheet);
    var i :| 0 <= i < |numbers| && numbers[i] == number;
    assert SheetJobs(texts, book, sheet)[i] == JobFor(texts, book, sheet, number);
  }

  lemma {:induction false} SheetIsMet(texts: Texts, book: Workbook, sheets: seq<string>, sheet: string, job: Job)
    requires sheet in sheets && job in SheetJobs(texts, book, sheet)
    ensures job in SheetsJobs(texts, book, sheets)
  {
    if sheet != sheets[|sheets| - 1] {
      SheetIsMet(texts, book, sheets[..|sheets| - 1], sheet, job);
    }
  }

  lemma {:induction false} BookIsMet(texts: Texts, books: seq<Workbook>, book: Workbook, job: Job)
    requires book in books && job in BookJobs(texts, book)
    ensures job in BooksJobs(texts, books)
  {
    if book != books[|books| - 1] {
      BookIsMet(texts, books[..|books| - 1], book, job);
    }
  }

  lemma {:induction false} RowIsAJob(texts: Texts, books: seq<Workbook>, book: Workbook, sheet: string, number: int)
    requires book in books && HEADER_ROW in TableOf(book.rows, sheet) && number in TableOf(book.rows, sheet)
    ensures JobFor(texts, book, sheet, number) in AllJobs(texts, books)
  {
    var job := JobFor(texts, book, sheet, number);
    RowIsMet(texts, book, sheet, number);
    SheetIsListed(book.rows, sheet);
    SortKeepsElements(TextLess, SheetsOf(book.rows), sheet);
    SheetIsMet(texts, book, SortedSheets(book), sheet, job);
    SortKeepsElements(ByName(), books, book);
    BookIsMet(texts, Sort(ByName(), books), book, job);
  }

  /** Main result: in a sheet with a header, a data row with at least two clocks has exactly one
      mapping or issue, or it repeats a row that has. */
  lemma {:induction false} EveryTimetableRowIsAnswered(texts: Texts, books: seq<Workbook>, stops: seq<RouteStop>, target: int,
                                    book: Workbook, sheet: string, number: int, result: State) returns (k: nat)
    requires DistinctNames(books) && book in books && MapTrips(texts, books, stops, target) == Ok(result)
    requires HEADER_ROW in TableOf(book.rows, sheet) && number in TableOf(book.rows, sheet)
    requires IsTripRow(texts, JobFor(texts, book, sheet, number))
    ensures k < |AllJobs(texts, books)| && AllJobs(texts, books)[k] == JobFor(texts, book, sheet, number)
    ensures Answers(result, Key(book.name, sheet, Some(number))) == if RepeatsEarlier(texts, target, AllJobs(texts, books), k) then 0 else 1
  {
    var jobs := AllJobs(texts, books);
    RowIsAJob(texts, books, book, sheet, number);
    k :| 0 <= k < |jobs| && jobs[k] == JobFor(texts, book, sheet, number);
    SortedBooksKeys(texts, books);
    EveryRowIsAnsweredOnce(texts, stops, target, jobs, k);
  }
}
