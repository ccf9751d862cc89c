/** What a run of the mapping answers, written out: which rows it meets and in which order, what each
    row's checks say, and how the answers are listed. */
module TripRunMeaning {
  import opened Common
  import opened Ordering
  import opened TimetableClock
  import opened TripChoice
  import opened TripMapping
  import opened TripAccounting
  import opened TripMeaning

  // ------------------------------------------------------------------ the order of texts

  /** The texts agree on `k` characters; then the first one ends or has the smaller character. */
  ghost predicate PartsAt(a: string, b: string, k: nat) {
    && k <= |a| && k < |b| && (forall i :: 0 <= i < k ==> a[i] == b[i])
    && (k < |a| ==> a[k] < b[k])
  }

  ghost predicate ComesBefore(a: string, b: string) {
    exists k: nat :: PartsAt(a, b, k)
  }

  lemma {:induction false} TextLessMeans(a: string, b: string)
    ensures TextLess(a, b) <==> ComesBefore(a, b)
  {
    if b == "" {
    } else if a == "" {
      assert PartsAt(a, b, 0);
    } else {
      TextLessMeans(a[1..], b[1..]);
      if TextLess(a, b) {
        if a[0] < b[0] {
          assert PartsAt(a, b, 0);
        } else {
          var k: nat :| PartsAt(a[1..], b[1..], k);
          forall i | 0 <= i < k + 1 ensures a[i] == b[i] {
            assert i > 0 ==> a[1..][i - 1] == b[1..][i - 1];
          }
          assert PartsAt(a, b, k + 1);
        }
      }
      if ComesBefore(a, b) {
        var k: nat :| PartsAt(a, b, k);
        if k > 0 {
          assert PartsAt(a[1..], b[1..], k - 1);
        }
      }
    }
  }

  lemma {:induction false} TextsCompare(a: string, b: string)
    ensures !TextLess(a, a)
    ensures TextLess(a, b) || a == b || TextLess(b, a)
    ensures !(TextLess(a, b) && TextLess(b, a))
  {
    if a != "" && b != "" {
      TextsCompare(a[1..], b[1..]);
      assert a == [a[0]] + a[1..] && b == [b[0]] + b[1..];
    } else if a != "" {
      TextsCompare(a[1..], "");
    }
  }

  lemma {:induction false} TextsChain(a: string, b: string, c: string)
    requires TextLess(a, b) && TextLess(b, c)
    ensures TextLess(a, c)
  {
    if a != "" && a[0] == b[0] && b[0] == c[0] {
      TextsChain(a[1..], b[1..], c[1..]);
    }
  }

  lemma {:induction false} TextsAreOrdered()
    ensures StrictOrder(TextLess)
  {
    forall a ensures !TextLess(a, a) {
      TextsCompare(a, a);
    }
    forall a, b, c | TextLess(a, b) && TextLess(b, c) ensures TextLess(a, c) {
      TextsChain(a, b, c);
    }
    forall a, b, c | TextLess(a, b) ensures TextLess(a, c) || TextLess(c, b) {
      TextsCompare(a, c);
      if TextLess(c, a) {
        TextsChain(c, a, b);
      }
    }
  }

  lemma {:induction false} NamesAreOrdered()
    ensures StrictOrder(ByName())
  {
    TextsAreOrdered();
    forall a: Workbook, b: Workbook, c: Workbook | ByName()(a, b) ensures ByName()(a, c) || ByName()(c, b) {
      assert TextLess(a.name, b.name);
    }
  }

  // ------------------------------------------------------------------ the rows of a sheet

  ghost predicate Stands(rows: seq<CellRow>, sheet: string, number: int, i: nat) {
    i < |rows| && rows[i].sheet == sheet && rows[i].rowNumber == number
  }

  /** Row `i` is the last one with its number in the sheet. */
  ghost predicate StandsLast(rows: seq<CellRow>, sheet: string, number: int, i: nat) {
    Stands(rows, sheet, number, i) && forall j: nat :: Stands(rows, sheet, number, j) ==> j <= i
  }

  /** The sheet's rows by number, each number with its last row. */
  ghost predicate IsTable(rows: seq<CellRow>, sheet: string, table: Table) {
    && (forall i :: 0 <= i < |rows| && rows[i].sheet == sheet ==> rows[i].rowNumber in table)
    && (forall number :: number in table ==> exists i: nat :: StandsLast(rows, sheet, number, i) && table[number] == rows[i].values)
  }

  lemma {:induction false} TableMeans(rows: seq<CellRow>, sheet: string)
    ensures IsTable(rows, sheet, TableOf(rows, sheet))
  {
    if rows != [] {
      var n := |rows| - 1;
      var before, table := TableOf(rows[..n], sheet), TableOf(rows, sheet);
      TableMeans(rows[..n], sheet);
      forall number | number in table ensures exists i: nat :: StandsLast(rows, sheet, number, i) && table[number] == rows[i].values {
        if rows[n].sheet == sheet && rows[n].rowNumber == number {
          assert StandsLast(rows, sheet, number, n);
        } else {
          var i: nat :| StandsLast(rows[..n], sheet, number, i) && before[number] == rows[..n][i].values;
          forall j: nat | Stands(rows, sheet, number, j) ensures j <= i {
            assert Stands(rows[..n], sheet, number, j);
          }
          assert StandsLast(rows, sheet, number, i);
        }
      }
      forall i | 0 <= i < |rows| && rows[i].sheet == sheet ensures rows[i].rowNumber in table {
        assert i < n ==> rows[i] == rows[..n][i];
      }
    }
  }

  lemma {:induction false} TableIsOne(rows: seq<CellRow>, sheet: string, table: Table, other: Table)
    requires IsTable(rows, sheet, table) && IsTable(rows, sheet, other)
    ensures table == other
  {
    forall number ensures number in table <==> number in other {
      if number in table {
        var i: nat :| StandsLast(rows, sheet, number, i) && table[number] == rows[i].values;
        assert rows[i].rowNumber in other;
      }
      if number in other {
        var i: nat :| StandsLast(rows, sheet, number, i) && other[number] == rows[i].values;
        assert rows[i].rowNumber in table;
      }
    }
    forall number | number in table ensures table[number] == other[number] {
      var i: nat :| StandsLast(rows, sheet, number, i) && table[number] == rows[i].values;
      var j: nat :| StandsLast(rows, sheet, number, j) && other[number] == rows[j].values;
      assert i == j;
    }
  }

  /** A sheet with rows but without row 7 is met once; under a row 7, every row of the sheet is, with
      row 7 as its header and the date the rows above it show. */
  ghost predicate IsJobOf(texts: Texts, book: Workbook, job: Job, table: Table) {
    && IsTable(book.rows, job.sheet, table) && table != map[]
    && if 7 !in table then job == Headless(book.name, job.sheet)
       else
         && job.RowJob? && job.rowNumber in table
         && job == RowJob(book.name, job.sheet, job.rowNumber, table[7], table[job.rowNumber],
                          texts.effective(map k | k in table && k < 7 :: table[k]))
  }

  lemma {:induction false} SheetJobsMean(texts: Texts, book: Workbook, sheet: string, job: Job)
    requires TableOf(book.rows, sheet) != map[]
    ensures job in SheetJobs(texts, book, sheet) <==> job.sheet == sheet && IsJobOf(texts, book, job, TableOf(book.rows, sheet))
  {
    var table := TableOf(book.rows, sheet);
    TableMeans(book.rows, sheet);
    if 7 in table {
      var numbers := SortedNumbers(book.rows, sheet);
      var jobs := RowJobs(book.name, sheet, table, numbers, EffectiveFrom(texts, table));
      if job.sheet == sheet && IsJobOf(texts, book, job, table) {
        var i :| 0 <= i < |numbers| && numbers[i] == job.rowNumber;
        assert jobs[i] == job;
      }
    }
  }

  lemma {:induction false} SheetsJobsMean(texts: Texts, book: Workbook, sheets: seq<string>, job: Job)
    requires forall s :: s in sheets ==> TableOf(book.rows, s) != map[]
    ensures job in SheetsJobs(texts, book, sheets) <==> job.sheet in sheets && IsJobOf(texts, book, job, TableOf(book.rows, job.sheet))
  {
    if sheets != [] {
      var front, last := sheets[..|sheets| - 1], sheets[|sheets| - 1];
      assert sheets == front + [last];
      SheetsJobsMean(texts, book, front, job);
      SheetJobsMean(texts, book, last, job);
    }
  }

  lemma {:induction false} BookJobsMean(texts: Texts, book: Workbook, job: Job)
    ensures job in BookJobs(texts, book) <==> exists table :: IsJobOf(texts, book, job, table)
  {
    var sheets := SortedSheets(book);
    forall s ensures s in sheets <==> TableOf(book.rows, s) != map[] {
      SheetIsListed(book.rows, s);
      SortKeepsElements(TextLess, SheetsOf(book.rows), s);
    }
    SheetsJobsMean(texts, book, sheets, job);
    if table :| IsJobOf(texts, book, job, table) {
      TableMeans(book.rows, job.sheet);
      TableIsOne(book.rows, job.sheet, table, TableOf(book.rows, job.sheet));
    }
  }

  lemma {:induction false} BooksJobsMean(texts: Texts, books: seq<Workbook>, job: Job)
    ensures job in BooksJobs(texts, books) <==> exists b, table :: b in books && IsJobOf(texts, b, job, table)
  {
    if books != [] {
      var front, last := books[..|books| - 1], books[|books| - 1];
      assert books == front + [last];
      BooksJobsMean(texts, front, job);
      BookJobsMean(texts, last, job);
    }
  }

  // ------------------------------------------------------------------ the order of the rows

  /** By workbook, then by sheet, then by row number. */
  ghost predicate JobBefore(a: Job, b: Job) {
    || ComesBefore(a.workbook, b.workbook)
    || (a.workbook == b.workbook && ComesBefore(a.sheet, b.sheet))
    || (a.workbook == b.workbook && a.sheet == b.sheet && a.RowJob? && b.RowJob? && a.rowNumber < b.rowNumber)
  }

  ghost predicate Ordered(jobs: seq<Job>) {
    forall i, j :: 0 <= i < j < |jobs| ==> JobBefore(jobs[i], jobs[j])
  }

  lemma {:induction false} JoinedOrder(a: seq<Job>, b: seq<Job>)
    requires Ordered(a) && Ordered(b) && forall x, y :: x in a && y in b ==> JobBefore(x, y)
    ensures Ordered(a + b)
  {
    var all := a + b;
    forall i, j | 0 <= i < j < |all| ensures JobBefore(all[i], all[j]) {
      assert if i < |a| then all[i] == a[i] && all[i] in a else all[i] == b[i - |a|];
      assert if j < |a| then all[j] == a[j] else all[j] == b[j - |a|] && all[j] in b;
    }
  }

  lemma {:induction false} NumbersRise(rows: seq<CellRow>, sheet: string)
    ensures forall i, j :: 0 <= i < j < |SortedNumbers(rows, sheet)| ==> SortedNumbers(rows, sheet)[i] < SortedNumbers(rows, sheet)[j]
  {
    var less := (a: int, b: int) => a < b;
    SortSorts(less, NumbersOf(rows, sheet));
    SortKeepsDistinct(less, NumbersOf(rows, sheet));
    var r := SortedNumbers(rows, sheet);
    forall i, j | 0 <= i < j < |r| ensures r[i] < r[j] {
      assert !less(r[j], r[i]);
    }
  }

  lemma {:induction false} SheetIsOrdered(texts: Texts, book: Workbook, sheet: string)
    ensures Ordered(SheetJobs(texts, book, sheet))
    ensures forall job :: job in SheetJobs(texts, book, sheet) ==> job.workbook == book.name && job.sheet == sheet
  {
    NumbersRise(book.rows, sheet);
    var jobs := SheetJobs(texts, book, sheet);
    forall i, j | 0 <= i < j < |jobs| ensures JobBefore(jobs[i], jobs[j]) {}
  }

  lemma {:induction false} SheetsAreOrdered(texts: Texts, book: Workbook, sheets: seq<string>)
    requires forall i, j :: 0 <= i < j < |sheets| ==> ComesBefore(sheets[i], sheets[j])
    ensures Ordered(SheetsJobs(texts, book, sheets))
    ensures forall job :: job in SheetsJobs(texts, book, sheets) ==> job.workbook == book.name && job.sheet in sheets
  {
    if sheets != [] {
      var front, last := sheets[..|sheets| - 1], sheets[|sheets| - 1];
      SheetsAreOrdered(texts, book, front);
      SheetIsOrdered(texts, book, last);
      forall x, y | x in SheetsJobs(texts, book, front) && y in SheetJobs(texts, book, last) ensures JobBefore(x, y) {
        var i :| 0 <= i < |front| && front[i] == x.sheet;
        assert sheets[i] == x.sheet;
      }
      JoinedOrder(SheetsJobs(texts, book, front), SheetJobs(texts, book, last));
    }
  }

  lemma {:induction false} BookIsOrdered(texts: Texts, book: Workbook)
    ensures Ordered(BookJobs(texts, book))
    ensures forall job :: job in BookJobs(texts, book) ==> job.workbook == book.name
  {
    var sheets := SortedSheets(book);
    TextsAreOrdered();
    SortSorts(TextLess, SheetsOf(book.rows));
    SortKeepsDistinct(TextLess, SheetsOf(book.rows));
    forall i, j | 0 <= i < j < |sheets| ensures ComesBefore(sheets[i], sheets[j]) {
      assert !TextLess(sheets[j], sheets[i]) && sheets[i] != sheets[j];
      TextsCompare(sheets[i], sheets[j]);
      TextLessMeans(sheets[i], sheets[j]);
    }
    SheetsAreOrdered(texts, book, sheets);
  }

  lemma {:induction false} BooksAreOrdered(texts: Texts, books: seq<Workbook>)
    requires forall i, j :: 0 <= i < j < |books| ==> ComesBefore(books[i].name, books[j].name)
    ensures Ordered(BooksJobs(texts, books))
    ensures forall job :: job in BooksJobs(texts, books) ==> exists i :: 0 <= i < |books| && books[i].name == job.workbook
  {
    if books != [] {
      var n := |books| - 1;
      var front, last := books[..n], books[n];
      BooksAreOrdered(texts, front);
      BookIsOrdered(texts, last);
      forall x, y | x in BooksJobs(texts, front) && y in BookJobs(texts, last) ensures JobBefore(x, y) {
        var i :| 0 <= i < |front| && front[i].name == x.workbook;
        assert books[i].name == x.workbook;
      }
      JoinedOrder(BooksJobs(texts, front), BookJobs(texts, last));
      forall job | job in BooksJobs(texts, books) ensures exists i :: 0 <= i < |books| && books[i].name == job.workbook {
        if job in BooksJobs(texts, front) {
          var i :| 0 <= i < |front| && front[i].name == job.workbook;
          assert books[i].name == job.workbook;
        } else {
          assert books[n].name == job.workbook;
        }
      }
    }
  }

  /** Just the rows of the workbooks, in order and each once. */
  ghost predicate AreTheRows(texts: Texts, books: seq<Workbook>, jobs: seq<Job>) {
    && Ordered(jobs)
    && (forall job :: job in jobs <==> exists b, table :: b in books && IsJobOf(texts, b, job, table))
  }

  lemma {:induction false} SortedNames(books: seq<Workbook>)
    requires DistinctNames(books)
    ensures forall i, j :: 0 <= i < j < |books| ==> ComesBefore(Sort(ByName(), books)[i].name, Sort(ByName(), books)[j].name)
  {
    NamesAreOrdered();
    SortSorts(ByName(), books);
    SortKeepsDistinct(ByName(), books);
    var sorted := Sort(ByName(), books);
    forall i, j | 0 <= i < j < |books| ensures ComesBefore(sorted[i].name, sorted[j].name) {
      assert !ByName()(sorted[j], sorted[i]);
      SortKeepsElements(ByName(), books, sorted[i]);
      SortKeepsElements(ByName(), books, sorted[j]);
      var k :| 0 <= k < |books| && books[k] == sorted[i];
      var l :| 0 <= l < |books| && books[l] == sorted[j];
      assert books[k].name != books[l].name;
      TextsCompare(sorted[i].name, sorted[j].name);
      TextLessMeans(sorted[i].name, sorted[j].name);
    }
  }

  /** The run meets every row of the workbooks once, by workbook, sheet and row number. */
  lemma {:induction false} JobsAreTheRows(texts: Texts, books: seq<Workbook>)
    requires DistinctNames(books)
    ensures AreTheRows(texts, books, AllJobs(texts, books))
  {
    var sorted, jobs := Sort(ByName(), books), AllJobs(texts, books);
    SortedNames(books);
    BooksAreOrdered(texts, sorted);
    forall job ensures job in jobs <==> exists b, table :: b in books && IsJobOf(texts, b, job, table) {
      BooksJobsMean(texts, sorted, job);
      forall b ensures b in sorted <==> b in books {
        SortKeepsElements(ByName(), books, b);
      }
    }
  }

  // ------------------------------------------------------------------ the checks of a row

  /** At least two clocks stand in the cells. */
  ghost predicate TwoClocks(texts: Texts, values: seq<string>) {
    || (exists i :: 0 <= i < |values| && texts.clocks(values[i]) >= 2)
    || (exists i, j :: 0 <= i < j < |values| && texts.clocks(values[i]) >= 1 && texts.clocks(values[j]) >= 1)
  }

  ghost predicate NoClocks(texts: Texts, values: seq<string>) {
    forall i :: 0 <= i < |values| ==> texts.clocks(values[i]) == 0
  }

  lemma {:induction false} NoClocksMeans(texts: Texts, values: seq<string>)
    ensures ClockTotal(texts, values) == 0 <==> NoClocks(texts, values)
  {
    if values != [] {
      var front, last := values[..|values| - 1], values[|values| - 1];
      NoClocksMeans(texts, front);
      assert values == front + [last];
      if NoClocks(texts, front) && texts.clocks(last) == 0 {
        forall i | 0 <= i < |values| ensures texts.clocks(values[i]) == 0 {}
      }
      if NoClocks(texts, values) {
        assert values[|values| - 1] == last;
        forall i | 0 <= i < |front| ensures texts.clocks(front[i]) == 0 {
          assert front[i] == values[i];
        }
      }
    }
  }

  lemma {:induction false} TwoClocksMean(texts: Texts, values: seq<string>)
    ensures ClockTotal(texts, values) >= 2 <==> TwoClocks(texts, values)
  {
    if values != [] {
      var n := |values| - 1;
      var front, last := values[..n], values[n];
      TwoClocksMean(texts, front);
      NoClocksMeans(texts, front);
      if ClockTotal(texts, values) >= 2 {
        if TwoClocks(texts, front) {
          TwoClocksOfFront(texts, values);
        } else if texts.clocks(last) >= 2 {
          assert texts.clocks(values[n]) >= 2;
        } else {
          var i :| 0 <= i < |front| && texts.clocks(front[i]) != 0;
          assert texts.clocks(values[i]) >= 1 && texts.clocks(values[n]) >= 1;
        }
      }
      if TwoClocks(texts, values) && ClockTotal(texts, values) < 2 {
        FewClocks(texts, values);
      }
    }
  }

  lemma {:induction false} TwoClocksOfFront(texts: Texts, values: seq<string>)
    requires values != [] && TwoClocks(texts, values[..|values| - 1])
    ensures TwoClocks(texts, values)
  {
    var front := values[..|values| - 1];
    if i :| 0 <= i < |front| && texts.clocks(front[i]) >= 2 {
      assert texts.clocks(values[i]) >= 2;
    } else {
      var i, j :| 0 <= i < j < |front| && texts.clocks(front[i]) >= 1 && texts.clocks(front[j]) >= 1;
      assert texts.clocks(values[i]) >= 1 && texts.clocks(values[j]) >= 1;
    }
  }

  lemma {:induction false} FewClocks(texts: Texts, values: seq<string>)
    requires values != [] && ClockTotal(texts, values) < 2 && !TwoClocks(texts, values[..|values| - 1])
    ensures !TwoClocks(texts, values)
  {
    var n := |values| - 1;
    var front := values[..n];
    NoClocksMeans(texts, front);
    forall i | 0 <= i < |values| ensures texts.clocks(values[i]) < 2 {
      assert i < n ==> front[i] == values[i];
    }
    forall i, j | 0 <= i < j < |values| ensures !(texts.clocks(values[i]) >= 1 && texts.clocks(values[j]) >= 1) {
      assert front[i] == values[i] && (j < n ==> front[j] == values[j]);
    }
  }

  /** Cell `c` stands under the first route header and holds a route number. */
  ghost predicate NumberCell(texts: Texts, job: Job, c: nat)
    requires job.RowJob?
  {
    && c < |job.headers| && texts.routeHeader(job.headers[c]) && (forall k :: 0 <= k < c ==> !texts.routeHeader(job.headers[k]))
    && c < |job.values| && texts.routeIn(job.values[c]).Some?
  }

  /** The row's route number: the one in that cell, or else the one in the sheet's title. */
  ghost predicate NumberIs(texts: Texts, job: Job, number: Option<string>)
    requires job.RowJob?
  {
    && (forall c: nat :: NumberCell(texts, job, c) ==> number == texts.routeIn(job.values[c]))
    && ((forall c: nat :: !NumberCell(texts, job, c)) ==> number == texts.routeOf(job.sheet))
  }

  lemma {:induction false} NumberIsFound(texts: Texts, job: Job)
    requires job.RowJob?
    ensures NumberIs(texts, job, RouteNumber(texts, job))
  {
    var column := RouteColumn(texts, job.headers);
    forall c: nat | NumberCell(texts, job, c) ensures c == column {}
    if column < |job.headers| && column < |job.values| && texts.routeIn(job.values[column]).Some? {
      assert NumberCell(texts, job, column);
    }
  }

  /** The rows that are compared with earlier ones: data rows with at least two clocks that no check
      before the comparison reports. */
  ghost predicate Passes(texts: Texts, target: int, job: Job, number: Option<string>) {
    && job.RowJob? && job.rowNumber >= 8 && TwoClocks(texts, job.values)
    && !texts.holiday(job.sheet)
    && job.effectiveFrom.Some? && job.effectiveFrom.value <= target
    && (forall i :: 0 <= i < |job.values| ==> !texts.onDemand(job.values[i]) && texts.clocks(job.values[i]) <= 1)
    && number.Some?
  }

  lemma {:induction false} PassesIff(texts: Texts, target: int, job: Job)
    requires job.RowJob?
    ensures Passes(texts, target, job, RouteNumber(texts, job)) <==> Compared(texts, target, job)
  {
    TwoClocksMean(texts, job.values);
    if Compared(texts, target, job) {
      forall i | 0 <= i < |job.values| ensures !texts.onDemand(job.values[i]) && texts.clocks(job.values[i]) <= 1 {
        assert job.values[i] in job.values;
      }
    }
  }

  /** Rows of one workbook with one number and header, and with the same cells but for the first. */
  ghost predicate SameRow(a: Job, b: Job, first: Option<string>, second: Option<string>)
    requires a.RowJob? && b.RowJob?
  {
    && a.workbook == b.workbook && first == second && a.headers == b.headers
    && (|a.values| <= 1 <==> |b.values| <= 1)
    && (|a.values| > 1 ==> |a.values| == |b.values| && forall i :: 1 <= i < |a.values| ==> a.values[i] == b.values[i])
  }

  lemma {:induction false} SameRowIff(texts: Texts, a: Job, b: Job)
    requires a.RowJob? && b.RowJob? && RouteNumber(texts, a).Some? && RouteNumber(texts, b).Some?
    ensures SameRow(a, b, RouteNumber(texts, a), RouteNumber(texts, b)) <==> IdentityOf(texts, a) == IdentityOf(texts, b)
  {
    var x, y := IdentityOf(texts, a).values, IdentityOf(texts, b).values;
    if x == y && |a.values| > 1 {
      assert |x| == |a.values| - 1 && |y| > 0;
      forall i | 1 <= i < |a.values| ensures a.values[i] == b.values[i] {
        assert x[i - 1] == y[i - 1];
      }
    }
    if SameRow(a, b, RouteNumber(texts, a), RouteNumber(texts, b)) {
      assert |x| == |y| && forall i :: 0 <= i < |x| ==> x[i] == a.values[i + 1] && y[i] == b.values[i + 1];
      assert x == y;
    }
  }

  // ------------------------------------------------------------------ what each row is answered

  /** An earlier row that passes is the same. */
  ghost predicate Repeats(texts: Texts, target: int, jobs: seq<Job>, numbers: seq<Option<string>>, k: nat)
    requires k < |jobs| == |numbers| && jobs[k].RowJob?
  {
    exists i :: 0 <= i < k && Passes(texts, target, jobs[i], numbers[i]) && SameRow(jobs[i], jobs[k], numbers[i], numbers[k])
  }

  /** A report on a row before its number counts. */
  function Early(job: Job, reason: Reason): Outcome
    requires job.RowJob?
  {
    Reported(Issue(reason, job.workbook, job.sheet, Some(job.rowNumber), None))
  }

  /** The answer to one row, check by check. */
  ghost predicate RowVerdict(texts: Texts, stops: seq<RouteStop>, target: int, job: Job, number: Option<string>, repeats: bool,
                             all: map<string, Reading>, outcome: Outcome)
  {
    if job.Headless? then outcome == Reported(Issue(HeaderMissing, job.workbook, job.sheet, None, None))
    else if job.rowNumber < 8 || !TwoClocks(texts, job.values) then outcome == Ignored
    else if texts.holiday(job.sheet) then outcome == Early(job, NonWeekday)
    else if job.effectiveFrom.None? then outcome == Early(job, EffectiveDateMissing)
    else if target < job.effectiveFrom.value then outcome == Early(job, BeforeEffectiveFrom)
    else if exists i :: 0 <= i < |job.values| && texts.onDemand(job.values[i]) then outcome == Early(job, OnDemand)
    else if exists i :: 0 <= i < |job.values| && texts.clocks(job.values[i]) > 1 then outcome == Early(job, MultipleClocks)
    else if number.None? then outcome == Early(job, RouteNumberMissing)
    else if repeats then outcome == Repeated
    else
      && Readings(texts, stops, Row(job.sheet, job.headers, job.values), all)
      && Verdict(stops, target, job, number.value, all, outcome)
  }

  lemma {:induction false} EarlyMeans(texts: Texts, stops: seq<RouteStop>, target: int, job: Job, repeats: bool, all: map<string, Reading>, outcome: Outcome)
    requires job.RowJob? && IsTripRow(texts, job) && EarlyReason(texts, target, job).Some?
    requires outcome == Reported(IssueFor(job, EarlyReason(texts, target, job).value, None))
    ensures RowVerdict(texts, stops, target, job, RouteNumber(texts, job), repeats, all, outcome)
  {
    TwoClocksMean(texts, job.values);
    assert forall i :: 0 <= i < |job.values| ==> job.values[i] in job.values;
  }

  lemma {:induction false} LateMeans(texts: Texts, stops: seq<RouteStop>, target: int, job: Job, repeats: bool, outcome: Outcome) returns (all: map<string, Reading>)
    requires job.RowJob? && Compared(texts, target, job)
    requires outcome == if repeats then Repeated else NumberOutcome(texts, stops, target, job, RouteNumber(texts, job).value)
    ensures RowVerdict(texts, stops, target, job, RouteNumber(texts, job), repeats, all, outcome)
  {
    PassesIff(texts, target, job);
    all := NumberMeans(texts, stops, target, job, RouteNumber(texts, job).value);
  }

  lemma {:induction false} RowMeans(texts: Texts, stops: seq<RouteStop>, target: int, job: Job, seen: set<Identity>, repeats: bool) returns (all: map<string, Reading>)
    requires Compared(texts, target, job) ==> (IdentityOf(texts, job) in seen <==> repeats)
    ensures RowVerdict(texts, stops, target, job, if job.RowJob? then RouteNumber(texts, job) else None, repeats, all,
                       OutcomeOf(texts, stops, target, job, seen))
  {
    all := map[];
    if job.RowJob? {
      TwoClocksMean(texts, job.values);
      if IsTripRow(texts, job) {
        if EarlyReason(texts, target, job).Some? {
          EarlyMeans(texts, stops, target, job, repeats, all, OutcomeOf(texts, stops, target, job, seen));
        } else {
          all := LateMeans(texts, stops, target, job, repeats, OutcomeOf(texts, stops, target, job, seen));
        }
      }
    }
  }

  // ------------------------------------------------------------------ the run

  /** Row `k` is answered by its verdict. */
  ghost predicate AnsweredAt(texts: Texts, stops: seq<RouteStop>, target: int, jobs: seq<Job>, numbers: seq<Option<string>>, k: nat,
                             all: map<string, Reading>, outcome: Outcome)
    requires k < |jobs| == |numbers|
  {
    RowVerdict(texts, stops, target, jobs[k], numbers[k], jobs[k].RowJob? && Repeats(texts, target, jobs, numbers, k), all, outcome)
  }

  /** The route numbers, readings and answers of the first `n` rows. */
  ghost predicate Run(texts: Texts, stops: seq<RouteStop>, target: int, jobs: seq<Job>, numbers: seq<Option<string>>,
                      readings: seq<map<string, Reading>>, outcomes: seq<Outcome>, n: nat)
  {
    && n <= |jobs| == |numbers| && |readings| == |outcomes| == n
    && (forall k :: 0 <= k < |jobs| && jobs[k].RowJob? ==> NumberIs(texts, jobs[k], numbers[k]))
    && (forall k :: 0 <= k < n ==>
          AnsweredAt(texts, stops, target, jobs, numbers, k, readings[k], outcomes[k]))
  }

  /** The mapped trips of the answers, or the reports, in the order of the rows. */
  function TripsIn(outcomes: seq<Outcome>): seq<Mapping> {
    if outcomes == [] then []
    else
      var last := outcomes[|outcomes| - 1];
      TripsIn(outcomes[..|outcomes| - 1]) + if last.Mapped? then [last.mapping] else []
  }

  function ReportsIn(outcomes: seq<Outcome>): seq<Issue> {
    if outcomes == [] then []
    else
      var last := outcomes[|outcomes| - 1];
      ReportsIn(outcomes[..|outcomes| - 1]) + if last.Reported? then [last.issue] else []
  }

  function NumbersIn(texts: Texts, jobs: seq<Job>): (r: seq<Option<string>>)
    ensures |r| == |jobs| && forall k :: 0 <= k < |jobs| ==> r[k] == if jobs[k].RowJob? then RouteNumber(texts, jobs[k]) else None
  {
    seq(|jobs|, k requires 0 <= k < |jobs| => if jobs[k].RowJob? then RouteNumber(texts, jobs[k]) else None)
  }

  lemma {:induction false} RepeatsIff(texts: Texts, stops: seq<RouteStop>, target: int, jobs: seq<Job>, k: nat)
    requires k < |jobs| && Compared(texts, target, jobs[k])
    ensures Repeats(texts, target, jobs, NumbersIn(texts, jobs), k)
            <==> IdentityOf(texts, jobs[k]) in After(RulesOf(texts, stops, target), jobs, k).seen
  {
    SeenIffRepeats(texts, stops, target, jobs, k);
    var numbers := NumbersIn(texts, jobs);
    forall i | 0 <= i < k
      ensures Passes(texts, target, jobs[i], numbers[i]) && SameRow(jobs[i], jobs[k], numbers[i], numbers[k])
              <==> SameIdentity(texts, target, jobs[i], IdentityOf(texts, jobs[k]))
    {
      if jobs[i].RowJob? {
        PassesIff(texts, target, jobs[i]);
        if Compared(texts, target, jobs[i]) {
          SameRowIff(texts, jobs[i], jobs[k]);
        }
      }
    }
  }

  lemma {:induction false} AnswerOf(texts: Texts, stops: seq<RouteStop>, target: int, jobs: seq<Job>, k: nat) returns (all: map<string, Reading>)
    requires k < |jobs|
    ensures AnsweredAt(texts, stops, target, jobs, NumbersIn(texts, jobs), k, all,
                       OutcomeOf(texts, stops, target, jobs[k], After(RulesOf(texts, stops, target), jobs, k).seen))
  {
    if Compared(texts, target, jobs[k]) {
      RepeatsIff(texts, stops, target, jobs, k);
    }
    var repeats := jobs[k].RowJob? && Repeats(texts, target, jobs, NumbersIn(texts, jobs), k);
    all := RowMeans(texts, stops, target, jobs[k], After(RulesOf(texts, stops, target), jobs, k).seen, repeats);
  }

  lemma {:induction false} ListedNext(rules: Rules, jobs: seq<Job>, n: nat, outcomes: seq<Outcome>)
    requires n < |jobs| && |outcomes| == n + 1 && outcomes[n] == rules.outcome(jobs[n], After(rules, jobs, n).seen)
    requires TripsIn(outcomes[..n]) == After(rules, jobs, n).mappings && ReportsIn(outcomes[..n]) == After(rules, jobs, n).issues
    ensures TripsIn(outcomes) == After(rules, jobs, n + 1).mappings && ReportsIn(outcomes) == After(rules, jobs, n + 1).issues
  {
  }

  lemma {:induction false} NumbersAreFound(texts: Texts, jobs: seq<Job>)
    ensures forall k :: 0 <= k < |jobs| && jobs[k].RowJob? ==> NumberIs(texts, jobs[k], NumbersIn(texts, jobs)[k])
  {
    forall k | 0 <= k < |jobs| && jobs[k].RowJob? ensures NumberIs(texts, jobs[k], NumbersIn(texts, jobs)[k]) {
      NumberIsFound(texts, jobs[k]);
    }
  }

  lemma {:induction false} RunSoFar(texts: Texts, stops: seq<RouteStop>, target: int, jobs: seq<Job>, n: nat)
    returns (readings: seq<map<string, Reading>>, outcomes: seq<Outcome>)
    requires n <= |jobs|
    ensures Run(texts, stops, target, jobs, NumbersIn(texts, jobs), readings, outcomes, n)
    ensures TripsIn(outcomes) == After(RulesOf(texts, stops, target), jobs, n).mappings
    ensures ReportsIn(outcomes) == After(RulesOf(texts, stops, target), jobs, n).issues
  {
    readings, outcomes := [], [];
    if n == 0 {
      NumbersAreFound(texts, jobs);
    } else {
      var before, answers := RunSoFar(texts, stops, target, jobs, n - 1);
      var all := AnswerOf(texts, stops, target, jobs, n - 1);
      readings := before + [all];
      outcomes := answers + [OutcomeOf(texts, stops, target, jobs[n - 1], After(RulesOf(texts, stops, target), jobs, n - 1).seen)];
      assert outcomes[..n - 1] == answers;
      ListedNext(RulesOf(texts, stops, target), jobs, n - 1, outcomes);
    }
  }

  /** Main result: a run's trips and reports are the verdicts on the rows of the workbooks, each row
      once and in order, whatever the workbooks hold. */
  lemma {:induction false} RunMeans(texts: Texts, books: seq<Workbook>, stops: seq<RouteStop>, target: int, result: State)
    returns (jobs: seq<Job>, numbers: seq<Option<string>>, readings: seq<map<string, Reading>>, outcomes: seq<Outcome>)
    requires DistinctNames(books) && MapTrips(texts, books, stops, target) == Ok(result)
    ensures AreTheRows(texts, books, jobs)
    ensures Run(texts, stops, target, jobs, numbers, readings, outcomes, |jobs|)
    ensures result.mappings == TripsIn(outcomes) && result.issues == ReportsIn(outcomes)
  {
    jobs := AllJobs(texts, books);
    JobsAreTheRows(texts, books);
    numbers := NumbersIn(texts, jobs);
    readings, outcomes := RunSoFar(texts, stops, target, jobs, |jobs|);
    AfterIsFold(RulesOf(texts, stops, target), jobs, |jobs|);
    assert jobs[..|jobs|] == jobs;
  }

  /** Nothing is mapped on the sixth and seventh day of a week. */
  lemma {:induction false} WeekendIsRefused(texts: Texts, books: seq<Workbook>, stops: seq<RouteStop>, target: int)
    ensures MapTrips(texts, books, stops, target) == Err(TargetNotWeekday) <==> target % 7 == 6 || target % 7 == 0
  {
    assert (target - 1) % 7 == if target % 7 == 0 then 6 else target % 7 - 1;
  }

  /** `map_exact_weekday_trips`. */
  method MapExactWeekdayTrips(texts: Texts, workbooks: seq<Workbook>, stops: seq<RouteStop>, target: int)
    returns (result: Result<State, Rejection>, ghost jobs: seq<Job>, ghost numbers: seq<Option<string>>, ghost readings: seq<map<string, Reading>>,
             ghost outcomes: seq<Outcome>)
    requires DistinctNames(workbooks)
    ensures result == MapTrips(texts, workbooks, stops, target)
    ensures result == Err(TargetNotWeekday) <==> target % 7 == 6 || target % 7 == 0
    ensures result.Ok? ==>
              && AreTheRows(texts, workbooks, jobs)
              && Run(texts, stops, target, jobs, numbers, readings, outcomes, |jobs|)
              && result.value.mappings == TripsIn(outcomes) && result.value.issues == ReportsIn(outcomes)
  {
    WeekendIsRefused(texts, workbooks, stops, target);
    jobs, numbers, readings, outcomes := [], [], [], [];
    if IsoWeekday(target) > 5 {
      return Err(TargetNotWeekday), [], [], [], [];
    }
    var books := Sort(ByName(), workbooks);
    var s := EMPTY;
    for i := 0 to |books|
      invariant s == Fold(StepOf(RulesOf(texts, stops, target)), EMPTY, BooksJobs(texts, books[..i]))
    {
      BooksFold(StepOf(RulesOf(texts, stops, target)), EMPTY, texts, books, i);
      s := MapBook(texts, stops, target, books[i], s);
    }
    assert books[..|books|] == books;
    jobs, numbers, readings, outcomes := RunMeans(texts, workbooks, stops, target, s);
    result := Ok(s);
  }
}
