/** The archive of raw pages and the loader that rebuilds finished queries from it. */
module RawArchive {
  import opened Common
  import opened RawNames

  type Bytes = seq<bv8>

  datatype PageData = PageData(number: nat, rowsPerPage: nat, totalCount: nat, items: seq<int>)

  /** What the envelope parsers let through. */
  type Page = p: PageData | p.number >= 1 && p.rowsPerPage >= 1 witness PageData(1, 1, 0, [])

  /** Decoding a response body; `None` is an invalid payload. */
  type Parser = Bytes -> Option<Page>

  datatype Member = Member(key: PageKey, raw: Bytes)

  /** One file of the archive. */
  datatype Entry = Entry(name: string, raw: Bytes)

  datatype Manifest = Manifest(schemaVersion: string, sourceId: string, queryCount: nat, queries: seq<map<string, string>>, expansionFrom: Option<nat>)

  ghost predicate DistinctKeys(members: seq<Member>) {
    forall i, j :: 0 <= i < j < |members| ==> members[i].key != members[j].key
  }

  /** Every page the request asks for: `max(1, ceil(total / rows))`. */
  function ExpectedPages(first: Page): (n: nat)
    ensures n >= 1
    ensures n == 1 || (n - 1) * first.rowsPerPage < first.totalCount <= n * first.rowsPerPage
    ensures n == 1 ==> first.totalCount <= first.rowsPerPage
  {
    var pages := (first.totalCount + first.rowsPerPage - 1) / first.rowsPerPage;
    CeilingDivision(first.totalCount, first.rowsPerPage, pages);
    if pages < 1 then 1 else pages
  }

  lemma {:induction false} CeilingDivision(total: nat, rows: nat, pages: int)
    requires rows >= 1 && pages == (total + rows - 1) / rows
    ensures total <= pages * rows < total + rows
    ensures (pages - 1) * rows < total
  {
    var r := (total + rows - 1) % rows;
    assert total + rows - 1 == pages * rows + r;
    assert (pages - 1) * rows == pages * rows - rows;
  }

  // ------------------------------------------------------------------ what an archive says

  /** The highest attempt number stored for a page, or zero. */
  function MaxAttempt(members: seq<Member>, query: nat, page: nat): nat {
    if members == [] then 0
    else
      var last := members[|members| - 1].key;
      var before := MaxAttempt(members[..|members| - 1], query, page);
      if last.query == query && last.page == page && last.attempt > before then last.attempt else before
  }

  datatype Stored = Stored(attempt: nat, page: Page)

  /** A member that decodes to the page it is filed under. */
  predicate Usable(parse: Parser, m: Member) {
    parse(m.raw).Some? && parse(m.raw).value.number == m.key.page
  }

  /** The usable copy of a page with the highest attempt. */
  function Latest(parse: Parser, members: seq<Member>, query: nat, page: nat): Option<Stored> {
    if members == [] then None
    else
      var m := members[|members| - 1];
      var before := Latest(parse, members[..|members| - 1], query, page);
      if m.key.query == query && m.key.page == page && Usable(parse, m) && (before.None? || m.key.attempt > before.value.attempt)
      then Some(Stored(m.key.attempt, parse(m.raw).value))
      else before
  }

  /** Pages 1 to `n` of a query, as many as are stored. */
  function StoredPages(parse: Parser, members: seq<Member>, query: nat, n: nat): seq<Page> {
    if n == 0 then []
    else
      var before := StoredPages(parse, members, query, n - 1);
      var latest := Latest(parse, members, query, n);
      if latest.Some? then before + [latest.value.page] else before
  }

  /** A query is finished when its first page is stored, every page the first one announces is
      stored, and they agree on the total. */
  function Finished(parse: Parser, members: seq<Member>, query: nat): Option<seq<Page>> {
    var first := Latest(parse, members, query, 1);
    if first.None? then None
    else
      var n := ExpectedPages(first.value.page);
      var pages := StoredPages(parse, members, query, n);
      if |pages| == n && forall i :: 0 <= i < |pages| ==> pages[i].totalCount == first.value.page.totalCount then Some(pages) else None
  }

  /** Members of other queries change nothing for this one. */
  lemma {:induction false} OtherQueriesDoNotMatter(parse: Parser, members: seq<Member>, added: seq<Member>, query: nat)
    requires forall m :: m in added ==> m.key.query != query
    ensures Finished(parse, members + added, query) == Finished(parse, members, query)
  {
    forall page: nat ensures Latest(parse, members + added, query, page) == Latest(parse, members, query, page) {
      LatestIgnoresOthers(parse, members, added, query, page);
    }
    var first := Latest(parse, members, query, 1);
    if first.Some? {
      SameLatestSamePages(parse, members + added, members, query, ExpectedPages(first.value.page));
    }
  }

  lemma {:induction false} LatestIgnoresOthers(parse: Parser, members: seq<Member>, added: seq<Member>, query: nat, page: nat)
    requires forall m :: m in added ==> m.key.query != query || m.key.page != page
    ensures Latest(parse, members + added, query, page) == Latest(parse, members, query, page)
  {
    if added == [] {
      assert members + added == members;
    } else {
      var front := added[..|added| - 1];
      assert (members + added)[..|members + added| - 1] == members + front;
      assert added[|added| - 1] in added;
      LatestIgnoresOthers(parse, members, front, query, page);
    }
  }

  lemma {:induction false} MaxAttemptIgnoresOthers(members: seq<Member>, added: seq<Member>, query: nat, page: nat)
    requires forall m :: m in added ==> m.key.query != query || m.key.page != page
    ensures MaxAttempt(members + added, query, page) == MaxAttempt(members, query, page)
  {
    if added == [] {
      assert members + added == members;
    } else {
      var front := added[..|added| - 1];
      assert (members + added)[..|members + added| - 1] == members + front;
      assert added[|added| - 1] in added;
      MaxAttemptIgnoresOthers(members, front, query, page);
    }
  }

  lemma {:induction false} SameLatestSamePages(parse: Parser, a: seq<Member>, b: seq<Member>, query: nat, n: nat)
    requires forall page: nat :: Latest(parse, a, query, page) == Latest(parse, b, query, page)
    ensures StoredPages(parse, a, query, n) == StoredPages(parse, b, query, n)
  {
    if n > 0 {
      SameLatestSamePages(parse, a, b, query, n - 1);
    }
  }

  lemma {:induction false} MaxAttemptBounds(members: seq<Member>, m: Member)
    requires m in members
    ensures m.key.attempt <= MaxAttempt(members, m.key.query, m.key.page)
  {
    if m != members[|members| - 1] {
      assert m in members[..|members| - 1];
      MaxAttemptBounds(members[..|members| - 1], m);
    }
  }

  lemma {:induction false} LatestIsNoNewer(parse: Parser, members: seq<Member>, query: nat, page: nat)
    requires Latest(parse, members, query, page).Some?
    ensures Latest(parse, members, query, page).value.attempt <= MaxAttempt(members, query, page)
    ensures Latest(parse, members, query, page).value.page.number == page
  {
    var front := members[..|members| - 1];
    if Latest(parse, front, query, page).Some? {
      LatestIsNoNewer(parse, front, query, page);
    }
  }

  /** A fresh attempt that decodes to its own page becomes the latest copy. */
  lemma {:induction false} FreshAttemptIsLatest(parse: Parser, members: seq<Member>, m: Member)
    requires m.key.attempt == MaxAttempt(members, m.key.query, m.key.page) + 1
    ensures MaxAttempt(members + [m], m.key.query, m.key.page) == m.key.attempt
    ensures Usable(parse, m) ==> Latest(parse, members + [m], m.key.query, m.key.page) == Some(Stored(m.key.attempt, parse(m.raw).value))
    ensures !Usable(parse, m) ==> Latest(parse, members + [m], m.key.query, m.key.page) == Latest(parse, members, m.key.query, m.key.page)
  {
    assert (members + [m])[..|members|] == members;
    if Latest(parse, members, m.key.query, m.key.page).Some? {
      LatestIsNoNewer(parse, members, m.key.query, m.key.page);
    }
  }

  lemma {:induction false} FreshKeyIsNew(members: seq<Member>, key: PageKey)
    requires key.attempt == MaxAttempt(members, key.query, key.page) + 1
    ensures forall m :: m in members ==> m.key != key
  {
    forall m | m in members ensures m.key != key {
      if m.key == key {
        MaxAttemptBounds(members, m);
      }
    }
  }
}
