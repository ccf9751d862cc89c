/** What an archive says about a query, written out on its members. */
module RawMeaning {
  import opened Common
  import opened RawNames
  import opened RawArchive

  /** The member is a copy of the query's page: it decodes, to a page that reports that number. */
  predicate CopyOf(parse: Parser, m: Member, query: nat, number: nat) {
    m.key.query == query && m.key.page == number && parse(m.raw).Some? && parse(m.raw).value.number == number
  }

  /** The page is what the copy with the highest attempt decodes to. */
  ghost predicate NewestCopy(parse: Parser, members: seq<Member>, query: nat, number: nat, page: Page) {
    exists m :: m in members && IsNewestOf(parse, members, m, query, number) && parse(m.raw) == Some(page)
  }

  ghost predicate IsNewestOf(parse: Parser, members: seq<Member>, m: Member, query: nat, number: nat) {
    CopyOf(parse, m, query, number) && forall o :: o in members && CopyOf(parse, o, query, number) ==> o.key.attempt <= m.key.attempt
  }

  /** So many pages hold the total, and no fewer; at least one. */
  predicate Announces(first: Page, count: nat) {
    count >= 1 && first.totalCount <= count * first.rowsPerPage && (count == 1 || (count - 1) * first.rowsPerPage < first.totalCount)
  }

  /** All pages that the first one announces are there, numbered from one, agreeing on the total,
      each the newest copy in the archive. */
  ghost predicate Complete(parse: Parser, members: seq<Member>, query: nat, pages: seq<Page>) {
    && pages != [] && Announces(pages[0], |pages|)
    && forall i :: 0 <= i < |pages| ==>
         pages[i].number == i + 1 && pages[i].totalCount == pages[0].totalCount && NewestCopy(parse, members, query, i + 1, pages[i])
  }

  // ------------------------------------------------------------------ the archive's functions mean that

  lemma {:induction false} AnnouncedIsExpected(first: Page, count: nat)
    ensures Announces(first, count) <==> count == ExpectedPages(first)
  {
    var n := ExpectedPages(first);
    if Announces(first, count) {
      if count < n {
        Fewer(count, n - 1, first.rowsPerPage);
      } else if n < count {
        Fewer(n, count - 1, first.rowsPerPage);
      }
    }
  }

  lemma {:induction false} Fewer(a: nat, b: nat, rows: nat)
    requires a <= b
    ensures a * rows <= b * rows
  {
  }

  lemma {:induction false} LatestIsNewest(parse: Parser, members: seq<Member>, query: nat, number: nat)
    ensures Latest(parse, members, query, number).None? <==> forall m :: m in members ==> !CopyOf(parse, m, query, number)
    ensures Latest(parse, members, query, number).Some? ==>
              exists m :: m in members && IsNewestOf(parse, members, m, query, number)
                          && Latest(parse, members, query, number) == Some(Stored(m.key.attempt, parse(m.raw).value))
  {
    if members != [] {
      var front, last := members[..|members| - 1], members[|members| - 1];
      assert members == front + [last];
      LatestIsNewest(parse, front, query, number);
      if Latest(parse, members, query, number).Some? {
        if Latest(parse, members, query, number) == Latest(parse, front, query, number) {
          var m :| m in front && IsNewestOf(parse, front, m, query, number)
                   && Latest(parse, front, query, number) == Some(Stored(m.key.attempt, parse(m.raw).value));
          assert m in members && IsNewestOf(parse, members, m, query, number);
        } else {
          assert last in members && IsNewestOf(parse, members, last, query, number);
        }
      }
    }
  }

  lemma {:induction false} OneNewest(parse: Parser, members: seq<Member>, a: Member, b: Member, query: nat, number: nat)
    requires DistinctKeys(members) && a in members && b in members
    requires IsNewestOf(parse, members, a, query, number) && IsNewestOf(parse, members, b, query, number)
    ensures a == b
  {
    var i :| 0 <= i < |members| && members[i] == a;
    var j :| 0 <= j < |members| && members[j] == b;
    assert a.key == b.key;
  }

  lemma {:induction false} LatestMeans(parse: Parser, members: seq<Member>, query: nat, number: nat, page: Page)
    requires DistinctKeys(members)
    ensures Latest(parse, members, query, number).Some? && Latest(parse, members, query, number).value.page == page
            <==> NewestCopy(parse, members, query, number, page)
  {
    LatestIsNewest(parse, members, query, number);
    if Latest(parse, members, query, number).Some? {
      var m :| m in members && IsNewestOf(parse, members, m, query, number)
               && Latest(parse, members, query, number) == Some(Stored(m.key.attempt, parse(m.raw).value));
      if NewestCopy(parse, members, query, number, page) {
        var o :| o in members && IsNewestOf(parse, members, o, query, number) && parse(o.raw) == Some(page);
        OneNewest(parse, members, m, o, query, number);
      }
    }
  }

  ghost predicate AllNewest(parse: Parser, members: seq<Member>, query: nat, pages: seq<Page>) {
    forall i :: 0 <= i < |pages| ==> NewestCopy(parse, members, query, i + 1, pages[i])
  }

  lemma {:induction false} StoredLength(parse: Parser, members: seq<Member>, query: nat, n: nat)
    ensures |StoredPages(parse, members, query, n)| <= n
  {
    if n > 0 {
      StoredLength(parse, members, query, n - 1);
    }
  }

  lemma {:induction false} StoredSplits(parse: Parser, members: seq<Member>, query: nat, n: nat, front: seq<Page>, last: Page)
    requires n > 0 && |front| == n - 1
    ensures StoredPages(parse, members, query, n) == front + [last] <==>
            StoredPages(parse, members, query, n - 1) == front
            && Latest(parse, members, query, n).Some? && Latest(parse, members, query, n).value.page == last
  {
    StoredLength(parse, members, query, n - 1);
    var before := StoredPages(parse, members, query, n - 1);
    if StoredPages(parse, members, query, n) == front + [last] {
      assert |front + [last]| == n;
      assert (front + [last])[..n - 1] == front;
      assert StoredPages(parse, members, query, n)[..n - 1] == before;
    }
  }

  lemma {:induction false} AllNewestSplits(parse: Parser, members: seq<Member>, query: nat, front: seq<Page>, last: Page)
    ensures AllNewest(parse, members, query, front + [last]) <==>
            AllNewest(parse, members, query, front) && NewestCopy(parse, members, query, |front| + 1, last)
  {
    var pages := front + [last];
    assert pages[|front|] == last;
    assert forall i :: 0 <= i < |front| ==> pages[i] == front[i];
  }

  /** As many pages as asked for are stored exactly when each has a newest copy. */
  lemma {:induction false} StoredPagesMean(parse: Parser, members: seq<Member>, query: nat, n: nat, pages: seq<Page>)
    requires DistinctKeys(members) && |pages| == n
    ensures StoredPages(parse, members, query, n) == pages <==> AllNewest(parse, members, query, pages)
  {
    if n > 0 {
      var front, last := pages[..n - 1], pages[n - 1];
      assert pages == front + [last];
      StoredPagesMean(parse, members, query, n - 1, front);
      LatestMeans(parse, members, query, n, last);
      StoredSplits(parse, members, query, n, front, last);
      AllNewestSplits(parse, members, query, front, last);
    }
  }

  lemma {:induction false} FinishedIsComplete(parse: Parser, members: seq<Member>, query: nat, pages: seq<Page>)
    requires DistinctKeys(members) && Finished(parse, members, query) == Some(pages)
    ensures Complete(parse, members, query, pages)
  {
    var first := Latest(parse, members, query, 1).value.page;
    StoredPagesMean(parse, members, query, |pages|, pages);
    LatestMeans(parse, members, query, 1, first);
    LatestMeans(parse, members, query, 1, pages[0]);
    AnnouncedIsExpected(first, |pages|);
  }

  /** A query is finished with these pages exactly when they are complete in the archive. */
  lemma {:induction false} FinishedMeans(parse: Parser, members: seq<Member>, query: nat, pages: seq<Page>)
    requires DistinctKeys(members)
    ensures Finished(parse, members, query) == Some(pages) <==> Complete(parse, members, query, pages)
  {
    if Finished(parse, members, query) == Some(pages) {
      FinishedIsComplete(parse, members, query, pages);
    }
    if Complete(parse, members, query, pages) {
      LatestMeans(parse, members, query, 1, pages[0]);
      AnnouncedIsExpected(pages[0], |pages|);
      StoredPagesMean(parse, members, query, |pages|, pages);
    }
  }

  /** The highest attempt filed for a page, zero when there is none. */
  ghost predicate HighestAttempt(members: seq<Member>, query: nat, number: nat, attempt: nat) {
    && (forall m :: m in members && m.key.query == query && m.key.page == number ==> m.key.attempt <= attempt)
    && (attempt == 0 || exists m :: m in members && m.key == PageKey(query, number, attempt))
  }

  lemma {:induction false} MaxAttemptMeans(members: seq<Member>, query: nat, number: nat)
    ensures HighestAttempt(members, query, number, MaxAttempt(members, query, number))
  {
    if members != [] {
      var front, last := members[..|members| - 1], members[|members| - 1];
      assert members == front + [last];
      MaxAttemptMeans(front, query, number);
      if MaxAttempt(members, query, number) != 0 && MaxAttempt(members, query, number) == MaxAttempt(front, query, number) {
        var m :| m in front && m.key == PageKey(query, number, MaxAttempt(front, query, number));
        assert m in members;
      }
    }
  }
}
