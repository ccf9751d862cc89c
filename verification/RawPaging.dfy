/** What collecting one query comes to, written out on the provider's answers. */
module RawPaging {
  import opened Common
  import opened RawNames
  import opened RawArchive
  import opened RawMeaning
  import opened RawCollection

  // ------------------------------------------------------------------ one request

  /** An answer after which the page is asked for again, as long as tries are left: a body that does
      not decode or is rejected, a timeout, a status other than 429. */
  predicate AskedAgain(parse: Parser, reply: Reply) {
    match reply
    case Body(raw) => parse(raw) == None
    case BodyRejected => true
    case HttpStatus(code) => code != 429
    case TimedOut => true
    case Broken => false
  }

  /** The failure an answer stands for, when it is not a page. */
  predicate FailsWith(parse: Parser, reply: Reply, reason: Reason) {
    match reply
    case Body(raw) => parse(raw) == None && reason == PayloadReason
    case BodyRejected => reason == PayloadReason
    case HttpStatus(code) => reason == HttpReason(code)
    case TimedOut => reason == InterruptedReason
    case Broken => reason == InterruptedReason
  }

  /** Up to three answers, from number `from` on, of which all but the last are asked again. */
  ghost predicate UpToThree(parse: Parser, server: Server, from: nat, until: nat) {
    from < until <= from + 3 && forall t: nat :: from <= t < until - 1 ==> AskedAgain(parse, server(t))
  }

  ghost predicate GetsPage(parse: Parser, server: Server, from: nat, until: nat, page: Page) {
    UpToThree(parse, server, from, until) && server(until - 1).Body? && parse(server(until - 1).raw) == Some(page)
  }

  ghost predicate GetsNoPage(parse: Parser, server: Server, from: nat, until: nat, reason: Reason) {
    UpToThree(parse, server, from, until) && FailsWith(parse, server(until - 1), reason)
    && (until == from + 3 || !AskedAgain(parse, server(until - 1)))
  }

  lemma {:induction false} FetchingMeans(parse: Parser, server: Server, from: nat)
    ensures var (r, until) := Fetching(parse, server, from, 3);
            if r.Got? then GetsPage(parse, server, from, until, r.page) else GetsNoPage(parse, server, from, until, FailureReason(r))
  {
    var (r, until) := Fetching(parse, server, from, 3);
    FetchMeans(parse, server, from, 3, until, r);
    forall t: nat | from <= t < until - 1 ensures AskedAgain(parse, server(t)) {
      assert Retried(parse, server(t));
    }
  }

  // ------------------------------------------------------------------ one query

  /** One page after the other: page `i + 1` comes from the answers `ticks[i]` up to `ticks[i + 1]`;
      every page but the first has its own number and the first one's total. */
  ghost predicate PageRun(parse: Parser, server: Server, ticks: seq<nat>, pages: seq<Page>) {
    && |ticks| == |pages| + 1
    && (forall i :: 0 <= i < |pages| ==> GetsPage(parse, server, ticks[i], ticks[i + 1], pages[i]))
    && (forall i :: 0 < i < |pages| ==> Continues(pages[i], i + 1, pages[0]))
  }

  predicate Continues(page: Page, number: nat, first: Page) {
    page.number == number && page.totalCount == first.totalCount
  }

  /** The pages collected hold less than the total. */
  predicate MoreToCome(pages: seq<Page>) {
    pages == [] || |pages| * pages[0].rowsPerPage < pages[0].totalCount <= 10_000 * pages[0].rowsPerPage
  }

  /** Complete with all announced pages, at most ten thousand; or stopped at the first page because it
      announces more; or at a page with another number or total; or at a request that got no page. */
  ghost predicate CollectedAs(parse: Parser, server: Server, ticks: seq<nat>, r: Pagination, until: nat) {
    && PageRun(parse, server, ticks, r.pages) && (r.complete <==> r.reason == None)
    && var last := ticks[|r.pages|];
       match r.reason
       case None => r.pages != [] && Announces(r.pages[0], |r.pages|) && |r.pages| <= 10_000 && until == last
       case Some(LimitExceeded) => |r.pages| == 1 && r.pages[0].totalCount > 10_000 * r.pages[0].rowsPerPage && until == last
       case Some(MetadataChanged) => r.pages != [] && MoreToCome(r.pages)
         && exists page :: GetsPage(parse, server, last, until, page) && !Continues(page, |r.pages| + 1, r.pages[0])
       case Some(reason) => MoreToCome(r.pages) && GetsNoPage(parse, server, last, until, reason)
  }

  lemma {:induction false} PageRunOneMore(parse: Parser, server: Server, ticks: seq<nat>, pages: seq<Page>, page: Page, until: nat)
    requires PageRun(parse, server, ticks, pages) && GetsPage(parse, server, ticks[|pages|], until, page)
    requires pages == [] || Continues(page, |pages| + 1, pages[0])
    ensures PageRun(parse, server, ticks + [until], pages + [page])
  {
    var t, p := ticks + [until], pages + [page];
    forall i | 0 <= i < |p| ensures GetsPage(parse, server, t[i], t[i + 1], p[i]) {
      if i < |pages| {
        assert t[i] == ticks[i] && t[i + 1] == ticks[i + 1] && p[i] == pages[i];
      }
    }
    forall i | 0 < i < |p| ensures Continues(p[i], i + 1, p[0]) {
      if i < |pages| {
        assert p[i] == pages[i];
      }
    }
  }

  lemma {:induction false} ExpectedMore(first: Page, count: nat)
    requires count >= 1
    ensures count < ExpectedPages(first) <==> count * first.rowsPerPage < first.totalCount
  {
    var n := ExpectedPages(first);
    if count < n {
      Fewer(count, n - 1, first.rowsPerPage);
    } else {
      Fewer(n, count, first.rowsPerPage);
    }
  }

  lemma {:induction false} PagesFromMeans(parse: Parser, server: Server, members: seq<Member>, query: nat, ticks: seq<nat>, pages: seq<Page>, expected: nat)
    returns (all: seq<nat>)
    requires pages != [] && PageRun(parse, server, ticks, pages)
    requires expected == ExpectedPages(pages[0]) && |pages| <= expected <= 10_000
    ensures var (r, until, now) := PagesFrom(parse, server, ticks[|pages|], members, query, pages, expected);
            CollectedAs(parse, server, all, r, until) && all != [] && all[0] == ticks[0]
    decreases expected - |pages|
  {
    var clock := ticks[|pages|];
    all := ticks;
    ExpectedMore(pages[0], |pages|);
    ExpectedMore(pages[0], 10_000);
    if |pages| == expected {
      AnnouncedIsExpected(pages[0], |pages|);
    } else {
      var (fetched, until) := Fetching(parse, server, clock, 3);
      var filed := Filed(server, clock, until, members, query, |pages| + 1);
      FetchingMeans(parse, server, clock);
      if fetched.Got? && Continues(fetched.page, |pages| + 1, pages[0]) {
        PageRunOneMore(parse, server, ticks, pages, fetched.page, until);
        all := PagesFromMeans(parse, server, filed, query, ticks + [until], pages + [fetched.page], expected);
      }
    }
  }

  /** Collecting a query in a supported format comes to exactly that; in another format it asks for
      nothing. */
  lemma {:induction false} CollectingMeans(parse: Parser, server: Server, clock: nat, members: seq<Member>, query: nat) returns (ticks: seq<nat>)
    ensures var (r, until, now) := Collecting(parse, true, server, clock, members, query);
            CollectedAs(parse, server, ticks, r, until) && ticks != [] && ticks[0] == clock
    ensures Collecting(parse, false, server, clock, members, query) == (Pagination(false, [], Some(InterruptedReason)), clock, members)
  {
    var (fetched, until) := Fetching(parse, server, clock, 3);
    FetchingMeans(parse, server, clock);
    ticks := [clock];
    if fetched.Got? {
      PageRunOneMore(parse, server, [clock], [], fetched.page, until);
      ticks := [clock] + [until];
      ExpectedMore(fetched.page, 10_000);
      if ExpectedPages(fetched.page) <= 10_000 {
        var filed := Filed(server, clock, until, members, query, 1);
        assert [] + [fetched.page] == [fetched.page];
        ticks := PagesFromMeans(parse, server, filed, query, [clock] + [until], [fetched.page], ExpectedPages(fetched.page));
      }
    }
  }

  /** The new members carry these bodies, for this page, under the attempt numbers that follow. */
  ghost predicate Numbered(before: seq<Member>, now: seq<Member>, raws: seq<Bytes>, query: nat, number: nat, highest: nat) {
    && |now| == |before| + |raws| && before <= now
    && (forall i :: 0 <= i < |raws| ==> now[|before| + i] == Member(PageKey(query, number, highest + 1 + i), raws[i]))
    && HighestAttempt(now, query, number, highest + |raws|)
  }

  lemma {:induction false} NumberedOneMore(before: seq<Member>, now: seq<Member>, raws: seq<Bytes>, query: nat, number: nat, highest: nat, raw: Bytes)
    requires Numbered(before, now, raws, query, number, highest)
    ensures MaxAttempt(now, query, number) == highest + |raws|
    ensures Numbered(before, now + [Member(PageKey(query, number, highest + |raws| + 1), raw)], raws + [raw], query, number, highest)
  {
    MaxAttemptMeans(now, query, number);
    OneHighest(now, query, number, MaxAttempt(now, query, number), highest + |raws|);
    var m := Member(PageKey(query, number, highest + |raws| + 1), raw);
    assert m in now + [m];
    forall i | 0 <= i < |raws + [raw]| ensures (now + [m])[|before| + i] == Member(PageKey(query, number, highest + 1 + i), (raws + [raw])[i]) {
      if i < |raws| {
        assert (now + [m])[|before| + i] == now[|before| + i];
      }
    }
  }

  lemma {:induction false} NumberedNone(before: seq<Member>, query: nat, number: nat, highest: nat)
    requires HighestAttempt(before, query, number, highest)
    ensures Numbered(before, before, [], query, number, highest)
  {
  }

  lemma {:induction false} OneHighest(members: seq<Member>, query: nat, number: nat, a: nat, b: nat)
    requires HighestAttempt(members, query, number, a) && HighestAttempt(members, query, number, b)
    ensures a == b
  {
  }

  /** One more answer: nothing to file, or one body under the next number. */
  lemma {:induction false} NumberedNext(before: seq<Member>, now: seq<Member>, raws: seq<Bytes>, query: nat, number: nat, highest: nat, reply: Reply,
                                        filed: seq<Member>, bodies: seq<Bytes>)
    requires Numbered(before, now, raws, query, number, highest)
    requires filed == if reply.Body? then now + [Member(PageKey(query, number, MaxAttempt(now, query, number) + 1), reply.raw)] else now
    requires bodies == raws + if reply.Body? then [reply.raw] else []
    ensures Numbered(before, filed, bodies, query, number, highest)
  {
    if reply.Body? {
      NumberedOneMore(before, now, raws, query, number, highest, reply.raw);
    } else {
      assert bodies == raws;
    }
  }

  lemma {:induction false} BodiesNext(server: Server, from: nat, at: nat)
    requires from <= at
    ensures BodiesOf(server, from, at + 1) == BodiesOf(server, from, at) + if server(at).Body? then [server(at).raw] else []
  {
  }

  /** The answered bodies are filed one after the other, for this page, under the attempt numbers that
      follow the highest one there was. */
  lemma {:induction false} FiledIsNumbered(server: Server, from: nat, until: nat, members: seq<Member>, query: nat, number: nat, highest: nat)
    requires from <= until && HighestAttempt(members, query, number, highest)
    ensures Numbered(members, Filed(server, from, until, members, query, number), BodiesOf(server, from, until), query, number, highest)
    decreases until
  {
    if from == until {
      NumberedNone(members, query, number, highest);
    } else {
      var at := until - 1;
      FiledIsNumbered(server, from, at, members, query, number, highest);
      BodyIsFiled(server, from, at, members, query, number);
      BodiesNext(server, from, at);
      NumberedNext(members, Filed(server, from, at, members, query, number), BodiesOf(server, from, at), query, number, highest, server(at),
                   Filed(server, from, until, members, query, number), BodiesOf(server, from, until));
    }
  }
}
