/** One collection run: the archive being written, the page fetches with their retries, the
    pagination of each query and the batch over all queries. */
module RawCollection {
  import opened Common
  import opened RawNames
  import opened RawArchive
  import opened RawResume

  datatype SpoolError = ManifestDuplicated | PageDuplicated

  /** The append-only archive of a run. */
  class RawPageSpool {
    var manifest: Option<Manifest>
    var members: seq<Member>
    var pageNumbers: set<PageKey>

    ghost predicate Valid()
      reads this
    {
      && DistinctKeys(members)
      && forall key :: key in pageNumbers <==> exists m :: m in members && m.key == key
    }

    constructor ()
      ensures Valid() && members == [] && manifest == None
    {
      manifest, members, pageNumbers := None, [], {};
    }

    method AddManifest(m: Manifest) returns (r: Result<(), SpoolError>)
      requires Valid()
      modifies this`manifest
      ensures Valid()
      ensures old(manifest).Some? ==> r == Err(ManifestDuplicated) && manifest == old(manifest)
      ensures old(manifest).None? ==> r == Ok(()) && manifest == Some(m)
    {
      if manifest.Some? {
        return Err(ManifestDuplicated);
      }
      manifest := Some(m);
      return Ok(());
    }

    method AddScopedRawPage(key: PageKey, raw: Bytes) returns (r: Result<(), SpoolError>)
      requires Valid()
      modifies this`members, this`pageNumbers
      ensures Valid()
      ensures r.Ok? <==> forall m :: m in old(members) ==> m.key != key
      ensures r.Ok? ==> members == old(members) + [Member(key, raw)]
      ensures r.Err? ==> members == old(members)
    {
      if key in pageNumbers {
        return Err(PageDuplicated);
      }
      members := members + [Member(key, raw)];
      pageNumbers := pageNumbers + {key};
      return Ok(());
    }
  }

  // ------------------------------------------------------------------ fetching one page

  /** What the data provider answers to one request. */
  datatype Reply = Body(raw: Bytes) | BodyRejected | HttpStatus(code: nat) | TimedOut | Broken

  /** The n-th request of the run gets the n-th answer. */
  type Server = nat -> Reply

  datatype Fetched = Got(page: Page) | PayloadInvalid | HttpError(code: nat) | Interrupted

  /** The bodies among the answers `from` up to `to`, in order. */
  function BodiesOf(server: Server, from: nat, to: nat): seq<Bytes>
    requires from <= to
  {
    if from == to then []
    else BodiesOf(server, from, to - 1) + (if server(to - 1).Body? then [server(to - 1).raw] else [])
  }

  function Raws(members: seq<Member>): seq<Bytes> {
    seq(|members|, i requires 0 <= i < |members| => members[i].raw)
  }

  /** Everything the provider answered is in the archive, byte for byte and in order. */
  ghost predicate Archived(before: seq<Member>, after: seq<Member>, server: Server, from: nat, to: nat) {
    before <= after && from <= to && Raws(after[|before|..]) == BodiesOf(server, from, to)
  }

  lemma {:induction false} ArchivedBody(before: seq<Member>, now: seq<Member>, m: Member, server: Server, from: nat, to: nat)
    requires Archived(before, now, server, from, to) && server(to) == Body(m.raw)
    ensures Archived(before, now + [m], server, from, to + 1)
  {
    assert (now + [m])[|before|..] == now[|before|..] + [m];
    assert Raws(now[|before|..] + [m]) == Raws(now[|before|..]) + [m.raw];
  }

  lemma {:induction false} BodiesSplit(server: Server, from: nat, middle: nat, to: nat)
    requires from <= middle <= to
    ensures BodiesOf(server, from, to) == BodiesOf(server, from, middle) + BodiesOf(server, middle, to)
  {
    if middle < to {
      BodiesSplit(server, from, middle, to - 1);
    }
  }

  lemma {:induction false} ArchivedInTwo(before: seq<Member>, middle: seq<Member>, after: seq<Member>, server: Server, from: nat, mid: nat, to: nat)
    requires Archived(before, middle, server, from, mid) && Archived(middle, after, server, mid, to)
    ensures Archived(before, after, server, from, to)
  {
    BodiesSplit(server, from, mid, to);
    assert after[|before|..] == middle[|before|..] + after[|middle|..];
    assert Raws(middle[|before|..] + after[|middle|..]) == Raws(middle[|before|..]) + Raws(after[|middle|..]);
  }

  /** The answers from `from` up to `to` filed as attempts for one page, each under the next free
      number. */
  function Filed(server: Server, from: nat, until: nat, members: seq<Member>, query: nat, number: nat): seq<Member>
    decreases until
  {
    if until <= from then members
    else
      var before := Filed(server, from, until - 1, members, query, number);
      match server(until - 1)
      case Body(raw) => before + [Member(PageKey(query, number, MaxAttempt(before, query, number) + 1), raw)]
      case _ => before
  }

  /** Asking for a page with so many tries left: what comes of it, and the next answer's number. */
  function Fetching(parse: Parser, server: Server, clock: nat, tries: nat): (Fetched, nat)
    requires tries > 0
    decreases tries
  {
    match server(clock)
    case Body(raw) =>
      if parse(raw).Some? then (Got(parse(raw).value), clock + 1)
      else if tries == 1 then (PayloadInvalid, clock + 1)
      else Fetching(parse, server, clock + 1, tries - 1)
    case BodyRejected => if tries == 1 then (PayloadInvalid, clock + 1) else Fetching(parse, server, clock + 1, tries - 1)
    case HttpStatus(code) => if code == 429 || tries == 1 then (HttpError(code), clock + 1) else Fetching(parse, server, clock + 1, tries - 1)
    case TimedOut => if tries == 1 then (Interrupted, clock + 1) else Fetching(parse, server, clock + 1, tries - 1)
    case Broken => (Interrupted, clock + 1)
  }

  /** A failed answer after which the same page is asked for again. */
  predicate Retried(parse: Parser, reply: Reply) {
    || (reply.Body? && parse(reply.raw).None?)
    || reply.BodyRejected? || reply.TimedOut?
    || (reply.HttpStatus? && reply.code != 429)
  }

  predicate Decodes(parse: Parser, reply: Reply, page: Page) {
    reply.Body? && parse(reply.raw) == Some(page)
  }

  /** One of the first three answers decodes to the page, after answers that are retried. */
  ghost predicate GotWithin(parse: Parser, server: Server, clock: nat, tries: nat, page: Page) {
    exists t: nat :: clock <= t < clock + tries && Decodes(parse, server(t), page) && AllRetried(parse, server, clock, t)
  }

  ghost predicate AllRetried(parse: Parser, server: Server, from: nat, to: nat) {
    forall t: nat :: from <= t < to ==> Retried(parse, server(t))
  }

  /** New members of a run, for one page only. */
  ghost predicate AddedFor(before: seq<Member>, after: seq<Member>, query: nat, page: nat) {
    before <= after && forall m :: m in after[|before|..] ==> m.key.query == query && m.key.page == page && m.key.attempt >= 1
  }

  lemma {:induction false} AddedOneMore(before: seq<Member>, now: seq<Member>, m: Member)
    requires AddedFor(before, now, m.key.query, m.key.page) && m.key.attempt >= 1
    ensures AddedFor(before, now + [m], m.key.query, m.key.page)
  {
    assert (now + [m])[|before|..] == now[|before|..] + [m];
  }

  lemma {:induction false} AttemptsAfter(attempts: map<(nat, nat), nat>, members: seq<Member>, m: Member)
    requires AttemptsMatch(attempts, members)
    requires m.key.attempt == MaxAttempt(members, m.key.query, m.key.page) + 1
    ensures AttemptsMatch(attempts[(m.key.query, m.key.page) := m.key.attempt], members + [m])
  {
    FreshAttemptIsLatest(_ => None, members, m);
    forall query: nat, page: nat
      ensures AttemptOf(attempts[(m.key.query, m.key.page) := m.key.attempt], query, page) == MaxAttempt(members + [m], query, page)
    {
      if (query, page) != (m.key.query, m.key.page) {
        MaxAttemptIgnoresOthers(members, [m], query, page);
      }
    }
  }

  /** The page is what the newest copy decodes to. */
  ghost predicate IsNewest(parse: Parser, members: seq<Member>, query: nat, number: nat, page: Page) {
    && (page.number == number ==> Latest(parse, members, query, number).Some? && Latest(parse, members, query, number).value.page == page)
  }

  /** Archive one answered body under the page's next attempt number, which is always free. */
  method ArchiveBody(spool: RawPageSpool, parse: Parser, known: map<(nat, nat), nat>, query: nat, number: nat, raw: Bytes)
    returns (attempts: map<(nat, nat), nat>)
    requires spool.Valid() && AttemptsMatch(known, spool.members)
    modifies spool`members, spool`pageNumbers
    ensures spool.Valid() && AttemptsMatch(attempts, spool.members)
    ensures spool.members == old(spool.members) + [Member(PageKey(query, number, MaxAttempt(old(spool.members), query, number) + 1), raw)]
    ensures parse(raw).Some? ==> IsNewest(parse, spool.members, query, number, parse(raw).value)
  {
    var m := Member(PageKey(query, number, AttemptOf(known, query, number) + 1), raw);
    FreshKeyIsNew(spool.members, m.key);
    AttemptsAfter(known, spool.members, m);
    FreshAttemptIsLatest(parse, spool.members, m);
    var added := spool.AddScopedRawPage(m.key, raw);
    attempts := known[(query, number) := m.key.attempt];
  }

  lemma {:induction false} FirstDecodedIsGot(parse: Parser, server: Server, clock: nat, t: nat, page: Page)
    requires clock <= t < clock + 3 && AllRetried(parse, server, clock, t) && Decodes(parse, server(t), page)
    ensures forall p :: GotWithin(parse, server, clock, 3, p) <==> p == page
  {
    forall p | GotWithin(parse, server, clock, 3, p) ensures p == page {
      var u: nat :| clock <= u < clock + 3 && Decodes(parse, server(u), p) && AllRetried(parse, server, clock, u);
    }
  }

  lemma {:induction false} NothingDecodedIsNotGot(parse: Parser, server: Server, clock: nat, t: nat)
    requires clock <= t && AllRetried(parse, server, clock, t)
    requires t >= clock + 3 || (!Retried(parse, server(t)) && forall page :: !Decodes(parse, server(t), page))
    ensures forall p :: !GotWithin(parse, server, clock, 3, p)
  {
    forall p, u: nat | clock <= u < clock + 3 && Decodes(parse, server(u), p)
      ensures !AllRetried(parse, server, clock, u)
    {
      if t < u {
        assert !Retried(parse, server(t));
      }
    }
  }

  lemma {:induction false} FiledFacts(server: Server, from: nat, until: nat, members: seq<Member>, query: nat, number: nat)
    requires from <= until
    ensures AddedFor(members, Filed(server, from, until, members, query, number), query, number)
    ensures Archived(members, Filed(server, from, until, members, query, number), server, from, until)
    decreases until
  {
    if from == until {
      assert members[|members|..] == [];
    } else {
      FiledFacts(server, from, until - 1, members, query, number);
      var before := Filed(server, from, until - 1, members, query, number);
      if server(until - 1).Body? {
        var m := Member(PageKey(query, number, MaxAttempt(before, query, number) + 1), server(until - 1).raw);
        AddedOneMore(members, before, m);
        ArchivedBody(members, before, m, server, from, until - 1);
      }
    }
  }

  /** What comes of the request: either the last answer decodes to the page, or it is a failure that
      ends the tries; every answer before it is one that is asked again. */
  ghost predicate Answered(parse: Parser, server: Server, clock: nat, tries: nat, tick: nat, r: Fetched) {
    && clock < tick <= clock + tries && AllRetried(parse, server, clock, tick - 1)
    && var last := server(tick - 1);
       match r
       case Got(page) => Decodes(parse, last, page)
       case PayloadInvalid => tick == clock + tries && (last.BodyRejected? || (last.Body? && parse(last.raw).None?))
       case HttpError(code) => last == HttpStatus(code) && (code == 429 || tick == clock + tries)
       case Interrupted => last.Broken? || (last.TimedOut? && tick == clock + tries)
  }

  lemma {:induction false} OneMoreRetried(parse: Parser, server: Server, clock: nat, to: nat)
    requires Retried(parse, server(clock)) && clock < to
    ensures AllRetried(parse, server, clock, to) <==> AllRetried(parse, server, clock + 1, to)
  {
  }

  /** Asking gives exactly that. */
  lemma {:induction false} FetchMeans(parse: Parser, server: Server, clock: nat, tries: nat, tick: nat, r: Fetched)
    requires tries > 0
    ensures Fetching(parse, server, clock, tries) == (r, tick) <==> Answered(parse, server, clock, tries, tick, r)
    decreases tries
  {
    if Retried(parse, server(clock)) && tries > 1 {
      FetchMeans(parse, server, clock + 1, tries - 1, tick, r);
      if clock + 1 < tick {
        OneMoreRetried(parse, server, clock, tick - 1);
      }
    } else if clock < tick - 1 && AllRetried(parse, server, clock, tick - 1) {
      RetriedFirst(parse, server, clock, tick - 1);
    }
  }

  lemma {:induction false} RetriedFirst(parse: Parser, server: Server, clock: nat, to: nat)
    requires AllRetried(parse, server, clock, to) && clock < to
    ensures Retried(parse, server(clock))
  {
  }

  lemma {:induction false} RetriedIsAskedAgain(parse: Parser, server: Server, clock: nat, tries: nat)
    requires tries > 1 && Retried(parse, server(clock))
    ensures Fetching(parse, server, clock, tries) == Fetching(parse, server, clock + 1, tries - 1)
  {
  }

  lemma {:induction false} BodyIsFiled(server: Server, from: nat, at: nat, members: seq<Member>, query: nat, number: nat)
    requires from <= at
    ensures var before := Filed(server, from, at, members, query, number);
            Filed(server, from, at + 1, members, query, number)
            == if server(at).Body? then before + [Member(PageKey(query, number, MaxAttempt(before, query, number) + 1), server(at).raw)] else before
  {
  }

  lemma {:induction false} FetchedIsNewest(parse: Parser, server: Server, clock: nat, tries: nat, tick: nat, page: Page, members: seq<Member>, query: nat, number: nat)
    requires tries > 0 && Fetching(parse, server, clock, tries) == (Got(page), tick)
    ensures IsNewest(parse, Filed(server, clock, tick, members, query, number), query, number, page)
  {
    FetchMeans(parse, server, clock, tries, tick, Got(page));
    BodyIsFiled(server, clock, tick - 1, members, query, number);
    var before := Filed(server, clock, tick - 1, members, query, number);
    FreshAttemptIsLatest(parse, before, Member(PageKey(query, number, MaxAttempt(before, query, number) + 1), server(tick - 1).raw));
  }

  lemma {:induction false} FetchIsGotWithin(parse: Parser, server: Server, clock: nat, page: Page)
    ensures Fetching(parse, server, clock, 3).0 == Got(page) <==> GotWithin(parse, server, clock, 3, page)
  {
    var (r, tick) := Fetching(parse, server, clock, 3);
    FetchMeans(parse, server, clock, 3, tick, r);
    if r.Got? {
      FirstDecodedIsGot(parse, server, clock, tick - 1, r.page);
    } else if Retried(parse, server(tick - 1)) {
      assert AllRetried(parse, server, clock, tick);
      NothingDecodedIsNotGot(parse, server, clock, tick);
    } else {
      NothingDecodedIsNotGot(parse, server, clock, tick - 1);
    }
  }

  /** `fetch_page`: up to three attempts; every answered body is archived before it is decoded. */
  method FetchPage(spool: RawPageSpool, parse: Parser, supported: bool, server: Server, clock: nat, known: map<(nat, nat), nat>, query: nat, number: nat)
    returns (r: Fetched, tick: nat, attempts: map<(nat, nat), nat>)
    requires spool.Valid() && AttemptsMatch(known, spool.members)
    modifies spool`members, spool`pageNumbers
    ensures spool.Valid() && AttemptsMatch(attempts, spool.members)
    ensures AddedFor(old(spool.members), spool.members, query, number)
    ensures Archived(old(spool.members), spool.members, server, clock, tick) && tick <= clock + 3
    ensures r.Got? ==> IsNewest(parse, spool.members, query, number, r.page)
    ensures supported ==> forall page :: r == Got(page) <==> GotWithin(parse, server, clock, 3, page)
    ensures supported ==> (r, tick) == Fetching(parse, server, clock, 3)
    ensures spool.members == Filed(server, clock, tick, old(spool.members), query, number)
    ensures !supported ==> r == Interrupted && tick == clock
  {
    ghost var before := spool.members;
    r, tick, attempts := TryPage(spool, parse, supported, server, clock, known, query, number);
    FiledFacts(server, clock, tick, before, query, number);
    if supported {
      FetchMeans(parse, server, clock, 3, tick, r);
      forall page ensures r == Got(page) <==> GotWithin(parse, server, clock, 3, page) {
        FetchIsGotWithin(parse, server, clock, page);
      }
      if r.Got? {
        FetchedIsNewest(parse, server, clock, 3, tick, r.page, before, query, number);
      }
    }
  }

  /** One request: what it comes to if it is the last one, and whether the page is asked for again
      otherwise. */
  method TryOnce(spool: RawPageSpool, parse: Parser, server: Server, clock: nat, known: map<(nat, nat), nat>, query: nat, number: nat)
    returns (r: Fetched, again: bool, attempts: map<(nat, nat), nat>)
    requires spool.Valid() && AttemptsMatch(known, spool.members)
    modifies spool`members, spool`pageNumbers
    ensures spool.Valid() && AttemptsMatch(attempts, spool.members)
    ensures again <==> Retried(parse, server(clock))
    ensures Fetching(parse, server, clock, 1) == (r, clock + 1)
    ensures spool.members == if server(clock).Body?
                             then old(spool.members) + [Member(PageKey(query, number, MaxAttempt(old(spool.members), query, number) + 1), server(clock).raw)]
                             else old(spool.members)
  {
    attempts := known;
    match server(clock) {
      case Body(raw) =>
        attempts := ArchiveBody(spool, parse, known, query, number, raw);
        var decoded := parse(raw);
        if decoded.Some? {
          r, again := Got(decoded.value), false;
        } else {
          r, again := PayloadInvalid, true;
        }
      case BodyRejected =>
        r, again := PayloadInvalid, true;
      case HttpStatus(code) =>
        r, again := HttpError(code), code != 429;
      case TimedOut =>
        r, again := Interrupted, true;
      case Broken =>
        r, again := Interrupted, false;
    }
  }

  lemma {:induction false} NotAskedAgain(parse: Parser, server: Server, clock: nat, tries: nat)
    requires tries > 0 && (tries == 1 || !Retried(parse, server(clock)))
    ensures Fetching(parse, server, clock, tries) == Fetching(parse, server, clock, 1)
  {
  }

  /** After some tries, all asked again: what was answered is filed, and the rest decides. */
  ghost predicate TriedSoFar(parse: Parser, server: Server, clock: nat, attempt: nat, before: seq<Member>, now: seq<Member>, query: nat, number: nat) {
    && attempt < 3 && now == Filed(server, clock, clock + attempt, before, query, number)
    && Fetching(parse, server, clock, 3) == Fetching(parse, server, clock + attempt, 3 - attempt)
  }

  lemma {:induction false} TriedOnceMore(parse: Parser, server: Server, clock: nat, attempt: nat, before: seq<Member>, now: seq<Member>, query: nat, number: nat)
    requires TriedSoFar(parse, server, clock, attempt, before, now, query, number)
    ensures var reply := server(clock + attempt);
            var filed := if reply.Body? then now + [Member(PageKey(query, number, MaxAttempt(now, query, number) + 1), reply.raw)] else now;
            && filed == Filed(server, clock, clock + attempt + 1, before, query, number)
            && (Retried(parse, reply) && attempt < 2 ==> TriedSoFar(parse, server, clock, attempt + 1, before, filed, query, number))
            && (!Retried(parse, reply) || attempt == 2 ==> Fetching(parse, server, clock, 3) == Fetching(parse, server, clock + attempt, 1))
  {
    BodyIsFiled(server, clock, clock + attempt, before, query, number);
    if Retried(parse, server(clock + attempt)) && attempt < 2 {
      RetriedIsAskedAgain(parse, server, clock + attempt, 3 - attempt);
    } else {
      NotAskedAgain(parse, server, clock + attempt, 3 - attempt);
    }
  }

  /** The loop over the three tries; an unsupported format is never asked for. */
  method TryPage(spool: RawPageSpool, parse: Parser, supported: bool, server: Server, clock: nat, known: map<(nat, nat), nat>, query: nat, number: nat)
    returns (r: Fetched, tick: nat, attempts: map<(nat, nat), nat>)
    requires spool.Valid() && AttemptsMatch(known, spool.members)
    modifies spool`members, spool`pageNumbers
    ensures spool.Valid() && AttemptsMatch(attempts, spool.members) && tick >= clock
    ensures supported ==> (r, tick) == Fetching(parse, server, clock, 3)
    ensures spool.members == Filed(server, clock, tick, old(spool.members), query, number)
    ensures !supported ==> r == Interrupted && tick == clock
  {
    attempts, tick := known, clock;
    ghost var before := spool.members;
    for attempt := 0 to 3
      invariant spool.Valid() && AttemptsMatch(attempts, spool.members)
      invariant if supported then tick == clock + attempt && TriedSoFar(parse, server, clock, attempt, before, spool.members, query, number)
                else tick == clock && spool.members == before
    {
      if supported {
        TriedOnceMore(parse, server, clock, attempt, before, spool.members, query, number);
        var again;
        r, again, attempts := TryOnce(spool, parse, server, tick, attempts, query, number);
        tick := tick + 1;
        if !again || attempt == 2 {
          return;
        }
      }
    }
    return Interrupted, tick, attempts;
  }

  // ------------------------------------------------------------------ one query

  datatype Reason = LimitExceeded | MetadataChanged | PayloadReason | HttpReason(code: nat) | InterruptedReason

  datatype Pagination = Pagination(complete: bool, pages: seq<Page>, reason: Option<Reason>)

  const MAXIMUM_PAGES := 10_000

  ghost predicate AddedForQuery(before: seq<Member>, after: seq<Member>, query: nat) {
    before <= after && forall m :: m in after[|before|..] ==> m.key.query == query && 1 <= m.key.page <= MAXIMUM_PAGES && m.key.attempt >= 1
  }

  lemma {:induction false} AddedPageIsOfQuery(before: seq<Member>, middle: seq<Member>, after: seq<Member>, query: nat, number: nat)
    requires AddedForQuery(before, middle, query) && AddedFor(middle, after, query, number) && 1 <= number <= MAXIMUM_PAGES
    ensures AddedForQuery(before, after, query)
  {
    assert after[|before|..] == middle[|before|..] + after[|middle|..];
  }

  /** The pages collected so far are the newest copies, apart from a first page that reports
      another number. */
  ghost predicate NewestPages(parse: Parser, members: seq<Member>, query: nat, pages: seq<Page>) {
    forall i :: 0 <= i < |pages| ==>
      && IsNewest(parse, members, query, i + 1, pages[i])
      && (i > 0 ==> pages[i].number == i + 1 && pages[i].totalCount == pages[0].totalCount)
  }

  lemma {:induction false} LaterFetchKeepsNewest(parse: Parser, before: seq<Member>, after: seq<Member>, query: nat, number: nat, pages: seq<Page>)
    requires NewestPages(parse, before, query, pages) && AddedFor(before, after, query, number) && |pages| < number
    ensures NewestPages(parse, after, query, pages)
  {
    var added := after[|before|..];
    assert after == before + added;
    forall i | 0 <= i < |pages| ensures IsNewest(parse, after, query, i + 1, pages[i]) {
      LatestIgnoresOthers(parse, before, added, query, i + 1);
    }
  }

  lemma {:induction false} NewestPagesAreStored(parse: Parser, members: seq<Member>, query: nat, pages: seq<Page>, n: nat)
    requires NewestPages(parse, members, query, pages) && n <= |pages|
    requires n > 0 ==> pages[0].number == 1
    ensures StoredPages(parse, members, query, n) == pages[..n]
  {
    if n > 0 {
      NewestPagesAreStored(parse, members, query, pages, n - 1);
      assert pages[..n] == pages[..n - 1] + [pages[n - 1]];
    }
  }

  /** A complete query reloads to exactly the pages the run used, if and only if its first page
      reported number one. */
  lemma {:induction false} ReloadsIffFirstIsOne(parse: Parser, members: seq<Member>, query: nat, pages: seq<Page>)
    requires NewestPages(parse, members, query, pages) && |pages| > 0 && |pages| == ExpectedPages(pages[0])
    ensures Finished(parse, members, query) == Some(pages) <==> pages[0].number == 1
  {
    if pages[0].number == 1 {
      NewestPagesAreStored(parse, members, query, pages, |pages|);
      assert pages[..|pages|] == pages;
    } else if Finished(parse, members, query) == Some(pages) {
      FinishedStartsAtOne(parse, members, query);
    }
  }

  lemma {:induction false} StoredPagesNumbered(parse: Parser, members: seq<Member>, query: nat, n: nat)
    ensures |StoredPages(parse, members, query, n)| <= n
    ensures |StoredPages(parse, members, query, n)| == n ==> forall i :: 0 <= i < n ==> StoredPages(parse, members, query, n)[i].number == i + 1
  {
    if n > 0 {
      StoredPagesNumbered(parse, members, query, n - 1);
      if Latest(parse, members, query, n).Some? {
        LatestIsNoNewer(parse, members, query, n);
      }
    }
  }

  lemma {:induction false} FinishedStartsAtOne(parse: Parser, members: seq<Member>, query: nat)
    requires Finished(parse, members, query).Some?
    ensures |Finished(parse, members, query).value| > 0 && Finished(parse, members, query).value[0].number == 1
  {
    StoredPagesNumbered(parse, members, query, ExpectedPages(Latest(parse, members, query, 1).value.page));
  }

  /** The pages after those collected so far, up to the expected count. */
  function PagesFrom(parse: Parser, server: Server, clock: nat, members: seq<Member>, query: nat, pages: seq<Page>, expected: nat): (Pagination, nat, seq<Member>)
    requires pages != []
    decreases expected - |pages|
  {
    if |pages| >= expected then (Pagination(true, pages, None), clock, members)
    else
      var number := |pages| + 1;
      var fetched := Fetching(parse, server, clock, 3);
      var filed := Filed(server, clock, fetched.1, members, query, number);
      if !fetched.0.Got? then (Pagination(false, pages, Some(FailureReason(fetched.0))), fetched.1, filed)
      else if fetched.0.page.number != number || fetched.0.page.totalCount != pages[0].totalCount then
        (Pagination(false, pages, Some(MetadataChanged)), fetched.1, filed)
      else PagesFrom(parse, server, fetched.1, filed, query, pages + [fetched.0.page], expected)
  }

  /** Collecting one query: its result, the next answer's number and the archive. */
  function Collecting(parse: Parser, supported: bool, server: Server, clock: nat, members: seq<Member>, query: nat): (Pagination, nat, seq<Member>) {
    if !supported then (Pagination(false, [], Some(InterruptedReason)), clock, members)
    else
      var fetched := Fetching(parse, server, clock, 3);
      var filed := Filed(server, clock, fetched.1, members, query, 1);
      if !fetched.0.Got? then (Pagination(false, [], Some(FailureReason(fetched.0))), fetched.1, filed)
      else if ExpectedPages(fetched.0.page) > MAXIMUM_PAGES then (Pagination(false, [fetched.0.page], Some(LimitExceeded)), fetched.1, filed)
      else PagesFrom(parse, server, fetched.1, filed, query, [fetched.0.page], ExpectedPages(fetched.0.page))
  }

  function FailureReason(fetched: Fetched): Reason
    requires !fetched.Got?
  {
    match fetched
    case PayloadInvalid => PayloadReason
    case HttpError(code) => HttpReason(code)
    case Interrupted => InterruptedReason
  }

  lemma {:induction false} NextPageFacts(parse: Parser, server: Server, from: nat, clock: nat, before: seq<Member>, members: seq<Member>, query: nat, pages: seq<Page>)
    requires AddedForQuery(before, members, query) && Archived(before, members, server, from, clock) && NewestPages(parse, members, query, pages)
    requires |pages| < MAXIMUM_PAGES
    ensures var (fetched, tick) := Fetching(parse, server, clock, 3);
            var now := Filed(server, clock, tick, members, query, |pages| + 1);
            && AddedForQuery(before, now, query) && Archived(before, now, server, from, tick)
            && NewestPages(parse, now, query, pages)
            && (fetched.Got? ==> IsNewest(parse, now, query, |pages| + 1, fetched.page))
  {
    var (fetched, tick) := Fetching(parse, server, clock, 3);
    var number := |pages| + 1;
    var now := Filed(server, clock, tick, members, query, number);
    FetchMeans(parse, server, clock, 3, tick, fetched);
    FiledFacts(server, clock, tick, members, query, number);
    AddedPageIsOfQuery(before, members, now, query, number);
    ArchivedInTwo(before, members, now, server, from, clock, tick);
    LaterFetchKeepsNewest(parse, members, now, query, number, pages);
    if fetched.Got? {
      FetchedIsNewest(parse, server, clock, 3, tick, fetched.page, members, query, number);
    }
  }

  /** Only pages of the query are archived, with everything that was answered; complete pages are
      the newest copies. */
  ghost predicate CollectedWell(parse: Parser, server: Server, from: nat, before: seq<Member>, query: nat, r: Pagination, tick: nat, now: seq<Member>) {
    && AddedForQuery(before, now, query) && Archived(before, now, server, from, tick)
    && (r.complete <==> r.reason == None)
    && (r.complete ==> |r.pages| > 0 && |r.pages| == ExpectedPages(r.pages[0]) && NewestPages(parse, now, query, r.pages))
  }

  lemma {:induction false} PagesFromFacts(parse: Parser, server: Server, from: nat, clock: nat, before: seq<Member>, members: seq<Member>, query: nat, pages: seq<Page>, expected: nat)
    requires AddedForQuery(before, members, query) && Archived(before, members, server, from, clock) && NewestPages(parse, members, query, pages)
    requires 0 < |pages| <= expected <= MAXIMUM_PAGES && expected == ExpectedPages(pages[0])
    ensures var (r, tick, now) := PagesFrom(parse, server, clock, members, query, pages, expected);
            CollectedWell(parse, server, from, before, query, r, tick, now)
    decreases expected - |pages|
  {
    if |pages| < expected {
      var (fetched, tick) := Fetching(parse, server, clock, 3);
      var now := Filed(server, clock, tick, members, query, |pages| + 1);
      NextPageFacts(parse, server, from, clock, before, members, query, pages);
      if fetched.Got? && fetched.page.number == |pages| + 1 && fetched.page.totalCount == pages[0].totalCount {
        assert NewestPages(parse, now, query, pages + [fetched.page]);
        PagesFromFacts(parse, server, from, tick, before, now, query, pages + [fetched.page], expected);
      }
    }
  }

  lemma {:induction false} CollectingFacts(parse: Parser, supported: bool, server: Server, clock: nat, members: seq<Member>, query: nat)
    ensures var (r, tick, now) := Collecting(parse, supported, server, clock, members, query);
            CollectedWell(parse, server, clock, members, query, r, tick, now)
  {
    assert members[|members|..] == [];
    if supported {
      var (fetched, tick) := Fetching(parse, server, clock, 3);
      var now := Filed(server, clock, tick, members, query, 1);
      NextPageFacts(parse, server, clock, clock, members, members, query, []);
      if fetched.Got? && ExpectedPages(fetched.page) <= MAXIMUM_PAGES {
        PagesFromFacts(parse, server, clock, tick, members, now, query, [fetched.page], ExpectedPages(fetched.page));
      }
    }
  }

  /** The pages after the first one. */
  method CollectRest(spool: RawPageSpool, parse: Parser, server: Server, clock: nat, known: map<(nat, nat), nat>, query: nat, first: Page, expected: nat)
    returns (r: Pagination, tick: nat, attempts: map<(nat, nat), nat>)
    requires spool.Valid() && AttemptsMatch(known, spool.members) && expected >= 1
    modifies spool`members, spool`pageNumbers
    ensures spool.Valid() && AttemptsMatch(attempts, spool.members)
    ensures (r, tick, spool.members) == PagesFrom(parse, server, clock, old(spool.members), query, [first], expected)
  {
    var pages := [first];
    tick, attempts := clock, known;
    ghost var before := spool.members;
    for number := 2 to expected + 1
      invariant spool.Valid() && AttemptsMatch(attempts, spool.members)
      invariant |pages| == number - 1 && pages[0] == first
      invariant PagesFrom(parse, server, clock, before, query, [first], expected) == PagesFrom(parse, server, tick, spool.members, query, pages, expected)
    {
      var fetched;
      fetched, tick, attempts := TryPage(spool, parse, true, server, tick, attempts, query, number);
      if !fetched.Got? {
        return Pagination(false, pages, Some(FailureReason(fetched))), tick, attempts;
      }
      if fetched.page.number != number || fetched.page.totalCount != first.totalCount {
        return Pagination(false, pages, Some(MetadataChanged)), tick, attempts;
      }
      pages := pages + [fetched.page];
    }
    return Pagination(true, pages, None), tick, attempts;
  }

  method CollectPages(spool: RawPageSpool, parse: Parser, supported: bool, server: Server, clock: nat, known: map<(nat, nat), nat>, query: nat)
    returns (r: Pagination, tick: nat, attempts: map<(nat, nat), nat>)
    requires spool.Valid() && AttemptsMatch(known, spool.members)
    modifies spool`members, spool`pageNumbers
    ensures spool.Valid() && AttemptsMatch(attempts, spool.members)
    ensures (r, tick, spool.members) == Collecting(parse, supported, server, clock, old(spool.members), query)
  {
    var fetched;
    fetched, tick, attempts := FetchPage(spool, parse, supported, server, clock, known, query, 1);
    if !fetched.Got? {
      return Pagination(false, [], Some(FailureReason(fetched))), tick, attempts;
    }
    var first := fetched.page;
    var expected := ExpectedPages(first);
    if expected > MAXIMUM_PAGES {
      return Pagination(false, [first], Some(LimitExceeded)), tick, attempts;
    }
    r, tick, attempts := CollectRest(spool, parse, server, tick, attempts, query, first, expected);
  }

  /** `collect_paginated` over one query. */
  method CollectPaginated(spool: RawPageSpool, parse: Parser, supported: bool, server: Server, clock: nat, known: map<(nat, nat), nat>, query: nat)
    returns (r: Pagination, tick: nat, attempts: map<(nat, nat), nat>)
    requires spool.Valid() && AttemptsMatch(known, spool.members)
    modifies spool`members, spool`pageNumbers
    ensures spool.Valid() && AttemptsMatch(attempts, spool.members)
    ensures AddedForQuery(old(spool.members), spool.members, query)
    ensures Archived(old(spool.members), spool.members, server, clock, tick)
    ensures r.complete <==> r.reason == None
    ensures r.complete ==> |r.pages| > 0 && |r.pages| == ExpectedPages(r.pages[0])
    ensures r.complete ==> (Finished(parse, spool.members, query) == Some(r.pages) <==> r.pages[0].number == 1)
    ensures (r, tick, spool.members) == Collecting(parse, supported, server, clock, old(spool.members), query)
  {
    ghost var before := spool.members;
    r, tick, attempts := CollectPages(spool, parse, supported, server, clock, known, query);
    CollectingFacts(parse, supported, server, clock, before, query);
    if r.complete {
      ReloadsIffFirstIsOne(parse, spool.members, query, r.pages);
    }
  }

  /** A query whose only page reports number seven: the collector calls it complete and the archive
      does not reload to it. */
  method MisnumberedFirstPage() returns (spool: RawPageSpool, parse: Parser, r: Pagination)
    ensures fresh(spool) && r.complete && |r.pages| == 1 && r.pages[0].number == 7
    ensures Finished(parse, spool.members, 0) != Some(r.pages)
  {
    var page: Page := PageData(7, 10, 1, [1]);
    parse := _ => Some(page);
    var server: Server := _ => Body([]);
    spool := new RawPageSpool();
    assert Fetching(parse, server, 0, 3) == (Got(page), 1);
    assert ExpectedPages(page) == 1;
    var tick, attempts;
    r, tick, attempts := CollectPaginated(spool, parse, true, server, 0, map[], 0);
  }
}
