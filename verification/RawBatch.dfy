/** A whole batch run on top of an earlier archive, and what holds over any chain of runs. */
module RawBatch {
  import opened Common
  import opened RawNames
  import opened RawArchive
  import opened RawMeaning
  import opened RawResume
  import opened RawCollection

  datatype InitialStatus = Acquired | Incomplete

  /** One run over `n` queries: the earlier members stay in place, keys stay distinct and in
      range, and nothing is added to a query that was already finished. */
  ghost predicate RunStep(parse: Parser, n: nat, before: seq<Member>, after: seq<Member>) {
    && before <= after
    && DistinctKeys(after)
    && forall m :: m in after[|before|..] ==>
         1 <= m.key.query <= n && 1 <= m.key.page <= MAXIMUM_PAGES && m.key.attempt >= 1 && Finished(parse, before, m.key.query).None?
  }

  /** What the run reports about one query agrees with what the archive would reload. */
  ghost predicate Reported(parse: Parser, members: seq<Member>, query: nat, p: Pagination) {
    && (p.complete <==> p.reason == None)
    && (p.complete ==> |p.pages| > 0 && |p.pages| == ExpectedPages(p.pages[0])
                       && (Finished(parse, members, query) == Some(p.pages) <==> p.pages[0].number == 1))
  }

  lemma {:induction false} OtherQueryKeepsReport(parse: Parser, before: seq<Member>, after: seq<Member>, query: nat, other: nat, p: Pagination)
    requires Reported(parse, before, query, p) && AddedForQuery(before, after, other) && query != other
    ensures Reported(parse, after, query, p)
  {
    assert after == before + after[|before|..];
    OtherQueriesDoNotMatter(parse, before, after[|before|..], query);
  }

  lemma {:induction false} FinishedIsReported(parse: Parser, members: seq<Member>, query: nat, pages: seq<Page>)
    requires Finished(parse, members, query) == Some(pages)
    ensures Reported(parse, members, query, Pagination(true, pages, None))
  {
    FinishedStartsAtOne(parse, members, query);
    FirstPageDecides(parse, members, query);
  }

  lemma {:induction false} FirstOfStored(parse: Parser, members: seq<Member>, query: nat, n: nat)
    requires n >= 1 && Latest(parse, members, query, 1).Some?
    ensures StoredPages(parse, members, query, n) != [] && StoredPages(parse, members, query, n)[0] == Latest(parse, members, query, 1).value.page
  {
    if n > 1 {
      FirstOfStored(parse, members, query, n - 1);
    } else {
      assert StoredPages(parse, members, query, 0) == [];
    }
  }

  lemma {:induction false} FirstPageDecides(parse: Parser, members: seq<Member>, query: nat)
    requires Finished(parse, members, query).Some?
    ensures var pages := Finished(parse, members, query).value; pages != [] && |pages| == ExpectedPages(pages[0])
  {
    FirstOfStored(parse, members, query, ExpectedPages(Latest(parse, members, query, 1).value.page));
  }

  // ------------------------------------------------------------------ the run

  method RestoreMembers(spool: RawPageSpool, members: seq<Member>)
    requires spool.Valid() && spool.members == [] && DistinctKeys(members)
    modifies spool`members, spool`pageNumbers
    ensures spool.Valid() && spool.members == members
  {
    for i := 0 to |members|
      invariant spool.Valid() && spool.members == members[..i]
    {
      assert forall m :: m in members[..i] ==> m.key != members[i].key;
      var added := spool.AddScopedRawPage(members[i].key, members[i].raw);
      assert members[..i + 1] == members[..i] + [members[i]];
    }
    assert members[..|members|] == members;
  }

  /** The spool grew only by pages of unfinished queries below `next`. */
  ghost predicate GrewBy(parse: Parser, before: seq<Member>, now: seq<Member>, next: nat) {
    before <= now && forall m :: m in now[|before|..] ==>
      1 <= m.key.query < next && 1 <= m.key.page <= MAXIMUM_PAGES && m.key.attempt >= 1 && Finished(parse, before, m.key.query).None?
  }

  lemma {:induction false} GrewByQuery(parse: Parser, before: seq<Member>, middle: seq<Member>, after: seq<Member>, query: nat)
    requires GrewBy(parse, before, middle, query) && AddedForQuery(middle, after, query) && query >= 1
    requires Finished(parse, before, query).None?
    ensures GrewBy(parse, before, after, query + 1)
  {
    assert after[|before|..] == middle[|before|..] + after[|middle|..];
  }

  lemma {:induction false} UntouchedQuery(parse: Parser, before: seq<Member>, now: seq<Member>, next: nat, query: nat)
    requires GrewBy(parse, before, now, next) && (query >= next || Finished(parse, before, query).Some?)
    ensures Finished(parse, now, query) == Finished(parse, before, query)
  {
    assert now == before + now[|before|..];
    OtherQueriesDoNotMatter(parse, before, now[|before|..], query);
  }

  /** Every report agrees with the archive, and a query that was finished before the run is
      reported with the pages it already had. */
  ghost predicate AllReported(parse: Parser, before: seq<Member>, now: seq<Member>, paginations: seq<Pagination>) {
    && (forall i :: 0 <= i < |paginations| ==> Reported(parse, now, i + 1, paginations[i]))
    && (forall i :: 0 <= i < |paginations| && Finished(parse, before, i + 1).Some? ==>
          paginations[i] == Pagination(true, Finished(parse, before, i + 1).value, None))
  }

  lemma {:induction false} ReusedQueryReported(parse: Parser, before: seq<Member>, now: seq<Member>, query: nat, paginations: seq<Pagination>, pages: seq<Page>)
    requires AllReported(parse, before, now, paginations) && |paginations| == query - 1
    requires GrewBy(parse, before, now, query) && Finished(parse, before, query) == Some(pages)
    ensures AllReported(parse, before, now, paginations + [Pagination(true, pages, None)])
    ensures GrewBy(parse, before, now, query + 1)
  {
    UntouchedQuery(parse, before, now, query, query);
    FinishedIsReported(parse, now, query, pages);
  }

  lemma {:induction false} FetchedQueryReported(parse: Parser, before: seq<Member>, middle: seq<Member>, now: seq<Member>, query: nat, paginations: seq<Pagination>, p: Pagination)
    requires AllReported(parse, before, middle, paginations) && |paginations| == query - 1
    requires GrewBy(parse, before, middle, query) && AddedForQuery(middle, now, query)
    requires Finished(parse, before, query).None? && Reported(parse, now, query, p)
    ensures AllReported(parse, before, now, paginations + [p])
    ensures GrewBy(parse, before, now, query + 1)
  {
    GrewByQuery(parse, before, middle, now, query);
    forall i | 0 <= i < |paginations| ensures Reported(parse, now, i + 1, paginations[i]) {
      OtherQueryKeepsReport(parse, middle, now, i + 1, query, paginations[i]);
    }
  }

  /** One query of the run: what the resumed archive holds completely is reported as it is and nothing
      is asked; any other query is collected, from the answers and onto the archive so far. */
  ghost predicate StageOf(parse: Parser, supported: bool, server: Server, resumed: seq<Member>, query: nat,
                          clock: nat, archive: seq<Member>, p: Pagination, tick: nat, now: seq<Member>) {
    if exists pages :: Complete(parse, resumed, query, pages) then
      p.complete && p.reason == None && Complete(parse, resumed, query, p.pages) && tick == clock && now == archive
    else (p, tick, now) == Collecting(parse, supported, server, clock, archive, query)
  }

  lemma {:induction false} AsFinished(parse: Parser, members: seq<Member>, query: nat)
    requires DistinctKeys(members)
    ensures Finished(parse, members, query).Some? <==> exists pages :: Complete(parse, members, query, pages)
    ensures Finished(parse, members, query).Some? ==> Complete(parse, members, query, Finished(parse, members, query).value)
  {
    if Finished(parse, members, query).Some? {
      FinishedMeans(parse, members, query, Finished(parse, members, query).value);
    }
    if pages :| Complete(parse, members, query, pages) {
      FinishedMeans(parse, members, query, pages);
    }
  }

  /** The run query by query: the number of the next answer and the archive before each of them. */
  ghost predicate RunOf(parse: Parser, supported: bool, server: Server, resumed: seq<Member>, paginations: seq<Pagination>, clocks: seq<nat>, archives: seq<seq<Member>>) {
    && |clocks| == |archives| == |paginations| + 1 && clocks[0] == 0 && archives[0] == resumed
    && forall i :: 0 <= i < |paginations| ==>
         StageOf(parse, supported, server, resumed, i + 1, clocks[i], archives[i], paginations[i], clocks[i + 1], archives[i + 1])
  }

  lemma {:induction false} RunOneMore(parse: Parser, supported: bool, server: Server, resumed: seq<Member>, paginations: seq<Pagination>, clocks: seq<nat>, archives: seq<seq<Member>>,
                                      p: Pagination, tick: nat, now: seq<Member>)
    requires RunOf(parse, supported, server, resumed, paginations, clocks, archives)
    requires StageOf(parse, supported, server, resumed, |paginations| + 1, clocks[|paginations|], archives[|paginations|], p, tick, now)
    ensures RunOf(parse, supported, server, resumed, paginations + [p], clocks + [tick], archives + [now])
  {
    var ps, cs, ars := paginations + [p], clocks + [tick], archives + [now];
    forall i | 0 <= i < |ps| ensures StageOf(parse, supported, server, resumed, i + 1, cs[i], ars[i], ps[i], cs[i + 1], ars[i + 1]) {
      if i < |paginations| {
        assert StageOf(parse, supported, server, resumed, i + 1, clocks[i], archives[i], paginations[i], clocks[i + 1], archives[i + 1]);
      }
    }
  }

  /** What the reports so far and the archive so far have to do with each other. */
  ghost predicate Standing(parse: Parser, server: Server, resumed: seq<Member>, paginations: seq<Pagination>, tick: nat, now: seq<Member>) {
    GrewBy(parse, resumed, now, |paginations| + 1) && Archived(resumed, now, server, 0, tick) && AllReported(parse, resumed, now, paginations)
  }

  /** Both ways of handling one query: reuse its stored pages, or collect it. */
  method CollectQuery(spool: RawPageSpool, parse: Parser, supported: bool, server: Server, clock: nat, known: map<(nat, nat), nat>, resumed: Resumed, n: nat,
                      query: nat, paginations: seq<Pagination>)
    returns (now: seq<Pagination>, tick: nat, attempts: map<(nat, nat), nat>)
    requires spool.Valid() && AttemptsMatch(known, spool.members)
    requires CompletedMatch(parse, resumed.completed, resumed.members, n) && 1 <= query <= n
    requires Standing(parse, server, resumed.members, paginations, clock, spool.members) && |paginations| == query - 1
    requires DistinctKeys(resumed.members)
    modifies spool`members, spool`pageNumbers
    ensures spool.Valid() && AttemptsMatch(attempts, spool.members)
    ensures |now| == query && now == paginations + [now[query - 1]]
    ensures Standing(parse, server, resumed.members, now, tick, spool.members)
    ensures StageOf(parse, supported, server, resumed.members, query, clock, old(spool.members), now[query - 1], tick, spool.members)
  {
    ghost var before, middle := resumed.members, spool.members;
    assert (if query in resumed.completed then Some(resumed.completed[query]) else None) == Finished(parse, before, query);
    AsFinished(parse, before, query);
    if query in resumed.completed {
      ReusedQueryReported(parse, before, middle, query, paginations, resumed.completed[query]);
      return paginations + [Pagination(true, resumed.completed[query], None)], clock, known;
    }
    var pagination;
    pagination, tick, attempts := CollectPaginated(spool, parse, supported, server, clock, known, query);
    FetchedQueryReported(parse, before, middle, spool.members, query, paginations, pagination);
    ArchivedInTwo(before, middle, spool.members, server, 0, clock, tick);
    now := paginations + [pagination];
  }

  lemma {:induction false} NothingArchivedYet(parse: Parser, members: seq<Member>, server: Server)
    ensures Archived(members, members, server, 0, 0) && GrewBy(parse, members, members, 1)
  {
    assert members[|members|..] == [];
  }

  /** What the loop has kept after these reports. */
  ghost predicate SoFar(parse: Parser, supported: bool, server: Server, resumed: seq<Member>, paginations: seq<Pagination>, tick: nat, now: seq<Member>,
                        clocks: seq<nat>, archives: seq<seq<Member>>) {
    && Standing(parse, server, resumed, paginations, tick, now)
    && RunOf(parse, supported, server, resumed, paginations, clocks, archives)
    && clocks[|paginations|] == tick && archives[|paginations|] == now
  }

  lemma {:induction false} SoFarOneMore(parse: Parser, supported: bool, server: Server, resumed: seq<Member>, before: seq<Pagination>, clock: nat, archive: seq<Member>,
                                        clocks: seq<nat>, archives: seq<seq<Member>>, paginations: seq<Pagination>, tick: nat, now: seq<Member>)
    requires SoFar(parse, supported, server, resumed, before, clock, archive, clocks, archives)
    requires |paginations| == |before| + 1 && paginations == before + [paginations[|before|]]
    requires Standing(parse, server, resumed, paginations, tick, now)
    requires StageOf(parse, supported, server, resumed, |paginations|, clock, archive, paginations[|before|], tick, now)
    ensures SoFar(parse, supported, server, resumed, paginations, tick, now, clocks + [tick], archives + [now])
  {
    RunOneMore(parse, supported, server, resumed, before, clocks, archives, paginations[|before|], tick, now);
  }

  lemma {:induction false} SoFarIsStep(parse: Parser, supported: bool, server: Server, resumed: seq<Member>, paginations: seq<Pagination>, tick: nat, now: seq<Member>,
                                       clocks: seq<nat>, archives: seq<seq<Member>>, n: nat)
    requires SoFar(parse, supported, server, resumed, paginations, tick, now, clocks, archives)
    requires DistinctKeys(now) && |paginations| <= n
    ensures RunStep(parse, n, resumed, now)
  {
  }

  /** One turn of the loop over the queries. */
  method NextQuery(spool: RawPageSpool, parse: Parser, supported: bool, server: Server, clock: nat, known: map<(nat, nat), nat>, resumed: Resumed, n: nat,
                   query: nat, paginations: seq<Pagination>, stopOnIncomplete: bool, ghost clocks: seq<nat>, ghost archives: seq<seq<Member>>)
    returns (now: seq<Pagination>, tick: nat, attempts: map<(nat, nat), nat>, ghost clocksNow: seq<nat>, ghost archivesNow: seq<seq<Member>>)
    requires spool.Valid() && AttemptsMatch(known, spool.members) && DistinctKeys(resumed.members)
    requires CompletedMatch(parse, resumed.completed, resumed.members, n) && 1 <= query <= n && |paginations| == query - 1
    requires SoFar(parse, supported, server, resumed.members, paginations, clock, spool.members, clocks, archives)
    requires stopOnIncomplete ==> AllComplete(paginations, query - 1)
    modifies spool`members, spool`pageNumbers
    ensures spool.Valid() && AttemptsMatch(attempts, spool.members) && |now| == query
    ensures SoFar(parse, supported, server, resumed.members, now, tick, spool.members, clocksNow, archivesNow)
    ensures stopOnIncomplete ==> AllComplete(now, query - 1)
    ensures stopOnIncomplete && now[query - 1].complete ==> AllComplete(now, query)
  {
    ghost var archive := spool.members;
    now, tick, attempts := CollectQuery(spool, parse, supported, server, clock, known, resumed, n, query, paginations);
    SoFarOneMore(parse, supported, server, resumed.members, paginations, clock, archive, clocks, archives, now, tick, spool.members);
    clocksNow, archivesNow := clocks + [tick], archives + [spool.members];
  }

  /** The first `k` reports are complete. */
  predicate AllComplete(paginations: seq<Pagination>, k: nat)
    requires k <= |paginations|
  {
    forall i :: 0 <= i < k ==> paginations[i].complete
  }

  lemma {:induction false} NothingSoFar(parse: Parser, supported: bool, server: Server, resumed: seq<Member>)
    ensures SoFar(parse, supported, server, resumed, [], 0, resumed, [0], [resumed])
  {
    NothingArchivedYet(parse, resumed, server);
  }

  /** The loop over the queries. */
  method CollectQueries(spool: RawPageSpool, parse: Parser, supported: bool, server: Server, resumed: Resumed, n: nat, stopOnIncomplete: bool)
    returns (paginations: seq<Pagination>, tick: nat, ghost clocks: seq<nat>, ghost archives: seq<seq<Member>>)
    requires spool.Valid() && spool.members == resumed.members
    requires DistinctKeys(resumed.members) && AttemptsMatch(resumed.attempts, resumed.members)
    requires CompletedMatch(parse, resumed.completed, resumed.members, n)
    modifies spool`members, spool`pageNumbers
    ensures spool.Valid()
    ensures SoFar(parse, supported, server, resumed.members, paginations, tick, spool.members, clocks, archives)
    ensures |paginations| <= n
    ensures stopOnIncomplete && paginations != [] ==> AllComplete(paginations, |paginations| - 1)
    ensures |paginations| < n ==> stopOnIncomplete && |paginations| > 0 && !paginations[|paginations| - 1].complete
  {
    NothingSoFar(parse, supported, server, resumed.members);
    var attempts := resumed.attempts;
    tick := 0;
    paginations := [];
    clocks, archives := [0], [resumed.members];
    for query := 1 to n + 1
      invariant spool.Valid() && AttemptsMatch(attempts, spool.members) && |paginations| == query - 1
      invariant SoFar(parse, supported, server, resumed.members, paginations, tick, spool.members, clocks, archives)
      invariant stopOnIncomplete ==> AllComplete(paginations, query - 1)
    {
      paginations, tick, attempts, clocks, archives :=
        NextQuery(spool, parse, supported, server, tick, attempts, resumed, n, query, paginations, stopOnIncomplete, clocks, archives);
      if stopOnIncomplete && !paginations[query - 1].complete {
        break;
      }
    }
  }

  /** The part of `refresh_batch` that collects the raw archive and decides its status. */
  method CollectBatch(parse: Parser, supported: bool, server: Server, manifest: Manifest, resumed: Resumed, n: nat, supplemental: bool, stopOnIncomplete: bool)
    returns (spool: RawPageSpool, paginations: seq<Pagination>, status: InitialStatus, tick: nat, ghost clocks: seq<nat>, ghost archives: seq<seq<Member>>)
    requires DistinctKeys(resumed.members) && AttemptsMatch(resumed.attempts, resumed.members)
    requires CompletedMatch(parse, resumed.completed, resumed.members, n)
    ensures fresh(spool) && spool.Valid() && spool.manifest == Some(manifest)
    ensures RunStep(parse, n, resumed.members, spool.members)
    ensures Archived(resumed.members, spool.members, server, 0, tick)
    ensures AllReported(parse, resumed.members, spool.members, paginations)
    ensures RunOf(parse, supported, server, resumed.members, paginations, clocks, archives)
    ensures clocks[|paginations|] == tick && archives[|paginations|] == spool.members
    ensures |paginations| <= n
    ensures stopOnIncomplete ==> forall i :: 0 <= i < |paginations| - 1 ==> paginations[i].complete
    ensures |paginations| < n ==> stopOnIncomplete && |paginations| > 0 && !paginations[|paginations| - 1].complete
    ensures status == Acquired <==> !supplemental && |paginations| == n && forall i :: 0 <= i < n ==> paginations[i].complete
  {
    spool := new RawPageSpool();
    var added := spool.AddManifest(manifest);
    RestoreMembers(spool, resumed.members);
    paginations, tick, clocks, archives := CollectQueries(spool, parse, supported, server, resumed, n, stopOnIncomplete);
    SoFarIsStep(parse, supported, server, resumed.members, paginations, tick, spool.members, clocks, archives, n);
    status := if !supplemental && |paginations| == n && forall i :: 0 <= i < |paginations| ==> paginations[i].complete then Acquired else Incomplete;
  }

  // ------------------------------------------------------------------ any chain of runs

  lemma {:induction false} StepKeepsFinished(parse: Parser, n: nat, before: seq<Member>, after: seq<Member>, query: nat)
    requires RunStep(parse, n, before, after) && Finished(parse, before, query).Some?
    ensures Finished(parse, after, query) == Finished(parse, before, query)
    ensures forall m :: m in after[|before|..] ==> m.key.query != query
  {
    assert after == before + after[|before|..];
    OtherQueriesDoNotMatter(parse, before, after[|before|..], query);
  }

  /** Archives of consecutive runs over the same queries. */
  ghost predicate Chain(parse: Parser, n: nat, archives: seq<seq<Member>>) {
    forall i :: 0 <= i < |archives| - 1 ==> RunStep(parse, n, archives[i], archives[i + 1])
  }

  /** Over any chain of runs every earlier member survives in place, byte for byte; attempt
      numbers never collide; a finished query stays finished with the same pages and is never
      asked for again. */
  lemma {:induction false} ChainKeepsEverything(parse: Parser, n: nat, archives: seq<seq<Member>>, i: nat, j: nat)
    requires Chain(parse, n, archives) && i <= j < |archives|
    ensures archives[i] <= archives[j]
    ensures i < j ==> DistinctKeys(archives[j])
    ensures forall query: nat :: Finished(parse, archives[i], query).Some? ==>
              && Finished(parse, archives[j], query) == Finished(parse, archives[i], query)
              && forall m :: m in archives[j][|archives[i]|..] ==> m.key.query != query
    decreases j - i
  {
    if i < j {
      ChainKeepsEverything(parse, n, archives, i, j - 1);
      assert RunStep(parse, n, archives[j - 1], archives[j - 1 + 1]);
      var a, b, c := archives[i], archives[j - 1], archives[j];
      assert c[|a|..] == b[|a|..] + c[|b|..];
      forall query: nat | Finished(parse, a, query).Some?
        ensures Finished(parse, c, query) == Finished(parse, a, query) && forall m :: m in c[|a|..] ==> m.key.query != query
      {
        StepKeepsFinished(parse, n, b, c, query);
      }
    }
  }

  // ------------------------------------------------------------------ the archive on disk

  function Entries(members: seq<Member>): seq<Entry> {
    seq(|members|, i requires 0 <= i < |members| => Entry(MemberName(members[i].key), members[i].raw))
  }

  lemma {:induction false} EntriesAppend(members: seq<Member>, m: Member)
    ensures Entries(members + [m]) == Entries(members) + [Entry(MemberName(m.key), m.raw)]
  {
  }

  lemma {:induction false} ReadEntriesAppend(entries: seq<Entry>, e: Entry)
    ensures ReadEntries(entries + [e])
            == if ReadEntries(entries).None? || ReadName(e.name).None? then None
               else Some(ReadEntries(entries).value + [Member(ReadName(e.name).value, e.raw)])
  {
    assert (entries + [e])[..|entries|] == entries;
  }

  /** The written archive reads back to its members exactly when every number has six digits or
      fewer. */
  lemma {:induction false} EntriesReadBackIff(members: seq<Member>)
    ensures ReadEntries(Entries(members)) == if forall m :: m in members ==> Printable(m.key) then Some(members) else None
  {
    if members != [] {
      var front, last := members[..|members| - 1], members[|members| - 1];
      assert members == front + [last];
      EntriesReadBackIff(front);
      EntriesAppend(front, last);
      ReadEntriesAppend(Entries(front), Entry(MemberName(last.key), last.raw));
      NameRoundTripsIff(last.key);
      assert forall m :: m in members <==> m in front || m == last;
    }
  }

  /** The archive of a run that started from a loadable one can be loaded again by the next run,
      with the same members, exactly when no number has outgrown its six digits. */
  lemma {:induction false} RunStaysLoadable(parse: Parser, n: nat, before: seq<Member>, after: seq<Member>)
    requires RunStep(parse, n, before, after)
    requires forall m :: m in before ==> KeyInRange(m.key, n)
    ensures Loadable(Entries(after), n) <==> forall m :: m in after ==> Printable(m.key)
    ensures Loadable(Entries(after), n) ==> ReadEntries(Entries(after)) == Some(after)
  {
    EntriesReadBackIff(after);
    assert after == before + after[|before|..];
    forall m | m in after ensures KeyInRange(m.key, n) {
      assert m in before || m in after[|before|..];
    }
  }
}
