/** Collecting a batch of paginated queries into a raw archive, and resuming it from an earlier
    archive after an incomplete run. */
module RawResume {
  import opened Common
  import opened RawNames
  import opened RawArchive
  import opened RawMeaning

  // ------------------------------------------------------------------ loading an earlier archive

  datatype LoadError = ManifestInvalid | ScopeMismatch | MemberInvalid | FormatUnsupported

  datatype Resumed = Resumed(members: seq<Member>, completed: map<nat, seq<Page>>, attempts: map<(nat, nat), nat>)

  function AttemptOf(attempts: map<(nat, nat), nat>, query: nat, page: nat): nat {
    if (query, page) in attempts then attempts[(query, page)] else 0
  }

  ghost predicate AttemptsMatch(attempts: map<(nat, nat), nat>, members: seq<Member>) {
    forall query: nat, page: nat :: AttemptOf(attempts, query, page) == MaxAttempt(members, query, page)
  }

  ghost predicate CompletedMatch(parse: Parser, completed: map<nat, seq<Page>>, members: seq<Member>, n: nat) {
    forall query: nat :: (if query in completed then Some(completed[query]) else None)
                         == if 1 <= query <= n then Finished(parse, members, query) else None
  }

  predicate KeyInRange(key: PageKey, n: nat) {
    1 <= key.query <= n && key.page >= 1 && key.attempt >= 1
  }

  /** The members behind the entries; `None` when some name is not recognised. */
  function ReadEntries(entries: seq<Entry>): Option<seq<Member>> {
    if entries == [] then Some([])
    else
      var before := ReadEntries(entries[..|entries| - 1]);
      var key := ReadName(entries[|entries| - 1].name);
      if before.None? || key.None? then None else Some(before.value + [Member(key.value, entries[|entries| - 1].raw)])
  }

  /** The member is filed under the key the entry's name says, with the entry's bytes. */
  predicate IsMember(entry: Entry, m: Member) {
    ReadName(entry.name) == Some(m.key) && m.raw == entry.raw
  }

  /** The members are the entries one by one. */
  lemma {:induction false} ReadEntriesMeans(entries: seq<Entry>, members: seq<Member>)
    ensures ReadEntries(entries) == Some(members) <==>
            |members| == |entries| && forall i :: 0 <= i < |entries| ==> IsMember(entries[i], members[i])
  {
    if entries != [] && members != [] {
      var n, k := |members| - 1, |entries| - 1;
      ReadEntriesMeans(entries[..k], members[..n]);
      assert members == members[..n] + [members[n]];
      ReadLast(entries, members[..n], members[n]);
    } else if entries != [] {
      var before := ReadEntries(entries[..|entries| - 1]);
    }
  }

  lemma {:induction false} ReadLast(entries: seq<Entry>, front: seq<Member>, last: Member)
    requires entries != []
    ensures ReadEntries(entries) == Some(front + [last]) <==> ReadEntries(entries[..|entries| - 1]) == Some(front) && IsMember(entries[|entries| - 1], last)
  {
    if ReadEntries(entries) == Some(front + [last]) {
      var before := ReadEntries(entries[..|entries| - 1]).value;
      assert before == (before + [last])[..|before|] && front == (front + [last])[..|front|];
    }
  }

  ghost predicate Loadable(entries: seq<Entry>, n: nat) {
    && ReadEntries(entries).Some?
    && (forall m :: m in ReadEntries(entries).value ==> KeyInRange(m.key, n))
    && DistinctKeys(ReadEntries(entries).value)
  }

  /** An entry the loader refuses: its name is none it knows, a number is out of range, or an earlier
      entry has the same key. */
  ghost predicate BadEntry(entries: seq<Entry>, n: nat, i: nat) {
    && i < |entries|
    && match ReadName(entries[i].name)
       case None => true
       case Some(key) =>
         !(1 <= key.query <= n && 1 <= key.page && 1 <= key.attempt) || exists j :: 0 <= j < i && ReadName(entries[j].name) == Some(key)
  }

  lemma {:induction false} LoadableMeans(entries: seq<Entry>, n: nat)
    ensures Loadable(entries, n) <==> forall i: nat :: !BadEntry(entries, n, i)
  {
    if forall i: nat :: !BadEntry(entries, n, i) {
      forall i | 0 <= i < |entries| ensures ReadName(entries[i].name).Some? {
        assert !BadEntry(entries, n, i);
      }
      ReadableEntries(entries);
    }
    if ReadEntries(entries).Some? {
      var members := ReadEntries(entries).value;
      ReadEntriesMeans(entries, members);
      MembersIff(entries, n, members);
    } else if Loadable(entries, n) {
      assert false;
    }
  }

  lemma {:induction false} ReadableEntries(entries: seq<Entry>)
    requires forall i :: 0 <= i < |entries| ==> ReadName(entries[i].name).Some?
    ensures ReadEntries(entries).Some?
  {
    if entries != [] {
      ReadableEntries(entries[..|entries| - 1]);
    }
  }

  lemma {:induction false} GoodEntry(entries: seq<Entry>, n: nat, members: seq<Member>, i: nat)
    requires |members| == |entries| && forall i :: 0 <= i < |entries| ==> ReadName(entries[i].name) == Some(members[i].key)
    requires (forall m :: m in members ==> KeyInRange(m.key, n)) && DistinctKeys(members)
    ensures !BadEntry(entries, n, i)
  {
    if i < |entries| {
      assert members[i] in members && KeyInRange(members[i].key, n);
      forall j | 0 <= j < i ensures ReadName(entries[j].name) != Some(members[i].key) {
        assert members[j].key != members[i].key;
      }
    }
  }

  lemma {:induction false} MembersIff(entries: seq<Entry>, n: nat, members: seq<Member>)
    requires |members| == |entries| && forall i :: 0 <= i < |entries| ==> ReadName(entries[i].name) == Some(members[i].key)
    ensures (forall m :: m in members ==> KeyInRange(m.key, n)) && DistinctKeys(members) <==> forall i: nat :: !BadEntry(entries, n, i)
  {
    if (forall m :: m in members ==> KeyInRange(m.key, n)) && DistinctKeys(members) {
      forall i: nat ensures !BadEntry(entries, n, i) {
        GoodEntry(entries, n, members, i);
      }
    }
    if forall i: nat :: !BadEntry(entries, n, i) {
      forall m | m in members ensures KeyInRange(m.key, n) {
        var i :| 0 <= i < |members| && members[i] == m;
        assert !BadEntry(entries, n, i);
      }
      forall i, j | 0 <= i < j < |members| ensures members[i].key != members[j].key {
        assert !BadEntry(entries, n, j);
        assert ReadName(entries[i].name) == Some(members[i].key);
      }
    }
  }

  /** Why the entries are refused: the first entry that is bad, or, in a format that cannot be parsed,
      the first entry of all. */
  ghost predicate IsRefusal(supported: bool, entries: seq<Entry>, n: nat, error: LoadError) {
    if supported || BadEntry(entries, n, 0) then error == MemberInvalid && exists i: nat :: BadEntry(entries, n, i)
    else error == FormatUnsupported && entries != []
  }

  ghost predicate ParsedMatch(parse: Parser, parsed: map<(nat, nat), Stored>, members: seq<Member>) {
    forall query: nat, page: nat ::
      (if (query, page) in parsed then Some(parsed[(query, page)]) else None) == Latest(parse, members, query, page)
  }

  method RebuildQuery(parse: Parser, parsed: map<(nat, nat), Stored>, ghost members: seq<Member>, query: nat) returns (r: Option<seq<Page>>)
    requires ParsedMatch(parse, parsed, members)
    ensures r == Finished(parse, members, query)
  {
    if (query, 1) !in parsed {
      return None;
    }
    var first := parsed[(query, 1)].page;
    var expected := ExpectedPages(first);
    var pages: seq<Page> := [];
    for n := 1 to expected + 1
      invariant pages == StoredPages(parse, members, query, n - 1)
    {
      if (query, n) in parsed {
        pages := pages + [parsed[(query, n)].page];
      }
    }
    if |pages| == expected && forall i :: 0 <= i < |pages| ==> pages[i].totalCount == first.totalCount {
      return Some(pages);
    }
    return None;
  }

  lemma {:induction false} UnreadablePrefix(entries: seq<Entry>, k: nat)
    requires k <= |entries| && ReadEntries(entries[..k]).None?
    ensures ReadEntries(entries).None?
    decreases |entries| - k
  {
    if k < |entries| {
      assert entries[..k + 1][..k] == entries[..k];
      UnreadablePrefix(entries, k + 1);
    } else {
      assert entries[..k] == entries;
    }
  }

  lemma {:induction false} ReadPrefix(entries: seq<Entry>, k: nat)
    requires k <= |entries| && ReadEntries(entries).Some?
    ensures ReadEntries(entries[..k]).Some? && ReadEntries(entries[..k]).value <= ReadEntries(entries).value
    ensures |ReadEntries(entries).value| == |entries|
    decreases |entries|
  {
    if k == |entries| {
      assert entries[..k] == entries;
    }
    if entries != [] {
      ReadPrefix(entries[..|entries| - 1], if k < |entries| then k else |entries| - 1);
      if k < |entries| {
        assert entries[..|entries| - 1][..k] == entries[..k];
      }
    }
  }

  /** Read every member: reject unknown names, keys out of range and repeats; remember for each
      page its highest attempt and its newest usable copy. */
  method ReadMembers(parse: Parser, supported: bool, entries: seq<Entry>, n: nat)
    returns (r: Result<(seq<Member>, map<(nat, nat), nat>, map<(nat, nat), Stored>), LoadError>)
    ensures r.Ok? <==> Loadable(entries, n) && (supported || entries == [])
    ensures r.Ok? ==> Some(r.value.0) == ReadEntries(entries) && AttemptsMatch(r.value.1, r.value.0) && ParsedMatch(parse, r.value.2, r.value.0)
    ensures r.Err? ==> IsRefusal(supported, entries, n, r.error)
  {
    LoadableMeans(entries, n);
    var members: seq<Member> := [];
    var attempts: map<(nat, nat), nat> := map[];
    var parsed: map<(nat, nat), Stored> := map[];
    var seenMembers: set<PageKey> := {};
    for i := 0 to |entries|
      invariant ReadEntries(entries[..i]) == Some(members)
      invariant supported || i == 0
      invariant forall m :: m in members ==> KeyInRange(m.key, n)
      invariant DistinctKeys(members)
      invariant forall key :: key in seenMembers <==> exists m :: m in members && m.key == key
      invariant AttemptsMatch(attempts, members)
      invariant ParsedMatch(parse, parsed, members)
    {
      assert entries[..i + 1][..i] == entries[..i];
      var key := ReadName(entries[i].name);
      if key.None? {
        UnreadablePrefix(entries, i + 1);
        return Err(MemberInvalid);
      }
      var m := Member(key.value, entries[i].raw);
      if !KeyInRange(m.key, n) || m.key in seenMembers {
        RejectedMember(entries, i, members, m, n);
        return Err(MemberInvalid);
      }
      if !supported {
        assert !BadEntry(entries, n, 0);
        return Err(FormatUnsupported);
      }
      seenMembers := seenMembers + {m.key};
      attempts, parsed := FileMember(parse, members, m, attempts, parsed);
      members := members + [m];
    }
    assert entries[..|entries|] == entries;
    return Ok((members, attempts, parsed));
  }

  lemma {:induction false} RejectedMember(entries: seq<Entry>, i: nat, members: seq<Member>, m: Member, n: nat)
    requires i < |entries| && ReadEntries(entries[..i + 1]) == Some(members + [m])
    requires !KeyInRange(m.key, n) || exists o :: o in members && o.key == m.key
    ensures !Loadable(entries, n)
  {
    if ReadEntries(entries).Some? {
      ReadPrefix(entries, i + 1);
      var all := ReadEntries(entries).value;
      assert all[|members|] == m;
      if KeyInRange(m.key, n) {
        var o :| o in members && o.key == m.key;
        var k :| 0 <= k < |members| && members[k] == o;
        assert all[k].key == all[|members|].key;
      } else {
        assert m in all;
      }
    }
  }

  method FileMember(parse: Parser, ghost members: seq<Member>, m: Member, attempts: map<(nat, nat), nat>, parsed: map<(nat, nat), Stored>)
    returns (attemptsNow: map<(nat, nat), nat>, parsedNow: map<(nat, nat), Stored>)
    requires AttemptsMatch(attempts, members) && ParsedMatch(parse, parsed, members)
    ensures AttemptsMatch(attemptsNow, members + [m]) && ParsedMatch(parse, parsedNow, members + [m])
  {
    assert (members + [m])[..|members|] == members;
    var page := (m.key.query, m.key.page);
    var before := AttemptOf(attempts, m.key.query, m.key.page);
    attemptsNow := attempts[page := if m.key.attempt > before then m.key.attempt else before];
    parsedNow := parsed;
    var decoded := parse(m.raw);
    if decoded.Some? && decoded.value.number == m.key.page && (page !in parsed || m.key.attempt > parsed[page].attempt) {
      parsedNow := parsed[page := Stored(m.key.attempt, decoded.value)];
    }
  }

  /** A query counts as completed with these pages exactly when the archive holds them completely. */
  ghost predicate CompletedMeans(parse: Parser, completed: map<nat, seq<Page>>, members: seq<Member>, n: nat) {
    forall query: nat, pages :: query in completed && completed[query] == pages <==> 1 <= query <= n && Complete(parse, members, query, pages)
  }

  /** For every page the highest attempt filed for it, zero when there is none. */
  ghost predicate AttemptsMean(attempts: map<(nat, nat), nat>, members: seq<Member>) {
    forall query: nat, number: nat :: HighestAttempt(members, query, number, if (query, number) in attempts then attempts[(query, number)] else 0)
  }

  lemma {:induction false} CompletedIsMeant(parse: Parser, completed: map<nat, seq<Page>>, members: seq<Member>, n: nat)
    requires DistinctKeys(members) && CompletedMatch(parse, completed, members, n)
    ensures CompletedMeans(parse, completed, members, n)
  {
    forall query: nat, pages
      ensures query in completed && completed[query] == pages <==> 1 <= query <= n && Complete(parse, members, query, pages)
    {
      assert (if query in completed then Some(completed[query]) else None) == if 1 <= query <= n then Finished(parse, members, query) else None;
      FinishedMeans(parse, members, query, pages);
    }
  }

  lemma {:induction false} AttemptsAreMeant(attempts: map<(nat, nat), nat>, members: seq<Member>)
    requires AttemptsMatch(attempts, members)
    ensures AttemptsMean(attempts, members)
  {
    forall query: nat, number: nat
      ensures HighestAttempt(members, query, number, if (query, number) in attempts then attempts[(query, number)] else 0)
    {
      MaxAttemptMeans(members, query, number);
      assert AttemptOf(attempts, query, number) == MaxAttempt(members, query, number);
    }
  }

  method RebuildQueries(parse: Parser, parsed: map<(nat, nat), Stored>, ghost members: seq<Member>, n: nat) returns (completed: map<nat, seq<Page>>)
    requires ParsedMatch(parse, parsed, members) && DistinctKeys(members)
    ensures CompletedMatch(parse, completed, members, n) && CompletedMeans(parse, completed, members, n)
  {
    completed := map[];
    for query := 1 to n + 1
      invariant CompletedMatch(parse, completed, members, query - 1)
    {
      var pages := RebuildQuery(parse, parsed, members, query);
      if pages.Some? {
        completed := completed[query := pages.value];
      }
    }
    CompletedIsMeant(parse, completed, members, n);
  }

  /** `_load_resumed_raw_batch`. */
  method LoadResumed(parse: Parser, supported: bool, expected: Manifest, manifest: Option<Manifest>, entries: seq<Entry>)
    returns (r: Result<Resumed, LoadError>)
    ensures r.Ok? <==> manifest == Some(expected) && Loadable(entries, expected.queryCount) && (supported || entries == [])
    ensures r.Ok? ==> forall i: nat :: !BadEntry(entries, expected.queryCount, i)
    ensures r.Ok? ==> Some(r.value.members) == ReadEntries(entries)
    ensures manifest == Some(expected) && r.Err? ==> IsRefusal(supported, entries, expected.queryCount, r.error)
    ensures r.Ok? ==> AttemptsMatch(r.value.attempts, r.value.members)
    ensures r.Ok? ==> CompletedMatch(parse, r.value.completed, r.value.members, expected.queryCount)
    ensures r.Ok? ==> CompletedMeans(parse, r.value.completed, r.value.members, expected.queryCount)
    ensures r.Ok? ==> AttemptsMean(r.value.attempts, r.value.members)
    ensures manifest.None? ==> r == Err(ManifestInvalid)
    ensures manifest.Some? && manifest.value != expected ==> r == Err(ScopeMismatch)
  {
    if manifest.None? {
      return Err(ManifestInvalid);
    }
    if manifest.value != expected {
      return Err(ScopeMismatch);
    }
    LoadableMeans(entries, expected.queryCount);
    var read := ReadMembers(parse, supported, entries, expected.queryCount);
    if read.Err? {
      return Err(read.error);
    }
    var (members, attempts, parsed) := read.value;
    var completed := RebuildQueries(parse, parsed, members, expected.queryCount);
    AttemptsAreMeant(attempts, members);
    return Ok(Resumed(members, completed, attempts));
  }
}
