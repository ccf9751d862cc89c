/** What the lifecycle does not guarantee, each with a reachable state that shows it, and the
    exact condition under which it does. */
module LifecycleLimits {
  import opened Common
  import opened Lifecycle
  import opened LifecycleInvariant
  import opened LifecycleSafety
  import opened LifecycleLocks
  import opened LifecycleResults

  // ------------------------------------------------------------------ reaching states

  ghost predicate Reachable(table: Capabilities, s: State) {
    exists actions :: Run(table, actions) == Some(s)
  }

  lemma {:induction false} StepReaches(table: Capabilities, s: State, action: Action, t: State)
    requires Reachable(table, s) && Next(table, s, action) == Some(t)
    ensures Reachable(table, t)
  {
    var actions :| Run(table, actions) == Some(s);
    assert (actions + [action])[..|actions|] == actions;
    assert Run(table, actions + [action]) == Some(t);
  }

  lemma {:induction false} StartReaches(table: Capabilities)
    ensures Reachable(table, EMPTY)
  {
    assert Run(table, []) == Some(EMPTY);
  }

  const PLACE: SourceId := "tourapi.place"
  const SEARCH_READY := "place_search_ready"

  predicate VouchesForPlaces(table: Capabilities) {
    SEARCH_READY in table && PLACE in table[SEARCH_READY]
  }

  function FullCoverage(): CoverageRecord {
    CoverageRecord(SEARCH_READY, 1.0, "JEJU_ALL", "ALL", None, None, None)
  }

  function Raw(checksum: string): Acquisition {
    Acquisition(PLACE, checksum, "v1", Acquired, "", None, None, 0)
  }

  function Checked(raw: string, normalized: string): Acquisition {
    Raw(raw).(status := Validated, normalizedChecksum := normalized)
  }

  /** Register and validate a new acquisition. */
  lemma {:induction false} Validate(table: Capabilities, s: State, a: AcquisitionId, raw: string, normalized: string) returns (t: State)
    requires Reachable(table, s) && s.running == map[] && a !in s.db.acquisitions
    requires forall x :: x in s.db.acquisitions ==> s.db.acquisitions[x].rawChecksum != raw
    ensures Reachable(table, t)
    ensures t == s.(db := s.db.(acquisitions := s.db.acquisitions[a := Checked(raw, normalized)]))
  {
    var registered := s.(db := s.db.(acquisitions := s.db.acquisitions[a := Raw(raw)]));
    StepReaches(table, s, Register(a, Raw(raw)), registered);
    t := s.(db := s.db.(acquisitions := s.db.acquisitions[a := Checked(raw, normalized)]));
    assert registered.db.acquisitions[a := Checked(raw, normalized)] == t.db.acquisitions;
    StepReaches(table, registered, MarkValidated(a, normalized), t);
  }

  /** Begin a publish and take both of its locks, while nothing else runs. */
  lemma {:induction false} PublishLocks(table: Capabilities, s: State, a: AcquisitionId) returns (t: State)
    requires Reachable(table, s) && s.running == map[] && a in s.db.acquisitions
    ensures Reachable(table, t) && t == Moved(s, 0, PublishSourceLocked(a, s.db.acquisitions[a]))
  {
    var row := s.db.acquisitions[a];
    var s1 := Moved(s, 0, PublishBegun(a));
    var s2 := Moved(s1, 0, PublishRowLocked(a, row));
    t := Moved(s, 0, PublishSourceLocked(a, row));
    assert Moved(s2, 0, PublishSourceLocked(a, row)) == t;
    StepReaches(table, s, Begin(0, PublishBegun(a)), s1);
    StepReaches(table, s1, Proceed(0), s2);
    StepReaches(table, s2, Proceed(0), t);
  }

  /** Publish a validated acquisition with no twin, uninterrupted. */
  lemma {:induction false} Publish(table: Capabilities, s: State, a: AcquisitionId, p: PublicationId) returns (t: State)
    requires Reachable(table, s) && s.running == map[] && a in s.db.acquisitions && p !in s.db.publications
    requires s.db.acquisitions[a].status == Validated && s.db.acquisitions[a].normalizedChecksum != ""
    requires !HasTwin(s.db, s.db.acquisitions[a].source, VersionOf(s.db.acquisitions[a]))
    ensures Reachable(table, t)
    ensures t == s.(db := Inserted(s.db, a, p), returned := s.returned + [Returned(a, p, true)])
  {
    var row := s.db.acquisitions[a];
    var locked := PublishLocks(table, s, a);
    t := s.(db := Inserted(s.db, a, p), returned := s.returned + [Returned(a, p, true)]);
    assert locked.running - {0} == s.running;
    assert !exists q :: q in s.db.publications && SameVersion(s.db, q, row.source, VersionOf(row));
    StepReaches(table, locked, CommitPublish(0, p), t);
  }

  /** Publish a validated acquisition whose dataset version is published already. */
  lemma {:induction false} PublishTwin(table: Capabilities, s: State, a: AcquisitionId, twin: PublicationId) returns (t: State)
    requires Reachable(table, s) && s.running == map[] && a in s.db.acquisitions
    requires s.db.acquisitions[a].status == Validated && s.db.acquisitions[a].normalizedChecksum != ""
    requires SameVersion(s.db, twin, s.db.acquisitions[a].source, VersionOf(s.db.acquisitions[a]))
    ensures Reachable(table, t)
    ensures t == s.(db := WithStatus(s.db, a, NoChange), returned := s.returned + [Returned(a, twin, false)])
  {
    var locked := PublishLocks(table, s, a);
    t := s.(db := WithStatus(s.db, a, NoChange), returned := s.returned + [Returned(a, twin, false)]);
    assert locked.running - {0} == s.running;
    StepReaches(table, locked, CommitPublish(0, twin), t);
  }

  function ActivatedNow(db: Db, p: PublicationId, records: seq<CoverageRecord>): Db
    requires p in db.publications && db.publications[p].acquisition in db.acquisitions
  {
    var source := db.publications[p].source;
    WithStatus(db, db.publications[p].acquisition, Published).(
      active := db.active[source := p],
      log := db.log + [Event(source, ActiveOf(db, source), p, false)],
      coverage := db.coverage + Coverages(p, records))
  }

  lemma {:induction false} ActivateLocks(table: Capabilities, s: State, tx: TransactionId, p: PublicationId, records: seq<CoverageRecord>, source: SourceId, a: AcquisitionId)
    returns (t: State)
    requires Reachable(table, s) && tx !in s.running && Names(s.db, p, source, a) && a in s.db.acquisitions && records != []
    requires s.db.acquisitions[a].status == Staged && SourceFree(s, source) && RowFree(s, a)
    ensures Reachable(table, t) && t == Moved(s, tx, ActivateRowLocked(p, records, source, a))
  {
    var s3 := ActivateTakesSource(table, s, tx, p, records, source, a);
    t := Moved(s, tx, ActivateRowLocked(p, records, source, a));
    assert Moved(s3, tx, t.running[tx]) == t;
    StepReaches(table, s3, Proceed(tx), t);
  }

  /** Activate a staged publication while no other transaction holds its locks. */
  lemma {:induction false} Activate(table: Capabilities, s: State, tx: TransactionId, p: PublicationId) returns (t: State)
    requires Reachable(table, s) && tx !in s.running && p in s.db.publications && s.db.publications[p].acquisition in s.db.acquisitions
    requires s.db.publications[p].source == PLACE && VouchesForPlaces(table)
    requires s.db.acquisitions[s.db.publications[p].acquisition].status == Staged
    requires SourceFree(s, PLACE) && RowFree(s, s.db.publications[p].acquisition)
    ensures Reachable(table, t)
    ensures t == s.(db := ActivatedNow(s.db, p, [FullCoverage()]))
  {
    var a, records := s.db.publications[p].acquisition, [FullCoverage()];
    var locked := ActivateLocks(table, s, tx, p, records, PLACE, a);
    var ready := Moved(s, tx, ActivateReady(p, records, PLACE, a, ActiveOf(s.db, PLACE)));
    assert ActivationAccepted(table, PLACE, records);
    assert Moved(locked, tx, ready.running[tx]) == ready;
    StepReaches(table, locked, Proceed(tx), ready);
    t := s.(db := ActivatedNow(s.db, p, records));
    assert ready.running - {tx} == s.running;
    StepReaches(table, ready, CommitActivate(tx), t);
  }

  lemma {:induction false} RollbackLocksSource(table: Capabilities, s: State, tx: TransactionId, source: SourceId, p: PublicationId)
    returns (t: State)
    requires Reachable(table, s) && tx !in s.running && SourceFree(s, source)
    ensures Reachable(table, t) && t == Moved(s, tx, RollbackSourceLocked(source, p))
  {
    var begun := Moved(s, tx, RollbackBegun(source, p));
    t := Moved(s, tx, RollbackSourceLocked(source, p));
    assert Moved(begun, tx, t.running[tx]) == t;
    StepReaches(table, s, Begin(tx, RollbackBegun(source, p)), begun);
    StepReaches(table, begun, Proceed(tx), t);
  }

  lemma {:induction false} RollbackLocks(table: Capabilities, s: State, tx: TransactionId, source: SourceId, p: PublicationId) returns (t: State)
    requires Reachable(table, s) && tx !in s.running && SourceFree(s, source) && source in s.db.active
    requires p in s.db.publications && s.db.publications[p].source == source
    ensures Reachable(table, t) && t == Moved(s, tx, RollbackReady(source, p, s.db.active[source]))
  {
    var locked := RollbackLocksSource(table, s, tx, source, p);
    t := Moved(s, tx, RollbackReady(source, p, s.db.active[source]));
    assert Moved(locked, tx, t.running[tx]) == t;
    StepReaches(table, locked, Proceed(tx), t);
  }

  /** Roll a source back while no other transaction holds its lock. */
  lemma {:induction false} RollBack(table: Capabilities, s: State, tx: TransactionId, source: SourceId, p: PublicationId) returns (t: State)
    requires Reachable(table, s) && tx !in s.running && SourceFree(s, source) && source in s.db.active
    requires p in s.db.publications && s.db.publications[p].source == source
    ensures Reachable(table, t) && t.db == RolledBack(s.db, source, p, s.db.active[source])
  {
    var ready := RollbackLocks(table, s, tx, source, p);
    t := RollbackCommitted(ready, tx);
    StepReaches(table, ready, CommitRollback(tx), t);
  }

  /** Two publications of one source: the first only staged or activated, the second staged. */
  lemma {:induction false} TwoPublications(table: Capabilities, activateFirst: bool) returns (s: State)
    requires VouchesForPlaces(table)
    ensures Reachable(table, s) && s.running == map[]
    ensures 1 in s.db.publications && 2 in s.db.publications
    ensures s.db.publications[1] == Publication(PLACE, 1, Version(0, "a")) && s.db.publications[2] == Publication(PLACE, 2, Version(0, "b"))
    ensures 1 in s.db.acquisitions && 2 in s.db.acquisitions && s.db.acquisitions[2].status == Staged
    ensures s.db.acquisitions[1].source == s.db.acquisitions[2].source == PLACE
    ensures if activateFirst then ActiveOf(s.db, PLACE) == Some(1) && IsPublished(s.db, 1)
            else ActiveOf(s.db, PLACE) == None && s.db.acquisitions[1].status == Staged
  {
    StartReaches(table);
    var s1 := Validate(table, EMPTY, 1, "a", "a");
    var s2 := Publish(table, s1, 1, 1);
    var s3 := s2;
    if activateFirst {
      s3 := Activate(table, s2, 0, 1);
    }
    var s4 := Validate(table, s3, 2, "b", "b");
    s := Publish(table, s4, 2, 2);
  }

  // ------------------------------------------------------------------ rollback

  /** A rollback may activate a publication that was never activated: its target only has to
      belong to the source. */
  lemma {:induction false} RollbackCanActivateStaged(table: Capabilities) returns (s: State)
    requires VouchesForPlaces(table)
    ensures Reachable(table, s)
    ensures ActiveOf(s.db, PLACE) == Some(1) && 1 in s.db.publications && !IsPublished(s.db, 1)
  {
    var s0 := TwoPublications(table, false);
    var s1 := Activate(table, s0, 0, 2);
    s := RollBack(table, s1, 0, PLACE, 1);
  }

  // ------------------------------------------------------------------ deadlock

  lemma {:induction false} PublishTakesRow(table: Capabilities, s: State, tx: TransactionId, a: AcquisitionId) returns (t: State)
    requires Reachable(table, s) && tx !in s.running && a in s.db.acquisitions && RowFree(s, a)
    ensures Reachable(table, t) && t == Moved(s, tx, PublishRowLocked(a, s.db.acquisitions[a]))
  {
    var s1 := Moved(s, tx, PublishBegun(a));
    t := Moved(s, tx, PublishRowLocked(a, s.db.acquisitions[a]));
    assert Moved(s1, tx, t.running[tx]) == t;
    StepReaches(table, s, Begin(tx, PublishBegun(a)), s1);
    StepReaches(table, s1, Proceed(tx), t);
  }

  lemma {:induction false} ActivateTakesSource(table: Capabilities, s: State, tx: TransactionId, p: PublicationId, records: seq<CoverageRecord>, source: SourceId, a: AcquisitionId)
    returns (t: State)
    requires Reachable(table, s) && tx !in s.running && Names(s.db, p, source, a) && a in s.db.acquisitions && records != []
    requires s.db.acquisitions[a].status == Staged && SourceFree(s, source)
    ensures Reachable(table, t) && t == Moved(s, tx, ActivateSourceLocked(p, records, source, a))
  {
    var s1 := Moved(s, tx, ActivateBegun(p, records));
    var s2 := Moved(s, tx, ActivateFound(p, records, source, a));
    t := Moved(s, tx, ActivateSourceLocked(p, records, source, a));
    assert Moved(s1, tx, s2.running[tx]) == s2 && Moved(s2, tx, t.running[tx]) == t;
    StepReaches(table, s, Begin(tx, ActivateBegun(p, records)), s1);
    StepReaches(table, s1, Proceed(tx), s2);
    StepReaches(table, s2, Proceed(tx), t);
  }

  /** The two lock orders deadlock: a reachable state in which `_publish` holds the row of
      acquisition 1 and waits for its source, while `publish_coverage` holds that source and waits
      for that row. */
  lemma {:induction false} LockOrdersCanDeadlock(table: Capabilities) returns (s: State)
    requires VouchesForPlaces(table)
    ensures Reachable(table, s) && s.running.Keys == {1, 2} && Deadlocked(s, {1, 2})
    ensures s.running[1].PublishRowLocked? && s.running[1].acquisition == 1 && s.running[1].row.source == PLACE
    ensures s.running[2].ActivateSourceLocked? && s.running[2].source == PLACE && s.running[2].acquisition == 1
  {
    var s0 := TwoPublications(table, false);
    var s1 := PublishTakesRow(table, s0, 1, 1);
    s := ActivateTakesSource(table, s1, 2, 1, [FullCoverage()], PLACE, 1);
    assert WaitsInside(s, {1, 2}, 1) by {
      assert HoldsLock(s.running[2], SourceOf(PLACE));
    }
    assert WaitsInside(s, {1, 2}, 2) by {
      assert HoldsLock(s.running[1], RowOf(1));
    }
  }

  // ------------------------------------------------------------------ appending to the active publication

  lemma {:induction false} AppendFinds(table: Capabilities, s: State, tx: TransactionId, p: PublicationId, records: seq<CoverageRecord>)
    returns (t: State)
    requires Reachable(table, s) && tx !in s.running && p in s.db.publications && s.db.publications[p].source == PLACE
    requires ActiveOf(s.db, PLACE) == Some(p) && records != []
    requires s.db.publications[p].acquisition in s.db.acquisitions && s.db.acquisitions[s.db.publications[p].acquisition].status == Published
    ensures Reachable(table, t) && t == Moved(s, tx, AppendFound(p, records, PLACE))
  {
    var begun := Moved(s, tx, AppendBegun(p, records));
    t := Moved(s, tx, AppendFound(p, records, PLACE));
    assert Moved(begun, tx, t.running[tx]) == t;
    StepReaches(table, s, Begin(tx, AppendBegun(p, records)), begun);
    StepReaches(table, begun, Proceed(tx), t);
  }

  lemma {:induction false} AppendLocksSource(table: Capabilities, s: State, tx: TransactionId, p: PublicationId, records: seq<CoverageRecord>)
    returns (t: State)
    requires Reachable(table, s) && tx in s.running && s.running[tx] == AppendFound(p, records, PLACE) && SourceFree(s, PLACE)
    ensures Reachable(table, t) && t == Moved(s, tx, AppendSourceLocked(p, records, PLACE))
  {
    t := Moved(s, tx, AppendSourceLocked(p, records, PLACE));
    StepReaches(table, s, Proceed(tx), t);
  }

  lemma {:induction false} AppendCommits(table: Capabilities, s: State, tx: TransactionId, p: PublicationId) returns (t: State)
    requires VouchesForPlaces(table) && Reachable(table, s)
    requires tx in s.running && s.running[tx] == AppendSourceLocked(p, [FullCoverage()], PLACE)
    ensures Reachable(table, t) && Next(table, s, CommitAppend(tx)) == Some(t)
    ensures t.db == s.db.(coverage := s.db.coverage + [Coverage(p, FullCoverage())])
  {
    var records := [FullCoverage()];
    assert AppendAccepted(table, PLACE, records);
    t := Ended(s, tx).(db := s.db.(coverage := s.db.coverage + Coverages(p, records)));
    assert Coverages(p, records) == [Coverage(p, FullCoverage())];
    StepReaches(table, s, CommitAppend(tx), t);
  }

  /** `append_active_coverage` checks that its publication is active before it takes the source
      lock, so it may append to a publication that has been replaced meanwhile. */
  lemma {:induction false} AppendCanMissTheActive(table: Capabilities) returns (before: State, s: State)
    requires VouchesForPlaces(table)
    ensures Reachable(table, before) && Reachable(table, s) && Next(table, before, CommitAppend(7)) == Some(s)
    ensures s.db.coverage == before.db.coverage + [Coverage(1, FullCoverage())]
    ensures ActiveOf(before.db, PLACE) == Some(2)
  {
    var s0 := TwoPublications(table, true);
    var found := AppendFinds(table, s0, 7, 1, [FullCoverage()]);
    var activated := Activate(table, found, 8, 2);
    before := AppendLocksSource(table, activated, 7, 1, [FullCoverage()]);
    s := AppendCommits(table, before, 7, 1);
  }

  lemma {:induction false} ReplayedConcat(a: seq<Event>, b: seq<Event>, source: SourceId)
    ensures Replayed(a + b, source) == if Replayed(b, source).Some? then Replayed(b, source) else Replayed(a, source)
  {
    if b == [] {
      assert a + b == a;
    } else {
      assert a + b == (a + b[..|b| - 1]) + [b[|b| - 1]];
      assert b == b[..|b| - 1] + [b[|b| - 1]];
      ReplayedConcat(a, b[..|b| - 1], source);
      ReplayedAppend(a + b[..|b| - 1], b[|b| - 1], source);
      ReplayedAppend(b[..|b| - 1], b[|b| - 1], source);
    }
  }

  lemma {:induction false} StepGrowsLog(table: Capabilities, s: State, action: Action)
    requires Next(table, s, action).Some?
    ensures s.db.log <= Next(table, s, action).value.db.log
  {
  }

  predicate IsAppend(t: Transaction, p: PublicationId, records: seq<CoverageRecord>, source: SourceId) {
    t == AppendFound(p, records, source) || t == AppendSourceLocked(p, records, source)
  }

  lemma {:induction false} AppendStaysItself(table: Capabilities, s: State, action: Action, tx: TransactionId, p: PublicationId, records: seq<CoverageRecord>, source: SourceId)
    requires Next(table, s, action).Some? && !(action.Begin? && action.tx == tx)
    requires tx in s.running ==> IsAppend(s.running[tx], p, records, source)
    ensures tx in Next(table, s, action).value.running ==> IsAppend(Next(table, s, action).value.running[tx], p, records, source)
  {
  }

  /** From a point on, the log only grows and a transaction that is not begun again stays itself. */
  lemma {:induction false} AppendOverRun(table: Capabilities, early: seq<Action>, late: seq<Action>, tx: TransactionId, p: PublicationId, records: seq<CoverageRecord>, source: SourceId)
    requires Run(table, early).Some? && Run(table, early + late).Some?
    requires tx in Run(table, early).value.running ==> IsAppend(Run(table, early).value.running[tx], p, records, source)
    requires forall t :: Begin(tx, t) !in late
    ensures Run(table, early).value.db.log <= Run(table, early + late).value.db.log
    ensures tx in Run(table, early + late).value.running ==> IsAppend(Run(table, early + late).value.running[tx], p, records, source)
  {
    if late == [] {
      assert early + late == early;
    } else {
      var front, last := late[..|late| - 1], late[|late| - 1];
      assert early + late == (early + front) + [last];
      assert last in late && forall x :: x in front ==> x in late;
      LastStep(table, early + front, last);
      AppendOverRun(table, early, front, tx, p, records, source);
      StepGrowsLog(table, Run(table, early + front).value, last);
      AppendStaysItself(table, Run(table, early + front).value, last, tx, p, records, source);
    }
  }

  /** The publication that `append_active_coverage` found active is still active when it commits
      exactly when the events logged in between for its source, replayed on their own, leave none
      or that publication; in particular when there are no such events. */
  lemma {:induction false} AppendHitsTheActiveIff(table: Capabilities, early: seq<Action>, late: seq<Action>, tx: TransactionId,
                                                  p: PublicationId, records: seq<CoverageRecord>, source: SourceId, found: State, before: State, after: State)
    requires Run(table, early) == Some(found) && tx in found.running && found.running[tx] == AppendFound(p, records, source)
    requires ActiveOf(found.db, source) == Some(p)
    requires Run(table, early + late) == Some(before) && (forall t :: Begin(tx, t) !in late)
    requires Next(table, before, CommitAppend(tx)) == Some(after)
    ensures found.db.log <= before.db.log && after.db == before.db.(coverage := before.db.coverage + Coverages(p, records))
    ensures ActiveOf(after.db, source) == Some(p) <==> Replayed(before.db.log[|found.db.log|..], source) in {None, Some(p)}
  {
    AppendOverRun(table, early, late, tx, p, records, source);
    ActiveSince(table, early, early + late, source);
  }

  /** The active publication is the one the later events give, or else the earlier one. */
  lemma {:induction false} ActiveSince(table: Capabilities, early: seq<Action>, all: seq<Action>, source: SourceId)
    requires Run(table, early).Some? && Run(table, all).Some? && Run(table, early).value.db.log <= Run(table, all).value.db.log
    ensures var was, now := Run(table, early).value.db, Run(table, all).value.db;
            var since := Replayed(now.log[|was.log|..], source);
            ActiveOf(now, source) == if since.Some? then since else ActiveOf(was, source)
  {
    var was, now := Run(table, early).value.db, Run(table, all).value.db;
    assert now.log == was.log + now.log[|was.log|..];
    ReplayedConcat(was.log, now.log[|was.log|..], source);
    LogIsAuditTrail(table, early, source);
    LogIsAuditTrail(table, all, source);
  }

  /** The step that finds the publication finds it active, as the condition above supposes. */
  lemma {:induction false} FoundIsActive(table: Capabilities, s: State, tx: TransactionId, t: State)
    requires tx in s.running && s.running[tx].AppendBegun? && Next(table, s, Proceed(tx)) == Some(t)
    ensures t.running[tx].AppendFound? && ActiveOf(t.db, t.running[tx].source) == Some(t.running[tx].publication)
  {
  }

  // ------------------------------------------------------------------ publishing a NO_CHANGE acquisition again

  /** Two acquisitions with one dataset version, the first published. */
  lemma {:induction false} OneVersionTwice(table: Capabilities) returns (s: State)
    ensures Reachable(table, s) && s.running == map[] && 2 in s.db.acquisitions && s.db.acquisitions[2] == Checked("b", "a")
    ensures SameVersion(s.db, 1, PLACE, VersionOf(s.db.acquisitions[2]))
  {
    StartReaches(table);
    var s1 := Validate(table, EMPTY, 1, "a", "a");
    var s2 := Publish(table, s1, 1, 1);
    s := Validate(table, s2, 2, "b", "a");
  }

  /** A second acquisition with the version of the first becomes NO_CHANGE and returns the first
      one's publication; publishing it again then fails, whatever publication is chosen. */
  lemma {:induction false} NoChangeCannotRepeat(table: Capabilities) returns (s: State)
    ensures Reachable(table, s) && Returned(2, 1, false) in s.returned
    ensures s.running.Keys == {0} && s.running[0].PublishSourceLocked? && s.running[0].acquisition == 2
    ensures forall p :: Next(table, s, CommitPublish(0, p)) == None
  {
    var s1 := OneVersionTwice(table);
    var s2 := PublishTwin(table, s1, 2, 1);
    s := PublishLocks(table, s2, 2);
  }
}
