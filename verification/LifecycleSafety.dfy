/** Every step of every interleaving keeps the lifecycle's invariant. */
module LifecycleSafety {
  import opened Common
  import opened Lifecycle
  import opened LifecycleInvariant

  /** What publications witness stays witnessed. */
  lemma {:induction false} WitnessesStay(db: Db, now: Db)
    requires Grows(db, now)
    ensures forall a :: Stored(db, a) ==> Stored(now, a)
    ensures forall source, version :: HasTwin(db, source, version) ==> HasTwin(now, source, version)
  {
    forall a | Stored(db, a) ensures Stored(now, a) {
      var p :| PublicationFor(db, a, p);
      assert PublicationFor(now, a, p);
    }
    forall source, version | HasTwin(db, source, version) ensures HasTwin(now, source, version) {
      var p :| SameVersion(db, p, source, version);
      assert SameVersion(now, p, source, version);
    }
  }

  // ------------------------------------------------------------------ acquisitions before publication

  predicate Unpublished(status: Status) {
    !HasPublication(status) && status != NoChange
  }

  /** Insert or rewrite one acquisition that no publication refers to. */
  lemma {:induction false} QuietRows(db: Db, a: AcquisitionId, row: Acquisition)
    requires RowsInv(db)
    requires a in db.acquisitions ==> Unpublished(db.acquisitions[a].status)
    requires Unpublished(row.status)
    ensures RowsInv(db.(acquisitions := db.acquisitions[a := row]))
  {
    var now := db.(acquisitions := db.acquisitions[a := row]);
    WitnessesStay(db, now);
  }

  lemma {:induction false} QuietLog(db: Db, a: AcquisitionId, row: Acquisition)
    requires RowsInv(db) && LogInv(db) && CoverageSound(db)
    requires a in db.acquisitions ==> Unpublished(db.acquisitions[a].status)
    requires Unpublished(row.status)
    ensures LogInv(db.(acquisitions := db.acquisitions[a := row])) && CoverageSound(db.(acquisitions := db.acquisitions[a := row]))
  {
    var now := db.(acquisitions := db.acquisitions[a := row]);
    forall p | p in now.publications ensures IsPublished(now, p) <==> WasActivated(now, p) {
      assert IsPublished(now, p) <==> IsPublished(db, p);
      assert WasActivated(now, p) <==> WasActivated(db, p);
    }
    forall c | c in now.coverage ensures CoverageRowSound(now, c) {
      assert CoverageRowSound(db, c);
      ActivationStays(db, now, c.publication);
    }
  }

  lemma {:induction false} QuietKeeps(table: Capabilities, s: State, a: AcquisitionId, row: Acquisition)
    requires Inv(table, s)
    requires a in s.db.acquisitions ==> Unpublished(s.db.acquisitions[a].status) && RowFree(s, a)
    requires Unpublished(row.status)
    ensures Inv(table, s.(db := s.db.(acquisitions := s.db.acquisitions[a := row])))
  {
    var db := s.db.(acquisitions := s.db.acquisitions[a := row]);
    QuietRows(s.db, a, row);
    QuietLog(s.db, a, row);
    forall t | t in s.running ensures Holds(table, db, s.running[t]) {
      StillHolds(table, s.db, db, s.running[t]);
    }
    forall r | r in s.returned ensures ReturnSound(db, r) {
      assert ReturnSound(s.db, r);
    }
  }

  // ------------------------------------------------------------------ publish

  lemma {:induction false} TwinRows(db: Db, a: AcquisitionId, twin: PublicationId)
    requires RowsInv(db) && a in db.acquisitions && db.acquisitions[a].status == Validated
    requires SameVersion(db, twin, db.acquisitions[a].source, VersionOf(db.acquisitions[a]))
    ensures RowsInv(WithStatus(db, a, NoChange))
  {
    var now := WithStatus(db, a, NoChange);
    assert VersionOf(now.acquisitions[a]) == VersionOf(db.acquisitions[a]);
    assert SameVersion(now, twin, now.acquisitions[a].source, VersionOf(now.acquisitions[a]));
    WitnessesStay(db, now);
  }

  function Inserted(db: Db, a: AcquisitionId, id: PublicationId): Db
    requires a in db.acquisitions
  {
    WithStatus(db, a, Staged).(publications := db.publications[id := Publication(db.acquisitions[a].source, a, VersionOf(db.acquisitions[a]))])
  }

  lemma {:induction false} InsertRows(db: Db, a: AcquisitionId, id: PublicationId)
    requires RowsInv(db) && a in db.acquisitions && db.acquisitions[a].status == Validated && id !in db.publications
    requires !HasTwin(db, db.acquisitions[a].source, VersionOf(db.acquisitions[a]))
    ensures RowsInv(Inserted(db, a, id))
  {
    var now := Inserted(db, a, id);
    assert VersionOf(now.acquisitions[a]) == VersionOf(db.acquisitions[a]);
    assert PublicationFor(now, a, id);
    forall p | p in db.publications ensures db.publications[p].acquisition != a {}
    forall p | p in db.publications && db.publications[p].source == db.acquisitions[a].source
      ensures db.publications[p].version != VersionOf(db.acquisitions[a])
    {
      assert !SameVersion(db, p, db.acquisitions[a].source, VersionOf(db.acquisitions[a]));
    }
    WitnessesStay(db, now);
  }

  lemma {:induction false} InsertedPublished(db: Db, a: AcquisitionId, id: PublicationId, p: PublicationId)
    requires RowsInv(db) && EventsSound(db) && PublishedIffActivated(db)
    requires a in db.acquisitions && db.acquisitions[a].status == Validated && id !in db.publications
    requires p in Inserted(db, a, id).publications
    ensures IsPublished(Inserted(db, a, id), p) <==> WasActivated(Inserted(db, a, id), p)
  {
    var now := Inserted(db, a, id);
    assert WasActivated(now, p) <==> WasActivated(db, p);
    if p == id {
      forall i | 0 <= i < |db.log| ensures !Activates(db.log[i], id) {}
    } else {
      assert IsPublished(now, p) <==> IsPublished(db, p);
    }
  }

  lemma {:induction false} InsertLog(db: Db, a: AcquisitionId, id: PublicationId)
    requires RowsInv(db) && LogInv(db) && CoverageSound(db)
    requires a in db.acquisitions && db.acquisitions[a].status == Validated && id !in db.publications
    ensures LogInv(Inserted(db, a, id)) && CoverageSound(Inserted(db, a, id))
  {
    var now := Inserted(db, a, id);
    forall p | p in now.publications ensures IsPublished(now, p) <==> WasActivated(now, p) {
      InsertedPublished(db, a, id, p);
    }
    forall c | c in now.coverage ensures CoverageRowSound(now, c) {
      assert CoverageRowSound(db, c);
      ActivationStays(db, now, c.publication);
    }
  }

  lemma {:induction false} TwinLog(db: Db, a: AcquisitionId)
    requires RowsInv(db) && LogInv(db) && CoverageSound(db)
    requires a in db.acquisitions && db.acquisitions[a].status == Validated
    ensures LogInv(WithStatus(db, a, NoChange)) && CoverageSound(WithStatus(db, a, NoChange))
  {
    var now := WithStatus(db, a, NoChange);
    forall p | p in now.publications ensures IsPublished(now, p) <==> WasActivated(now, p) {
      assert IsPublished(now, p) <==> IsPublished(db, p);
      assert WasActivated(now, p) <==> WasActivated(db, p);
    }
    forall c | c in now.coverage ensures CoverageRowSound(now, c) {
      assert CoverageRowSound(db, c);
      ActivationStays(db, now, c.publication);
    }
  }

  /** Ending a transaction that wrote one acquisition row and no active snapshot. */
  lemma {:induction false} RowCommitHolds(table: Capabilities, s: State, tx: TransactionId, a: AcquisitionId, db: Db)
    requires Inv(table, s) && tx in s.running && s.running[tx].RowLock() == Some(a)
    requires Grows(s.db, db) && db.active == s.db.active
    requires forall x :: x in s.db.acquisitions && x != a ==> x in db.acquisitions && db.acquisitions[x] == s.db.acquisitions[x]
    ensures AllHold(table, Ended(s, tx).(db := db)) && LocksExclusive(Ended(s, tx))
  {
    forall t | t in s.running && t != tx ensures Holds(table, db, s.running[t]) {
      StillHolds(table, s.db, db, s.running[t]);
    }
  }

  lemma {:induction false} ReturnStays(before: Db, after: Db, a: AcquisitionId, r: Returned)
    requires ReturnSound(before, r) && Grows(before, after)
    requires a in before.acquisitions && before.acquisitions[a].status == Validated
    requires forall x :: x in before.acquisitions && x != a ==> x in after.acquisitions && after.acquisitions[x] == before.acquisitions[x]
    ensures ReturnSound(after, r) && r.acquisition != a
  {
  }

  lemma {:induction false} PublishReturns(s: State, db: Db, a: AcquisitionId, r: Returned)
    requires ReturnsSound(s) && ReturnsRepeat(s) && Grows(s.db, db)
    requires a in s.db.acquisitions && s.db.acquisitions[a].status == Validated
    requires forall x :: x in s.db.acquisitions && x != a ==> x in db.acquisitions && db.acquisitions[x] == s.db.acquisitions[x]
    requires ReturnSound(db, r) && r.acquisition == a
    ensures ReturnsSound(s.(db := db, returned := s.returned + [r])) && ReturnsRepeat(s.(db := db, returned := s.returned + [r]))
  {
    forall x | x in s.returned ensures ReturnSound(db, x) && x.acquisition != a {
      ReturnStays(s.db, db, a, x);
    }
    var returned := s.returned + [r];
    forall i, j | 0 <= i < j < |returned| && returned[i].acquisition == returned[j].acquisition
      ensures !returned[j].created && returned[i].acquisition in db.acquisitions && HasPublication(db.acquisitions[returned[i].acquisition].status)
    {
      assert returned[i] in s.returned;
    }
  }

  lemma {:induction false} TwinKeeps(table: Capabilities, s: State, tx: TransactionId, a: AcquisitionId, id: PublicationId)
    requires Inv(table, s) && tx in s.running && s.running[tx].RowLock() == Some(a)
    requires a in s.db.acquisitions && s.db.acquisitions[a].status == Validated
    requires SameVersion(s.db, id, s.db.acquisitions[a].source, VersionOf(s.db.acquisitions[a]))
    ensures Inv(table, Ended(s, tx).(db := WithStatus(s.db, a, NoChange), returned := s.returned + [Returned(a, id, false)]))
  {
    var db := WithStatus(s.db, a, NoChange);
    TwinRows(s.db, a, id);
    TwinLog(s.db, a);
    RowCommitHolds(table, s, tx, a, db);
    PublishReturns(s, db, a, Returned(a, id, false));
  }

  lemma {:induction false} InsertKeeps(table: Capabilities, s: State, tx: TransactionId, a: AcquisitionId, id: PublicationId)
    requires Inv(table, s) && tx in s.running && s.running[tx].RowLock() == Some(a)
    requires a in s.db.acquisitions && s.db.acquisitions[a].status == Validated && id !in s.db.publications
    requires !HasTwin(s.db, s.db.acquisitions[a].source, VersionOf(s.db.acquisitions[a]))
    ensures Inv(table, Ended(s, tx).(db := Inserted(s.db, a, id), returned := s.returned + [Returned(a, id, true)]))
  {
    var db := Inserted(s.db, a, id);
    InsertRows(s.db, a, id);
    InsertLog(s.db, a, id);
    RowCommitHolds(table, s, tx, a, db);
    PublishReturns(s, db, a, Returned(a, id, true));
  }

  lemma {:induction false} PublishKeeps(table: Capabilities, s: State, tx: TransactionId, id: PublicationId)
    requires Inv(table, s) && tx in s.running && s.running[tx].PublishSourceLocked?
    requires PublishCommitted(s, tx, id).Some?
    ensures Inv(table, PublishCommitted(s, tx, id).value)
  {
    var a, row := s.running[tx].acquisition, s.running[tx].row;
    assert Holds(table, s.db, s.running[tx]);
    if row.status in {Staged, Published} {
      RepeatKeeps(table, s, tx, id);
    } else if exists p :: p in s.db.publications && SameVersion(s.db, p, row.source, VersionOf(row)) {
      TwinKeeps(table, s, tx, a, id);
    } else {
      assert !HasTwin(s.db, row.source, VersionOf(row));
      InsertKeeps(table, s, tx, a, id);
    }
  }

  lemma {:induction false} RepeatKeeps(table: Capabilities, s: State, tx: TransactionId, id: PublicationId)
    requires Inv(table, s) && tx in s.running && s.running[tx].PublishSourceLocked?
    requires s.running[tx].row.status in {Staged, Published} && PublishCommitted(s, tx, id).Some?
    ensures Inv(table, PublishCommitted(s, tx, id).value)
  {
    assert Holds(table, s.db, s.running[tx]);
    AbortKeeps(table, s, tx);
    var r := Returned(s.running[tx].acquisition, id, false);
    assert ReturnSound(s.db, r);
    var returned := s.returned + [r];
    forall i, j | 0 <= i < j < |returned| && returned[i].acquisition == returned[j].acquisition
      ensures !returned[j].created && returned[i].acquisition in s.db.acquisitions && HasPublication(s.db.acquisitions[returned[i].acquisition].status)
    {
    }
  }

  // ------------------------------------------------------------------ activation and rollback

  lemma {:induction false} ReplayedAppend(log: seq<Event>, e: Event, source: SourceId)
    ensures Replayed(log + [e], source) == if e.source == source then Some(e.publication) else Replayed(log, source)
  {
    assert (log + [e])[..|log|] == log;
  }

  /** One more event whose link is the active publication and whose target becomes active. */
  lemma {:induction false} LogGrows(db: Db, now: Db, e: Event)
    requires LogGivesActive(db) && LogLinks(db) && EventsSound(db)
    requires now.log == db.log + [e] && now.active == db.active[e.source := e.publication]
    requires e.previous == ActiveOf(db, e.source)
    requires now.publications == db.publications && e.publication in db.publications && db.publications[e.publication].source == e.source
    ensures LogGivesActive(now) && LogLinks(now) && EventsSound(now)
  {
    forall source ensures Replayed(now.log, source) == ActiveOf(now, source) {
      ReplayedAppend(db.log, e, source);
      assert Replayed(db.log, source) == ActiveOf(db, source);
    }
    forall i | 0 <= i < |now.log| ensures now.log[i].previous == Replayed(now.log[..i], now.log[i].source) {
      if i < |db.log| {
        assert now.log[..i] == db.log[..i];
      } else {
        assert now.log[..i] == db.log;
      }
    }
  }

  lemma {:induction false} ActivationAppend(db: Db, now: Db, e: Event, p: PublicationId)
    requires now.log == db.log + [e]
    ensures WasActivated(now, p) <==> WasActivated(db, p) || Activates(e, p)
  {
    if WasActivated(db, p) {
      var i :| 0 <= i < |db.log| && Activates(db.log[i], p);
      assert Activates(now.log[i], p);
    }
    if Activates(e, p) {
      assert Activates(now.log[|db.log|], p);
    }
    if WasActivated(now, p) {
      var i :| 0 <= i < |now.log| && Activates(now.log[i], p);
      if i < |db.log| {
        assert Activates(db.log[i], p);
      }
    }
  }

  /** Another transaction loses nothing when a source-locked one commits. */
  lemma {:induction false} SourceCommitHolds(table: Capabilities, s: State, tx: TransactionId, source: SourceId, db: Db)
    requires Inv(table, s) && tx in s.running && s.running[tx].SourceLock() == Some(source)
    requires Grows(s.db, db)
    requires forall other :: other != source ==> ActiveOf(db, other) == ActiveOf(s.db, other)
    requires forall x :: x in s.db.acquisitions && s.running[tx].RowLock() != Some(x) ==> x in db.acquisitions && db.acquisitions[x] == s.db.acquisitions[x]
    ensures AllHold(table, Ended(s, tx).(db := db)) && LocksExclusive(Ended(s, tx))
  {
    forall t | t in s.running && t != tx ensures Holds(table, db, s.running[t]) {
      StillHolds(table, s.db, db, s.running[t]);
    }
  }

  /** The rows' invariant speaks of acquisitions and publications only. */
  lemma {:induction false} SameRowsInv(db: Db, now: Db)
    requires RowsInv(db) && now.acquisitions == db.acquisitions && now.publications == db.publications
    requires db.log <= now.log
    ensures RowsInv(now)
  {
    WitnessesStay(db, now);
  }

  lemma {:induction false} RollbackLog(db: Db, now: Db, e: Event)
    requires LogInv(db) && e.byRollback && e.previous == ActiveOf(db, e.source)
    requires e.publication in db.publications && db.publications[e.publication].source == e.source
    requires now == db.(active := db.active[e.source := e.publication], log := db.log + [e])
    ensures LogInv(now)
  {
    LogGrows(db, now, e);
    forall p ensures WasActivated(now, p) <==> WasActivated(db, p) {
      ActivationAppend(db, now, e, p);
    }
    forall p | p in now.publications ensures IsPublished(now, p) <==> WasActivated(now, p) {
      assert IsPublished(now, p) <==> IsPublished(db, p);
    }
  }

  /** Coverage rows and results outlive a change of the active snapshot and the log. */
  lemma {:induction false} RestStays(s: State, db: Db)
    requires CoverageSound(s.db) && ReturnsSound(s) && Grows(s.db, db)
    requires db.acquisitions == s.db.acquisitions && db.publications == s.db.publications && db.coverage == s.db.coverage
    ensures CoverageSound(db) && ReturnsSound(s.(db := db))
  {
    forall c | c in db.coverage ensures CoverageRowSound(db, c) {
      assert CoverageRowSound(s.db, c);
      ActivationStays(s.db, db, c.publication);
    }
    forall r | r in s.returned ensures ReturnSound(db, r) {
      assert ReturnSound(s.db, r);
    }
  }

  function RolledBack(db: Db, source: SourceId, p: PublicationId, replaced: PublicationId): Db {
    db.(active := db.active[source := p], log := db.log + [Event(source, Some(replaced), p, true)])
  }

  lemma {:induction false} RollbackDb(s: State, source: SourceId, p: PublicationId, replaced: PublicationId)
    requires RowsInv(s.db) && LogInv(s.db) && CoverageSound(s.db) && ReturnsSound(s)
    requires p in s.db.publications && s.db.publications[p].source == source && ActiveOf(s.db, source) == Some(replaced)
    ensures var db := RolledBack(s.db, source, p, replaced);
            RowsInv(db) && LogInv(db) && CoverageSound(db) && ReturnsSound(s.(db := db)) && Grows(s.db, db)
  {
    var db := RolledBack(s.db, source, p, replaced);
    RollbackLog(s.db, db, Event(source, Some(replaced), p, true));
    SameRowsInv(s.db, db);
    RestStays(s, db);
  }

  lemma {:induction false} RollbackKeeps(table: Capabilities, s: State, tx: TransactionId)
    requires Inv(table, s) && tx in s.running && s.running[tx].RollbackReady?
    ensures Inv(table, RollbackCommitted(s, tx))
  {
    var t := s.running[tx];
    assert Holds(table, s.db, t);
    var db := RolledBack(s.db, t.source, t.publication, t.replaced);
    RollbackDb(s, t.source, t.publication, t.replaced);
    SourceCommitHolds(table, s, tx, t.source, db);
    assert RollbackCommitted(s, tx) == Ended(s, tx).(db := db);
  }

  lemma {:induction false} PublishedRows(db: Db, now: Db, a: AcquisitionId)
    requires RowsInv(db) && a in db.acquisitions && db.acquisitions[a].status == Staged
    requires now.acquisitions == WithStatus(db, a, Published).acquisitions && now.publications == db.publications
    requires db.log <= now.log
    ensures RowsInv(now)
  {
    assert VersionOf(now.acquisitions[a]) == VersionOf(db.acquisitions[a]);
    WitnessesStay(db, now);
  }

  lemma {:induction false} ActivateLog(db: Db, now: Db, a: AcquisitionId, e: Event)
    requires RowsInv(db) && LogInv(db) && Names(db, e.publication, e.source, a)
    requires a in db.acquisitions && db.acquisitions[a].status == Staged
    requires now.acquisitions == WithStatus(db, a, Published).acquisitions && now.publications == db.publications
    requires now.log == db.log + [e] && now.active == db.active[e.source := e.publication]
    requires e.previous == ActiveOf(db, e.source) && !e.byRollback
    ensures LogInv(now)
  {
    LogGrows(db, now, e);
    assert !IsPublished(db, e.publication) && !WasActivated(db, e.publication);
    forall i, j | 0 <= i < j < |now.log| && !now.log[i].byRollback && !now.log[j].byRollback
      ensures now.log[i].publication != now.log[j].publication
    {
      if j == |db.log| {
        assert !Activates(db.log[i], e.publication);
      }
    }
    forall p | p in now.publications ensures IsPublished(now, p) <==> WasActivated(now, p) {
      ActivationAppend(db, now, e, p);
      if p != e.publication {
        assert db.publications[p].acquisition != a;
        assert IsPublished(now, p) <==> IsPublished(db, p);
      }
    }
  }

  lemma {:induction false} CoverageGrows(db: Db, now: Db, p: PublicationId, records: seq<CoverageRecord>)
    requires CoverageSound(db) && Grows(db, now) && now.coverage == db.coverage + Coverages(p, records)
    requires p in now.publications && WasActivated(now, p)
    requires now.publications[p].source != PLACE_INTRO ==> forall r :: r in records ==> Full(r)
    ensures CoverageSound(now)
  {
    forall c | c in now.coverage ensures CoverageRowSound(now, c) {
      if c in db.coverage {
        assert CoverageRowSound(db, c);
        ActivationStays(db, now, c.publication);
      } else {
        assert c in Coverages(p, records);
        assert c.record in records;
      }
    }
  }

  function Activated(db: Db, t: Transaction): Db
    requires t.ActivateReady? && t.acquisition in db.acquisitions
  {
    WithStatus(db, t.acquisition, Published).(
      active := db.active[t.source := t.publication],
      log := db.log + [Event(t.source, t.previous, t.publication, false)],
      coverage := db.coverage + Coverages(t.publication, t.records))
  }

  lemma {:induction false} ActivateReturns(s: State, db: Db, a: AcquisitionId)
    requires ReturnsSound(s) && a in s.db.acquisitions && s.db.acquisitions[a].status == Staged
    requires db.acquisitions == WithStatus(s.db, a, Published).acquisitions && db.publications == s.db.publications
    ensures ReturnsSound(s.(db := db))
  {
    forall r | r in s.returned ensures ReturnSound(db, r) {
      assert ReturnSound(s.db, r);
    }
  }

  lemma {:induction false} ActivateDb(table: Capabilities, s: State, t: Transaction)
    requires RowsInv(s.db) && LogInv(s.db) && CoverageSound(s.db) && ReturnsSound(s)
    requires t.ActivateReady? && Holds(table, s.db, t)
    requires t.acquisition in s.db.acquisitions && s.db.acquisitions[t.acquisition].status == Staged
    ensures var db := Activated(s.db, t);
            RowsInv(db) && LogInv(db) && CoverageSound(db) && ReturnsSound(s.(db := db)) && Grows(s.db, db)
  {
    var db := Activated(s.db, t);
    var e := Event(t.source, t.previous, t.publication, false);
    PublishedRows(s.db, db, t.acquisition);
    ActivateLog(s.db, db, t.acquisition, e);
    ActivateCoverage(table, s.db, t, e);
    ActivateReturns(s, db, t.acquisition);
  }

  lemma {:induction false} ActivateCoverage(table: Capabilities, db: Db, t: Transaction, e: Event)
    requires CoverageSound(db) && t.ActivateReady? && Holds(table, db, t) && t.acquisition in db.acquisitions
    requires e == Event(t.source, t.previous, t.publication, false)
    ensures CoverageSound(Activated(db, t))
  {
    var now := Activated(db, t);
    ActivationAppend(db, now, e, t.publication);
    CoverageGrows(db, now, t.publication, t.records);
  }

  lemma {:induction false} ActivateKeeps(table: Capabilities, s: State, tx: TransactionId)
    requires Inv(table, s) && tx in s.running && s.running[tx].ActivateReady?
    requires ActivateCommitted(s, tx).Some?
    ensures Inv(table, ActivateCommitted(s, tx).value)
  {
    var t := s.running[tx];
    assert Holds(table, s.db, t);
    var db := Activated(s.db, t);
    ActivateDb(table, s, t);
    SourceCommitHolds(table, s, tx, t.source, db);
    RepeatsStay(s, t.acquisition, db);
    assert ActivateCommitted(s, tx).value == Ended(s, tx).(db := db);
  }

  lemma {:induction false} RepeatsStay(s: State, a: AcquisitionId, db: Db)
    requires ReturnsRepeat(s) && a in s.db.acquisitions
    requires db.acquisitions == WithStatus(s.db, a, Published).acquisitions
    ensures ReturnsRepeat(s.(db := db))
  {
  }

  lemma {:induction false} AppendKeeps(table: Capabilities, s: State, tx: TransactionId)
    requires Inv(table, s) && tx in s.running && s.running[tx].AppendSourceLocked?
    requires AppendCommitted(table, s, tx).Some?
    ensures Inv(table, AppendCommitted(table, s, tx).value)
  {
    var t := s.running[tx];
    assert Holds(table, s.db, t);
    var db := AppendCommitted(table, s, tx).value.db;
    SameRowsInv(s.db, db);
    ActivationStays(s.db, db, t.publication);
    CoverageGrows(s.db, db, t.publication, t.records);
    forall p | p in db.publications ensures IsPublished(db, p) <==> WasActivated(db, p) {
      assert IsPublished(db, p) <==> IsPublished(s.db, p);
      assert WasActivated(db, p) <==> WasActivated(s.db, p);
    }
    SourceCommitHolds(table, s, tx, t.source, db);
    forall r | r in s.returned ensures ReturnSound(db, r) {
      assert ReturnSound(s.db, r);
    }
  }

  // ------------------------------------------------------------------ every step, every run

  lemma {:induction false} StepKeeps(table: Capabilities, s: State, action: Action)
    requires Inv(table, s) && Next(table, s, action).Some?
    ensures Inv(table, Next(table, s, action).value)
  {
    match action
    case Register(id, row) =>
      if !exists a :: a in s.db.acquisitions && SameRaw(s.db.acquisitions[a], row) {
        QuietKeeps(table, s, id, row);
      }
    case MarkValidated(a, checksum) =>
      QuietKeeps(table, s, a, s.db.acquisitions[a].(status := Validated, normalizedChecksum := checksum));
    case MarkQualityFailed(a) =>
      QuietKeeps(table, s, a, s.db.acquisitions[a].(status := QualityFailed));
    case Begin(tx, start) => BeginKeeps(table, s, tx, start);
    case Proceed(tx) => ProceedKeeps(table, s, tx);
    case CommitPublish(tx, id) => PublishKeeps(table, s, tx, id);
    case CommitActivate(tx) => ActivateKeeps(table, s, tx);
    case CommitAppend(tx) => AppendKeeps(table, s, tx);
    case CommitRollback(tx) => RollbackKeeps(table, s, tx);
    case Abort(tx) => AbortKeeps(table, s, tx);
  }

  /** The invariant holds after every run of every interleaving. */
  lemma {:induction false} RunKeeps(table: Capabilities, actions: seq<Action>)
    requires Run(table, actions).Some?
    ensures Inv(table, Run(table, actions).value)
  {
    if actions == [] {
      assert Inv(table, EMPTY);
    } else {
      RunKeeps(table, actions[..|actions| - 1]);
      StepKeeps(table, Run(table, actions[..|actions| - 1]).value, actions[|actions| - 1]);
    }
  }
}
