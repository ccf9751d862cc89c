/** The steps of the lifecycle, written out row by row: when each can be taken and what it writes. */
module LifecycleSteps {
  import opened Common
  import opened Lifecycle
  import opened LifecycleMeaning

  // ------------------------------------------------------------------ rows before and after

  /** Only the acquisition `a` may differ, and only as `row` says. */
  ghost predicate OnlyRow(before: Db, after: Db, a: AcquisitionId, row: Acquisition) {
    && (forall x :: x in after.acquisitions <==> x in before.acquisitions || x == a)
    && (forall x :: x in before.acquisitions && x != a ==> after.acquisitions[x] == before.acquisitions[x])
    && a in after.acquisitions && after.acquisitions[a] == row
  }

  predicate SameTables(before: Db, after: Db) {
    after.publications == before.publications && after.active == before.active && after.log == before.log && after.coverage == before.coverage
  }

  /** The acquisition under another status. */
  predicate Restated(a: Acquisition, b: Acquisition, status: Status) {
    && b.source == a.source && b.rawChecksum == a.rawChecksum && b.schema == a.schema && b.normalizedChecksum == a.normalizedChecksum
    && b.sourceDate == a.sourceDate && b.observedOn == a.observedOn && b.collectedOn == a.collectedOn && b.status == status
  }

  ghost predicate OthersRun(before: State, after: State, tx: TransactionId) {
    forall t :: t != tx ==> (t in after.running <==> t in before.running) && (t in before.running ==> after.running[t] == before.running[t])
  }

  /** The transaction is over; the others go on. */
  ghost predicate IsOver(before: State, after: State, tx: TransactionId) {
    OthersRun(before, after, tx) && tx !in after.running
  }

  // ------------------------------------------------------------------ acquisitions

  predicate SameObject(a: Acquisition, b: Acquisition) {
    a.source == b.source && a.rawChecksum == b.rawChecksum && a.schema == b.schema
  }

  /** A known raw object changes nothing; a new one is stored under a free id, collected and not yet
      validated. */
  lemma {:induction false} RegisterMeans(table: Capabilities, s: State, id: AcquisitionId, row: Acquisition)
    ensures var known := exists a :: a in s.db.acquisitions && SameObject(s.db.acquisitions[a], row);
            var next := Next(table, s, Register(id, row));
            && (known ==> next == Some(s))
            && (!known ==> (next.Some? <==> id !in s.db.acquisitions && (row.status == Incomplete || row.status == Acquired) && row.normalizedChecksum == ""))
            && (!known && next.Some? ==>
                  OnlyRow(s.db, next.value.db, id, row) && SameTables(s.db, next.value.db)
                  && next.value.running == s.running && next.value.returned == s.returned)
  {
    if a :| a in s.db.acquisitions && SameObject(s.db.acquisitions[a], row) {
      assert SameRaw(s.db.acquisitions[a], row);
      assert Next(table, s, Register(id, row)) == Some(s);
    } else {
      forall a | a in s.db.acquisitions ensures !SameRaw(s.db.acquisitions[a], row) {
        assert !SameObject(s.db.acquisitions[a], row);
      }
    }
  }

  predicate HoldsRow(t: Transaction, a: AcquisitionId) {
    && (t.PublishRowLocked? || t.PublishSourceLocked? || t.ActivateRowLocked? || t.ActivateReady?)
    && t.acquisition == a
  }

  /** The outcome of the quality gate is written to an ACQUIRED row that no transaction has locked. */
  lemma {:induction false} GateMeans(table: Capabilities, s: State, a: AcquisitionId, checksum: string)
    ensures var may := a in s.db.acquisitions && s.db.acquisitions[a].status == Acquired && forall t :: t in s.running ==> !HoldsRow(s.running[t], a);
            var passed, failed := Next(table, s, MarkValidated(a, checksum)), Next(table, s, MarkQualityFailed(a));
            && (passed.Some? <==> may) && (failed.Some? <==> may)
            && (may ==>
                  && OnlyRow(s.db, passed.value.db, a, s.db.acquisitions[a].(status := Validated, normalizedChecksum := checksum))
                  && OnlyRow(s.db, failed.value.db, a, failed.value.db.acquisitions[a])
                  && Restated(s.db.acquisitions[a], failed.value.db.acquisitions[a], QualityFailed)
                  && SameTables(s.db, passed.value.db) && SameTables(s.db, failed.value.db)
                  && passed.value.running == s.running && passed.value.returned == s.returned
                  && failed.value.running == s.running && failed.value.returned == s.returned)
  {
    RowFreeMeans(s, a);
  }

  lemma {:induction false} RowFreeMeans(s: State, a: AcquisitionId)
    ensures RowFree(s, a) <==> forall t :: t in s.running ==> !HoldsRow(s.running[t], a)
  {
    forall t | t in s.running ensures HoldsRow(s.running[t], a) <==> s.running[t].RowLock() == Some(a) {}
  }

  // ------------------------------------------------------------------ what a transaction reads

  ghost predicate StandsAt(db: Db, p: PublicationId, status: Status) {
    && p in db.publications && db.publications[p].acquisition in db.acquisitions
    && db.acquisitions[db.publications[p].acquisition].status == status
  }

  ghost predicate GoesOn(table: Capabilities, s: State, tx: TransactionId, t: Transaction) {
    && Next(table, s, Proceed(tx)).Some?
    && var after := Next(table, s, Proceed(tx)).value;
       after.db == s.db && after.returned == s.returned && OthersRun(s, after, tx) && tx in after.running && after.running[tx] == t
  }

  /** What each reading step needs and what it remembers. */
  lemma {:induction false} ReadingMeans(table: Capabilities, s: State, tx: TransactionId)
    requires tx in s.running
    ensures match s.running[tx]
            case ActivateBegun(p, records) =>
              if StandsAt(s.db, p, Staged)
              then GoesOn(table, s, tx, ActivateFound(p, records, s.db.publications[p].source, s.db.publications[p].acquisition))
              else Next(table, s, Proceed(tx)).None?
            case ActivateRowLocked(p, records, source, a) =>
              if MayActivate(table, source, records)
              then GoesOn(table, s, tx, ActivateReady(p, records, source, a, if source in s.db.active then Some(s.db.active[source]) else None))
              else Next(table, s, Proceed(tx)).None?
            case AppendBegun(p, records) =>
              if StandsAt(s.db, p, Published) && s.db.publications[p].source in s.db.active && s.db.active[s.db.publications[p].source] == p
              then GoesOn(table, s, tx, AppendFound(p, records, s.db.publications[p].source))
              else Next(table, s, Proceed(tx)).None?
            case RollbackSourceLocked(source, p) =>
              if p in s.db.publications && s.db.publications[p].source == source && source in s.db.active
              then GoesOn(table, s, tx, RollbackReady(source, p, s.db.active[source]))
              else Next(table, s, Proceed(tx)).None?
            case _ => true
  {
    if s.running[tx].ActivateRowLocked? {
      ActivationMeans(table, s.running[tx].source, s.running[tx].records);
    }
  }

  /** A locking step remembers what it had; `_publish` also reads the row it locks. */
  lemma {:induction false} LockingMeans(table: Capabilities, s: State, tx: TransactionId)
    requires tx in s.running && Next(table, s, Proceed(tx)).Some?
    ensures match s.running[tx]
            case PublishBegun(a) => a in s.db.acquisitions && GoesOn(table, s, tx, PublishRowLocked(a, s.db.acquisitions[a]))
            case PublishRowLocked(a, row) => GoesOn(table, s, tx, PublishSourceLocked(a, row))
            case ActivateFound(p, records, source, a) => GoesOn(table, s, tx, ActivateSourceLocked(p, records, source, a))
            case ActivateSourceLocked(p, records, source, a) => GoesOn(table, s, tx, ActivateRowLocked(p, records, source, a))
            case AppendFound(p, records, source) => GoesOn(table, s, tx, AppendSourceLocked(p, records, source))
            case RollbackBegun(source, p) => GoesOn(table, s, tx, RollbackSourceLocked(source, p))
            case _ => true
  {
  }

  // ------------------------------------------------------------------ what a transaction writes

  ghost predicate RowsOf(p: PublicationId, records: seq<CoverageRecord>, rows: seq<Coverage>) {
    |rows| == |records| && forall i :: 0 <= i < |rows| ==> rows[i].publication == p && rows[i].record == records[i]
  }

  ghost predicate CoverageAdded(before: Db, after: Db, p: PublicationId, records: seq<CoverageRecord>) {
    && |after.coverage| == |before.coverage| + |records| && after.coverage[..|before.coverage|] == before.coverage
    && RowsOf(p, records, after.coverage[|before.coverage|..])
  }

  /** The publication becomes the source's active one, with one event that names the one before. */
  ghost predicate Activated(before: Db, after: Db, source: SourceId, p: PublicationId, previous: Option<PublicationId>, byRollback: bool) {
    && (forall x :: x in after.active <==> x in before.active || x == source)
    && (forall x :: x in before.active && x != source ==> after.active[x] == before.active[x])
    && source in after.active && after.active[source] == p
    && |after.log| == |before.log| + 1 && after.log[..|before.log|] == before.log
    && after.log[|before.log|].source == source && after.log[|before.log|].publication == p
    && after.log[|before.log|].previous == previous && after.log[|before.log|].byRollback == byRollback
    && after.publications == before.publications
  }

  /** An activation commits exactly while its acquisition is STAGED. */
  lemma {:induction false} ActivateMeans(table: Capabilities, s: State, tx: TransactionId)
    requires tx in s.running && s.running[tx].ActivateReady?
    ensures var t, next := s.running[tx], Next(table, s, CommitActivate(tx));
            && (next.Some? <==> t.acquisition in s.db.acquisitions && s.db.acquisitions[t.acquisition].status == Staged)
            && (next.Some? ==>
                  && IsOver(s, next.value, tx) && next.value.returned == s.returned
                  && OnlyRow(s.db, next.value.db, t.acquisition, next.value.db.acquisitions[t.acquisition])
                  && Restated(s.db.acquisitions[t.acquisition], next.value.db.acquisitions[t.acquisition], Published)
                  && Activated(s.db, next.value.db, t.source, t.publication, t.previous, false)
                  && CoverageAdded(s.db, next.value.db, t.publication, t.records))
  {
  }

  /** An append commits exactly when its records may be appended, and adds only them. */
  lemma {:induction false} AppendCommitMeans(table: Capabilities, s: State, tx: TransactionId)
    requires tx in s.running && s.running[tx].AppendSourceLocked?
    ensures var t, next := s.running[tx], Next(table, s, CommitAppend(tx));
            && (next.Some? <==> MayAppend(table, t.source, t.records))
            && (next.Some? ==>
                  && IsOver(s, next.value, tx) && next.value.returned == s.returned
                  && next.value.db.acquisitions == s.db.acquisitions && next.value.db.publications == s.db.publications
                  && next.value.db.active == s.db.active && next.value.db.log == s.db.log
                  && CoverageAdded(s.db, next.value.db, t.publication, t.records))
  {
    AppendMeans(table, s.running[tx].source, s.running[tx].records);
  }

  /** A rollback always commits; it only switches the active publication. */
  lemma {:induction false} RollbackMeans(table: Capabilities, s: State, tx: TransactionId)
    requires tx in s.running && s.running[tx].RollbackReady?
    ensures var t, next := s.running[tx], Next(table, s, CommitRollback(tx));
            && next.Some? && IsOver(s, next.value, tx) && next.value.returned == s.returned
            && next.value.db.acquisitions == s.db.acquisitions && next.value.db.coverage == s.db.coverage
            && Activated(s.db, next.value.db, t.source, t.publication, Some(t.replaced), true)
  {
  }

  /** A call begins with its arguments, with something to write; any error ends it unwritten. */
  lemma {:induction false} BeginAndAbortMean(table: Capabilities, s: State, tx: TransactionId, start: Transaction)
    ensures var next := Next(table, s, Begin(tx, start));
            && (next.Some? <==> tx !in s.running
                                && (start.PublishBegun? || start.RollbackBegun? || ((start.ActivateBegun? || start.AppendBegun?) && |start.records| > 0)))
            && (next.Some? ==>
                  next.value.db == s.db && next.value.returned == s.returned && OthersRun(s, next.value, tx)
                  && tx in next.value.running && next.value.running[tx] == start)
    ensures var next := Next(table, s, Abort(tx));
            && (next.Some? <==> tx in s.running)
            && (next.Some? ==> next.value.db == s.db && next.value.returned == s.returned && IsOver(s, next.value, tx))
  {
  }

  /** A repeated publish returns the publication of its acquisition and writes nothing; one of an
      acquisition that is not VALIDATED, or has no checksum, fails. */
  lemma {:induction false} PublishAgainMeans(table: Capabilities, s: State, tx: TransactionId, chosen: PublicationId)
    requires tx in s.running && s.running[tx].PublishSourceLocked? && s.running[tx].row.status != Validated
    ensures var t, next := s.running[tx], Next(table, s, CommitPublish(tx, chosen));
            && (next.Some? <==> (t.row.status == Staged || t.row.status == Published)
                                && chosen in s.db.publications && s.db.publications[chosen].acquisition == t.acquisition)
            && (next.Some? ==>
                  next.value.db == s.db && IsOver(s, next.value, tx)
                  && next.value.returned == s.returned + [Returned(t.acquisition, chosen, false)])
  {
  }
}
