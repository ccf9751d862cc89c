/** What every interleaving of the lifecycle's transactions keeps. */
module LifecycleInvariant {
  import opened Common
  import opened Lifecycle

  // ------------------------------------------------------------------ the stored rows

  predicate HasPublication(status: Status) {
    status == Staged || status == Published
  }

  /** Every publication comes from an acquisition of its source that is staged or published, and
      carries that acquisition's version. */
  ghost predicate PublicationsSound(db: Db) {
    forall p :: p in db.publications ==>
      var publication := db.publications[p];
      && publication.acquisition in db.acquisitions
      && var a := db.acquisitions[publication.acquisition];
         a.source == publication.source && HasPublication(a.status) && publication.version == VersionOf(a)
  }

  ghost predicate OnePerAcquisition(db: Db) {
    forall p, q :: p in db.publications && q in db.publications && p != q ==> db.publications[p].acquisition != db.publications[q].acquisition
  }

  ghost predicate Stored(db: Db, a: AcquisitionId) {
    exists p :: PublicationFor(db, a, p)
  }

  ghost predicate StagedArePublications(db: Db) {
    forall a :: a in db.acquisitions && HasPublication(db.acquisitions[a].status) ==> Stored(db, a)
  }

  ghost predicate VersionsDistinct(db: Db) {
    forall p, q :: p in db.publications && q in db.publications && p != q && db.publications[p].source == db.publications[q].source
                   ==> db.publications[p].version != db.publications[q].version
  }

  ghost predicate HasTwin(db: Db, source: SourceId, version: Version) {
    exists p :: SameVersion(db, p, source, version)
  }

  ghost predicate NoChangeHasTwin(db: Db) {
    forall a :: a in db.acquisitions && db.acquisitions[a].status == NoChange ==> HasTwin(db, db.acquisitions[a].source, VersionOf(db.acquisitions[a]))
  }

  ghost predicate RowsInv(db: Db) {
    PublicationsSound(db) && OnePerAcquisition(db) && StagedArePublications(db) && VersionsDistinct(db) && NoChangeHasTwin(db)
  }

  // ------------------------------------------------------------------ the activation log

  /** Replaying a source's events: the publication of its last one. */
  function Replayed(log: seq<Event>, source: SourceId): Option<PublicationId> {
    if log == [] then None
    else if log[|log| - 1].source == source then Some(log[|log| - 1].publication)
    else Replayed(log[..|log| - 1], source)
  }

  predicate Activates(e: Event, p: PublicationId) {
    e.publication == p && !e.byRollback
  }

  /** `publish_coverage` has activated the publication at some time. */
  ghost predicate WasActivated(db: Db, p: PublicationId) {
    exists i :: 0 <= i < |db.log| && Activates(db.log[i], p)
  }

  ghost predicate LogGivesActive(db: Db) {
    forall source :: Replayed(db.log, source) == ActiveOf(db, source)
  }

  ghost predicate LogLinks(db: Db) {
    forall i :: 0 <= i < |db.log| ==> db.log[i].previous == Replayed(db.log[..i], db.log[i].source)
  }

  ghost predicate EventsSound(db: Db) {
    forall i :: 0 <= i < |db.log| ==> db.log[i].publication in db.publications && db.publications[db.log[i].publication].source == db.log[i].source
  }

  ghost predicate ActivatedOnce(db: Db) {
    forall i, j :: 0 <= i < j < |db.log| && !db.log[i].byRollback && !db.log[j].byRollback ==> db.log[i].publication != db.log[j].publication
  }

  predicate IsPublished(db: Db, p: PublicationId) {
    p in db.publications && db.publications[p].acquisition in db.acquisitions && db.acquisitions[db.publications[p].acquisition].status == Published
  }

  ghost predicate PublishedIffActivated(db: Db) {
    forall p :: p in db.publications ==> (IsPublished(db, p) <==> WasActivated(db, p))
  }

  ghost predicate LogInv(db: Db) {
    LogGivesActive(db) && LogLinks(db) && EventsSound(db) && ActivatedOnce(db) && PublishedIffActivated(db)
  }

  // ------------------------------------------------------------------ coverage and results

  ghost predicate CoverageRowSound(db: Db, c: Coverage) {
    && c.publication in db.publications
    && WasActivated(db, c.publication)
    && (db.publications[c.publication].source != PLACE_INTRO ==> Full(c.record))
  }

  ghost predicate CoverageSound(db: Db) {
    forall c :: c in db.coverage ==> CoverageRowSound(db, c)
  }

  ghost predicate ReturnSound(db: Db, r: Returned) {
    && r.acquisition in db.acquisitions && r.publication in db.publications
    && var a := db.acquisitions[r.acquisition];
       || (HasPublication(a.status) && db.publications[r.publication].acquisition == r.acquisition)
       || (a.status == NoChange && !r.created && SameVersion(db, r.publication, a.source, VersionOf(a)))
  }

  ghost predicate ReturnsSound(s: State) {
    forall r :: r in s.returned ==> ReturnSound(s.db, r)
  }

  /** A second result for one acquisition creates nothing and is never a first NO_CHANGE. */
  ghost predicate ReturnsRepeat(s: State) {
    forall i, j :: 0 <= i < j < |s.returned| && s.returned[i].acquisition == s.returned[j].acquisition ==>
      !s.returned[j].created && s.returned[i].acquisition in s.db.acquisitions && HasPublication(s.db.acquisitions[s.returned[i].acquisition].status)
  }

  // ------------------------------------------------------------------ running transactions

  predicate Names(db: Db, p: PublicationId, source: SourceId, a: AcquisitionId) {
    p in db.publications && db.publications[p].source == source && db.publications[p].acquisition == a
  }

  /** What a transaction has read and still holds. */
  ghost predicate Holds(table: Capabilities, db: Db, t: Transaction) {
    match t
    case PublishRowLocked(a, row) => a in db.acquisitions && db.acquisitions[a] == row
    case PublishSourceLocked(a, row) => a in db.acquisitions && db.acquisitions[a] == row
    case ActivateFound(p, _, source, a) => Names(db, p, source, a)
    case ActivateSourceLocked(p, _, source, a) => Names(db, p, source, a)
    case ActivateRowLocked(p, _, source, a) => Names(db, p, source, a)
    case ActivateReady(p, records, source, a, previous) =>
      Names(db, p, source, a) && ActivationAccepted(table, source, records) && previous == ActiveOf(db, source)
    case AppendFound(p, _, source) => p in db.publications && db.publications[p].source == source && WasActivated(db, p)
    case AppendSourceLocked(p, _, source) => p in db.publications && db.publications[p].source == source && WasActivated(db, p)
    case RollbackReady(source, p, replaced) =>
      p in db.publications && db.publications[p].source == source && ActiveOf(db, source) == Some(replaced)
    case _ => true
  }

  ghost predicate AllHold(table: Capabilities, s: State) {
    forall t :: t in s.running ==> Holds(table, s.db, s.running[t])
  }

  /** No lock is held twice. */
  ghost predicate LocksExclusive(s: State) {
    forall t, u :: t in s.running && u in s.running && t != u ==>
      && (s.running[t].RowLock().Some? ==> s.running[t].RowLock() != s.running[u].RowLock())
      && (s.running[t].SourceLock().Some? ==> s.running[t].SourceLock() != s.running[u].SourceLock())
  }

  ghost predicate Inv(table: Capabilities, s: State) {
    && RowsInv(s.db) && LogInv(s.db) && CoverageSound(s.db)
    && ReturnsSound(s) && ReturnsRepeat(s)
    && AllHold(table, s) && LocksExclusive(s)
  }

  // ------------------------------------------------------------------ growing databases

  /** Publications are immutable and the log only grows. */
  ghost predicate Grows(before: Db, after: Db) {
    && (forall p :: p in before.publications ==> p in after.publications && after.publications[p] == before.publications[p])
    && before.log <= after.log
  }

  lemma {:induction false} ActivationStays(before: Db, after: Db, p: PublicationId)
    requires Grows(before, after) && WasActivated(before, p)
    ensures WasActivated(after, p)
  {
    var i :| 0 <= i < |before.log| && Activates(before.log[i], p);
    assert after.log[i] == before.log[i];
  }

  /** A commit does not disturb a transaction that holds other locks. */
  lemma {:induction false} StillHolds(table: Capabilities, before: Db, after: Db, t: Transaction)
    requires Holds(table, before, t) && Grows(before, after)
    requires t.RowLock().Some? && t.RowLock().value in before.acquisitions ==>
               t.RowLock().value in after.acquisitions && after.acquisitions[t.RowLock().value] == before.acquisitions[t.RowLock().value]
    requires t.SourceLock().Some? ==> ActiveOf(after, t.SourceLock().value) == ActiveOf(before, t.SourceLock().value)
    ensures Holds(table, after, t)
  {
    match t
    case AppendFound(p, _, _) => ActivationStays(before, after, p);
    case AppendSourceLocked(p, _, _) => ActivationStays(before, after, p);
    case _ =>
  }

  // ------------------------------------------------------------------ steps that write nothing

  lemma {:induction false} BeginKeeps(table: Capabilities, s: State, tx: TransactionId, start: Transaction)
    requires Inv(table, s) && tx !in s.running && IsStart(start)
    ensures Inv(table, Moved(s, tx, start))
  {
  }

  lemma {:induction false} AbortKeeps(table: Capabilities, s: State, tx: TransactionId)
    requires Inv(table, s) && tx in s.running
    ensures Inv(table, Ended(s, tx))
  {
  }

  lemma {:induction false} AppendFindsActivated(table: Capabilities, s: State, tx: TransactionId)
    requires Inv(table, s) && tx in s.running && s.running[tx].AppendBegun? && ProceedFrom(table, s, tx).Some?
    ensures Holds(table, s.db, ProceedFrom(table, s, tx).value)
  {
    assert IsPublished(s.db, s.running[tx].publication);
  }

  lemma {:induction false} ProceedHolds(table: Capabilities, s: State, tx: TransactionId)
    requires Inv(table, s) && tx in s.running && ProceedFrom(table, s, tx).Some?
    ensures Holds(table, s.db, ProceedFrom(table, s, tx).value)
  {
    if s.running[tx].AppendBegun? {
      AppendFindsActivated(table, s, tx);
    } else {
      assert Holds(table, s.db, s.running[tx]);
    }
  }

  lemma {:induction false} ProceedKeeps(table: Capabilities, s: State, tx: TransactionId)
    requires Inv(table, s) && tx in s.running && ProceedFrom(table, s, tx).Some?
    ensures Inv(table, Moved(s, tx, ProceedFrom(table, s, tx).value))
  {
    ProceedHolds(table, s, tx);
    ProceedKeepsLocks(table, s, tx);
  }

  lemma {:induction false} ProceedKeepsLocks(table: Capabilities, s: State, tx: TransactionId)
    requires LocksExclusive(s) && tx in s.running && ProceedFrom(table, s, tx).Some?
    ensures LocksExclusive(Moved(s, tx, ProceedFrom(table, s, tx).value))
  {
    var t := s.running[tx];
    var now := ProceedFrom(table, s, tx).value;
    assert now.RowLock() == t.RowLock() || (now.RowLock().Some? && RowFree(s, now.RowLock().value));
    assert now.SourceLock() == t.SourceLock() || (now.SourceLock().Some? && SourceFree(s, now.SourceLock().value));
  }
}
