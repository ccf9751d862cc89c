/** The publication lifecycle as a machine of interleaved database transactions.  A transaction
    reads committed rows, takes row and advisory locks one at a time, and writes when it commits. */
module Lifecycle {
  import opened Common

  // ------------------------------------------------------------------ stored rows

  type SourceId = string
  type AcquisitionId = int
  type PublicationId = int
  type TransactionId = int

  datatype Status = Incomplete | Acquired | QualityFailed | Validated | NoChange | Staged | Published

  datatype Acquisition = Acquisition(
    source: SourceId,
    rawChecksum: string,
    schema: string,
    status: Status,
    normalizedChecksum: string,      // empty until validated
    sourceDate: Option<int>,
    observedOn: Option<int>,
    collectedOn: int)

  /** `<date>-<first twelve digits of the checksum>`. */
  datatype Version = Version(asOf: int, prefix: string)

  datatype Publication = Publication(source: SourceId, acquisition: AcquisitionId, version: Version)

  /** `byRollback` records which operation wrote the event; the source keeps no such column. */
  datatype Event = Event(source: SourceId, previous: Option<PublicationId>, publication: PublicationId, byRollback: bool)

  datatype CoverageRecord = CoverageRecord(
    capability: string,
    ratio: real,
    region: string,
    grid: string,
    dateFrom: Option<int>,
    dateTo: Option<int>,
    blocking: Option<string>)

  datatype Coverage = Coverage(publication: PublicationId, record: CoverageRecord)

  datatype Db = Db(
    acquisitions: map<AcquisitionId, Acquisition>,
    publications: map<PublicationId, Publication>,
    active: map<SourceId, PublicationId>,
    log: seq<Event>,
    coverage: seq<Coverage>)

  function VersionOf(a: Acquisition): Version {
    var observed := if a.observedOn.Some? then a.observedOn.value else a.collectedOn;
    Version(if a.sourceDate.Some? then a.sourceDate.value else observed,
            if |a.normalizedChecksum| <= 12 then a.normalizedChecksum else a.normalizedChecksum[..12])
  }

  function ActiveOf(db: Db, source: SourceId): Option<PublicationId> {
    if source in db.active then Some(db.active[source]) else None
  }

  // ------------------------------------------------------------------ coverage checks

  const PLACE_INTRO: SourceId := "tourapi.place-intro"
  const SNAPSHOT_READY := "opening_hours_snapshot_ready"
  const HOURS_READY := "opening_hours_ready"

  /** Which sources may vouch for which capability. */
  type Capabilities = map<string, set<SourceId>>

  predicate Blocked(r: CoverageRecord) {
    r.blocking.Some? && r.blocking.value != ""
  }

  predicate Full(r: CoverageRecord) {
    r.ratio == 1.0 && !Blocked(r)
  }

  predicate FromSource(table: Capabilities, source: SourceId, records: seq<CoverageRecord>) {
    forall r :: r in records ==> r.capability in table && source in table[r.capability]
  }

  predicate WholeIsland(r: CoverageRecord) {
    r.region == "JEJU_ALL" && r.grid == "ALL" && r.dateFrom.None? && r.dateTo.None?
  }

  function Snapshots(records: seq<CoverageRecord>): seq<CoverageRecord> {
    if records == [] then []
    else (if records[0].capability == SNAPSHOT_READY then [records[0]] else []) + Snapshots(records[1..])
  }

  predicate ActivationAccepted(table: Capabilities, source: SourceId, records: seq<CoverageRecord>) {
    && FromSource(table, source, records)
    && if source == PLACE_INTRO
       then |Snapshots(records)| == 1 && Full(Snapshots(records)[0]) && WholeIsland(Snapshots(records)[0])
       else forall r :: r in records ==> Full(r)
  }

  predicate AppendAccepted(table: Capabilities, source: SourceId, records: seq<CoverageRecord>) {
    && FromSource(table, source, records)
    && ((source == PLACE_INTRO && forall r :: r in records ==> r.capability == HOURS_READY)
        || forall r :: r in records ==> Full(r))
  }

  // ------------------------------------------------------------------ transactions

  /** `Publish*` is `_publish`, `Activate*` is `publish_coverage`, `Append*` is
      `append_active_coverage`, `Rollback*` is `rollback`; each name says how far it has come and
      carries the values it has read. */
  datatype Transaction =
    | PublishBegun(acquisition: AcquisitionId)
    | PublishRowLocked(acquisition: AcquisitionId, row: Acquisition)
    | PublishSourceLocked(acquisition: AcquisitionId, row: Acquisition)
    | ActivateBegun(publication: PublicationId, records: seq<CoverageRecord>)
    | ActivateFound(publication: PublicationId, records: seq<CoverageRecord>, source: SourceId, acquisition: AcquisitionId)
    | ActivateSourceLocked(publication: PublicationId, records: seq<CoverageRecord>, source: SourceId, acquisition: AcquisitionId)
    | ActivateRowLocked(publication: PublicationId, records: seq<CoverageRecord>, source: SourceId, acquisition: AcquisitionId)
    | ActivateReady(publication: PublicationId, records: seq<CoverageRecord>, source: SourceId, acquisition: AcquisitionId, previous: Option<PublicationId>)
    | AppendBegun(publication: PublicationId, records: seq<CoverageRecord>)
    | AppendFound(publication: PublicationId, records: seq<CoverageRecord>, source: SourceId)
    | AppendSourceLocked(publication: PublicationId, records: seq<CoverageRecord>, source: SourceId)
    | RollbackBegun(source: SourceId, publication: PublicationId)
    | RollbackSourceLocked(source: SourceId, publication: PublicationId)
    | RollbackReady(source: SourceId, publication: PublicationId, replaced: PublicationId)
  {
    function RowLock(): Option<AcquisitionId> {
      match this
      case PublishRowLocked(a, _) => Some(a)
      case PublishSourceLocked(a, _) => Some(a)
      case ActivateRowLocked(_, _, _, a) => Some(a)
      case ActivateReady(_, _, _, a, _) => Some(a)
      case _ => None
    }

    function SourceLock(): Option<SourceId> {
      match this
      case PublishSourceLocked(_, row) => Some(row.source)
      case ActivateSourceLocked(_, _, s, _) => Some(s)
      case ActivateRowLocked(_, _, s, _) => Some(s)
      case ActivateReady(_, _, s, _, _) => Some(s)
      case AppendSourceLocked(_, _, s) => Some(s)
      case RollbackSourceLocked(s, _) => Some(s)
      case RollbackReady(s, _, _) => Some(s)
      case _ => None
    }
  }

  /** What a finished `_publish` returned. */
  datatype Returned = Returned(acquisition: AcquisitionId, publication: PublicationId, created: bool)

  datatype State = State(db: Db, running: map<TransactionId, Transaction>, returned: seq<Returned>)

  const EMPTY := State(Db(map[], map[], map[], [], []), map[], [])

  predicate RowFree(s: State, a: AcquisitionId) {
    forall t :: t in s.running ==> s.running[t].RowLock() != Some(a)
  }

  predicate SourceFree(s: State, source: SourceId) {
    forall t :: t in s.running ==> s.running[t].SourceLock() != Some(source)
  }

  // ------------------------------------------------------------------ steps

  datatype Action =
    | Register(id: AcquisitionId, row: Acquisition)
    | MarkValidated(acquisition: AcquisitionId, checksum: string)
    | MarkQualityFailed(acquisition: AcquisitionId)
    | Begin(tx: TransactionId, start: Transaction)
    | Proceed(tx: TransactionId)
    | CommitPublish(tx: TransactionId, chosen: PublicationId)
    | CommitActivate(tx: TransactionId)
    | CommitAppend(tx: TransactionId)
    | CommitRollback(tx: TransactionId)
    | Abort(tx: TransactionId)          // any raised error: nothing is written

  predicate IsStart(t: Transaction) {
    match t
    case PublishBegun(_) => true
    case ActivateBegun(_, records) => records != []
    case AppendBegun(_, records) => records != []
    case RollbackBegun(_, _) => true
    case _ => false
  }

  function WithStatus(db: Db, a: AcquisitionId, status: Status): Db
    requires a in db.acquisitions
  {
    db.(acquisitions := db.acquisitions[a := db.acquisitions[a].(status := status)])
  }

  function Moved(s: State, tx: TransactionId, t: Transaction): State {
    s.(running := s.running[tx := t])
  }

  function Ended(s: State, tx: TransactionId): State {
    s.(running := s.running - {tx})
  }

  /** The next lock or read of a running transaction; `None` while it waits or has failed. */
  function ProceedFrom(table: Capabilities, s: State, tx: TransactionId): Option<Transaction>
    requires tx in s.running
  {
    match s.running[tx]
    case PublishBegun(a) =>
      if a in s.db.acquisitions && RowFree(s, a) then Some(PublishRowLocked(a, s.db.acquisitions[a])) else None
    case PublishRowLocked(a, row) =>
      if SourceFree(s, row.source) then Some(PublishSourceLocked(a, row)) else None
    case ActivateBegun(p, records) =>
      if p in s.db.publications && s.db.publications[p].acquisition in s.db.acquisitions
         && s.db.acquisitions[s.db.publications[p].acquisition].status == Staged
      then Some(ActivateFound(p, records, s.db.publications[p].source, s.db.publications[p].acquisition)) else None
    case ActivateFound(p, records, source, a) =>
      if SourceFree(s, source) then Some(ActivateSourceLocked(p, records, source, a)) else None
    case ActivateSourceLocked(p, records, source, a) =>
      if RowFree(s, a) then Some(ActivateRowLocked(p, records, source, a)) else None
    case ActivateRowLocked(p, records, source, a) =>
      if ActivationAccepted(table, source, records) then Some(ActivateReady(p, records, source, a, ActiveOf(s.db, source))) else None
    case AppendBegun(p, records) =>
      if p in s.db.publications && s.db.publications[p].acquisition in s.db.acquisitions
         && s.db.acquisitions[s.db.publications[p].acquisition].status == Published
         && ActiveOf(s.db, s.db.publications[p].source) == Some(p)
      then Some(AppendFound(p, records, s.db.publications[p].source)) else None
    case AppendFound(p, records, source) =>
      if SourceFree(s, source) then Some(AppendSourceLocked(p, records, source)) else None
    case RollbackBegun(source, p) =>
      if SourceFree(s, source) then Some(RollbackSourceLocked(source, p)) else None
    case RollbackSourceLocked(source, p) =>
      if p in s.db.publications && s.db.publications[p].source == source && source in s.db.active
      then Some(RollbackReady(source, p, s.db.active[source])) else None
    case _ => None
  }

  predicate SameRaw(a: Acquisition, b: Acquisition) {
    a.source == b.source && a.rawChecksum == b.rawChecksum && a.schema == b.schema
  }

  /** Insert a new acquisition, or find the one with the same raw object. */
  function Registered(s: State, id: AcquisitionId, row: Acquisition): Option<State> {
    if exists a :: a in s.db.acquisitions && SameRaw(s.db.acquisitions[a], row) then Some(s)
    else if id !in s.db.acquisitions && row.status in {Incomplete, Acquired} && row.normalizedChecksum == ""
    then Some(s.(db := s.db.(acquisitions := s.db.acquisitions[id := row]))) else None
  }

  function Coverages(p: PublicationId, records: seq<CoverageRecord>): seq<Coverage> {
    seq(|records|, i requires 0 <= i < |records| => Coverage(p, records[i]))
  }

  /** The publication of an acquisition, or of a dataset version. */
  ghost predicate PublicationFor(db: Db, a: AcquisitionId, p: PublicationId) {
    p in db.publications && db.publications[p].acquisition == a
  }

  predicate SameVersion(db: Db, p: PublicationId, source: SourceId, version: Version) {
    p in db.publications && db.publications[p].source == source && db.publications[p].version == version
  }

  /** `_publish` after both locks.  `chosen` is the id the database would give a new publication,
      or the publication that is found again. */
  function PublishCommitted(s: State, tx: TransactionId, chosen: PublicationId): Option<State>
    requires tx in s.running && s.running[tx].PublishSourceLocked?
  {
    var t := s.running[tx];
    var a, row := t.acquisition, t.row;
    var done := Ended(s, tx);
    if row.status in {Staged, Published} then
      if chosen in s.db.publications && s.db.publications[chosen].acquisition == a
      then Some(done.(returned := s.returned + [Returned(a, chosen, false)])) else None
    else if row.status != Validated || row.normalizedChecksum == "" then None
    else if exists p :: p in s.db.publications && SameVersion(s.db, p, row.source, VersionOf(row)) then
      if SameVersion(s.db, chosen, row.source, VersionOf(row)) && a in s.db.acquisitions && s.db.acquisitions[a].status == Validated
      then Some(done.(db := WithStatus(s.db, a, NoChange), returned := s.returned + [Returned(a, chosen, false)])) else None
    else if chosen !in s.db.publications && a in s.db.acquisitions && s.db.acquisitions[a].status == Validated then
      var staged := WithStatus(s.db, a, Staged);
      Some(done.(db := staged.(publications := s.db.publications[chosen := Publication(row.source, a, VersionOf(row))]),
                 returned := s.returned + [Returned(a, chosen, true)]))
    else None
  }

  /** `publish_coverage` after its reads: everything is written, or the guarded status update
      finds no STAGED row and nothing is. */
  function ActivateCommitted(s: State, tx: TransactionId): Option<State>
    requires tx in s.running && s.running[tx].ActivateReady?
  {
    var t := s.running[tx];
    if t.acquisition in s.db.acquisitions && s.db.acquisitions[t.acquisition].status == Staged then
      var published := WithStatus(s.db, t.acquisition, Published);
      Some(Ended(s, tx).(db := published.(
        active := s.db.active[t.source := t.publication],
        log := s.db.log + [Event(t.source, t.previous, t.publication, false)],
        coverage := s.db.coverage + Coverages(t.publication, t.records))))
    else None
  }

  function AppendCommitted(table: Capabilities, s: State, tx: TransactionId): Option<State>
    requires tx in s.running && s.running[tx].AppendSourceLocked?
  {
    var t := s.running[tx];
    if AppendAccepted(table, t.source, t.records)
    then Some(Ended(s, tx).(db := s.db.(coverage := s.db.coverage + Coverages(t.publication, t.records)))) else None
  }

  function RollbackCommitted(s: State, tx: TransactionId): State
    requires tx in s.running && s.running[tx].RollbackReady?
  {
    var t := s.running[tx];
    Ended(s, tx).(db := s.db.(
      active := s.db.active[t.source := t.publication],
      log := s.db.log + [Event(t.source, Some(t.replaced), t.publication, true)]))
  }

  /** One step of the machine; `None` when the action is not enabled. */
  function Next(table: Capabilities, s: State, action: Action): Option<State> {
    match action
    case Register(id, row) => Registered(s, id, row)
    case MarkValidated(a, checksum) =>
      if a in s.db.acquisitions && s.db.acquisitions[a].status == Acquired && RowFree(s, a)
      then Some(s.(db := s.db.(acquisitions := s.db.acquisitions[a := s.db.acquisitions[a].(status := Validated, normalizedChecksum := checksum)])))
      else None
    case MarkQualityFailed(a) =>
      if a in s.db.acquisitions && s.db.acquisitions[a].status == Acquired && RowFree(s, a)
      then Some(s.(db := WithStatus(s.db, a, QualityFailed))) else None
    case Begin(tx, start) =>
      if tx !in s.running && IsStart(start) then Some(Moved(s, tx, start)) else None
    case Proceed(tx) =>
      if tx in s.running && ProceedFrom(table, s, tx).Some? then Some(Moved(s, tx, ProceedFrom(table, s, tx).value)) else None
    case CommitPublish(tx, chosen) =>
      if tx in s.running && s.running[tx].PublishSourceLocked? then PublishCommitted(s, tx, chosen) else None
    case CommitActivate(tx) =>
      if tx in s.running && s.running[tx].ActivateReady? then ActivateCommitted(s, tx) else None
    case CommitAppend(tx) =>
      if tx in s.running && s.running[tx].AppendSourceLocked? then AppendCommitted(table, s, tx) else None
    case CommitRollback(tx) =>
      if tx in s.running && s.running[tx].RollbackReady? then Some(RollbackCommitted(s, tx)) else None
    case Abort(tx) =>
      if tx in s.running then Some(Ended(s, tx)) else None
  }

  /** A run from the empty database. */
  function Run(table: Capabilities, actions: seq<Action>): Option<State> {
    if actions == [] then Some(EMPTY)
    else
      var before := Run(table, actions[..|actions| - 1]);
      if before.None? then None else Next(table, before.value, actions[|actions| - 1])
  }
}
