/** What the lifecycle's rows mean after any run, written out on the stored columns: dataset
    versions, what a publish does with them, what never changes, and what coverage says. */
module LifecycleMeaning {
  import opened Common
  import opened Lifecycle
  import opened LifecycleInvariant
  import opened LifecycleSafety
  import opened LifecycleLocks
  import opened LifecycleResults

  // ------------------------------------------------------------------ dataset versions

  /** The day of an acquisition's data: the source's date, else the observed day, else the collected
      one. */
  predicate DatedAs(a: Acquisition, day: int) {
    match a.sourceDate
    case Some(date) => day == date
    case None => match a.observedOn case Some(observed) => day == observed case None => day == a.collectedOn
  }

  /** The first twelve characters, or all of a shorter text. */
  predicate FirstTwelve(prefix: string, text: string) {
    prefix <= text && (|prefix| == 12 || (|prefix| < 12 && prefix == text))
  }

  predicate VersionAs(a: Acquisition, version: Version) {
    DatedAs(a, version.asOf) && FirstTwelve(version.prefix, a.normalizedChecksum)
  }

  /** One source, one day, one beginning of the checksum. */
  ghost predicate Alike(a: Acquisition, b: Acquisition) {
    a.source == b.source && exists version :: VersionAs(a, version) && VersionAs(b, version)
  }

  lemma {:induction false} VersionMeans(a: Acquisition, version: Version)
    ensures VersionAs(a, version) <==> version == VersionOf(a)
  {
    if FirstTwelve(version.prefix, a.normalizedChecksum) {
      assert version.prefix == a.normalizedChecksum[..|version.prefix|];
    }
  }

  lemma {:induction false} AlikeMeans(a: Acquisition, b: Acquisition)
    ensures Alike(a, b) <==> a.source == b.source && VersionOf(a) == VersionOf(b)
  {
    VersionMeans(a, VersionOf(a));
    VersionMeans(b, VersionOf(b));
    if version :| VersionAs(a, version) && VersionAs(b, version) {
      VersionMeans(a, version);
      VersionMeans(b, version);
    }
    VersionMeans(b, VersionOf(a));
  }

  /** The acquisition has a publication. */
  ghost predicate IsOut(db: Db, a: AcquisitionId) {
    exists p :: p in db.publications && db.publications[p].acquisition == a
  }

  /** Every publication carries the day and the checksum of its acquisition, and two acquisitions
      that agree on source, day and checksum never both have one, whenever they were collected. */
  lemma {:induction false} VersionsAreOfTheData(table: Capabilities, actions: seq<Action>, db: Db)
    requires Run(table, actions).Some? && db == Run(table, actions).value.db
    ensures forall p :: p in db.publications ==>
              db.publications[p].acquisition in db.acquisitions
              && db.publications[p].source == db.acquisitions[db.publications[p].acquisition].source
              && VersionAs(db.acquisitions[db.publications[p].acquisition], db.publications[p].version)
    ensures forall a, b :: a in db.acquisitions && b in db.acquisitions && a != b && IsOut(db, a) && IsOut(db, b)
              ==> !Alike(db.acquisitions[a], db.acquisitions[b])
  {
    RunKeeps(table, actions);
    forall p | p in db.publications
      ensures db.publications[p].acquisition in db.acquisitions
      ensures db.publications[p].source == db.acquisitions[db.publications[p].acquisition].source
      ensures VersionAs(db.acquisitions[db.publications[p].acquisition], db.publications[p].version)
    {
      VersionMeans(db.acquisitions[db.publications[p].acquisition], db.publications[p].version);
    }
    forall a, b | a in db.acquisitions && b in db.acquisitions && a != b && IsOut(db, a) && IsOut(db, b)
      ensures !Alike(db.acquisitions[a], db.acquisitions[b])
    {
      AlikeMeans(db.acquisitions[a], db.acquisitions[b]);
      var p :| p in db.publications && db.publications[p].acquisition == a;
      var r :| r in db.publications && db.publications[r].acquisition == b;
    }
  }

  // ------------------------------------------------------------------ what a publish does

  /** The publication of an acquisition that is like this one. */
  ghost predicate TwinOf(db: Db, a: AcquisitionId, p: PublicationId) {
    a in db.acquisitions && p in db.publications && db.publications[p].acquisition in db.acquisitions
    && Alike(db.acquisitions[db.publications[p].acquisition], db.acquisitions[a])
  }

  lemma {:induction false} TwinMeans(db: Db, a: AcquisitionId, p: PublicationId)
    requires RowsInv(db) && a in db.acquisitions
    ensures TwinOf(db, a, p) <==> SameVersion(db, p, db.acquisitions[a].source, VersionOf(db.acquisitions[a]))
  {
    if p in db.publications {
      AlikeMeans(db.acquisitions[db.publications[p].acquisition], db.acquisitions[a]);
    }
  }

  /** The row of the acquisition with another status, and one result more; nothing else. */
  predicate EndsWith(s: State, tx: TransactionId, t: State, a: AcquisitionId, status: Status, r: Returned) {
    && a in s.db.acquisitions && t.running == s.running - {tx} && t.returned == s.returned + [r]
    && t.db == s.db.(acquisitions := s.db.acquisitions[a := s.db.acquisitions[a].(status := status)], publications := t.db.publications)
  }

  /** Committing the publish of a validated acquisition. With a twin, the twin is returned and the
      acquisition becomes NO_CHANGE; without one, a publication of the acquisition's own is created
      under a new id and it becomes STAGED. Without a checksum nothing is committed. */
  lemma {:induction false} PublishOfValidated(table: Capabilities, actions: seq<Action>, s: State, tx: TransactionId, p: PublicationId)
    requires Run(table, actions) == Some(s) && tx in s.running && s.running[tx].PublishSourceLocked?
    requires s.running[tx].acquisition in s.db.acquisitions ==> s.db.acquisitions[s.running[tx].acquisition].status == Validated
    ensures var a := s.running[tx].acquisition;
            && a in s.db.acquisitions
            && var row, next := s.db.acquisitions[a], Next(table, s, CommitPublish(tx, p));
               && (row.normalizedChecksum == "" ==> next == None)
               && (row.normalizedChecksum != "" && (exists twin :: TwinOf(s.db, a, twin)) ==>
                     && (next.Some? <==> TwinOf(s.db, a, p))
                     && (next.Some? ==> EndsWith(s, tx, next.value, a, NoChange, Returned(a, p, false)) && next.value.db.publications == s.db.publications))
               && (row.normalizedChecksum != "" && !(exists twin :: TwinOf(s.db, a, twin)) ==>
                     && (next.Some? <==> p !in s.db.publications)
                     && (next.Some? ==> EndsWith(s, tx, next.value, a, Staged, Returned(a, p, true))
                                        && next.value.db.publications == s.db.publications[p := next.value.db.publications[p]]
                                        && next.value.db.publications[p].source == row.source && next.value.db.publications[p].acquisition == a
                                        && VersionAs(row, next.value.db.publications[p].version)))
  {
    RunKeeps(table, actions);
    assert Holds(table, s.db, s.running[tx]);
    var a := s.running[tx].acquisition;
    var row := s.db.acquisitions[a];
    forall twin ensures TwinOf(s.db, a, twin) <==> SameVersion(s.db, twin, row.source, VersionOf(row)) {
      TwinMeans(s.db, a, twin);
    }
    VersionMeans(row, VersionOf(row));
    PublishCases(s, tx, p);
  }

  lemma {:induction false} PublishCases(s: State, tx: TransactionId, p: PublicationId)
    requires tx in s.running && s.running[tx].PublishSourceLocked? && s.running[tx].row.status == Validated
    requires s.running[tx].acquisition in s.db.acquisitions && s.db.acquisitions[s.running[tx].acquisition] == s.running[tx].row
    ensures var a, row, next := s.running[tx].acquisition, s.running[tx].row, PublishCommitted(s, tx, p);
            && (row.normalizedChecksum == "" ==> next == None)
            && (row.normalizedChecksum != "" && (exists twin :: SameVersion(s.db, twin, row.source, VersionOf(row))) ==>
                  && (next.Some? <==> SameVersion(s.db, p, row.source, VersionOf(row)))
                  && (next.Some? ==> EndsWith(s, tx, next.value, a, NoChange, Returned(a, p, false)) && next.value.db.publications == s.db.publications))
            && (row.normalizedChecksum != "" && !(exists twin :: SameVersion(s.db, twin, row.source, VersionOf(row))) ==>
                  && (next.Some? <==> p !in s.db.publications)
                  && (next.Some? ==> EndsWith(s, tx, next.value, a, Staged, Returned(a, p, true))
                                     && next.value.db.publications == s.db.publications[p := Publication(row.source, a, VersionOf(row))]))
  {
    var row := s.running[tx].row;
    if twin :| SameVersion(s.db, twin, row.source, VersionOf(row)) {
      assert twin in s.db.publications;
    }
  }

  // ------------------------------------------------------------------ what never changes

  /** Everything but the status. */
  predicate SameData(a: Acquisition, b: Acquisition) {
    && a.source == b.source && a.rawChecksum == b.rawChecksum && a.schema == b.schema && a.normalizedChecksum == b.normalizedChecksum
    && a.sourceDate == b.sourceDate && a.observedOn == b.observedOn && a.collectedOn == b.collectedOn
  }

  lemma {:induction false} StepKeepsData(table: Capabilities, s: State, action: Action, a: AcquisitionId)
    requires Next(table, s, action).Some? && a in s.db.acquisitions
    ensures var t := Next(table, s, action).value;
            a in t.db.acquisitions && (s.db.acquisitions[a].status != Acquired ==> SameData(s.db.acquisitions[a], t.db.acquisitions[a]))
  {
  }

  /** From the moment an acquisition is no longer ACQUIRED, only its status ever changes. */
  lemma {:induction false} DataIsFinal(table: Capabilities, early: seq<Action>, late: seq<Action>, a: AcquisitionId)
    requires Run(table, early).Some? && Run(table, early + late).Some?
    requires a in Run(table, early).value.db.acquisitions && Run(table, early).value.db.acquisitions[a].status != Acquired
    ensures a in Run(table, early + late).value.db.acquisitions
    ensures SameData(Run(table, early).value.db.acquisitions[a], Run(table, early + late).value.db.acquisitions[a])
    ensures Run(table, early + late).value.db.acquisitions[a].status != Acquired
  {
    if late == [] {
      assert early + late == early;
    } else {
      var front, last := late[..|late| - 1], late[|late| - 1];
      assert early + late == (early + front) + [last];
      LastStep(table, early + front, last);
      DataIsFinal(table, early, front, a);
      StepKeepsData(table, Run(table, early + front).value, last, a);
      LastActionMovesForward(table, early + front, last, a);
    }
  }

  ghost predicate RawOnce(db: Db) {
    forall a, b :: a in db.acquisitions && b in db.acquisitions && a != b ==>
      db.acquisitions[a].source != db.acquisitions[b].source || db.acquisitions[a].rawChecksum != db.acquisitions[b].rawChecksum
      || db.acquisitions[a].schema != db.acquisitions[b].schema
  }

  lemma {:induction false} StepKeepsRawOnce(table: Capabilities, s: State, action: Action)
    requires RawOnce(s.db) && Next(table, s, action).Some?
    ensures RawOnce(Next(table, s, action).value.db)
  {
    var t := Next(table, s, action).value;
    if action.Register? && t != s {
      forall a | a in s.db.acquisitions ensures !SameRaw(s.db.acquisitions[a], action.row) {}
    } else {
      forall a | a in t.db.acquisitions
        ensures a in s.db.acquisitions
        ensures t.db.acquisitions[a].source == s.db.acquisitions[a].source && t.db.acquisitions[a].rawChecksum == s.db.acquisitions[a].rawChecksum
        ensures t.db.acquisitions[a].schema == s.db.acquisitions[a].schema
      {
        KnownBefore(table, s, action, a);
      }
    }
  }

  lemma {:induction false} KnownBefore(table: Capabilities, s: State, action: Action, a: AcquisitionId)
    requires Next(table, s, action).Some? && a in Next(table, s, action).value.db.acquisitions
    requires action.Register? ==> Next(table, s, action).value == s
    ensures a in s.db.acquisitions
    ensures var b := Next(table, s, action).value.db.acquisitions[a];
            b.source == s.db.acquisitions[a].source && b.rawChecksum == s.db.acquisitions[a].rawChecksum && b.schema == s.db.acquisitions[a].schema
  {
  }

  /** One raw object of one source under one schema is one acquisition. */
  lemma {:induction false} RawIsRegisteredOnce(table: Capabilities, actions: seq<Action>)
    requires Run(table, actions).Some?
    ensures RawOnce(Run(table, actions).value.db)
  {
    if actions != [] {
      var front := actions[..|actions| - 1];
      RawIsRegisteredOnce(table, front);
      StepKeepsRawOnce(table, Run(table, front).value, actions[|actions| - 1]);
    }
  }

  // ------------------------------------------------------------------ coverage

  /** Complete and without a reason that blocks it. */
  predicate Clean(r: CoverageRecord) {
    r.ratio == 1.0 && (r.blocking == None || r.blocking == Some(""))
  }

  predicate Vouched(table: Capabilities, source: SourceId, r: CoverageRecord) {
    r.capability in table && source in table[r.capability]
  }

  /** The one row that says that the opening hours of the whole island were read. */
  predicate IslandSnapshot(r: CoverageRecord) {
    r.capability == "opening_hours_snapshot_ready" && Clean(r) && r.region == "JEJU_ALL" && r.grid == "ALL" && r.dateFrom == None && r.dateTo == None
  }

  lemma {:induction false} SnapshotsCount(records: seq<CoverageRecord>, i: nat)
    requires i < |records| && records[i].capability == "opening_hours_snapshot_ready"
    ensures records[i] in Snapshots(records)
    ensures |Snapshots(records)| == 1 <==> forall j :: 0 <= j < |records| && j != i ==> records[j].capability != "opening_hours_snapshot_ready"
  {
    if i == 0 {
      NoSnapshots(records[1..]);
      assert forall j :: 0 < j < |records| ==> records[1..][j - 1] == records[j];
    } else {
      SnapshotsCount(records[1..], i - 1);
      if records[0].capability == "opening_hours_snapshot_ready" {
        assert |Snapshots(records)| > 1;
      } else {
        assert forall j :: 0 <= j < |records[1..]| ==> records[1..][j] == records[j + 1];
        assert forall j :: 0 < j < |records| ==> records[j] == records[1..][j - 1];
      }
    }
  }

  lemma {:induction false} NoSnapshots(records: seq<CoverageRecord>)
    ensures Snapshots(records) == [] <==> forall j :: 0 <= j < |records| ==> records[j].capability != "opening_hours_snapshot_ready"
  {
    if records != [] {
      NoSnapshots(records[1..]);
      assert forall j :: 0 <= j < |records[1..]| ==> records[1..][j] == records[j + 1];
      assert forall j :: 0 < j < |records| ==> records[j] == records[1..][j - 1];
    }
  }

  /** An activation is accepted when the source may vouch for every row and every row is clean; for the
      place introductions, when exactly one row is a snapshot and that is the island's. */
  ghost predicate MayActivate(table: Capabilities, source: SourceId, records: seq<CoverageRecord>) {
    && (forall r :: r in records ==> Vouched(table, source, r))
    && if source == "tourapi.place-intro" then exists i :: 0 <= i < |records| && OnlySnapshot(records, i) && IslandSnapshot(records[i])
       else forall r :: r in records ==> Clean(r)
  }

  predicate OnlySnapshot(records: seq<CoverageRecord>, i: nat)
    requires i < |records|
  {
    forall j :: 0 <= j < |records| && j != i ==> records[j].capability != "opening_hours_snapshot_ready"
  }

  /** Appended rows are all clean, or, for the place introductions, all about opening hours. */
  predicate MayAppend(table: Capabilities, source: SourceId, records: seq<CoverageRecord>) {
    && (forall r :: r in records ==> Vouched(table, source, r))
    && ((forall r :: r in records ==> Clean(r))
        || (source == "tourapi.place-intro" && forall r :: r in records ==> r.capability == "opening_hours_ready"))
  }

  lemma {:induction false} AppendMeans(table: Capabilities, source: SourceId, records: seq<CoverageRecord>)
    ensures AppendAccepted(table, source, records) <==> MayAppend(table, source, records)
  {
    forall r ensures Full(r) <==> Clean(r) {}
  }

  lemma {:induction false} IslandMeans(r: CoverageRecord)
    requires r.capability == "opening_hours_snapshot_ready"
    ensures IslandSnapshot(r) <==> Full(r) && WholeIsland(r)
  {
  }

  lemma {:induction false} SnapshotPosition(records: seq<CoverageRecord>) returns (i: nat)
    requires Snapshots(records) != []
    ensures i < |records| && records[i].capability == "opening_hours_snapshot_ready" && records[i] == Snapshots(records)[0]
  {
    if records[0].capability == "opening_hours_snapshot_ready" {
      i := 0;
    } else {
      var k := SnapshotPosition(records[1..]);
      i := k + 1;
    }
  }

  lemma {:induction false} ActivationMeans(table: Capabilities, source: SourceId, records: seq<CoverageRecord>)
    ensures ActivationAccepted(table, source, records) <==> MayActivate(table, source, records)
  {
    forall r ensures Full(r) <==> Clean(r) {}
    if source == PLACE_INTRO {
      if |Snapshots(records)| == 1 {
        var i := SnapshotPosition(records);
        SnapshotsCount(records, i);
        IslandMeans(records[i]);
      }
      if i :| 0 <= i < |records| && OnlySnapshot(records, i) && IslandSnapshot(records[i]) {
        SnapshotsCount(records, i);
        IslandMeans(records[i]);
      }
    }
  }

  /** Every stored row is vouched for by its publication's source and, outside the place
      introductions, clean; an activated place introduction has its island snapshot. */
  ghost predicate CoverageMeans(table: Capabilities, db: Db) {
    && (forall c :: c in db.coverage ==>
          c.publication in db.publications
          && Vouched(table, db.publications[c.publication].source, c.record)
          && (db.publications[c.publication].source != "tourapi.place-intro" ==> Clean(c.record)))
    && (forall e :: e in db.log && !e.byRollback && e.source == "tourapi.place-intro" ==> HasSnapshot(db, e.publication))
  }

  ghost predicate HasSnapshot(db: Db, p: PublicationId) {
    exists c :: c in db.coverage && c.publication == p && IslandSnapshot(c.record)
  }

  lemma {:induction false} CoverageGrowsWell(table: Capabilities, db: Db, now: Db, p: PublicationId, source: SourceId, records: seq<CoverageRecord>)
    requires CoverageMeans(table, db) && now.publications == db.publications && p in db.publications && db.publications[p].source == source
    requires now.coverage == db.coverage + Coverages(p, records)
    requires forall r :: r in records ==> Vouched(table, source, r) && (source != "tourapi.place-intro" ==> Clean(r))
    requires forall e :: e in now.log && !e.byRollback && e.source == "tourapi.place-intro" ==> e in db.log || (e.publication == p && HasSnapshot(now, p))
    ensures CoverageMeans(table, now)
  {
    forall c | c in now.coverage
      ensures c.publication in now.publications && Vouched(table, now.publications[c.publication].source, c.record)
      ensures now.publications[c.publication].source != "tourapi.place-intro" ==> Clean(c.record)
    {
      if c !in db.coverage {
        assert c in Coverages(p, records);
        assert c.record in records;
      }
    }
    forall e | e in now.log && !e.byRollback && e.source == "tourapi.place-intro" ensures HasSnapshot(now, e.publication) {
      if e in db.log {
        var c :| c in db.coverage && c.publication == e.publication && IslandSnapshot(c.record);
        assert c in now.coverage;
      }
    }
  }

  lemma {:induction false} ActivationGivesSnapshot(db: Db, p: PublicationId, records: seq<CoverageRecord>, i: nat)
    requires i < |records| <= |db.coverage| && IslandSnapshot(records[i])
    requires Coverages(p, records) <= db.coverage[|db.coverage| - |records|..]
    ensures HasSnapshot(db, p)
  {
    var c := Coverages(p, records)[i];
    assert c == db.coverage[|db.coverage| - |records|..][i];
    assert c in db.coverage;
  }

  lemma {:induction false} ActivateKeepsCoverage(table: Capabilities, s: State, tx: TransactionId)
    requires Inv(table, s) && CoverageMeans(table, s.db) && tx in s.running && s.running[tx].ActivateReady? && ActivateCommitted(s, tx).Some?
    ensures CoverageMeans(table, ActivateCommitted(s, tx).value.db)
  {
    var t := s.running[tx];
    assert Holds(table, s.db, t);
    ActivationMeans(table, t.source, t.records);
    var now := ActivateCommitted(s, tx).value.db;
    if t.source == "tourapi.place-intro" {
      var i :| 0 <= i < |t.records| && OnlySnapshot(t.records, i) && IslandSnapshot(t.records[i]);
      assert now.coverage[|now.coverage| - |t.records|..] == Coverages(t.publication, t.records);
      ActivationGivesSnapshot(now, t.publication, t.records, i);
    }
    CoverageGrowsWell(table, s.db, now, t.publication, t.source, t.records);
  }

  lemma {:induction false} AppendKeepsCoverage(table: Capabilities, s: State, tx: TransactionId)
    requires Inv(table, s) && CoverageMeans(table, s.db) && tx in s.running && s.running[tx].AppendSourceLocked? && AppendCommitted(table, s, tx).Some?
    ensures CoverageMeans(table, AppendCommitted(table, s, tx).value.db)
  {
    var t := s.running[tx];
    assert Holds(table, s.db, t);
    AppendMeans(table, t.source, t.records);
    CoverageGrowsWell(table, s.db, AppendCommitted(table, s, tx).value.db, t.publication, t.source, t.records);
  }

  /** Other steps change neither coverage nor activations, and keep publications. */
  lemma {:induction false} OthersKeepCoverage(table: Capabilities, s: State, action: Action)
    requires Next(table, s, action).Some? && !action.CommitActivate? && !action.CommitAppend? && CoverageMeans(table, s.db)
    ensures CoverageMeans(table, Next(table, s, action).value.db)
  {
    var now := Next(table, s, action).value.db;
    PublicationsStay(table, s, action);
    assert now.coverage == s.db.coverage;
    forall e | e in now.log && !e.byRollback && e.source == "tourapi.place-intro" ensures HasSnapshot(now, e.publication) {
      assert e in s.db.log;
      var c :| c in s.db.coverage && c.publication == e.publication && IslandSnapshot(c.record);
      assert c in now.coverage;
    }
  }

  /** So it is after every run. */
  lemma {:induction false} CoverageIsMeant(table: Capabilities, actions: seq<Action>)
    requires Run(table, actions).Some?
    ensures CoverageMeans(table, Run(table, actions).value.db)
  {
    if actions != [] {
      var front, last := actions[..|actions| - 1], actions[|actions| - 1];
      CoverageIsMeant(table, front);
      RunKeeps(table, front);
      var s := Run(table, front).value;
      if last.CommitActivate? {
        ActivateKeepsCoverage(table, s, last.tx);
      } else if last.CommitAppend? {
        AppendKeepsCoverage(table, s, last.tx);
      } else {
        OthersKeepCoverage(table, s, last);
      }
    }
  }

  /** Main result on the rows, after any run: an acquisition has a publication exactly when STAGED or
      PUBLISHED, and then one; it carries the day and checksum of the acquisition; no two publications
      are of acquisitions that agree on source, day and checksum; a NO_CHANGE acquisition agrees with
      one that has a publication; coverage is vouched for, and outside the place introductions clean. */
  lemma {:induction false} StoredRowsAreConsistent(table: Capabilities, actions: seq<Action>, db: Db)
    requires Run(table, actions).Some? && db == Run(table, actions).value.db
    ensures forall a :: a in db.acquisitions ==> (IsOut(db, a) <==> db.acquisitions[a].status == Staged || db.acquisitions[a].status == Published)
    ensures forall p, r :: p in db.publications && r in db.publications && db.publications[p].acquisition == db.publications[r].acquisition ==> p == r
    ensures forall p :: p in db.publications ==>
              db.publications[p].acquisition in db.acquisitions
              && db.publications[p].source == db.acquisitions[db.publications[p].acquisition].source
              && VersionAs(db.acquisitions[db.publications[p].acquisition], db.publications[p].version)
    ensures forall a, b :: a in db.acquisitions && b in db.acquisitions && a != b && IsOut(db, a) && IsOut(db, b)
              ==> !Alike(db.acquisitions[a], db.acquisitions[b])
    ensures forall a :: a in db.acquisitions && db.acquisitions[a].status == NoChange ==> exists p :: TwinOf(db, a, p)
    ensures CoverageMeans(table, db)
  {
    RunKeeps(table, actions);
    VersionsAreOfTheData(table, actions, db);
    CoverageIsMeant(table, actions);
    LifecycleResults.RowsAreConsistent(table, actions);
    forall a | a in db.acquisitions ensures IsOut(db, a) <==> db.acquisitions[a].status == Staged || db.acquisitions[a].status == Published {
      OutIffStored(db, a);
    }
    forall p, r | p in db.publications && r in db.publications && db.publications[p].acquisition == db.publications[r].acquisition ensures p == r {
      assert PublicationFor(db, db.publications[p].acquisition, p) && PublicationFor(db, db.publications[p].acquisition, r);
    }
    forall a | a in db.acquisitions && db.acquisitions[a].status == NoChange ensures exists p :: TwinOf(db, a, p) {
      var p :| SameVersion(db, p, db.acquisitions[a].source, VersionOf(db.acquisitions[a]));
      TwinMeans(db, a, p);
    }
  }

  lemma {:induction false} OutIffStored(db: Db, a: AcquisitionId)
    ensures IsOut(db, a) <==> Stored(db, a)
  {
    if p :| p in db.publications && db.publications[p].acquisition == a {
      assert PublicationFor(db, a, p);
    }
  }
}
