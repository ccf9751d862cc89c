/** What the lifecycle guarantees after any run. */
module LifecycleResults {
  import opened Common
  import opened Lifecycle
  import opened LifecycleInvariant
  import opened LifecycleSafety

  // ------------------------------------------------------------------ after any run

  /** The activation log is a faithful audit trail: replaying a source's events gives its active
      publication, each event links to the publication that was active before it, and the active
      publication always belongs to its source. */
  lemma {:induction false} LogIsAuditTrail(table: Capabilities, actions: seq<Action>, source: SourceId)
    requires Run(table, actions).Some?
    ensures var db := Run(table, actions).value.db;
            && Replayed(db.log, source) == ActiveOf(db, source)
            && (forall i :: 0 <= i < |db.log| ==> db.log[i].previous == Replayed(db.log[..i], db.log[i].source))
            && (source in db.active ==> db.active[source] in db.publications && db.publications[db.active[source]].source == source)
  {
    RunKeeps(table, actions);
    var db := Run(table, actions).value.db;
    ReplayedIsAnEvent(db.log, source);
  }

  lemma {:induction false} ReplayedIsAnEvent(log: seq<Event>, source: SourceId)
    ensures Replayed(log, source).Some? ==> exists i :: 0 <= i < |log| && log[i].source == source && log[i].publication == Replayed(log, source).value
  {
    if log != [] && log[|log| - 1].source != source {
      ReplayedIsAnEvent(log[..|log| - 1], source);
      if Replayed(log, source).Some? {
        var i :| 0 <= i < |log| - 1 && log[..|log| - 1][i].source == source && log[..|log| - 1][i].publication == Replayed(log, source).value;
        assert log[i].source == source;
      }
    }
  }

  /** The active publication's acquisition is PUBLISHED exactly when `publish_coverage` has
      activated that publication at some time; so always, when nothing was ever rolled back. */
  lemma {:induction false} ActiveIsPublishedIff(table: Capabilities, actions: seq<Action>, source: SourceId)
    requires Run(table, actions).Some? && source in Run(table, actions).value.db.active
    ensures var db := Run(table, actions).value.db;
            && (IsPublished(db, db.active[source]) <==> WasActivated(db, db.active[source]))
            && ((forall i :: 0 <= i < |db.log| ==> !db.log[i].byRollback) ==> IsPublished(db, db.active[source]))
  {
    RunKeeps(table, actions);
    LogIsAuditTrail(table, actions, source);
    var db := Run(table, actions).value.db;
    if forall i :: 0 <= i < |db.log| ==> !db.log[i].byRollback {
      ReplayedIsAnEvent(db.log, source);
      var i :| 0 <= i < |db.log| && db.log[i].source == source && db.log[i].publication == db.active[source];
      assert Activates(db.log[i], db.active[source]);
    }
  }

  /** Two results for one acquisition name one publication, however the runs interleave, and at
      most the first created it. */
  lemma {:induction false} PublishIsIdempotent(table: Capabilities, actions: seq<Action>, i: nat, j: nat)
    requires Run(table, actions).Some? && i < j < |Run(table, actions).value.returned|
    requires Run(table, actions).value.returned[i].acquisition == Run(table, actions).value.returned[j].acquisition
    ensures Run(table, actions).value.returned[i].publication == Run(table, actions).value.returned[j].publication
    ensures !Run(table, actions).value.returned[j].created
  {
    RunKeeps(table, actions);
    var s := Run(table, actions).value;
    assert ReturnSound(s.db, s.returned[i]) && ReturnSound(s.db, s.returned[j]);
  }

  /** Publishing an acquisition that has a result already, once both locks are taken: it succeeds
      exactly when the acquisition is not NO_CHANGE, it can only return the publication of that
      result, it does, and it writes nothing. */
  lemma {:induction false} PublishRepeatsIff(table: Capabilities, actions: seq<Action>, s: State, tx: TransactionId, r: Returned)
    requires Run(table, actions) == Some(s) && tx in s.running && s.running[tx].PublishSourceLocked?
    requires r in s.returned && r.acquisition == s.running[tx].acquisition
    ensures r.acquisition in s.db.acquisitions
    ensures (exists p :: Next(table, s, CommitPublish(tx, p)).Some?) <==> s.db.acquisitions[r.acquisition].status != NoChange
    ensures forall p :: Next(table, s, CommitPublish(tx, p)).Some? ==> p == r.publication
    ensures s.db.acquisitions[r.acquisition].status != NoChange ==>
              Next(table, s, CommitPublish(tx, r.publication))
              == Some(Ended(s, tx).(returned := s.returned + [Returned(r.acquisition, r.publication, false)]))
  {
    RunKeeps(table, actions);
    RepeatCommits(table, s, tx, r);
    if s.db.acquisitions[r.acquisition].status != NoChange {
      assert Next(table, s, CommitPublish(tx, r.publication)).Some?;
    }
  }

  lemma {:induction false} RepeatCommits(table: Capabilities, s: State, tx: TransactionId, r: Returned)
    requires Inv(table, s) && tx in s.running && s.running[tx].PublishSourceLocked?
    requires r in s.returned && r.acquisition == s.running[tx].acquisition
    ensures r.acquisition in s.db.acquisitions
    ensures forall p :: PublishCommitted(s, tx, p) ==
              if s.db.acquisitions[r.acquisition].status != NoChange && p == r.publication
              then Some(Ended(s, tx).(returned := s.returned + [Returned(r.acquisition, r.publication, false)])) else None
  {
    assert Holds(table, s.db, s.running[tx]) && ReturnSound(s.db, r);
  }

  /** An acquisition has exactly one publication when it is STAGED or PUBLISHED and none
      otherwise; a source never publishes one dataset version twice; a NO_CHANGE acquisition has
      a twin; and coverage outside the place introductions is full. */
  lemma {:induction false} RowsAreConsistent(table: Capabilities, actions: seq<Action>)
    requires Run(table, actions).Some?
    ensures var db := Run(table, actions).value.db;
            && (forall a :: a in db.acquisitions ==> (HasPublication(db.acquisitions[a].status) <==> Stored(db, a)))
            && (forall a, p, q :: PublicationFor(db, a, p) && PublicationFor(db, a, q) ==> p == q)
            && (forall p, q, source, version :: SameVersion(db, p, source, version) && SameVersion(db, q, source, version) ==> p == q)
            && NoChangeHasTwin(db)
            && (forall c :: c in db.coverage ==> c.publication in db.publications && (db.publications[c.publication].source != PLACE_INTRO ==> Full(c.record)))
  {
    RunKeeps(table, actions);
    var db := Run(table, actions).value.db;
    forall a | a in db.acquisitions && Stored(db, a) ensures HasPublication(db.acquisitions[a].status) {
      var p :| PublicationFor(db, a, p);
    }
    forall c | c in db.coverage ensures c.publication in db.publications && (db.publications[c.publication].source != PLACE_INTRO ==> Full(c.record)) {
      assert CoverageRowSound(db, c);
    }
  }

  // ------------------------------------------------------------------ statuses only move forward

  predicate MayBecome(a: Status, b: Status) {
    || a == b
    || (a == Acquired && (b == Validated || b == QualityFailed))
    || (a == Validated && (b == Staged || b == NoChange))
    || (a == Staged && b == Published)
  }

  function Rank(status: Status): nat {
    match status
    case Incomplete => 3
    case Acquired => 0
    case Validated => 1
    case Staged => 2
    case QualityFailed => 3
    case NoChange => 3
    case Published => 3
  }

  lemma {:induction false} StepMovesForward(table: Capabilities, s: State, action: Action, a: AcquisitionId)
    requires Inv(table, s) && Next(table, s, action).Some? && a in s.db.acquisitions
    ensures a in Next(table, s, action).value.db.acquisitions
    ensures MayBecome(s.db.acquisitions[a].status, Next(table, s, action).value.db.acquisitions[a].status)
  {
    if action.CommitPublish? {
      assert Holds(table, s.db, s.running[action.tx]);
    }
  }

  lemma {:induction false} LastActionMovesForward(table: Capabilities, actions: seq<Action>, action: Action, a: AcquisitionId)
    requires Run(table, actions + [action]).Some?
    ensures Run(table, actions).Some?
    ensures a in Run(table, actions).value.db.acquisitions ==>
              && a in Run(table, actions + [action]).value.db.acquisitions
              && MayBecome(Run(table, actions).value.db.acquisitions[a].status, Run(table, actions + [action]).value.db.acquisitions[a].status)
  {
    assert (actions + [action])[..|actions|] == actions;
    RunKeeps(table, actions);
    if a in Run(table, actions).value.db.acquisitions {
      StepMovesForward(table, Run(table, actions).value, action, a);
    }
  }

  /** Over any run from any point on, statuses only move forward: in particular a PUBLISHED,
      NO_CHANGE, QUALITY_FAILED or INCOMPLETE acquisition keeps its status for ever. */
  lemma {:induction false} StatusesMoveForward(table: Capabilities, early: seq<Action>, late: seq<Action>, a: AcquisitionId)
    requires Run(table, early).Some? && Run(table, early + late).Some? && a in Run(table, early).value.db.acquisitions
    ensures a in Run(table, early + late).value.db.acquisitions
    ensures var x, y := Run(table, early).value.db.acquisitions[a].status, Run(table, early + late).value.db.acquisitions[a].status;
            Rank(x) <= Rank(y) && (Rank(x) == Rank(y) ==> x == y)
  {
    if late == [] {
      assert early + late == early;
    } else {
      var front, last := late[..|late| - 1], late[|late| - 1];
      assert early + late == (early + front) + [last];
      LastActionMovesForward(table, early + front, last, a);
      StatusesMoveForward(table, early, front, a);
    }
  }
}
