/** Deadlocks of the lifecycle's two kinds of locks: when they exist, that they stay, and how a
    caller rules them out. */
module LifecycleLocks {
  import opened Common
  import opened Lifecycle
  import opened LifecycleInvariant
  import opened LifecycleSafety

  // ------------------------------------------------------------------ waiting for locks

  datatype Lock = RowOf(acquisition: AcquisitionId) | SourceOf(source: SourceId)

  predicate HoldsLock(t: Transaction, lock: Lock) {
    match lock
    case RowOf(a) => t.RowLock() == Some(a)
    case SourceOf(source) => t.SourceLock() == Some(source)
  }

  /** The lock a transaction asks for next. */
  function Wants(t: Transaction): Option<Lock> {
    match t
    case PublishBegun(a) => Some(RowOf(a))
    case PublishRowLocked(_, row) => Some(SourceOf(row.source))
    case ActivateFound(_, _, source, _) => Some(SourceOf(source))
    case ActivateSourceLocked(_, _, _, a) => Some(RowOf(a))
    case AppendFound(_, _, source) => Some(SourceOf(source))
    case RollbackBegun(source, _) => Some(SourceOf(source))
    case _ => None
  }

  /** `t` asks for a lock that a member of `d` holds. */
  ghost predicate WaitsInside(s: State, d: set<TransactionId>, t: TransactionId) {
    && t in s.running && Wants(s.running[t]).Some?
    && exists u :: u in d && u in s.running && HoldsLock(s.running[u], Wants(s.running[t]).value)
  }

  /** Every member of the set waits for another one. */
  ghost predicate Deadlocked(s: State, d: set<TransactionId>) {
    d != {} && forall t :: t in d ==> WaitsInside(s, d, t)
  }

  /** `_publish` has locked the acquisition's row and not yet its source; `publish_coverage` has
      locked the source and not yet the row. */
  predicate Crossed(s: State, t: TransactionId, u: TransactionId) {
    && t in s.running && u in s.running
    && s.running[t].PublishRowLocked? && s.running[u].ActivateSourceLocked?
    && s.running[t].acquisition == s.running[u].acquisition
  }

  /** A transaction gets on with the lock it asks for exactly when nobody holds it (and, for the first
      step of `_publish`, the row is there), and then holds that lock besides those it had. */
  lemma {:induction false} GetsWhatItWants(table: Capabilities, s: State, tx: TransactionId, lock: Lock)
    requires tx in s.running && Wants(s.running[tx]) == Some(lock)
    ensures Next(table, s, Proceed(tx)).Some? <==>
            (forall u :: u in s.running ==> !HoldsLock(s.running[u], lock)) && (s.running[tx].PublishBegun? ==> lock.acquisition in s.db.acquisitions)
    ensures Next(table, s, Proceed(tx)).Some? ==>
              forall other :: HoldsLock(Next(table, s, Proceed(tx)).value.running[tx], other) <==> HoldsLock(s.running[tx], other) || other == lock
  {
  }

  /** A call starts without locks, and a step that asks for none changes none. */
  lemma {:induction false} LocksComeOneByOne(table: Capabilities, s: State, tx: TransactionId, lock: Lock)
    requires tx in s.running
    ensures IsStart(s.running[tx]) ==> !HoldsLock(s.running[tx], lock)
    ensures Wants(s.running[tx]) == None && Next(table, s, Proceed(tx)).Some? ==>
              (HoldsLock(Next(table, s, Proceed(tx)).value.running[tx], lock) <==> HoldsLock(s.running[tx], lock))
  {
  }

  /** No lock is ever held twice. */
  lemma {:induction false} OneHolder(table: Capabilities, actions: seq<Action>, s: State, t: TransactionId, u: TransactionId, lock: Lock)
    requires Run(table, actions) == Some(s) && t in s.running && u in s.running
    requires HoldsLock(s.running[t], lock) && HoldsLock(s.running[u], lock)
    ensures t == u
  {
    RunKeeps(table, actions);
  }

  // ------------------------------------------------------------------ when there is a deadlock

  lemma {:induction false} CrossedSameSource(table: Capabilities, db: Db, t: Transaction, u: Transaction)
    requires PublicationsSound(db) && Holds(table, db, t) && Holds(table, db, u)
    requires t.PublishRowLocked? && u.ActivateSourceLocked? && t.acquisition == u.acquisition
    ensures HoldsLock(u, SourceOf(t.row.source)) && HoldsLock(t, RowOf(u.acquisition))
  {
    assert db.publications[u.publication].acquisition == t.acquisition;
  }

  lemma {:induction false} CrossingDeadlocks(table: Capabilities, s: State, t: TransactionId, u: TransactionId)
    requires PublicationsSound(s.db) && AllHold(table, s) && Crossed(s, t, u)
    ensures Deadlocked(s, {t, u})
  {
    CrossedSameSource(table, s.db, s.running[t], s.running[u]);
    assert t in {t, u};
    assert WaitsInside(s, {t, u}, t);
    assert WaitsInside(s, {t, u}, u);
  }

  /** Whoever holds a row and waits is `_publish`; whoever holds a source and waits is
      `publish_coverage`. */
  lemma {:induction false} WhoHoldsAndWaits(t: Transaction, lock: Lock)
    requires HoldsLock(t, lock) && Wants(t).Some?
    ensures if lock.RowOf? then t.PublishRowLocked? && t.acquisition == lock.acquisition else t.ActivateSourceLocked?
  {
  }

  lemma {:induction false} WaitingHolder(s: State, d: set<TransactionId>, t: TransactionId) returns (u: TransactionId)
    requires (forall x :: x in d ==> WaitsInside(s, d, x)) && WaitsInside(s, d, t)
    ensures u in d && u in s.running && WaitsInside(s, d, u) && HoldsLock(s.running[u], Wants(s.running[t]).value)
    ensures if Wants(s.running[t]).value.RowOf? then s.running[u].PublishRowLocked? else s.running[u].ActivateSourceLocked?
  {
    u :| u in d && u in s.running && HoldsLock(s.running[u], Wants(s.running[t]).value);
    WhoHoldsAndWaits(s.running[u], Wants(s.running[t]).value);
  }

  lemma {:induction false} ActivatorWaitsForRow(u: Transaction)
    requires u.ActivateSourceLocked?
    ensures Wants(u) == Some(RowOf(u.acquisition))
  {
  }

  lemma {:induction false} RowHolderCrosses(s: State, d: set<TransactionId>, u: TransactionId) returns (t: TransactionId)
    requires (forall x :: x in d ==> WaitsInside(s, d, x)) && u in s.running && s.running[u].ActivateSourceLocked? && WaitsInside(s, d, u)
    ensures t in d && Crossed(s, t, u)
  {
    var activator := s.running[u];
    ActivatorWaitsForRow(activator);
    t := WaitingHolder(s, d, u);
    var holder := s.running[t];
    WhoHoldsAndWaits(holder, RowOf(activator.acquisition));
  }

  lemma {:induction false} PublisherWaitsForSource(t: Transaction)
    requires t.PublishRowLocked?
    ensures Wants(t) == Some(SourceOf(t.row.source))
  {
  }

  /** Following who waits for whom leads to an activation that has its source. */
  lemma {:induction false} SourceHolder(s: State, d: set<TransactionId>, first: TransactionId) returns (u: TransactionId)
    requires (forall x :: x in d ==> WaitsInside(s, d, x)) && WaitsInside(s, d, first)
    ensures u in d && u in s.running && s.running[u].ActivateSourceLocked? && WaitsInside(s, d, u)
  {
    u := WaitingHolder(s, d, first);
    if !s.running[u].ActivateSourceLocked? {
      PublisherWaitsForSource(s.running[u]);
      u := WaitingHolder(s, d, u);
    }
  }

  lemma {:induction false} Member<T>(d: set<T>) returns (t: T)
    requires d != {}
    ensures t in d
  {
    t :| t in d;
  }

  lemma {:induction false} DeadlockCrosses(s: State, d: set<TransactionId>) returns (t: TransactionId, u: TransactionId)
    requires Deadlocked(s, d)
    ensures t in d && u in d && Crossed(s, t, u)
  {
    var first := Member(d);
    u := SourceHolder(s, d, first);
    t := RowHolderCrosses(s, d, u);
  }

  lemma {:induction false} RunHolds(table: Capabilities, actions: seq<Action>)
    requires Run(table, actions).Some?
    ensures PublicationsSound(Run(table, actions).value.db) && AllHold(table, Run(table, actions).value)
  {
    RunKeeps(table, actions);
  }

  /** After any run there is a deadlock exactly when one acquisition is being published and
      activated at once and each of the two has its first lock. */
  lemma {:induction false} DeadlockIff(table: Capabilities, actions: seq<Action>, s: State)
    requires Run(table, actions) == Some(s)
    ensures (exists d :: Deadlocked(s, d)) <==> (exists t, u :: Crossed(s, t, u))
  {
    if d :| Deadlocked(s, d) {
      var t, u := DeadlockCrosses(s, d);
    }
    if t, u :| Crossed(s, t, u) {
      RunHolds(table, actions);
      CrossingDeadlocks(table, s, t, u);
    }
  }

  /** Waiting inside a set of transactions ends only when a member is aborted. */
  lemma {:induction false} OnlyAbortEnds(table: Capabilities, s: State, d: set<TransactionId>, action: Action)
    requires Deadlocked(s, d) && Next(table, s, action).Some?
    requires forall t :: t in d ==> action != Abort(t)
    ensures Deadlocked(Next(table, s, action).value, d)
  {
    var now := Next(table, s, action).value;
    forall t | t in d ensures t in now.running && now.running[t] == s.running[t] {
      assert WaitsInside(s, d, t);
      var u :| u in d && u in s.running && HoldsLock(s.running[u], Wants(s.running[t]).value);
      StaysPut(table, s, t, u, action);
    }
    forall t | t in d ensures WaitsInside(now, d, t) {
      StillWaits(s, now, d, t);
    }
  }

  lemma {:induction false} StillWaits(s: State, now: State, d: set<TransactionId>, t: TransactionId)
    requires WaitsInside(s, d, t) && t in d
    requires forall u :: u in d ==> u in now.running && (u in s.running ==> now.running[u] == s.running[u])
    ensures WaitsInside(now, d, t)
  {
    var u :| u in d && u in s.running && HoldsLock(s.running[u], Wants(s.running[t]).value);
    assert HoldsLock(now.running[u], Wants(now.running[t]).value);
  }

  lemma {:induction false} StaysPut(table: Capabilities, s: State, t: TransactionId, u: TransactionId, action: Action)
    requires t in s.running && u in s.running && Wants(s.running[t]).Some? && HoldsLock(s.running[u], Wants(s.running[t]).value)
    requires Next(table, s, action).Some? && action != Abort(t)
    ensures t in Next(table, s, action).value.running && Next(table, s, action).value.running[t] == s.running[t]
  {
  }

  /** A deadlock stays for ever, whatever else happens, unless a member is aborted. */
  lemma {:induction false} DeadlockStays(table: Capabilities, early: seq<Action>, late: seq<Action>, d: set<TransactionId>)
    requires Run(table, early).Some? && Run(table, early + late).Some? && Deadlocked(Run(table, early).value, d)
    requires forall t :: t in d ==> Abort(t) !in late
    ensures Deadlocked(Run(table, early + late).value, d)
  {
    if late == [] {
      assert early + late == early;
    } else {
      var front, last := late[..|late| - 1], late[|late| - 1];
      assert early + late == (early + front) + [last];
      assert last in late && forall x :: x in front ==> x in late;
      LastStep(table, early + front, last);
      DeadlockStays(table, early, front, d);
      OnlyAbortEnds(table, Run(table, early + front).value, d, last);
    }
  }

  lemma {:induction false} LastStep(table: Capabilities, actions: seq<Action>, action: Action)
    requires Run(table, actions + [action]).Some?
    ensures Run(table, actions).Some? && Next(table, Run(table, actions).value, action) == Run(table, actions + [action])
  {
    assert (actions + [action])[..|actions|] == actions;
  }

  // ------------------------------------------------------------------ how a caller avoids them

  /** The acquisition a `_publish` works on, from its first step. */
  function Publishing(t: Transaction): Option<AcquisitionId> {
    match t
    case PublishBegun(a) => Some(a)
    case PublishRowLocked(a, _) => Some(a)
    case PublishSourceLocked(a, _) => Some(a)
    case _ => None
  }

  /** The publication a `publish_coverage` activates, from its first step. */
  function Activating(t: Transaction): Option<PublicationId> {
    match t
    case ActivateBegun(p, _) => Some(p)
    case ActivateFound(p, _, _, _) => Some(p)
    case ActivateSourceLocked(p, _, _, _) => Some(p)
    case ActivateRowLocked(p, _, _, _) => Some(p)
    case ActivateReady(p, _, _, _, _) => Some(p)
    case _ => None
  }

  /** The two calls concern different acquisitions, as far as anyone can tell. */
  predicate Unrelated(db: Db, t: Transaction, u: Transaction) {
    Publishing(t).Some? && Activating(u).Some? ==>
      Activating(u).value in db.publications && db.publications[Activating(u).value].acquisition != Publishing(t).value
  }

  /** What a caller checks before it starts a call: none that is running concerns the same
      acquisition. */
  predicate MayBegin(s: State, start: Transaction) {
    && (Activating(start).Some? ==> Activating(start).value in s.db.publications)
    && forall u :: u in s.running ==> Unrelated(s.db, start, s.running[u]) && Unrelated(s.db, s.running[u], start)
  }

  ghost predicate AllUnrelated(s: State) {
    && (forall u :: u in s.running && Activating(s.running[u]).Some? ==> Activating(s.running[u]).value in s.db.publications)
    && forall t, u :: t in s.running && u in s.running ==> Unrelated(s.db, s.running[t], s.running[u])
  }

  /** Every call of the run is started with that check. */
  ghost predicate Careful(table: Capabilities, actions: seq<Action>) {
    forall k :: 0 <= k < |actions| && actions[k].Begin? && Run(table, actions[..k]).Some? ==>
      MayBegin(Run(table, actions[..k]).value, actions[k].start)
  }

  /** A transaction keeps to its acquisition or publication. */
  lemma {:induction false} ProceedKeepsSubject(table: Capabilities, s: State, tx: TransactionId)
    requires tx in s.running && ProceedFrom(table, s, tx).Some?
    ensures Publishing(ProceedFrom(table, s, tx).value) == Publishing(s.running[tx])
    ensures Activating(ProceedFrom(table, s, tx).value) == Activating(s.running[tx])
  {
  }

  lemma {:induction false} RunningKeepSubjects(table: Capabilities, s: State, action: Action, t: TransactionId)
    requires Next(table, s, action).Some? && t in Next(table, s, action).value.running
    ensures t in s.running || action == Begin(t, Next(table, s, action).value.running[t])
    ensures t in s.running ==>
              && Publishing(Next(table, s, action).value.running[t]) == Publishing(s.running[t])
              && Activating(Next(table, s, action).value.running[t]) == Activating(s.running[t])
  {
    if action == Proceed(t) {
      ProceedKeepsSubject(table, s, t);
    }
  }

  lemma {:induction false} StepKeepsUnrelated(table: Capabilities, s: State, action: Action, now: State)
    requires AllUnrelated(s) && Next(table, s, action) == Some(now)
    requires action.Begin? ==> MayBegin(s, action.start)
    requires forall p :: p in s.db.publications ==> p in now.db.publications && now.db.publications[p] == s.db.publications[p]
    ensures AllUnrelated(now)
  {
    forall t | t in now.running
      ensures t in s.running || action == Begin(t, now.running[t])
      ensures t in s.running ==> Publishing(now.running[t]) == Publishing(s.running[t]) && Activating(now.running[t]) == Activating(s.running[t])
    {
      RunningKeepSubjects(table, s, action, t);
    }
    forall t, u | t in now.running && u in now.running ensures Unrelated(now.db, now.running[t], now.running[u]) {
      StayUnrelated(s, action, now, t, u);
    }
  }

  lemma {:induction false} StayUnrelated(s: State, action: Action, now: State, t: TransactionId, u: TransactionId)
    requires AllUnrelated(s) && t in now.running && u in now.running
    requires forall p :: p in s.db.publications ==> p in now.db.publications && now.db.publications[p] == s.db.publications[p]
    requires t in s.running || action == Begin(t, now.running[t])
    requires u in s.running || action == Begin(u, now.running[u])
    requires t in s.running ==> Publishing(now.running[t]) == Publishing(s.running[t])
    requires u in s.running ==> Activating(now.running[u]) == Activating(s.running[u])
    requires action.Begin? ==> MayBegin(s, action.start)
    ensures Unrelated(now.db, now.running[t], now.running[u])
  {
    if t in s.running && u in s.running {
      assert Unrelated(s.db, s.running[t], s.running[u]);
    } else if t in s.running {
      assert Unrelated(s.db, s.running[t], now.running[u]);
    } else if u in s.running {
      assert Unrelated(s.db, now.running[t], s.running[u]);
    } else {
      assert t == u;
    }
  }

  lemma {:induction false} PublicationsStay(table: Capabilities, s: State, action: Action)
    requires Next(table, s, action).Some?
    ensures forall p :: p in s.db.publications ==>
              p in Next(table, s, action).value.db.publications && Next(table, s, action).value.db.publications[p] == s.db.publications[p]
  {
  }

  lemma {:induction false} CarefulRunsStayUnrelated(table: Capabilities, actions: seq<Action>)
    requires Run(table, actions).Some? && Careful(table, actions)
    ensures AllUnrelated(Run(table, actions).value)
  {
    if actions != [] {
      var front := actions[..|actions| - 1];
      forall k | 0 <= k < |front| && front[k].Begin? && Run(table, front[..k]).Some? ensures MayBegin(Run(table, front[..k]).value, front[k].start) {
        assert front[..k] == actions[..k];
      }
      CarefulRunsStayUnrelated(table, front);
      RunKeeps(table, front);
      PublicationsStay(table, Run(table, front).value, actions[|actions| - 1]);
      StepKeepsUnrelated(table, Run(table, front).value, actions[|actions| - 1], Run(table, actions).value);
    }
  }

  lemma {:induction false} UnrelatedNeverCross(table: Capabilities, s: State, t: TransactionId, u: TransactionId)
    requires AllHold(table, s) && AllUnrelated(s)
    ensures !Crossed(s, t, u)
  {
    if t in s.running && u in s.running && s.running[u].ActivateSourceLocked? {
      assert Holds(table, s.db, s.running[u]);
      assert Unrelated(s.db, s.running[t], s.running[u]);
    }
  }

  /** Callers that never publish an acquisition while it is being activated, nor activate it
      while it is being published, never meet a deadlock. */
  lemma {:induction false} CarefulCallersNeverDeadlock(table: Capabilities, actions: seq<Action>, d: set<TransactionId>)
    requires Run(table, actions).Some? && Careful(table, actions)
    ensures !Deadlocked(Run(table, actions).value, d)
  {
    var s := Run(table, actions).value;
    RunKeeps(table, actions);
    CarefulRunsStayUnrelated(table, actions);
    if Deadlocked(s, d) {
      var t, u := DeadlockCrosses(s, d);
      UnrelatedNeverCross(table, s, t, u);
    }
  }
}
