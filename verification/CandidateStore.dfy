/** The in-memory store of generated candidates: entries with deadlines, one timer per entry, and
    timers that may fire late or after they were cancelled. Times are whole ticks of one clock. */
module CandidateStore {
  import opened Common

  type CandidateId = string

  datatype Payload = Payload(candidateId: CandidateId, body: string)

  datatype Item = Item(deadline: int, payload: Payload)

  /** What a started timer will ask to expire. */
  datatype Timer = Timer(candidateId: CandidateId, deadline: int)

  /** The two dictionaries, and every timer ever started. */
  datatype Contents = Contents(items: map<CandidateId, Item>, timers: map<CandidateId, Timer>, started: set<Timer>)

  /** Twenty-three hours and fifty minutes, in seconds. */
  const MAX_TTL := 23 * 3600 + 50 * 60

  function Min(a: int, b: int): int {
    if a <= b then a else b
  }

  // ------------------------------------------------------------------ the operations on contents

  function Without(c: Contents, id: CandidateId): Contents {
    c.(items := c.items - {id}, timers := c.timers - {id})
  }

  /** The deadline a put would set: no later than the time to live, the evidence, or before. */
  function Deadline(c: Contents, ttl: int, id: CandidateId, remaining: int, now: int): int {
    var latest := now + Min(ttl, remaining);
    if id in c.items then Min(latest, c.items[id].deadline) else latest
  }

  function PutResult(c: Contents, ttl: int, payload: Payload, remaining: int, now: int): (bool, Contents) {
    var id, deadline := payload.candidateId, Deadline(c, ttl, payload.candidateId, remaining, now);
    if deadline <= now then (false, Without(c, id))
    else
      (true, Contents(c.items[id := Item(deadline, payload)], c.timers[id := Timer(id, deadline)], c.started + {Timer(id, deadline)}))
  }

  function ExpireResult(c: Contents, t: Timer): Contents {
    if t.candidateId in c.items && c.items[t.candidateId].deadline == t.deadline then Without(c, t.candidateId) else c
  }

  /** A lookup with a clock reading taken before the lock. */
  function GetResult(c: Contents, id: CandidateId, reading: int): (Option<Payload>, Contents) {
    if id !in c.items then (None, c)
    else if c.items[id].deadline <= reading then (None, Without(c, id))
    else (Some(c.items[id].payload), c)
  }

  // ------------------------------------------------------------------ what the operations mean

  /** Nothing about other ids changes. */
  ghost predicate OthersStay(c: Contents, now: Contents, id: CandidateId) {
    forall other :: other != id ==>
      && (other in now.items <==> other in c.items) && (other in c.items ==> now.items[other] == c.items[other])
      && (other in now.timers <==> other in c.timers) && (other in c.timers ==> now.timers[other] == c.timers[other])
  }

  /** A put is stored exactly when time to live, evidence and, if there is one, the earlier entry all
      reach past the present. Its deadline is the earliest of the three, and its timer has it too; a
      refused put removes the earlier entry. */
  lemma {:induction false} PutMeans(c: Contents, ttl: int, payload: Payload, remaining: int, now: int)
    ensures var (stored, after) := PutResult(c, ttl, payload, remaining, now);
            var id := payload.candidateId;
            && OthersStay(c, after, id)
            && (stored <==> ttl > 0 && remaining > 0 && (id in c.items ==> now < c.items[id].deadline))
            && (!stored ==> id !in after.items && id !in after.timers && after.started == c.started)
            && (stored ==>
                  && id in after.items && after.items[id].payload == payload
                  && var deadline := after.items[id].deadline;
                     && deadline <= now + ttl && deadline <= now + remaining && (id in c.items ==> deadline <= c.items[id].deadline)
                     && (deadline == now + ttl || deadline == now + remaining || (id in c.items && deadline == c.items[id].deadline))
                     && id in after.timers && after.timers[id] == Timer(id, deadline) && after.started == c.started + {Timer(id, deadline)})
  {
  }

  /** A lookup finds what is there and not due at its reading; it removes what is due. A timer
      removes the entry of its id and deadline, and no other. */
  lemma {:induction false} LookupAndTimerMean(c: Contents, id: CandidateId, reading: int, t: Timer)
    ensures var (found, after) := GetResult(c, id, reading);
            && OthersStay(c, after, id) && after.started == c.started
            && (found.Some? <==> id in c.items && reading < c.items[id].deadline)
            && (found.Some? ==> found.value == c.items[id].payload && after == c)
            && (found.None? ==> id !in after.items && (id in c.items ==> id !in after.timers) && (id !in c.items ==> after == c))
    ensures var after := ExpireResult(c, t);
            && OthersStay(c, after, t.candidateId) && after.started == c.started
            && if t.candidateId in c.items && c.items[t.candidateId].deadline == t.deadline
               then t.candidateId !in after.items && t.candidateId !in after.timers else after == c
  {
  }

  /** Deleting removes the entry and its timer. */
  lemma {:induction false} WithoutMeans(c: Contents, id: CandidateId)
    ensures var after := Without(c, id);
            OthersStay(c, after, id) && id !in after.items && id !in after.timers && after.started == c.started
  {
  }

  // ------------------------------------------------------------------ the store as it is

  class Store {
    const ttl: int
    var items: map<CandidateId, Item>
    var timers: map<CandidateId, Timer>
    ghost var started: set<Timer>

    constructor (ttl: int)
      requires 0 < ttl <= MAX_TTL
      ensures Abs() == Contents(map[], map[], {}) && this.ttl == ttl
    {
      this.ttl := ttl;
      items, timers, started := map[], map[], {};
    }

    ghost function Abs(): Contents
      reads this
    {
      Contents(items, timers, started)
    }

    method Remove(id: CandidateId)
      modifies this
      ensures Abs() == Without(old(Abs()), id)
    {
      items := items - {id};
      timers := timers - {id};
    }

    /** `false` stands for the raised CandidateEvidenceUnavailable. */
    method Put(payload: Payload, remaining: int, now: int) returns (stored: bool)
      modifies this
      ensures (stored, Abs()) == PutResult(old(Abs()), ttl, payload, remaining, now)
    {
      var id := payload.candidateId;
      var deadline := now + Min(ttl, remaining);
      if id in items {
        deadline := Min(deadline, items[id].deadline);
      }
      Remove(id);
      if deadline <= now {
        return false;
      }
      items := items[id := Item(deadline, payload)];
      timers := timers[id := Timer(id, deadline)];
      started := started + {Timer(id, deadline)};
      assert items == old(items)[id := Item(deadline, payload)] && timers == old(timers)[id := Timer(id, deadline)];
      return true;
    }

    method Expire(t: Timer)
      modifies this
      ensures Abs() == ExpireResult(old(Abs()), t)
    {
      if t.candidateId in items && items[t.candidateId].deadline == t.deadline {
        Remove(t.candidateId);
      }
    }

    method Get(id: CandidateId, reading: int) returns (found: Option<Payload>)
      modifies this
      ensures (found, Abs()) == GetResult(old(Abs()), id, reading)
    {
      if id !in items {
        return None;
      }
      var item := items[id];
      if item.deadline <= reading {
        Remove(id);
        return None;
      }
      return Some(item.payload);
    }

    method Delete(id: CandidateId)
      modifies this
      ensures Abs() == Without(old(Abs()), id)
    {
      Remove(id);
    }

    method Clear()
      modifies this
      ensures Abs() == Contents(map[], map[], old(started))
    {
      items := map[];
      timers := map[];
    }
  }

  datatype StoreError = TtlOutOfRange

  method NewStore(ttl: int) returns (r: Result<Store, StoreError>)
    ensures r.Ok? <==> 0 < ttl <= 85_800
    ensures r.Ok? ==> r.value.Abs() == Contents(map[], map[], {}) && r.value.ttl == ttl
  {
    if ttl <= 0 || ttl > MAX_TTL {
      return Err(TtlOutOfRange);
    }
    var store := new Store(ttl);
    return Ok(store);
  }

  // ------------------------------------------------------------------ every interleaving

  /** One locked operation, or time passing. A lookup carries the reading it took earlier; a timer
      fires at or after its deadline, even when it was cancelled meanwhile. */
  datatype Event =
    | Putting(payload: Payload, remaining: int)
    | Getting(id: CandidateId, reading: int)
    | Firing(timer: Timer)
    | Deleting(id: CandidateId)
    | Clearing
    | Passing(ticks: nat)

  datatype Moment = Moment(contents: Contents, clock: int)

  predicate Enabled(m: Moment, e: Event) {
    match e
    case Getting(_, reading) => reading <= m.clock
    case Firing(t) => t in m.contents.started && t.deadline <= m.clock
    case _ => true
  }

  function After(ttl: int, m: Moment, e: Event): Moment {
    match e
    case Putting(payload, remaining) => m.(contents := PutResult(m.contents, ttl, payload, remaining, m.clock).1)
    case Getting(id, reading) => m.(contents := GetResult(m.contents, id, reading).1)
    case Firing(t) => m.(contents := ExpireResult(m.contents, t))
    case Deleting(id) => m.(contents := Without(m.contents, id))
    case Clearing => m.(contents := Contents(map[], map[], m.contents.started))
    case Passing(ticks) => m.(clock := m.clock + ticks)
  }

  ghost predicate StepOf(ttl: int, moments: seq<Moment>, events: seq<Event>, i: nat)
    requires i < |events| && |moments| == |events| + 1
  {
    Enabled(moments[i], events[i]) && moments[i + 1] == After(ttl, moments[i], events[i])
  }

  ghost predicate Run(ttl: int, moments: seq<Moment>, events: seq<Event>) {
    && |moments| == |events| + 1 && moments[0].contents == Contents(map[], map[], {})
    && forall i :: 0 <= i < |events| ==> StepOf(ttl, moments, events, i)
  }

  /** Each entry has exactly one timer, with its id and deadline, that was started. */
  ghost predicate Consistent(c: Contents) {
    && c.items.Keys == c.timers.Keys
    && forall id :: id in c.items ==>
         c.items[id].payload.candidateId == id && c.timers[id] == Timer(id, c.items[id].deadline) && c.timers[id] in c.started
  }

  lemma {:induction false} StepKeepsConsistent(ttl: int, m: Moment, e: Event)
    requires Consistent(m.contents)
    ensures Consistent(After(ttl, m, e).contents)
  {
  }

  lemma {:induction false} RunsStayConsistent(ttl: int, moments: seq<Moment>, events: seq<Event>, i: nat)
    requires Run(ttl, moments, events) && i < |moments|
    ensures Consistent(moments[i].contents)
  {
    if i > 0 {
      RunsStayConsistent(ttl, moments, events, i - 1);
      assert StepOf(ttl, moments, events, i - 1);
      StepKeepsConsistent(ttl, moments[i - 1], events[i - 1]);
    }
  }

  predicate Present(m: Moment, id: CandidateId) {
    id in m.contents.items
  }

  function DeadlineAt(m: Moment, id: CandidateId): int
    requires Present(m, id)
  {
    m.contents.items[id].deadline
  }

  lemma {:induction false} StepNeverDelays(ttl: int, m: Moment, e: Event, id: CandidateId)
    requires Present(m, id) && Present(After(ttl, m, e), id)
    ensures DeadlineAt(After(ttl, m, e), id) <= DeadlineAt(m, id)
  {
  }

  /** While an entry stays present its deadline never moves later, however often it is put again. */
  lemma {:induction false} DeadlinesNeverMoveLater(ttl: int, moments: seq<Moment>, events: seq<Event>, i: nat, j: nat, id: CandidateId)
    requires Run(ttl, moments, events) && i <= j < |moments|
    requires forall k :: i <= k <= j ==> Present(moments[k], id)
    ensures DeadlineAt(moments[j], id) <= DeadlineAt(moments[i], id)
  {
    if i < j {
      DeadlinesNeverMoveLater(ttl, moments, events, i, j - 1, id);
      assert StepOf(ttl, moments, events, j - 1);
      StepNeverDelays(ttl, moments[j - 1], events[j - 1], id);
    }
  }

  /** An entry disappears only when asked to, when a put finds its evidence used up, or at or after
      its own deadline: a timer of an earlier entry cannot take it. */
  lemma {:induction false} LeavesOnlyInTime(ttl: int, m: Moment, e: Event, id: CandidateId)
    requires ttl > 0 && Consistent(m.contents) && Enabled(m, e)
    requires Present(m, id) && !Present(After(ttl, m, e), id)
    ensures DeadlineAt(m, id) <= m.clock
            || e == Deleting(id) || e == Clearing || (e.Putting? && e.payload.candidateId == id && e.remaining <= 0)
  {
  }

  /** A stored entry outlives neither its time to live nor its evidence, and is not yet due. */
  lemma {:induction false} StoredWithinLimits(ttl: int, m: Moment, payload: Payload, remaining: int)
    requires PutResult(m.contents, ttl, payload, remaining, m.clock).0
    ensures var now := After(ttl, m, Putting(payload, remaining));
            && Present(now, payload.candidateId) && now.contents.items[payload.candidateId].payload == payload
            && m.clock < DeadlineAt(now, payload.candidateId) <= m.clock + Min(ttl, remaining)
            && forall id :: id != payload.candidateId ==>
                 (Present(now, id) <==> Present(m, id)) && (Present(m, id) ==> now.contents.items[id] == m.contents.items[id])
  {
  }

  lemma {:induction false} StepNeverOverdue(ttl: int, m: Moment, e: Event, id: CandidateId, bound: int)
    requires Enabled(m, e) && (Present(m, id) ==> DeadlineAt(m, id) <= bound)
    requires !(e.Putting? && e.payload.candidateId == id && !Present(m, id))
    ensures Present(After(ttl, m, e), id) ==> DeadlineAt(After(ttl, m, e), id) <= bound
  {
  }

  /** After a put, and until the id is newly put again, no lookup with a reading at or past the
      deadline finds it, whatever happens in between. */
  lemma {:induction false} NeverFoundPastDeadline(ttl: int, moments: seq<Moment>, events: seq<Event>, i: nat, j: nat, id: CandidateId, reading: int)
    requires Run(ttl, moments, events) && i <= j < |moments| && Present(moments[i], id)
    requires forall k :: i <= k < j ==> !(events[k].Putting? && events[k].payload.candidateId == id && !Present(moments[k], id))
    requires DeadlineAt(moments[i], id) <= reading
    ensures GetResult(moments[j].contents, id, reading).0 == None
  {
    BoundedUntil(ttl, moments, events, i, j, id);
  }

  lemma {:induction false} BoundedUntil(ttl: int, moments: seq<Moment>, events: seq<Event>, i: nat, j: nat, id: CandidateId)
    requires Run(ttl, moments, events) && i <= j < |moments| && Present(moments[i], id)
    requires forall k :: i <= k < j ==> !(events[k].Putting? && events[k].payload.candidateId == id && !Present(moments[k], id))
    ensures Present(moments[j], id) ==> DeadlineAt(moments[j], id) <= DeadlineAt(moments[i], id)
  {
    if i < j {
      BoundedUntil(ttl, moments, events, i, j - 1, id);
      assert StepOf(ttl, moments, events, j - 1);
      StepNeverOverdue(ttl, moments[j - 1], events[j - 1], id, DeadlineAt(moments[i], id));
    }
  }

  // ------------------------------------------------------------------ what a lookup may return

  predicate Touches(e: Event, id: CandidateId) {
    e == Clearing || e == Deleting(id) || (e.Putting? && e.payload.candidateId == id)
  }

  /** The entry at moment `i` was stored by event `j`, the last that put, deleted or cleared it. */
  ghost predicate StoredBy(ttl: int, moments: seq<Moment>, events: seq<Event>, i: nat, j: nat, id: CandidateId)
    requires |moments| == |events| + 1 && i < |moments|
  {
    && j < i && Present(moments[i], id)
    && events[j].Putting? && events[j].payload == moments[i].contents.items[id].payload && events[j].payload.candidateId == id
    && DeadlineAt(moments[i], id) <= moments[j].clock + Min(ttl, events[j].remaining)
    && forall k :: j < k < i ==> !Touches(events[k], id)
  }

  lemma {:induction false} StepStores(ttl: int, m: Moment, e: Event, id: CandidateId)
    requires Consistent(m.contents) && Present(After(ttl, m, e), id)
    ensures if e.Putting? && e.payload.candidateId == id
            then After(ttl, m, e).contents.items[id].payload == e.payload && DeadlineAt(After(ttl, m, e), id) <= m.clock + Min(ttl, e.remaining)
            else Present(m, id) && After(ttl, m, e).contents.items[id] == m.contents.items[id] && !Touches(e, id)
  {
  }

  lemma {:induction false} PresentWasPut(ttl: int, moments: seq<Moment>, events: seq<Event>, i: nat, id: CandidateId) returns (j: nat)
    requires Run(ttl, moments, events) && i < |moments| && Present(moments[i], id)
    ensures StoredBy(ttl, moments, events, i, j, id)
  {
    assert StepOf(ttl, moments, events, i - 1);
    RunsStayConsistent(ttl, moments, events, i - 1);
    StepStores(ttl, moments[i - 1], events[i - 1], id);
    if events[i - 1].Putting? && events[i - 1].payload.candidateId == id {
      j := i - 1;
    } else {
      j := PresentWasPut(ttl, moments, events, i - 1, id);
    }
  }

  predicate Due(m: Moment, id: CandidateId) {
    Present(m, id) && DeadlineAt(m, id) <= m.clock
  }

  /** In every run, a lookup that finds something returns the payload of the last put of its id,
      which nothing deleted or cleared since, and it took its reading before that put's time to
      live and evidence ran out. What it returns is already due exactly when the deadline has
      passed between the reading and the lock; so never when the reading is fresh. */
  lemma {:induction false} LookupInRun(ttl: int, moments: seq<Moment>, events: seq<Event>, i: nat, payload: Payload)
    requires Run(ttl, moments, events) && i < |events| && events[i].Getting?
    requires GetResult(moments[i].contents, events[i].id, events[i].reading).0 == Some(payload)
    ensures exists j: nat :: StoredBy(ttl, moments, events, i, j, events[i].id) && events[j].payload == payload
                        && events[i].reading < moments[j].clock + Min(ttl, events[j].remaining)
    ensures Due(moments[i], events[i].id) <==> events[i].reading < DeadlineAt(moments[i], events[i].id) <= moments[i].clock
    ensures events[i].reading == moments[i].clock ==> !Due(moments[i], events[i].id)
  {
    var j := PresentWasPut(ttl, moments, events, i, events[i].id);
  }

  /** A run in which a lookup waits for the lock while a deadline passes and then returns an entry
      that is due. */
  lemma {:induction false} LookupCanBeOverdue(ttl: int, payload: Payload) returns (moments: seq<Moment>, events: seq<Event>)
    requires 0 < ttl <= MAX_TTL
    ensures Run(ttl, moments, events) && |events| == 3 && events[2] == Getting(payload.candidateId, 0)
    ensures GetResult(moments[2].contents, payload.candidateId, 0).0 == Some(payload) && Due(moments[2], payload.candidateId)
  {
    var m0 := Moment(Contents(map[], map[], {}), 0);
    events := [Putting(payload, 1), Passing(1), Getting(payload.candidateId, 0)];
    var m1 := After(ttl, m0, events[0]);
    var m2 := After(ttl, m1, events[1]);
    moments := [m0, m1, m2, After(ttl, m2, events[2])];
    assert StepOf(ttl, moments, events, 0) && StepOf(ttl, moments, events, 1) && StepOf(ttl, moments, events, 2);
  }
}
