/** Replacing a bus that did not come by a taxi: the waited time, the pickup and the drive take the
    transfer's place and everything after moves along. Times are seconds. */
module TaxiRecovery {
  import opened Common

  datatype Mode = Walk | Bus | Taxi

  datatype Kind = Activity | Buffer | Transfer(mode: Mode)

  datatype Item = Item(id: string, kind: Kind, starts: int, ends: int)

  datatype Alternative = Alternative(mode: Mode, feasible: bool, duration: Option<nat>, priced: bool, cited: bool,
                                     pickupBuffer: Option<nat>, driving: Option<nat>)

  datatype Request = Request(waitingForBus: bool, timeline: seq<Item>, currentId: string, checkedAt: int,
                             waitLimit: nat, defaultPickup: nat, alternatives: map<string, seq<Alternative>>)

  // ------------------------------------------------------------------ which transfer, which taxi

  predicate IsCurrentBus(r: Request, item: Item) {
    item.kind == Transfer(Bus) && item.id == r.currentId
  }

  function FirstBus(r: Request, items: seq<Item>): (i: nat)
    ensures i <= |items| && (i < |items| ==> IsCurrentBus(r, items[i]))
    ensures forall k :: 0 <= k < i ==> !IsCurrentBus(r, items[k])
  {
    if items == [] then 0 else if IsCurrentBus(r, items[0]) then 0 else 1 + FirstBus(r, items[1..])
  }

  predicate UsableTaxi(a: Alternative) {
    a.mode == Taxi && a.feasible && a.duration.Some? && a.priced && a.cited
  }

  function FirstTaxi(options: seq<Alternative>): (r: Option<Alternative>)
    ensures r.Some? ==> r.value in options && UsableTaxi(r.value)
    ensures r.None? ==> forall a :: a in options ==> !UsableTaxi(a)
  {
    if options == [] then None else if UsableTaxi(options[0]) then Some(options[0]) else FirstTaxi(options[1..])
  }

  /** A missing or zero value falls back. */
  function Or(value: Option<nat>, other: int): int {
    if value.Some? && value.value != 0 then value.value else other
  }

  function Waited(r: Request, item: Item): int {
    if r.checkedAt <= item.starts then 0 else (r.checkedAt - item.starts) / 60
  }

  // ------------------------------------------------------------------ the repaired timeline

  function Shifted(items: seq<Item>, shift: int): (s: seq<Item>)
    ensures |s| == |items| && forall i :: 0 <= i < |s| ==> s[i] == items[i].(starts := items[i].starts + shift, ends := items[i].ends + shift)
  {
    seq(|items|, i requires 0 <= i < |items| => items[i].(starts := items[i].starts + shift, ends := items[i].ends + shift))
  }

  /** The waited time, if any, then the pickup, then the drive. */
  function Replacement(original: Item, checkedAt: int, pickup: int, driving: int): seq<Item> {
    var pickupEnd := checkedAt + 60 * pickup;
    (if checkedAt > original.starts then [Item(original.id + "-elapsed-wait", Buffer, original.starts, checkedAt)] else [])
    + [Item(original.id + "-taxi-pickup", Buffer, checkedAt, pickupEnd),
       Item(original.id + "-taxi", Transfer(Taxi), pickupEnd, pickupEnd + 60 * driving)]
  }

  function ShiftOf(original: Item, checkedAt: int, pickup: int, driving: int): int {
    checkedAt + 60 * pickup + 60 * driving - original.ends
  }

  function Spliced(timeline: seq<Item>, i: nat, checkedAt: int, pickup: int, driving: int): seq<Item>
    requires i < |timeline|
  {
    timeline[..i] + Replacement(timeline[i], checkedAt, pickup, driving)
    + Shifted(timeline[i + 1..], ShiftOf(timeline[i], checkedAt, pickup, driving))
  }

  datatype Plan = Plan(index: nat, pickup: int, driving: int)

  /** What to replace, when the wait limit is exceeded and a usable taxi with a real drive exists. */
  function PlanOf(r: Request): Option<Plan> {
    var i := FirstBus(r, r.timeline);
    if !r.waitingForBus || i == |r.timeline| || Waited(r, r.timeline[i]) <= r.waitLimit then None
    else
      var taxi := FirstTaxi(if r.timeline[i].id in r.alternatives then r.alternatives[r.timeline[i].id] else []);
      if taxi.None? then None
      else
        var pickup := Or(taxi.value.pickupBuffer, r.defaultPickup);
        var driving := Or(taxi.value.driving, taxi.value.duration.value - pickup);
        if driving <= 0 then None else Some(Plan(i, pickup, driving))
  }

  method PlanReplacement(r: Request) returns (plan: Option<Plan>)
    ensures plan == PlanOf(r)
  {
    if !r.waitingForBus {
      return None;
    }
    var i := FirstBus(r, r.timeline);
    if i == |r.timeline| {
      return None;
    }
    var original := r.timeline[i];
    if Waited(r, original) <= r.waitLimit {
      return None;
    }
    var taxi := FirstTaxi(if original.id in r.alternatives then r.alternatives[original.id] else []);
    if taxi.None? {
      return None;
    }
    var pickup := Or(taxi.value.pickupBuffer, r.defaultPickup);
    var driving := Or(taxi.value.driving, taxi.value.duration.value - pickup);
    if driving <= 0 {
      return None;
    }
    return Some(Plan(i, pickup, driving));
  }

  /** `_taxi_after_bus_timeout` up to the re-evaluation of the repaired timeline. */
  method TaxiAfterBusTimeout(r: Request) returns (repaired: Option<seq<Item>>)
    ensures match PlanOf(r)
            case None => repaired.None?
            case Some(plan) => repaired == Some(Spliced(r.timeline, plan.index, r.checkedAt, plan.pickup, plan.driving))
    ensures repaired.Some? ==>
              exists i: nat, k: nat, pickup, driving ::
                && Replaces(r, i, k) && TakesMinutes(r, r.alternatives[r.currentId][k], pickup, driving) && driving > 0
                && IsRepair(r.timeline, i, r.checkedAt, pickup, driving, repaired.value)
    ensures repaired.None? ==>
              forall i: nat, k: nat, pickup, driving :: Replaces(r, i, k) && TakesMinutes(r, r.alternatives[r.currentId][k], pickup, driving) ==> driving <= 0
  {
    ghost var k := PlanMeans(r);
    var plan := PlanReplacement(r);
    if plan.None? {
      return None;
    }
    PlanWaited(r);
    var i := plan.value.index;
    var original := r.timeline[i];
    var items := r.timeline[..i];
    if r.checkedAt > original.starts {
      items := items + [Item(original.id + "-elapsed-wait", Buffer, original.starts, r.checkedAt)];
    }
    var pickupEnd := r.checkedAt + 60 * plan.value.pickup;
    items := items + [Item(original.id + "-taxi-pickup", Buffer, r.checkedAt, pickupEnd)];
    var replacement := Item(original.id + "-taxi", Transfer(Taxi), pickupEnd, pickupEnd + 60 * plan.value.driving);
    items := items + [replacement];
    var shift := replacement.ends - original.ends;
    items := items + Shifted(r.timeline[i + 1..], shift);
    assert items == Spliced(r.timeline, i, r.checkedAt, plan.value.pickup, plan.value.driving);
    SpliceMeans(r.timeline, i, r.checkedAt, plan.value.pickup, plan.value.driving);
    return Some(items);
  }

  // ------------------------------------------------------------------ what is planned and spliced

  /** Item `i` is the first ride by bus with the current id, it should have started more than the
      wait limit's whole minutes ago, and option `k` of it is the first taxi that can be taken. */
  ghost predicate Replaces(r: Request, i: nat, k: nat) {
    && r.waitingForBus && i < |r.timeline| && r.timeline[i].kind == Transfer(Bus) && r.timeline[i].id == r.currentId
    && (forall j :: 0 <= j < i ==> r.timeline[j].kind != Transfer(Bus) || r.timeline[j].id != r.currentId)
    && r.timeline[i].starts + 60 * (r.waitLimit + 1) <= r.checkedAt
    && r.currentId in r.alternatives && k < |r.alternatives[r.currentId]|
    && CanBeTaken(r.alternatives[r.currentId][k])
    && (forall j :: 0 <= j < k ==> !CanBeTaken(r.alternatives[r.currentId][j]))
  }

  predicate CanBeTaken(a: Alternative) {
    match a.mode
    case Taxi => a.feasible && a.priced && a.cited && a.duration != None
    case Walk => false
    case Bus => false
  }

  /** The pickup is the taxi's own when it has one above zero, else the default; the drive is the
      taxi's own when above zero, else what the pickup leaves of the whole ride. */
  ghost predicate TakesMinutes(r: Request, a: Alternative, pickup: int, driving: int)
    requires a.duration.Some?
  {
    && pickup == (match a.pickupBuffer case None => r.defaultPickup as int case Some(own) => if own > 0 then own else r.defaultPickup)
    && driving == (match a.driving case None => a.duration.value - pickup case Some(own) => if own > 0 then own else a.duration.value - pickup)
  }

  lemma {:induction false} FirstTaxiMeans(options: seq<Alternative>) returns (k: nat)
    ensures FirstTaxi(options).None? ==> forall j :: 0 <= j < |options| ==> !CanBeTaken(options[j])
    ensures FirstTaxi(options).Some? ==>
              k < |options| && FirstTaxi(options).value == options[k] && CanBeTaken(options[k]) && forall j :: 0 <= j < k ==> !CanBeTaken(options[j])
  {
    k := 0;
    if options != [] && !UsableTaxi(options[0]) {
      var rest := FirstTaxiMeans(options[1..]);
      k := rest + 1;
      forall j | 0 <= j < |options| && (FirstTaxi(options).None? || j < k) ensures !CanBeTaken(options[j]) {
        assert j > 0 ==> options[j] == options[1..][j - 1];
      }
    }
  }

  lemma {:induction false} WaitedMeans(r: Request, item: Item)
    ensures Waited(r, item) > r.waitLimit <==> item.starts + 60 * (r.waitLimit + 1) <= r.checkedAt
  {
  }

  lemma {:induction false} FirstBusIs(r: Request, items: seq<Item>, i: nat)
    requires i < |items| && IsCurrentBus(r, items[i]) && forall k :: 0 <= k < i ==> !IsCurrentBus(r, items[k])
    ensures FirstBus(r, items) == i
  {
    if i > 0 {
      FirstBusIs(r, items[1..], i - 1);
    }
  }

  /** A plan is made exactly when some ride is to be replaced and its drive takes time. */
  lemma {:induction false} PlanMeans(r: Request) returns (k: nat)
    ensures PlanOf(r).Some? ==>
              var p := PlanOf(r).value;
              Replaces(r, p.index, k) && TakesMinutes(r, r.alternatives[r.currentId][k], p.pickup, p.driving) && p.driving > 0
    ensures PlanOf(r).None? ==>
              forall i: nat, j: nat, pickup, driving :: Replaces(r, i, j) && TakesMinutes(r, r.alternatives[r.currentId][j], pickup, driving) ==> driving <= 0
  {
    k := 0;
    var i := FirstBus(r, r.timeline);
    if i < |r.timeline| {
      WaitedMeans(r, r.timeline[i]);
      if r.currentId in r.alternatives {
        k := FirstTaxiMeans(r.alternatives[r.currentId]);
      }
    }
    forall n: nat, j: nat | Replaces(r, n, j) ensures n == i && j == k {
      FirstBusIs(r, r.timeline, n);
    }
  }

  /** The timeline with item `i` replaced: the waited time, the pickup and the drive, each under an
      id made of the ride's, and every later item moved by as much as the drive ends after the ride. */
  ghost predicate IsRepair(timeline: seq<Item>, i: nat, checkedAt: int, pickup: int, driving: int, repaired: seq<Item>)
    requires i < |timeline|
  {
    var ride := timeline[i];
    && |repaired| == |timeline| + 2
    && (forall j :: 0 <= j < i ==> repaired[j] == timeline[j])
    && repaired[i] == Item(ride.id + "-elapsed-wait", Buffer, ride.starts, checkedAt)
    && repaired[i + 1] == Item(ride.id + "-taxi-pickup", Buffer, checkedAt, checkedAt + 60 * pickup)
    && repaired[i + 2] == Item(ride.id + "-taxi", Transfer(Taxi), checkedAt + 60 * pickup, checkedAt + 60 * (pickup + driving))
    && (forall j :: i < j < |timeline| ==>
          repaired[j + 2] == Item(timeline[j].id, timeline[j].kind, timeline[j].starts + (checkedAt + 60 * (pickup + driving) - ride.ends),
                                  timeline[j].ends + (checkedAt + 60 * (pickup + driving) - ride.ends)))
  }

  lemma {:induction false} SpliceMeans(timeline: seq<Item>, i: nat, checkedAt: int, pickup: int, driving: int)
    requires i < |timeline| && timeline[i].starts < checkedAt
    ensures IsRepair(timeline, i, checkedAt, pickup, driving, Spliced(timeline, i, checkedAt, pickup, driving))
  {
    var middle := Replacement(timeline[i], checkedAt, pickup, driving);
    var after := Shifted(timeline[i + 1..], ShiftOf(timeline[i], checkedAt, pickup, driving));
    var front := timeline[..i] + middle;
    assert Spliced(timeline, i, checkedAt, pickup, driving) == front + after;
    forall j | i < j < |timeline| ensures (front + after)[j + 2] == after[j - i - 1] && timeline[i + 1..][j - i - 1] == timeline[j] {}
  }

  // ------------------------------------------------------------------ the repaired timeline is sound

  /** Items run forward and never overlap. */
  predicate Ordered(items: seq<Item>) {
    && (forall i :: 0 <= i < |items| ==> items[i].starts <= items[i].ends)
    && (forall i :: 0 < i < |items| ==> items[i - 1].ends <= items[i].starts)
  }

  /** Each item starts where the one before ends. */
  predicate Tiles(items: seq<Item>, from: int, to: int) {
    && items != [] && items[0].starts == from && items[|items| - 1].ends == to
    && (forall i :: 0 < i < |items| ==> items[i - 1].ends == items[i].starts)
  }

  lemma {:induction false} PlanWaited(r: Request)
    requires PlanOf(r).Some?
    ensures var p := PlanOf(r).value;
            p.index < |r.timeline| && p.pickup >= 0 && p.driving > 0 && r.timeline[p.index].starts + 60 <= r.checkedAt
            && IsCurrentBus(r, r.timeline[p.index])
  {
  }

  lemma {:induction false} ReplacementTiles(original: Item, checkedAt: int, pickup: int, driving: int)
    requires original.starts < checkedAt && pickup >= 0 && driving > 0
    ensures var items := Replacement(original, checkedAt, pickup, driving);
            |items| == 3 && Ordered(items) && Tiles(items, original.starts, original.ends + ShiftOf(original, checkedAt, pickup, driving))
  {
  }

  lemma {:induction false} OrderedJoined(a: seq<Item>, b: seq<Item>)
    requires Ordered(a) && Ordered(b) && (a != [] && b != [] ==> a[|a| - 1].ends <= b[0].starts)
    ensures Ordered(a + b)
  {
  }

  lemma {:induction false} LaterItemsMove(timeline: seq<Item>, i: nat, repaired: seq<Item>, shift: int, front: seq<Item>)
    requires i < |timeline| && |front| == i + 3 && repaired == front + Shifted(timeline[i + 1..], shift)
    requires front[i + 2].ends == timeline[i].ends + shift
    ensures forall k :: i < k < |timeline| ==> repaired[k + 2].starts == timeline[k].starts + shift && repaired[k + 2].ends == timeline[k].ends + shift
    ensures repaired[|timeline| + 1].ends == timeline[|timeline| - 1].ends + shift
  {
    forall k | i < k < |timeline| ensures repaired[k + 2].starts == timeline[k].starts + shift && repaired[k + 2].ends == timeline[k].ends + shift {
      assert repaired[k + 2] == Shifted(timeline[i + 1..], shift)[k - i - 1];
      assert timeline[i + 1..][k - i - 1] == timeline[k];
    }
    if i + 1 < |timeline| {
      assert repaired[|timeline| + 1].ends == timeline[|timeline| - 1].ends + shift by {
        assert repaired[(|timeline| - 1) + 2].ends == timeline[|timeline| - 1].ends + shift;
      }
    } else {
      assert repaired[i + 2] == front[i + 2];
    }
  }

  lemma {:induction false} SplicedIsOrdered(before: seq<Item>, original: Item, after: seq<Item>, middle: seq<Item>, shift: int)
    requires Ordered(before + [original] + after) && Ordered(middle) && Tiles(middle, original.starts, original.ends + shift)
    ensures Ordered(before + middle + Shifted(after, shift))
  {
    var all := before + [original] + after;
    assert all[|before|] == original;
    assert forall k :: 0 <= k < |before| ==> all[k] == before[k];
    assert forall k :: 0 <= k < |after| ==> all[|before| + 1 + k] == after[k];
    assert Ordered(before);
    MovedIsOrdered(all, |before| + 1, after, shift);
    OrderedJoined(before, middle);
    if after != [] {
      assert all[|before|].ends <= all[|before| + 1].starts;
    }
    OrderedJoined(before + middle, Shifted(after, shift));
  }

  lemma {:induction false} MovedIsOrdered(all: seq<Item>, at: nat, after: seq<Item>, shift: int)
    requires Ordered(all) && at <= |all| && after == all[at..]
    ensures Ordered(Shifted(after, shift))
  {
    assert forall k :: 0 <= k < |after| ==> after[k] == all[at + k];
  }

  /** `repaired` is ordered; what came before the replaced item is untouched; the new items fill the
      time from its start to its shifted end without a hole; every later item keeps its length and
      its gap, moved by one and the same shift, forward or back. */
  ghost predicate SoundRepair(timeline: seq<Item>, i: nat, repaired: seq<Item>, shift: int)
    requires i < |timeline|
  {
    && |repaired| == |timeline| + 2 && Ordered(repaired)
    && repaired[..i] == timeline[..i]
    && Tiles(repaired[i..i + 3], timeline[i].starts, timeline[i].ends + shift)
    && (forall k :: i < k < |timeline| ==> repaired[k + 2].starts == timeline[k].starts + shift && repaired[k + 2].ends == timeline[k].ends + shift)
    && repaired[|timeline| + 1].ends == timeline[|timeline| - 1].ends + shift
  }

  lemma {:induction false} SpliceIsSound(timeline: seq<Item>, i: nat, checkedAt: int, pickup: int, driving: int)
    requires Ordered(timeline) && i < |timeline| && timeline[i].starts < checkedAt && pickup >= 0 && driving > 0
    ensures SoundRepair(timeline, i, Spliced(timeline, i, checkedAt, pickup, driving), ShiftOf(timeline[i], checkedAt, pickup, driving))
  {
    var before, original, after := timeline[..i], timeline[i], timeline[i + 1..];
    var shift, middle := ShiftOf(original, checkedAt, pickup, driving), Replacement(original, checkedAt, pickup, driving);
    var repaired := Spliced(timeline, i, checkedAt, pickup, driving);
    ReplacementTiles(original, checkedAt, pickup, driving);
    assert timeline == before + [original] + after;
    SplicedIsOrdered(before, original, after, middle, shift);
    assert repaired == (before + middle) + Shifted(after, shift);
    assert (before + middle)[i + 2] == middle[2];
    LaterItemsMove(timeline, i, repaired, shift, before + middle);
    assert repaired[i..i + 3] == middle;
    assert repaired[..i] == before;
  }

  /** Whenever a taxi replaces the bus in an ordered timeline, the repair is sound, and it ends
      `shift` later, or earlier when the shift is negative. */
  lemma {:induction false} RepairIsSound(r: Request, p: Plan)
    requires Ordered(r.timeline) && PlanOf(r) == Some(p)
    ensures p.index < |r.timeline|
    ensures SoundRepair(r.timeline, p.index, Spliced(r.timeline, p.index, r.checkedAt, p.pickup, p.driving),
                        ShiftOf(r.timeline[p.index], r.checkedAt, p.pickup, p.driving))
  {
    PlanWaited(r);
    SpliceIsSound(r.timeline, p.index, r.checkedAt, p.pickup, p.driving);
  }
}
