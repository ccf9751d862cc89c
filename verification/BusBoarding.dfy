/** Boarding the next bus on one edge: which departures a traveller standing at a place can
    still use, and the earliest door-to-door arrival among them.  Times are seconds, policy
    durations are minutes, distances are metres. */
module BusBoarding {
  import opened Common

  type PlaceId = int

  type Speed = v: real | v > 0.0 witness 1.0

  datatype Policy = Policy(
    metersPerMinute: Speed,
    routeUncertainty: nat,
    boardingBuffer: nat,
    maxAccessWalk: int,
    busWaitLimit: int)

  datatype Leg = Leg(
    origin: PlaceId,
    destination: PlaceId,
    departsAt: int,
    arrivesAt: int,
    accessDistance: real,
    egressDistance: real,
    transfers: nat)

  /** The four-part key Python's `min` compares; only its first part is returned. */
  datatype Boarding = Boarding(doorAt: int, walk: int, transfers: int, departsAt: int)

  function CeilReal(x: real): int {
    -((-x).Floor)
  }

  function CeilMinutes(seconds: int): int {
    -((-seconds) / 60)
  }

  function AccessMinutes(policy: Policy, leg: Leg): int {
    CeilReal(leg.accessDistance / policy.metersPerMinute) + policy.routeUncertainty
  }

  function EgressMinutes(policy: Policy, leg: Leg): int {
    CeilReal(leg.egressDistance / policy.metersPerMinute) + policy.routeUncertainty
  }

  predicate Walkable(policy: Policy, leg: Leg) {
    AccessMinutes(policy, leg) <= policy.maxAccessWalk && EgressMinutes(policy, leg) <= policy.maxAccessWalk
  }

  /** A traveller at the origin's door at `at` can still use this leg: both walks are short
      enough, the bus has not left, and the wait at the stop is within the limit. */
  predicate Boardable(policy: Policy, leg: Leg, at: int) {
    && Walkable(policy, leg)
    && leg.departsAt >= at + 60 * (AccessMinutes(policy, leg) + policy.boardingBuffer)
    && CeilMinutes(leg.departsAt - at - 60 * AccessMinutes(policy, leg)) <= policy.busWaitLimit
  }

  function DoorArrival(policy: Policy, leg: Leg): int {
    leg.arrivesAt + 60 * EgressMinutes(policy, leg)
  }

  predicate OnEdge(leg: Leg, origin: PlaceId, destination: PlaceId) {
    leg.origin == origin && leg.destination == destination
  }

  predicate Usable(policy: Policy, leg: Leg, origin: PlaceId, destination: PlaceId, at: int) {
    OnEdge(leg, origin, destination) && Boardable(policy, leg, at)
  }

  /** The earliest door arrival over every leg of the edge that can still be boarded. */
  function NextArrival(policy: Policy, legs: seq<Leg>, origin: PlaceId, destination: PlaceId, at: int): (r: Option<int>)
    ensures r.Some? <==> exists leg :: leg in legs && Usable(policy, leg, origin, destination, at)
    ensures r.Some? ==> exists leg :: leg in legs && Usable(policy, leg, origin, destination, at) && DoorArrival(policy, leg) == r.value
    ensures r.Some? ==> forall leg :: leg in legs && Usable(policy, leg, origin, destination, at) ==> r.value <= DoorArrival(policy, leg)
  {
    if legs == [] then None
    else
      var leg := legs[|legs| - 1];
      assert legs == legs[..|legs| - 1] + [leg];
      var earlier := NextArrival(policy, legs[..|legs| - 1], origin, destination, at);
      if !Usable(policy, leg, origin, destination, at) then earlier
      else if earlier.Some? && earlier.value <= DoorArrival(policy, leg) then earlier
      else Some(DoorArrival(policy, leg))
  }

  predicate BoardingLess(a: Boarding, b: Boarding) {
    || a.doorAt < b.doorAt
    || (a.doorAt == b.doorAt &&
        (a.walk < b.walk ||
         (a.walk == b.walk &&
          (a.transfers < b.transfers || (a.transfers == b.transfers && a.departsAt < b.departsAt)))))
  }

  /** Lists with the same usable legs of an edge have the same next arrival. */
  lemma {:induction false} NextArrivalDependsOnUsableLegs(policy: Policy, a: seq<Leg>, b: seq<Leg>, origin: PlaceId, destination: PlaceId, at: int)
    requires forall leg :: OnEdge(leg, origin, destination) ==> (leg in a <==> leg in b)
    ensures NextArrival(policy, a, origin, destination, at) == NextArrival(policy, b, origin, destination, at)
  {
    if NextArrival(policy, a, origin, destination, at).Some? {
      NoLaterWithMoreLegs(policy, a, b, origin, destination, at);
    }
    if NextArrival(policy, b, origin, destination, at).Some? {
      NoLaterWithMoreLegs(policy, b, a, origin, destination, at);
    }
  }

  lemma {:induction false} NoLaterWithMoreLegs(policy: Policy, a: seq<Leg>, b: seq<Leg>, origin: PlaceId, destination: PlaceId, at: int)
    requires forall leg :: leg in a && OnEdge(leg, origin, destination) ==> leg in b
    requires NextArrival(policy, a, origin, destination, at).Some?
    ensures NextArrival(policy, b, origin, destination, at).Some?
    ensures NextArrival(policy, b, origin, destination, at).value <= NextArrival(policy, a, origin, destination, at).value
  {
    var leg :| leg in a && Usable(policy, leg, origin, destination, at)
               && DoorArrival(policy, leg) == NextArrival(policy, a, origin, destination, at).value;
    assert leg in b;
  }

  /** The first part of Python's `min` of the collected boardings. */
  function LeastDoor(feasible: seq<Boarding>): Option<int> {
    if feasible == [] then None
    else
      var b := feasible[|feasible| - 1].doorAt;
      var earlier := LeastDoor(feasible[..|feasible| - 1]);
      if earlier.Some? && earlier.value <= b then earlier else Some(b)
  }

  method LeastBoarding(feasible: seq<Boarding>) returns (least: Boarding)
    requires feasible != []
    ensures LeastDoor(feasible) == Some(least.doorAt)
  {
    least := feasible[0];
    assert feasible[..1][..0] == [];
    for i := 1 to |feasible|
      invariant LeastDoor(feasible[..i]) == Some(least.doorAt)
    {
      assert feasible[..i + 1][..i] == feasible[..i];
      if BoardingLess(feasible[i], least) {
        least := feasible[i];
      }
    }
    assert feasible[..|feasible|] == feasible;
  }

  /** The boarding a leg offers, unless a walk is too long, the bus is gone, or the wait exceeds
      its limit. */
  method BoardingOf(policy: Policy, leg: Leg, at: int) returns (b: Option<Boarding>)
    ensures b.Some? <==> Boardable(policy, leg, at)
    ensures b.Some? ==> b.value.doorAt == DoorArrival(policy, leg)
  {
    var access, egress := AccessMinutes(policy, leg), EgressMinutes(policy, leg);
    if (if access < egress then egress else access) > policy.maxAccessWalk {
      return None;
    }
    if leg.departsAt < at + 60 * (access + policy.boardingBuffer) {
      return None;
    }
    var wait := CeilMinutes(leg.departsAt - at - 60 * access);
    if wait > policy.busWaitLimit {
      return None;
    }
    return Some(Boarding(leg.arrivesAt + 60 * egress, access + egress, leg.transfers, leg.departsAt));
  }

  /** `_next_bus_arrival`: collect the feasible boardings of one edge, then take the least. */
  method NextBusArrival(policy: Policy, edgeLegs: seq<Leg>, origin: PlaceId, destination: PlaceId, at: int)
    returns (r: Option<int>)
    requires forall k :: 0 <= k < |edgeLegs| ==> OnEdge(edgeLegs[k], origin, destination)
    ensures r == NextArrival(policy, edgeLegs, origin, destination, at)
  {
    var feasible: seq<Boarding> := [];
    for i := 0 to |edgeLegs|
      invariant LeastDoor(feasible) == NextArrival(policy, edgeLegs[..i], origin, destination, at)
    {
      assert edgeLegs[..i + 1][..i] == edgeLegs[..i];
      var b := BoardingOf(policy, edgeLegs[i], at);
      if b.Some? {
        assert (feasible + [b.value])[..|feasible|] == feasible;
        feasible := feasible + [b.value];
      }
    }
    assert edgeLegs[..|edgeLegs|] == edgeLegs;
    if feasible == [] {
      r := None;
    } else {
      var least := LeastBoarding(feasible);
      r := Some(least.doorAt);
    }
  }

  // ------------------------------------------------ when an earlier start is never worse

  /** The first and last moment at which the leg can be boarded. */
  function Opens(policy: Policy, leg: Leg): int {
    leg.departsAt - 60 * AccessMinutes(policy, leg) - 60 * policy.busWaitLimit
  }

  function Closes(policy: Policy, leg: Leg): int {
    leg.departsAt - 60 * (AccessMinutes(policy, leg) + policy.boardingBuffer)
  }

  lemma {:induction false} BoardableIsAWindow(policy: Policy, leg: Leg, at: int)
    ensures Boardable(policy, leg, at) <==> Walkable(policy, leg) && Opens(policy, leg) <= at <= Closes(policy, leg)
  {
    var d := leg.departsAt - at - 60 * AccessMinutes(policy, leg);
    assert -60 * ((-d) / 60) >= d > -60 * ((-d) / 60) - 60;
  }

  /** One leg is handed over at `from`: it can already be boarded at `from`, or at the second
      before its waiting window opens some other leg, arriving no later, can be boarded. */
  predicate HandedOverLeg(policy: Policy, legs: seq<Leg>, origin: PlaceId, destination: PlaceId, from: int, leg: Leg) {
    || Opens(policy, leg) <= from
    || exists k :: 0 <= k < |legs| && Usable(policy, legs[k], origin, destination, Opens(policy, leg) - 1)
                   && DoorArrival(policy, legs[k]) <= DoorArrival(policy, leg)
  }

  /** Every leg that can be boarded at all from `from` on is handed over. */
  predicate HandedOver(policy: Policy, legs: seq<Leg>, origin: PlaceId, destination: PlaceId, from: int) {
    forall leg :: leg in legs && OnEdge(leg, origin, destination) && Walkable(policy, leg)
                  && Opens(policy, leg) <= Closes(policy, leg)
                  ==> HandedOverLeg(policy, legs, origin, destination, from, leg)
  }

  /** Standing at the door earlier never means arriving later. */
  ghost predicate EarlierIsNoWorse(policy: Policy, legs: seq<Leg>, origin: PlaceId, destination: PlaceId, from: int) {
    forall t0: int, t1: int ::
      from <= t0 <= t1 && NextArrival(policy, legs, origin, destination, t1).Some? ==>
      && NextArrival(policy, legs, origin, destination, t0).Some?
      && NextArrival(policy, legs, origin, destination, t0).value <= NextArrival(policy, legs, origin, destination, t1).value
  }

  lemma {:induction false} CatchNoLater(policy: Policy, legs: seq<Leg>, origin: PlaceId, destination: PlaceId, from: int, t0: int, t1: int, leg: Leg)
    returns (earlier: Leg)
    requires HandedOver(policy, legs, origin, destination, from)
    requires from <= t0 <= t1
    requires leg in legs && Usable(policy, leg, origin, destination, t1)
    ensures earlier in legs && Usable(policy, earlier, origin, destination, t0)
    ensures DoorArrival(policy, earlier) <= DoorArrival(policy, leg)
    decreases t1 - t0
  {
    BoardableIsAWindow(policy, leg, t1);
    BoardableIsAWindow(policy, leg, t0);
    if Opens(policy, leg) <= t0 {
      earlier := leg;
    } else {
      assert HandedOverLeg(policy, legs, origin, destination, from, leg);
      var k :| 0 <= k < |legs| && Usable(policy, legs[k], origin, destination, Opens(policy, leg) - 1)
               && DoorArrival(policy, legs[k]) <= DoorArrival(policy, leg);
      earlier := CatchNoLater(policy, legs, origin, destination, from, t0, Opens(policy, leg) - 1, legs[k]);
    }
  }

  lemma {:induction false} HandedOverIsNoWorse(policy: Policy, legs: seq<Leg>, origin: PlaceId, destination: PlaceId, from: int, t0: int, t1: int)
    requires HandedOver(policy, legs, origin, destination, from) && from <= t0 <= t1
    requires NextArrival(policy, legs, origin, destination, t1).Some?
    ensures NextArrival(policy, legs, origin, destination, t0).Some?
    ensures NextArrival(policy, legs, origin, destination, t0).value <= NextArrival(policy, legs, origin, destination, t1).value
  {
    var leg :| leg in legs && Usable(policy, leg, origin, destination, t1)
               && DoorArrival(policy, leg) == NextArrival(policy, legs, origin, destination, t1).value;
    var earlier := CatchNoLater(policy, legs, origin, destination, from, t0, t1, leg);
  }

  lemma {:induction false} NoWorseIsHandedOver(policy: Policy, legs: seq<Leg>, origin: PlaceId, destination: PlaceId, from: int, leg: Leg)
    requires EarlierIsNoWorse(policy, legs, origin, destination, from)
    requires leg in legs && OnEdge(leg, origin, destination) && Walkable(policy, leg) && Opens(policy, leg) <= Closes(policy, leg)
    ensures HandedOverLeg(policy, legs, origin, destination, from, leg)
  {
    var t := Opens(policy, leg);
    if from < t {
      BoardableIsAWindow(policy, leg, t);
      assert Usable(policy, leg, origin, destination, t);
      assert NextArrival(policy, legs, origin, destination, t).Some?;
      assert NextArrival(policy, legs, origin, destination, t - 1).Some?;
      var before :| before in legs && Usable(policy, before, origin, destination, t - 1)
                    && DoorArrival(policy, before) == NextArrival(policy, legs, origin, destination, t - 1).value;
      var k :| 0 <= k < |legs| && legs[k] == before;
    }
  }

  /** `_next_bus_arrival` is monotone in its start time exactly when every leg is handed over:
      the bus-wait limit is the only thing that can make an earlier start worse. */
  lemma {:induction false} EarlierIsNoWorseIff(policy: Policy, legs: seq<Leg>, origin: PlaceId, destination: PlaceId, from: int)
    ensures EarlierIsNoWorse(policy, legs, origin, destination, from) <==> HandedOver(policy, legs, origin, destination, from)
  {
    if HandedOver(policy, legs, origin, destination, from) {
      forall t0: int, t1: int | from <= t0 <= t1 && NextArrival(policy, legs, origin, destination, t1).Some?
        ensures NextArrival(policy, legs, origin, destination, t0).Some?
        ensures NextArrival(policy, legs, origin, destination, t0).value <= NextArrival(policy, legs, origin, destination, t1).value
      {
        HandedOverIsNoWorse(policy, legs, origin, destination, from, t0, t1);
      }
    }
    if EarlierIsNoWorse(policy, legs, origin, destination, from) {
      forall leg | leg in legs && OnEdge(leg, origin, destination) && Walkable(policy, leg) && Opens(policy, leg) <= Closes(policy, leg)
        ensures HandedOverLeg(policy, legs, origin, destination, from, leg)
      {
        NoWorseIsHandedOver(policy, legs, origin, destination, from, leg);
      }
    }
  }

  /** A wait limit that no leg can exceed from `from` on is the simplest way to be handed over. */
  lemma {:induction false} SlackWaitLimitHandsOver(policy: Policy, legs: seq<Leg>, origin: PlaceId, destination: PlaceId, from: int)
    requires forall leg :: leg in legs ==> Opens(policy, leg) <= from
    ensures EarlierIsNoWorse(policy, legs, origin, destination, from)
  {
    EarlierIsNoWorseIff(policy, legs, origin, destination, from);
  }

  /** With non-negative distances and forward legs, a ride never ends before it starts. */
  lemma {:induction false} RideGoesForward(policy: Policy, legs: seq<Leg>, origin: PlaceId, destination: PlaceId, at: int)
    requires forall leg :: leg in legs ==> leg.departsAt <= leg.arrivesAt && leg.accessDistance >= 0.0 && leg.egressDistance >= 0.0
    requires NextArrival(policy, legs, origin, destination, at).Some?
    ensures at <= NextArrival(policy, legs, origin, destination, at).value
  {
    var leg :| leg in legs && Usable(policy, leg, origin, destination, at)
               && DoorArrival(policy, leg) == NextArrival(policy, legs, origin, destination, at).value;
    WalkIsNonNegative(leg.accessDistance, policy.metersPerMinute);
    WalkIsNonNegative(leg.egressDistance, policy.metersPerMinute);
  }

  lemma {:induction false} WalkIsNonNegative(distance: real, speed: Speed)
    requires distance >= 0.0
    ensures CeilReal(distance / speed) >= 0
  {
    var q := distance / speed;
    assert q * speed == distance;
    if q < 0.0 {
      assert q * speed < 0.0;
    }
  }

  // ------------------------------------------------------------------ what a walk takes

  /** The least whole number of minutes in which the distance can be walked. */
  predicate WalkTakes(minutes: int, distance: real, speed: Speed) {
    minutes as real * speed >= distance && (minutes - 1) as real * speed < distance
  }

  lemma {:induction false} TimesPositive(a: real, b: real, speed: Speed)
    ensures a <= b <==> a * speed <= b * speed
  {
    if a < b {
      assert (b - a) * speed > 0.0;
    } else if b < a {
      assert (a - b) * speed > 0.0;
    }
  }

  lemma {:induction false} CeilIsLeast(minutes: int, distance: real, speed: Speed)
    ensures WalkTakes(minutes, distance, speed) <==> minutes == CeilReal(distance / speed)
  {
    var x := distance / speed;
    assert x * speed == distance;
    TimesPositive(x, minutes as real, speed);
    TimesPositive(x, (minutes - 1) as real, speed);
  }
}
