/** Reading one timetable row against one route: the checkpoints it fixes, the clocks unrolled past
    midnight, and the service clocks printed for the manifest and read back by the normaliser. */
module TimetableClock {
  import opened Common
  import opened Decimals

  const DAY := 1440
  const EVENING := 18 * 60
  const LAST_MORNING_HOUR := 6

  datatype WallClock = WallClock(hour: nat, minute: nat) {
    function OfDay(): nat {
      60 * hour + minute
    }
  }

  /** What the cell pattern accepts. */
  type Clock = c: WallClock | c.hour <= 23 && c.minute <= 59 witness WallClock(0, 0)

  datatype RouteStop = RouteStop(pattern: string, routeNumber: string, stopId: string, sequence: int, direction: string, name: string)

  /** The text patterns of the source, which are not part of this model: `clock` is the time a
      cell starts with, `clocks` counts the times in it, `named` and `exactly` compare a header
      with a stop's name, `routeIn` finds a route number in a cell and `routeOf` in a sheet's title,
      `effective` reads the date in the rows above the header. */
  datatype Texts = Texts(
    clock: string -> Option<Clock>,
    clocks: string -> nat,
    named: (string, string) -> bool,
    exactly: (string, string) -> bool,
    routeHeader: string -> bool,
    routeIn: string -> Option<string>,
    routeOf: string -> Option<string>,
    onDemand: string -> bool,
    holiday: string -> bool,
    effective: map<int, seq<string>> -> Option<int>,
    titleTokens: string -> seq<string>)

  // ------------------------------------------------------------------ checkpoints

  datatype Checkpoint = Checkpoint(stop: RouteStop, clock: Clock, exact: bool)

  /** The stops past `after` whose name the header matches, in route order. */
  function Matches(texts: Texts, route: seq<RouteStop>, header: string, after: int): (r: seq<RouteStop>)
    ensures forall s :: s in r <==> s in route && s.sequence > after && texts.named(header, s.name)
  {
    if route == [] then []
    else
      var front, last := Matches(texts, route[..|route| - 1], header, after), route[|route| - 1];
      assert route == route[..|route| - 1] + [last];
      if last.sequence > after && texts.named(header, last.name) then front + [last] else front
  }

  function LastSequence(selected: seq<Checkpoint>): int {
    if selected == [] then 0 else selected[|selected| - 1].stop.sequence
  }

  /** One more cell: it fixes a checkpoint when it holds a clock and its header names exactly one
      stop past the previous checkpoint. */
  function WithCell(texts: Texts, route: seq<RouteStop>, header: string, value: string, before: seq<Checkpoint>): seq<Checkpoint> {
    var clock := texts.clock(value);
    var found := Matches(texts, route, header, LastSequence(before));
    if clock.None? || |found| != 1 then before
    else before + [Checkpoint(found[0], clock.value, texts.exactly(header, found[0].name))]
  }

  function Checkpoints(texts: Texts, route: seq<RouteStop>, headers: seq<string>, values: seq<string>, n: nat): seq<Checkpoint>
    requires n <= |values|
  {
    if n == 0 then []
    else
      var before := Checkpoints(texts, route, headers, values, n - 1);
      if n - 1 >= |headers| then before else WithCell(texts, route, headers[n - 1], values[n - 1], before)
  }

  /** `_candidate_checkpoint_matches`. */
  method CandidateCheckpointMatches(texts: Texts, route: seq<RouteStop>, headers: seq<string>, values: seq<string>)
    returns (selected: seq<Checkpoint>)
    ensures selected == Checkpoints(texts, route, headers, values, |values|)
  {
    selected := [];
    var last := 0;
    for n := 0 to |values|
      invariant selected == Checkpoints(texts, route, headers, values, n) && last == LastSequence(selected)
    {
      var parsed := texts.clock(values[n]);
      if parsed.None? || n >= |headers| {
        continue;
      }
      var found := Matches(texts, route, headers[n], last);
      if |found| != 1 {
        continue;
      }
      selected := selected + [Checkpoint(found[0], parsed.value, texts.exactly(headers[n], found[0].name))];
      last := found[0].sequence;
    }
  }

  ghost predicate Rising(selected: seq<Checkpoint>) {
    && (forall i :: 0 <= i < |selected| ==> 0 < selected[i].stop.sequence)
    && (forall i, j :: 0 <= i < j < |selected| ==> selected[i].stop.sequence < selected[j].stop.sequence)
  }

  /** Checkpoints are stops of the route, in strictly rising sequence. */
  lemma {:induction false} CheckpointsRise(texts: Texts, route: seq<RouteStop>, headers: seq<string>, values: seq<string>, n: nat)
    requires n <= |values|
    ensures Rising(Checkpoints(texts, route, headers, values, n))
    ensures forall c :: c in Checkpoints(texts, route, headers, values, n) ==> c.stop in route
  {
    if n > 0 {
      CheckpointsRise(texts, route, headers, values, n - 1);
      if n - 1 < |headers| {
        WithCellRises(texts, route, headers[n - 1], values[n - 1], Checkpoints(texts, route, headers, values, n - 1));
      }
    }
  }

  lemma {:induction false} WithCellRises(texts: Texts, route: seq<RouteStop>, header: string, value: string, before: seq<Checkpoint>)
    requires Rising(before) && forall c :: c in before ==> c.stop in route
    ensures Rising(WithCell(texts, route, header, value, before))
    ensures forall c :: c in WithCell(texts, route, header, value, before) ==> c.stop in route
  {
    var found := Matches(texts, route, header, LastSequence(before));
    if |found| == 1 {
      assert found[0] in found;
    }
  }

  // ------------------------------------------------------------------ unrolling past midnight

  function Next(previous: int, clock: Clock): int {
    var sameDay := previous / DAY * DAY + clock.OfDay();
    if sameDay < previous then sameDay + DAY else sameDay
  }

  /** The clocks as minutes since the first day's midnight, adding a day whenever they drop. */
  function Times(clocks: seq<Clock>): (r: seq<int>)
    ensures |r| == |clocks|
  {
    if clocks == [] then []
    else
      var last := clocks[|clocks| - 1];
      if |clocks| == 1 then [last.OfDay()]
      else
        var front := Times(clocks[..|clocks| - 1]);
        front + [Next(front[|front| - 1], last)]
  }

  /** The clock may drop only from the evening to the early morning. */
  predicate MayFollow(previous: Clock, next: Clock) {
    next.OfDay() < previous.OfDay() ==> previous.OfDay() >= EVENING && next.hour <= LAST_MORNING_HOUR
  }

  predicate FollowsAt(clocks: seq<Clock>, i: nat)
    requires 0 < i < |clocks|
  {
    MayFollow(clocks[i - 1], clocks[i])
  }

  predicate AllFollow(clocks: seq<Clock>) {
    forall i :: 0 < i < |clocks| ==> FollowsAt(clocks, i)
  }

  ghost predicate Nondecreasing(times: seq<int>) {
    forall i, j :: 0 <= i <= j < |times| ==> times[i] <= times[j]
  }

  /** Minutes that never go back and show these clocks. */
  ghost predicate Lifts(clocks: seq<Clock>, times: seq<int>) {
    && |times| == |clocks| && Nondecreasing(times)
    && forall i :: 0 <= i < |times| ==> times[i] >= 0 && times[i] % DAY == clocks[i].OfDay()
  }

  lemma {:induction false} NextIsLeast(previous: int, clock: Clock, later: int)
    requires previous >= 0
    ensures previous <= Next(previous, clock) < previous + DAY
    ensures Next(previous, clock) % DAY == clock.OfDay()
    ensures later >= previous && later % DAY == clock.OfDay() ==> Next(previous, clock) <= later
  {
    var days := previous / DAY;
    assert previous == days * DAY + previous % DAY;
    assert (days * DAY + clock.OfDay()) % DAY == clock.OfDay();
    assert (days * DAY + clock.OfDay() + DAY) % DAY == clock.OfDay();
  }

  lemma {:induction false} TimesLift(clocks: seq<Clock>)
    ensures Lifts(clocks, Times(clocks))
  {
    if |clocks| > 1 {
      var front := clocks[..|clocks| - 1];
      TimesLift(front);
      NextIsLeast(Times(front)[|front| - 1], clocks[|clocks| - 1], 0);
    }
  }

  /** Unrolling gives the least minutes that never go back and show the sheet's clocks. */
  lemma {:induction false} TimesAreLeast(clocks: seq<Clock>, other: seq<int>)
    requires Lifts(clocks, other)
    ensures Lifts(clocks, Times(clocks))
    ensures forall i :: 0 <= i < |clocks| ==> Times(clocks)[i] <= other[i]
  {
    TimesLift(clocks);
    if |clocks| == 1 {
      assert other[0] == other[0] / DAY * DAY + clocks[0].OfDay();
    } else if clocks != [] {
      var n := |clocks| - 1;
      TimesAreLeast(clocks[..n], other[..n]);
      var previous := Times(clocks[..n])[n - 1];
      assert previous <= other[n - 1] <= other[n];
      NextIsLeast(previous, clocks[n], other[n]);
    }
  }

  lemma {:induction false} TimesOfPrefix(clocks: seq<Clock>, n: nat)
    requires n <= |clocks|
    ensures Times(clocks[..n]) == Times(clocks)[..n]
  {
    if n < |clocks| {
      var front := clocks[..|clocks| - 1];
      TimesOfPrefix(front, n);
      assert front[..n] == clocks[..n];
      assert Times(clocks)[..|front|] == Times(front);
      assert Times(clocks)[..n] == Times(front)[..n];
    } else {
      assert clocks[..n] == clocks;
    }
  }

  lemma {:induction false} SameDay(days: int, minutes: int)
    requires 0 <= minutes < DAY
    ensures (days * DAY + minutes) / DAY == days
  {
  }

  lemma {:induction false} TimeAt(clocks: seq<Clock>, i: nat)
    requires i < |clocks|
    ensures Times(clocks)[i] == if i == 0 then clocks[0].OfDay() else Next(Times(clocks)[i - 1], clocks[i])
  {
    TimesOfPrefix(clocks, i + 1);
    if i > 0 {
      TimesOfPrefix(clocks, i);
      assert clocks[..i + 1][..i] == clocks[..i];
    }
  }

  lemma {:induction false} NextDay(previous: int, clock: Clock)
    requires previous >= 0
    ensures var next := Next(previous, clock);
            next / DAY == (if previous / DAY * DAY + clock.OfDay() < previous then previous / DAY + 1 else previous / DAY)
  {
    SameDay(previous / DAY, clock.OfDay());
    SameDay(previous / DAY + 1, clock.OfDay());
  }

  lemma {:induction false} RollIsShort(previous: int, before: Clock, clock: Clock)
    requires previous >= 0 && previous % DAY == before.OfDay() && MayFollow(before, clock)
    requires Next(previous, clock) / DAY != previous / DAY
    ensures Next(previous, clock) / DAY == previous / DAY + 1 && Next(previous, clock) - previous < 13 * 60
  {
    NextDay(previous, clock);
    assert previous == previous / DAY * DAY + before.OfDay();
  }

  /** An accepted roll past midnight goes to the next day and takes less than thirteen hours. */
  lemma {:induction false} RolloverIsShort(clocks: seq<Clock>, i: nat)
    requires AllFollow(clocks) && 0 < i < |clocks|
    requires Times(clocks)[i] / DAY != Times(clocks)[i - 1] / DAY
    ensures Times(clocks)[i] / DAY == Times(clocks)[i - 1] / DAY + 1
    ensures Times(clocks)[i] - Times(clocks)[i - 1] < 13 * 60
  {
    TimeAt(clocks, i);
    TimesLift(clocks);
    assert FollowsAt(clocks, i);
    RollIsShort(Times(clocks)[i - 1], clocks[i - 1], clocks[i]);
  }

  // ------------------------------------------------------------------ printed service clocks

  datatype StopTime = StopTime(stopId: string, routeSequence: int, stopSequence: nat, arrival: string, departure: string)

  /** Hours since the first day's midnight and minutes, at least two digits each. */
  function Printed(minutes: nat): string {
    Padded(minutes / 60, 2) + Padded(minutes % 60, 2)
  }

  function ClocksOf(selected: seq<Checkpoint>): (r: seq<Clock>)
    ensures |r| == |selected| && forall i :: 0 <= i < |r| ==> r[i] == selected[i].clock
  {
    seq(|selected|, i requires 0 <= i < |selected| => selected[i].clock)
  }

  function StopTimeAt(c: Checkpoint, minutes: nat, stopSequence: nat): StopTime {
    StopTime(c.stop.stopId, c.stop.sequence, stopSequence, Printed(minutes), Printed(minutes))
  }

  function TimeOf(clocks: seq<Clock>, i: nat): nat
    requires i < |clocks|
  {
    TimesLift(clocks);
    Times(clocks)[i]
  }

  function Timed(selected: seq<Checkpoint>): (r: seq<StopTime>)
    ensures |r| == |selected|
    ensures forall i :: 0 <= i < |r| ==> r[i] == StopTimeAt(selected[i], TimeOf(ClocksOf(selected), i), i + 1)
  {
    seq(|selected|, i requires 0 <= i < |selected| => StopTimeAt(selected[i], TimeOf(ClocksOf(selected), i), i + 1))
  }

  function Unrolled(selected: seq<Checkpoint>): seq<StopTime> {
    if AllFollow(ClocksOf(selected)) then Timed(selected) else []
  }

  function StopTimes(texts: Texts, route: seq<RouteStop>, headers: seq<string>, values: seq<string>): seq<StopTime> {
    Unrolled(Checkpoints(texts, route, headers, values, |values|))
  }

  lemma {:induction false} HourOfDay(t: int, clock: Clock)
    requires t >= 0 && t % DAY == clock.OfDay()
    ensures clock.hour + t / DAY * 24 == t / 60 && clock.minute == t % 60
  {
    var days := t / DAY;
    assert t == 60 * (24 * days + clock.hour) + clock.minute;
  }

  /** The loop stands after `i` clocks: the previous minutes and the day they fall on. */
  predicate StandsAfter(clocks: seq<Clock>, i: nat, previous: int, dayOffset: int)
    requires i <= |clocks|
  {
    if i == 0 then previous == -1 && dayOffset == 0 else previous == TimeOf(clocks, i - 1) && dayOffset == previous / DAY
  }

  predicate Rejects(previous: int, clock: Clock) {
    previous % DAY < EVENING || clock.hour > LAST_MORNING_HOUR
  }

  /** The next clock falls on the counter's day, or on the next day when it would go back. */
  lemma {:induction false} UnrollStep(clocks: seq<Clock>, i: nat, previous: int, dayOffset: int)
    requires i < |clocks| && StandsAfter(clocks, i, previous, dayOffset)
    ensures var clock, minutes := clocks[i], clocks[i].OfDay() + dayOffset * DAY;
            if minutes < previous then
              && i > 0 && StandsAfter(clocks, i + 1, minutes + DAY, dayOffset + 1)
              && (FollowsAt(clocks, i) <==> !Rejects(previous, clock))
            else
              StandsAfter(clocks, i + 1, minutes, dayOffset) && (i > 0 ==> FollowsAt(clocks, i))
  {
    TimeAt(clocks, i);
    TimesLift(clocks);
    if i == 0 {
      SameDay(0, clocks[0].OfDay());
    } else {
      NextDay(previous, clocks[i]);
      assert previous == dayOffset * DAY + clocks[i - 1].OfDay();
    }
  }

  lemma {:induction false} PrintedAt(clocks: seq<Clock>, i: nat, minutes: int, dayOffset: int)
    requires i < |clocks| && StandsAfter(clocks, i + 1, minutes, dayOffset)
    ensures dayOffset >= 0
    ensures Padded(clocks[i].hour + dayOffset * 24, 2) + Padded(clocks[i].minute, 2) == Printed(TimeOf(clocks, i))
  {
    TimesLift(clocks);
    HourOfDay(minutes, clocks[i]);
  }

  /** Stop time `i` prints the unrolled minutes of checkpoint `i`. */
  ghost predicate TimedAt(selected: seq<Checkpoint>, clocks: seq<Clock>, timed: seq<StopTime>, i: nat)
    requires i < |selected| == |clocks| == |timed|
  {
    timed[i] == StopTimeAt(selected[i], TimeOf(clocks, i), i + 1)
  }

  /** The minutes, the day counter and the stop time after one more checkpoint; `None` when its
      clock is rejected. */
  method UnrollClock(selected: seq<Checkpoint>, ghost clocks: seq<Clock>, ghost timed: seq<StopTime>, i: nat, previous: int, dayOffset: int)
    returns (next: Option<(int, int, StopTime)>)
    requires i < |selected| == |clocks| == |timed| && clocks[i] == selected[i].clock && TimedAt(selected, clocks, timed, i)
    requires StandsAfter(clocks, i, previous, dayOffset)
    ensures next.None? <==> i > 0 && !FollowsAt(clocks, i)
    ensures next.Some? ==> StandsAfter(clocks, i + 1, next.value.0, next.value.1) && next.value.2 == timed[i]
  {
    var stop, clock := selected[i].stop, selected[i].clock;
    UnrollStep(clocks, i, previous, dayOffset);
    var minutes, day := clock.OfDay() + dayOffset * DAY, dayOffset;
    if minutes < previous {
      if Rejects(previous, clock) {
        return None;
      }
      day := day + 1;
      minutes := minutes + DAY;
    }
    PrintedAt(clocks, i, minutes, day);
    var text := Padded(clock.hour + day * 24, 2) + Padded(clock.minute, 2);
    return Some((minutes, day, StopTime(stop.stopId, stop.sequence, i + 1, text, text)));
  }

  /** The unrolling loop over the checkpoints. */
  method UnrollLoop(selected: seq<Checkpoint>, ghost clocks: seq<Clock>, ghost timed: seq<StopTime>) returns (result: Option<seq<StopTime>>)
    requires |selected| == |clocks| == |timed| && forall i :: 0 <= i < |selected| ==> clocks[i] == selected[i].clock
    requires forall i :: 0 <= i < |selected| ==> TimedAt(selected, clocks, timed, i)
    ensures result == if AllFollow(clocks) then Some(timed) else None
  {
    var stopTimes: seq<StopTime> := [];
    var previous, dayOffset := -1, 0;
    for i := 0 to |selected|
      invariant stopTimes == timed[..i]
      invariant forall k :: 0 < k < i ==> FollowsAt(clocks, k)
      invariant StandsAfter(clocks, i, previous, dayOffset)
    {
      var next := UnrollClock(selected, clocks, timed, i, previous, dayOffset);
      if next.None? {
        assert !FollowsAt(clocks, i);
        return None;
      }
      previous, dayOffset := next.value.0, next.value.1;
      stopTimes := stopTimes + [next.value.2];
      assert timed[..i + 1] == timed[..i] + [timed[i]];
    }
    assert timed[..|selected|] == timed;
    return Some(stopTimes);
  }

  method UnrollStopTimes(selected: seq<Checkpoint>) returns (result: seq<StopTime>)
    ensures result == Unrolled(selected)
  {
    var unrolled := UnrollLoop(selected, ClocksOf(selected), Timed(selected));
    return if unrolled.Some? then unrolled.value else [];
  }

  /** `_candidate_stop_times`. */
  method CandidateStopTimes(texts: Texts, route: seq<RouteStop>, headers: seq<string>, values: seq<string>) returns (result: seq<StopTime>)
    ensures result == StopTimes(texts, route, headers, values)
  {
    var selected := CandidateCheckpointMatches(texts, route, headers, values);
    result := UnrollStopTimes(selected);
  }

  // ------------------------------------------------------------------ reading a service clock back

  function WithoutColons(text: string): string {
    if text == "" then ""
    else
      var front := WithoutColons(text[..|text| - 1]);
      if text[|text| - 1] == ':' then front else front + [text[|text| - 1]]
  }

  predicate AllDigits(text: string) {
    forall i :: 0 <= i < |text| ==> IsDigit(text[i])
  }

  const LAST_SERVICE_HOUR := 71

  /** `_service_time`: a clock of up to three service days, and the day it falls on. */
  function ServiceTime(text: string): Option<(Clock, nat)> {
    var digits := WithoutColons(text);
    if |digits| != 4 || !AllDigits(digits) then None
    else
      var hour, minute := Value(digits[..2]), Value(digits[2..]);
      if hour > LAST_SERVICE_HOUR || minute > 59 then None else Some((WallClock(hour % 24, minute), hour / 24))
  }

  lemma {:induction false} DigitsHaveNoColons(text: string)
    requires AllDigits(text)
    ensures WithoutColons(text) == text
  {
    if text != "" {
      DigitsHaveNoColons(text[..|text| - 1]);
    }
  }

  lemma {:induction false} TwoDigits(n: nat)
    ensures |Padded(n, 2)| >= 2 && (|Padded(n, 2)| == 2 <==> n < 100) && Value(Padded(n, 2)) == n
  {
    assert Power10(1) == 10 && Power10(2) == 100;
    PaddedWidth(n, 2);
    PaddedReadsBack(n, 2);
  }

  /** A printed clock is read back as the same day, hour and minute exactly up to the third day. */
  lemma {:induction false} PrintedReadsBackIff(minutes: nat)
    ensures ServiceTime(Printed(minutes))
            == if minutes / DAY <= 2 then Some((WallClock(minutes / 60 % 24, minutes % 60), minutes / DAY)) else None
  {
    var hour, minute := minutes / 60, minutes % 60;
    var h, m := Padded(hour, 2), Padded(minute, 2);
    TwoDigits(hour);
    TwoDigits(minute);
    DigitsHaveNoColons(h + m);
    assert hour / 24 == minutes / DAY;
    if hour < 100 {
      assert (h + m)[..2] == h && (h + m)[2..] == m;
    }
  }

  /** Reading it back recovers the minutes. */
  lemma {:induction false} ServiceMinutes(minutes: nat)
    requires minutes / DAY <= 2
    ensures ServiceTime(Printed(minutes)).Some?
    ensures var read := ServiceTime(Printed(minutes)).value; read.1 * DAY + read.0.OfDay() == minutes
  {
    PrintedReadsBackIff(minutes);
    DayHourMinute(minutes);
  }

  lemma {:induction false} DayHourMinute(minutes: nat)
    ensures minutes == minutes / DAY * DAY + 60 * (minutes / 60 % 24) + minutes % 60
  {
    var days, hours := minutes / DAY, minutes / 60;
    assert minutes == 60 * hours + minutes % 60 && hours == 24 * days + hours % 24;
  }
}
