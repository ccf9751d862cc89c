/** Opening hours of a place on one day: the verified breaks cut out of the open windows, once with
    the breaks outside (generation) and once with the windows outside (evaluation). Times are
    minutes since the day's midnight; fact ids are numbers in their own order. */
module OpeningHours {
  import opened Common
  import opened Ordering

  type FactId = int

  datatype Window = Window(opens: int, closes: int, lastAdmission: Option<int>, lastOrder: Option<int>, evidence: seq<FactId>)

  datatype Segment = Segment(starts: int, ends: int, facts: seq<FactId>)

  /** A rule of one day, already turned into its first and last minute. */
  datatype Kind = Open | Break
  datatype Rule = Rule(kind: Kind, starts: int, ends: int, fact: FactId, lastAdmission: Option<int>, lastOrder: Option<int>)

  datatype Exception = Exception(closed: bool, starts: int, ends: int, fact: FactId)

  predicate During(t: int, starts: int, ends: int) {
    starts <= t < ends
  }

  predicate Misses(starts: int, ends: int, b: Rule) {
    b.ends <= starts || b.starts >= ends
  }

  // ------------------------------------------------------------------ one break out of one window

  /** `dict.fromkeys`: each id once, where it first stood. */
  function Unrepeated(ids: seq<FactId>): (r: seq<FactId>)
    ensures forall x :: x in r <==> x in ids
  {
    if ids == [] then []
    else
      assert ids == ids[..|ids| - 1] + [ids[|ids| - 1]];
      var front := Unrepeated(ids[..|ids| - 1]);
      if ids[|ids| - 1] in front then front else front + [ids[|ids| - 1]]
  }

  function CutWindow(w: Window, b: Rule): seq<Window> {
    if Misses(w.opens, w.closes, b) then [w]
    else
      var evidence := Unrepeated(w.evidence + [b.fact]);
      (if w.opens < b.starts then [w.(closes := b.starts, evidence := evidence)] else [])
      + (if b.ends < w.closes then [w.(opens := b.ends, evidence := evidence)] else [])
  }

  function CutSegment(s: Segment, b: Rule): seq<Segment> {
    if Misses(s.starts, s.ends, b) then [s]
    else
      var facts := s.facts + [b.fact];
      (if s.starts < b.starts then [Segment(s.starts, b.starts, facts)] else [])
      + (if b.ends < s.ends then [Segment(b.ends, s.ends, facts)] else [])
  }

  // ------------------------------------------------------------------ all breaks, in the two nestings

  /** Every item replaced by what it becomes, in order. */
  function FlatMap<T, U>(f: T -> seq<U>, s: seq<T>): seq<U> {
    if s == [] then [] else FlatMap(f, s[..|s| - 1]) + f(s[|s| - 1])
  }

  function CutAll(windows: seq<Window>, b: Rule): seq<Window> {
    FlatMap((w: Window) => CutWindow(w, b), windows)
  }

  /** Breaks outside: all windows are cut by one break after the other. */
  function Remaining(windows: seq<Window>, breaks: seq<Rule>): seq<Window> {
    if breaks == [] then windows else CutAll(Remaining(windows, breaks[..|breaks| - 1]), breaks[|breaks| - 1])
  }

  function CutEach(segments: seq<Segment>, b: Rule): seq<Segment> {
    FlatMap((s: Segment) => CutSegment(s, b), segments)
  }

  function Segments(segments: seq<Segment>, breaks: seq<Rule>): seq<Segment> {
    if breaks == [] then segments else CutEach(Segments(segments, breaks[..|breaks| - 1]), breaks[|breaks| - 1])
  }

  function RulesOf(rules: seq<Rule>, kind: Kind): (r: seq<Rule>)
    ensures forall x :: x in r <==> x in rules && x.kind == kind
  {
    if rules == [] then []
    else
      assert rules == rules[..|rules| - 1] + [rules[|rules| - 1]];
      var front, last := RulesOf(rules[..|rules| - 1], kind), rules[|rules| - 1];
      if last.kind == kind then front + [last] else front
  }

  function OpenWindow(rule: Rule): Window {
    Window(rule.starts, rule.ends, rule.lastAdmission, rule.lastOrder, [rule.fact])
  }

  function OpenSegment(rule: Rule): Segment {
    Segment(rule.starts, rule.ends, [rule.fact])
  }

  function OpenWindows(opens: seq<Rule>): (r: seq<Window>)
    ensures |r| == |opens| && forall i :: 0 <= i < |r| ==> r[i] == OpenWindow(opens[i])
  {
    seq(|opens|, i requires 0 <= i < |opens| => OpenWindow(opens[i]))
  }

  /** Windows outside: every open rule is cut by all breaks before the next. */
  function RuleSegments(breaks: seq<Rule>): Rule -> seq<Segment> {
    rule => Segments([OpenSegment(rule)], breaks)
  }

  predicate IdsLess(a: seq<FactId>, b: seq<FactId>) {
    if b == [] then false
    else if a == [] then true
    else a[0] < b[0] || (a[0] == b[0] && IdsLess(a[1..], b[1..]))
  }

  predicate SpanLess(a: Segment, b: Segment) {
    a.starts < b.starts
    || (a.starts == b.starts && (a.ends < b.ends || (a.ends == b.ends && IdsLess(a.facts, b.facts))))
  }

  function SpanOf(w: Window): Segment {
    Segment(w.opens, w.closes, w.evidence)
  }

  predicate WindowLess(a: Window, b: Window) {
    SpanLess(SpanOf(a), SpanOf(b))
  }

  /** `_verified_opening_windows`. */
  function GenerationWindows(rules: seq<Rule>): seq<Window> {
    Sort(WindowLess, Remaining(OpenWindows(RulesOf(rules, Open)), RulesOf(rules, Break)))
  }

  function FactsOf(rules: seq<Rule>): seq<FactId> {
    seq(|rules|, i requires 0 <= i < |rules| => rules[i].fact)
  }

  /** A day known to be closed throughout: one empty segment that carries the facts. */
  function ClosedAllDay(facts: seq<FactId>): seq<Segment> {
    [Segment(0, 0, facts)]
  }

  function RegularSegments(rules: seq<Rule>): seq<Segment> {
    Sort(SpanLess, FlatMap(RuleSegments(RulesOf(rules, Break)), RulesOf(rules, Open)))
  }

  function ExceptionSegments(x: Exception, breaks: seq<Rule>): seq<Segment> {
    Segments([Segment(x.starts, x.ends, [x.fact])], breaks)
  }

  /** The evaluator's `opening_windows`, from the day's exception, if any, and its rules. */
  function EvaluationSegments(exception: Option<Exception>, rules: seq<Rule>): seq<Segment> {
    match exception
    case Some(x) =>
      var breaks := RulesOf(rules, Break);
      if x.closed then ClosedAllDay([x.fact])
      else if ExceptionSegments(x, breaks) == [] then ClosedAllDay(Unrepeated([x.fact] + FactsOf(breaks)))
      else ExceptionSegments(x, breaks)
    case None =>
      if RegularSegments(rules) == [] && rules != [] then ClosedAllDay(Unrepeated(FactsOf(rules))) else RegularSegments(rules)
  }

  // ------------------------------------------------------------------ the loops as they run

  lemma {:induction false} FlatMapNext<T, U>(f: T -> seq<U>, s: seq<T>, i: nat)
    requires i < |s|
    ensures FlatMap(f, s[..i + 1]) == FlatMap(f, s[..i]) + f(s[i])
  {
    assert s[..i + 1][..i] == s[..i];
  }

  method CutWindows(windows: seq<Window>, b: Rule) returns (next: seq<Window>)
    ensures next == CutAll(windows, b)
  {
    next := [];
    for i := 0 to |windows|
      invariant next == FlatMap((w: Window) => CutWindow(w, b), windows[..i])
    {
      var w := windows[i];
      FlatMapNext((w: Window) => CutWindow(w, b), windows, i);
      if b.ends <= w.opens || b.starts >= w.closes {
        next := next + [w];
        continue;
      }
      var evidence := Unrepeated(w.evidence + [b.fact]);
      var pieces: seq<Window> := [];
      if w.opens < b.starts {
        pieces := pieces + [w.(closes := b.starts, evidence := evidence)];
      }
      if b.ends < w.closes {
        pieces := pieces + [w.(opens := b.ends, evidence := evidence)];
      }
      next := next + pieces;
    }
    assert windows[..|windows|] == windows;
  }

  /** `_subtract_verified_breaks`. */
  method SubtractVerifiedBreaks(windows: seq<Window>, breaks: seq<Rule>) returns (result: seq<Window>)
    ensures result == Sort(WindowLess, Remaining(windows, breaks))
  {
    var remaining := windows;
    for i := 0 to |breaks|
      invariant remaining == Remaining(windows, breaks[..i])
    {
      assert breaks[..i + 1][..i] == breaks[..i];
      remaining := CutWindows(remaining, breaks[i]);
    }
    assert breaks[..|breaks|] == breaks;
    result := Sort(WindowLess, remaining);
  }

  method CutSegments(segments: seq<Segment>, breaks: seq<Rule>) returns (result: seq<Segment>)
    ensures result == Segments(segments, breaks)
  {
    result := segments;
    for i := 0 to |breaks|
      invariant result == Segments(segments, breaks[..i])
    {
      assert breaks[..i + 1][..i] == breaks[..i];
      var b, next := breaks[i], [];
      for k := 0 to |result|
        invariant next == FlatMap((s: Segment) => CutSegment(s, b), result[..k])
      {
        FlatMapNext((s: Segment) => CutSegment(s, b), result, k);
        next := next + CutSegment(result[k], b);
      }
      assert result[..|result|] == result;
      result := next;
    }
    assert breaks[..|breaks|] == breaks;
  }
}
