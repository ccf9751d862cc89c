/** What cutting breaks out of open windows keeps: exactly the open minutes outside every break,
    windows that stay apart, evidence on every cut edge; and both nestings give the same. */
module OpeningResults {
  import opened Common
  import opened Ordering
  import opened OpeningHours

  // ------------------------------------------------------------------ exactly the open minutes

  ghost predicate Covers(segments: seq<Segment>, t: int) {
    exists s :: s in segments && During(t, s.starts, s.ends)
  }

  ghost predicate InBreak(breaks: seq<Rule>, t: int) {
    exists b :: b in breaks && During(t, b.starts, b.ends)
  }

  lemma {:induction false} CoversJoined(a: seq<Segment>, b: seq<Segment>, t: int)
    ensures Covers(a + b, t) <==> Covers(a, t) || Covers(b, t)
  {
    assert forall s :: s in a + b <==> s in a || s in b;
  }

  lemma {:induction false} CutCovers(s: Segment, b: Rule, t: int)
    ensures Covers(CutSegment(s, b), t) <==> During(t, s.starts, s.ends) && !During(t, b.starts, b.ends)
  {
    var left, right := Segment(s.starts, b.starts, s.facts + [b.fact]), Segment(b.ends, s.ends, s.facts + [b.fact]);
    if Misses(s.starts, s.ends, b) {
      assert s in [s];
    } else if During(t, s.starts, s.ends) && !During(t, b.starts, b.ends) {
      assert if t < b.starts then left in CutSegment(s, b) else right in CutSegment(s, b);
    }
  }

  lemma {:induction false} CutEachCovers(segments: seq<Segment>, b: Rule, t: int)
    ensures Covers(CutEach(segments, b), t) <==> Covers(segments, t) && !During(t, b.starts, b.ends)
  {
    if segments != [] {
      var front, last := segments[..|segments| - 1], segments[|segments| - 1];
      assert segments == front + [last];
      CutEachCovers(front, b, t);
      CutCovers(last, b, t);
      CoversJoined(CutEach(front, b), CutSegment(last, b), t);
      CoversJoined(front, [last], t);
    }
  }

  /** Cutting all breaks leaves exactly the minutes of the segments that are in no break, even for
      breaks that end before they start. */
  lemma {:induction false} SegmentsCover(segments: seq<Segment>, breaks: seq<Rule>, t: int)
    ensures Covers(Segments(segments, breaks), t) <==> Covers(segments, t) && !InBreak(breaks, t)
  {
    if breaks != [] {
      var front, last := breaks[..|breaks| - 1], breaks[|breaks| - 1];
      assert breaks == front + [last];
      SegmentsCover(segments, front, t);
      CutEachCovers(Segments(segments, front), last, t);
      assert forall b :: b in breaks <==> b in front || b == last;
    }
  }

  // ------------------------------------------------------------------ the two nestings

  lemma {:induction false} FlatMapJoined<T, U>(f: T -> seq<U>, a: seq<T>, b: seq<T>)
    ensures FlatMap(f, a + b) == FlatMap(f, a) + FlatMap(f, b)
  {
    if b == [] {
      assert a + b == a;
    } else {
      FlatMapJoined(f, a, b[..|b| - 1]);
      assert (a + b)[..|a + b| - 1] == a + b[..|b| - 1];
    }
  }

  lemma {:induction false} SegmentsJoined(a: seq<Segment>, b: seq<Segment>, breaks: seq<Rule>)
    ensures Segments(a + b, breaks) == Segments(a, breaks) + Segments(b, breaks)
  {
    if breaks != [] {
      var front, last := breaks[..|breaks| - 1], breaks[|breaks| - 1];
      SegmentsJoined(a, b, front);
      FlatMapJoined((s: Segment) => CutSegment(s, last), Segments(a, front), Segments(b, front));
    }
  }

  lemma {:induction false} NothingToCut(breaks: seq<Rule>)
    ensures Segments([], breaks) == []
  {
    if breaks != [] {
      NothingToCut(breaks[..|breaks| - 1]);
    }
  }

  function OpenSegments(opens: seq<Rule>): (r: seq<Segment>)
    ensures |r| == |opens| && forall i :: 0 <= i < |r| ==> r[i] == OpenSegment(opens[i])
  {
    seq(|opens|, i requires 0 <= i < |opens| => OpenSegment(opens[i]))
  }

  /** Windows outside or breaks outside, the same segments come out in the same order. */
  lemma {:induction false} NestingsAgree(opens: seq<Rule>, breaks: seq<Rule>)
    ensures FlatMap(RuleSegments(breaks), opens) == Segments(OpenSegments(opens), breaks)
  {
    if opens == [] {
      NothingToCut(breaks);
    } else {
      var front, last := opens[..|opens| - 1], opens[|opens| - 1];
      NestingsAgree(front, breaks);
      assert OpenSegments(opens) == OpenSegments(front) + [OpenSegment(last)];
      SegmentsJoined(OpenSegments(front), [OpenSegment(last)], breaks);
    }
  }

  // ------------------------------------------------------------------ windows and segments

  function Once(s: Segment): Segment {
    s.(facts := Unrepeated(s.facts))
  }

  /** The windows are the segments with repeated evidence removed. */
  ghost predicate Matches(windows: seq<Window>, segments: seq<Segment>) {
    |windows| == |segments| && forall i :: 0 <= i < |windows| ==> SpanOf(windows[i]) == Once(segments[i])
  }

  lemma {:induction false} UnrepeatedTwice(ids: seq<FactId>)
    ensures Unrepeated(Unrepeated(ids)) == Unrepeated(ids)
  {
    if ids != [] {
      var front, last := Unrepeated(ids[..|ids| - 1]), ids[|ids| - 1];
      UnrepeatedTwice(ids[..|ids| - 1]);
      if last !in front {
        assert (front + [last])[..|front|] == front;
      }
    }
  }

  lemma {:induction false} UnrepeatedOneMore(ids: seq<FactId>, x: FactId)
    ensures Unrepeated(Unrepeated(ids) + [x]) == Unrepeated(ids + [x])
  {
    UnrepeatedTwice(ids);
    assert (Unrepeated(ids) + [x])[..|Unrepeated(ids)|] == Unrepeated(ids);
    assert (ids + [x])[..|ids|] == ids;
  }

  lemma {:induction false} CutMatches(w: Window, s: Segment, b: Rule)
    requires SpanOf(w) == Once(s)
    ensures Matches(CutWindow(w, b), CutSegment(s, b))
  {
    if !Misses(w.opens, w.closes, b) {
      var evidence, facts := Unrepeated(w.evidence + [b.fact]), s.facts + [b.fact];
      assert evidence == Unrepeated(facts) by {
        UnrepeatedOneMore(s.facts, b.fact);
      }
      PiecesMatch(w, s, b, evidence, facts);
    }
  }

  lemma {:induction false} PiecesMatch(w: Window, s: Segment, b: Rule, evidence: seq<FactId>, facts: seq<FactId>)
    requires w.opens == s.starts && w.closes == s.ends && evidence == Unrepeated(facts)
    ensures Matches((if w.opens < b.starts then [w.(closes := b.starts, evidence := evidence)] else [])
                    + (if b.ends < w.closes then [w.(opens := b.ends, evidence := evidence)] else []),
                    (if s.starts < b.starts then [Segment(s.starts, b.starts, facts)] else [])
                    + (if b.ends < s.ends then [Segment(b.ends, s.ends, facts)] else []))
  {
  }

  lemma {:induction false} MatchesJoined(a: seq<Window>, b: seq<Window>, c: seq<Segment>, d: seq<Segment>)
    requires Matches(a, c) && Matches(b, d)
    ensures Matches(a + b, c + d)
  {
  }

  lemma {:induction false} CutAllMatches(windows: seq<Window>, segments: seq<Segment>, b: Rule)
    requires Matches(windows, segments)
    ensures Matches(CutAll(windows, b), CutEach(segments, b))
  {
    if windows != [] {
      var n := |windows| - 1;
      CutAllMatches(windows[..n], segments[..n], b);
      CutMatches(windows[n], segments[n], b);
      MatchesJoined(CutAll(windows[..n], b), CutWindow(windows[n], b), CutEach(segments[..n], b), CutSegment(segments[n], b));
    }
  }

  lemma {:induction false} RemainingMatches(windows: seq<Window>, segments: seq<Segment>, breaks: seq<Rule>)
    requires Matches(windows, segments)
    ensures Matches(Remaining(windows, breaks), Segments(segments, breaks))
  {
    if breaks != [] {
      var front := breaks[..|breaks| - 1];
      RemainingMatches(windows, segments, front);
      CutAllMatches(Remaining(windows, front), Segments(segments, front), breaks[|breaks| - 1]);
    }
  }

  lemma {:induction false} OpenMatches(opens: seq<Rule>)
    ensures Matches(OpenWindows(opens), OpenSegments(opens))
  {
    forall i | 0 <= i < |opens| ensures SpanOf(OpenWindow(opens[i])) == Once(OpenSegment(opens[i])) {
      DistinctStay([opens[i].fact]);
    }
  }

  /** Before sorting, the generation's windows are the evaluator's segments, up to repeated evidence. */
  lemma {:induction false} FormsMatch(rules: seq<Rule>)
    ensures Matches(Remaining(OpenWindows(RulesOf(rules, Open)), RulesOf(rules, Break)),
                    FlatMap(RuleSegments(RulesOf(rules, Break)), RulesOf(rules, Open)))
  {
    var opens, breaks := RulesOf(rules, Open), RulesOf(rules, Break);
    OpenMatches(opens);
    RemainingMatches(OpenWindows(opens), OpenSegments(opens), breaks);
    NestingsAgree(opens, breaks);
  }

  // ------------------------------------------------------------------ the minutes of both forms

  /** Some open rule has the minute and no break does. */
  ghost predicate OpenAt(rules: seq<Rule>, t: int) {
    && (exists r :: r in rules && r.kind == Open && During(t, r.starts, r.ends))
    && !(exists r :: r in rules && r.kind == Break && During(t, r.starts, r.ends))
  }

  lemma {:induction false} OpenSegmentsCover(rules: seq<Rule>, t: int)
    ensures Covers(Segments(OpenSegments(RulesOf(rules, Open)), RulesOf(rules, Break)), t) <==> OpenAt(rules, t)
  {
    var opens, breaks := RulesOf(rules, Open), RulesOf(rules, Break);
    SegmentsCover(OpenSegments(opens), breaks, t);
    assert Covers(OpenSegments(opens), t) <==> exists r :: r in opens && During(t, r.starts, r.ends) by {
      if Covers(OpenSegments(opens), t) {
        var s :| s in OpenSegments(opens) && During(t, s.starts, s.ends);
        var i :| 0 <= i < |opens| && OpenSegments(opens)[i] == s;
        assert opens[i] in opens;
      }
      if r :| r in opens && During(t, r.starts, r.ends) {
        var i :| 0 <= i < |opens| && opens[i] == r;
        assert OpenSegments(opens)[i] in OpenSegments(opens);
      }
    }
    assert InBreak(breaks, t) <==> exists r :: r in rules && r.kind == Break && During(t, r.starts, r.ends);
  }

  ghost predicate Offers(windows: seq<Window>, t: int) {
    exists w :: w in windows && During(t, w.opens, w.closes)
  }

  lemma {:induction false} MatchesCover(windows: seq<Window>, segments: seq<Segment>, t: int)
    requires Matches(windows, segments)
    ensures Offers(windows, t) <==> Covers(segments, t)
  {
    if w :| w in windows && During(t, w.opens, w.closes) {
      var i :| 0 <= i < |windows| && windows[i] == w;
      assert segments[i] in segments && SpanOf(w) == Once(segments[i]);
    }
    if s :| s in segments && During(t, s.starts, s.ends) {
      var i :| 0 <= i < |segments| && segments[i] == s;
      assert windows[i] in windows && SpanOf(windows[i]) == Once(s);
    }
  }

  lemma {:induction false} SortOffers(windows: seq<Window>, t: int)
    ensures Offers(Sort(WindowLess, windows), t) <==> Offers(windows, t)
  {
    forall w ensures w in Sort(WindowLess, windows) <==> w in windows {
      SortKeepsElements(WindowLess, windows, w);
    }
  }

  /** The generation offers exactly the open minutes outside every break. */
  lemma {:induction false} GenerationCovers(rules: seq<Rule>, t: int)
    ensures Offers(GenerationWindows(rules), t) <==> OpenAt(rules, t)
  {
    var opens, breaks := RulesOf(rules, Open), RulesOf(rules, Break);
    var windows, segments := Remaining(OpenWindows(opens), breaks), Segments(OpenSegments(opens), breaks);
    OpenMatches(opens);
    RemainingMatches(OpenWindows(opens), OpenSegments(opens), breaks);
    MatchesCover(windows, segments, t);
    SortOffers(windows, t);
    OpenSegmentsCover(rules, t);
  }

  /** The minute is open that day: by the exception when there is one, else by the rules. */
  ghost predicate OpenOn(exception: Option<Exception>, rules: seq<Rule>, t: int) {
    match exception
    case None => OpenAt(rules, t)
    case Some(x) => !x.closed && During(t, x.starts, x.ends) && !InBreak(RulesOf(rules, Break), t)
  }

  lemma {:induction false} ExceptionCovers(x: Exception, breaks: seq<Rule>, t: int)
    ensures Covers(ExceptionSegments(x, breaks), t) <==> During(t, x.starts, x.ends) && !InBreak(breaks, t)
  {
    var whole := Segment(x.starts, x.ends, [x.fact]);
    SegmentsCover([whole], breaks, t);
    assert whole in [whole];
  }

  lemma {:induction false} RegularCovers(rules: seq<Rule>, t: int)
    ensures Covers(RegularSegments(rules), t) <==> OpenAt(rules, t)
  {
    var opens, breaks := RulesOf(rules, Open), RulesOf(rules, Break);
    var segments := FlatMap(RuleSegments(breaks), opens);
    NestingsAgree(opens, breaks);
    OpenSegmentsCover(rules, t);
    forall s ensures s in RegularSegments(rules) <==> s in segments {
      SortKeepsElements(SpanLess, segments, s);
    }
  }

  /** The evaluator reports exactly the open minutes; its closed-day segment adds none. */
  lemma {:induction false} EvaluationCovers(exception: Option<Exception>, rules: seq<Rule>, t: int)
    ensures Covers(EvaluationSegments(exception, rules), t) <==> OpenOn(exception, rules, t)
  {
    match exception
    case Some(x) => ExceptionCovers(x, RulesOf(rules, Break), t);
    case None => RegularCovers(rules, t);
  }

  // ------------------------------------------------------------------ the two forms agree

  ghost predicate DistinctFacts(rules: seq<Rule>) {
    forall i, j :: 0 <= i < j < |rules| ==> rules[i].fact != rules[j].fact
  }

  predicate Cites(breaks: seq<Rule>, fact: FactId) {
    exists b :: b in breaks && b.fact == fact
  }

  lemma {:induction false} DistinctStay(ids: seq<FactId>)
    requires Distinct(ids)
    ensures Unrepeated(ids) == ids
  {
    if ids != [] {
      DistinctStay(ids[..|ids| - 1]);
      assert ids == ids[..|ids| - 1] + [ids[|ids| - 1]];
      assert ids[|ids| - 1] !in ids[..|ids| - 1];
    }
  }

  /** A segment's facts do not repeat and come from its open rule and the breaks. */
  ghost predicate PlainFacts(s: Segment, open: FactId, breaks: seq<Rule>) {
    Distinct(s.facts) && forall x :: x in s.facts ==> x == open || Cites(breaks, x)
  }

  lemma {:induction false} CutKeepsPlain(s: Segment, open: FactId, breaks: seq<Rule>, b: Rule)
    requires PlainFacts(s, open, breaks) && b.fact != open && !Cites(breaks, b.fact)
    ensures forall r :: r in CutSegment(s, b) ==> PlainFacts(r, open, breaks + [b])
  {
    assert forall x :: Cites(breaks + [b], x) <==> Cites(breaks, x) || x == b.fact by {
      assert forall y :: y in breaks + [b] <==> y in breaks || y == b;
    }
    assert b.fact !in s.facts;
  }

  lemma {:induction false} FlatMapHas<T, U>(f: T -> seq<U>, s: seq<T>, y: U) returns (x: T)
    requires y in FlatMap(f, s)
    ensures x in s && y in f(x)
  {
    x := s[|s| - 1];
    if y !in f(x) {
      x := FlatMapHas(f, s[..|s| - 1], y);
    }
  }

  lemma {:induction false} SegmentsArePlain(rule: Rule, breaks: seq<Rule>, r: Segment)
    requires r in Segments([OpenSegment(rule)], breaks)
    requires DistinctFacts(breaks) && !Cites(breaks, rule.fact)
    ensures PlainFacts(r, rule.fact, breaks)
  {
    if breaks != [] {
      var front, last := breaks[..|breaks| - 1], breaks[|breaks| - 1];
      assert breaks == front + [last] && last in breaks;
      var s := FlatMapHas((s: Segment) => CutSegment(s, last), Segments([OpenSegment(rule)], front), r);
      assert forall b :: b in front ==> b in breaks;
      SegmentsArePlain(rule, front, s);
      assert !Cites(front, last.fact);
      CutKeepsPlain(s, rule.fact, front, last);
    }
  }

  function Spans(windows: seq<Window>): seq<Segment> {
    Mapped(SpanOf, windows)
  }

  lemma {:induction false} SegmentsAreOnce(opens: seq<Rule>, breaks: seq<Rule>, s: Segment)
    requires s in FlatMap(RuleSegments(breaks), opens)
    requires DistinctFacts(breaks) && forall r :: r in opens ==> !Cites(breaks, r.fact)
    ensures Once(s) == s
  {
    var rule := FlatMapHas(RuleSegments(breaks), opens, s);
    SegmentsArePlain(rule, breaks, s);
    DistinctStay(s.facts);
  }

  /** When no fact id repeats, generation and evaluation give the same intervals with the same
      evidence in the same order. */
  lemma {:induction false} FormsAgree(rules: seq<Rule>)
    requires DistinctFacts(RulesOf(rules, Break)) && forall r :: r in RulesOf(rules, Open) ==> !Cites(RulesOf(rules, Break), r.fact)
    ensures Spans(GenerationWindows(rules)) == RegularSegments(rules)
  {
    var opens, breaks := RulesOf(rules, Open), RulesOf(rules, Break);
    var windows, segments := Remaining(OpenWindows(opens), breaks), FlatMap(RuleSegments(breaks), opens);
    FormsMatch(rules);
    forall i | 0 <= i < |segments| ensures Spans(windows)[i] == segments[i] {
      assert segments[i] in segments;
      SegmentsAreOnce(opens, breaks, segments[i]);
    }
    assert Spans(windows) == segments;
    SortMapped(SpanOf, WindowLess, SpanLess, windows);
  }

  // ------------------------------------------------------------------ apart, and with evidence

  predicate Apart(a: Segment, b: Segment) {
    a.ends <= b.starts || b.ends <= a.starts
  }

  ghost predicate AllApart(segments: seq<Segment>) {
    forall i, j :: 0 <= i < j < |segments| ==> Apart(segments[i], segments[j])
  }

  predicate Within(r: Segment, s: Segment) {
    s.starts <= r.starts && r.ends <= s.ends
  }

  /** One cut leaves pieces apart unless the break is inside the segment and ends before it starts. */
  lemma {:induction false} CutIsApartIff(s: Segment, b: Rule)
    ensures AllApart(CutSegment(s, b)) <==> !(s.starts < b.ends < b.starts < s.ends)
  {
    if !Misses(s.starts, s.ends, b) && s.starts < b.starts && b.ends < s.ends {
      assert CutSegment(s, b)[0] == Segment(s.starts, b.starts, s.facts + [b.fact]);
      assert CutSegment(s, b)[1] == Segment(b.ends, s.ends, s.facts + [b.fact]);
    }
  }

  lemma {:induction false} ApartJoined(a: seq<Segment>, b: seq<Segment>)
    requires AllApart(a) && AllApart(b) && forall x, y :: x in a && y in b ==> Apart(x, y)
    ensures AllApart(a + b)
  {
    var all := a + b;
    forall i, j | 0 <= i < j < |all| ensures Apart(all[i], all[j]) {
      assert if i < |a| then all[i] == a[i] && a[i] in a else all[i] == b[i - |a|];
      assert if j < |a| then all[j] == a[j] else all[j] == b[j - |a|] && b[j - |a|] in b;
    }
  }

  lemma {:induction false} CutEachStaysApart(segments: seq<Segment>, b: Rule)
    requires AllApart(segments) && b.starts <= b.ends
    ensures AllApart(CutEach(segments, b))
  {
    if segments != [] {
      var front, last := segments[..|segments| - 1], segments[|segments| - 1];
      CutEachStaysApart(front, b);
      CutIsApartIff(last, b);
      forall x, y | x in CutEach(front, b) && y in CutSegment(last, b) ensures Apart(x, y) {
        var s := FlatMapHas((s: Segment) => CutSegment(s, b), front, x);
        var i :| 0 <= i < |front| && front[i] == s;
        assert Apart(segments[i], segments[|segments| - 1]);
        assert Within(x, s) && Within(y, last);
      }
      ApartJoined(CutEach(front, b), CutSegment(last, b));
    }
  }

  /** Segments that are apart stay apart when no break ends before it starts. */
  lemma {:induction false} SegmentsStayApart(segments: seq<Segment>, breaks: seq<Rule>)
    requires AllApart(segments) && forall b :: b in breaks ==> b.starts <= b.ends
    ensures AllApart(Segments(segments, breaks))
  {
    if breaks != [] {
      var front, last := breaks[..|breaks| - 1], breaks[|breaks| - 1];
      assert last in breaks && forall b :: b in front ==> b in breaks;
      SegmentsStayApart(segments, front);
      CutEachStaysApart(Segments(segments, front), last);
    }
  }

  predicate StartCited(r: Segment, s: Segment, breaks: seq<Rule>) {
    r.starts == s.starts || exists b :: b in breaks && b.ends == r.starts && b.fact in r.facts
  }

  predicate EndCited(r: Segment, s: Segment, breaks: seq<Rule>) {
    r.ends == s.ends || exists b :: b in breaks && b.starts == r.ends && b.fact in r.facts
  }

  /** `r` is a piece of `s` that keeps its facts, and each edge it does not share with `s` is the
      edge of a break whose fact it carries. */
  ghost predicate PieceOf(r: Segment, s: Segment, breaks: seq<Rule>) {
    Within(r, s) && s.facts <= r.facts && StartCited(r, s, breaks) && EndCited(r, s, breaks)
  }

  lemma {:induction false} CutIsPiece(q: Segment, r: Segment, s: Segment, front: seq<Rule>, last: Rule)
    requires PieceOf(r, s, front) && q in CutSegment(r, last)
    ensures PieceOf(q, s, front + [last])
  {
    assert last in front + [last] && forall b :: b in front ==> b in front + [last];
    assert r.facts <= q.facts;
  }

  /** Every segment left over is a piece of one of the given segments, with evidence for its edges. */
  lemma {:induction false} SegmentsArePieces(segments: seq<Segment>, breaks: seq<Rule>, q: Segment) returns (s: Segment)
    requires q in Segments(segments, breaks)
    ensures s in segments && PieceOf(q, s, breaks)
  {
    if breaks == [] {
      s := q;
    } else {
      var front, last := breaks[..|breaks| - 1], breaks[|breaks| - 1];
      assert breaks == front + [last];
      var r := FlatMapHas((x: Segment) => CutSegment(x, last), Segments(segments, front), q);
      s := SegmentsArePieces(segments, front, r);
      CutIsPiece(q, r, s, front, last);
    }
  }
}
