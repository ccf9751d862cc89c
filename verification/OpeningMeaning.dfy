/** Which windows and segments a day's opening hours give, written out: each is an open rule's own
    span taken through the breaks one after the other, with what it keeps and what it cites. */
module OpeningMeaning {
  import opened Common
  import opened Ordering
  import opened OpeningHours
  import opened OpeningResults
  import OpeningAgreement

  // ------------------------------------------------------------------ ids without repetition

  /** List `r` holds every id once, where it stands first. */
  ghost predicate OnceEach(ids: seq<FactId>, at: seq<nat>, r: seq<FactId>) {
    && |r| == |at|
    && (forall i, j :: 0 <= i < j < |at| ==> at[i] < at[j])
    && (forall i :: 0 <= i < |at| ==> at[i] < |ids| && r[i] == ids[at[i]] && forall k :: 0 <= k < at[i] ==> ids[k] != r[i])
    && (forall k :: 0 <= k < |ids| ==> ids[k] in r)
  }

  lemma {:induction false} UnrepeatedMeans(ids: seq<FactId>) returns (at: seq<nat>)
    ensures OnceEach(ids, at, Unrepeated(ids))
  {
    at := [];
    if ids != [] {
      var n := |ids| - 1;
      var front := Unrepeated(ids[..n]);
      at := UnrepeatedMeans(ids[..n]);
      assert ids == ids[..n] + [ids[n]];
      if ids[n] !in front {
        at := at + [n];
        forall k | 0 <= k < n ensures ids[k] != ids[n] {
          assert ids[..n][k] in front;
        }
      }
      forall k | 0 <= k < |ids| ensures ids[k] in Unrepeated(ids) {}
      assert forall i, k :: 0 <= i < |front| && 0 <= k < at[i] ==> ids[..n][k] == ids[k];
    }
  }

  // ------------------------------------------------------------------ a window through the breaks

  /** What is left of a window: the part before the break or the part after it, with the break's
      fact among its evidence, or all of it when the break lies outside. */
  ghost predicate IsLeft(w: Window, b: Rule, v: Window) {
    && v.lastAdmission == w.lastAdmission && v.lastOrder == w.lastOrder
    && if b.ends <= w.opens || w.closes <= b.starts then v == w
       else
         && v.evidence == (if b.fact in w.evidence then w.evidence else w.evidence + [b.fact])
         && (|| (w.opens < b.starts && v.opens == w.opens && v.closes == b.starts)
             || (b.ends < w.closes && v.opens == b.ends && v.closes == w.closes))
  }

  ghost predicate WindowPath(w: Window, breaks: seq<Rule>, path: seq<Window>, v: Window) {
    && |path| == |breaks| + 1 && path[0] == w && path[|breaks|] == v
    && forall i :: 0 <= i < |breaks| ==> IsLeft(path[i], breaks[i], path[i + 1])
  }

  ghost predicate WindowFrom(w: Window, breaks: seq<Rule>, v: Window) {
    exists path :: WindowPath(w, breaks, path, v)
  }

  lemma {:induction false} CutMeans(w: Window, b: Rule, v: Window)
    requires Distinct(w.evidence)
    ensures v in CutWindow(w, b) <==> IsLeft(w, b, v)
    ensures v in CutWindow(w, b) ==> Distinct(v.evidence)
  {
    var ids := w.evidence + [b.fact];
    assert ids[..|ids| - 1] == w.evidence;
    DistinctStay(w.evidence);
  }

  lemma {:induction false} FlatMapIff<T(!new), U>(f: T -> seq<U>, s: seq<T>, y: U)
    ensures y in FlatMap(f, s) <==> exists x :: x in s && y in f(x)
  {
    if s != [] {
      FlatMapIff(f, s[..|s| - 1], y);
      assert s == s[..|s| - 1] + [s[|s| - 1]];
    }
  }

  lemma {:induction false} PathOneMore(w: Window, front: seq<Rule>, last: Rule, v: Window)
    ensures WindowFrom(w, front + [last], v) <==> exists u :: WindowFrom(w, front, u) && IsLeft(u, last, v)
  {
    var breaks, n := front + [last], |front|;
    if WindowFrom(w, breaks, v) {
      var path :| WindowPath(w, breaks, path, v);
      assert IsLeft(path[n], breaks[n], path[n + 1]);
      forall i | 0 <= i < n ensures IsLeft(path[i], front[i], path[i + 1]) {
        assert breaks[i] == front[i];
      }
      assert WindowPath(w, front, path[..n + 1], path[n]);
    }
    if u :| WindowFrom(w, front, u) && IsLeft(u, last, v) {
      var path :| WindowPath(w, front, path, u);
      var all := path + [v];
      forall i | 0 <= i < |breaks| ensures IsLeft(all[i], breaks[i], all[i + 1]) {
        if i < n {
          assert IsLeft(path[i], front[i], path[i + 1]);
        }
      }
      assert WindowPath(w, breaks, all, v);
    }
  }

  ghost predicate AllDistinct(windows: seq<Window>) {
    forall w :: w in windows ==> Distinct(w.evidence)
  }

  ghost predicate FromAny(windows: seq<Window>, breaks: seq<Rule>, v: Window) {
    exists w :: w in windows && WindowFrom(w, breaks, v)
  }

  lemma {:induction false} RemainingMeans(windows: seq<Window>, breaks: seq<Rule>)
    requires AllDistinct(windows)
    ensures AllDistinct(Remaining(windows, breaks))
    ensures forall v :: v in Remaining(windows, breaks) <==> FromAny(windows, breaks, v)
  {
    if breaks == [] {
      forall v ensures v in windows <==> FromAny(windows, breaks, v) {
        assert v in windows ==> WindowPath(v, breaks, [v], v);
      }
    } else {
      var front, last := breaks[..|breaks| - 1], breaks[|breaks| - 1];
      assert breaks == front + [last];
      RemainingMeans(windows, front);
      forall v
        ensures v in Remaining(windows, breaks) ==> Distinct(v.evidence)
        ensures v in Remaining(windows, breaks) <==> FromAny(windows, breaks, v)
      {
        CutAllMeans(windows, Remaining(windows, front), front, last, v);
      }
    }
  }

  lemma {:induction false} CutAllMeans(windows: seq<Window>, cut: seq<Window>, front: seq<Rule>, last: Rule, v: Window)
    requires AllDistinct(cut) && forall u :: u in cut <==> FromAny(windows, front, u)
    ensures v in CutAll(cut, last) ==> Distinct(v.evidence)
    ensures v in CutAll(cut, last) <==> FromAny(windows, front + [last], v)
  {
    FlatMapIff((w: Window) => CutWindow(w, last), cut, v);
    forall u | u in cut ensures v in CutWindow(u, last) <==> IsLeft(u, last, v) {
      CutMeans(u, last, v);
    }
    if v in CutAll(cut, last) {
      var u :| u in cut && v in CutWindow(u, last);
      CutMeans(u, last, v);
      var w :| w in windows && WindowFrom(w, front, u);
      PathOneMore(w, front, last, v);
    }
    if FromAny(windows, front + [last], v) {
      var w :| w in windows && WindowFrom(w, front + [last], v);
      PathOneMore(w, front, last, v);
      var u :| WindowFrom(w, front, u) && IsLeft(u, last, v);
      assert FromAny(windows, front, u);
    }
  }

  // ------------------------------------------------------------------ the windows of a day

  /** The rules of one kind, by position. */
  ghost predicate AreOfKind(rules: seq<Rule>, kind: Kind, at: seq<nat>, some: seq<Rule>) {
    && |some| == |at|
    && (forall i, j :: 0 <= i < j < |at| ==> at[i] < at[j])
    && (forall i :: 0 <= i < |at| ==> at[i] < |rules| && some[i] == rules[at[i]] && some[i].kind == kind)
    && (forall k :: 0 <= k < |rules| && rules[k].kind == kind ==> k in at)
  }

  lemma {:induction false} RulesOfMeans(rules: seq<Rule>, kind: Kind) returns (at: seq<nat>)
    ensures AreOfKind(rules, kind, at, RulesOf(rules, kind))
  {
    at := [];
    if rules != [] {
      var n := |rules| - 1;
      var before := RulesOfMeans(rules[..n], kind);
      at := KindOneMore(rules[..n], rules[n], kind, before, RulesOf(rules[..n], kind));
      assert rules == rules[..n] + [rules[n]];
    }
  }

  lemma {:induction false} KindOneMore(front: seq<Rule>, last: Rule, kind: Kind, before: seq<nat>, some: seq<Rule>) returns (at: seq<nat>)
    requires AreOfKind(front, kind, before, some)
    ensures AreOfKind(front + [last], kind, at, if last.kind == kind then some + [last] else some)
  {
    at := if last.kind == kind then before + [|front|] else before;
    var rules := front + [last];
    forall k | 0 <= k < |rules| && rules[k].kind == kind ensures k in at {
      if k < |front| {
        assert front[k] == rules[k];
      } else {
        assert at[|before|] == k;
      }
    }
  }

  /** The first text of ids is not behind the second: a shorter or smaller one comes first. */
  ghost predicate IdsInOrder(a: seq<FactId>, b: seq<FactId>) {
    a == b || exists k: nat :: k <= |a| && k < |b| && a[..k] == b[..k] && (k < |a| ==> a[k] < b[k])
  }

  lemma {:induction false} IdsLessMeans(a: seq<FactId>, b: seq<FactId>)
    ensures !IdsLess(b, a) ==> IdsInOrder(a, b)
  {
    if a == [] {
      if b != [] {
        assert a[..0] == b[..0];
      }
    } else if b != [] && a[0] == b[0] {
      IdsLessMeans(a[1..], b[1..]);
      if !IdsLess(b, a) && a[1..] != b[1..] {
        var k: nat :| k <= |a[1..]| && k < |b[1..]| && a[1..][..k] == b[1..][..k] && (k < |a[1..]| ==> a[1..][k] < b[1..][k]);
        assert a[..k + 1] == [a[0]] + a[1..][..k] && b[..k + 1] == [b[0]] + b[1..][..k];
      } else if !IdsLess(b, a) {
        assert a == [a[0]] + a[1..] && b == [b[0]] + b[1..];
      }
    } else if b != [] && a[0] < b[0] {
      assert a[..0] == b[..0];
    }
  }

  ghost predicate InOrder(a: Window, b: Window) {
    || a.opens < b.opens
    || (a.opens == b.opens && a.closes < b.closes)
    || (a.opens == b.opens && a.closes == b.closes && IdsInOrder(a.evidence, b.evidence))
  }

  /** Window `v` comes from an open rule: its span, its last admission and last order, and its fact,
      taken through the breaks. */
  ghost predicate FromOpenRule(rules: seq<Rule>, breaks: seq<Rule>, v: Window) {
    exists i :: 0 <= i < |rules| && rules[i].kind == Open
                && WindowFrom(Window(rules[i].starts, rules[i].ends, rules[i].lastAdmission, rules[i].lastOrder, [rules[i].fact]), breaks, v)
  }

  lemma {:induction false} WindowsAreOrdered()
    ensures StrictOrder(WindowLess)
  {
    OpeningAgreement.SpanLessOrders();
    assert forall a: Window, b: Window :: WindowLess(a, b) == SpanLess(SpanOf(a), SpanOf(b));
  }

  lemma {:induction false} OpenWindowsFrom(rules: seq<Rule>, breaks: seq<Rule>, v: Window)
    ensures FromAny(OpenWindows(RulesOf(rules, Open)), breaks, v) <==> FromOpenRule(rules, breaks, v)
  {
    var opens := RulesOf(rules, Open);
    var windows := OpenWindows(opens);
    if FromAny(windows, breaks, v) {
      var w :| w in windows && WindowFrom(w, breaks, v);
      var k :| 0 <= k < |windows| && windows[k] == w;
      assert opens[k] in opens;
      var i :| 0 <= i < |rules| && rules[i] == opens[k];
      assert rules[i].kind == Open;
    }
    if i :| 0 <= i < |rules| && rules[i].kind == Open
            && WindowFrom(Window(rules[i].starts, rules[i].ends, rules[i].lastAdmission, rules[i].lastOrder, [rules[i].fact]), breaks, v) {
      assert rules[i] in opens;
      var k :| 0 <= k < |opens| && opens[k] == rules[i];
      assert windows[k] in windows;
    }
  }

  lemma {:induction false} SortedWindows(windows: seq<Window>)
    ensures forall i, j :: 0 <= i < j < |windows| ==> InOrder(Sort(WindowLess, windows)[i], Sort(WindowLess, windows)[j])
  {
    var sorted := Sort(WindowLess, windows);
    WindowsAreOrdered();
    SortSorts(WindowLess, windows);
    forall i, j | 0 <= i < j < |windows| ensures InOrder(sorted[i], sorted[j]) {
      assert !WindowLess(sorted[j], sorted[i]);
      IdsLessMeans(sorted[i].evidence, sorted[j].evidence);
    }
  }

  /** Main result: the generation's windows are just what the breaks leave of the open rules, in
      order, each with its rule's last admission and last order. */
  lemma {:induction false} GenerationMeans(rules: seq<Rule>) returns (at: seq<nat>, breaks: seq<Rule>)
    ensures AreOfKind(rules, Break, at, breaks)
    ensures forall v :: v in GenerationWindows(rules) <==> FromOpenRule(rules, breaks, v)
    ensures forall i, j :: 0 <= i < j < |GenerationWindows(rules)| ==> InOrder(GenerationWindows(rules)[i], GenerationWindows(rules)[j])
  {
    breaks := RulesOf(rules, Break);
    at := RulesOfMeans(rules, Break);
    var windows := OpenWindows(RulesOf(rules, Open));
    RemainingMeans(windows, breaks);
    SortedWindows(Remaining(windows, breaks));
    forall v ensures v in GenerationWindows(rules) <==> FromOpenRule(rules, breaks, v) {
      SortKeepsElements(WindowLess, Remaining(windows, breaks), v);
      OpenWindowsFrom(rules, breaks, v);
    }
  }

  // ------------------------------------------------------------------ the segments of a day

  /** The same for a segment, which cites a break each time one cuts it. */
  ghost predicate IsRest(s: Segment, b: Rule, r: Segment) {
    if b.ends <= s.starts || s.ends <= b.starts then r == s
    else
      && r.facts == s.facts + [b.fact]
      && (|| (s.starts < b.starts && r.starts == s.starts && r.ends == b.starts)
          || (b.ends < s.ends && r.starts == b.ends && r.ends == s.ends))
  }

  ghost predicate SegmentPath(s: Segment, breaks: seq<Rule>, path: seq<Segment>, r: Segment) {
    && |path| == |breaks| + 1 && path[0] == s && path[|breaks|] == r
    && forall i :: 0 <= i < |breaks| ==> IsRest(path[i], breaks[i], path[i + 1])
  }

  ghost predicate SegmentFrom(s: Segment, breaks: seq<Rule>, r: Segment) {
    exists path :: SegmentPath(s, breaks, path, r)
  }

  lemma {:induction false} RestOneMore(s: Segment, front: seq<Rule>, last: Rule, r: Segment)
    ensures SegmentFrom(s, front + [last], r) <==> exists u :: SegmentFrom(s, front, u) && IsRest(u, last, r)
  {
    var breaks, n := front + [last], |front|;
    if SegmentFrom(s, breaks, r) {
      var path :| SegmentPath(s, breaks, path, r);
      assert IsRest(path[n], breaks[n], path[n + 1]);
      forall i | 0 <= i < n ensures IsRest(path[i], front[i], path[i + 1]) {
        assert breaks[i] == front[i];
      }
      assert SegmentPath(s, front, path[..n + 1], path[n]);
    }
    if u :| SegmentFrom(s, front, u) && IsRest(u, last, r) {
      var path :| SegmentPath(s, front, path, u);
      var all := path + [r];
      forall i | 0 <= i < |breaks| ensures IsRest(all[i], breaks[i], all[i + 1]) {
        if i < n {
          assert IsRest(path[i], front[i], path[i + 1]);
        }
      }
      assert SegmentPath(s, breaks, all, r);
    }
  }

  lemma {:induction false} SegmentsMean(s: Segment, breaks: seq<Rule>, r: Segment)
    ensures r in Segments([s], breaks) <==> SegmentFrom(s, breaks, r)
  {
    if breaks == [] {
      assert r == s ==> SegmentPath(s, breaks, [s], r);
    } else {
      var front, last := breaks[..|breaks| - 1], breaks[|breaks| - 1];
      assert breaks == front + [last];
      FlatMapIff((x: Segment) => CutSegment(x, last), Segments([s], front), r);
      RestOneMore(s, front, last, r);
      forall u ensures u in Segments([s], front) <==> SegmentFrom(s, front, u) {
        SegmentsMean(s, front, u);
      }
      forall u ensures r in CutSegment(u, last) <==> IsRest(u, last, r) {
        CutIsRest(u, last, r);
      }
    }
  }

  lemma {:induction false} CutIsRest(s: Segment, b: Rule, r: Segment)
    ensures r in CutSegment(s, b) <==> IsRest(s, b, r)
  {
  }

  ghost predicate FromOpenSpan(rules: seq<Rule>, breaks: seq<Rule>, r: Segment) {
    exists i :: 0 <= i < |rules| && rules[i].kind == Open && SegmentFrom(Segment(rules[i].starts, rules[i].ends, [rules[i].fact]), breaks, r)
  }

  lemma {:induction false} RegularMeans(rules: seq<Rule>, r: Segment)
    ensures r in RegularSegments(rules) <==> FromOpenSpan(rules, RulesOf(rules, Break), r)
  {
    var opens, breaks := RulesOf(rules, Open), RulesOf(rules, Break);
    SortKeepsElements(SpanLess, FlatMap(RuleSegments(breaks), opens), r);
    FlatMapIff(RuleSegments(breaks), opens, r);
    forall rule ensures r in RuleSegments(breaks)(rule) <==> SegmentFrom(OpenSegment(rule), breaks, r) {
      SegmentsMean(OpenSegment(rule), breaks, r);
    }
    if rule :| rule in opens && r in RuleSegments(breaks)(rule) {
      var i :| 0 <= i < |rules| && rules[i] == rule;
      assert rules[i].kind == Open;
    }
    if i :| 0 <= i < |rules| && rules[i].kind == Open && SegmentFrom(Segment(rules[i].starts, rules[i].ends, [rules[i].fact]), breaks, r) {
      assert rules[i] in opens;
    }
  }

  /** The day is closed throughout: one empty segment at midnight with these facts. */
  ghost predicate ClosedWith(facts: seq<FactId>, result: seq<Segment>) {
    exists at, cited :: OnceEach(facts, at, cited) && result == [Segment(0, 0, cited)]
  }

  ghost predicate FactsAre(rules: seq<Rule>, facts: seq<FactId>) {
    |facts| == |rules| && forall i :: 0 <= i < |facts| ==> facts[i] == rules[i].fact
  }

  /** The evaluator's answer: a closing exception alone, or what the breaks leave of the exception
      or of the open rules; when they leave nothing, a closed day citing all that closed it. */
  ghost predicate DayIs(exception: Option<Exception>, rules: seq<Rule>, breaks: seq<Rule>, result: seq<Segment>) {
    match exception
    case Some(x) =>
      if x.closed then result == [Segment(0, 0, [x.fact])]
      else if exists r :: SegmentFrom(Segment(x.starts, x.ends, [x.fact]), breaks, r) then
        forall r :: r in result <==> SegmentFrom(Segment(x.starts, x.ends, [x.fact]), breaks, r)
      else exists facts :: FactsAre(breaks, facts) && ClosedWith([x.fact] + facts, result)
    case None =>
      if exists r :: FromOpenSpan(rules, breaks, r) then forall r :: r in result <==> FromOpenSpan(rules, breaks, r)
      else if rules == [] then result == []
      else exists facts :: FactsAre(rules, facts) && ClosedWith(facts, result)
  }

  lemma {:induction false} ClosedMeans(facts: seq<FactId>)
    ensures ClosedWith(facts, ClosedAllDay(Unrepeated(facts)))
  {
    var at := UnrepeatedMeans(facts);
  }

  lemma {:induction false} SomeOrNone<T>(s: seq<T>)
    ensures s != [] <==> exists x :: x in s
  {
    if s != [] {
      assert s[0] in s;
    }
  }

  lemma {:induction false} ExceptionDayMeans(x: Exception, rules: seq<Rule>)
    ensures DayIs(Some(x), rules, RulesOf(rules, Break), EvaluationSegments(Some(x), rules))
  {
    var breaks := RulesOf(rules, Break);
    SomeOrNone(ExceptionSegments(x, breaks));
    forall r ensures r in ExceptionSegments(x, breaks) <==> SegmentFrom(Segment(x.starts, x.ends, [x.fact]), breaks, r) {
      SegmentsMean(Segment(x.starts, x.ends, [x.fact]), breaks, r);
    }
    assert FactsAre(breaks, FactsOf(breaks));
    ClosedMeans([x.fact] + FactsOf(breaks));
  }

  lemma {:induction false} RegularDayMeans(rules: seq<Rule>)
    ensures DayIs(None, rules, RulesOf(rules, Break), EvaluationSegments(None, rules))
  {
    var segments := RegularSegments(rules);
    SomeOrNone(segments);
    forall r ensures r in segments <==> FromOpenSpan(rules, RulesOf(rules, Break), r) {
      RegularMeans(rules, r);
    }
    assert FactsAre(rules, FactsOf(rules));
    ClosedMeans(FactsOf(rules));
  }

  /** Main result: the evaluator's segments of a day, exception or not. */
  lemma {:induction false} EvaluationMeans(exception: Option<Exception>, rules: seq<Rule>) returns (at: seq<nat>, breaks: seq<Rule>)
    ensures AreOfKind(rules, Break, at, breaks)
    ensures DayIs(exception, rules, breaks, EvaluationSegments(exception, rules))
  {
    breaks := RulesOf(rules, Break);
    at := RulesOfMeans(rules, Break);
    match exception
    case Some(x) => ExceptionDayMeans(x, rules);
    case None => RegularDayMeans(rules);
  }

  /** The evaluator's `opening_windows`. */
  method EvaluatorOpeningWindows(exception: Option<Exception>, rules: seq<Rule>) 
    returns (result: seq<Segment>, ghost at: seq<nat>, ghost ruleBreaks: seq<Rule>)
    ensures result == EvaluationSegments(exception, rules)
    ensures AreOfKind(rules, Break, at, ruleBreaks) && DayIs(exception, rules, ruleBreaks, result)
  {
    at, ruleBreaks := EvaluationMeans(exception, rules);
    var opens, breaks := RulesOf(rules, Open), RulesOf(rules, Break);
    if exception.Some? {
      var x := exception.value;
      if x.closed {
        return ClosedAllDay([x.fact]), at, ruleBreaks;
      }
      result := CutSegments([Segment(x.starts, x.ends, [x.fact])], breaks);
      if result == [] {
        result := ClosedAllDay(Unrepeated([x.fact] + FactsOf(breaks)));
      }
      return;
    }
    result := [];
    for i := 0 to |opens|
      invariant result == FlatMap(RuleSegments(breaks), opens[..i])
    {
      FlatMapNext(RuleSegments(breaks), opens, i);
      var segments := CutSegments([OpenSegment(opens[i])], breaks);
      result := result + segments;
    }
    assert opens[..|opens|] == opens;
    result := Sort(SpanLess, result);
    if result == [] && rules != [] {
      result := ClosedAllDay(Unrepeated(FactsOf(rules)));
    }
  }
}
