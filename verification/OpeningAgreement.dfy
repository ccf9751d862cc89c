/** Generation and evaluation read the same opening rows with two queries that order them
    differently, and both honour a day's exception: what then agrees. */
module OpeningAgreement {
  import opened Common
  import opened Ordering
  import opened OpeningHours
  import opened OpeningResults

  function ExceptionWindow(x: Exception): Window {
    Window(x.starts, x.ends, None, None, [x.fact])
  }

  /** What the generation offers for a day: nothing when the exception closes it, the rest of the
      special hours when it opens it, else the regular windows. */
  function GenerationDay(exception: Option<Exception>, rules: seq<Rule>): seq<Window> {
    match exception
    case Some(x) => if x.closed then [] else Sort(WindowLess, Remaining([ExceptionWindow(x)], RulesOf(rules, Break)))
    case None => GenerationWindows(rules)
  }

  // ------------------------------------------------------------------ the minutes

  lemma {:induction false} ExceptionMatches(x: Exception, breaks: seq<Rule>)
    ensures Matches(Remaining([ExceptionWindow(x)], breaks), ExceptionSegments(x, breaks))
  {
    DistinctStay([x.fact]);
    RemainingMatches([ExceptionWindow(x)], [Segment(x.starts, x.ends, [x.fact])], breaks);
  }

  lemma {:induction false} GenerationDayCovers(exception: Option<Exception>, rules: seq<Rule>, t: int)
    ensures Offers(GenerationDay(exception, rules), t) <==> OpenOn(exception, rules, t)
  {
    match exception
    case None => GenerationCovers(rules, t);
    case Some(x) =>
      if !x.closed {
        var breaks := RulesOf(rules, Break);
        ExceptionMatches(x, breaks);
        MatchesCover(Remaining([ExceptionWindow(x)], breaks), ExceptionSegments(x, breaks), t);
        SortOffers(Remaining([ExceptionWindow(x)], breaks), t);
        ExceptionCovers(x, breaks, t);
      }
  }

  /** Both offer the same minutes whatever the order of their rows, tied breaks and inverted breaks
      included, with an exception or without. */
  lemma {:induction false} MinutesAgree(exception: Option<Exception>, generation: seq<Rule>, evaluation: seq<Rule>, t: int)
    requires forall r :: r in generation <==> r in evaluation
    ensures Offers(GenerationDay(exception, generation), t) <==> Covers(EvaluationSegments(exception, evaluation), t)
  {
    GenerationDayCovers(exception, generation, t);
    EvaluationCovers(exception, evaluation, t);
  }

  // ------------------------------------------------------------------ the evidence, without an exception

  lemma {:induction false} RulesOfCount(rules: seq<Rule>, kind: Kind, r: Rule)
    ensures multiset(RulesOf(rules, kind))[r] == if r.kind == kind then multiset(rules)[r] else 0
  {
    if rules != [] {
      assert rules == rules[..|rules| - 1] + [rules[|rules| - 1]];
      RulesOfCount(rules[..|rules| - 1], kind, r);
    }
  }

  lemma {:induction false} RulesOfPermute(a: seq<Rule>, b: seq<Rule>, kind: Kind)
    requires multiset(a) == multiset(b)
    ensures multiset(RulesOf(a, kind)) == multiset(RulesOf(b, kind))
  {
    forall r ensures multiset(RulesOf(a, kind))[r] == multiset(RulesOf(b, kind))[r] {
      RulesOfCount(a, kind, r);
      RulesOfCount(b, kind, r);
    }
  }

  function StartsBefore(): (Rule, Rule) -> bool {
    (a: Rule, b: Rule) => a.starts < b.starts
  }

  ghost predicate NoTiedStarts(breaks: seq<Rule>) {
    forall i, j :: 0 <= i < j < |breaks| ==> breaks[i].starts != breaks[j].starts
  }

  /** Breaks that start at different minutes are in one order in both queries. */
  lemma {:induction false} BreaksInOneOrder(a: seq<Rule>, b: seq<Rule>)
    requires multiset(a) == multiset(b) && NoTiedStarts(a)
    requires SortedBy(StartsBefore(), a) && SortedBy(StartsBefore(), b)
    ensures a == b
  {
    forall x, y | x in multiset(a) && y in multiset(a) && x != y ensures x.starts != y.starts {
      var i :| 0 <= i < |a| && a[i] == x;
      var j :| 0 <= j < |a| && a[j] == y;
    }
    assert Separates(StartsBefore(), multiset(a));
    SortedUnique(StartsBefore(), a, b);
  }

  lemma {:induction false} TakenOut<T(!new)>(front: seq<T>, last: T, b: seq<T>) returns (before: seq<T>, after: seq<T>)
    requires multiset(front + [last]) == multiset(b)
    ensures b == before + ([last] + after) && multiset(before + after) == multiset(front)
  {
    assert last in multiset(b);
    var k :| 0 <= k < |b| && b[k] == last;
    before, after := b[..k], b[k + 1..];
    assert b == before + ([last] + after);
    CountsOut(before, last, after);
    CountsOut(front, last, []);
    assert before + after == (before + after) + [] && front + [last] == front + ([last] + []);
    assert multiset(before + after) + multiset{last} == multiset(front) + multiset{last};
    SameRest(multiset(before + after), multiset(front), last);
  }

  lemma {:induction false} SameRest<T(!new)>(a: multiset<T>, b: multiset<T>, x: T)
    requires a + multiset{x} == b + multiset{x}
    ensures a == b
  {
    forall y ensures a[y] == b[y] {
      assert (a + multiset{x})[y] == (b + multiset{x})[y];
    }
  }

  lemma {:induction false} CountsOut<T>(before: seq<T>, x: T, after: seq<T>)
    ensures multiset(before + ([x] + after)) == multiset(before + after) + multiset{x}
  {
    assert multiset([x] + after) == multiset{x} + multiset(after);
  }

  lemma {:induction false} FlatMapOfOne<T, U>(f: T -> seq<U>, x: T)
    ensures FlatMap(f, [x]) == f(x)
  {
    assert FlatMap(f, [x][..0]) == [];
  }

  lemma {:induction false} FlatMapInserted<T, U>(f: T -> seq<U>, before: seq<T>, x: T, after: seq<T>)
    ensures multiset(FlatMap(f, before + ([x] + after))) == multiset(FlatMap(f, before + after)) + multiset(f(x))
  {
    FlatMapJoined(f, before, [x] + after);
    FlatMapJoined(f, [x], after);
    FlatMapOfOne(f, x);
    FlatMapJoined(f, before, after);
  }

  lemma {:induction false} FlatMapPermutes<T(!new), U>(f: T -> seq<U>, a: seq<T>, b: seq<T>)
    requires multiset(a) == multiset(b)
    ensures multiset(FlatMap(f, a)) == multiset(FlatMap(f, b))
    decreases |a|
  {
    SameLength(a, b);
    if a != [] {
      var front, last := a[..|a| - 1], a[|a| - 1];
      assert a == front + [last];
      var before, after := TakenOut(front, last, b);
      FlatMapPermutes(f, front, before + after);
      FlatMapInserted(f, before, last, after);
      assert multiset(FlatMap(f, a)) == multiset(FlatMap(f, front)) + multiset(f(last));
    }
  }

  lemma {:induction false} IdsLessIsStrict(a: seq<FactId>, b: seq<FactId>, c: seq<FactId>)
    ensures !IdsLess(a, a)
    ensures IdsLess(a, b) && IdsLess(b, c) ==> IdsLess(a, c)
    ensures IdsLess(a, b) ==> IdsLess(a, c) || IdsLess(c, b)
    ensures IdsLess(a, b) || a == b || IdsLess(b, a)
    decreases |a| + |b| + |c|
  {
    if a != [] && b != [] && c != [] {
      IdsLessIsStrict(a[1..], b[1..], c[1..]);
      assert a == [a[0]] + a[1..] && b == [b[0]] + b[1..];
    } else if a != [] && b != [] {
      IdsLessIsStrict(a[1..], b[1..], []);
      assert a == [a[0]] + a[1..] && b == [b[0]] + b[1..];
    } else if a != [] {
      IdsLessIsStrict(a[1..], [], []);
    }
  }

  lemma {:induction false} SpanLessOrders()
    ensures StrictOrder(SpanLess)
    ensures forall x, y :: x != y ==> SpanLess(x, y) || SpanLess(y, x)
  {
    forall a: Segment, b: Segment, c: Segment
      ensures !SpanLess(a, a)
      ensures SpanLess(a, b) && SpanLess(b, c) ==> SpanLess(a, c)
      ensures SpanLess(a, b) ==> SpanLess(a, c) || SpanLess(c, b)
      ensures a != b ==> SpanLess(a, b) || SpanLess(b, a)
    {
      IdsLessIsStrict(a.facts, b.facts, c.facts);
    }
  }

  lemma {:induction false} SpansSortAlike(a: seq<Segment>, b: seq<Segment>)
    requires multiset(a) == multiset(b)
    ensures Sort(SpanLess, a) == Sort(SpanLess, b)
  {
    SpanLessOrders();
    SortSorts(SpanLess, a);
    SortSorts(SpanLess, b);
    SortedUnique(SpanLess, Sort(SpanLess, a), Sort(SpanLess, b));
  }

  /** The regular segments do not depend on the order of the open rows. */
  lemma {:induction false} RegularPermute(a: seq<Rule>, b: seq<Rule>)
    requires multiset(a) == multiset(b) && RulesOf(a, Break) == RulesOf(b, Break)
    ensures RegularSegments(a) == RegularSegments(b)
  {
    var f := RuleSegments(RulesOf(a, Break));
    RulesOfPermute(a, b, Open);
    FlatMapPermutes(f, RulesOf(a, Open), RulesOf(b, Open));
    SpansSortAlike(FlatMap(f, RulesOf(a, Open)), FlatMap(f, RulesOf(b, Open)));
  }

  /** The two queries' rows in their two orders give the same intervals with the same evidence,
      when no two breaks start in one minute and no fact id is used twice. */
  lemma {:induction false} QueriesAgree(generation: seq<Rule>, evaluation: seq<Rule>)
    requires multiset(generation) == multiset(evaluation)
    requires SortedBy(StartsBefore(), RulesOf(generation, Break)) && SortedBy(StartsBefore(), RulesOf(evaluation, Break))
    requires NoTiedStarts(RulesOf(generation, Break)) && DistinctFacts(RulesOf(generation, Break))
    requires forall r :: r in RulesOf(generation, Open) ==> !Cites(RulesOf(generation, Break), r.fact)
    ensures Spans(GenerationWindows(generation)) == RegularSegments(evaluation)
  {
    RulesOfPermute(generation, evaluation, Break);
    BreaksInOneOrder(RulesOf(generation, Break), RulesOf(evaluation, Break));
    FormsAgree(generation);
    RegularPermute(generation, evaluation);
  }

  // ------------------------------------------------------------------ tied breaks

  function Hours(starts: int, ends: int, fact: FactId): Segment {
    Segment(60 * starts, 60 * ends, [fact])
  }

  function LunchBreak(ends: int, fact: FactId): Rule {
    Rule(Break, 720, ends, fact, None, None)
  }

  lemma {:induction false} CutEachOfOne(s: Segment, b: Rule)
    ensures CutEach([s], b) == CutSegment(s, b)
  {
    FlatMapOfOne((x: Segment) => CutSegment(x, b), s);
  }

  lemma {:induction false} CutEachOfTwo(s: Segment, r: Segment, b: Rule)
    ensures CutEach([s, r], b) == CutSegment(s, b) + CutSegment(r, b)
  {
    assert [s, r] == [s] + [r];
    FlatMapJoined((x: Segment) => CutSegment(x, b), [s], [r]);
    CutEachOfOne(s, b);
    CutEachOfOne(r, b);
  }

  lemma {:induction false} TwoBreaks(s: Segment, a: Rule, b: Rule)
    ensures Segments([s], [a, b]) == CutEach(CutSegment(s, a), b)
  {
    assert [a, b][..1] == [a] && [a][..0] == [];
    assert Segments([s], [a]) == CutEach(Segments([s], []), a);
    CutEachOfOne(s, a);
  }

  lemma {:induction false} CutInside(s: Segment, b: Rule)
    requires s.starts < b.starts <= b.ends < s.ends
    ensures CutSegment(s, b) == [Segment(s.starts, b.starts, s.facts + [b.fact]), Segment(b.ends, s.ends, s.facts + [b.fact])]
  {
  }

  /** Two breaks that start at noon, one until half past and one until one: which of them is
      cited for the morning depends on which comes first, and only the evaluator's query leaves
      that open. */
  lemma {:induction false} TiedBreaksCiteTheFirst(short: Rule, long: Rule, day: Segment)
    requires short == LunchBreak(750, 2) && long == LunchBreak(780, 3) && day == Hours(9, 18, 1)
    ensures Segments([day], [short, long]) == [Segment(540, 720, [1, 2]), Segment(780, 1080, [1, 2, 3])]
    ensures Segments([day], [long, short]) == [Segment(540, 720, [1, 3]), Segment(780, 1080, [1, 3])]
  {
    TwoBreaks(day, short, long);
    TwoBreaks(day, long, short);
    CutInside(day, short);
    CutInside(day, long);
    CutEachOfTwo(Segment(540, 720, day.facts + [2]), Segment(750, 1080, day.facts + [2]), long);
    CutEachOfTwo(Segment(540, 720, day.facts + [3]), Segment(780, 1080, day.facts + [3]), short);
    assert day.facts + [2] == [1, 2] && day.facts + [3] == [1, 3] && [1, 2] + [3] == [1, 2, 3];
  }

  // ------------------------------------------------------------------ the evidence, with an exception

  predicate Precedes(x: Segment, y: Segment) {
    x.starts < x.ends <= y.starts
  }

  /** One after the other; only the last may be empty. */
  ghost predicate Ascending(segments: seq<Segment>) {
    forall i, j :: 0 <= i < j < |segments| ==> Precedes(segments[i], segments[j])
  }

  ghost predicate AllBefore(a: seq<Segment>, b: seq<Segment>) {
    forall x, y :: x in a && y in b ==> Precedes(x, y)
  }

  lemma {:induction false} AscendingJoined(a: seq<Segment>, b: seq<Segment>)
    requires Ascending(a) && Ascending(b) && AllBefore(a, b)
    ensures Ascending(a + b)
  {
    var all := a + b;
    forall i, j | 0 <= i < j < |all| ensures Precedes(all[i], all[j]) {
      assert if i < |a| then all[i] == a[i] && a[i] in a else all[i] == b[i - |a|];
      assert if j < |a| then all[j] == a[j] else all[j] == b[j - |a|] && b[j - |a|] in b;
    }
  }

  lemma {:induction false} CutAscends(s: Segment, b: Rule)
    requires b.starts <= b.ends
    ensures Ascending(CutSegment(s, b))
    ensures forall r :: r in CutSegment(s, b) ==> s.starts <= r.starts && r.ends <= s.ends && (s.starts < s.ends ==> r.starts < r.ends)
  {
  }

  lemma {:induction false} CutEachAscends(segments: seq<Segment>, b: Rule)
    requires Ascending(segments) && b.starts <= b.ends
    ensures Ascending(CutEach(segments, b))
  {
    if segments != [] {
      var front, last := segments[..|segments| - 1], segments[|segments| - 1];
      assert segments == front + [last];
      CutEachAscends(front, b);
      CutAscends(last, b);
      forall x | x in CutEach(front, b) ensures x.starts < x.ends <= last.starts {
        var s := FlatMapHas((s: Segment) => CutSegment(s, b), front, x);
        var i :| 0 <= i < |front| && front[i] == s;
        assert Precedes(segments[i], segments[|segments| - 1]);
        CutAscends(s, b);
      }
      AscendingJoined(CutEach(front, b), CutSegment(last, b));
    }
  }

  lemma {:induction false} SegmentsAscend(segments: seq<Segment>, breaks: seq<Rule>)
    requires Ascending(segments) && forall b :: b in breaks ==> b.starts <= b.ends
    ensures Ascending(Segments(segments, breaks))
  {
    if breaks != [] {
      var front, last := breaks[..|breaks| - 1], breaks[|breaks| - 1];
      assert last in breaks && forall b :: b in front ==> b in breaks;
      SegmentsAscend(segments, front);
      CutEachAscends(Segments(segments, front), last);
    }
  }

  lemma {:induction false} AscendingIsSorted(segments: seq<Segment>)
    requires Ascending(segments)
    ensures Sort(SpanLess, segments) == segments
  {
    SpanLessOrders();
    SortSorts(SpanLess, segments);
    SortedUnique(SpanLess, Sort(SpanLess, segments), segments);
  }

  lemma {:induction false} ExceptionArePlain(x: Exception, breaks: seq<Rule>, s: Segment)
    requires s in ExceptionSegments(x, breaks) && DistinctFacts(breaks) && !Cites(breaks, x.fact)
    ensures Once(s) == s
  {
    SegmentsArePlain(Rule(Open, x.starts, x.ends, x.fact, None, None), breaks, s);
    DistinctStay(s.facts);
  }

  /** On a day with special hours both give the same intervals with the same evidence, when no
      fact id is used twice: always up to sorting, and in the evaluator's unsorted order too when
      no break ends before it starts. */
  lemma {:induction false} SpecialHoursAgree(x: Exception, rules: seq<Rule>)
    requires !x.closed && DistinctFacts(RulesOf(rules, Break)) && !Cites(RulesOf(rules, Break), x.fact)
    ensures Spans(GenerationDay(Some(x), rules)) == Sort(SpanLess, ExceptionSegments(x, RulesOf(rules, Break)))
    ensures (forall b :: b in RulesOf(rules, Break) ==> b.starts <= b.ends)
            ==> Spans(GenerationDay(Some(x), rules)) == ExceptionSegments(x, RulesOf(rules, Break))
  {
    var breaks := RulesOf(rules, Break);
    var windows, segments := Remaining([ExceptionWindow(x)], breaks), ExceptionSegments(x, breaks);
    ExceptionMatches(x, breaks);
    forall i | 0 <= i < |segments| ensures Spans(windows)[i] == segments[i] {
      ExceptionArePlain(x, breaks, segments[i]);
    }
    assert Spans(windows) == segments;
    SortMapped(SpanOf, WindowLess, SpanLess, windows);
    if forall b :: b in breaks ==> b.starts <= b.ends {
      SegmentsAscend([Segment(x.starts, x.ends, [x.fact])], breaks);
      AscendingIsSorted(segments);
    }
  }
}
