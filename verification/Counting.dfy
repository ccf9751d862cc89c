/** Counting: how many subsets of a size, unions of pairs, and sets with a marked element there
    are at most. */
module Counting {

  function Binomial(n: nat, k: nat): nat {
    if k == 0 then 1 else if n == 0 then 0 else Binomial(n - 1, k) + Binomial(n - 1, k - 1)
  }

  lemma {:induction false} Smaller<T>(a: set<T>, b: set<T>)
    requires a <= b
    ensures |a| <= |b|
    decreases |a|
  {
    if a != {} {
      var x :| x in a;
      Smaller(a - {x}, b - {x});
    }
  }

  lemma {:induction false} TimesMonotone(a: nat, b: nat, c: nat, d: nat)
    requires a <= c && b <= d
    ensures a * b <= c * d
  {
    assert a * b <= c * b <= c * d;
  }

  // ------------------------------------------------------------------ unions of pairs

  ghost function Unions<T(!new)>(a: set<set<T>>, b: set<set<T>>): set<set<T>> {
    set x, y | x in a && y in b :: x + y
  }

  lemma {:induction false} UnionsWithOne<T(!new)>(x: set<T>, b: set<set<T>>)
    ensures |Unions({x}, b)| <= |b|
    decreases |b|
  {
    if b == {} {
      assert Unions({x}, b) == {};
    } else {
      var y :| y in b;
      UnionsWithOne(x, b - {y});
      UnionsSplitRight(x, b, y);
    }
  }

  lemma {:induction false} UnionsSplitRight<T(!new)>(x: set<T>, b: set<set<T>>, y: set<T>)
    requires y in b
    ensures Unions({x}, b) == Unions({x}, b - {y}) + {x + y}
  {
    forall u | u in Unions({x}, b) ensures u in Unions({x}, b - {y}) || u == x + y {
      var s, t :| s in {x} && t in b && u == s + t;
      if t != y {
        assert t in b - {y};
      }
    }
  }

  lemma {:induction false} UnionsSplitLeft<T(!new)>(a: set<set<T>>, b: set<set<T>>, x: set<T>)
    requires x in a
    ensures Unions(a, b) == Unions(a - {x}, b) + Unions({x}, b)
  {
    forall u | u in Unions(a, b) ensures u in Unions(a - {x}, b) || u in Unions({x}, b) {
      var s, t :| s in a && t in b && u == s + t;
      if s != x {
        assert s in a - {x};
      } else {
        assert s in {x};
      }
    }
  }

  /** There are no more unions than pairs. */
  lemma {:induction false} UnionsCount<T(!new)>(a: set<set<T>>, b: set<set<T>>)
    ensures |Unions(a, b)| <= |a| * |b|
    decreases |a|
  {
    if a == {} {
      assert Unions(a, b) == {};
    } else {
      var x :| x in a;
      var rest := a - {x};
      UnionsCount(rest, b);
      UnionsWithOne(x, b);
      UnionsSplitLeft(a, b, x);
      assert (|rest| + 1) * |b| == |rest| * |b| + |b|;
    }
  }

  // ------------------------------------------------------------------ subsets of a size

  ghost function Subsets<T(!new)>(from: set<T>, k: nat): set<set<T>> {
    set s | s <= from && |s| == k
  }

  lemma {:induction false} SubsetsSplit<T(!new)>(from: set<T>, x: T, k: nat)
    requires x in from && k > 0
    ensures Subsets(from, k) <= Subsets(from - {x}, k) + Unions({{x}}, Subsets(from - {x}, k - 1))
  {
    forall s | s in Subsets(from, k) ensures s in Subsets(from - {x}, k) || s in Unions({{x}}, Subsets(from - {x}, k - 1)) {
      if x in s {
        assert s - {x} in Subsets(from - {x}, k - 1) && {x} in {{x}} && s == {x} + (s - {x});
      }
    }
  }

  lemma {:induction false} SubsetsStep<T(!new)>(from: set<T>, x: T, k: nat)
    requires x in from && k > 0
    ensures |Subsets(from, k)| <= |Subsets(from - {x}, k)| + |Subsets(from - {x}, k - 1)|
  {
    var without, others := Subsets(from - {x}, k), Subsets(from - {x}, k - 1);
    SubsetsSplit(from, x, k);
    Smaller(Subsets(from, k), without + Unions({{x}}, others));
    UnionsWithOne({x}, others);
  }

  lemma {:induction false} SubsetsCount<T(!new)>(from: set<T>, k: nat)
    ensures |Subsets(from, k)| <= Binomial(|from|, k)
    decreases |from|
  {
    if k == 0 {
      Smaller(Subsets(from, k), {{}});
    } else if from == {} {
      assert Subsets(from, k) == {};
    } else {
      var x :| x in from;
      SubsetsStep(from, x, k);
      SubsetsCount(from - {x}, k);
      SubsetsCount(from - {x}, k - 1);
    }
  }

  // ------------------------------------------------------------------ sets with a marked element

  ghost function Marks<T(!new)>(s: set<T>, ids: set<T>): set<(T, set<T>)> {
    set x | x in ids :: (x, s)
  }

  ghost function Marked<T(!new)>(sets: set<set<T>>, among: set<T>): set<(T, set<T>)> {
    set s, x | s in sets && x in s * among :: (x, s)
  }

  lemma {:induction false} MarksCount<T(!new)>(s: set<T>, ids: set<T>)
    ensures |Marks(s, ids)| <= |ids|
    decreases |ids|
  {
    if ids == {} {
      assert Marks(s, ids) == {};
    } else {
      var x :| x in ids;
      MarksCount(s, ids - {x});
      assert Marks(s, ids) == Marks(s, ids - {x}) + {(x, s)};
    }
  }

  lemma {:induction false} MarkedSplit<T(!new)>(sets: set<set<T>>, among: set<T>, s: set<T>)
    requires s in sets
    ensures Marked(sets, among) == Marked(sets - {s}, among) + Marks(s, s * among)
  {
    forall p | p in Marked(sets, among) ensures p in Marked(sets - {s}, among) || p in Marks(s, s * among) {
      if p.1 != s {
        assert p.1 in sets - {s} && p.0 in p.1 * among;
      }
    }
  }

  lemma {:induction false} MarkedStep<T(!new)>(sets: set<set<T>>, among: set<T>, s: set<T>)
    requires s in sets
    ensures |Marked(sets, among)| <= |Marked(sets - {s}, among)| + |s * among|
  {
    MarkedSplit(sets, among, s);
    MarksCount(s, s * among);
  }

  ghost predicate Shares<T(!new)>(s: set<T>, among: set<T>, k: nat) {
    |s * among| == k
  }

  lemma {:induction false} MarkedCount<T(!new)>(sets: set<set<T>>, among: set<T>, k: nat)
    requires forall s :: s in sets ==> Shares(s, among, k)
    ensures |Marked(sets, among)| <= |sets| * k
    decreases |sets|
  {
    if sets == {} {
      assert Marked(sets, among) == {};
    } else {
      var s :| s in sets;
      assert Shares(s, among, k);
      var rest := sets - {s};
      MarkedStep(sets, among, s);
      MarkedCount(rest, among, k);
      OneMore(|Marked(sets, among)|, |Marked(rest, among)|, |rest|, k);
    }
  }

  lemma {:induction false} OneMore(all: nat, part: nat, n: nat, k: nat)
    requires part <= n * k && all <= part + k
    ensures all <= (n + 1) * k
  {
  }
}
