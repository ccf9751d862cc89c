/** Option and Result values: the source's `None` and its raised errors. */
module Common {

  datatype Option<+T> = None | Some(value: T)

  datatype Result<+T, +E> = Ok(value: T) | Err(error: E)
}

/** Python's `sorted`: a stable insertion sort over a strict order given as a function. */
module Ordering {

  /** `less` behaves like `<` on a totally ordered type. */
  ghost predicate StrictOrder<T(!new)>(less: (T, T) -> bool) {
    && (forall a :: !less(a, a))
    && (forall a, b, c :: less(a, b) && less(b, c) ==> less(a, c))
    && (forall a, b, c :: less(a, b) ==> less(a, c) || less(c, b))
  }

  ghost predicate SortedBy<T>(less: (T, T) -> bool, s: seq<T>) {
    forall i, j :: 0 <= i < j < |s| ==> !less(s[j], s[i])
  }

  function Insert<T>(less: (T, T) -> bool, x: T, s: seq<T>): (r: seq<T>)
    ensures |r| == |s| + 1
  {
    if s == [] then [x]
    else if less(x, s[|s| - 1]) then Insert(less, x, s[..|s| - 1]) + [s[|s| - 1]]
    else s + [x]
  }

  lemma {:induction false} InsertKeepsElements<T>(less: (T, T) -> bool, x: T, s: seq<T>)
    ensures multiset(Insert(less, x, s)) == multiset(s) + multiset{x}
  {
    if s != [] {
      assert s == s[..|s| - 1] + [s[|s| - 1]];
      InsertKeepsElements(less, x, s[..|s| - 1]);
    }
  }

  function Sort<T>(less: (T, T) -> bool, s: seq<T>): (r: seq<T>)
    ensures multiset(r) == multiset(s)
    ensures |r| == |s|
  {
    if s == [] then []
    else
      assert s == s[..|s| - 1] + [s[|s| - 1]];
      InsertKeepsElements(less, s[|s| - 1], Sort(less, s[..|s| - 1]));
      Insert(less, s[|s| - 1], Sort(less, s[..|s| - 1]))
  }

  lemma {:induction false} InsertKeepsSorted<T(!new)>(less: (T, T) -> bool, x: T, s: seq<T>)
    requires StrictOrder(less)
    requires SortedBy(less, s)
    ensures SortedBy(less, Insert(less, x, s))
  {
    if s == [] {
    } else if less(x, s[|s| - 1]) {
      var last := s[|s| - 1];
      InsertKeepsSorted(less, x, s[..|s| - 1]);
      var front := Insert(less, x, s[..|s| - 1]);
      InsertKeepsElements(less, x, s[..|s| - 1]);
      forall e | e in front ensures !less(last, e) {
        assert e in multiset(front);
        assert e == x || e in multiset(s[..|s| - 1]);
      }
    } else {
      forall i | 0 <= i < |s| ensures !less(x, s[i]) {}
    }
  }

  lemma {:induction false} SortSorts<T(!new)>(less: (T, T) -> bool, s: seq<T>)
    requires StrictOrder(less)
    ensures SortedBy(less, Sort(less, s))
  {
    if s != [] {
      SortSorts(less, s[..|s| - 1]);
      InsertKeepsSorted(less, s[|s| - 1], Sort(less, s[..|s| - 1]));
    }
  }

  /** The sorted list is the given one rearranged by `at`: it rises, and of two elements that
      compare alike the one given first stays first. */
  ghost predicate Rearranged<T(!new)>(less: (T, T) -> bool, s: seq<T>, at: seq<nat>, r: seq<T>) {
    && |r| == |at| == |s|
    && (forall i :: 0 <= i < |at| ==> at[i] < |s| && r[i] == s[at[i]])
    && (forall i, j :: 0 <= i < j < |at| ==> at[i] != at[j])
    && (forall i, j :: 0 <= i < j < |at| ==> less(r[i], r[j]) || (!less(r[j], r[i]) && at[i] < at[j]))
  }

  ghost predicate HasEach(at: seq<nat>, n: nat) {
    forall k :: 0 <= k < n ==> k in at
  }

  lemma {:induction false} HasEachAndOneMore(at: seq<nat>, n: nat, k: nat)
    requires HasEach(at, n) && k <= |at|
    ensures HasEach(at[..k] + [n] + at[k..], n + 1)
  {
    var now := at[..k] + [n] + at[k..];
    forall x | 0 <= x < n + 1 ensures x in now {
      if x < n {
        assert x in at;
        var i :| 0 <= i < |at| && at[i] == x;
        assert now[if i < k then i else i + 1] == x;
      } else {
        assert now[k] == n;
      }
    }
  }

  lemma {:induction false} NotBelow<T(!new)>(less: (T, T) -> bool, x: T, last: T, y: T)
    requires StrictOrder(less) && !less(x, last) && !less(last, y)
    ensures !less(x, y)
  {
  }

  /** Everything ahead of an element that `x` is not below. */
  lemma {:induction false} NotBelowAny<T(!new)>(less: (T, T) -> bool, x: T, r: seq<T>)
    requires StrictOrder(less) && SortedBy(less, r) && (r != [] ==> !less(x, r[|r| - 1]))
    ensures forall i :: 0 <= i < |r| ==> !less(x, r[i])
  {
    forall i | 0 <= i < |r| ensures !less(x, r[i]) {
      if i < |r| - 1 {
        NotBelow(less, x, r[|r| - 1], r[i]);
      }
    }
  }

  /** Where an element goes: behind everything it is not below. */
  function Place<T>(less: (T, T) -> bool, x: T, r: seq<T>): (k: nat)
    ensures k <= |r| && (k > 0 ==> !less(x, r[k - 1]))
    ensures forall i :: k <= i < |r| ==> less(x, r[i])
  {
    if r == [] then 0 else if less(x, r[|r| - 1]) then Place(less, x, r[..|r| - 1]) else |r|
  }

  lemma {:induction false} InsertedAtPlace<T>(less: (T, T) -> bool, x: T, r: seq<T>)
    ensures Insert(less, x, r) == r[..Place(less, x, r)] + [x] + r[Place(less, x, r)..]
  {
    if r != [] && less(x, r[|r| - 1]) {
      var front, last := r[..|r| - 1], r[|r| - 1];
      InsertedAtPlace(less, x, front);
      var k := Place(less, x, front);
      assert r[..k] == front[..k] && r[k..] == front[k..] + [last];
    }
  }

  lemma {:induction false} SortNext<T>(less: (T, T) -> bool, front: seq<T>, x: T)
    ensures Sort(less, front + [x]) == Insert(less, x, Sort(less, front))
  {
    assert (front + [x])[..|front|] == front;
  }

  lemma {:induction false} InsertIsStable<T(!new)>(less: (T, T) -> bool, s: seq<T>, at: seq<nat>, r: seq<T>, x: T, k: nat)
    requires Rearranged(less, s, at, r) && k <= |r|
    requires (forall i :: 0 <= i < k ==> !less(x, r[i])) && forall i :: k <= i < |r| ==> less(x, r[i])
    ensures Rearranged(less, s + [x], at[..k] + [|s|] + at[k..], r[..k] + [x] + r[k..])
  {
    var now, sorted := at[..k] + [|s|] + at[k..], r[..k] + [x] + r[k..];
    forall i | 0 <= i < |now| ensures now[i] < |s| + 1 && sorted[i] == (s + [x])[now[i]] {
      if i != k {
        var o := if i < k then i else i - 1;
        assert now[i] == at[o] && sorted[i] == r[o];
      }
    }
    forall i, j | 0 <= i < j < |now|
      ensures now[i] != now[j] && (less(sorted[i], sorted[j]) || (!less(sorted[j], sorted[i]) && now[i] < now[j]))
    {
      if i != k && j != k {
        var o, p := if i < k then i else i - 1, if j < k then j else j - 1;
        assert now[i] == at[o] && sorted[i] == r[o] && now[j] == at[p] && sorted[j] == r[p];
      } else if i == k {
        assert now[j] == at[j - 1] && sorted[j] == r[j - 1];
      } else {
        assert now[i] == at[i] && sorted[i] == r[i];
      }
    }
  }

  lemma {:induction false} PlaceIsBehind<T(!new)>(less: (T, T) -> bool, x: T, r: seq<T>)
    requires StrictOrder(less) && SortedBy(less, r)
    ensures forall i :: 0 <= i < Place(less, x, r) ==> !less(x, r[i])
  {
    var k := Place(less, x, r);
    NotBelowAny(less, x, r[..k]);
    assert forall i :: 0 <= i < k ==> r[..k][i] == r[i];
  }

  /** Sorting is stable. */
  lemma {:induction false} SortIsStable<T(!new)>(less: (T, T) -> bool, s: seq<T>) returns (at: seq<nat>)
    requires StrictOrder(less)
    ensures Rearranged(less, s, at, Sort(less, s)) && HasEach(at, |s|)
  {
    if s == [] {
      at := [];
    } else {
      var front, x := s[..|s| - 1], s[|s| - 1];
      assert front + [x] == s;
      var before := SortIsStable(less, front);
      SortedPlace(less, front, x);
      at := SortStep(less, front, before, x);
    }
  }

  lemma {:induction false} SortedPlace<T(!new)>(less: (T, T) -> bool, s: seq<T>, x: T)
    requires StrictOrder(less)
    ensures forall i :: 0 <= i < Place(less, x, Sort(less, s)) ==> !less(x, Sort(less, s)[i])
  {
    SortSorts(less, s);
    PlaceIsBehind(less, x, Sort(less, s));
  }

  lemma {:induction false} SortStep<T(!new)>(less: (T, T) -> bool, s: seq<T>, before: seq<nat>, x: T) returns (at: seq<nat>)
    requires Rearranged(less, s, before, Sort(less, s)) && HasEach(before, |s|)
    requires forall i :: 0 <= i < Place(less, x, Sort(less, s)) ==> !less(x, Sort(less, s)[i])
    ensures Rearranged(less, s + [x], at, Sort(less, s + [x])) && HasEach(at, |s| + 1)
  {
    SortNext(less, s, x);
    InsertedAtPlace(less, x, Sort(less, s));
    at := PlacedStably(less, s, before, Sort(less, s), x);
  }

  lemma {:induction false} PlacedStably<T(!new)>(less: (T, T) -> bool, s: seq<T>, before: seq<nat>, r: seq<T>, x: T) returns (at: seq<nat>)
    requires Rearranged(less, s, before, r) && HasEach(before, |s|)
    requires forall i :: 0 <= i < Place(less, x, r) ==> !less(x, r[i])
    ensures Rearranged(less, s + [x], at, r[..Place(less, x, r)] + [x] + r[Place(less, x, r)..]) && HasEach(at, |s| + 1)
  {
    var k := Place(less, x, r);
    HasEachAndOneMore(before, |s|, k);
    InsertIsStable(less, s, before, r, x, k);
    at := before[..k] + [|s|] + before[k..];
  }

  lemma {:induction false} SortKeepsElements<T>(less: (T, T) -> bool, s: seq<T>, x: T)
    ensures x in Sort(less, s) <==> x in s
  {
    assert x in multiset(Sort(less, s)) <==> x in multiset(s);
  }

  function Mapped<T, U>(f: T -> U, s: seq<T>): (r: seq<U>)
    ensures |r| == |s| && forall i :: 0 <= i < |r| ==> r[i] == f(s[i])
  {
    seq(|s|, i requires 0 <= i < |s| => f(s[i]))
  }

  lemma {:induction false} InsertMapped<T(!new), U>(f: T -> U, less: (T, T) -> bool, below: (U, U) -> bool, x: T, s: seq<T>)
    requires forall a, b :: less(a, b) == below(f(a), f(b))
    ensures Mapped(f, Insert(less, x, s)) == Insert(below, f(x), Mapped(f, s))
  {
    if s != [] {
      var n := |s| - 1;
      assert Mapped(f, s)[..n] == Mapped(f, s[..n]);
      InsertMapped(f, less, below, x, s[..n]);
    }
  }

  /** Sorting by what a function shows, and then showing it, is the same as showing first. */
  lemma {:induction false} SortMapped<T(!new), U>(f: T -> U, less: (T, T) -> bool, below: (U, U) -> bool, s: seq<T>)
    requires forall a, b :: less(a, b) == below(f(a), f(b))
    ensures Mapped(f, Sort(less, s)) == Sort(below, Mapped(f, s))
  {
    if s != [] {
      var n := |s| - 1;
      SortMapped(f, less, below, s[..n]);
      assert Mapped(f, s)[..n] == Mapped(f, s[..n]);
      InsertMapped(f, less, below, s[n], Sort(less, s[..n]));
    }
  }

  predicate Distinct<T(==)>(s: seq<T>) {
    forall i, j :: 0 <= i < j < |s| ==> s[i] != s[j]
  }

  lemma {:induction false} DistinctCountsOne<T>(s: seq<T>, k: nat)
    requires Distinct(s) && k < |s|
    ensures multiset(s)[s[k]] == 1
  {
    assert s == s[..k] + [s[k]] + s[k + 1..];
    assert multiset(s) == multiset(s[..k]) + multiset{s[k]} + multiset(s[k + 1..]);
    assert s[k] !in s[..k] && s[k] !in s[k + 1..];
  }

  /** Two lists without repetition and with the same members are permutations of each other. */
  lemma {:induction false} DistinctPermutes<T(!new)>(a: seq<T>, b: seq<T>)
    requires Distinct(a) && Distinct(b) && forall x :: x in a <==> x in b
    ensures multiset(a) == multiset(b)
  {
    forall x ensures multiset(a)[x] == multiset(b)[x] {
      if x in a {
        var i :| 0 <= i < |a| && a[i] == x;
        var j :| 0 <= j < |b| && b[j] == x;
        DistinctCountsOne(a, i);
        DistinctCountsOne(b, j);
      } else {
        assert x !in b;
      }
    }
  }

  /** A list has as many different members as positions exactly when none repeats. */
  lemma {:induction false} DistinctByCount<T(!new)>(s: seq<T>)
    ensures |set x | x in s| <= |s|
    ensures |set x | x in s| == |s| <==> Distinct(s)
  {
    if s != [] {
      var front, last := s[..|s| - 1], s[|s| - 1];
      assert s == front + [last];
      DistinctByCount(front);
      var before, now := set x | x in front, set x | x in s;
      if last in front {
        assert now == before;
        var k :| 0 <= k < |front| && front[k] == last;
        assert s[k] == s[|s| - 1];
      } else {
        assert now == before + {last};
        forall i, j | 0 <= i < j < |s| && Distinct(front) ensures s[i] != s[j] {
          assert s[i] == front[i] && front[i] in front;
        }
      }
    }
  }

  lemma {:induction false} RepeatCountsTwo<T>(s: seq<T>, i: nat, j: nat)
    requires i < j < |s| && s[i] == s[j]
    ensures multiset(s)[s[i]] >= 2
  {
    assert s == s[..j] + [s[j]] + s[j + 1..];
    assert s[i] == s[..j][i];
    assert multiset(s) == multiset(s[..j]) + multiset{s[j]} + multiset(s[j + 1..]);
  }

  lemma {:induction false} SortKeepsDistinct<T>(less: (T, T) -> bool, s: seq<T>)
    requires Distinct(s)
    ensures Distinct(Sort(less, s))
  {
    var r := Sort(less, s);
    forall i, j | 0 <= i < j < |r| ensures r[i] != r[j] {
      if r[i] == r[j] {
        SortKeepsElements(less, s, r[i]);
        var k :| 0 <= k < |s| && s[k] == r[i];
        DistinctCountsOne(s, k);
        RepeatCountsTwo(r, i, j);
      }
    }
  }

  /** `less` separates every two different elements of `s`. */
  ghost predicate Separates<T(!new)>(less: (T, T) -> bool, s: multiset<T>) {
    forall x, y :: x in s && y in s && x != y ==> less(x, y) || less(y, x)
  }

  lemma {:induction false} LastAgrees<T(!new)>(less: (T, T) -> bool, a: seq<T>, b: seq<T>)
    requires SortedBy(less, a) && SortedBy(less, b)
    requires multiset(a) == multiset(b)
    requires Separates(less, multiset(a))
    requires a != [] && b != []
    ensures a[|a| - 1] == b[|b| - 1]
  {
    var x, y := a[|a| - 1], b[|b| - 1];
    assert x in multiset(a) && y in multiset(b);
    var i :| 0 <= i < |a| && a[i] == y;
    var j :| 0 <= j < |b| && b[j] == x;
  }

  lemma {:induction false} DropLast<T(!new)>(less: (T, T) -> bool, a: seq<T>, last: T)
    requires a != [] && a[|a| - 1] == last
    requires SortedBy(less, a) && Separates(less, multiset(a))
    ensures SortedBy(less, a[..|a| - 1]) && Separates(less, multiset(a[..|a| - 1]))
    ensures multiset(a[..|a| - 1]) == multiset(a) - multiset{last}
    ensures a == a[..|a| - 1] + [last]
  {
    assert a == a[..|a| - 1] + [last];
    assert multiset(a) == multiset(a[..|a| - 1]) + multiset{last};
  }

  lemma {:induction false} SameLength<T>(a: seq<T>, b: seq<T>)
    requires multiset(a) == multiset(b)
    ensures |a| == |b|
  {
    assert |a| == |multiset(a)| && |b| == |multiset(b)|;
  }

  /** Two sorted arrangements of the same elements are the same sequence. */
  lemma {:induction false} SortedUnique<T(!new)>(less: (T, T) -> bool, a: seq<T>, b: seq<T>)
    requires SortedBy(less, a) && SortedBy(less, b)
    requires multiset(a) == multiset(b)
    requires Separates(less, multiset(a))
    ensures a == b
    decreases |a|
  {
    SameLength(a, b);
    if a != [] {
      LastAgrees(less, a, b);
      var last := a[|a| - 1];
      DropLast(less, a, last);
      DropLast(less, b, last);
      SortedUnique(less, a[..|a| - 1], b[..|b| - 1]);
    }
  }
}

/** Decimal numbers as text: zero-padded printing and reading back. */
module Decimals {

  predicate IsDigit(c: char) {
    '0' <= c <= '9'
  }

  function DigitChar(d: nat): char
    requires d < 10
  {
    '0' + d as char
  }

  function DigitValue(c: char): nat
    requires IsDigit(c)
  {
    c as nat - '0' as nat
  }

  /** At least `width` decimal digits of `n`, zero-padded on the left. */
  function Padded(n: nat, width: nat): (s: string)
    ensures forall i :: 0 <= i < |s| ==> IsDigit(s[i])
    ensures |s| >= width
    decreases n, width
  {
    if n == 0 && width == 0 then ""
    else Padded(n / 10, if width == 0 then 0 else width - 1) + [DigitChar(n % 10)]
  }

  function Value(s: string): nat
    requires forall i :: 0 <= i < |s| ==> IsDigit(s[i])
  {
    if s == "" then 0 else 10 * Value(s[..|s| - 1]) + DigitValue(s[|s| - 1])
  }

  function Power10(k: nat): nat {
    if k == 0 then 1 else 10 * Power10(k - 1)
  }

  lemma {:induction false} PaddedReadsBack(n: nat, width: nat)
    ensures Value(Padded(n, width)) == n
    decreases n, width
  {
    if n != 0 || width != 0 {
      var front := Padded(n / 10, if width == 0 then 0 else width - 1);
      PaddedReadsBack(n / 10, if width == 0 then 0 else width - 1);
      assert Padded(n, width)[..|front|] == front;
      assert DigitValue(DigitChar(n % 10)) == n % 10;
    }
  }

  /** Digits that are read and printed again in their width are the same digits. */
  lemma {:induction false} ReadPadsBack(s: string)
    requires forall i :: 0 <= i < |s| ==> IsDigit(s[i])
    ensures Padded(Value(s), |s|) == s
  {
    if s != "" {
      var front, last := s[..|s| - 1], s[|s| - 1];
      ReadPadsBack(front);
      assert Value(s) / 10 == Value(front) && Value(s) % 10 == DigitValue(last);
      assert DigitChar(DigitValue(last)) == last;
      assert s == front + [last];
    }
  }

  /** Exactly `width` digits are printed when they are enough. */
  lemma {:induction false} PaddedWidth(n: nat, width: nat)
    ensures |Padded(n, width)| == width <==> n < Power10(width)
    decreases n, width
  {
    if n != 0 || width != 0 {
      if width == 0 {
      } else {
        PaddedWidth(n / 10, width - 1);
        assert n / 10 < Power10(width - 1) <==> n < 10 * Power10(width - 1);
      }
    }
  }
}
