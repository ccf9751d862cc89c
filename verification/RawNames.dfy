/** Names of raw pages inside the archive: how the spool prints them and how the loader's
    pattern reads them back. */
module RawNames {
  import opened Common
  import opened Decimals

  const SIX_DIGITS := 1_000_000

  lemma {:induction false} SixDigits(n: nat)
    ensures Power10(6) == SIX_DIGITS
    ensures |Padded(n, 6)| == 6 <==> n < SIX_DIGITS
    ensures |Padded(n, 6)| >= 6
    ensures Value(Padded(n, 6)) == n
  {
    assert Power10(1) == 10 && Power10(2) == 100 && Power10(3) == 1000;
    assert Power10(4) == 10_000 && Power10(5) == 100_000;
    PaddedWidth(n, 6);
    PaddedReadsBack(n, 6);
  }

  datatype PageKey = PageKey(query: nat, page: nat, attempt: nat)

  /** The name the spool writes; a first attempt carries no attempt part. */
  function MemberName(key: PageKey): string {
    "query-" + Padded(key.query, 6) + "-page-" + Padded(key.page, 6)
    + (if key.attempt == 1 then "" else "-attempt-" + Padded(key.attempt, 6)) + ".json"
  }

  /** Six digits of `name` from position `at`. */
  function SixAt(name: string, at: nat): Option<nat> {
    if at + 6 <= |name| && forall i :: at <= i < at + 6 ==> IsDigit(name[i]) then Some(Value(name[at..at + 6])) else None
  }

  predicate TextAt(name: string, at: nat, text: string) {
    at + |text| <= |name| && name[at..at + |text|] == text
  }

  /** The loader's full match of `query-dddddd-page-dddddd[-attempt-dddddd].json`. */
  function ReadName(name: string): Option<PageKey> {
    var query, page := SixAt(name, 6), SixAt(name, 18);
    if !TextAt(name, 0, "query-") || query.None? || !TextAt(name, 12, "-page-") || page.None? then None
    else if |name| == 29 && TextAt(name, 24, ".json") then Some(PageKey(query.value, page.value, 1))
    else
      var attempt := SixAt(name, 33);
      if |name| == 44 && TextAt(name, 24, "-attempt-") && attempt.Some? && TextAt(name, 39, ".json")
      then Some(PageKey(query.value, page.value, attempt.value))
      else None
  }

  predicate Printable(key: PageKey) {
    key.query < SIX_DIGITS && key.page < SIX_DIGITS && key.attempt < SIX_DIGITS
  }

  lemma {:induction false} SixAtPart(before: string, n: nat, after: string, name: string)
    requires name == before + Padded(n, 6) + after && n < SIX_DIGITS
    ensures SixAt(name, |before|) == Some(n)
  {
    SixDigits(n);
    assert name[|before|..|before| + 6] == Padded(n, 6);
  }

  lemma {:induction false} TextAtPart(before: string, text: string, after: string, name: string)
    requires name == before + text + after
    ensures TextAt(name, |before|, text)
  {
    assert name[|before|..|before| + |text|] == text;
  }

  /** The query number, whatever follows. */
  lemma {:induction false} QueryReadsBack(query: nat, rest: string, name: string)
    requires query < SIX_DIGITS && name == "query-" + Padded(query, 6) + rest
    ensures TextAt(name, 0, "query-") && SixAt(name, 6) == Some(query)
    ensures |name| == 12 + |rest| && name[12..] == rest
  {
    SixDigits(query);
    assert name == "" + "query-" + (Padded(query, 6) + rest);
    TextAtPart("", "query-", Padded(query, 6) + rest, name);
    SixAtPart("query-", query, rest, name);
  }

  /** The page number, after any twelve characters. */
  lemma {:induction false} PageReadsBack(head: string, page: nat, tail: string, name: string)
    requires |head| == 12 && page < SIX_DIGITS && name == head + ("-page-" + Padded(page, 6) + tail)
    ensures TextAt(name, 12, "-page-") && SixAt(name, 18) == Some(page)
    ensures |name| == 24 + |tail| && name[24..] == tail
  {
    SixDigits(page);
    assert name == head + "-page-" + (Padded(page, 6) + tail);
    TextAtPart(head, "-page-", Padded(page, 6) + tail, name);
    assert name == (head + "-page-") + Padded(page, 6) + tail;
    SixAtPart(head + "-page-", page, tail, name);
  }

  /** Everything up to the page number, whatever follows. */
  lemma {:induction false} HeadReadsBack(query: nat, page: nat, tail: string, name: string)
    requires query < SIX_DIGITS && page < SIX_DIGITS
    requires name == "query-" + Padded(query, 6) + "-page-" + Padded(page, 6) + tail
    ensures TextAt(name, 0, "query-") && SixAt(name, 6) == Some(query)
    ensures TextAt(name, 12, "-page-") && SixAt(name, 18) == Some(page)
    ensures |name| == 24 + |tail| && name[24..] == tail
  {
    var rest := "-page-" + Padded(page, 6) + tail;
    assert name == "query-" + Padded(query, 6) + rest;
    QueryReadsBack(query, rest, name);
    SixDigits(query);
    PageReadsBack("query-" + Padded(query, 6), page, tail, name);
  }

  lemma {:induction false} TailReadsBack(name: string, attempt: nat)
    requires attempt < SIX_DIGITS
    requires |name| >= 24 && name[24..] == "-attempt-" + Padded(attempt, 6) + ".json"
    ensures |name| == 44 && TextAt(name, 24, "-attempt-") && SixAt(name, 33) == Some(attempt) && TextAt(name, 39, ".json")
  {
    var head, a := name[..24], Padded(attempt, 6);
    SixDigits(attempt);
    assert name == head + name[24..];
    assert name == head + "-attempt-" + (a + ".json");
    TextAtPart(head, "-attempt-", a + ".json", name);
    assert name == (head + "-attempt-") + a + ".json";
    SixAtPart(head + "-attempt-", attempt, ".json", name);
    assert name == (head + "-attempt-" + a) + ".json" + "";
    TextAtPart(head + "-attempt-" + a, ".json", "", name);
  }

  lemma {:induction false} NameReadsBack(key: PageKey)
    requires Printable(key)
    ensures ReadName(MemberName(key)) == Some(key)
  {
    var name := MemberName(key);
    var tail := (if key.attempt == 1 then "" else "-attempt-" + Padded(key.attempt, 6)) + ".json";
    assert name == "query-" + Padded(key.query, 6) + "-page-" + Padded(key.page, 6) + tail;
    HeadReadsBack(key.query, key.page, tail, name);
    if key.attempt == 1 {
      assert name[24..29] == name[24..];
    } else {
      TailReadsBack(name, key.attempt);
    }
  }

  lemma {:induction false} DigitFollows(before: string, n: nat, after: string, name: string)
    requires name == before + Padded(n, 6) + after && n >= SIX_DIGITS
    ensures |before| + 6 < |name| && IsDigit(name[|before| + 6])
  {
    SixDigits(n);
    assert name[|before| + 6] == Padded(n, 6)[6];
  }

  /** A text that begins with no digit is not found where a digit stands. */
  lemma {:induction false} DigitIsNoText(name: string, at: nat, text: string)
    requires at < |name| && IsDigit(name[at]) && text != "" && !IsDigit(text[0])
    ensures !TextAt(name, at, text)
  {
    if at + |text| <= |name| {
      assert name[at..at + |text|][0] == name[at];
    }
  }

  lemma {:induction false} LongQueryUnreadable(key: PageKey)
    requires key.query >= SIX_DIGITS
    ensures ReadName(MemberName(key)) == None
  {
    var name := MemberName(key);
    var tail := "-page-" + Padded(key.page, 6) + (if key.attempt == 1 then "" else "-attempt-" + Padded(key.attempt, 6)) + ".json";
    assert name == "query-" + Padded(key.query, 6) + tail;
    DigitFollows("query-", key.query, tail, name);
    DigitIsNoText(name, 12, "-page-");
  }

  lemma {:induction false} LongPageUnreadable(key: PageKey)
    requires key.query < SIX_DIGITS && key.page >= SIX_DIGITS
    ensures ReadName(MemberName(key)) == None
  {
    var name := MemberName(key);
    var tail := (if key.attempt == 1 then "" else "-attempt-" + Padded(key.attempt, 6)) + ".json";
    assert name == "query-" + Padded(key.query, 6) + "-page-" + Padded(key.page, 6) + tail;
    SixDigits(key.query);
    DigitFollows("query-" + Padded(key.query, 6) + "-page-", key.page, tail, name);
    DigitIsNoText(name, 24, ".json");
    DigitIsNoText(name, 24, "-attempt-");
  }

  lemma {:induction false} LongAttemptUnreadable(key: PageKey)
    requires key.query < SIX_DIGITS && key.page < SIX_DIGITS && key.attempt >= SIX_DIGITS
    ensures ReadName(MemberName(key)) == None
  {
    SixDigits(key.query);
    SixDigits(key.page);
    SixDigits(key.attempt);
    assert |MemberName(key)| > 44;
  }

  /** A member's name reads back to its key exactly when all three numbers have at most six
      digits; otherwise the loader does not recognise the name at all. */
  lemma {:induction false} NameRoundTripsIff(key: PageKey)
    ensures ReadName(MemberName(key)) == if Printable(key) then Some(key) else None
  {
    if Printable(key) {
      NameReadsBack(key);
    } else if key.query >= SIX_DIGITS {
      LongQueryUnreadable(key);
    } else if key.page >= SIX_DIGITS {
      LongPageUnreadable(key);
    } else {
      LongAttemptUnreadable(key);
    }
  }

  /** What follows the page number in a name the loader accepts. */
  predicate IsTail(tail: string, attempt: nat) {
    (tail == ".json" && attempt == 1) || tail == "-attempt-" + Padded(attempt, 6) + ".json"
  }

  lemma {:induction false} SixAtMeans(name: string, at: nat, n: nat)
    requires SixAt(name, at) == Some(n)
    ensures name[at..at + 6] == Padded(n, 6) && n < SIX_DIGITS
  {
    ReadPadsBack(name[at..at + 6]);
    SixDigits(n);
  }

  lemma {:induction false} ReadNameForm(name: string, key: PageKey)
    requires ReadName(name) == Some(key)
    ensures Printable(key) && |name| >= 24 && IsTail(name[24..], key.attempt)
    ensures name == "query-" + Padded(key.query, 6) + "-page-" + Padded(key.page, 6) + name[24..]
  {
    SixAtMeans(name, 6, key.query);
    SixAtMeans(name, 18, key.page);
    assert name == name[0..6] + name[6..12] + name[12..18] + name[18..24] + name[24..];
    if |name| == 29 {
      assert name[24..] == name[24..29];
    } else {
      SixAtMeans(name, 33, key.attempt);
      assert name[24..] == name[24..33] + name[33..39] + name[39..44];
    }
  }

  lemma {:induction false} FormIsRead(name: string, key: PageKey, tail: string)
    requires Printable(key) && IsTail(tail, key.attempt)
    requires name == "query-" + Padded(key.query, 6) + "-page-" + Padded(key.page, 6) + tail
    ensures ReadName(name) == Some(key)
  {
    HeadReadsBack(key.query, key.page, tail, name);
    if tail == ".json" && key.attempt == 1 {
      assert name[24..29] == name[24..];
    } else {
      TailReadsBack(name, key.attempt);
    }
  }

  /** The loader accepts exactly the names `query-` and six digits, `-page-` and six digits, then
      nothing for a first attempt or `-attempt-` and six digits, then `.json`. */
  lemma {:induction false} ReadNameMeans(name: string, key: PageKey)
    ensures ReadName(name) == Some(key) <==>
            Printable(key) && exists tail :: IsTail(tail, key.attempt) && name == "query-" + Padded(key.query, 6) + "-page-" + Padded(key.page, 6) + tail
  {
    if ReadName(name) == Some(key) {
      ReadNameForm(name, key);
    }
    if Printable(key) {
      if tail :| IsTail(tail, key.attempt) && name == "query-" + Padded(key.query, 6) + "-page-" + Padded(key.page, 6) + tail {
        FormIsRead(name, key, tail);
      }
    }
  }
}
