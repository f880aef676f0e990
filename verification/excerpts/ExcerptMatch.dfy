/** When the audit accepts an excerpt as a citation of its source value. */
module ExcerptMatch {
  import opened Basics
  import opened TextNormalization
  import opened NumberScan

  // ---- scale suffixes ----------------------------------------------------------------

  /** `tail.lstrip()`. */
  function TrimLeft(s: string): string {
    if s != [] && IsSpace(s[0]) then TrimLeft(s[1..]) else s
  }

  /** `_CN_SCALE_SUFFIXES`: the longer unit first. */
  function FactorOf(tail: string): Option<real> {
    if StartsWith(tail, "万亿") then Some(1000000000000.0)
    else if StartsWith(tail, "亿元") || StartsWith(tail, "亿") then Some(100000000.0)
    else if StartsWith(tail, "万元") || StartsWith(tail, "万") then Some(10000.0)
    else if StartsWith(tail, "千") then Some(1000.0)
    else if StartsWith(tail, "百") then Some(100.0)
    else None
  }

  /** The factor of the unit right after a number (within six characters). */
  function Scale(rest: string): Option<real> {
    FactorOf(TrimLeft(if |rest| <= 6 then rest else rest[..6]))
  }

  /** What a match may stand for. */
  function Readings(m: Match): seq<real> {
    [Value(m.token)] + (if Scale(m.rest).Some? then [Value(m.token) * Scale(m.rest).value] else [])
  }

  // ---- tolerant comparison -------------------------------------------------------------------

  /** `_numbers_close` with the default tolerances. */
  predicate Close(a: real, b: real) {
    || Abs(a - b) <= 1.0
    || (Max(Abs(a), Abs(b)) > 0.0 && Abs(a - b) / Max(Abs(a), Abs(b)) <= 0.000001)
  }

  /** The digit characters of a text. */
  function DigitsIn(s: string): string {
    if s == [] then [] else DigitsIn(s[..|s| - 1]) + (if IsDigit(s[|s| - 1]) then [s[|s| - 1]] else [])
  }

  /** `_digit_substring_match`. */
  predicate DigitSubstring(token: string, actual: string) {
    DigitsIn(token) != [] && Contains(DigitsIn(actual), DigitsIn(token))
  }

  predicate CloseToSome(x: real, nums: seq<real>) { exists j :: 0 <= j < |nums| && Close(x, nums[j]) }

  /** The number traces back to the source. */
  predicate Traced(m: Match, actual: string) {
    || (exists i :: 0 <= i < |Readings(m)| && CloseToSome(Readings(m)[i], Numbers(actual)))
    || DigitSubstring(m.token, actual)
  }

  /** Every number of the excerpt traces back, and both texts have numbers. */
  predicate Tolerant(excerpt: string, actual: string) {
    && Matches(excerpt) != [] && Numbers(actual) != []
    && forall k :: 0 <= k < |Matches(excerpt)| ==> Traced(Matches(excerpt)[k], actual)
  }

  method AnyClose(x: real, nums: seq<real>) returns (found: bool)
    ensures found == CloseToSome(x, nums)
  {
    hide Close;
    for j := 0 to |nums|
      invariant forall k :: 0 <= k < j ==> !Close(x, nums[k])
    {
      if Close(x, nums[j]) {
        return true;
      }
    }
    found := false;
  }

  /** `_numeric_tolerant_match`. */
  method NumericTolerantMatch(excerpt: string, actual: string) returns (ok: bool)
    ensures ok == Tolerant(excerpt, actual)
  {
    hide Matches, Numbers, Readings, CloseToSome, DigitSubstring;
    var groups := Matches(excerpt);
    if groups == [] {
      return false;
    }
    var nums := ExtractNumbers(actual);
    if nums == [] {
      return false;
    }
    for k := 0 to |groups|
      invariant forall j :: 0 <= j < k ==> Traced(groups[j], actual)
    {
      var matched := false;
      var values := Readings(groups[k]);
      var i := 0;
      while i < |values| && !matched
        invariant 0 <= i <= |values|
        invariant matched <==> exists j :: 0 <= j < i && CloseToSome(values[j], nums)
        decreases |values| - i
      {
        matched := AnyClose(values[i], nums);
        i := i + 1;
      }
      if !matched && DigitSubstring(groups[k].token, actual) {
        matched := true;
      }
      if !matched {
        return false;
      }
    }
    ok := true;
  }

  datatype Verdict = Skipped | NoSource | Accepted | MisCite

  /** The check of one excerpt against the text of the value it cites. */
  function Judge(excerpt: string, actual: string): Verdict {
    if |Normalize(excerpt)| < 3 then Skipped
    else if actual == [] then NoSource
    else if Cites(excerpt, actual) || Tolerant(excerpt, actual) then Accepted
    else MisCite
  }

  // ---- what is accepted ----------------------------------------------------------------------

  /** Every contiguous piece of the source text passes. */
  lemma SubstringAccepted(excerpt: string, actual: string)
    requires Contains(actual, excerpt)
    ensures Judge(excerpt, actual) == Accepted || Judge(excerpt, actual) == Skipped
    ensures Judge(excerpt, actual) == Skipped <==> |Normalize(excerpt)| < 3
  {
    hide Normalize, Tolerant, Contains, Cites;
    SubstringCites(excerpt, actual);
    if actual == [] {
      EmptyContains(excerpt);
    }
  }

  lemma EmptyContains(p: string)
    ensures Contains([], p) ==> p == [] && Normalize(p) == []
  {
  }

  /** A printed number in running text traces back to any stored one of the same value: signed or not, with or
      without thousands separators, a fraction, or an exponent. */
  lemma PrintedNumberAccepted(grouped: bool, negative: bool, n: nat, frac: string, p: Power, pre: string, post: string,
                              negative': bool, n': nat, frac': string, p': Power, lead: string, trail: string)
    requires AllDigits(frac) && Printable(p) && Lead(pre) && Stops(post) && Matches(post) == []
    requires AllDigits(frac') && Printable(p') && Lead(lead) && Stops(trail)
    requires ScientificValue(negative, n, frac, p) == ScientificValue(negative', n', frac', p')
    ensures Tolerant(pre + Scientific(grouped, negative, n, frac, p) + post, lead + Scientific(false, negative', n', frac', p') + trail)
  {
    hide Matches, Value, Lead, Stops, Scientific, ScientificValue, Close, DigitSubstring, Scale, AllDigits;
    var token, stored := Scientific(grouped, negative, n, frac, p), Scientific(false, negative', n', frac', p');
    var excerpt, actual := pre + token + post, lead + stored + trail;
    ScientificRoundTrip(grouped, negative, n, frac, p, pre, post);
    ScientificRoundTrip(false, negative', n', frac', p', lead, trail);
    var x := ScientificValue(negative, n, frac, p);
    CloseToItself(x);
    var m := Match(token, post);
    assert Matches(excerpt) == [m];
    assert Numbers(actual)[0] == x;
    FirstReading(m);
    assert CloseToSome(Readings(m)[0], Numbers(actual));
    assert Traced(m, actual);
  }

  /** As JSON prints a whole number stored as a float. */
  lemma DotZeroSame(negative: bool, n: nat)
    ensures LiteralValue(negative, n, "0") == LiteralValue(negative, n, [])
  {
    assert "0"[..0] == "";
    assert Num("0") == 0;
    Quotient(Pow10(1));
  }

  lemma FirstReading(m: Match)
    ensures |Readings(m)| > 0 && Readings(m)[0] == Value(m.token)
  {
  }

  lemma CloseToItself(x: real)
    ensures Close(x, x)
  {
  }

  /** The Chinese units of account, and how many each stands for. */
  predicate Unit(unit: string, factor: nat) {
    || (unit == "万亿" && factor == 1000000000000)
    || (unit == "亿元" && factor == 100000000) || (unit == "亿" && factor == 100000000)
    || (unit == "万元" && factor == 10000) || (unit == "万" && factor == 10000)
    || (unit == "千" && factor == 1000) || (unit == "百" && factor == 100)
  }

  function Spaced(space: bool, unit: string): string { (if space then [' '] else []) + unit }

  /** A figure followed by a unit, with or without a space, traces back to the stored number in full. */
  lemma ScaledNumberAccepted(n: nat, space: bool, unit: string, factor: nat, pre: string, post: string,
                             dot: bool, lead: string, trail: string)
    requires Unit(unit, factor) && (unit == "万" ==> post == [] || post[0] != '亿')
    requires Lead(pre) && Matches(Spaced(space, unit) + post) == []
    requires Lead(lead) && Stops(trail)
    ensures var stored := if dot then Digits(n * factor) + ".0" else Digits(n * factor);
            Tolerant(pre + Thousands(n) + (Spaced(space, unit) + post), lead + stored + trail)
  {
    hide Matches, Value, Lead, Thousands, Digits, Close, DigitSubstring, Stops, Spaced, Unit;
    var full := n * factor;
    var stored := if dot then Digits(full) + ".0" else Digits(full);
    var rest := Spaced(space, unit) + post;
    var excerpt, actual := pre + Thousands(n) + rest, lead + stored + trail;
    UnitStops(space, unit, factor, post);
    ThousandsRoundTrip(n, pre, rest);
    PlainRoundTrip(full, dot, lead, trail);
    CloseToItself(full as real);
    var m := Match(Thousands(n), rest);
    assert Matches(excerpt) == [m];
    assert Numbers(actual)[0] == full as real;
    ScaledReading(m, n, space, unit, factor, post);
    assert CloseToSome(Readings(m)[1], Numbers(actual));
    assert Traced(m, actual);
  }

  lemma UnitStops(space: bool, unit: string, factor: nat, post: string)
    requires Unit(unit, factor)
    ensures Stops(Spaced(space, unit) + post)
  {
    var s := Spaced(space, unit) + post;
    assert s[0] == ' ' || s[0] == '万' || s[0] == '亿' || s[0] == '千' || s[0] == '百';
    assert Fraction(s) == 0 && s[0..] == s;
  }

  lemma ScaledReading(m: Match, n: nat, space: bool, unit: string, factor: nat, post: string)
    requires Unit(unit, factor) && (unit == "万" ==> post == [] || post[0] != '亿')
    requires m.rest == Spaced(space, unit) + post && Value(m.token) == n as real
    ensures |Readings(m)| == 2 && Readings(m)[1] == (n * factor) as real
  {
    hide Value, Scale;
    UnitScale(space, unit, factor, post);
    RealProduct(n, factor);
  }

  lemma RealProduct(n: nat, factor: nat)
    ensures n as real * factor as real == (n * factor) as real
  {
  }

  function Cut6(s: string, k: nat): string { if |s| <= k then s else s[..k] }

  /** The first six characters after a number decide. */
  lemma UnitScale(space: bool, unit: string, factor: nat, post: string)
    requires Unit(unit, factor) && (unit == "万" ==> post == [] || post[0] != '亿')
    ensures Scale(Spaced(space, unit) + post) == Some(factor as real)
  {
    hide FactorOf, TrimLeft, Cut6;
    UnitLength(unit, factor);
    var k := if space then 5 else 6;
    UnitWindow(space, unit, post, k);
    UnitFits(unit, post, k);
    hide Unit;
    UnitAhead(unit, factor, Cut6(unit + post, k), post);
  }

  lemma UnitLength(unit: string, factor: nat)
    requires Unit(unit, factor)
    ensures 1 <= |unit| <= 2 && !IsSpace(unit[0])
  {
  }

  lemma UnitFits(unit: string, post: string, k: nat)
    requires |unit| <= k
    ensures var tail := Cut6(unit + post, k);
            |tail| >= |unit| && tail[..|unit|] == unit && (|tail| > |unit| ==> post != [] && tail[|unit|] == post[0])
  {
  }

  lemma TrimmedTail(space: bool, tail: string)
    requires tail != [] && !IsSpace(tail[0])
    ensures TrimLeft((if space then [' '] else []) + tail) == tail
  {
    if space {
      assert ([' '] + tail)[1..] == tail;
    } else {
      assert [] + tail == tail;
    }
  }

  lemma UnitWindow(space: bool, unit: string, post: string, k: nat)
    requires unit != [] && !IsSpace(unit[0]) && k == if space then 5 else 6
    ensures Scale(Spaced(space, unit) + post) == FactorOf(Cut6(unit + post, k))
  {
    hide FactorOf;
    var s := Spaced(space, unit) + post;
    assert Cut6(s, 6) == (if space then [' '] else []) + Cut6(unit + post, k);
    TrimmedTail(space, Cut6(unit + post, k));
  }

  lemma UnitAhead(unit: string, factor: nat, tail: string, post: string)
    requires Unit(unit, factor) && |tail| >= |unit| && tail[..|unit|] == unit
    requires |tail| > |unit| ==> post != [] && tail[|unit|] == post[0]
    requires unit == "万" ==> post == [] || post[0] != '亿'
    ensures FactorOf(tail) == Some(factor as real)
  {
    assert unit[0] == tail[0];
    if |unit| == 2 {
      assert unit[1] == tail[1];
    }
  }

  // ---- texts without numbers ----------------------------------------------------------------------

  predicate DigitFree(s: string) { forall i :: 0 <= i < |s| ==> !('0' <= s[i] <= '9') }

  lemma {:induction false} NoDigitsNoMatches(s: string)
    requires DigitFree(s)
    ensures Matches(s) == []
    decreases |s|
  {
    if s != [] {
      NoMatchHere(s);
      NoDigitsNoMatches(s[1..]);
    }
  }

  lemma NoMatchHere(s: string)
    requires DigitFree(s)
    ensures MatchAt(s) == 0
  {
    var t := s[Sign(s)..];
    assert t != [] ==> !IsDigit(t[0]);
  }

  /** Where either text has no digit, numbers do not come into it: the excerpt has to be a piece of the source,
      punctuation and case aside. */
  lemma WordsJudged(excerpt: string, actual: string)
    requires DigitFree(excerpt) || DigitFree(actual)
    ensures Judge(excerpt, actual) ==
            if |Normalize(excerpt)| < 3 then Skipped
            else if |actual| == 0 then NoSource
            else if exists a: string, b: string :: Normalize(actual) == a + Normalize(excerpt) + b then Accepted
            else MisCite
  {
    hide Matches, Normalize, Traced, Contains;
    if DigitFree(excerpt) {
      NoDigitsNoMatches(excerpt);
    } else {
      NoDigitsNoMatches(actual);
    }
    CitesInWords(excerpt, actual);
  }

  lemma CitesInWords(excerpt: string, actual: string)
    ensures Cites(excerpt, actual) <==> exists a: string, b: string :: Normalize(actual) == a + Normalize(excerpt) + b
  {
    hide Normalize, Contains;
    if Cites(excerpt, actual) {
      var a, b := ContainsSplit(Normalize(actual), Normalize(excerpt));
      assert Normalize(actual) == a + Normalize(excerpt) + b;
    }
    if exists a: string, b: string :: Normalize(actual) == a + Normalize(excerpt) + b {
      var a: string, b: string :| Normalize(actual) == a + Normalize(excerpt) + b;
      ContainsMiddle(a, Normalize(excerpt), b);
    }
  }

  // ---- exactly when a bare number is accepted -----------------------------------------------------

  lemma {:induction false} DigitsInAppend(a: string, b: string)
    ensures DigitsIn(a + b) == DigitsIn(a) + DigitsIn(b)
  {
    if b == [] {
      assert a + b == a;
    } else {
      assert (a + b)[..|a + b| - 1] == a + b[..|b| - 1];
      DigitsInAppend(a, b[..|b| - 1]);
    }
  }

  lemma {:induction false} DigitsStay(s: string)
    requires AllDigits(s)
    ensures DigitsIn(s) == s && Normalize(s) == s
  {
    if s != [] {
      DigitsStay(s[..|s| - 1]);
      DigitIsPlain(s[|s| - 1]);
      hide IsPunctuation, LowerChar;
    }
  }

  lemma DigitIsPlain(c: char)
    requires IsDigit(c)
    ensures LowerChar(c) == c && !IsPunctuation(c)
  {
  }

  lemma CommaDrops()
    ensures DigitsIn([',']) == [] && Normalize([',']) == []
  {
    assert [','][..0] == [];
    assert DigitsIn([]) == [] && Normalize([]) == [];
  }

  /** Normalising a printed number, or keeping its digits, gives the plain notation. */
  lemma {:induction false} ThousandsNormalize(n: nat)
    ensures Normalize(Thousands(n)) == Digits(n) && DigitsIn(Thousands(n)) == Digits(n)
  {
    hide Normalize, DigitsIn, Digits, Pad3, AllDigits;
    if n < 1000 {
      DigitsDenote(n);
      DigitsStay(Digits(n));
    } else {
      ThousandsNormalize(n / 1000);
      PadIsDigits(n % 1000);
      DigitsStay(Pad3(n % 1000));
      CommaDrops();
      DigitsByThousand(n);
      var head := Thousands(n / 1000);
      assert Digits(n / 1000) + [] == Digits(n / 1000);
      NormalizeAppend(head + [','], Pad3(n % 1000));
      NormalizeAppend(head, [',']);
      DigitsInAppend(head + [','], Pad3(n % 1000));
      DigitsInAppend(head, [',']);
    }
  }

  /** At most one apart, or apart by at most a millionth of the larger. */
  predicate Near(n: nat, k: nat) {
    var gap, larger := if n >= k then n - k else k - n, if n >= k then n else k;
    gap <= 1 || 1000000 * gap <= larger
  }

  lemma CloseExactly(a: real, b: real)
    ensures Close(a, b) <==> Abs(a - b) <= 1.0 || 1000000.0 * Abs(a - b) <= Max(Abs(a), Abs(b))
  {
    var gap, larger := Abs(a - b), Max(Abs(a), Abs(b));
    if larger > 0.0 {
      Millionth(gap, larger);
    }
  }

  lemma Millionth(gap: real, larger: real)
    requires larger > 0.0
    ensures gap / larger <= 0.000001 <==> 1000000.0 * gap <= larger
  {
    var q := gap / larger;
    assert q * larger == gap;
    if q <= 0.000001 {
      assert q * larger <= 0.000001 * larger;
    } else {
      assert q * larger > 0.000001 * larger;
    }
  }

  lemma NearExactly(n: nat, k: nat)
    ensures Near(n, k) <==> Abs(n as real - k as real) <= 1.0 || 1000000.0 * Abs(n as real - k as real) <= Max(Abs(n as real), Abs(k as real))
  {
    assert n as real - k as real == (n - k) as real;
  }

  /** A number cited against another number: accepted exactly when the two are within tolerance or the
      digits of the first are a run of digits of the second. */
  lemma NumberCitationExact(n: nat, k: nat)
    ensures Judge(Thousands(n), Digits(k)) ==
            if |Digits(n)| < 3 then Skipped
            else if Near(n, k) || Contains(Digits(k), Digits(n)) then Accepted
            else MisCite
  {
    CloseExactly(n as real, k as real);
    NearExactly(n, k);
    hide Matches, Value, Thousands, Digits, Close, Normalize, DigitsIn, Contains, Stops, Lead;
    ThousandsNormalize(n);
    DigitsDenote(n);
    DigitsDenote(k);
    DigitsStay(Digits(k));
    BareThousands(n);
    BareDigits(k);
    var m := Match(Thousands(n), []);
    OneReading(m);
    assert Numbers(Digits(k))[0] == k as real;
    assert CloseToSome(n as real, Numbers(Digits(k))) == Close(n as real, k as real);
    assert Readings(m) == [n as real];
    assert Traced(m, Digits(k)) == (Close(n as real, k as real) || Contains(Digits(k), Digits(n))) by {
      if Close(n as real, k as real) {
        assert CloseToSome(Readings(m)[0], Numbers(Digits(k)));
      }
    }
    assert Tolerant(Thousands(n), Digits(k)) == Traced(m, Digits(k)) by {
      assert Matches(Thousands(n))[0] == m;
    }
  }

  lemma BareThousands(n: nat)
    ensures Matches(Thousands(n)) == [Match(Thousands(n), [])] && Value(Thousands(n)) == n as real
  {
    hide Matches, Value, Thousands;
    NothingStops();
    ThousandsRoundTrip(n, [], []);
    NothingMatches();
    assert [] + Thousands(n) + [] == Thousands(n);
  }

  lemma BareDigits(k: nat)
    ensures |Numbers(Digits(k))| == 1 && Numbers(Digits(k))[0] == k as real
  {
    hide Matches, Value, Digits;
    NothingStops();
    PlainRoundTrip(k, false, [], []);
    NothingMatches();
    assert [] + Digits(k) + [] == Digits(k);
  }

  lemma OneReading(m: Match)
    requires m.rest == []
    ensures Readings(m) == [Value(m.token)]
  {
    assert TrimLeft([]) == [];
  }
}
