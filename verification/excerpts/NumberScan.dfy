/** Numbers in text: the number pattern, its matches from left to right, and their values. */
module NumberScan {
  predicate IsDigit(c: char) { '0' <= c <= '9' }

  predicate AllDigits(s: string) { forall i :: 0 <= i < |s| ==> IsDigit(s[i]) }

  // ---- the pattern ---------------------------------------------------------------------

  /** Leading digits. */
  function DigitRun(s: string): (n: nat)
    ensures n <= |s|
  {
    if s == [] || !IsDigit(s[0]) then 0 else 1 + DigitRun(s[1..])
  }

  predicate Group(s: string) { |s| >= 4 && s[0] == ',' && IsDigit(s[1]) && IsDigit(s[2]) && IsDigit(s[3]) }

  /** Leading groups of a comma and three digits. */
  function Groups(s: string): (n: nat)
    ensures 4 * n <= |s|
  {
    if Group(s) then 1 + Groups(s[4..]) else 0
  }

  function Sign(s: string): (n: nat)
    ensures n <= |s|
  {
    if s != [] && s[0] == '-' then 1 else 0
  }

  /** Length of a leading `.ddd`, 0 if there is none. */
  function Fraction(s: string): (n: nat)
    ensures n <= |s| && n != 1
  {
    if s != [] && s[0] == '.' && DigitRun(s[1..]) > 0 then 1 + DigitRun(s[1..]) else 0
  }

  function PlusMinus(s: string): (n: nat)
    ensures n <= |s|
  {
    if s != [] && (s[0] == '-' || s[0] == '+') then 1 else 0
  }

  /** Length of a leading exponent. */
  function Exponent(s: string): (n: nat)
    ensures n <= |s| && n != 1
  {
    if s != [] && (s[0] == 'e' || s[0] == 'E') && DigitRun(s[1..][PlusMinus(s[1..])..]) > 0
    then 1 + PlusMinus(s[1..]) + DigitRun(s[1..][PlusMinus(s[1..])..])
    else 0
  }

  function Trailer(s: string): (n: nat)
    ensures n <= |s|
  {
    Fraction(s) + Exponent(s[Fraction(s)..])
  }

  /** Length of a leading grouped integer, trying `k` leading digits, then fewer. */
  function Grouped(s: string, k: nat): (n: nat)
    requires k <= |s|
    ensures n <= |s|
  {
    if k == 0 then 0
    else if Groups(s[k..]) > 0 then k + 4 * Groups(s[k..])
    else Grouped(s, k - 1)
  }

  function IntegerPart(s: string): (n: nat)
    ensures n <= |s|
  {
    var run := DigitRun(s);
    var grouped := Grouped(s, if run < 3 then run else 3);
    if grouped > 0 then grouped else run
  }

  /** `_NUMBER_RE` at the start of `s`: the length of the match, 0 if there is none. */
  function MatchAt(s: string): (n: nat)
    ensures n <= |s|
  {
    var m := Sign(s);
    var n := IntegerPart(s[m..]);
    if n == 0 then 0 else m + n + Trailer(s[m..][n..])
  }

  /** A match and the text that follows it. */
  datatype Match = Match(token: string, rest: string)

  /** All matches, left to right. */
  function Matches(s: string): seq<Match>
    decreases |s|
  {
    if s == [] then []
    else if MatchAt(s) == 0 then Matches(s[1..])
    else [Match(s[..MatchAt(s)], s[MatchAt(s)..])] + Matches(s[MatchAt(s)..])
  }

  // ---- values --------------------------------------------------------------------------------

  function Without(s: string, c: char): string {
    if s == [] then [] else Without(s[..|s| - 1], c) + (if s[|s| - 1] == c then [] else [s[|s| - 1]])
  }

  /** The number a string of digits denotes. */
  function Num(s: string): nat
    requires AllDigits(s)
  {
    if s == [] then 0 else 10 * Num(s[..|s| - 1]) + (s[|s| - 1] - '0') as nat
  }

  function Pow10(k: nat): (r: real)
    ensures r > 0.0
  {
    if k == 0 then 1.0 else 10.0 * Pow10(k - 1)
  }

  lemma {:induction false} RunIsDigits(s: string)
    ensures AllDigits(s[..DigitRun(s)])
  {
    if s != [] && IsDigit(s[0]) {
      RunIsDigits(s[1..]);
      assert s[..DigitRun(s)] == [s[0]] + s[1..][..DigitRun(s[1..])];
    }
  }

  function LeadingNum(s: string): nat {
    RunIsDigits(s);
    Num(s[..DigitRun(s)])
  }

  /** `x` times the power of ten that `tail` begins with, if it begins with one. */
  function Scaled(x: real, tail: string): real {
    if Exponent(tail) == 0 then x
    else
      var k := LeadingNum(tail[1..][PlusMinus(tail[1..])..]);
      if tail[1] == '-' then x / Pow10(k) else x * Pow10(k)
  }

  /** `float(token.replace(",", ""))`, exactly. */
  function Value(token: string): real { Parse(Without(token, ',')) }

  function Parse(t: string): real {
    var body := t[Sign(t)..];
    var after := body[DigitRun(body)..];
    var f := Fraction(after);
    var mantissa := LeadingNum(body) as real
                    + (if f == 0 then 0.0 else LeadingNum(after[1..]) as real / Pow10(f - 1));
    var magnitude := Scaled(mantissa, after[f..]);
    if Sign(t) == 1 then -magnitude else magnitude
  }

  /** `_extract_numbers`. */
  function Numbers(s: string): seq<real> {
    var ms := Matches(s);
    seq(|ms|, i requires 0 <= i < |ms| => Value(ms[i].token))
  }

  lemma MatchesFrom(s: string, pos: nat)
    requires pos < |s|
    ensures var n := MatchAt(s[pos..]);
            Matches(s[pos..]) ==
            if n == 0 then Matches(s[pos + 1..]) else [Match(s[pos..][..n], s[pos + n..])] + Matches(s[pos + n..])
  {
    hide MatchAt;
    assert s[pos..][1..] == s[pos + 1..];
    assert s[pos..][MatchAt(s[pos..])..] == s[pos + MatchAt(s[pos..])..];
  }

  method ExtractNumbers(s: string) returns (out: seq<real>)
    ensures out == Numbers(s)
  {
    hide MatchAt, Value, Matches;
    NothingMatches();
    out := [];
    var pos := 0;
    ghost var found: seq<Match> := [];
    while pos < |s|
      invariant pos <= |s|
      invariant Matches(s) == found + Matches(s[pos..])
      invariant |out| == |found| && forall i :: 0 <= i < |out| ==> out[i] == Value(found[i].token)
      decreases |s| - pos
    {
      var n := MatchAt(s[pos..]);
      MatchesFrom(s, pos);
      if n == 0 {
        pos := pos + 1;
      } else {
        found := found + [Match(s[pos..][..n], s[pos + n..])];
        out := out + [Value(s[pos..][..n])];
        pos := pos + n;
      }
    }
    assert s[pos..] == [];
    assert found == Matches(s);
  }

  // ---- printing ------------------------------------------------------------------------------

  function Digit(d: nat): char
    requires d < 10
  {
    '0' + d as char
  }

  /** Decimal notation. */
  function Digits(n: nat): string {
    if n < 10 then [Digit(n)] else Digits(n / 10) + [Digit(n % 10)]
  }

  function Pad3(n: nat): string
    requires n < 1000
  {
    [Digit(n / 100), Digit(n / 10 % 10), Digit(n % 10)]
  }

  /** Decimal notation with thousands separators. */
  function Thousands(n: nat): string {
    if n < 1000 then Digits(n) else Thousands(n / 1000) + [','] + Pad3(n % 1000)
  }

  lemma {:induction false} DigitsDenote(n: nat)
    ensures AllDigits(Digits(n)) && Digits(n) != [] && Num(Digits(n)) == n
  {
    if n >= 10 {
      DigitsDenote(n / 10);
      var d := Digits(n);
      assert d[..|d| - 1] == Digits(n / 10);
    } else {
      assert Digits(n)[..0] == [];
    }
  }

  lemma DigitsStep(n: nat)
    requires n >= 10
    ensures Digits(n) == Digits(n / 10) + [Digit(n % 10)]
  {
  }

  lemma ThousandArithmetic(n: nat)
    ensures n / 10 / 10 == n / 100 && n / 100 / 10 == n / 1000
    ensures n % 1000 / 100 == n / 100 % 10 && n % 1000 / 10 % 10 == n / 10 % 10 && n % 1000 % 10 == n % 10
  {
  }

  /** Splitting off the last three digits. */
  lemma DigitsByThousand(n: nat)
    requires n >= 1000
    ensures Digits(n) == Digits(n / 1000) + Pad3(n % 1000)
  {
    hide Digits, Digit;
    ThousandArithmetic(n);
    DigitsStep(n);
    DigitsStep(n / 10);
    DigitsStep(n / 100);
  }

  lemma {:induction false} WithoutAppend(a: string, b: string, c: char)
    ensures Without(a + b, c) == Without(a, c) + Without(b, c)
  {
    if b == [] {
      assert a + b == a;
    } else {
      assert (a + b)[..|a + b| - 1] == a + b[..|b| - 1];
      WithoutAppend(a, b[..|b| - 1], c);
    }
  }

  lemma {:induction false} WithoutNone(s: string, c: char)
    requires c !in s
    ensures Without(s, c) == s
  {
    if s != [] {
      WithoutNone(s[..|s| - 1], c);
    }
  }

  lemma WithoutComma()
    ensures Without([','], ',') == []
  {
    assert [','][..0] == [];
    assert Without([], ',') == [];
  }

  lemma DigitsNoComma(s: string)
    requires AllDigits(s)
    ensures ',' !in s
  {
  }

  lemma PadIsDigits(n: nat)
    requires n < 1000
    ensures AllDigits(Pad3(n))
  {
  }

  /** Dropping the separators gives back the plain notation. */
  lemma {:induction false} ThousandsPlain(n: nat)
    ensures Without(Thousands(n), ',') == Digits(n)
  {
    hide Without, Digits, Pad3;
    if n < 1000 {
      DigitsDenote(n);
      DigitsNoComma(Digits(n));
      WithoutNone(Digits(n), ',');
    } else {
      ThousandsPlain(n / 1000);
      PadIsDigits(n % 1000);
      DigitsNoComma(Pad3(n % 1000));
      WithoutNone(Pad3(n % 1000), ',');
      DigitsByThousand(n);
      WithoutAppend(Thousands(n / 1000) + [','], Pad3(n % 1000), ',');
      WithoutAppend(Thousands(n / 1000), [','], ',');
      WithoutComma();
      assert Digits(n / 1000) + [] == Digits(n / 1000);
    }
  }

  // ---- scanning what was printed -----------------------------------------------------------------

  predicate AllGroups(s: string) { s == [] || (Group(s) && AllGroups(s[4..])) }

  lemma {:induction false} GroupsOf(a: string, b: string)
    requires AllGroups(a)
    ensures 4 * Groups(a + b) == |a| + 4 * Groups(b)
  {
    if a == [] {
      assert a + b == b;
    } else {
      assert (a + b)[4..] == a[4..] + b;
      GroupsOf(a[4..], b);
    }
  }

  lemma {:induction false} AppendGroup(a: string, g: string)
    requires AllGroups(a) && Group(g) && |g| == 4
    ensures AllGroups(a + g)
  {
    if a == [] {
      assert a + g == g;
      assert g[4..] == [];
    } else {
      assert (a + g)[4..] == a[4..] + g;
      AppendGroup(a[4..], g);
    }
  }

  lemma {:induction false} RunOf(a: string, b: string)
    requires AllDigits(a) && DigitRun(b) == 0
    ensures DigitRun(a + b) == |a|
  {
    if a == [] {
      assert a + b == b;
    } else {
      assert (a + b)[1..] == a[1..] + b;
      RunOf(a[1..], b);
    }
  }

  /** The leading group and the rest. */
  lemma {:induction false} ThousandsSplit(n: nat) returns (head: string, tail: string)
    ensures Thousands(n) == head + tail && 1 <= |head| <= 3 && AllDigits(head) && AllGroups(tail)
  {
    if n < 1000 {
      DigitsDenote(n);
      ShortDigits(n);
      head, tail := Digits(n), [];
      assert head + tail == head;
    } else {
      var t;
      head, t := ThousandsSplit(n / 1000);
      var g := [','] + Pad3(n % 1000);
      PadIsDigits(n % 1000);
      assert g[1] == Pad3(n % 1000)[0] && g[2] == Pad3(n % 1000)[1] && g[3] == Pad3(n % 1000)[2];
      AppendGroup(t, g);
      tail := t + g;
      assert Thousands(n) == (head + t) + g;
      assert (head + t) + g == head + tail;
    }
  }

  lemma ShortDigits(n: nat)
    requires n < 1000
    ensures 1 <= |Digits(n)| <= 3
  {
    if n >= 10 {
      assert |Digits(n)| == |Digits(n / 10)| + 1;
      if n / 10 >= 10 {
        assert |Digits(n / 10)| == |Digits(n / 10 / 10)| + 1;
        assert n / 10 / 10 < 10;
      }
    }
  }

  /** Text that cannot continue a number. */
  predicate Stops(s: string) { DigitRun(s) == 0 && Groups(s) == 0 && Trailer(s) == 0 }

  lemma Cut(a: string, b: string)
    ensures (a + b)[|a|..] == b && (a + b)[..|a|] == a
  {
  }

  lemma SignOf(s: string, post: string)
    requires s != [] && IsDigit(s[0])
    ensures Sign(s + post) == 0 && Sign(s) == 0 && (s + post)[0..] == s + post
  {
  }

  /** No group follows a proper prefix of a digit string. */
  lemma {:induction false} NoEarlyGroup(s: string, k: nat)
    requires k < DigitRun(s)
    ensures k <= |s| && Grouped(s, k) == 0
  {
    hide Groups;
    if k > 0 {
      NoEarlyGroup(s, k - 1);
      RunIsDigits(s);
      assert s[k] == s[..DigitRun(s)][k] && s[k..][0] == s[k];
      CommaFirst(s[k..]);
    }
  }

  lemma CommaFirst(s: string)
    requires s != [] && s[0] != ','
    ensures Groups(s) == 0
  {
  }

  lemma StartsNoDigit(a: string, b: string)
    requires AllGroups(a) && DigitRun(b) == 0
    ensures DigitRun(a + b) == 0
  {
    if a == [] {
      assert a + b == b;
    }
  }

  lemma IntegerThousands(n: nat, rest: string)
    requires DigitRun(rest) == 0 && Groups(rest) == 0
    ensures IntegerPart(Thousands(n) + rest) == |Thousands(n)| > 0
  {
    hide Thousands, DigitRun, Groups, Grouped, AllDigits, AllGroups;
    var head, tail := ThousandsSplit(n);
    var s := Thousands(n) + rest;
    assert s == head + (tail + rest);
    StartsNoDigit(tail, rest);
    RunOf(head, tail + rest);
    Cut(head, tail + rest);
    GroupsOf(tail, rest);
    GroupedAt(s, |head|);
  }

  /** The whole printed number is one match. */
  lemma MatchThousands(n: nat, post: string)
    requires Stops(post)
    ensures MatchAt(Thousands(n) + post) == |Thousands(n)| > 0
  {
    hide Thousands, DigitRun, Groups, Trailer, IntegerPart;
    FirstThousands(n);
    IntegerThousands(n, post);
    SignOf(Thousands(n), post);
    Cut(Thousands(n), post);
  }

  lemma HeadDigit(s: string)
    requires AllDigits(s) && s != []
    ensures IsDigit(s[0])
  {
  }

  /** With `k` digits in front, the grouped form is tried at exactly `k`. */
  lemma GroupedAt(s: string, k: nat)
    requires k == DigitRun(s) && 1 <= k <= 3
    ensures Grouped(s, k) == if Groups(s[k..]) > 0 then k + 4 * Groups(s[k..]) else 0
  {
    hide Groups, DigitRun;
    NoEarlyGroup(s, k - 1);
  }

  lemma IntegerDigits(d: string, rest: string)
    requires AllDigits(d) && d != [] && DigitRun(rest) == 0 && Groups(rest) == 0
    ensures IntegerPart(d + rest) == |d|
  {
    hide DigitRun, Groups, Grouped, AllDigits;
    var s := d + rest;
    RunOf(d, rest);
    Cut(d, rest);
    if |d| <= 3 {
      GroupedAt(s, |d|);
    } else {
      NoEarlyGroup(s, 3);
    }
  }

  /** A digit string is one match. */
  lemma MatchDigits(d: string, post: string)
    requires AllDigits(d) && d != [] && DigitRun(post) == 0 && Groups(post) == 0
    ensures MatchAt(d + post) == |d| + Trailer(post)
  {
    hide DigitRun, Groups, Trailer, IntegerPart, AllDigits;
    HeadDigit(d);
    SignOf(d, post);
    IntegerDigits(d, post);
    Cut(d, post);
  }

  lemma ValueOfDigits(n: nat)
    ensures Value(Digits(n)) == n as real
  {
    DigitsDenote(n);
    DigitsNoComma(Digits(n));
    WithoutNone(Digits(n), ',');
    PlainValue(Digits(n), n);
  }

  lemma PlainValue(d: string, n: nat)
    requires AllDigits(d) && d != [] && Num(d) == n && Without(d, ',') == d
    ensures Value(d) == n as real
  {
    hide Num, Without, AllDigits, DigitRun, Pow10;
    HeadDigit(d);
    EmptyTrailer();
    RunOf(d, []);
    assert d + [] == d && d[..|d|] == d && d[0..] == d && d[|d|..] == [];
    assert LeadingNum(d) == n;
  }

  lemma EmptyTrailer()
    ensures DigitRun([]) == 0 && Fraction([]) == 0 && Exponent([]) == 0
  {
  }

  lemma ValueByPlain(a: string, b: string)
    requires Without(a, ',') == Without(b, ',')
    ensures Value(a) == Value(b)
  {
    hide Parse, Without;
  }

  lemma ValueOfThousands(n: nat)
    ensures Value(Thousands(n)) == n as real
  {
    hide Value, Without, Thousands, Digits;
    DigitsDenote(n);
    DigitsNoComma(Digits(n));
    WithoutNone(Digits(n), ',');
    ThousandsPlain(n);
    ValueByPlain(Thousands(n), Digits(n));
    ValueOfDigits(n);
  }

  /** `.0` changes nothing. */
  lemma ValueOfDotZero(n: nat)
    ensures Value(Digits(n) + ".0") == n as real
  {
    hide Digits, AllDigits, Without;
    var d := Digits(n);
    DigitsDenote(n);
    DigitsNoComma(d);
    WithoutNone(d, ',');
    WithoutAppend(d, ".0", ',');
    WithoutNone(".0", ',');
    DotZero();
    HeadDigit(d);
    SignOf(d, ".0");
    RunOf(d, ".0");
    Cut(d, ".0");
    DotZeroValue(d + ".0", d, n);
  }

  lemma DotZero()
    ensures DigitRun(".0") == 0 && Groups(".0") == 0 && Fraction(".0") == 2 && Exponent(".0"[2..]) == 0
    ensures LeadingNum(".0"[1..]) == 0 && Trailer(".0") == 2
  {
    assert ".0"[1..] == "0" && "0"[1..] == "";
    assert DigitRun("0") == 1;
    assert "0"[..1] == "0" && "0"[..0] == "";
    assert Num("") == 0;
  }

  lemma DotZeroValue(t: string, d: string, n: nat)
    requires Without(t, ',') == t && t == d + ".0" && Sign(t) == 0 && t[0..] == t
    requires DigitRun(t) == |d| && t[|d|..] == ".0" && t[..|d|] == d && AllDigits(d) && Num(d) == n
    ensures Value(t) == n as real
  {
    hide Num, Without, AllDigits, DigitRun, Fraction, Exponent, Sign;
    DotZero();
    assert LeadingNum(t) == n;
    Quotient(Pow10(1));
  }

  lemma Quotient(x: real)
    requires x > 0.0
    ensures 0.0 / x == 0.0
  {
  }

  // ---- context ------------------------------------------------------------------------------------

  /** Text that contains no digit and does not end in a minus sign. */
  predicate Lead(s: string) { (forall i :: 0 <= i < |s| ==> !IsDigit(s[i])) && (s != [] ==> s[|s| - 1] != '-') }

  lemma {:induction false} SkipLead(pre: string, s: string)
    requires Lead(pre)
    ensures Matches(pre + s) == Matches(s)
  {
    if pre == [] {
      assert pre + s == s;
    } else {
      NoMatchInLead(pre, s);
      assert (pre + s)[1..] == pre[1..] + s;
      SkipLead(pre[1..], s);
    }
  }

  lemma NoMatchInLead(pre: string, s: string)
    requires Lead(pre) && pre != []
    ensures MatchAt(pre + s) == 0
  {
    var t := pre + s;
    assert t[0] == pre[0];
    if t[0] == '-' {
      assert |pre| > 1 && t[1..][0] == pre[1];
      NoInteger(t[1..]);
    } else {
      assert t[0..] == t;
      NoInteger(t);
    }
  }

  lemma NoInteger(s: string)
    requires s != [] && !IsDigit(s[0])
    ensures IntegerPart(s) == 0
  {
  }

  lemma MatchStep(t: string, post: string)
    requires t != [] && MatchAt(t + post) == |t|
    ensures Matches(t + post) == [Match(t, post)] + Matches(post)
  {
    hide MatchAt;
    Cut(t, post);
  }

  /** Round trip: a number printed with thousands separators, in any text that does not run into it, is
      found as one match; printed alone, scanning returns exactly that number. */
  lemma ThousandsRoundTrip(n: nat, pre: string, post: string)
    requires Lead(pre) && Stops(post)
    ensures Matches(pre + Thousands(n) + post) == [Match(Thousands(n), post)] + Matches(post)
    ensures Value(Thousands(n)) == n as real
    ensures Numbers(Thousands(n)) == [n as real]
  {
    hide MatchAt, Value, Thousands, Matches, Lead, Stops;
    ValueOfThousands(n);
    assert pre + Thousands(n) + post == pre + (Thousands(n) + post);
    SkipLead(pre, Thousands(n) + post);
    MatchThousands(n, post);
    MatchStep(Thousands(n), post);
    NothingStops();
    MatchThousands(n, []);
    MatchStep(Thousands(n), []);
    assert Thousands(n) + [] == Thousands(n);
    assert Matches([]) == [] by { NothingMatches(); }
    assert Matches(Thousands(n)) == [Match(Thousands(n), [])];
  }

  lemma NothingMatches()
    ensures Matches([]) == []
  {
  }

  lemma NothingStops()
    ensures Stops([])
  {
    EmptyTrailer();
  }

  /** The same for plain notation, with or without a `.0`. */
  lemma PlainRoundTrip(n: nat, dot: bool, pre: string, post: string)
    requires Lead(pre) && Stops(post)
    ensures var t := if dot then Digits(n) + ".0" else Digits(n);
            && Matches(pre + t + post) == [Match(t, post)] + Matches(post)
            && Value(t) == n as real
  {
    hide MatchAt, Value, Matches, Lead, Digits, Trailer;
    var d := Digits(n);
    var t := if dot then d + ".0" else d;
    DigitsDenote(n);
    ValueOfDigits(n);
    ValueOfDotZero(n);
    assert pre + t + post == pre + (t + post);
    SkipLead(pre, t + post);
    if dot {
      assert t + post == d + (".0" + post);
      DotZeroThen(post);
      MatchDigits(d, ".0" + post);
    } else {
      MatchDigits(d, post);
    }
    MatchStep(t, post);
  }

  lemma DotZeroThen(post: string)
    requires Stops(post)
    ensures DigitRun(".0" + post) == 0 && Groups(".0" + post) == 0 && Trailer(".0" + post) == 2
  {
    var s := ".0" + post;
    assert s[1..] == "0" + post;
    RunOf("0", post);
    assert Fraction(s) == 2;
    assert s[2..] == post;
    assert post[0..] == post;
  }

  // ---- signed decimals ------------------------------------------------------------------------------

  function IntegerText(grouped: bool, n: nat): string { if grouped then Thousands(n) else Digits(n) }

  function FractionText(frac: string): string { if frac == [] then [] else ['.'] + frac }

  function SignText(negative: bool): string { if negative then ['-'] else [] }

  /** A decimal number in print, with or without thousands separators. */
  function Literal(grouped: bool, negative: bool, n: nat, frac: string): string {
    SignText(negative) + IntegerText(grouped, n) + FractionText(frac)
  }

  function Mantissa(n: nat, frac: string): real
    requires AllDigits(frac)
  {
    n as real + (if frac == [] then 0.0 else Num(frac) as real / Pow10(|frac|))
  }

  /** The number it stands for. */
  function LiteralValue(negative: bool, n: nat, frac: string): real
    requires AllDigits(frac)
  {
    if negative then -Mantissa(n, frac) else Mantissa(n, frac)
  }

  lemma FirstThousands(n: nat)
    ensures Thousands(n) != [] && IsDigit(Thousands(n)[0])
  {
    var head, tail := ThousandsSplit(n);
    HeadDigit(head);
    assert Thousands(n)[0] == head[0];
  }

  lemma IntegerPartIs(grouped: bool, n: nat, rest: string)
    requires DigitRun(rest) == 0 && Groups(rest) == 0
    ensures var t := IntegerText(grouped, n);
            t != [] && IsDigit(t[0]) && IntegerPart(t + rest) == |t|
  {
    hide Thousands, Digits, AllDigits;
    DigitsDenote(n);
    if grouped {
      FirstThousands(n);
      IntegerThousands(n, rest);
    } else {
      HeadDigit(Digits(n));
      IntegerDigits(Digits(n), rest);
    }
  }

  lemma SignLength(negative: bool, body: string)
    requires body != [] && IsDigit(body[0])
    ensures Sign(SignText(negative) + body) == |SignText(negative)|
    ensures (SignText(negative) + body)[|SignText(negative)|..] == body
  {
    if !negative {
      assert [] + body == body;
    }
  }

  /** Dropping separators from a printed decimal. */
  lemma LiteralPlain(grouped: bool, negative: bool, n: nat, frac: string)
    requires AllDigits(frac)
    ensures Without(Literal(grouped, negative, n, frac), ',') == Literal(false, negative, n, frac)
  {
    hide Without, Digits, Thousands, AllDigits;
    var i, f := IntegerText(grouped, n), FractionText(frac);
    WithoutAppend(SignText(negative) + i, f, ',');
    WithoutAppend(SignText(negative), i, ',');
    DigitsDenote(n);
    DigitsNoComma(Digits(n));
    DigitsNoComma(frac);
    WithoutNone(Digits(n), ',');
    WithoutNone(f, ',');
    WithoutNone(SignText(negative), ',');
    ThousandsPlain(n);
  }

  lemma ParseLiteral(negative: bool, n: nat, frac: string)
    requires AllDigits(frac)
    ensures Parse(Literal(false, negative, n, frac)) == LiteralValue(negative, n, frac)
  {
    hide Num, Digits, DigitRun, Pow10, AllDigits, Fraction, Exponent;
    var d, f := Digits(n), FractionText(frac);
    var t := Literal(false, negative, n, frac);
    DigitsDenote(n);
    HeadDigit(d);
    FractionOf(frac);
    assert t == SignText(negative) + (d + f);
    SignLength(negative, d + f);
    RunOf(d, f);
    Cut(d, f);
    assert LeadingNum(d + f) == n;
    if frac != [] {
      assert f[1..] == frac;
    }
  }

  lemma FractionOf(frac: string)
    requires AllDigits(frac)
    ensures var f := FractionText(frac);
            && DigitRun(f) == 0 && Fraction(f) == |f| && Exponent(f[|f|..]) == 0
            && (frac != [] ==> LeadingNum(frac) == Num(frac))
  {
    var f := FractionText(frac);
    EmptyTrailer();
    if frac != [] {
      RunOf(frac, []);
      assert frac + [] == frac && f[1..] == frac && frac[..|frac|] == frac;
    }
    assert f[|f|..] == [];
  }


  // ---- powers of ten ----------------------------------------------------------------------------------

  /** The exponent of a number in print, if it has one: a mark, an optional sign, and the power. */
  datatype Power = NoPower | Raised(mark: char, sign: string, k: nat)

  predicate Printable(p: Power) { p.Raised? ==> p.mark in {'e', 'E'} && p.sign in {"", "+", "-"} }

  function PowerText(p: Power): string {
    match p
    case NoPower => []
    case Raised(mark, sign, k) => [mark] + (sign + Digits(k))
  }

  function Zeros(k: nat): string { if k == 0 then [] else Zeros(k - 1) + ['0'] }

  /** A power of ten is what a 1 and that many zeros denote. */
  lemma {:induction false} PowerInDigits(k: nat)
    ensures AllDigits(['1'] + Zeros(k)) && Num(['1'] + Zeros(k)) as real == Pow10(k)
  {
    var t := ['1'] + Zeros(k);
    if k == 0 {
      assert t == ['1'] && t[..0] == [];
      assert Num([]) == 0;
    } else {
      PowerInDigits(k - 1);
      assert t[..|t| - 1] == ['1'] + Zeros(k - 1);
    }
  }

  /** `x` times the power of ten. */
  function Powered(x: real, p: Power): real {
    match p
    case NoPower => x
    case Raised(_, sign, k) => if sign == "-" then x / Pow10(k) else x * Pow10(k)
  }

  /** A decimal in print, with an exponent or without. */
  function Scientific(grouped: bool, negative: bool, n: nat, frac: string, p: Power): string {
    Literal(grouped, negative, n, frac) + PowerText(p)
  }

  function ScientificValue(negative: bool, n: nat, frac: string, p: Power): real
    requires AllDigits(frac)
  {
    Powered(LiteralValue(negative, n, frac), p)
  }

  lemma PlusMinusIs(sign: string, d: string)
    requires sign in {"", "+", "-"} && d != [] && IsDigit(d[0])
    ensures PlusMinus(sign + d) == |sign| && (sign + d)[|sign|..] == d
  {
    if sign == "" {
      assert sign + d == d;
    }
  }

  lemma PowerStops(p: Power, post: string)
    requires Printable(p) && Stops(post)
    ensures var s := PowerText(p) + post;
            DigitRun(s) == 0 && Groups(s) == 0 && Fraction(s) == 0 && Exponent(s) == |PowerText(p)|
  {
    match p {
      case NoPower =>
        assert [] + post == post && post[0..] == post;
      case Raised(mark, sign, k) =>
        RaisedStops(mark, sign, k, post);
    }
  }

  lemma RaisedStops(mark: char, sign: string, k: nat, post: string)
    requires Printable(Raised(mark, sign, k)) && DigitRun(post) == 0
    ensures var t := [mark] + (sign + Digits(k)); var s := t + post;
            DigitRun(s) == 0 && Groups(s) == 0 && Fraction(s) == 0 && Exponent(s) == |t|
  {
    hide Digits, DigitRun, Groups, Fraction, PlusMinus, AllDigits;
    var d := Digits(k);
    var s := [mark] + (sign + d) + post;
    DigitsDenote(k);
    assert s == [mark] + (sign + (d + post));
    assert s[0] == mark && s[1..] == sign + (d + post);
    HeadDigit(d);
    PlusMinusIs(sign, d + post);
    RunOf(d, post);
    MarkFirst(s);
  }

  lemma MarkFirst(s: string)
    requires s != [] && s[0] in {'e', 'E'}
    ensures DigitRun(s) == 0 && Groups(s) == 0 && Fraction(s) == 0
  {
  }

  /** The digits after the point and the exponent are one trailer. */
  lemma PowerTrailer(frac: string, p: Power, post: string)
    requires AllDigits(frac) && Printable(p) && Stops(post)
    ensures var f := FractionText(frac); var s := f + (PowerText(p) + post);
            Trailer(s) == |f| + |PowerText(p)| && DigitRun(s) == 0 && Groups(s) == 0
  {
    hide Exponent, PowerText, Stops;
    PowerStops(p, post);
    var rest := PowerText(p) + post;
    var f := FractionText(frac);
    var s := f + rest;
    if frac == [] {
      assert s == rest;
      assert rest[0..] == rest;
    } else {
      assert s[0] == '.' && s[1..] == frac + rest;
      RunOf(frac, rest);
      assert s[|f|..] == rest;
    }
  }

  lemma ScientificMatches(grouped: bool, negative: bool, n: nat, frac: string, p: Power, post: string)
    requires AllDigits(frac) && Printable(p) && Stops(post)
    ensures var t := Scientific(grouped, negative, n, frac, p); t != [] && MatchAt(t + post) == |t|
  {
    hide IntegerText, FractionText, PowerText, Trailer, IntegerPart, DigitRun, Groups, Stops;
    var i, f := IntegerText(grouped, n), FractionText(frac);
    var rest := f + (PowerText(p) + post);
    PowerTrailer(frac, p, post);
    IntegerPartIs(grouped, n, rest);
    var body := i + rest;
    Cut(i, rest);
    var t := Scientific(grouped, negative, n, frac, p);
    assert t + post == SignText(negative) + body;
    Cut(SignText(negative), body);
    SignLength(negative, body);
  }

  lemma ScientificPlain(grouped: bool, negative: bool, n: nat, frac: string, p: Power)
    requires AllDigits(frac) && Printable(p)
    ensures Without(Scientific(grouped, negative, n, frac, p), ',') == Scientific(false, negative, n, frac, p)
  {
    hide Without, Literal, AllDigits, Digits;
    LiteralPlain(grouped, negative, n, frac);
    WithoutAppend(Literal(grouped, negative, n, frac), PowerText(p), ',');
    if p.Raised? {
      DigitsDenote(p.k);
      DigitsNoComma(Digits(p.k));
    }
    WithoutNone(PowerText(p), ',');
  }

  lemma PowerValue(p: Power)
    requires p.Raised? && Printable(p)
    ensures var t := PowerText(p);
            && Fraction(t) == 0 && DigitRun(t) == 0 && Exponent(t) == |t| > 1
            && LeadingNum(t[1..][PlusMinus(t[1..])..]) == p.k && (t[1] == '-' <==> p.sign == "-")
  {
    hide Digits, Num, Exponent;
    NothingStops();
    PowerStops(p, []);
    var d := Digits(p.k);
    DigitsDenote(p.k);
    HeadDigit(d);
    PlusMinusIs(p.sign, d);
    EmptyTrailer();
    RunOf(d, []);
    assert d + [] == d && d[..|d|] == d;
    assert PowerText(p) + [] == PowerText(p);
    assert PowerText(p)[1..] == p.sign + d;
  }

  lemma ParseScientific(negative: bool, n: nat, frac: string, p: Power)
    requires AllDigits(frac) && Printable(p)
    ensures Parse(Scientific(false, negative, n, frac, p)) == ScientificValue(negative, n, frac, p)
  {
    hide Parse, Num, Digits, DigitRun, Pow10, AllDigits, Fraction, Exponent, PowerText, PlusMinus, LeadingNum, Mantissa, Sign, Literal, Scaled;
    hide FractionText, Scientific;
    if p == NoPower {
      NoPowerText(negative, n, frac);
      ParseLiteral(negative, n, frac);
    } else {
      var mantissa := Mantissa(n, frac);
      var body := Digits(n) + (FractionText(frac) + PowerText(p));
      PowerValue(p);
      ScaledIs(mantissa, PowerText(p), p);
      MantissaParts(n, frac, PowerText(p));
      ScientificParts(negative, n, frac, p);
      SignLength(negative, body);
      ParseRaised(SignText(negative) + body, body, FractionText(frac) + PowerText(p), PowerText(p), mantissa, p);
      PowerOfOpposite(mantissa, p);
    }
  }

  lemma ScientificParts(negative: bool, n: nat, frac: string, p: Power)
    ensures Scientific(false, negative, n, frac, p) == SignText(negative) + (Digits(n) + (FractionText(frac) + PowerText(p)))
  {
    hide Digits, PowerText;
  }

  /** Where the parts of an unsigned number are. */
  lemma MantissaParts(n: nat, frac: string, e: string)
    requires AllDigits(frac) && DigitRun(e) == 0 && Fraction(e) == 0
    ensures var after := FractionText(frac) + e; var body := Digits(n) + after;
            && body != [] && IsDigit(body[0]) && body[DigitRun(body)..] == after && after[Fraction(after)..] == e
            && Mantissa(n, frac) ==
               LeadingNum(body) as real + (if Fraction(after) == 0 then 0.0 else LeadingNum(after[1..]) as real / Pow10(Fraction(after) - 1))
  {
    hide Num, Digits, DigitRun, AllDigits, Fraction;
    var d, f := Digits(n), FractionText(frac);
    DigitsDenote(n);
    HeadDigit(d);
    FractionThen(frac, e);
    RunOf(d, f + e);
    Cut(d, f + e);
    Cut(f, e);
    if frac != [] {
      assert (f + e)[1..] == frac + e;
    }
  }

  lemma ParseRaised(t: string, body: string, after: string, tail: string, mantissa: real, p: Power)
    requires p.Raised? && t[Sign(t)..] == body && body[DigitRun(body)..] == after && after[Fraction(after)..] == tail
    requires mantissa == LeadingNum(body) as real + (if Fraction(after) == 0 then 0.0 else LeadingNum(after[1..]) as real / Pow10(Fraction(after) - 1))
    requires Scaled(mantissa, tail) == Powered(mantissa, p)
    ensures Parse(t) == if Sign(t) == 1 then -Powered(mantissa, p) else Powered(mantissa, p)
  {
    hide Sign, DigitRun, Fraction, LeadingNum, Scaled, Powered;
  }

  lemma ScaledIs(x: real, tail: string, p: Power)
    requires p.Raised? && |tail| > 1 && Exponent(tail) == |tail|
    requires LeadingNum(tail[1..][PlusMinus(tail[1..])..]) == p.k && (tail[1] == '-' <==> p.sign == "-")
    ensures Scaled(x, tail) == Powered(x, p)
  {
    hide Exponent, LeadingNum, PlusMinus, Pow10;
  }

  lemma NoPowerText(negative: bool, n: nat, frac: string)
    ensures Scientific(false, negative, n, frac, NoPower) == Literal(false, negative, n, frac)
  {
  }

  lemma PowerOfOpposite(x: real, p: Power)
    ensures Powered(-x, p) == -Powered(x, p)
  {
  }

  lemma FractionThen(frac: string, e: string)
    requires AllDigits(frac) && DigitRun(e) == 0 && Fraction(e) == 0
    ensures var s := FractionText(frac) + e;
            && DigitRun(s) == 0 && Fraction(s) == |FractionText(frac)|
            && (frac != [] ==> LeadingNum(frac + e) == Num(frac))
  {
    var s := FractionText(frac) + e;
    if frac == [] {
      assert s == e;
    } else {
      assert s[1..] == frac + e;
      RunOf(frac, e);
      Cut(frac, e);
    }
  }

  /** Round trip for signed decimals, grouped or plain, with an exponent or without: `-1,234.5e+6` and its like,
      in any text that does not run into them. */
  lemma ScientificRoundTrip(grouped: bool, negative: bool, n: nat, frac: string, p: Power, pre: string, post: string)
    requires AllDigits(frac) && Printable(p) && Lead(pre) && Stops(post)
    ensures var t := Scientific(grouped, negative, n, frac, p);
            && Matches(pre + t + post) == [Match(t, post)] + Matches(post)
            && Value(t) == ScientificValue(negative, n, frac, p)
  {
    hide MatchAt, Parse, Matches, Lead, Stops, Scientific, Without, ScientificValue;
    var t := Scientific(grouped, negative, n, frac, p);
    assert pre + t + post == pre + (t + post);
    SkipLead(pre, t + post);
    ScientificMatches(grouped, negative, n, frac, p, post);
    MatchStep(t, post);
    ScientificPlain(grouped, negative, n, frac, p);
    ParseScientific(negative, n, frac, p);
  }
}
