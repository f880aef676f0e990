/** Where a merged snapshot row comes from, in terms of the company's manifest. */
module SnapshotOrigins {
  import opened Basics
  import opened HotStore

  const INDUSTRY_PREFIX := "INDUSTRY:"
  const MARKET_PREFIX := "MARKET:"

  /** `overlay_manifest`: (ts_code, industry_id) to the primary flag. */
  type Manifest = map<(string, string), bool>

  /** `ORDER BY primary_industry DESC`: all of the company's industries, once each, primary first. */
  ghost predicate ManifestOrder(m: Manifest, tsCode: string, industries: seq<string>) {
    && Distinct(industries)
    && (forall ind :: ind in industries <==> (tsCode, ind) in m)
    && forall i, j :: 0 <= i < j < |industries| ==>
         (tsCode, industries[j]) in m && (tsCode, industries[i]) in m &&
         (m[(tsCode, industries[j])] ==> m[(tsCode, industries[i])])
  }

  predicate IsSentinel(tsCode: string) {
    StartsWith(tsCode, INDUSTRY_PREFIX) || StartsWith(tsCode, MARKET_PREFIX)
  }

  lemma PrefixInjective(p: string, a: string, b: string)
    requires p + a == p + b
    ensures a == b
  {
    assert (p + a)[|p|..] == a && (p + b)[|p|..] == b;
  }

  /** A real stock's lookup list never repeats an origin. */
  lemma CandidatesDistinct(tsCode: string, industries: seq<string>)
    requires Distinct(industries) && !IsSentinel(tsCode)
    ensures Distinct(Candidates(tsCode, industries))
  {
    var c, n := Candidates(tsCode, industries), |industries|;
    forall i, j | 0 <= i < j < |c| ensures c[i] != c[j] {
      if j <= n {
        assert c[j] == INDUSTRY_PREFIX + industries[j - 1];
        if i > 0 {
          assert c[i] == INDUSTRY_PREFIX + industries[i - 1];
          if c[i] == c[j] {
            PrefixInjective(INDUSTRY_PREFIX, industries[i - 1], industries[j - 1]);
          }
        }
      } else {
        assert c[j] == MARKET_PREFIX + MarketOf(tsCode).value;
        if i > 0 {
          assert c[i] == INDUSTRY_PREFIX + industries[i - 1];
          assert c[i][0] == 'I' && c[j][0] == 'M';
        }
      }
    }
  }

  lemma {:induction false} FirstOriginAt(table: Table, candidates: seq<string>, dp: string, i: nat)
    requires i < |candidates| && (candidates[i], dp) in table
    requires forall j :: 0 <= j < i ==> (candidates[j], dp) !in table
    ensures FirstOrigin(table, candidates, dp) == Some(candidates[i])
  {
    if i > 0 {
      assert (candidates[0], dp) !in table;
      assert forall j :: 0 <= j < i - 1 ==> candidates[1..][j] == candidates[j + 1];
      FirstOriginAt(table, candidates[1..], dp, i - 1);
    }
  }

  predicate IndustryHolds(table: Table, dp: string, ind: string) { (INDUSTRY_PREFIX + ind, dp) in table }

  /** The first listed industry that holds a row, if any. */
  lemma {:induction false} FirstHolding(table: Table, industries: seq<string>, dp: string) returns (i: nat)
    ensures i <= |industries| && (i < |industries| ==> IndustryHolds(table, dp, industries[i]))
    ensures forall j :: 0 <= j < i ==> !IndustryHolds(table, dp, industries[j])
  {
    i := 0;
    while i < |industries| && !IndustryHolds(table, dp, industries[i])
      invariant i <= |industries| && forall j :: 0 <= j < i ==> !IndustryHolds(table, dp, industries[j])
    {
      i := i + 1;
    }
  }

  predicate IsPrimary(m: Manifest, tsCode: string, ind: string) { (tsCode, ind) in m && m[(tsCode, ind)] }

  /** Some industry of the company holds a row; with `primary`, some primary one. */
  ghost predicate Offered(table: Table, m: Manifest, tsCode: string, industries: seq<string>, dp: string, primary: bool) {
    exists ind :: ind in industries && (primary ==> IsPrimary(m, tsCode, ind)) && IndustryHolds(table, dp, ind)
  }

  /** `first` is the sentinel of such an industry. */
  ghost predicate From(table: Table, m: Manifest, tsCode: string, industries: seq<string>, dp: string, primary: bool, first: Option<string>) {
    exists ind :: ind in industries && (primary ==> IsPrimary(m, tsCode, ind)) && IndustryHolds(table, dp, ind)
                  && first == Some(INDUSTRY_PREFIX + ind)
  }

  /** The stock's own row beats every sentinel; failing that a primary industry's row beats any other
      industry's; failing that any industry's row beats the market's; failing that the market's is used. */
  lemma OriginOrder(table: Table, m: Manifest, tsCode: string, industries: seq<string>, dp: string)
    requires ManifestOrder(m, tsCode, industries)
    ensures var first := FirstOrigin(table, Candidates(tsCode, industries), dp);
            if (tsCode, dp) in table then first == Some(tsCode)
            else if Offered(table, m, tsCode, industries, dp, true) then From(table, m, tsCode, industries, dp, true, first)
            else if Offered(table, m, tsCode, industries, dp, false) then From(table, m, tsCode, industries, dp, false, first)
            else if MarketOf(tsCode).Some? && (MARKET_PREFIX + MarketOf(tsCode).value, dp) in table
            then first == Some(MARKET_PREFIX + MarketOf(tsCode).value)
            else first == None
  {
    CandidateAt(tsCode, industries);
    hide MarketOf, FirstOrigin, Offered, From, Candidates, ManifestOrder;
    var c, n := Candidates(tsCode, industries), |industries|;
    var i := FirstHolding(table, industries, dp);
    if (tsCode, dp) in table {
      FirstOriginAt(table, c, dp, 0);
    } else {
      forall j | 0 <= j <= i ensures (c[j], dp) !in table {
        assert j > 0 ==> !IndustryHolds(table, dp, industries[j - 1]);
      }
      if i < n {
        FirstOriginAt(table, c, dp, i + 1);
        PrimaryFirst(table, m, tsCode, industries, dp, i);
      } else {
        NoOffer(table, m, tsCode, industries, dp);
        NoIndustry(table, tsCode, industries, dp);
      }
    }
  }

  lemma CandidateAt(tsCode: string, industries: seq<string>)
    ensures var c := Candidates(tsCode, industries);
            |c| > |industries| && c[0] == tsCode && forall i :: 0 <= i < |industries| ==> c[i + 1] == INDUSTRY_PREFIX + industries[i]
  {
  }

  /** The first industry that holds a row is a primary one if any primary one holds one. */
  lemma PrimaryFirst(table: Table, m: Manifest, tsCode: string, industries: seq<string>, dp: string, i: nat)
    requires ManifestOrder(m, tsCode, industries) && i < |industries|
    requires IndustryHolds(table, dp, industries[i]) && forall j :: 0 <= j < i ==> !IndustryHolds(table, dp, industries[j])
    ensures var first := Some(INDUSTRY_PREFIX + industries[i]);
            && Offered(table, m, tsCode, industries, dp, false)
            && From(table, m, tsCode, industries, dp, false, first)
            && (Offered(table, m, tsCode, industries, dp, true) ==> From(table, m, tsCode, industries, dp, true, first))
  {
    assert industries[i] in industries;
    if Offered(table, m, tsCode, industries, dp, true) {
      var ind :| ind in industries && IsPrimary(m, tsCode, ind) && IndustryHolds(table, dp, ind);
      var k :| 0 <= k < |industries| && industries[k] == ind;
      assert IsPrimary(m, tsCode, industries[i]);
    }
  }

  lemma NoOffer(table: Table, m: Manifest, tsCode: string, industries: seq<string>, dp: string)
    requires ManifestOrder(m, tsCode, industries)
    requires forall j :: 0 <= j < |industries| ==> !IndustryHolds(table, dp, industries[j])
    ensures !Offered(table, m, tsCode, industries, dp, true) && !Offered(table, m, tsCode, industries, dp, false)
  {
    assert forall ind :: ind in industries ==> !IndustryHolds(table, dp, ind);
  }

  lemma NoIndustry(table: Table, tsCode: string, industries: seq<string>, dp: string)
    requires (tsCode, dp) !in table && forall j :: 0 <= j < |industries| ==> !IndustryHolds(table, dp, industries[j])
    ensures FirstOrigin(table, Candidates(tsCode, industries), dp) ==
            if MarketOf(tsCode).Some? && (MARKET_PREFIX + MarketOf(tsCode).value, dp) in table
            then Some(MARKET_PREFIX + MarketOf(tsCode).value) else None
  {
    var c, n := Candidates(tsCode, industries), |industries|;
    assert forall i :: 0 <= i < n ==> c[i + 1] == INDUSTRY_PREFIX + industries[i];
    forall j | 0 <= j <= n ensures (c[j], dp) !in table {
      if j > 0 {
        assert !IndustryHolds(table, dp, industries[j - 1]);
      }
    }
    FirstOriginIs(table, c, dp);
    if MarketOf(tsCode).Some? {
      assert c[n + 1] == MARKET_PREFIX + MarketOf(tsCode).value;
      if (c[n + 1], dp) in table {
        FirstOriginAt(table, c, dp, n + 1);
      }
    }
  }

  // ---- markets --------------------------------------------------------------------------

  /** The exchange suffixes and the market each belongs to. */
  predicate Trades(suffix: string, market: string) {
    || (suffix in {".SH", ".SZ", ".BJ"} && market == "CN")
    || (suffix == ".HK" && market == "HK")
    || (suffix == ".US" && market == "US")
  }

  lemma MarketBySuffix(base: string, suffix: string, market: string)
    requires Trades(suffix, market)
    ensures MarketOf(base + suffix) == Some(market)
  {
    var code := base + suffix;
    assert code[|code| - 3..] == suffix && |suffix| == 3;
    assert suffix[1] in {'S', 'B', 'H', 'U'};
    SuffixIs(code, suffix, ".SH");
    SuffixIs(code, suffix, ".SZ");
    SuffixIs(code, suffix, ".BJ");
    SuffixIs(code, suffix, ".HK");
    SuffixIs(code, suffix, ".US");
  }

  lemma SuffixIs(code: string, suffix: string, other: string)
    requires |code| >= 3 && |suffix| == 3 && |other| == 3 && code[|code| - 3..] == suffix
    ensures EndsWith(code, other) <==> suffix == other
  {
  }

  /** A stock with no row of its own and none from its industries shows its own market's row, if there is one,
      and never another market's. */
  lemma MarketRowShows(table: Table, base: string, suffix: string, market: string, industries: seq<string>, dp: string)
    requires Trades(suffix, market)
    requires (base + suffix, dp) !in table && forall j :: 0 <= j < |industries| ==> !IndustryHolds(table, dp, industries[j])
    ensures FirstOrigin(table, Candidates(base + suffix, industries), dp) ==
            if ("MARKET:" + market, dp) in table then Some("MARKET:" + market) else None
  {
    hide FirstOrigin, Candidates, MarketOf;
    MarketBySuffix(base, suffix, market);
    NoIndustry(table, base + suffix, industries, dp);
  }

  /** A code without one of the five suffixes belongs to no market. */
  lemma NoOtherMarket(code: string)
    ensures MarketOf(code).Some? ==> exists base, suffix, market :: code == base + suffix && Trades(suffix, market)
  {
    if MarketOf(code).Some? {
      var base, suffix := code[..|code| - 3], code[|code| - 3..];
      assert code == base + suffix;
      assert Trades(suffix, "CN") || Trades(suffix, "HK") || Trades(suffix, "US");
    }
  }
}
