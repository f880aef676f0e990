/** What the shipped scores say, told from the payloads that go in. */
module FormulasInWords {
  import opened Basics
  import opened DeriveEngine
  import opened ShippedFormulas

  // ---- one input alone ---------------------------------------------------------------------

  predicate Empty(part: Part) { part.payload.None? }

  lemma LoneOfThree(a: Part, b: Part, c: Part, k: nat)
    requires k < 3 && Present([a, b, c][k].payload) && [a, b, c][k].weight > 0.0
    requires a.weight + b.weight + c.weight == 1.0 && a.weight > 0.0 && b.weight > 0.0 && c.weight > 0.0
    requires (k != 0 ==> Empty(a)) && (k != 1 ==> Empty(b)) && (k != 2 ==> Empty(c))
    ensures Composite([a, b, c]) == Clip([a, b, c][k].sub, -1.0, 1.0)
  {
    hide Present, Composite;
    var p := [a, b, c][k];
    ThreeWeights(a, b, c);
    assert [a, b, c][..2] == [a, b] && [a, b][..1] == [a] && [a][..0] == [];
    assert RawScore([]) == 0.0 && PresentWeight([]) == 0.0;
    NotPresent(a.payload);
    NotPresent(b.payload);
    NotPresent(c.payload);
    assert RawScore([a]) == if k == 0 then Times(p.sub, p.weight) else 0.0;
    assert RawScore([a, b]) == if k <= 1 then Times(p.sub, p.weight) else 0.0;
    assert RawScore([a, b, c]) == Times(p.sub, p.weight);
    assert PresentWeight([a]) == if k == 0 then p.weight else 0.0;
    assert PresentWeight([a, b]) == if k <= 1 then p.weight else 0.0;
    LoneComposite([a, b, c], p.sub, p.weight);
  }

  lemma NotPresent(p: Option<Payload>)
    ensures p.None? ==> !Present(p)
    ensures Present(p) ==> p.Some?
  {
  }

  lemma LoneComposite(parts: seq<Part>, sub: real, weight: real)
    requires 0.0 < weight < 1.0 && RawScore(parts) == Times(sub, weight) && PresentWeight(parts) == weight && AllWeight(parts) == 1.0
    ensures Composite(parts) == Clip(sub, -1.0, 1.0)
  {
    assert sub * weight / weight == sub;
  }

  lemma LoneOfFour(a: Part, b: Part, c: Part, d: Part, k: nat)
    requires k < 4 && Present([a, b, c, d][k].payload)
    requires a.weight + b.weight + c.weight + d.weight == 1.0 && a.weight > 0.0 && b.weight > 0.0 && c.weight > 0.0 && d.weight > 0.0
    requires (k != 0 ==> Empty(a)) && (k != 1 ==> Empty(b)) && (k != 2 ==> Empty(c)) && (k != 3 ==> Empty(d))
    ensures Composite([a, b, c, d]) == Clip([a, b, c, d][k].sub, -1.0, 1.0)
  {
    hide Present, Composite;
    var p := [a, b, c, d][k];
    FourWeights(a, b, c, d);
    assert [a, b, c, d][..3] == [a, b, c] && [a, b, c][..2] == [a, b] && [a, b][..1] == [a] && [a][..0] == [];
    assert RawScore([]) == 0.0 && PresentWeight([]) == 0.0;
    NotPresent(a.payload);
    NotPresent(b.payload);
    NotPresent(c.payload);
    NotPresent(d.payload);
    assert RawScore([a]) == if k == 0 then Times(p.sub, p.weight) else 0.0;
    assert RawScore([a, b]) == if k <= 1 then Times(p.sub, p.weight) else 0.0;
    assert RawScore([a, b, c]) == if k <= 2 then Times(p.sub, p.weight) else 0.0;
    assert RawScore([a, b, c, d]) == Times(p.sub, p.weight);
    assert PresentWeight([a]) == if k == 0 then p.weight else 0.0;
    assert PresentWeight([a, b]) == if k <= 1 then p.weight else 0.0;
    assert PresentWeight([a, b, c]) == if k <= 2 then p.weight else 0.0;
    LoneComposite([a, b, c, d], p.sub, p.weight);
  }

  // ---- short ---------------------------------------------------------------------------------

  predicate Holds(p: Option<Payload>, key: string, x: real) { p.Some? && key in p.value && p.value[key] == Num(x) }

  /** The number under `key`: a flag counts 1 or 0, and what is missing or no number counts 0. */
  predicate Counts(p: Option<Payload>, key: string, x: real) {
    && p.Some? && p.value != map[]
    && if key !in p.value then x == 0.0
       else match p.value[key]
            case Num(y) => x == y
            case Flag(on) => x == (if on then 1.0 else 0.0)
            case _ => x == 0.0
  }

  /** Nothing to go by: Python's false values. */
  predicate Void(v: Value) { v in {Num(0.0), Flag(false), Text(""), Names([]), Dict(map[]), Nothing} }

  /** The other three inputs are not there. */
  predicate Alone(ps: seq<Option<Payload>>, k: nat) {
    k < |ps| && forall j :: 0 <= j < |ps| && j != k ==> ps[j] == None
  }

  /** With one of its four inputs alone, whichever it is, the short score is that input's score, and it is called
      bullish above 0.3, bearish below -0.3 and neutral between. */
  lemma ShortScoreAlone(ps: seq<Option<Payload>>, k: nat, x: real)
    requires |ps| == 4 && Alone(ps, k) && Counts(ps[k], "score", x) && -1.0 <= x <= 1.0
    ensures ShortScoreFormula(ps).Some?
    ensures var r := ShortScoreFormula(ps).value;
            && Holds(Some(r), "score", x)
            && "label" in r && r["label"] == Text(if x > 0.3 then "bullish" else if x < -0.3 then "bearish" else "neutral")
            && Holds(Some(r), "horizon_days", 5.0) && Holds(Some(r), "factors_used", 1.0)
  {
    hide Composite;
    assert Present(ps[k]);
    var parts := ShortParts(ps[0], ps[1], ps[2], ps[3]);
    LoneOfFour(parts[0], parts[1], parts[2], parts[3], k);
    UsedAlone(parts, k);
    hide Used;
    ShortKeys();
  }

  lemma ShortKeys()
    ensures "score" != "label" && "score" != "horizon_days" && "score" != "factors_used" && "label" != "horizon_days"
    ensures "label" != "factors_used" && "horizon_days" != "factors_used"
  {
  }

  lemma UsedAlone(parts: seq<Part>, k: nat)
    requires |parts| == 4 && k < 4 && forall j :: 0 <= j < 4 ==> (parts[j].payload.Some? <==> j == k)
    ensures Used(parts) == 1
  {
    assert parts == [parts[0], parts[1], parts[2], parts[3]];
    assert parts[..3][..2] == parts[..2] && parts[..2][..1] == parts[..1] && parts[..1][..0] == [];
    assert Used([]) == 0;
    assert Used(parts[..1]) == if k == 0 then 1 else 0;
    assert Used(parts[..2]) == if k <= 1 then 1 else 0;
    assert Used(parts[..3]) == if k <= 2 then 1 else 0;
  }

  // ---- mid and long ------------------------------------------------------------------------------

  /** `x` cut off at 1 in either direction. */
  predicate Saturated(x: real, y: real) { if x >= 1.0 then y == 1.0 else if x <= -1.0 then y == -1.0 else y == x }

  /** One input alone, with no score of its own: orders count their yearly growth, 50% in full; guided earnings the
      middle of the guided range, 100% in full. */
  lemma MidScoreAlone(growth: real, low: real, high: real)
    ensures Saturated(growth / 50.0, Composite(MidParts(Some(map["yoy_pct" := Num(growth)]), None, None)))
    ensures Saturated((low + high) / 2.0 / 100.0,
                      Composite(MidParts(None, None, Some(map["change_pct_min" := Num(low), "change_pct_max" := Num(high)]))))
  {
    hide Composite;
    GrowthRead(growth);
    RangeRead(low, high);
    hide OrdersSub, EpsSub;
    var a := MidParts(Some(map["yoy_pct" := Num(growth)]), None, None);
    NotEmpty("yoy_pct", a[0].payload);
    LoneOfThree(a[0], a[1], a[2], 0);
    var b := MidParts(None, None, Some(map["change_pct_min" := Num(low), "change_pct_max" := Num(high)]));
    NotEmpty("change_pct_min", b[2].payload);
    LoneOfThree(b[0], b[1], b[2], 2);
  }

  lemma NotEmpty(key: string, p: Option<Payload>)
    requires p.Some? && key in p.value
    ensures Present(p)
  {
  }

  lemma GrowthRead(growth: real)
    ensures Saturated(growth / 50.0, OrdersSub(Some(map["yoy_pct" := Num(growth)])))
  {
    assert "score" != "yoy_pct";
  }

  lemma RangeRead(low: real, high: real)
    ensures Saturated((low + high) / 2.0 / 100.0, EpsSub(Some(map["change_pct_min" := Num(low), "change_pct_max" := Num(high)])))
  {
    assert "score" != "change_pct_min" && "score" != "change_pct_max" && "change_pct_min" != "change_pct_max";
  }

  /** A score of their own, other than 0, decides; for the margin, whatever it is. */
  lemma MidScoreByScore(p: Option<Payload>, x: real)
    requires Counts(p, "score", x) && -1.0 <= x <= 1.0
    ensures x != 0.0 ==> Composite(MidParts(p, None, None)) == x && Composite(MidParts(None, None, p)) == x
    ensures Composite(MidParts(None, p, None)) == x
  {
    hide Composite;
    assert Present(p);
    var a, b, c := MidParts(p, None, None), MidParts(None, p, None), MidParts(None, None, p);
    LoneOfThree(a[0], a[1], a[2], 0);
    LoneOfThree(b[0], b[1], b[2], 1);
    LoneOfThree(c[0], c[1], c[2], 2);
  }

  /** An input of the long score alone counts its score, and where that is void or missing its scalar. */
  lemma LongScoreAlone(p: Option<Payload>, x: real)
    requires -1.0 <= x <= 1.0
    requires p.Some? && Counts(p, if "score" in p.value && !Void(p.value["score"]) then "score" else "scalar", x)
    ensures Composite(LongParts(p, None, None, None)) == x && Composite(LongParts(None, p, None, None)) == x
    ensures Composite(LongParts(None, None, p, None)) == x && Composite(LongParts(None, None, None, p)) == x
  {
    hide Composite;
    assert Present(p) && LongSub(p) == x;
    hide LongSub;
    var a, b, c, d := LongParts(p, None, None, None), LongParts(None, p, None, None), LongParts(None, None, p, None), LongParts(None, None, None, p);
    LoneOfFour(a[0], a[1], a[2], a[3], 0);
    LoneOfFour(b[0], b[1], b[2], b[3], 1);
    LoneOfFour(c[0], c[1], c[2], c[3], 2);
    LoneOfFour(d[0], d[1], d[2], d[3], 3);
  }

  // ---- priced in -----------------------------------------------------------------------------------

  predicate Severe(p: Option<Payload>) { p.Some? && "severity" in p.value && p.value["severity"] in {Text("extreme"), Text("high")} }

  predicate Raised(p: Option<Payload>) { p.Some? && "severity" in p.value && p.value["severity"] == Text("elevated") }

  /** The verdict as a decision table over three signs: the run-up of sixty days (above 15%, above 30%), the
      valuation (elevated, severe) and a short score above 0.4. No one sign makes a story fully priced in; two
      or three have to meet; and an elevated valuation alone leaves it fresh. */
  lemma PricedInVerdict(ps: seq<Option<Payload>>)
    requires |ps| == 3 && AnyPresent(ps)
    ensures PricedInFormula(ps).Some? && "label" in PricedInFormula(ps).value
    ensures var up, steep := NumberIn(ps[0], "d60_pct") > 0.15, NumberIn(ps[0], "d60_pct") > 0.30;
            var severe, raised, bid := Severe(ps[2]), Raised(ps[2]), NumberIn(ps[1], "score") > 0.4;
            PricedInFormula(ps).value["label"] ==
              if (steep && severe) || (steep && raised && bid) || (up && severe && bid) then Text("fully_priced_in")
              else if steep || (severe && (up || bid)) || (up && bid) then Text("priced_in")
              else if up || severe || bid then Text("partial")
              else Text("fresh")
  {
    SeverityRead(ps[2]);
    hide SeverityOf, NumberIn, AnyPresent;
    assert "label" != "priced_in_score";
  }

  lemma SeverityRead(p: Option<Payload>)
    ensures Severe(p) <==> SeverityOf(p) == Extreme
    ensures Raised(p) <==> SeverityOf(p) == Elevated
  {
    assert "elevated" != "high" && "elevated" != "extreme";
  }
}
