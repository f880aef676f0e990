/** The formulas on the one late link of the shipped registry, `L11.short.score` and
    `L8.val.priced_in`, with the weighted composite all three horizon scores share. */
module ShippedFormulas {
  import opened Basics
  import opened DeriveEngine
  import opened DeriveConvergence
  import opened ShippedRegistry

  /** `_coerce_float`. */
  function CoerceFloat(v: Option<Value>, default: real): real {
    match v
    case Some(Num(x)) => x
    case Some(Flag(on)) => if on then 1.0 else 0.0
    case _ => default
  }

  function Field(p: Option<Payload>, key: string): Option<Value> {
    if p.Some? && key in p.value then Some(p.value[key]) else None
  }

  function NumberIn(p: Option<Payload>, key: string): real { CoerceFloat(Field(p, key), 0.0) }

  predicate Present(p: Option<Payload>) { p.Some? && p.value != map[] }

  predicate AnyPresent(ps: seq<Option<Payload>>) { exists k :: 0 <= k < |ps| && Present(ps[k]) }

  // ---- the weighted composite ---------------------------------------------------------

  /** One input of a composite: its payload, its weight, and the sub-score read out of it. */
  datatype Part = Part(payload: Option<Payload>, weight: real, sub: real)

  function Times(x: real, w: real): real { x * w }

  /** Weighted sum over the inputs that are mappings, empty ones included. */
  function RawScore(parts: seq<Part>): real {
    if parts == [] then 0.0
    else
      var p := parts[|parts| - 1];
      RawScore(parts[..|parts| - 1]) + (if p.payload.Some? then Times(p.sub, p.weight) else 0.0)
  }

  function Used(parts: seq<Part>): nat {
    if parts == [] then 0 else Used(parts[..|parts| - 1]) + (if parts[|parts| - 1].payload.Some? then 1 else 0)
  }

  function PresentWeight(parts: seq<Part>): real {
    if parts == [] then 0.0
    else PresentWeight(parts[..|parts| - 1]) + (if Present(parts[|parts| - 1].payload) then parts[|parts| - 1].weight else 0.0)
  }

  function AllWeight(parts: seq<Part>): real {
    if parts == [] then 0.0 else AllWeight(parts[..|parts| - 1]) + parts[|parts| - 1].weight
  }

  /** The score after renormalisation and clipping. */
  function Composite(parts: seq<Part>): real {
    var raw, total, all := RawScore(parts), PresentWeight(parts), AllWeight(parts);
    Clip(if 0.0 < total < all then raw / total * all else raw, -1.0, 1.0)
  }

  /** Accumulating `score`, `used` and the weights. */
  method CompositeScore(parts: seq<Part>) returns (score: real, used: nat)
    ensures score == Composite(parts) && used == Used(parts)
  {
    score, used := 0.0, 0;
    var total, all := 0.0, 0.0;
    for i := 0 to |parts|
      invariant score == RawScore(parts[..i]) && used == Used(parts[..i])
      invariant total == PresentWeight(parts[..i]) && all == AllWeight(parts[..i])
    {
      assert parts[..i + 1][..i] == parts[..i];
      var p := parts[i];
      if p.payload.Some? {
        score := score + Times(p.sub, p.weight);
        used := used + 1;
      }
      if Present(p.payload) {
        total := total + p.weight;
      }
      all := all + p.weight;
    }
    assert parts[..|parts|] == parts;
    if 0.0 < total < all {
      score := score / total * all;
    }
    score := Clip(score, -1.0, 1.0);
  }

  // ---- missing inputs do not dilute ---------------------------------------------------------

  /** Positive weights that add up to 1, and nothing to read in an empty payload. */
  predicate Balanced(parts: seq<Part>) {
    && (forall i :: 0 <= i < |parts| ==> parts[i].weight > 0.0)
    && (forall i :: 0 <= i < |parts| && parts[i].payload == Some(map[]) ==> parts[i].sub == 0.0)
    && AllWeight(parts) == 1.0
  }

  function OnlyPresent(parts: seq<Part>): seq<Part> {
    if parts == [] then []
    else OnlyPresent(parts[..|parts| - 1]) + (if Present(parts[|parts| - 1].payload) then [parts[|parts| - 1]] else [])
  }

  function WeightedSum(parts: seq<Part>): real {
    if parts == [] then 0.0
    else WeightedSum(parts[..|parts| - 1]) + Times(parts[|parts| - 1].sub, parts[|parts| - 1].weight)
  }

  lemma WeightedSumAppend(parts: seq<Part>, p: Part)
    ensures WeightedSum(parts + [p]) == WeightedSum(parts) + Times(p.sub, p.weight)
    ensures AllWeight(parts + [p]) == AllWeight(parts) + p.weight
  {
    assert (parts + [p])[..|parts|] == parts;
  }

  lemma {:induction false} OnlyPresentSums(parts: seq<Part>)
    requires forall i :: 0 <= i < |parts| && parts[i].payload == Some(map[]) ==> parts[i].sub == 0.0
    ensures RawScore(parts) == WeightedSum(OnlyPresent(parts))
    ensures PresentWeight(parts) == AllWeight(OnlyPresent(parts))
  {
    hide Times, Present, WeightedSum, AllWeight;
    if parts == [] {
      EmptySums();
    } else {
      var front, p := parts[..|parts| - 1], parts[|parts| - 1];
      OnlyPresentSums(front);
      WeightedSumAppend(OnlyPresent(front), p);
      assert OnlyPresent(front) + [] == OnlyPresent(front);
      TimesZero(p.weight);
      PresentIs(p.payload);
    }
  }

  lemma EmptySums()
    ensures WeightedSum([]) == 0.0 && AllWeight([]) == 0.0
  {
  }

  lemma PresentIs(p: Option<Payload>)
    ensures if p.None? then !Present(p) else Present(p) || p == Some(map[])
  {
  }

  lemma TimesZero(x: real)
    ensures Times(0.0, x) == 0.0 && Times(x, 0.0) == 0.0
  {
  }

  lemma {:induction false} PresentWithinAll(parts: seq<Part>)
    requires forall i :: 0 <= i < |parts| ==> parts[i].weight > 0.0
    ensures 0.0 <= PresentWeight(parts) <= AllWeight(parts)
    ensures PresentWeight(parts) > 0.0 <==> exists i :: 0 <= i < |parts| && Present(parts[i].payload)
  {
    hide Present;
    if parts != [] {
      var n := |parts| - 1;
      PresentWithinAll(parts[..n]);
      assert forall i :: 0 <= i < n ==> parts[..n][i] == parts[i];
      if PresentWeight(parts[..n]) > 0.0 {
        var i :| 0 <= i < n && Present(parts[..n][i].payload);
        assert Present(parts[i].payload);
      }
    }
  }

  lemma DivideByOne(x: real, t: real)
    requires t > 0.0
    ensures x / t * 1.0 == x / t && (t == 1.0 ==> x / t == x)
  {
  }

  /** The composite is the weighted mean of the inputs that are present, whichever they are: a missing
      input, and an empty one, neither dilutes the score nor pulls it towards zero. */
  lemma CompositeIsMean(parts: seq<Part>)
    requires Balanced(parts) && exists i :: 0 <= i < |parts| && Present(parts[i].payload)
    ensures AllWeight(OnlyPresent(parts)) > 0.0
    ensures Composite(parts) == Clip(WeightedSum(OnlyPresent(parts)) / AllWeight(OnlyPresent(parts)), -1.0, 1.0)
  {
    hide RawScore, PresentWeight, AllWeight, WeightedSum, OnlyPresent, Present;
    OnlyPresentSums(parts);
    PresentWithinAll(parts);
    DivideByOne(RawScore(parts), PresentWeight(parts));
  }

  lemma {:induction false} SumWithin(parts: seq<Part>, lo: real, hi: real)
    requires forall i :: 0 <= i < |parts| ==> parts[i].weight > 0.0 && lo <= parts[i].sub <= hi
    ensures Times(lo, AllWeight(parts)) <= WeightedSum(parts) <= Times(hi, AllWeight(parts))
  {
    hide Times;
    TimesZero(lo);
    TimesZero(hi);
    if parts != [] {
      var front, p := parts[..|parts| - 1], parts[|parts| - 1];
      SumWithin(front, lo, hi);
      TermWithin(lo, p.sub, hi, p.weight);
      Distribute(lo, AllWeight(front), p.weight);
      Distribute(hi, AllWeight(front), p.weight);
    }
  }

  lemma TermWithin(lo: real, s: real, hi: real, w: real)
    requires lo <= s <= hi && w > 0.0
    ensures Times(lo, w) <= Times(s, w) <= Times(hi, w)
  {
  }

  lemma Distribute(x: real, a: real, b: real)
    ensures Times(x, a + b) == Times(x, a) + Times(x, b)
  {
  }

  lemma MeanWithin(lo: real, sum: real, hi: real, t: real)
    requires t > 0.0 && Times(lo, t) <= sum <= Times(hi, t)
    ensures lo <= sum / t <= hi
  {
    var q := sum / t;
    assert Times(q, t) == sum;
    if q < lo {
      TermStrict(q, lo, t);
    }
    if q > hi {
      TermStrict(hi, q, t);
    }
  }

  lemma TermStrict(x: real, y: real, t: real)
    requires x < y && t > 0.0
    ensures Times(x, t) < Times(y, t)
  {
  }

  lemma {:induction false} OnlyPresentAre(parts: seq<Part>)
    ensures forall p :: p in OnlyPresent(parts) ==> p in parts && Present(p.payload)
  {
    if parts != [] {
      OnlyPresentAre(parts[..|parts| - 1]);
    }
  }

  /** So the composite lies between the lowest and the highest sub-score present. */
  lemma CompositeBetween(parts: seq<Part>, lo: real, hi: real)
    requires Balanced(parts) && exists i :: 0 <= i < |parts| && Present(parts[i].payload)
    requires -1.0 <= lo <= hi <= 1.0
    requires forall i :: 0 <= i < |parts| && Present(parts[i].payload) ==> lo <= parts[i].sub <= hi
    ensures lo <= Composite(parts) <= hi
  {
    hide WeightedSum, AllWeight, Composite, OnlyPresent, Present;
    CompositeIsMean(parts);
    OnlyPresentAre(parts);
    var present := OnlyPresent(parts);
    forall i | 0 <= i < |present| ensures present[i].weight > 0.0 && lo <= present[i].sub <= hi {
      assert present[i] in present;
    }
    SumWithin(present, lo, hi);
    MeanWithin(lo, WeightedSum(present), hi, AllWeight(present));
  }

  // ---- the three horizon scores ------------------------------------------------------------

  function ShortParts(a: Option<Payload>, b: Option<Payload>, c: Option<Payload>, d: Option<Payload>): seq<Part> {
    [Part(a, 0.30, NumberIn(a, "score")), Part(b, 0.30, NumberIn(b, "score")),
     Part(c, 0.20, NumberIn(c, "score")), Part(d, 0.20, NumberIn(d, "score"))]
  }

  /** An explicit score, else year-on-year growth in percent over 50. */
  function OrdersSub(p: Option<Payload>): real {
    if NumberIn(p, "score") == 0.0 then Clip(NumberIn(p, "yoy_pct") / 50.0, -1.0, 1.0) else NumberIn(p, "score")
  }

  /** An explicit score, else the guided range over 200. */
  function EpsSub(p: Option<Payload>): real {
    if NumberIn(p, "score") != 0.0 then NumberIn(p, "score")
    else Clip((NumberIn(p, "change_pct_min") + NumberIn(p, "change_pct_max")) / 200.0, -1.0, 1.0)
  }

  function MidParts(orders: Option<Payload>, margin: Option<Payload>, eps: Option<Payload>): seq<Part> {
    [Part(orders, 0.40, OrdersSub(orders)), Part(margin, 0.30, NumberIn(margin, "score")), Part(eps, 0.30, EpsSub(eps))]
  }

  predicate Truthy(v: Option<Value>) {
    match v
    case None => false
    case Some(Num(x)) => x != 0.0
    case Some(Flag(on)) => on
    case Some(Text(t)) => t != ""
    case Some(Names(ids)) => ids != []
    case Some(Dict(fields)) => fields != map[]
    case Some(Nothing) => false
  }

  /** `payload.get("score") or payload.get("scalar")`. */
  function LongSub(p: Option<Payload>): real {
    CoerceFloat(if Truthy(Field(p, "score")) then Field(p, "score") else Field(p, "scalar"), 0.0)
  }

  function LongParts(space: Option<Payload>, moat: Option<Payload>, model: Option<Payload>, margin: Option<Payload>): seq<Part> {
    [Part(space, 0.25, LongSub(space)), Part(moat, 0.35, LongSub(moat)),
     Part(model, 0.20, LongSub(model)), Part(margin, 0.20, LongSub(margin))]
  }

  lemma FourWeights(a: Part, b: Part, c: Part, d: Part)
    ensures AllWeight([a, b, c, d]) == a.weight + b.weight + c.weight + d.weight
  {
    ThreeWeights(a, b, c);
    assert [a, b, c, d][..3] == [a, b, c];
  }

  lemma ThreeWeights(a: Part, b: Part, c: Part)
    ensures AllWeight([a, b, c]) == a.weight + b.weight + c.weight
  {
    assert [a, b, c][..2] == [a, b] && [a, b][..1] == [a] && [a][..0] == [];
    assert AllWeight([]) == 0.0;
    assert AllWeight([a]) == a.weight;
    assert AllWeight([a, b]) == a.weight + b.weight;
  }

  /** All three horizon scores are balanced composites. */
  lemma HorizonsBalanced(a: Option<Payload>, b: Option<Payload>, c: Option<Payload>, d: Option<Payload>)
    ensures Balanced(ShortParts(a, b, c, d)) && Balanced(MidParts(a, b, c)) && Balanced(LongParts(a, b, c, d))
  {
    ShortBalanced(a, b, c, d);
    MidBalanced(a, b, c);
    LongBalanced(a, b, c, d);
    hide *;
  }

  lemma ShortBalanced(a: Option<Payload>, b: Option<Payload>, c: Option<Payload>, d: Option<Payload>)
    ensures Balanced(ShortParts(a, b, c, d))
  {
    var ps := ShortParts(a, b, c, d);
    FourWeights(ps[0], ps[1], ps[2], ps[3]);
    hide AllWeight;
    assert ps == [ps[0], ps[1], ps[2], ps[3]];
  }

  lemma MidBalanced(a: Option<Payload>, b: Option<Payload>, c: Option<Payload>)
    ensures Balanced(MidParts(a, b, c))
  {
    var ps := MidParts(a, b, c);
    ThreeWeights(ps[0], ps[1], ps[2]);
    hide AllWeight;
    assert ps == [ps[0], ps[1], ps[2]];
  }

  lemma LongBalanced(a: Option<Payload>, b: Option<Payload>, c: Option<Payload>, d: Option<Payload>)
    ensures Balanced(LongParts(a, b, c, d))
  {
    var ps := LongParts(a, b, c, d);
    FourWeights(ps[0], ps[1], ps[2], ps[3]);
    hide AllWeight;
    assert ps == [ps[0], ps[1], ps[2], ps[3]];
  }

  function Direction(score: real): string {
    if score > 0.3 then "bullish" else if score >= -0.3 then "neutral" else "bearish"
  }

  /** `derive_l11_short_score`, up to its rationale texts; a wrong number of inputs raises. */
  function ShortScoreFormula(ps: seq<Option<Payload>>): Option<Payload> {
    if |ps| != 4 || !AnyPresent(ps) then None
    else
      var parts := ShortParts(ps[0], ps[1], ps[2], ps[3]);
      var score := Composite(parts);
      Some(map["score" := Num(score), "label" := Text(Direction(score)), "horizon_days" := Num(5.0),
               "factors_used" := Num(Used(parts) as real)])
  }

  // ---- priced in -------------------------------------------------------------------------------

  datatype Severity = Extreme | Elevated | Other

  function SeverityOf(p: Option<Payload>): Severity {
    match Field(p, "severity")
    case Some(Text(t)) => if t == "extreme" || t == "high" then Extreme else if t == "elevated" then Elevated else Severity.Other
    case _ => Severity.Other
  }

  /** The accumulated score: run-up, valuation severity (`Extreme` covers "high"), short score. */
  function PricedInScore(d60: real, severity: Severity, short: real): real {
    Clip((if d60 > 0.30 then 0.40 else if d60 > 0.15 then 0.20 else 0.0)
         + (if severity == Extreme then 0.35 else if severity == Elevated then 0.15 else 0.0)
         + (if short > 0.4 then 0.20 else 0.0), 0.0, 1.0)
  }

  datatype PricedLabel = FullyPricedIn | MostlyPricedIn | Partial | NotYet

  function LabelOf(score: real): PricedLabel {
    if score >= 0.7 then FullyPricedIn else if score >= 0.4 then MostlyPricedIn else if score >= 0.2 then Partial else NotYet
  }

  function LabelText(l: PricedLabel): string {
    match l
    case FullyPricedIn => "fully_priced_in"
    case MostlyPricedIn => "priced_in"
    case Partial => "partial"
    case NotYet => "fresh"
  }

  /** `derive_l8_val_priced_in`, up to its factor texts. */
  function PricedInFormula(ps: seq<Option<Payload>>): Option<Payload> {
    if |ps| != 3 || !AnyPresent(ps) then None
    else
      var score := PricedInScore(NumberIn(ps[0], "d60_pct"), SeverityOf(ps[2]), NumberIn(ps[1], "score"));
      Some(map["priced_in_score" := Num(score), "label" := Text(LabelText(LabelOf(score)))])
  }

  // ---- two runs, with the formulas themselves ---------------------------------------------------------

  lemma ShortScoreGuarded()
    ensures GuardedByInputs(ShortScoreFormula, 4)
  {
    hide Composite, ShortParts, Direction, Used;
    forall ps: seq<Option<Payload>> | |ps| == 4
      ensures ShortScoreFormula(ps).Some? <==> exists k :: 0 <= k < |ps| && ps[k].Some? && ps[k].value != map[]
      ensures ShortScoreFormula(ps).Some? ==> "_inactive" !in ShortScoreFormula(ps).value
    {
      assert AnyPresent(ps) <==> exists k :: 0 <= k < |ps| && Present(ps[k]);
    }
  }

  lemma PricedInGuarded()
    ensures GuardedByInputs(PricedInFormula, 3)
  {
    hide PricedInScore, LabelOf, LabelText, SeverityOf, NumberIn;
    forall ps: seq<Option<Payload>> | |ps| == 3
      ensures PricedInFormula(ps).Some? <==> exists k :: 0 <= k < |ps| && ps[k].Some? && ps[k].value != map[]
      ensures PricedInFormula(ps).Some? ==> "_inactive" !in PricedInFormula(ps).value
    {
      assert AnyPresent(ps) <==> exists k :: 0 <= k < |ps| && Present(ps[k]);
    }
  }

  /** With the two formulas as shipped, and a bootstrap that fills the event sub-score, one run is not
      enough from an empty store, and two runs are a fixpoint. */
  lemma TwoRunsAreExact(e: Engine)
    requires Shipped(e) && e.registry[5].fn == PricedInFormula && e.registry[12].fn == ShortScoreFormula
    requires forall rows :: EventImpact in e.bootstrap(rows) && e.bootstrap(rows)[EventImpact] != map[]
    ensures var once := Run(e, World(map[], map[])); var twice := Run(e, once);
            && once != twice && Run(e, twice) == twice
            && Get(once.stock, PricedIn).Some? && once.stock[PricedIn].status == Inactive
            && Get(twice.stock, PricedIn).Some? && twice.stock[PricedIn].status == Known
  {
    hide Run, GuardedByInputs, ShortScoreFormula, PricedInFormula;
    ShortScoreGuarded();
    PricedInGuarded();
    ShippedNeedsTwo(e);
    var w := World(map[], map[]);
    ShippedSettlesInTwo(e, w, w);
  }
}
