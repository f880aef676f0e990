/** Aggregating one parent over its children, and the laws of
    that single step. */
module Rollup {
  import opened Basics
  import opened AggregatorNode

  /** What a child can be counted as; an Optionality child is counted as active. */
  datatype Kind = KActive | KInactive | KNotApplicable | KUnknown | KUnavailable | KProxy | KNonScoring

  predicate IsKind(c: Child, k: Kind) {
    match k
    case KNonScoring => !c.scoreEnabled
    case KInactive => c.scoreEnabled && c.status == Inactive
    case KNotApplicable => c.scoreEnabled && c.status == NotApplicable
    case KUnknown => c.scoreEnabled && c.status == Unknown
    case KUnavailable => c.scoreEnabled && c.status == Unavailable
    case KProxy => c.scoreEnabled && c.status == Proxy
    case KActive => c.scoreEnabled && c.status !in {NotApplicable, Inactive, Unknown}
  }

  function CountOf(kids: seq<Child>, k: Kind): nat {
    if kids == [] then 0
    else CountOf(kids[..|kids| - 1], k) + (if IsKind(kids[|kids| - 1], k) then 1 else 0)
  }

  datatype Counters = Counters(
    active: nat, inactive: nat, na: nat, unknown: nat, unavailable: nat, proxy: nat, nonScoring: nat)

  const NO_CHILDREN := Counters(0, 0, 0, 0, 0, 0, 0)

  function Count(kids: seq<Child>): Counters {
    Counters(CountOf(kids, KActive), CountOf(kids, KInactive), CountOf(kids, KNotApplicable),
             CountOf(kids, KUnknown), CountOf(kids, KUnavailable), CountOf(kids, KProxy),
             CountOf(kids, KNonScoring))
  }

  datatype Warning = Normal | LowConfidence

  datatype Result = Result(
    score: real, short: real, medium: real, long: real,
    confidence: real, dataCoverage: real, missingPenalty: real, evidenceQuality: real,
    minRequiredCoverage: real, warning: Warning, counters: Counters, scoreEnabled: bool)

  /** Drops out of numerator and denominator: not scored, N/A or Inactive. */
  predicate DropsOut(c: Child) {
    !c.scoreEnabled || c.status == NotApplicable || c.status == Inactive
  }

  function Applicable(kids: seq<Child>): seq<Child> {
    if kids == [] then []
    else Applicable(kids[..|kids| - 1]) +
         (if DropsOut(kids[|kids| - 1]) then [] else [kids[|kids| - 1]])
  }

  /** The quantities a parent sums over its applicable children. */
  datatype Measure = ByWeight | ByUsable | ByPenalty | ByBaseConfidence

  function PenalisedWeight(c: Child): real {
    c.weight * OrDefault(Some(c.confidencePenalty), 1.0)
  }

  function Measured(c: Child, m: Measure): real {
    match m
    case ByWeight => c.weight
    case ByUsable => if c.status == Unknown then 0.0 else c.weight
    case ByPenalty => if c.status == Unknown then 0.0 else PenalisedWeight(c)
    case ByBaseConfidence => c.baseConfidence
  }

  function Sum(cs: seq<Child>, m: Measure): real {
    if cs == [] then 0.0 else Sum(cs[..|cs| - 1], m) + Measured(cs[|cs| - 1], m)
  }

  datatype Horizon = Overall | Short | Medium | Long

  function ScoreAt(c: Child, h: Horizon): real {
    match h
    case Overall => c.score
    case Short => c.short
    case Medium => c.medium
    case Long => c.long
  }

  /** Renormalised weighted sum: score x (weight / total) x confidence. */
  function Share(cs: seq<Child>, total: real, h: Horizon): real
    requires total != 0.0
  {
    if cs == [] then 0.0
    else
      var c := cs[|cs| - 1];
      Share(cs[..|cs| - 1], total, h) + ScoreAt(c, h) * (c.weight / total) * c.confidence
  }

  function ParentScore(kids: seq<Child>, h: Horizon): real {
    var app := Applicable(kids);
    var total := Sum(app, ByWeight);
    if total <= 0.0 || app == [] then 0.0 else Share(app, total, h)
  }

  function Coverage(kids: seq<Child>): real {
    var app := Applicable(kids);
    if Sum(app, ByWeight) > 0.0 then Sum(app, ByUsable) / Sum(app, ByWeight) else 0.0
  }

  function MissingPenalty(kids: seq<Child>): real {
    var app := Applicable(kids);
    if Sum(app, ByUsable) > 0.0 then Sum(app, ByPenalty) / Sum(app, ByUsable) else 1.0
  }

  function BaseConfidence(parent: Node, kids: seq<Child>): real {
    var app := Applicable(kids);
    if app == [] then OrDefault(parent.confidence, 0.5)
    else Sum(app, ByBaseConfidence) / (|app| as real)
  }

  /** The specification of `_aggregate_parent`. */
  function Aggregated(parent: Node, kids: seq<Child>): Result {
    var coverage := Coverage(kids);
    var required := OrDefault(parent.minRequiredCoverage, 0.5);
    var quality := parent.quality;
    Result(
      ParentScore(kids, Overall), ParentScore(kids, Short), ParentScore(kids, Medium), ParentScore(kids, Long),
      BaseConfidence(parent, kids) * coverage * quality * MissingPenalty(kids),
      coverage, MissingPenalty(kids), quality, required,
      if coverage < required then LowConfidence else Normal,
      Count(kids),
      parent.scoreEnabled)
  }

  /** One weighted sum over the applicable pool. */
  method WeightedSum(app: seq<Child>, total: real, h: Horizon) returns (s: real)
    requires total != 0.0
    ensures s == Share(app, total, h)
  {
    s := 0.0;
    for i := 0 to |app|
      invariant s == Share(app[..i], total, h)
    {
      assert app[..i + 1][..i] == app[..i];
      s := s + ScoreAt(app[i], h) * (app[i].weight / total) * app[i].confidence;
    }
    assert app[..|app|] == app;
  }

  lemma EmptyPool()
    ensures Applicable([]) == [] && forall m: Measure :: Sum([], m) == 0.0
  {
  }

  lemma SumAppend(cs: seq<Child>, c: Child, m: Measure)
    ensures Sum(cs + [c], m) == Sum(cs, m) + Measured(c, m)
  {
    assert (cs + [c])[..|cs + [c]| - 1] == cs;
  }

  lemma CountAppend(cs: seq<Child>, c: Child, k: Kind)
    ensures CountOf(cs + [c], k) == CountOf(cs, k) + (if IsKind(c, k) then 1 else 0)
  {
    assert (cs + [c])[..|cs + [c]| - 1] == cs;
  }

  lemma ApplicableAppend(cs: seq<Child>, c: Child)
    ensures Applicable(cs + [c]) == Applicable(cs) + (if DropsOut(c) then [] else [c])
  {
    assert (cs + [c])[..|cs + [c]| - 1] == cs;
  }

  /** The counters of `_aggregate_parent`, one increment per child. */
  method CountChildren(kids: seq<Child>) returns (k: Counters)
    ensures k == Count(kids)
  {
    var nActive, nOptionality, nInactive, nNa, nUnknown, nUnavailable, nProxy, nNonScoring := 0, 0, 0, 0, 0, 0, 0, 0;
    for i := 0 to |kids|
      invariant nActive + nOptionality == CountOf(kids[..i], KActive)
      invariant nInactive == CountOf(kids[..i], KInactive)
      invariant nNa == CountOf(kids[..i], KNotApplicable)
      invariant nUnknown == CountOf(kids[..i], KUnknown)
      invariant nUnavailable == CountOf(kids[..i], KUnavailable)
      invariant nProxy == CountOf(kids[..i], KProxy)
      invariant nNonScoring == CountOf(kids[..i], KNonScoring)
    {
      var c := kids[i];
      assert kids[..i + 1] == kids[..i] + [c];
      forall k: Kind { CountAppend(kids[..i], c, k); }
      if !c.scoreEnabled {
        nNonScoring := nNonScoring + 1;
      } else if c.status == NotApplicable {
        nNa := nNa + 1;
      } else if c.status == Inactive {
        nInactive := nInactive + 1;
      } else if c.status == Unknown {
        nUnknown := nUnknown + 1;
      } else {
        if c.status == Unavailable {
          nUnavailable := nUnavailable + 1;
        } else if c.status == Proxy {
          nProxy := nProxy + 1;
        }
        if c.status == Optionality {
          nOptionality := nOptionality + 1;
        } else {
          nActive := nActive + 1;
        }
      }
    }
    assert kids[..|kids|] == kids;
    k := Counters(nActive + nOptionality, nInactive, nNa, nUnknown, nUnavailable, nProxy, nNonScoring);
  }

  /** The applicable pool and its running weight sums. */
  method PoolChildren(kids: seq<Child>)
    returns (applicable: seq<Child>, usable: real, total: real, penalised: real, baseSum: real)
    ensures applicable == Applicable(kids)
    ensures usable == Sum(applicable, ByUsable) && total == Sum(applicable, ByWeight)
    ensures penalised == Sum(applicable, ByPenalty) && baseSum == Sum(applicable, ByBaseConfidence)
  {
    hide Sum, Applicable, PenalisedWeight;
    EmptyPool();
    applicable, usable, total, penalised, baseSum := [], 0.0, 0.0, 0.0, 0.0;
    for i := 0 to |kids|
      invariant applicable == Applicable(kids[..i])
      invariant usable == Sum(applicable, ByUsable) && total == Sum(applicable, ByWeight)
      invariant penalised == Sum(applicable, ByPenalty) && baseSum == Sum(applicable, ByBaseConfidence)
    {
      var c := kids[i];
      assert kids[..i + 1] == kids[..i] + [c];
      ApplicableAppend(kids[..i], c);
      SumAppend(applicable, c, ByUsable);
      SumAppend(applicable, c, ByWeight);
      SumAppend(applicable, c, ByPenalty);
      SumAppend(applicable, c, ByBaseConfidence);
      if c.scoreEnabled && c.status != NotApplicable && c.status != Inactive {
        if c.status != Unknown {
          usable := usable + c.weight;
          penalised := penalised + PenalisedWeight(c);
        }
        total := total + c.weight;
        baseSum := baseSum + c.baseConfidence;
        applicable := applicable + [c];
      }
    }
    assert kids[..|kids|] == kids;
  }

  /** `_aggregate_parent`. */
  method AggregateParent(parent: Node, kids: seq<Child>) returns (r: Result)
    ensures r == Aggregated(parent, kids)
  {
    hide Sum, Applicable, Share, Count;
    var k := CountChildren(kids);
    var applicable, usable, total, penalised, baseSum := PoolChildren(kids);
    var score, short, medium, long := 0.0, 0.0, 0.0, 0.0;
    if !(total <= 0.0 || applicable == []) {
      score := WeightedSum(applicable, total, Overall);
      short := WeightedSum(applicable, total, Short);
      medium := WeightedSum(applicable, total, Medium);
      long := WeightedSum(applicable, total, Long);
    }
    var baseConf := if applicable != [] then baseSum / (|applicable| as real)
                    else OrDefault(parent.confidence, 0.5);
    var coverage := if total > 0.0 then usable / total else 0.0;
    var missing := if usable > 0.0 then penalised / usable else 1.0;
    var quality := parent.quality;
    var required := OrDefault(parent.minRequiredCoverage, 0.5);
    r := Result(score, short, medium, long, baseConf * coverage * quality * missing,
                coverage, missing, quality, required,
                if coverage < required then LowConfidence else Normal,
                k, parent.scoreEnabled);
  }

  /** All children gone quiet turns a parent N/A or Inactive; otherwise it keeps its own status. */
  function ParentStatus(own: Status, k: Counters): Status {
    if k.active + k.unknown != 0 then own
    else if k.na > 0 && k.inactive == 0 then NotApplicable
    else if k.inactive > 0 then Inactive
    else own
  }

  function ParentChild(parent: Node, r: Result): Child {
    Child(ParentStatus(parent.status, r.counters), EffectiveWeight(parent),
          r.score, r.short, r.medium, r.long,
          OrDefault(Some(r.confidence), 0.5), OrDefault(parent.confidence, 0.5),
          r.scoreEnabled, OrDefault(parent.confidencePenalty, 1.0))
  }

  function LeafResult(n: Node): Result {
    var c := LeafChild(n);
    var required := OrDefault(n.minRequiredCoverage, 0.5);
    Result(c.score, c.short, c.medium, c.long, c.confidence,
           if c.status == Unknown || c.status == NotApplicable then 0.0 else 1.0,
           c.confidencePenalty, n.quality, required,
           if c.status == Unknown && required > 0.0 then LowConfidence else Normal,
           NO_CHILDREN, c.scoreEnabled)
  }

  // ---- dropping out ---------------------------------------------------------

  lemma {:induction false} ApplicableConcat(a: seq<Child>, b: seq<Child>)
    ensures Applicable(a + b) == Applicable(a) + Applicable(b)
  {
    if b == [] {
      assert a + b == a;
    } else {
      var front := b[..|b| - 1];
      assert (a + b)[..|a + b| - 1] == a + front;
      ApplicableConcat(a, front);
    }
  }

  /** Children that drop out can be put in anywhere without touching the applicable pool. */
  lemma {:induction false} ApplicableInsert(a: seq<Child>, extra: Child, b: seq<Child>)
    requires DropsOut(extra)
    ensures Applicable(a + [extra] + b) == Applicable(a + b)
  {
    ApplicableConcat(a + [extra], b);
    ApplicableConcat(a, [extra]);
    ApplicableConcat(a, b);
    assert [extra][..0] == [];
    assert Applicable([extra]) == [];
  }

  lemma {:induction false} CountConcat(a: seq<Child>, b: seq<Child>, k: Kind)
    ensures CountOf(a + b, k) == CountOf(a, k) + CountOf(b, k)
  {
    if b == [] {
      assert a + b == a;
    } else {
      var front := b[..|b| - 1];
      assert (a + b)[..|a + b| - 1] == a + front;
      CountConcat(a, front, k);
    }
  }

  function Bumped(k: Counters, c: Child): Counters {
    if !c.scoreEnabled then k.(nonScoring := k.nonScoring + 1)
    else if c.status == NotApplicable then k.(na := k.na + 1)
    else k.(inactive := k.inactive + 1)
  }

  lemma CountInsert(a: seq<Child>, extra: Child, b: seq<Child>)
    requires DropsOut(extra)
    ensures Count(a + [extra] + b) == Bumped(Count(a + b), extra)
  {
    forall k: Kind
      ensures CountOf(a + [extra] + b, k) == CountOf(a + b, k) + (if IsKind(extra, k) then 1 else 0)
    {
      CountConcat(a + [extra], b, k);
      CountAppend(a, extra, k);
      CountConcat(a, b, k);
    }
  }

  /** Inserting a dropped-out child changes nothing in the parent's result except its own counter. */
  lemma AggregateInsert(parent: Node, a: seq<Child>, extra: Child, b: seq<Child>)
    requires DropsOut(extra)
    ensures var r, r' := Aggregated(parent, a + b), Aggregated(parent, a + [extra] + b);
            r' == r.(counters := Bumped(r.counters, extra))
  {
    ApplicableInsert(a, extra, b);
    CountInsert(a, extra, b);
  }
}
