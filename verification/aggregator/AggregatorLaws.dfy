/** Laws of the score roll-up that hold at every node of every tree, hence at every
    node of every overlay, cyclic or not: the three horizons share out the score, and
    scores, confidences and coverages stay bounded. */
module AggregatorLaws {
  import opened Basics
  import opened Reals
  import opened AggregatorNode
  import opened Rollup
  import opened CompanyTree

  // ---- horizon conservation -----------------------------------------------------

  /** The same weight-and-confidence sum as the score, applied to the leaves' future option terms. */
  function Future(t: Tree): real
    decreases t
  {
    match t
    case Leaf(n) => FutureOption(n)
    case Parent(n, kids) => FutureBelow(EvalAll(kids), FutureAll(kids))
  }

  function FutureAll(ts: seq<Tree>): (fs: seq<real>)
    ensures |fs| == |ts|
    ensures forall i :: 0 <= i < |ts| ==> fs[i] == Future(ts[i])
    decreases ts
  {
    if ts == [] then [] else [Future(ts[0])] + FutureAll(ts[1..])
  }

  function FutureBelow(cs: seq<Child>, fs: seq<real>): real
    requires |cs| == |fs|
  {
    var app := Applicable(cs);
    var total := Sum(app, ByWeight);
    if total <= 0.0 || app == [] then 0.0 else FutureShare(cs, fs, total)
  }

  /** `fs[i]` weighted as child `i` is weighted; children that drop out contribute nothing. */
  function FutureShare(cs: seq<Child>, fs: seq<real>, total: real): real
    requires total != 0.0 && |cs| == |fs|
  {
    if cs == [] then 0.0
    else
      var n := |cs| - 1;
      FutureShare(cs[..n], fs[..n], total) +
      (if DropsOut(cs[n]) then 0.0 else fs[n] * (cs[n].weight / total) * cs[n].confidence)
  }

  predicate Conserves(short: real, medium: real, long: real, score: real, future: real) {
    short + medium + long == score + future
  }

  lemma LeafConserves(n: Node)
    ensures var c := LeafChild(n); Conserves(c.short, c.medium, c.long, c.score, FutureOption(n))
  {
    var s := LeafIntrinsic(n);
    assert s * n.mix.short + s * n.mix.medium + s * n.mix.long
        == s * (n.mix.short + n.mix.medium + n.mix.long);
  }

  lemma TermConserves(s: real, m: real, l: real, score: real, future: real, w: real, conf: real)
    requires Conserves(s, m, l, score, future)
    ensures Conserves(s * w * conf, m * w * conf, l * w * conf, score * w * conf, future * w * conf)
  {
    assert (s + m + l) * w * conf == (score + future) * w * conf;
  }

  /** All four sums of one pool together. */
  predicate SharesAgree(app: seq<Child>, total: real, future: real)
    requires total != 0.0
  {
    Conserves(Share(app, total, Short), Share(app, total, Medium), Share(app, total, Long),
              Share(app, total, Overall), future)
  }

  lemma SharesAgreeAppend(app: seq<Child>, c: Child, total: real, future: real, f: real)
    requires total != 0.0 && SharesAgree(app, total, future)
    requires Conserves(c.short, c.medium, c.long, c.score, f)
    ensures SharesAgree(app + [c], total, future + f * (c.weight / total) * c.confidence)
  {
    assert (app + [c])[..|app + [c]| - 1] == app;
    TermConserves(c.short, c.medium, c.long, c.score, f, c.weight / total, c.confidence);
  }

  lemma {:induction false} SharesConserve(cs: seq<Child>, fs: seq<real>, total: real)
    requires total != 0.0 && |cs| == |fs|
    requires forall i :: 0 <= i < |cs| ==> Conserves(cs[i].short, cs[i].medium, cs[i].long, cs[i].score, fs[i])
    ensures SharesAgree(Applicable(cs), total, FutureShare(cs, fs, total))
  {
    if cs != [] {
      var n := |cs| - 1;
      SharesConserve(cs[..n], fs[..n], total);
      assert Applicable(cs) == Applicable(cs[..n]) + (if DropsOut(cs[n]) then [] else [cs[n]]);
      if DropsOut(cs[n]) {
        assert Applicable(cs) == Applicable(cs[..n]);
      } else {
        SharesAgreeAppend(Applicable(cs[..n]), cs[n], total, FutureShare(cs[..n], fs[..n], total), fs[n]);
      }
    }
  }

  lemma ParentConserves(n: Node, cs: seq<Child>, fs: seq<real>)
    requires |cs| == |fs|
    requires forall i :: 0 <= i < |cs| ==> Conserves(cs[i].short, cs[i].medium, cs[i].long, cs[i].score, fs[i])
    ensures var r := Aggregated(n, cs); Conserves(r.short, r.medium, r.long, r.score, FutureBelow(cs, fs))
  {
    var app := Applicable(cs);
    var total := Sum(app, ByWeight);
    if !(total <= 0.0 || app == []) {
      SharesConserve(cs, fs, total);
    }
  }

  /** At every node: short + medium + long == score + the future option terms below it. */
  lemma {:induction false} HorizonsConserve(t: Tree)
    ensures var r := Eval(t).result; Conserves(r.short, r.medium, r.long, r.score, Future(t))
    ensures var c := Eval(t).asChild; Conserves(c.short, c.medium, c.long, c.score, Future(t))
    decreases t
  {
    match t
    case Leaf(n) => LeafConserves(n);
    case Parent(n, kids) =>
      forall i | 0 <= i < |kids|
        ensures var c := EvalAll(kids)[i]; Conserves(c.short, c.medium, c.long, c.score, FutureAll(kids)[i])
      {
        HorizonsConserve(kids[i]);
      }
      ParentConserves(n, EvalAll(kids), FutureAll(kids));
  }

  /** No leaf of the tree carries a future option term. */
  predicate OptionFree(t: Tree)
    decreases t
  {
    match t
    case Leaf(n) => FutureOption(n) == 0.0
    case Parent(_, kids) => forall i :: 0 <= i < |kids| ==> OptionFree(kids[i])
  }

  lemma {:induction false} ZeroFutures(cs: seq<Child>, fs: seq<real>, total: real)
    requires total != 0.0 && |cs| == |fs| && forall i :: 0 <= i < |fs| ==> fs[i] == 0.0
    ensures FutureShare(cs, fs, total) == 0.0
  {
    if cs != [] {
      ZeroFutures(cs[..|cs| - 1], fs[..|cs| - 1], total);
    }
  }

  lemma {:induction false} OptionFreeHasNoFuture(t: Tree)
    requires OptionFree(t)
    ensures Future(t) == 0.0
    decreases t
  {
    if t.Parent? {
      forall i | 0 <= i < |t.kids| ensures FutureAll(t.kids)[i] == 0.0 {
        OptionFreeHasNoFuture(t.kids[i]);
      }
      NoFutureBelow(EvalAll(t.kids), FutureAll(t.kids));
    }
  }

  lemma NoFutureBelow(cs: seq<Child>, fs: seq<real>)
    requires |cs| == |fs| && forall i :: 0 <= i < |fs| ==> fs[i] == 0.0
    ensures FutureBelow(cs, fs) == 0.0
  {
    var total := Sum(Applicable(cs), ByWeight);
    if total > 0.0 {
      ZeroFutures(cs, fs, total);
    }
  }

  /** Without Optionality values the three horizons partition the score exactly. */
  lemma HorizonsPartition(t: Tree)
    requires OptionFree(t)
    ensures var r := Eval(t).result; r.short + r.medium + r.long == r.score
  {
    HorizonsConserve(t);
    OptionFreeHasNoFuture(t);
  }

  // ---- boundedness ------------------------------------------------------------------

  predicate UnitOrMissing(x: Option<real>) { x.Some? ==> 0.0 <= x.value <= 1.0 }

  predicate NonNegativeOrMissing(x: Option<real>) { x.Some? ==> x.value >= 0.0 }

  /** Inputs in range: confidence, penalty, evidence quality, recency and |neutral value| at most 1,
      weights not negative. */
  predicate InRange(n: Node) {
    && UnitOrMissing(n.confidence) && UnitOrMissing(n.confidencePenalty)
    && 0.0 <= n.quality <= 1.0 && 0.0 <= n.recency <= 1.0
    && (n.neutralValue.Some? ==> -1.0 <= n.neutralValue.value <= 1.0)
    && NonNegativeOrMissing(n.baseWeight) && NonNegativeOrMissing(n.activeWeight) && NonNegativeOrMissing(n.materiality)
  }

  predicate TreeInRange(t: Tree)
    decreases t
  {
    InRange(t.node) && (t.Parent? ==> forall i :: 0 <= i < |t.kids| ==> TreeInRange(t.kids[i]))
  }

  /** The true bounds of the three horizons. The long one can exceed 1: see `LongWithinOneExactly` and `OptionSlot.LongReachesBound`. */
  predicate HorizonsInRange(short: real, medium: real, long: real) {
    Within(short, 0.5) && Within(medium, 0.5) && Within(long, 1.6)
  }

  predicate ChildInRange(c: Child) {
    && Within(c.score, 1.0) && HorizonsInRange(c.short, c.medium, c.long) && IsUnit(c.confidence) && IsUnit(c.baseConfidence) && c.weight >= 0.0
    && IsUnit(c.confidencePenalty)
  }

  predicate ResultInRange(r: Result) {
    -1.0 <= r.score <= 1.0 && HorizonsInRange(r.short, r.medium, r.long) && IsUnit(r.confidence) && IsUnit(r.dataCoverage) && IsUnit(r.missingPenalty)
  }

  lemma WeightNonNegative(n: Node)
    requires InRange(n)
    ensures EffectiveWeight(n) >= 0.0
  {
    ProductNonNegative(n.baseWeight.GetOr(1.0), n.activeWeight.GetOr(1.0));
    ProductNonNegative(n.baseWeight.GetOr(1.0) * n.activeWeight.GetOr(1.0), n.materiality.GetOr(1.0));
  }

  lemma SignedMagnitude(sign: Sign, m: real, recency: real)
    requires IsUnit(m) && IsUnit(recency)
    ensures Within(Signal(sign, m, recency), 1.0)
  {
    UnitTimes(m, recency);
    if sign == 1.0 {
      assert sign * m * recency == m * recency;
    } else if sign == 0.0 {
      assert sign * m * recency == 0.0;
    } else {
      assert sign * m * recency == -(m * recency);
    }
  }

  lemma LeafScoreInRange(n: Node)
    requires InRange(n)
    ensures Within(LeafIntrinsic(n), 1.0)
  {
    hide Within, Signal;
    var neutral := OrDefault(n.neutralValue, 0.0);
    assert Within(0.0, 1.0) by { ZeroIsWithin(); }
    if n.status == Unavailable {
      if n.multiplier {
        SignedMultiplier(Clip(neutral - 1.0, -1.0, 1.0), n.recency);
      } else {
        SignedMagnitude(n.sign, Abs(neutral), n.recency);
      }
    } else {
      SignedMagnitude(n.sign, n.value.strength, n.recency);
    }
  }

  lemma ZeroIsWithin()
    ensures Within(0.0, 1.0)
  {
  }

  lemma SignedMultiplier(x: real, recency: real)
    requires -1.0 <= x <= 1.0 && IsUnit(recency)
    ensures Within(x * recency, 1.0)
  {
    Shrinks(x, recency, 1.0);
  }

  lemma PartWithin(s: real, share: real, cap: real)
    requires Within(s, 1.0) && 0.0 <= share <= cap
    ensures Within(s * share, cap)
  {
    if s >= 0.0 {
      ProductNonNegative(s, share);
      ProductNonNegative(1.0 - s, share);
      assert s * share == share - (1.0 - s) * share;
    } else {
      ProductNonNegative(-s, share);
      ProductNonNegative(1.0 + s, share);
      assert s * share == (1.0 + s) * share - share;
    }
  }

  lemma FutureWithin(n: Node)
    requires InRange(n)
    ensures Within(FutureOption(n), 1.0)
  {
    hide Signal;
    if n.value.future.Some? {
      SignedMagnitude(n.sign, n.value.future.value, n.recency);
    }
  }

  lemma ShareOf(x: real, y: real, cap: real)
    requires x == y && Within(y, cap)
    ensures Within(x, cap)
  {
  }

  lemma SumWithin(x: real, y: real, a: real, b: real)
    requires Within(x, a) && Within(y, b)
    ensures Within(x + y, a + b)
  {
  }

  /** Each horizon of a leaf: its share of the score, plus, in the long one, the future option term. */
  lemma LeafHorizonsInRange(n: Node)
    requires InRange(n)
    ensures var c := LeafChild(n); HorizonsInRange(c.short, c.medium, c.long)
  {
    hide LeafIntrinsic, FutureOption, Within;
    LeafScoreInRange(n);
    FutureWithin(n);
    var s := LeafIntrinsic(n);
    var c := LeafChild(n);
    PartWithin(s, n.mix.short, 0.5);
    PartWithin(s, n.mix.medium, 0.5);
    PartWithin(s, n.mix.long, 0.6);
    SumWithin(s * n.mix.long, FutureOption(n), 0.6, 1.0);
    ShareOf(c.short, s * n.mix.short, 0.5);
    ShareOf(c.medium, s * n.mix.medium, 0.5);
    ShareOf(c.long, s * n.mix.long + FutureOption(n), 1.6);
  }

  /** What takes a leaf's long horizon over 1: an Optionality value whose future option and long share of
      the present signal together exceed the inverse of its recency. */
  predicate LongExceeds(n: Node) {
    && n.status == Optionality && n.scoreEnabled && n.sign != 0.0 && n.value.future.Some?
    && n.recency * (n.value.future.value + n.mix.long * n.value.strength) > 1.0
  }

  /** The long horizon of a leaf stays within 1 exactly when that does not happen. */
  lemma LongWithinOneExactly(n: Node)
    requires InRange(n)
    ensures Within(LeafChild(n).long, 1.0) <==> !LongExceeds(n)
  {
    if n.status == Optionality && n.scoreEnabled && n.value.future.Some? {
      TwoTerms(n);
    } else {
      OneTerm(n);
    }
  }

  lemma TwoTerms(n: Node)
    requires InRange(n) && n.status == Optionality && n.scoreEnabled && n.value.future.Some?
    ensures Within(LeafChild(n).long, 1.0) <==> !LongExceeds(n)
  {
    var sum := n.value.future.value + n.mix.long * n.value.strength;
    ProductNonNegative(n.mix.long, n.value.strength);
    ProductNonNegative(n.recency, sum);
    LongTerm(n.sign, n.value.strength, n.recency, n.mix.long, n.value.future.value);
    assert LeafChild(n).long == n.sign * (n.recency * sum);
    SignedWithin(n.sign, n.recency * sum);
  }

  lemma SignedWithin(sign: Sign, x: real)
    requires x >= 0.0
    ensures Within(sign * x, 1.0) <==> sign == 0.0 || x <= 1.0
  {
    if sign == 1.0 {
      assert sign * x == x;
    } else if sign == 0.0 {
      assert sign * x == 0.0;
    } else {
      assert sign * x == -x;
    }
  }

  /** With at most one of the two terms the long horizon stays within 1. */
  lemma OneTerm(n: Node)
    requires InRange(n) && !(n.status == Optionality && n.scoreEnabled && n.value.future.Some?)
    ensures Within(LeafChild(n).long, 1.0)
  {
    hide LeafIntrinsic;
    LeafScoreInRange(n);
    FutureWithin(n);
    PartWithin(LeafIntrinsic(n), n.mix.long, 0.6);
    if !n.scoreEnabled {
      SilentLeaf(n);
    }
  }

  lemma SilentLeaf(n: Node)
    ensures !n.scoreEnabled ==> LeafIntrinsic(n) == 0.0
  {
  }

  lemma LongTerm(sign: Sign, strength: real, recency: real, share: real, future: real)
    ensures sign * strength * recency * share + sign * future * recency == sign * (recency * (future + share * strength))
  {
    assert sign * strength * recency * share == sign * (recency * (share * strength));
    assert sign * future * recency == sign * (recency * future);
    assert recency * (future + share * strength) == recency * future + recency * (share * strength);
  }

  lemma LeafInRange(n: Node)
    requires InRange(n)
    ensures ChildInRange(LeafChild(n)) && ResultInRange(LeafResult(n))
  {
    WeightNonNegative(n);
    LeafScoreInRange(n);
    LeafHorizonsInRange(n);
    LeafConfidenceInRange(n);
    hide HorizonsInRange, LeafIntrinsic, LeafConfidence, FutureOption, EffectiveWeight;
  }

  lemma LeafConfidenceInRange(n: Node)
    requires InRange(n)
    ensures IsUnit(LeafConfidence(n)) && IsUnit(OrDefault(n.confidencePenalty, 1.0)) && IsUnit(n.confidence.GetOr(0.5))
  {
    UnitTimes(n.confidence.GetOr(0.5), OrDefault(n.confidencePenalty, 1.0));
  }

  predicate AllInRange(cs: seq<Child>) { forall i :: 0 <= i < |cs| ==> ChildInRange(cs[i]) }

  lemma {:induction false} ApplicableInRange(cs: seq<Child>)
    requires AllInRange(cs)
    ensures AllInRange(Applicable(cs))
    ensures forall i :: 0 <= i < |Applicable(cs)| ==> Applicable(cs)[i] in cs
  {
    if cs != [] {
      var front := cs[..|cs| - 1];
      ApplicableInRange(front);
      assert forall c :: c in front ==> c in cs;
    }
  }

  lemma PenaltyShrinksWeight(c: Child)
    requires ChildInRange(c)
    ensures 0.0 <= PenalisedWeight(c) <= c.weight
  {
    ScalePositive(c.weight, OrDefault(Some(c.confidencePenalty), 1.0));
  }

  lemma {:induction false} SumBounds(cs: seq<Child>)
    requires AllInRange(cs)
    ensures 0.0 <= Sum(cs, ByPenalty) <= Sum(cs, ByUsable) <= Sum(cs, ByWeight)
    ensures 0.0 <= Sum(cs, ByBaseConfidence) <= |cs| as real
  {
    if cs != [] {
      var c := cs[|cs| - 1];
      SumBounds(cs[..|cs| - 1]);
      assert ChildInRange(c);
      PenaltyShrinksWeight(c);
    }
  }

  lemma StepWithin(share: real, bound: real, u: real, s: real, v: real, conf: real)
    requires Within(share, bound * u) && Within(s, bound) && v >= 0.0 && IsUnit(conf)
    ensures Within(share + s * v * conf, bound * (u + v))
  {
    TermBound(s, v, conf, bound);
    WithinSum(share, s * v * conf, bound, u, v);
  }

  /** The weights as fractions of `total`, added up. */
  function Fraction(cs: seq<Child>, total: real): real
    requires total != 0.0
  {
    if cs == [] then 0.0 else Fraction(cs[..|cs| - 1], total) + cs[|cs| - 1].weight / total
  }

  lemma {:induction false} FractionIs(cs: seq<Child>, total: real)
    requires total > 0.0
    ensures Fraction(cs, total) == Sum(cs, ByWeight) / total
  {
    if cs == [] {
      assert 0.0 / total == 0.0;
    } else {
      FractionIs(cs[..|cs| - 1], total);
      DivideSum(Sum(cs[..|cs| - 1], ByWeight), cs[|cs| - 1].weight, total);
    }
  }

  /** |x| is at most `bound` times `u`. */
  predicate Capped(x: real, bound: real, u: real) { Within(x, bound * u) }

  lemma CappedStep(next: real, nextU: real, share: real, bound: real, u: real, s: real, v: real, conf: real)
    requires Capped(share, bound, u) && Within(s, bound) && v >= 0.0 && IsUnit(conf)
    requires next == share + s * v * conf && nextU == u + v
    ensures Capped(next, bound, nextU)
  {
    StepWithin(share, bound, u, s, v, conf);
  }

  /** |Share| is at most `bound` times the fractions. */
  lemma {:induction false} ShareBound(cs: seq<Child>, total: real, h: Horizon, bound: real)
    requires AllInRange(cs) && total > 0.0
    requires forall i :: 0 <= i < |cs| ==> Within(ScoreAt(cs[i], h), bound)
    ensures Capped(Share(cs, total, h), bound, Fraction(cs, total))
  {
    hide Within, ChildInRange, AllInRange, Capped, ScoreAt;
    if cs == [] {
      ZeroCapped(bound);
    } else {
      var c, front := cs[|cs| - 1], cs[..|cs| - 1];
      LastInRange(cs);
      ShareBound(front, total, h, bound);
      DivideMono(0.0, c.weight, total);
      CappedStep(Share(cs, total, h), Fraction(cs, total), Share(front, total, h), bound, Fraction(front, total),
                 ScoreAt(c, h), c.weight / total, c.confidence);
    }
  }

  lemma LastInRange(cs: seq<Child>)
    requires AllInRange(cs) && cs != []
    ensures var c := cs[|cs| - 1];
            AllInRange(cs[..|cs| - 1]) && c.weight >= 0.0 && IsUnit(c.confidence)
  {
    assert ChildInRange(cs[|cs| - 1]);
  }

  lemma ZeroCapped(bound: real)
    ensures Capped(0.0, bound, 0.0)
  {
  }

  /** A parent's score, at any horizon, never exceeds in absolute value the largest of its
      applicable children's. */
  lemma ParentNeverExceedsChildren(kids: seq<Child>, h: Horizon, bound: real)
    requires AllInRange(kids) && bound >= 0.0
    requires forall i :: 0 <= i < |kids| && !DropsOut(kids[i]) ==> -bound <= ScoreAt(kids[i], h) <= bound
    ensures -bound <= ParentScore(kids, h) <= bound
  {
    hide Sum, Share, Capped, Fraction;
    var app := Applicable(kids);
    var total := Sum(app, ByWeight);
    ApplicableInRange(kids);
    ApplicableStay(kids);
    if !(total <= 0.0 || app == []) {
      ShareBound(app, total, h, bound);
      FractionIs(app, total);
      WholeFraction(total);
      CappedWhole(Share(app, total, h), bound);
    }
  }

  lemma WholeFraction(total: real)
    requires total > 0.0
    ensures total / total == 1.0
  {
  }

  lemma CappedWhole(x: real, bound: real)
    requires Capped(x, bound, 1.0)
    ensures -bound <= x <= bound
  {
  }

  lemma {:induction false} ApplicableStay(cs: seq<Child>)
    ensures forall i :: 0 <= i < |Applicable(cs)| ==> !DropsOut(Applicable(cs)[i])
  {
    if cs != [] {
      ApplicableStay(cs[..|cs| - 1]);
    }
  }

  lemma CoverageIsUnit(kids: seq<Child>)
    requires AllInRange(kids)
    ensures IsUnit(Coverage(kids)) && IsUnit(MissingPenalty(kids))
  {
    hide Sum, Applicable;
    var app := Applicable(kids);
    ApplicableInRange(kids);
    SumBounds(app);
    if Sum(app, ByWeight) > 0.0 {
      QuotientIsUnit(Sum(app, ByUsable), Sum(app, ByWeight));
    }
    if Sum(app, ByUsable) > 0.0 {
      QuotientIsUnit(Sum(app, ByPenalty), Sum(app, ByUsable));
    }
  }

  lemma BaseIsUnit(n: Node, kids: seq<Child>)
    requires InRange(n) && AllInRange(kids)
    ensures IsUnit(BaseConfidence(n, kids))
  {
    hide Sum, Applicable;
    var app := Applicable(kids);
    ApplicableInRange(kids);
    SumBounds(app);
    if app != [] {
      QuotientIsUnit(Sum(app, ByBaseConfidence), |app| as real);
    }
  }

  lemma ParentInRange(n: Node, kids: seq<Child>)
    requires InRange(n) && AllInRange(kids)
    ensures ResultInRange(Aggregated(n, kids)) && ChildInRange(ParentChild(n, Aggregated(n, kids)))
  {
    hide Coverage, MissingPenalty, BaseConfidence, ParentScore, Count;
    WeightNonNegative(n);
    CoverageIsUnit(kids);
    BaseIsUnit(n, kids);
    ParentNeverExceedsChildren(kids, Overall, 1.0);
    ParentNeverExceedsChildren(kids, Short, 0.5);
    ParentNeverExceedsChildren(kids, Medium, 0.5);
    ParentNeverExceedsChildren(kids, Long, 1.6);
    FourUnits(BaseConfidence(n, kids), Coverage(kids), n.quality, MissingPenalty(kids));
  }

  /** Every node's score lies in [-1, 1], its short and medium horizons in [-0.5, 0.5], its long horizon in
      [-1.6, 1.6], its confidence and coverage in [0, 1]. */
  lemma {:induction false} TreeBounded(t: Tree)
    requires TreeInRange(t)
    ensures ResultInRange(Eval(t).result) && ChildInRange(Eval(t).asChild)
    decreases t
  {
    match t
    case Leaf(n) => LeafInRange(n);
    case Parent(n, kids) =>
      forall i | 0 <= i < |kids| ensures ChildInRange(EvalAll(kids)[i]) {
        TreeBounded(kids[i]);
      }
      ParentInRange(n, EvalAll(kids));
  }

  /** Every leaf of the tree keeps its long horizon within 1. */
  predicate NoLeafExceeds(t: Tree)
    decreases t
  {
    match t
    case Leaf(n) => !LongExceeds(n)
    case Parent(_, kids) => forall i :: 0 <= i < |kids| ==> NoLeafExceeds(kids[i])
  }

  /** Then so does every node. */
  lemma {:induction false} LongWithinOne(t: Tree)
    requires TreeInRange(t) && NoLeafExceeds(t)
    ensures -1.0 <= Eval(t).asChild.long <= 1.0 && Eval(t).result.long == Eval(t).asChild.long
    decreases t
  {
    match t
    case Leaf(n) => LongWithinOneExactly(n);
    case Parent(n, kids) =>
      forall i | 0 <= i < |kids| ensures ChildInRange(EvalAll(kids)[i]) && -1.0 <= EvalAll(kids)[i].long <= 1.0 {
        TreeBounded(kids[i]);
        LongWithinOne(kids[i]);
      }
      ParentNeverExceedsChildren(EvalAll(kids), Long, 1.0);
  }
}
