/** What the roll-up means for particular nodes, told from the nodes themselves. */
module ReportInWords {
  import opened Basics
  import opened AggregatorNode
  import opened Rollup
  import opened CompanyTree
  import opened Transparency

  // ---- parents that fall silent ---------------------------------------------------------

  /** Not scored, or N/A, or Inactive. */
  predicate Quiet(c: Child) { !c.scoreEnabled || c.status == NotApplicable || c.status == Inactive }

  predicate AllQuiet(cs: seq<Child>) { forall i :: 0 <= i < |cs| ==> Quiet(cs[i]) }

  predicate SomeScored(cs: seq<Child>, s: Status) {
    exists i :: 0 <= i < |cs| && cs[i].scoreEnabled && cs[i].status == s
  }

  lemma {:induction false} CountIsPositive(cs: seq<Child>, k: Kind)
    ensures CountOf(cs, k) > 0 <==> exists i :: 0 <= i < |cs| && IsKind(cs[i], k)
  {
    hide IsKind;
    if cs != [] {
      var front := cs[..|cs| - 1];
      CountIsPositive(front, k);
      assert forall i :: 0 <= i < |front| ==> front[i] == cs[i];
      if i :| 0 <= i < |front| && IsKind(front[i], k) {
        assert IsKind(cs[i], k);
      }
    }
  }

  /** The status a parent hands upward: its own, as long as some score-enabled child is neither N/A nor
      Inactive; otherwise Inactive if a score-enabled child is, else N/A if one is, else its own. */
  lemma StatusUpward(n: Node, cs: seq<Child>)
    ensures ParentChild(n, Aggregated(n, cs)).status ==
            if !AllQuiet(cs) then n.status
            else if SomeScored(cs, Inactive) then Inactive
            else if SomeScored(cs, NotApplicable) then NotApplicable
            else n.status
  {
    hide CountOf, ParentScore, Coverage, MissingPenalty, BaseConfidence;
    CountIsPositive(cs, KActive);
    CountIsPositive(cs, KUnknown);
    CountIsPositive(cs, KInactive);
    CountIsPositive(cs, KNotApplicable);
    if i :| 0 <= i < |cs| && !Quiet(cs[i]) {
      assert IsKind(cs[i], KActive) || IsKind(cs[i], KUnknown);
    }
  }

  /** The child a node appears as to its parent. */
  function AsChild(t: Tree): Child { Eval(t).asChild }

  /** A scored parent whose children have all gone quiet, some of them by N/A or Inactive, is itself quiet:
      to its own parent it makes no difference except in one counter. */
  lemma SilentParentIsTransparent(p: Node, before: seq<Tree>, q: Node, kids: seq<Tree>, after: seq<Tree>)
    requires q.scoreEnabled && kids != [] && AllQuiet(EvalAll(kids))
    requires SomeScored(EvalAll(kids), NotApplicable) || SomeScored(EvalAll(kids), Inactive)
    ensures var with := Eval(Parent(p, before + [Parent(q, kids)] + after)).result;
            var without := Eval(Parent(p, before + after)).result;
            with == without.(counters :=
                      if SomeScored(EvalAll(kids), Inactive) then without.counters.(inactive := without.counters.inactive + 1)
                      else without.counters.(na := without.counters.na + 1))
  {
    hide Aggregated, ParentChild;
    var c := AsChild(Parent(q, kids));
    EvalParts(Parent(q, kids));
    StatusUpward(q, EvalAll(kids));
    ScoredUpward(q, EvalAll(kids));
    EvalAllConcat(before + [Parent(q, kids)], after);
    EvalAllAppend(before, Parent(q, kids));
    EvalAllConcat(before, after);
    EvalParts(Parent(p, before + [Parent(q, kids)] + after));
    EvalParts(Parent(p, before + after));
    AggregateInsert(p, EvalAll(before), c, EvalAll(after));
  }

  lemma ScoredUpward(n: Node, cs: seq<Child>)
    ensures ParentChild(n, Aggregated(n, cs)).scoreEnabled == n.scoreEnabled
  {
  }

  /** A parent none of whose children can be used scores nothing, covers nothing and is trusted not at all, and
      takes no penalty for it; its base confidence counts for nothing then. */
  lemma NothingUsable(n: Node, cs: seq<Child>)
    requires forall i :: 0 <= i < |cs| ==> Quiet(cs[i]) || (cs[i].status == Unknown && cs[i].weight >= 0.0)
    ensures var r := Aggregated(n, cs); r.dataCoverage == 0.0 && r.confidence == 0.0 && r.missingPenalty == 1.0
    ensures AllQuiet(cs) ==> var r := Aggregated(n, cs); r.score == r.short == r.medium == r.long == 0.0
  {
    hide ParentScore, Sum, CountOf;
    NoUsableSum(cs);
    assert 0.0 * 1.0 == 0.0;
    if AllQuiet(cs) {
      NobodyLeft(cs);
      forall h: Horizon ensures ParentScore(cs, h) == 0.0 {
        NoScore(cs, h);
      }
    }
    NoQuotient(Sum(Applicable(cs), ByWeight));
    NoConfidence(BaseConfidence(n, cs), n.quality);
    hide BaseConfidence;
  }

  lemma NoConfidence(base: real, quality: real)
    ensures base * 0.0 * quality * 1.0 == 0.0
  {
  }

  lemma NoQuotient(x: real)
    ensures x > 0.0 ==> 0.0 / x == 0.0
  {
  }

  lemma NoScore(cs: seq<Child>, h: Horizon)
    requires Applicable(cs) == []
    ensures ParentScore(cs, h) == 0.0
  {
  }

  lemma {:induction false} NobodyLeft(cs: seq<Child>)
    requires AllQuiet(cs)
    ensures Applicable(cs) == []
  {
    if cs != [] {
      assert Quiet(cs[|cs| - 1]);
      NobodyLeft(cs[..|cs| - 1]);
    }
  }

  lemma {:induction false} NoUsableSum(cs: seq<Child>)
    requires forall i :: 0 <= i < |cs| ==> Quiet(cs[i]) || (cs[i].status == Unknown && cs[i].weight >= 0.0)
    ensures Sum(Applicable(cs), ByUsable) == 0.0
  {
    hide Sum, PenalisedWeight;
    EmptyPool();
    if cs != [] {
      var front, c := cs[..|cs| - 1], cs[|cs| - 1];
      NoUsableSum(front);
      assert Quiet(c) || c.status == Unknown;
      SumAppend(Applicable(front), c, ByUsable);
      assert Applicable(front) + [] == Applicable(front);
    }
  }

  /** What a parent hands upward besides its status: its four scores as they are, its own weight and penalty, its
      own confidence as base, and the confidence of its result, a 0 counting as 0.5. */
  lemma ScoresUpward(n: Node, cs: seq<Child>)
    ensures var r := Aggregated(n, cs); var c := ParentChild(n, r);
            && c.score == r.score && c.short == r.short && c.medium == r.medium && c.long == r.long
            && c.weight == EffectiveWeight(n) && c.confidencePenalty == OrOne(n.confidencePenalty)
            && c.confidence == (if r.confidence == 0.0 then 0.5 else r.confidence)
            && (match n.confidence
                case Some(x) => c.baseConfidence == if x == 0.0 then 0.5 else x
                case None => c.baseConfidence == 0.5)
  {
    hide ParentScore, Coverage, MissingPenalty, BaseConfidence, CountOf, EffectiveWeight;
  }

  // ---- one known and one unknown child --------------------------------------------------------

  /** Counted in full. */
  predicate Speaks(c: Child) { c.scoreEnabled && c.status in {Known, LowMateriality, Optionality, Unavailable, Proxy} }

  predicate Blank(c: Child) { c.scoreEnabled && c.status == Unknown }

  lemma SumOfTwo(a: Child, b: Child, m: Measure)
    ensures Sum([a, b], m) == Measured(a, m) + Measured(b, m)
  {
    assert [a, b][..1] == [a] && [a][..0] == [];
    assert Sum([], m) == 0.0;
    assert Sum([a], m) == Measured(a, m);
  }

  lemma ShareOfTwo(a: Child, b: Child, total: real, h: Horizon)
    requires total != 0.0
    ensures Share([a, b], total, h) ==
            ScoreAt(a, h) * (a.weight / total) * a.confidence + ScoreAt(b, h) * (b.weight / total) * b.confidence
  {
    assert [a, b][..1] == [a] && [a][..0] == [];
    assert Share([], total, h) == 0.0;
    assert Share([a], total, h) == ScoreAt(a, h) * (a.weight / total) * a.confidence;
  }

  lemma BothApply(a: Child, b: Child)
    requires !Quiet(a) && !Quiet(b)
    ensures Applicable([a, b]) == [a, b]
  {
    assert [a, b][..1] == [a] && [a][..0] == [];
    assert Applicable([]) == [];
    assert Applicable([a]) == [a];
  }

  /** Two speaking children share by weight, each at its own confidence; coverage is full; the penalty is
      their weighted mean; the base confidence their plain mean. */
  lemma TwoSpeakingChildren(n: Node, a: Child, b: Child)
    requires Speaks(a) && Speaks(b) && a.weight + b.weight > 0.0
    requires a.confidencePenalty != 0.0 && b.confidencePenalty != 0.0
    ensures var r := Aggregated(n, [a, b]); var w := a.weight + b.weight;
            && r.score == a.score * (a.weight / w) * a.confidence + b.score * (b.weight / w) * b.confidence
            && r.short == a.short * (a.weight / w) * a.confidence + b.short * (b.weight / w) * b.confidence
            && r.medium == a.medium * (a.weight / w) * a.confidence + b.medium * (b.weight / w) * b.confidence
            && r.long == a.long * (a.weight / w) * a.confidence + b.long * (b.weight / w) * b.confidence
            && r.dataCoverage == 1.0
            && r.missingPenalty == (a.weight * a.confidencePenalty + b.weight * b.confidencePenalty) / w
            && r.confidence == (a.baseConfidence + b.baseConfidence) / 2.0 * 1.0 * n.quality * r.missingPenalty
            && r.counters.active == 2 && r.counters.unknown == 0
  {
    hide CountOf, IsKind, ParentScore, Coverage, MissingPenalty, BaseConfidence;
    SharesOfTwo(a, b, Overall);
    SharesOfTwo(a, b, Short);
    SharesOfTwo(a, b, Medium);
    SharesOfTwo(a, b, Long);
    PoolOfTwo(n, a, b);
    CountOfTwo(a, b);
  }

  lemma SharesOfTwo(a: Child, b: Child, h: Horizon)
    requires !Quiet(a) && !Quiet(b) && a.weight + b.weight > 0.0
    ensures ParentScore([a, b], h) ==
            ScoreAt(a, h) * (a.weight / (a.weight + b.weight)) * a.confidence + ScoreAt(b, h) * (b.weight / (a.weight + b.weight)) * b.confidence
  {
    hide Sum, Share, Applicable, ScoreAt;
    BothApply(a, b);
    SumOfTwo(a, b, ByWeight);
    ShareOfTwo(a, b, a.weight + b.weight, h);
  }

  lemma PoolOfTwo(n: Node, a: Child, b: Child)
    requires Speaks(a) && Speaks(b) && a.weight + b.weight > 0.0 && a.confidencePenalty != 0.0 && b.confidencePenalty != 0.0
    ensures Coverage([a, b]) == 1.0 && BaseConfidence(n, [a, b]) == (a.baseConfidence + b.baseConfidence) / 2.0
    ensures MissingPenalty([a, b]) == (a.weight * a.confidencePenalty + b.weight * b.confidencePenalty) / (a.weight + b.weight)
  {
    hide Sum, Applicable;
    BothApply(a, b);
    SumOfTwo(a, b, ByWeight);
    SumOfTwo(a, b, ByUsable);
    SumOfTwo(a, b, ByPenalty);
    SumOfTwo(a, b, ByBaseConfidence);
    Whole(a.weight + b.weight);
  }

  lemma Whole(w: real)
    requires w > 0.0
    ensures w / w == 1.0
  {
  }

  lemma CountOfTwo(a: Child, b: Child)
    ensures forall k :: CountOf([a, b], k) == (if IsKind(a, k) then 1 else 0) + (if IsKind(b, k) then 1 else 0)
    ensures Speaks(a) ==> IsKind(a, KActive) && !IsKind(a, KUnknown)
    ensures Speaks(b) ==> IsKind(b, KActive) && !IsKind(b, KUnknown)
    ensures Blank(b) ==> IsKind(b, KUnknown) && !IsKind(b, KActive)
  {
    assert [a, b][..1] == [a] && [a][..0] == [];
    forall k ensures CountOf([a, b], k) == (if IsKind(a, k) then 1 else 0) + (if IsKind(b, k) then 1 else 0) {
      assert CountOf([], k) == 0;
      assert CountOf([a], k) == if IsKind(a, k) then 1 else 0;
    }
  }

  /** An Unknown sibling takes its weight out of the known child's share and out of the coverage, and leaves
      the penalty alone. */
  lemma UnknownChildDilutes(n: Node, a: Child, u: Child)
    requires Speaks(a) && Blank(u) && a.weight > 0.0 && u.weight >= 0.0 && u.score == 0.0 && a.confidencePenalty != 0.0
    ensures var r := Aggregated(n, [a, u]); var w := a.weight + u.weight;
            && r.score == a.score * (a.weight / w) * a.confidence
            && r.dataCoverage == a.weight / w
            && r.missingPenalty == a.confidencePenalty
            && r.counters.active == 1 && r.counters.unknown == 1
            && (r.warning == LowConfidence <==> a.weight / w < OrDefault(n.minRequiredCoverage, 0.5))
  {
    hide Sum, Share, Applicable, CountOf, IsKind;
    BothApply(a, u);
    SumOfTwo(a, u, ByWeight);
    SumOfTwo(a, u, ByUsable);
    SumOfTwo(a, u, ByPenalty);
    SumOfTwo(a, u, ByBaseConfidence);
    ShareOfTwo(a, u, a.weight + u.weight, Overall);
    CountOfTwo(a, u);
    assert 0.0 * (u.weight / (a.weight + u.weight)) * u.confidence == 0.0;
    assert a.weight * a.confidencePenalty / a.weight == a.confidencePenalty;
  }

  // ---- leaves ----------------------------------------------------------------------------------

  /** A leaf with something to say scores direction times magnitude times recency, at its own confidence,
      cut by the penalty if the value is borrowed. */
  lemma SpeakingLeaf(n: Node)
    requires n.scoreEnabled && n.status in {Known, LowMateriality, Optionality, Proxy}
    ensures var r := LeafResult(n);
            && r.score == n.sign * n.value.strength * n.recency
            && r.confidence == n.confidence.GetOr(0.5) * (if n.status == Proxy then OrOne(n.confidencePenalty) else 1.0)
            && r.dataCoverage == 1.0 && r.warning == Normal
            && r.missingPenalty == OrOne(n.confidencePenalty)
  {
  }

  /** What a leaf hands upward: the scores and confidence of its result, its own confidence or 0.5 as base, its
      weight and its penalty. */
  lemma LeafUpward(n: Node)
    ensures var r, c := LeafResult(n), LeafChild(n);
            && c.score == r.score && c.short == r.short && c.medium == r.medium && c.long == r.long
            && c.confidence == r.confidence && c.status == n.status && c.scoreEnabled == n.scoreEnabled
            && c.baseConfidence == (if n.confidence.Some? then n.confidence.value else 0.5)
            && c.weight == EffectiveWeight(n) && c.confidencePenalty == OrOne(n.confidencePenalty)
  {
    hide LeafIntrinsic, LeafConfidence, FutureOption, EffectiveWeight;
  }

  /** A number that is there and not 0, else 1. */
  function OrOne(x: Option<real>): real { if x.Some? && x.value != 0.0 then x.value else 1.0 }

  /** An Unavailable leaf keeps its place with a neutral value: a multiplier counts how far the neutral factor lies
      from 1, whatever the direction, any other leaf the neutral value's size in its direction; at its own
      confidence cut by the penalty. */
  lemma UnavailableLeaf(n: Node, x: real)
    requires n.scoreEnabled && n.status == Unavailable && n.neutralValue == Some(x)
    ensures var r := LeafResult(n);
            && (n.multiplier && 0.0 <= x <= 2.0 ==> r.score == (x - 1.0) * n.recency)
            && (n.multiplier && x > 2.0 ==> r.score == n.recency)
            && (!n.multiplier ==> r.score == n.sign * (if x < 0.0 then -x else x) * n.recency)
            && r.confidence == n.confidence.GetOr(0.5) * OrOne(n.confidencePenalty)
            && r.dataCoverage == 1.0 && r.warning == Normal
  {
  }

  /** A leaf out of the score, or N/A, or Inactive scores nothing and keeps its confidence; N/A covers nothing. */
  lemma SilentLeaf(n: Node)
    requires !n.scoreEnabled || n.status == NotApplicable || n.status == Inactive
    ensures var r := LeafResult(n);
            && r.score == r.short == r.medium == 0.0 && r.confidence == n.confidence.GetOr(0.5)
            && (r.dataCoverage == 0.0 <==> n.status == NotApplicable || n.status == Unknown)
            && (n.status != Optionality ==> r.long == 0.0)
  {
  }

  /** The text has one of these words in it, in any case. */
  ghost predicate HasWord(words: seq<string>, text: string) {
    exists w: string, a: string, b: string :: w in words && text == a + Lower(w) + b
  }

  lemma HasWordIs(words: seq<string>, text: string)
    ensures HasWord(words, text) <==> Mentions(words, text)
  {
    hide Lower, Contains;
    if HasWord(words, text) {
      var w: string, a: string, b: string :| w in words && text == a + Lower(w) + b;
      var i :| 0 <= i < |words| && words[i] == w;
      Inside(a, Lower(w), b);
    }
    if Mentions(words, text) {
      var i :| 0 <= i < |words| && Contains(text, Lower(words[i]));
      var a, b := Around(text, Lower(words[i]));
      assert words[i] in words;
    }
  }

  lemma Inside(a: string, p: string, b: string)
    ensures Contains(a + p + b, p)
  {
    assert (a + p + b)[|a|..] == p + b;
  }

  lemma Around(text: string, p: string) returns (a: string, b: string)
    requires Contains(text, p)
    ensures text == a + p + b
  {
    var k :| 0 <= k <= |text| && StartsWith(text[k..], p);
    a, b := text[..k], text[k + |p|..];
    assert text[k..] == p + b;
  }

  /** How a leaf's score splits over the horizons, by the words in its dp_id and name: half of it is short where a
      short word occurs, else 0.6 long where a long one does, else half medium where a medium one does. */
  lemma HorizonWords(n: RawNode)
    requires ReadNode(n).status != Optionality
    ensures var text, r := Lower(n.dpId + " " + n.nodeName), LeafResult(ReadNode(n));
            if HasWord(SHORT_KEYWORDS, text) then r.short == r.score * 0.5 && r.medium == r.score * 0.3 && r.long == r.score * 0.2
            else if HasWord(LONG_KEYWORDS, text) then r.short == r.score * 0.1 && r.medium == r.score * 0.3 && r.long == r.score * 0.6
            else if HasWord(MEDIUM_KEYWORDS, text) then r.short == r.score * 0.2 && r.medium == r.score * 0.5 && r.long == r.score * 0.3
            else r.short == r.score * 0.33 && r.medium == r.score * 0.34 && r.long == r.score * 0.33
  {
    hide HasWord, Mentions, Lower, LeafIntrinsic, LeafConfidence, SHORT_KEYWORDS, LONG_KEYWORDS, MEDIUM_KEYWORDS;
    hide NodeStatus, ReadPayload, IsMultiplier, ScoreEnabled, Factor, DirectionSign;
    var text := Lower(n.dpId + " " + n.nodeName);
    HasWordIs(SHORT_KEYWORDS, text);
    HasWordIs(LONG_KEYWORDS, text);
    HasWordIs(MEDIUM_KEYWORDS, text);
  }

  /** An Optionality leaf adds its option value, by its size and the leaf's direction, to the long horizon alone. */
  lemma OptionIsLong(n: Node, x: real, tanhYoy: real, cells: map<string, Cell>)
    requires n.status == Optionality && n.value == ReadPayload(VDict(cells["future_option_value" := CNum(x)], tanhYoy))
    ensures var r, plain := LeafResult(n), LeafResult(n.(status := Known));
            && r.score == plain.score && r.short == plain.short && r.medium == plain.medium
            && r.long == plain.long + n.sign * ToScalar(VNum(x)) * n.recency
  {
    hide ToScalar;
    ClippedAbs(x);
  }

  lemma ClippedAbs(x: real)
    ensures ToScalar(VNum(x)) == Abs(Clip(x, -1.0, 1.0))
  {
  }

  /** An Unknown leaf scores nothing, whatever value it carries, is trusted at most 0.3, and covers nothing. */
  lemma UnknownLeaf(n: Node)
    requires n.scoreEnabled && n.status == Unknown
    ensures var r := LeafResult(n);
            && r.score == r.short == r.medium == r.long == 0.0
            && r.confidence <= 0.3 && r.confidence <= n.confidence.GetOr(0.5)
            && (r.confidence == 0.3 || r.confidence == n.confidence.GetOr(0.5))
            && r.dataCoverage == 0.0
            && (n.minRequiredCoverage.None? || n.minRequiredCoverage.value >= 0.0 ==> r.warning == LowConfidence)
  {
  }

  /** Effective weight is a product in which a missing factor is 1: scaling any one factor scales it. */
  lemma WeightScales(n: Node, x: real, base: real, active: real, materiality: real)
    requires n.baseWeight == Some(base) && n.activeWeight == Some(active) && n.materiality == Some(materiality)
    ensures EffectiveWeight(n.(baseWeight := Some(x * base))) == x * EffectiveWeight(n)
    ensures EffectiveWeight(n.(activeWeight := Some(x * active))) == x * EffectiveWeight(n)
    ensures EffectiveWeight(n.(materiality := Some(x * materiality))) == x * EffectiveWeight(n)
    ensures EffectiveWeight(n.(activeWeight := None, materiality := None)) == base
    ensures EffectiveWeight(n.(baseWeight := None, activeWeight := None)) == materiality
    ensures LeafChild(n).weight == EffectiveWeight(n)
  {
    hide LeafIntrinsic, LeafConfidence, FutureOption;
  }

  /** A number says how strong a signal is, up to 1, and never which way it points; what is neither a number nor a
      dictionary says nothing. */
  lemma MagnitudeOfNumber(x: real)
    ensures ToScalar(VNum(x)) == ToScalar(VNum(-x))
    ensures ToScalar(VNum(x)) == if Abs(x) <= 1.0 then Abs(x) else 1.0
    ensures ToScalar(VNull) == 0.0 && ToScalar(VOther) == 0.0
  {
  }

  /** A numeric score settles a dictionary's magnitude, whatever else it holds; then an intensity, then a
      strength, then growth through its squashed form. */
  lemma FiguresSettleMagnitude(cells: map<string, Cell>, tanhYoy: real, x: real)
    ensures NumberAt(cells, "score") == Some(x) ==> ToScalar(VDict(cells, tanhYoy)) == ToScalar(VNum(x))
    ensures NumberAt(cells, "score") == None && NumberAt(cells, "intensity") == Some(x) ==> ToScalar(VDict(cells, tanhYoy)) == ToScalar(VNum(x))
    ensures NumberAt(cells, "score") == None && NumberAt(cells, "intensity") == None && NumberAt(cells, "strength") == Some(x) ==>
              ToScalar(VDict(cells, tanhYoy)) == ToScalar(VNum(x))
    ensures NumberAt(cells, "score") == None && NumberAt(cells, "intensity") == None && NumberAt(cells, "strength") == None
            && NumberAt(cells, "yoy_pct") == Some(x) ==>
              ToScalar(VDict(cells, tanhYoy)) == ToScalar(VNum(tanhYoy))
  {
    hide MagnitudeOf, TrendOf, Lower, NumberAt;
  }

  /** A cell counts as a number if it is one, or is text that parses as one. */
  lemma CellsAsNumbers(cells: map<string, Cell>, key: string)
    ensures forall x :: key in cells && cells[key] == CNum(x) ==> NumberAt(cells, key) == Some(x)
    ensures forall t, x :: key in cells && cells[key] == CText(t, Some(x)) ==> NumberAt(cells, key) == Some(x)
    ensures (key !in cells || cells[key] == CNull || cells[key] == COther || (exists t :: cells[key] == CText(t, None))) <==> NumberAt(cells, key) == None
  {
  }

  /** The words a dictionary may use for its magnitude, and what they are worth. */
  predicate Magnitude(word: string, x: real) {
    || (word == "strong" && x == 0.8) || (word == "high" && x == 0.8)
    || (word == "moderate" && x == 0.5) || (word == "medium" && x == 0.5)
    || (word == "weak" && x == 0.3) || (word == "low" && x == 0.3)
    || (word == "none" && x == 0.0)
  }

  /** The words for a trend, and how strong a signal each is; which way it goes is left to the direction. */
  predicate Trend(word: string, x: real) {
    || (word == "up" && x == 1.0) || (word == "up_strong" && x == 1.0) || (word == "up_moderate" && x == 0.6)
    || (word == "mixed" && x == 0.3) || (word == "flat" && x == 0.0) || (word == "stable" && x == 0.0)
    || (word == "down" && x == 1.0) || (word == "down_strong" && x == 1.0) || (word == "down_moderate" && x == 0.6)
  }

  /** No number under the four keys that come first. */
  predicate NoFigure(cells: map<string, Cell>) {
    && NumberAt(cells, "score") == None && NumberAt(cells, "intensity") == None
    && NumberAt(cells, "strength") == None && NumberAt(cells, "yoy_pct") == None
  }

  predicate Says(cells: map<string, Cell>, key: string, word: string) {
    key in cells && cells[key].CText? && Lower(cells[key].text) == word
  }

  /** Where no figure speaks, a known magnitude word does, in any case; an unknown one is as good as none, and
      then a trend word does. */
  lemma WordsSettleMagnitude(cells: map<string, Cell>, tanhYoy: real, word: string, x: real)
    requires NoFigure(cells)
    ensures Says(cells, "magnitude", word) && Magnitude(word, x) ==> ToScalar(VDict(cells, tanhYoy)) == x
    ensures (forall w, y :: Says(cells, "magnitude", w) ==> !Magnitude(w, y)) && Says(cells, "trend", word) && Trend(word, x) ==>
              ToScalar(VDict(cells, tanhYoy)) == x
  {
    hide Lower, NumberAt;
    if Says(cells, "magnitude", word) && Magnitude(word, x) {
      assert MagnitudeOf(word) == Some(x);
    }
    if TextAt(cells, "magnitude").Some? {
      var w := TextAt(cells, "magnitude").value;
      assert Says(cells, "magnitude", w);
      if MagnitudeOf(w).Some? {
        assert Magnitude(w, MagnitudeOf(w).value);
      }
    }
    if Says(cells, "trend", word) && Trend(word, x) {
      assert Abs(TrendOf(word).GetOr(0.0)) == x && TrendOf(word).Some?;
    }
  }

  /** Where neither a figure nor a word speaks, the option value does, then the current contribution, by size;
      after that nothing is left. */
  lemma OptionSettlesMagnitude(cells: map<string, Cell>, tanhYoy: real)
    requires NoFigure(cells) && "magnitude" !in cells && "trend" !in cells
    ensures ToScalar(VDict(cells, tanhYoy)) ==
            if "future_option_value" in cells && cells["future_option_value"].CNum? then ToScalar(VNum(cells["future_option_value"].num))
            else if "current_contribution" in cells && cells["current_contribution"].CNum? then ToScalar(VNum(cells["current_contribution"].num))
            else 0.0
  {
    hide NumberAt, Lower;
  }

  /** A node takes part in the score if it says so, and otherwise unless its role is one of seven. */
  lemma TakesPartExactly(n: RawNode)
    ensures ReadNode(n).scoreEnabled <==>
            match n.participates
            case Some(b) => b
            case None => n.fieldRole.GetOr("") !in {"identity", "structure", "raw_input", "missing_control", "evidence", "display", "audit"}
  {
    hide NodeStatus, ReadPayload, ClassifyHorizon, IsMultiplier, Factor, DirectionSign;
  }

  /** A node is a multiplier by its role or by its target, either one. */
  lemma MultiplierBy(n: RawNode)
    ensures n.fieldRole == Some("multiplier") ==> ReadNode(n).multiplier
    ensures n.scoreTarget.Some? && n.scoreTarget.value in MULTIPLIER_TARGETS ==> ReadNode(n).multiplier
    ensures n.fieldRole != Some("multiplier") && n.scoreTarget.GetOr("") !in MULTIPLIER_TARGETS ==> !ReadNode(n).multiplier
  {
    hide NodeStatus, ReadPayload, ClassifyHorizon, ScoreEnabled, Factor, DirectionSign, MULTIPLIER_TARGETS;
  }

  /** Direction by its word, in any case. */
  lemma DirectionWords(n: RawNode)
    ensures Lower(n.direction) == "positive" ==> ReadNode(n).sign == 1.0
    ensures Lower(n.direction) == "negative" ==> ReadNode(n).sign == -1.0
    ensures Lower(n.direction) != "positive" && Lower(n.direction) != "negative" ==> ReadNode(n).sign == 0.0
  {
    hide NodeStatus, ReadPayload, ClassifyHorizon, IsMultiplier, ScoreEnabled, Factor, Lower;
  }

  /** Evidence quality: its number, its word (spelt with a space or a low line), or 1 when there is none. */
  lemma QualityWords(n: RawNode)
    ensures n.evidenceQuality == QText("very low") || n.evidenceQuality == QText("very_low") ==> ReadNode(n).quality == 0.2
    ensures n.evidenceQuality == QText("very high") ==> ReadNode(n).quality == 1.0
    ensures n.evidenceQuality == QMissing ==> ReadNode(n).quality == 1.0
    ensures n.evidenceQuality.QNum? ==> ReadNode(n).quality == n.evidenceQuality.num
    ensures n.evidenceQuality == QText("low") || n.evidenceQuality == QText("weak") ==> ReadNode(n).quality == 0.4
    ensures n.evidenceQuality == QText("medium") || n.evidenceQuality == QText("moderate") ==> ReadNode(n).quality == 0.7
    ensures n.evidenceQuality == QText("high") || n.evidenceQuality == QText("strong") ==> ReadNode(n).quality == 0.9
  {
    hide NodeStatus, ReadPayload, ClassifyHorizon, IsMultiplier, ScoreEnabled, DirectionSign, Factor;
    LowQuality();
    MediumQuality();
    HighQuality();
    VeryQuality();
    VeryHighQuality();
    NoQuality(n.evidenceQuality);
  }

  lemma NoQuality(q: Quality)
    ensures q == QMissing ==> Factor(q, 1.0) == 1.0
    ensures q.QNum? ==> Factor(q, 1.0) == q.num
  {
  }

  lemma PlainKey(w: string)
    requires forall i :: 0 <= i < |w| ==> 'a' <= w[i] <= 'z'
    ensures seq(|w|, i requires 0 <= i < |w| => if w[i] == ' ' then '_' else LowerChar(w[i])) == w
  {
  }

  /** A word in small letters is looked up as it is. */
  lemma PlainWord(w: string)
    requires Strip(w) == w && forall i :: 0 <= i < |w| ==> 'a' <= w[i] <= 'z'
    ensures Factor(QText(w), 1.0) == FactorOf(w, 1.0)
  {
    hide Strip, LowerChar, FactorOf;
    PlainKey(w);
  }

  lemma LowQuality()
    ensures Factor(QText("low"), 1.0) == 0.4 && Factor(QText("weak"), 1.0) == 0.4
  {
    hide Factor;
    assert Strip("low") == "low" && Strip("weak") == "weak";
    PlainWord("low");
    PlainWord("weak");
  }

  lemma MediumQuality()
    ensures Factor(QText("medium"), 1.0) == 0.7 && Factor(QText("moderate"), 1.0) == 0.7
  {
    hide Factor;
    assert Strip("medium") == "medium" && Strip("moderate") == "moderate";
    PlainWord("medium");
    PlainWord("moderate");
  }

  lemma HighQuality()
    ensures Factor(QText("high"), 1.0) == 0.9 && Factor(QText("strong"), 1.0) == 0.9
  {
    hide Factor;
    assert Strip("high") == "high" && Strip("strong") == "strong";
    assert "high" != "weak" && "strong" != "medium" && "high"[0] != "weak"[0] && "strong"[0] != "medium"[0];
    PlainWord("high");
    PlainWord("strong");
  }

  lemma VeryQuality()
    ensures Factor(QText("very low"), 1.0) == 0.2 && Factor(QText("very_low"), 1.0) == 0.2
  {
    assert Strip("very low") == "very low" && Strip("very_low") == "very_low";
  }

  lemma VeryHighQuality()
    ensures Factor(QText("very high"), 1.0) == 1.0
  {
    assert Strip("very high") == "very high";
  }

  lemma StatusTexts(n: RawNode)
    ensures n.dataStatus == "Known" ==> NodeStatus(n) == Known
    ensures n.dataStatus == "Unknown" ==> NodeStatus(n) == Unknown
  {
    assert Strip("Known") == "Known" && Strip("Unknown") == "Unknown";
    assert Lower("Known") == "known" && Lower("Unknown") == "unknown";
  }

  lemma DropOutStatusTexts(n: RawNode)
    ensures n.dataStatus == "N/A" ==> NodeStatus(n) == NotApplicable
    ensures n.dataStatus == "Inactive" ==> NodeStatus(n) == Inactive
  {
    assert Strip("N/A") == "N/A" && Strip("Inactive") == "Inactive";
    assert Lower("N/A") == "n/a" && Lower("Inactive") == "inactive";
  }

  lemma UnavailableText(n: RawNode)
    ensures n.dataStatus == "Unavailable" ==> NodeStatus(n) == Unavailable
  {
    assert Strip("Unavailable") == "Unavailable";
    assert Lower("Unavailable") == "unavailable";
  }

  lemma ProxyText(n: RawNode)
    ensures n.dataStatus == "Proxy" ==> NodeStatus(n) == Proxy
  {
    assert Strip("Proxy") == "Proxy";
    assert Lower("Proxy") == "proxy";
  }

  lemma OptionStatusText(n: RawNode)
    ensures n.dataStatus == "Optionality" ==> NodeStatus(n) == Optionality
  {
    assert Strip("Optionality") == "Optionality";
    assert Lower("Optionality") == "optionality";
  }

  lemma LowStatusText(n: RawNode)
    ensures n.dataStatus == "Low Materiality" ==> NodeStatus(n) == LowMateriality
  {
    assert Strip("Low Materiality") == "Low Materiality";
    assert Lower("Low Materiality") == "low materiality";
  }

  /** How a node's status reads off its text. */
  lemma StatusWords(n: RawNode)
    ensures n.dataStatus == "Known" ==> NodeStatus(n) == Known
    ensures n.dataStatus == "Unknown" ==> NodeStatus(n) == Unknown
    ensures n.dataStatus == "N/A" ==> NodeStatus(n) == NotApplicable
    ensures n.dataStatus == "Inactive" ==> NodeStatus(n) == Inactive
    ensures n.dataStatus == "Unavailable" ==> NodeStatus(n) == Unavailable
    ensures n.dataStatus == "Proxy" ==> NodeStatus(n) == Proxy
    ensures n.dataStatus == "Optionality" ==> NodeStatus(n) == Optionality
    ensures n.dataStatus == "Low Materiality" ==> NodeStatus(n) == LowMateriality
    ensures n.dataStatus == "" ==> NodeStatus(n) == NodeStatus(n.(dataStatus := n.status))
  {
    StatusTexts(n);
    DropOutStatusTexts(n);
    UnavailableText(n);
    ProxyText(n);
    OptionStatusText(n);
    LowStatusText(n);
    hide NodeStatus;
    OldStatus(n);
  }

  /** Nor does white space around the text matter. */
  lemma StatusPadded(n: RawNode, a: string, text: string, b: string)
    requires White(a) && White(b) && text != ""
    ensures NodeStatus(n.(dataStatus := a + text + b)) == NodeStatus(n.(dataStatus := text))
  {
    hide Strip, Lower;
    StripPadded(a, text, b);
  }

  lemma OldStatus(n: RawNode)
    ensures n.dataStatus == "" ==> NodeStatus(n) == NodeStatus(n.(dataStatus := n.status))
  {
    hide Strip, Lower;
  }
}
