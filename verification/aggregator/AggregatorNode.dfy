/** Overlay nodes as the aggregator sees them.

    A `RawNode` holds the fields of the overlay dictionary; `ReadNode` is the text
    classification the aggregator applies to one node (status, direction, field role,
    horizon keywords, value payload). What is left, a `Node`, carries only the
    classified facts and the numbers, so the scoring laws do not depend on spelling.

    `recency` and the hyperbolic tangent of a year-on-year figure enter as given
    numbers (`RawNode.recency`, `VDict.tanhYoy`). */
module AggregatorNode {
  import opened Basics

  /** A value inside a payload dictionary. `asNum` is what `float(text)` gives, if it parses. */
  datatype Cell = CNull | CNum(num: real) | CText(text: string, asNum: Option<real>) | COther

  datatype RawPayload = VNull | VNum(num: real) | VDict(cells: map<string, Cell>, tanhYoy: real) | VOther

  datatype Quality = QMissing | QNum(num: real) | QText(text: string)

  /** Absent strings are "", but for the fields a governance rule fills in when they are absent. `dated`:
      there is a time stamp; `inherits`: the node asks for its industry's value. */
  datatype RawNode = RawNode(
    nodeId: string, dpId: string, nodeName: string, parentNode: string,
    dataStatus: string, status: string, direction: string,
    value: RawPayload, confidence: Option<real>, dated: bool, recency: real, inherits: bool,
    participates: Option<bool>, fieldRole: Option<string>, scoreTarget: Option<string>,
    proxyCandidates: Option<seq<string>>,
    neutralValue: Option<real>, confidencePenalty: Option<real>,
    minRequiredCoverage: Option<real>, evidenceQuality: Quality,
    baseWeight: Option<real>, activeWeight: Option<real>, materiality: Option<real>)

  datatype Status =
    Known | Unknown | Unavailable | Proxy | Inactive | NotApplicable | Optionality | LowMateriality

  /** -1, 0 or 1. */
  type Sign = r: real | r == 1.0 || r == 0.0 || r == -1.0

  /** A magnitude in [0, 1]. */
  type Unit = r: real | 0.0 <= r <= 1.0

  datatype MixShares = Mix(short: real, medium: real, long: real)

  /** Three positive shares of one whole; no mix in use gives more than a half to the short or medium
      horizon, or more than 0.6 to the long one. */
  type Mix = m: MixShares | m.short + m.medium + m.long == 1.0 && 0.0 < m.short <= 0.5 && 0.0 < m.medium <= 0.5 && 0.0 < m.long <= 0.6
    witness Mix(0.5, 0.3, 0.2)

  /** A classified value: the raw payload, its magnitude, and the magnitude of a dictionary's
      numeric `future_option_value`. */
  datatype Payload = Payload(raw: RawPayload, strength: Unit, future: Option<Unit>)

  datatype Node = Node(
    nodeId: string, dpId: string, parentNode: string,
    status: Status, sign: Sign, value: Payload, confidence: Option<real>, recency: real,
    scoreEnabled: bool, multiplier: bool, mix: Mix,
    proxyCandidates: seq<string>, proxyUsed: Option<(string, string)>,
    neutralValue: Option<real>, confidencePenalty: Option<real>,
    minRequiredCoverage: Option<real>, quality: real,
    baseWeight: Option<real>, activeWeight: Option<real>, materiality: Option<real>)

  function NodeStatus(n: RawNode): Status {
    var raw := Lower(Strip(if n.dataStatus != "" then n.dataStatus else n.status));
    if raw == "inactive" then Inactive
    else if raw in ["n/a", "na", "not_applicable", "not applicable"] then NotApplicable
    else if raw == "unknown" then Unknown
    else if raw == "unavailable" then Unavailable
    else if raw == "proxy" then Proxy
    else if raw == "optionality" then Optionality
    else if raw in ["low materiality", "low_materiality"] then LowMateriality
    else if raw == "known" then Known
    else Unknown
  }

  const NON_SCORING_ROLES: seq<string> :=
    ["identity", "structure", "raw_input", "missing_control", "evidence", "display", "audit"]

  predicate ScoreEnabled(n: RawNode) {
    if n.participates.Some? then n.participates.value
    else n.fieldRole.GetOr("") !in NON_SCORING_ROLES
  }

  const MULTIPLIER_TARGETS: seq<string> :=
    ["multiplier_stack", "funding_multiplier", "theme_multiplier", "sentiment_multiplier",
     "policy_sensitivity_multiplier", "market_regime_multiplier", "reflexivity_multiplier",
     "liquidity_multiplier", "options_momentum_multiplier", "gamma_multiplier",
     "valuation_sensitivity_multiplier", "rate_sensitivity_multiplier",
     "narrative_sensitivity_multiplier"]

  predicate IsMultiplier(n: RawNode) {
    n.fieldRole == Some("multiplier") || n.scoreTarget.GetOr("") in MULTIPLIER_TARGETS
  }

  function DirectionSign(direction: string): Sign {
    var d := Lower(direction);
    if d == "positive" then 1.0 else if d == "negative" then -1.0 else 0.0
  }

  function FactorOf(key: string, default: real): real {
    if key == "very_low" then 0.2
    else if key == "low" || key == "weak" then 0.4
    else if key == "medium" || key == "moderate" then 0.7
    else if key == "high" || key == "strong" then 0.9
    else if key == "very_high" then 1.0
    else default
  }

  /** `_factor`. */
  function Factor(q: Quality, default: real): real {
    match q
    case QMissing => default
    case QNum(x) => x
    case QText(t) =>
      var trimmed := Strip(t);
      FactorOf(seq(|trimmed|, i requires 0 <= i < |trimmed| => if trimmed[i] == ' ' then '_' else LowerChar(trimmed[i])), default)
  }

  function MagnitudeOf(text: string): Option<real> {
    if text == "strong" || text == "high" then Some(0.8)
    else if text == "moderate" || text == "medium" then Some(0.5)
    else if text == "weak" || text == "low" then Some(0.3)
    else if text == "none" then Some(0.0)
    else None
  }

  function TrendOf(text: string): Option<real> {
    if text == "up" || text == "up_strong" then Some(1.0)
    else if text == "up_moderate" then Some(0.6)
    else if text == "mixed" then Some(0.3)
    else if text == "flat" || text == "stable" then Some(0.0)
    else if text == "down" || text == "down_strong" then Some(-1.0)
    else if text == "down_moderate" then Some(-0.6)
    else None
  }

  function CellNumber(c: Cell): Option<real> {
    match c
    case CNum(x) => Some(x)
    case CText(_, n) => n
    case _ => None
  }

  function NumberAt(cells: map<string, Cell>, key: string): Option<real> {
    if key in cells then CellNumber(cells[key]) else None
  }

  function TextAt(cells: map<string, Cell>, key: string): Option<string> {
    if key in cells && cells[key].CText? then Some(Lower(cells[key].text)) else None
  }

  predicate IsNumberAt(cells: map<string, Cell>, key: string) {
    key in cells && cells[key].CNum?
  }

  /** `_to_scalar`: how strong the signal is; the sign lives in `direction`. */
  function ToScalar(v: RawPayload): Unit {
    match v
    case VNull => 0.0
    case VOther => 0.0
    case VNum(x) => Abs(Clip(x, -1.0, 1.0))
    case VDict(cells, tanhYoy) =>
      if NumberAt(cells, "score").Some? then Abs(Clip(NumberAt(cells, "score").value, -1.0, 1.0))
      else if NumberAt(cells, "intensity").Some? then Abs(Clip(NumberAt(cells, "intensity").value, -1.0, 1.0))
      else if NumberAt(cells, "strength").Some? then Abs(Clip(NumberAt(cells, "strength").value, -1.0, 1.0))
      else if NumberAt(cells, "yoy_pct").Some? then Abs(Clip(tanhYoy, -1.0, 1.0))
      else if TextAt(cells, "magnitude").Some? && MagnitudeOf(TextAt(cells, "magnitude").value).Some? then
        MagnitudeOf(TextAt(cells, "magnitude").value).value
      else if TextAt(cells, "trend").Some? && TrendOf(TextAt(cells, "trend").value).Some? then
        Abs(TrendOf(TextAt(cells, "trend").value).value)
      else if IsNumberAt(cells, "future_option_value") then Abs(Clip(cells["future_option_value"].num, -1.0, 1.0))
      else if IsNumberAt(cells, "current_contribution") then Abs(Clip(cells["current_contribution"].num, -1.0, 1.0))
      else 0.0
  }

  // ---- horizon mix --------------------------------------------------------

  const SHORT_KEYWORDS: seq<string> :=
    ["事件", "资金", "情绪", "成交量", "拥挤", "已定价", "买盘", "卖盘",
     "净流入", "换手", "期权", "大盘", "whisper", "预期差",
     "L5.", "L6.", "L7.", "L8.priced", "L8.val", "flow", "trade",
     "crowd", "surprise", "priced", "netbuy"]

  const MEDIUM_KEYWORDS: seq<string> :=
    ["订单", "销量", "价格", "毛利率", "收入", "指引", "EPS", "景气",
     "客户结构", "渠道", "产品", "交付", "转化率", "留存率", "客流",
     "复购", "份额", "招标",
     "L3.", "L4.", "L9.", "earnings", "revenue", "margin", "guidance",
     "product", "channel", "customer", "delivery", "volume", "share"]

  const LONG_KEYWORDS: seq<string> :=
    ["空间", "竞争格局", "商业模式", "技术壁垒", "品牌壁垒", "长期利润",
     "替代", "护城河", "新业务", "潜在", "可选", "渗透率", "TAM",
     "替换周期",
     "L0.", "L1.", "L2.", "L10.", "L11.long", "tam", "moat", "newbiz",
     "lifecycle", "penetration"]

  predicate Mentions(table: seq<string>, haystack: string) {
    exists i :: 0 <= i < |table| && Contains(haystack, Lower(table[i]))
  }

  const SHORT_MIX: Mix := Mix(0.5, 0.3, 0.2)
  const LONG_MIX: Mix := Mix(0.1, 0.3, 0.6)
  const MEDIUM_MIX: Mix := Mix(0.2, 0.5, 0.3)
  const DEFAULT_MIX: Mix := Mix(0.33, 0.34, 0.33)

  /** `_classify_horizon`: short beats long beats medium. */
  function ClassifyHorizon(dpId: string, nodeName: string): Mix {
    var haystack := Lower(dpId + " " + nodeName);
    if Mentions(SHORT_KEYWORDS, haystack) then SHORT_MIX
    else if Mentions(LONG_KEYWORDS, haystack) then LONG_MIX
    else if Mentions(MEDIUM_KEYWORDS, haystack) then MEDIUM_MIX
    else DEFAULT_MIX
  }

  function ReadPayload(v: RawPayload): Payload {
    Payload(v, ToScalar(v),
            if v.VDict? && IsNumberAt(v.cells, "future_option_value")
            then Some(Abs(Clip(v.cells["future_option_value"].num, -1.0, 1.0)))
            else None)
  }

  function ReadNode(n: RawNode): Node {
    Node(n.nodeId, n.dpId, n.parentNode, NodeStatus(n), DirectionSign(n.direction), ReadPayload(n.value),
         n.confidence, n.recency, ScoreEnabled(n), IsMultiplier(n), ClassifyHorizon(n.dpId, n.nodeName),
         n.proxyCandidates.GetOr([]), None, n.neutralValue, n.confidencePenalty, n.minRequiredCoverage,
         Factor(n.evidenceQuality, 1.0), n.baseWeight, n.activeWeight, n.materiality)
  }

  // ---- leaf score ---------------------------------------------------------

  /** What a node hands to its parent (the `child_payload` entry). */
  datatype Child = Child(
    status: Status, weight: real, score: real, short: real, medium: real, long: real,
    confidence: real, baseConfidence: real, scoreEnabled: bool, confidencePenalty: real)

  function EffectiveWeight(n: Node): real {
    n.baseWeight.GetOr(1.0) * n.activeWeight.GetOr(1.0) * n.materiality.GetOr(1.0)
  }

  /** direction x magnitude x recency. */
  function Signal(sign: Sign, magnitude: real, recency: real): real {
    sign * magnitude * recency
  }

  function LeafIntrinsic(n: Node): real {
    if !n.scoreEnabled then 0.0
    else match n.status
      case Inactive => 0.0
      case NotApplicable => 0.0
      case Unknown => 0.0
      case Unavailable =>
        var neutral := OrDefault(n.neutralValue, 0.0);
        if n.multiplier then Clip(neutral - 1.0, -1.0, 1.0) * n.recency
        else Signal(n.sign, Abs(neutral), n.recency)
      case _ => Signal(n.sign, n.value.strength, n.recency)
  }

  function LeafConfidence(n: Node): real {
    var c := n.confidence.GetOr(0.5);
    if !n.scoreEnabled then c
    else match n.status
      case Unknown => Min(c, 0.3)
      case Unavailable => c * OrDefault(n.confidencePenalty, 1.0)
      case Proxy => c * OrDefault(n.confidencePenalty, 1.0)
      case _ => c
  }

  /** The future option value of an Optionality leaf; it lands in the long horizon only. */
  function FutureOption(n: Node): real {
    if n.status == Optionality && n.value.future.Some? then Signal(n.sign, n.value.future.value, n.recency) else 0.0
  }

  function LeafChild(n: Node): Child {
    var s := LeafIntrinsic(n);
    Child(n.status, EffectiveWeight(n), s, s * n.mix.short, s * n.mix.medium,
          s * n.mix.long + FutureOption(n), LeafConfidence(n), n.confidence.GetOr(0.5),
          n.scoreEnabled, OrDefault(n.confidencePenalty, 1.0))
  }
}
