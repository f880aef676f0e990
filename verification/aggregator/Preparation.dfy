/** What happens to the overlay's nodes before the pass: governance fills in missing fields, and nodes
    that ask for it inherit from the industry overlay. */
module Preparation {
  import opened Basics
  import opened AggregatorNode

  // ---- governance ---------------------------------------------------------------------

  /** The fields of a governance rule the aggregator reads. */
  datatype Rule = Rule(fieldRole: string, scoreTarget: string, participates: bool, proxyCandidates: seq<string>,
                       minRequiredCoverage: real, neutralValue: real, confidencePenalty: real)

  function Filled<T>(own: Option<T>, rule: T): Option<T> { if own.Some? then own else Some(rule) }

  /** `FieldGovernanceRegistry.apply_to_node`, without overwriting. */
  function Governed(n: RawNode, rules: map<string, Rule>): RawNode {
    if n.dpId == "" || n.dpId !in rules then n
    else
      var r := rules[n.dpId];
      n.(fieldRole := Filled(n.fieldRole, r.fieldRole), scoreTarget := Filled(n.scoreTarget, r.scoreTarget),
         participates := Filled(n.participates, r.participates),
         proxyCandidates := Filled(n.proxyCandidates, r.proxyCandidates),
         minRequiredCoverage := Filled(n.minRequiredCoverage, r.minRequiredCoverage),
         neutralValue := Filled(n.neutralValue, r.neutralValue),
         confidencePenalty := Filled(n.confidencePenalty, r.confidencePenalty))
  }

  // ---- inheritance ----------------------------------------------------------------------

  /** `value in (None, {})`. */
  predicate Blank(v: RawPayload) { v.VNull? || (v.VDict? && v.cells == map[]) }

  /** The last industry node with that dp_id. */
  function IndustryNode(industry: seq<RawNode>, dp: string): Option<RawNode> {
    if industry == [] || dp == "" then None
    else if industry[|industry| - 1].dpId == dp then Some(industry[|industry| - 1])
    else IndustryNode(industry[..|industry| - 1], dp)
  }

  function InheritedFrom(n: RawNode, src: RawNode): RawNode {
    n.(value := src.value,
       confidence := if n.confidence.Some? then n.confidence else src.confidence,
       dated := n.dated || src.dated, recency := if n.dated then n.recency else src.recency,
       dataStatus := if NodeStatus(n) == Unknown && src.value != VNull then "Known" else n.dataStatus)
  }

  function Inherited(n: RawNode, industry: seq<RawNode>): RawNode {
    var src := IndustryNode(industry, n.dpId);
    if n.inherits && Blank(n.value) && src.Some? then InheritedFrom(n, src.value) else n
  }

  function Prepared(list: seq<RawNode>, industry: seq<RawNode>, rules: map<string, Rule>): (r: seq<RawNode>)
    ensures |r| == |list|
  {
    seq(|list|, i requires 0 <= i < |list| => Inherited(Governed(list[i], rules), industry))
  }

  method IndexIndustry(industry: seq<RawNode>) returns (byDp: map<string, RawNode>)
    ensures forall dp :: IndustryNode(industry, dp) == if dp in byDp then Some(byDp[dp]) else None
  {
    byDp := map[];
    for i := 0 to |industry|
      invariant forall dp :: IndustryNode(industry[..i], dp) == if dp in byDp then Some(byDp[dp]) else None
    {
      assert industry[..i + 1][..i] == industry[..i];
      if industry[i].dpId != "" {
        byDp := byDp[industry[i].dpId := industry[i]];
      }
    }
    assert industry[..|industry|] == industry;
  }

  /** The two preparing loops. */
  method PrepareNodes(list: seq<RawNode>, industry: seq<RawNode>, rules: map<string, Rule>) returns (prepared: seq<RawNode>)
    ensures prepared == Prepared(list, industry, rules)
  {
    hide NodeStatus, Governed, IndustryNode;
    var byDp := IndexIndustry(industry);
    prepared := [];
    for i := 0 to |list|
      invariant |prepared| == i
      invariant forall j :: 0 <= j < i ==> prepared[j] == Inherited(Governed(list[j], rules), industry)
    {
      var n := Governed(list[i], rules);
      assert IndustryNode(industry, n.dpId) == if n.dpId in byDp then Some(byDp[n.dpId]) else None;
      if n.inherits && Blank(n.value) && n.dpId in byDp {
        var src := byDp[n.dpId];
        n := n.(value := src.value,
                confidence := if n.confidence.Some? then n.confidence else src.confidence,
                dated := n.dated || src.dated, recency := if n.dated then n.recency else src.recency,
                dataStatus := if NodeStatus(n) == Unknown && src.value != VNull then "Known" else n.dataStatus);
      }
      prepared := prepared + [n];
    }
  }

  // ---- what preparation may do ---------------------------------------------------------

  /** A company's own value, status and confidence are never overridden: preparation touches them only on a
      node that asks for it and has no value of its own, and a status only from Unknown to Known. */
  lemma PreparationKeepsOwn(n: RawNode, industry: seq<RawNode>, rules: map<string, Rule>)
    ensures var p := Inherited(Governed(n, rules), industry);
            && p.nodeId == n.nodeId && p.dpId == n.dpId && p.parentNode == n.parentNode
            && (p.value != n.value ==> n.inherits && Blank(n.value) && IndustryNode(industry, n.dpId).Some?)
            && (n.confidence.Some? ==> p.confidence == n.confidence)
            && (NodeStatus(p) != NodeStatus(n) ==> NodeStatus(n) == Unknown && NodeStatus(p) == Known && p.value != VNull)
            && (n.participates.Some? ==> ScoreEnabled(p) == ScoreEnabled(n))
  {
    hide NodeStatus, IndustryNode;
    var g := Governed(n, rules);
    StatusFrom(n, g);
    var src := IndustryNode(industry, n.dpId);
    if g.inherits && Blank(g.value) && src.Some? {
      KnownStatus(InheritedFrom(g, src.value));
      StatusFrom(g, InheritedFrom(g, src.value));
    }
  }

  lemma StatusFrom(n: RawNode, m: RawNode)
    ensures n.dataStatus == m.dataStatus && n.status == m.status ==> NodeStatus(n) == NodeStatus(m)
  {
    hide Strip, Lower;
  }

  lemma KnownStatus(n: RawNode)
    ensures n.dataStatus == "Known" ==> NodeStatus(n) == Known
  {
    assert Strip("Known") == "Known";
    assert Lower("Known") == "known";
  }

  // ---- what preparation does ---------------------------------------------------------------

  /** What a governed field holds: its own content, else the rule's, if governance knows the slot. */
  predicate Governs<T(==)>(n: RawNode, rules: map<string, Rule>, own: Option<T>, rule: Rule -> T, after: Option<T>) {
    if own.Some? then after == own
    else if n.dpId != "" && n.dpId in rules then after == Some(rule(rules[n.dpId]))
    else after == None
  }

  /** `src` is the last industry node with the dp_id of `n`. */
  ghost predicate SourceOf(industry: seq<RawNode>, n: RawNode, src: RawNode) {
    n.dpId != "" && exists i :: 0 <= i < |industry| && industry[i] == src && src.dpId == n.dpId
                                && forall j :: i < j < |industry| ==> industry[j].dpId != n.dpId
  }

  /** The node asks for a value and has none: null or an empty dictionary. */
  predicate Asks(n: RawNode) {
    n.inherits && match n.value
                  case VNull => true
                  case VDict(cells, _) => cells == map[]
                  case _ => false
  }

  lemma GovernedInWords(n: RawNode, rules: map<string, Rule>)
    ensures var p := Governed(n, rules);
            && Governs(n, rules, n.fieldRole, (r: Rule) => r.fieldRole, p.fieldRole)
            && Governs(n, rules, n.scoreTarget, (r: Rule) => r.scoreTarget, p.scoreTarget)
            && Governs(n, rules, n.participates, (r: Rule) => r.participates, p.participates)
            && Governs(n, rules, n.proxyCandidates, (r: Rule) => r.proxyCandidates, p.proxyCandidates)
            && Governs(n, rules, n.minRequiredCoverage, (r: Rule) => r.minRequiredCoverage, p.minRequiredCoverage)
            && Governs(n, rules, n.neutralValue, (r: Rule) => r.neutralValue, p.neutralValue)
            && Governs(n, rules, n.confidencePenalty, (r: Rule) => r.confidencePenalty, p.confidencePenalty)
            && p == n.(fieldRole := p.fieldRole, scoreTarget := p.scoreTarget, participates := p.participates,
                       proxyCandidates := p.proxyCandidates, minRequiredCoverage := p.minRequiredCoverage,
                       neutralValue := p.neutralValue, confidencePenalty := p.confidencePenalty)
  {
  }

  lemma {:induction false} SourceIs(industry: seq<RawNode>, n: RawNode)
    ensures match IndustryNode(industry, n.dpId)
            case Some(src) => SourceOf(industry, n, src)
            case None => forall src :: !SourceOf(industry, n, src)
    ensures forall src :: SourceOf(industry, n, src) ==> IndustryNode(industry, n.dpId) == Some(src)
  {
    if industry != [] && n.dpId != "" {
      var k := |industry| - 1;
      if industry[k].dpId == n.dpId {
        assert SourceOf(industry, n, industry[k]);
      } else {
        SourceIs(industry[..k], n);
        forall src ensures SourceOf(industry, n, src) <==> SourceOf(industry[..k], n, src) {
          SameSource(industry, n, src);
        }
      }
    }
  }

  lemma SameSource(industry: seq<RawNode>, n: RawNode, src: RawNode)
    requires industry != [] && industry[|industry| - 1].dpId != n.dpId
    ensures SourceOf(industry, n, src) <==> SourceOf(industry[..|industry| - 1], n, src)
  {
    var front := industry[..|industry| - 1];
    assert forall j :: 0 <= j < |front| ==> front[j] == industry[j];
    if SourceOf(front, n, src) {
      var i :| 0 <= i < |front| && front[i] == src && src.dpId == n.dpId && forall j :: i < j < |front| ==> front[j].dpId != n.dpId;
      assert industry[i] == src;
    }
    if SourceOf(industry, n, src) {
      var i :| 0 <= i < |industry| && industry[i] == src && src.dpId == n.dpId && forall j :: i < j < |industry| ==> industry[j].dpId != n.dpId;
      assert front[i] == src;
    }
  }

  /** Governance fills the seven fields that are empty, from the rule of the slot. Then a node that asks for a
      value takes over its industry's, with the confidence if it has none and the time stamp if it has none,
      and is Known from then on if it was Unknown and there was a value; nothing else changes. */
  lemma PreparationInWords(n: RawNode, industry: seq<RawNode>, rules: map<string, Rule>, src: RawNode)
    ensures var g := Governed(n, rules); var p := Inherited(g, industry);
            && (!Asks(n) || (forall s :: !SourceOf(industry, n, s)) ==> p == g)
            && (Asks(n) && SourceOf(industry, n, src) ==>
                  && p.value == src.value
                  && p.confidence == (if n.confidence.Some? then n.confidence else src.confidence)
                  && (if n.dated then p.dated && p.recency == n.recency else p.dated == src.dated && p.recency == src.recency)
                  && (NodeStatus(n) == Unknown && src.value != VNull ==> NodeStatus(p) == Known)
                  && (NodeStatus(n) != Unknown || src.value == VNull ==> p.dataStatus == n.dataStatus)
                  && p == g.(value := p.value, confidence := p.confidence, dated := p.dated, recency := p.recency, dataStatus := p.dataStatus))
  {
    hide NodeStatus, SourceOf, IndustryNode;
    var g := Governed(n, rules);
    SourceIs(industry, g);
    StatusFrom(n, g);
    SameSlot(industry, n, g);
    if Asks(n) && SourceOf(industry, n, src) {
      KnownStatus(InheritedFrom(g, src));
    }
  }

  lemma SameSlot(industry: seq<RawNode>, n: RawNode, m: RawNode)
    requires n.dpId == m.dpId
    ensures forall src :: SourceOf(industry, n, src) <==> SourceOf(industry, m, src)
  {
  }
}
