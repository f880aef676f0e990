/** The validator's verdict, problem by problem, told from the overlay itself. */
module ValidationInWords {
  import opened Basics
  import opened Json
  import opened OverlayMerge
  import opened OverlayValidation

  // ---- nodes ----------------------------------------------------------------------------

  /** Absent, or outside its vocabulary; the two governance fields may be absent or null. */
  predicate Misfit(n: Node, k: Key, vocabulary: Vocabulary) {
    var v := if k in n.fields then n.fields[k] else JNull;
    match k
    case DataStatus => !v.JStatus? || v.status.OtherStatus?
    case RequiredLevel => !v.JLevel? || v.level.OtherLevel?
    case MissingPolicy => !v.JPolicy? || v.policy.OtherPolicy?
    case CalculationType => !vocabulary(k, v)
    case AggregationPolicy => !vocabulary(k, v)
    case AlertPolicy => !vocabulary(k, v)
    case FieldRole => v != JNull && !vocabulary(k, v)
    case ScoreTarget => v != JNull && !vocabulary(k, v)
    case _ => false
  }

  predicate Is(n: Node, k: Key, v: Val) { k in n.fields && n.fields[k] == v }

  /** What is wrong with node `n`. */
  predicate NodeFault(n: Node, vocabulary: Vocabulary, p: Problem) {
    match p
    case MissingField(id, k) =>
      && id == n.nodeId && k !in n.fields
      && k in {NodeId, NodeName, NodeType, Layer, DataStatus, MissingPolicy, CalculationType, AggregationPolicy}
    case InvalidField(id, k) => id == n.nodeId && Misfit(n, k, vocabulary)
    case RequiredUnknown(id) => id == n.nodeId && Is(n, DataStatus, JStatus(Unknown)) && Is(n, RequiredLevel, JLevel(Required))
    case NoMissingReason(id) =>
      && id == n.nodeId && Is(n, DataStatus, JStatus(Unknown)) && Is(n, RequiredLevel, JLevel(ConditionalRequired))
      && (MissingReason in n.fields ==> !Truthy(n.fields[MissingReason]))
    case WrongNaPolicy(id) =>
      id == n.nodeId && Is(n, DataStatus, JStatus(NotApplicable)) && !Is(n, MissingPolicy, JPolicy(NotApplicableRemove))
    case UnsplitOptionality(id) =>
      && id == n.nodeId && Is(n, DataStatus, JStatus(Optionality))
      && !(ValueKey in n.fields && n.fields[ValueKey].JDict?
           && {"current_contribution", "future_option_value"} <= n.fields[ValueKey].fields.Keys)
    case _ => false
  }

  // ---- edges and frame ---------------------------------------------------------------------

  predicate EndsAtNodes(e: Edge, nodes: seq<Node>) {
    && (exists i :: 0 <= i < |nodes| && nodes[i].nodeId == e.fromNode)
    && exists i :: 0 <= i < |nodes| && nodes[i].nodeId == e.toNode
  }

  predicate HierarchyFault(e: Edge, nodes: seq<Node>, p: Problem) {
    match p
    case WrongHierarchyType(id) => id == e.edgeId && e.edgeType != "Parent-Child"
    case CausalInHierarchy(id) => id == e.edgeId && (Contains(e.edgeType, "Transmission") || Contains(e.edgeType, "Risk"))
    case DanglingEdge(id) => id == e.edgeId && !EndsAtNodes(e, nodes)
    case _ => false
  }

  predicate CausalFault(e: Edge, nodes: seq<Node>, p: Problem) {
    match p
    case HierarchyInCausal(id) => id == e.edgeId && e.edgeType == "Parent-Child"
    case DanglingEdge(id) => id == e.edgeId && !EndsAtNodes(e, nodes)
    case _ => false
  }

  predicate FrameFault(f: Frame, p: Problem) {
    match p
    case MissingTop(name) =>
      && name !in f.present
      && name in {"schema_version", "template_version", "ts_code", "industry_id", "primary_industry", "period",
                  "base_industry_graph", "industry_overlay_ref", "nodes", "hierarchy_edges", "causal_edges", "coverage",
                  "scores", "views"}
    case WrongTemplate => f.templateVersion != "stock-overlay-v2"
    case WrongMode => f.dataCoverage.Some? && f.dataCoverage.value < 0.3 && f.currentMode != "等待验证"
    case MissingView(name) =>
      && name !in f.views
      && name in {"causal_path", "industry_exposure", "business_breakdown", "financial_expectation",
                  "valuation_expectation", "risk_offset", "funding_sentiment"}
    case MissingScoreLayer(name) =>
      name !in f.scoreLayers && name in {"node_scores", "path_scores", "company_score", "stock_final_score"}
    case _ => false
  }

  // ---- the reports agree ----------------------------------------------------------------------

  lemma Reported(bad: bool, p: Problem, q: Problem)
    ensures q in Report(bad, p) <==> bad && q == p
  {
  }

  lemma {:induction false} MissingReported(n: Node, keys: seq<Key>, p: Problem)
    ensures p in MissingAmong(n, keys) <==> p.MissingField? && p.node == n.nodeId && p.key in keys && p.key !in n.fields
  {
    if keys != [] {
      MissingReported(n, keys[1..], p);
    }
  }

  lemma RequiredKeys(k: Key)
    ensures k in REQUIRED_FIELDS <==> k in {NodeId, NodeName, NodeType, Layer, DataStatus, MissingPolicy, CalculationType, AggregationPolicy}
  {
  }

  lemma StatesReported(n: Node, vocabulary: Vocabulary, p: Problem)
    ensures p in InvalidStates(n) <==>
            p.InvalidField? && p.node == n.nodeId && p.key in {DataStatus, RequiredLevel, MissingPolicy} && Misfit(n, p.key, vocabulary)
  {
  }

  lemma TextsReported(n: Node, vocabulary: Vocabulary, p: Problem)
    ensures p in InvalidTexts(n, vocabulary) <==>
            && p.InvalidField? && p.node == n.nodeId && p.key in {CalculationType, AggregationPolicy, AlertPolicy, FieldRole, ScoreTarget}
            && Misfit(n, p.key, vocabulary)
  {
    hide Misfit;
    TextReported(n, CalculationType, vocabulary, p);
    TextReported(n, AggregationPolicy, vocabulary, p);
    TextReported(n, AlertPolicy, vocabulary, p);
    TextReported(n, FieldRole, vocabulary, p);
    TextReported(n, ScoreTarget, vocabulary, p);
    var f := n.fields;
    assert InvalidTexts(n, vocabulary) ==
           Report(!vocabulary(CalculationType, FieldOr(f, CalculationType)), InvalidField(n.nodeId, CalculationType))
           + Report(!vocabulary(AggregationPolicy, FieldOr(f, AggregationPolicy)), InvalidField(n.nodeId, AggregationPolicy))
           + Report(!vocabulary(AlertPolicy, FieldOr(f, AlertPolicy)), InvalidField(n.nodeId, AlertPolicy))
           + Report(FieldOr(f, FieldRole) != JNull && !vocabulary(FieldRole, FieldOr(f, FieldRole)), InvalidField(n.nodeId, FieldRole))
           + Report(FieldOr(f, ScoreTarget) != JNull && !vocabulary(ScoreTarget, FieldOr(f, ScoreTarget)), InvalidField(n.nodeId, ScoreTarget));
    hide Report, InvalidTexts, FieldOr;
  }

  lemma TextReported(n: Node, k: Key, vocabulary: Vocabulary, p: Problem)
    requires k in {CalculationType, AggregationPolicy, AlertPolicy, FieldRole, ScoreTarget}
    ensures var bad := !vocabulary(k, FieldOr(n.fields, k)) && (k in {FieldRole, ScoreTarget} ==> FieldOr(n.fields, k) != JNull);
            p in Report(bad, InvalidField(n.nodeId, k)) <==> p == InvalidField(n.nodeId, k) && Misfit(n, k, vocabulary)
  {
  }

  lemma RulesReported(n: Node, vocabulary: Vocabulary, p: Problem)
    ensures p in RuleProblems(n) <==> !p.MissingField? && !p.InvalidField? && NodeFault(n, vocabulary, p)
  {
    MissingIsFalse(n);
    SplitIs(n);
    hide Truthy, SplitOption;
  }

  lemma MissingIsFalse(n: Node)
    ensures Truthy(FieldOr(n.fields, MissingReason)) <==> MissingReason in n.fields && Truthy(n.fields[MissingReason])
  {
  }

  lemma SplitIs(n: Node)
    ensures SplitOption(FieldOr(n.fields, ValueKey)) <==>
            && ValueKey in n.fields && n.fields[ValueKey].JDict?
            && {"current_contribution", "future_option_value"} <= n.fields[ValueKey].fields.Keys
  {
  }

  lemma NodeReported(n: Node, vocabulary: Vocabulary, p: Problem)
    ensures p in NodeProblems(n, vocabulary) <==> NodeFault(n, vocabulary, p)
  {
    hide InvalidStates, InvalidTexts, RuleProblems, MissingAmong, REQUIRED_FIELDS;
    MissingReported(n, REQUIRED_FIELDS, p);
    if p.MissingField? {
      RequiredKeys(p.key);
    }
    StatesReported(n, vocabulary, p);
    TextsReported(n, vocabulary, p);
    RulesReported(n, vocabulary, p);
  }

  lemma {:induction false} NodesReported(nodes: seq<Node>, vocabulary: Vocabulary, p: Problem)
    ensures p in AllNodeProblems(nodes, vocabulary) <==> exists n :: n in nodes && NodeFault(n, vocabulary, p)
  {
    hide NodeProblems, NodeFault;
    if nodes != [] {
      var front, last := nodes[..|nodes| - 1], nodes[|nodes| - 1];
      assert nodes == front + [last];
      NodesReported(front, vocabulary, p);
      NodeReported(last, vocabulary, p);
    }
  }

  lemma DanglingIs(e: Edge, nodes: seq<Node>)
    ensures Dangling(e, NodeIds(nodes)) <==> !EndsAtNodes(e, nodes)
  {
  }

  lemma {:induction false} HierarchyReported(edges: seq<Edge>, nodes: seq<Node>, p: Problem)
    ensures p in HierarchyProblems(edges, NodeIds(nodes)) <==> exists e :: e in edges && HierarchyFault(e, nodes, p)
  {
    hide Contains, Dangling, NodeIds, EndsAtNodes;
    if edges != [] {
      var front, last := edges[..|edges| - 1], edges[|edges| - 1];
      assert edges == front + [last];
      HierarchyReported(front, nodes, p);
      DanglingIs(last, nodes);
      assert p in HierarchyEdge(last, NodeIds(nodes)) <==> HierarchyFault(last, nodes, p);
      hide HierarchyEdge, HierarchyFault;
    }
  }

  lemma {:induction false} CausalReported(edges: seq<Edge>, nodes: seq<Node>, p: Problem)
    ensures p in CausalProblems(edges, NodeIds(nodes)) <==> exists e :: e in edges && CausalFault(e, nodes, p)
  {
    hide Dangling, NodeIds, EndsAtNodes;
    if edges != [] {
      var front, last := edges[..|edges| - 1], edges[|edges| - 1];
      assert edges == front + [last];
      CausalReported(front, nodes, p);
      DanglingIs(last, nodes);
      Reported(last.edgeType == "Parent-Child", HierarchyInCausal(last.edgeId), p);
      Reported(Dangling(last, NodeIds(nodes)), DanglingEdge(last.edgeId), p);
      assert CausalFault(last, nodes, p) <==>
             p in Report(last.edgeType == "Parent-Child", HierarchyInCausal(last.edgeId)) || p in Report(Dangling(last, NodeIds(nodes)), DanglingEdge(last.edgeId));
      hide Report, CausalFault;
    }
  }

  lemma {:induction false} AbsentReported(names: seq<string>, have: set<string>, problem: string -> Problem, p: Problem)
    ensures p in Absent(names, have, problem) <==> exists s :: s in names && s !in have && p == problem(s)
  {
    if names != [] {
      AbsentReported(names[1..], have, problem, p);
      assert names == [names[0]] + names[1..];
    }
  }

  lemma TopNames(s: string)
    ensures s in REQUIRED_TOP <==>
            s in {"schema_version", "template_version", "ts_code", "industry_id", "primary_industry", "period",
                  "base_industry_graph", "industry_overlay_ref", "nodes", "hierarchy_edges", "causal_edges", "coverage",
                  "scores", "views"}
  {
  }

  lemma ClosingNames(s: string)
    ensures s in EXPECTED_VIEWS <==>
            s in {"causal_path", "industry_exposure", "business_breakdown", "financial_expectation",
                  "valuation_expectation", "risk_offset", "funding_sentiment"}
    ensures s in SCORE_LAYERS <==> s in {"node_scores", "path_scores", "company_score", "stock_final_score"}
  {
  }

  lemma FrameReported(f: Frame, p: Problem)
    ensures p in TopProblems(f) || p in ClosingProblems(f) <==> FrameFault(f, p)
  {
    hide Absent, REQUIRED_TOP, EXPECTED_VIEWS, SCORE_LAYERS;
    AbsentReported(REQUIRED_TOP, f.present, s => MissingTop(s), p);
    AbsentReported(EXPECTED_VIEWS, f.views, s => MissingView(s), p);
    AbsentReported(SCORE_LAYERS, f.scoreLayers, s => MissingScoreLayer(s), p);
    match p {
      case MissingTop(s) => TopNames(s);
      case MissingView(s) => ClosingNames(s);
      case MissingScoreLayer(s) => ClosingNames(s);
      case _ =>
    }
  }

  /** Every problem is reported exactly when it is there: in the frame, in a node, in a hierarchy edge or in a
      causal edge. */
  lemma ProblemsExactly(o: Overlay, vocabulary: Vocabulary, p: Problem)
    ensures p in Problems(o, vocabulary) <==>
            || FrameFault(o.frame, p)
            || (exists n :: n in o.nodes && NodeFault(n, vocabulary, p))
            || (exists e :: e in o.frame.hierarchy && HierarchyFault(e, o.nodes, p))
            || (exists e :: e in o.frame.causal && CausalFault(e, o.nodes, p))
  {
    hide TopProblems, ClosingProblems, AllNodeProblems, HierarchyProblems, CausalProblems, FrameFault, NodeFault, HierarchyFault, CausalFault, NodeIds;
    FrameReported(o.frame, p);
    NodesReported(o.nodes, vocabulary, p);
    HierarchyReported(o.frame.hierarchy, o.nodes, p);
    CausalReported(o.frame.causal, o.nodes, p);
  }

  // ---- warnings -----------------------------------------------------------------------------

  /** A conditionally required node is Unknown, or an Inactive one still weighs more than 0.2. */
  predicate NodeWarned(n: Node, w: Warning) {
    match w
    case ConditionalUnknown(id) => id == n.nodeId && Is(n, DataStatus, JStatus(Unknown)) && Is(n, RequiredLevel, JLevel(ConditionalRequired))
    case HeavyInactive(id) =>
      && id == n.nodeId && Is(n, DataStatus, JStatus(Inactive))
      && ActiveWeight in n.fields && n.fields[ActiveWeight].JNum? && n.fields[ActiveWeight].num > 0.2
    case _ => false
  }

  /** A slot governance has no entry for. */
  predicate Foreign(n: Node, governed: set<string>) { n.dpId != "" && n.dpId != "company" && n.dpId !in governed }

  /** A slot with an entry that lacks its role or its target. */
  predicate Bare(n: Node, governed: set<string>) {
    && n.dpId != "" && n.dpId != "company" && n.dpId in governed
    && (FieldRole !in n.fields || ScoreTarget !in n.fields || !Truthy(n.fields[FieldRole]) || !Truthy(n.fields[ScoreTarget]))
  }

  predicate Counted(n: Node, governed: GovernedIds, foreign: bool) {
    governed.Some? && if foreign then Foreign(n, governed.value) else Bare(n, governed.value)
  }

  /** The places of such nodes. */
  function Places(nodes: seq<Node>, governed: GovernedIds, foreign: bool): set<int> {
    set i | 0 <= i < |nodes| && Counted(nodes[i], governed, foreign)
  }

  lemma {:induction false} GovernanceCounted(nodes: seq<Node>, governed: GovernedIds, foreign: bool)
    ensures |Places(nodes, governed, foreign)| == if foreign then CountUngoverned(nodes, governed) else CountLacking(nodes, governed)
  {
    hide Counted, IsUngoverned, LacksGovernance;
    if nodes == [] {
      assert Places(nodes, governed, foreign) == {};
    } else {
      var n := |nodes| - 1;
      var front := nodes[..n];
      GovernanceCounted(front, governed, foreign);
      CountedIs(nodes[n], governed);
      OneMorePlace(nodes, governed, foreign);
      hide Places;
    }
  }

  lemma OneMorePlace(nodes: seq<Node>, governed: GovernedIds, foreign: bool)
    requires nodes != []
    ensures var n := |nodes| - 1;
            |Places(nodes, governed, foreign)| == |Places(nodes[..n], governed, foreign)| + (if Counted(nodes[n], governed, foreign) then 1 else 0)
  {
    hide Counted;
    var n := |nodes| - 1;
    var before, after := Places(nodes[..n], governed, foreign), Places(nodes, governed, foreign);
    assert n !in before;
    forall i ensures i in after <==> i in before || (i == n && Counted(nodes[n], governed, foreign)) {
      if 0 <= i < n {
        assert nodes[..n][i] == nodes[i];
      }
    }
    hide Places;
    if Counted(nodes[n], governed, foreign) {
      assert after == before + {n};
    } else {
      assert after == before;
    }
  }

  lemma CountedIs(n: Node, governed: GovernedIds)
    ensures Counted(n, governed, true) <==> IsUngoverned(n, governed)
    ensures Counted(n, governed, false) <==> LacksGovernance(n, governed)
  {
  }

  lemma {:induction false} NodeWarningsReported(nodes: seq<Node>, w: Warning)
    ensures w in AllNodeWarnings(nodes) <==> exists n :: n in nodes && NodeWarned(n, w)
  {
    hide NodeWarnings, NodeWarned;
    if nodes != [] {
      var front, last := nodes[..|nodes| - 1], nodes[|nodes| - 1];
      assert nodes == front + [last];
      NodeWarningsReported(front, w);
      WarnedIs(last, w);
    }
  }

  lemma WarnedIs(n: Node, w: Warning)
    ensures w in NodeWarnings(n) <==> NodeWarned(n, w)
  {
  }

  /** Every warning is given exactly when it is due; the two governance warnings count the slots they are about. */
  lemma WarningsExactly(o: Overlay, governed: GovernedIds, w: Warning)
    ensures w in Warnings(o, governed) <==>
            match w
            case WithoutGovernance(k) => k > 0 && k == |Places(o.nodes, governed, false)|
            case NotGoverned(k) => k > 0 && k == |Places(o.nodes, governed, true)|
            case _ => exists n :: n in o.nodes && NodeWarned(n, w)
  {
    hide AllNodeWarnings, CountLacking, CountUngoverned, Places, NodeWarned;
    NodeWarningsReported(o.nodes, w);
    GovernanceCounted(o.nodes, governed, true);
    GovernanceCounted(o.nodes, governed, false);
    if w.WithoutGovernance? || w.NotGoverned? {
      NoCountHere(o.nodes, w);
    }
  }

  lemma NoCountHere(nodes: seq<Node>, w: Warning)
    requires w.WithoutGovernance? || w.NotGoverned?
    ensures forall n :: n in nodes ==> !NodeWarned(n, w)
  {
  }
}
