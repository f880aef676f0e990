/** `validate_stock_overlay`, and what merging does to its verdict. */
module OverlayValidation {
  import opened Basics
  import opened Json
  import opened OverlayMerge

  datatype Problem =
    | MissingTop(field: string) | WrongTemplate
    | MissingField(node: string, key: Key) | InvalidField(node: string, key: Key)
    | RequiredUnknown(node: string) | NoMissingReason(node: string)
    | WrongNaPolicy(node: string) | UnsplitOptionality(node: string)
    | WrongHierarchyType(edge: string) | CausalInHierarchy(edge: string)
    | HierarchyInCausal(edge: string) | DanglingEdge(edge: string)
    | WrongMode | MissingView(view: string) | MissingScoreLayer(layer: string)

  /** Closed vocabularies of the text fields (calculation types, aggregation policies, ...). */
  type Vocabulary = (Key, Val) -> bool

  predicate LegalStatus(v: Val) { v.JStatus? && !v.status.OtherStatus? }

  predicate LegalPolicy(v: Val) { v.JPolicy? && !v.policy.OtherPolicy? }

  predicate LegalLevel(v: Val) { v.JLevel? && !v.level.OtherLevel? }

  function Report(bad: bool, p: Problem): seq<Problem> { if bad then [p] else [] }

  function FieldOr(f: Fields, k: Key): Val { if k in f then f[k] else JNull }

  /** Required fields, in the sorted order in which missing ones are reported. */
  const REQUIRED_FIELDS: seq<Key> :=
    [AggregationPolicy, CalculationType, DataStatus, Layer, MissingPolicy, NodeId, NodeName, NodeType]

  function MissingAmong(n: Node, keys: seq<Key>): seq<Problem> {
    if keys == [] then []
    else Report(keys[0] !in n.fields, MissingField(n.nodeId, keys[0])) + MissingAmong(n, keys[1..])
  }

  function MissingFields(n: Node): seq<Problem> { MissingAmong(n, REQUIRED_FIELDS) }

  /** Status, level or policy outside its closed vocabulary. */
  function InvalidStates(n: Node): seq<Problem> {
    Report(!LegalStatus(StatusField(n)), InvalidField(n.nodeId, DataStatus))
    + Report(!LegalLevel(FieldOr(n.fields, RequiredLevel)), InvalidField(n.nodeId, RequiredLevel))
    + Report(!LegalPolicy(FieldOr(n.fields, MissingPolicy)), InvalidField(n.nodeId, MissingPolicy))
  }

  /** Text fields outside theirs. */
  function InvalidTexts(n: Node, vocabulary: Vocabulary): seq<Problem> {
    var f := n.fields;
    Report(!vocabulary(CalculationType, FieldOr(f, CalculationType)), InvalidField(n.nodeId, CalculationType))
    + Report(!vocabulary(AggregationPolicy, FieldOr(f, AggregationPolicy)), InvalidField(n.nodeId, AggregationPolicy))
    + Report(!vocabulary(AlertPolicy, FieldOr(f, AlertPolicy)), InvalidField(n.nodeId, AlertPolicy))
    + Report(FieldOr(f, FieldRole) != JNull && !vocabulary(FieldRole, FieldOr(f, FieldRole)), InvalidField(n.nodeId, FieldRole))
    + Report(FieldOr(f, ScoreTarget) != JNull && !vocabulary(ScoreTarget, FieldOr(f, ScoreTarget)), InvalidField(n.nodeId, ScoreTarget))
  }

  function InvalidFields(n: Node, vocabulary: Vocabulary): seq<Problem> {
    InvalidStates(n) + InvalidTexts(n, vocabulary)
  }

  /** The value splits into both halves. */
  predicate SplitOption(v: Val) {
    v.JDict? && "current_contribution" in v.fields && "future_option_value" in v.fields
  }

  /** What a status demands of the other fields. */
  function RuleProblems(n: Node): seq<Problem> {
    var f, status := n.fields, StatusField(n);
    Report(status == JStatus(Unknown) && FieldOr(f, RequiredLevel) == JLevel(Required), RequiredUnknown(n.nodeId))
    + Report(status == JStatus(Unknown) && FieldOr(f, RequiredLevel) == JLevel(ConditionalRequired) && !Truthy(FieldOr(f, MissingReason)),
             NoMissingReason(n.nodeId))
    + Report(status == JStatus(NotApplicable) && FieldOr(f, MissingPolicy) != JPolicy(NotApplicableRemove), WrongNaPolicy(n.nodeId))
    + Report(status == JStatus(Optionality) && !SplitOption(FieldOr(f, ValueKey)), UnsplitOptionality(n.nodeId))
  }

  function NodeProblems(n: Node, vocabulary: Vocabulary): seq<Problem> {
    MissingFields(n) + InvalidFields(n, vocabulary) + RuleProblems(n)
  }

  function AllNodeProblems(nodes: seq<Node>, vocabulary: Vocabulary): seq<Problem> {
    if nodes == [] then []
    else AllNodeProblems(nodes[..|nodes| - 1], vocabulary) + NodeProblems(nodes[|nodes| - 1], vocabulary)
  }

  function NodeIds(nodes: seq<Node>): set<string> { set n | n in nodes :: n.nodeId }

  predicate Dangling(e: Edge, ids: set<string>) { e.fromNode !in ids || e.toNode !in ids }

  function HierarchyEdge(e: Edge, ids: set<string>): seq<Problem> {
    Report(e.edgeType != "Parent-Child", WrongHierarchyType(e.edgeId))
    + Report(Contains(e.edgeType, "Transmission") || Contains(e.edgeType, "Risk"), CausalInHierarchy(e.edgeId))
    + Report(Dangling(e, ids), DanglingEdge(e.edgeId))
  }

  function HierarchyProblems(edges: seq<Edge>, ids: set<string>): seq<Problem> {
    if edges == [] then [] else HierarchyProblems(edges[..|edges| - 1], ids) + HierarchyEdge(edges[|edges| - 1], ids)
  }

  function CausalProblems(edges: seq<Edge>, ids: set<string>): seq<Problem> {
    if edges == [] then []
    else
      var e := edges[|edges| - 1];
      CausalProblems(edges[..|edges| - 1], ids)
      + Report(e.edgeType == "Parent-Child", HierarchyInCausal(e.edgeId))
      + Report(Dangling(e, ids), DanglingEdge(e.edgeId))
  }

  const REQUIRED_TOP: seq<string> :=
    ["base_industry_graph", "causal_edges", "coverage", "hierarchy_edges", "industry_id", "industry_overlay_ref",
     "nodes", "period", "primary_industry", "schema_version", "scores", "template_version", "ts_code", "views"]
  const EXPECTED_VIEWS: seq<string> :=
    ["business_breakdown", "causal_path", "financial_expectation", "funding_sentiment", "industry_exposure",
     "risk_offset", "valuation_expectation"]
  const SCORE_LAYERS: seq<string> := ["node_scores", "path_scores", "company_score", "stock_final_score"]
  const STOCK_TEMPLATE_VERSION := "stock-overlay-v2"
  const WAITING_MODE := "等待验证"

  function Absent(names: seq<string>, have: set<string>, problem: string -> Problem): seq<Problem> {
    if names == [] then []
    else Report(names[0] !in have, problem(names[0])) + Absent(names[1..], have, problem)
  }

  function TopProblems(f: Frame): seq<Problem> {
    Absent(REQUIRED_TOP, f.present, s => MissingTop(s))
    + Report(f.templateVersion != STOCK_TEMPLATE_VERSION, WrongTemplate)
  }

  predicate ModeMissing(f: Frame) {
    f.dataCoverage.Some? && f.dataCoverage.value < 0.3 && f.currentMode != WAITING_MODE
  }

  function ClosingProblems(f: Frame): seq<Problem> {
    Report(ModeMissing(f), WrongMode)
    + Absent(EXPECTED_VIEWS, f.views, s => MissingView(s))
    + Absent(SCORE_LAYERS, f.scoreLayers, s => MissingScoreLayer(s))
  }

  /** The errors `validate_stock_overlay` reports, in the order in which it reports them. */
  function Problems(o: Overlay, vocabulary: Vocabulary): seq<Problem> {
    TopProblems(o.frame)
    + AllNodeProblems(o.nodes, vocabulary)
    + HierarchyProblems(o.frame.hierarchy, NodeIds(o.nodes))
    + CausalProblems(o.frame.causal, NodeIds(o.nodes))
    + ClosingProblems(o.frame)
  }

  // ---- warnings -----------------------------------------------------------------------

  datatype Warning =
    | ConditionalUnknown(node: string) | HeavyInactive(node: string)
    | WithoutGovernance(count: nat) | NotGoverned(count: nat)

  /** `float(node.get("active_weight") or 0)`. */
  function ActiveWeightOf(n: Node): real {
    if ActiveWeight in n.fields && n.fields[ActiveWeight].JNum? then n.fields[ActiveWeight].num else 0.0
  }

  predicate WarnsUnknown(n: Node) {
    HasStatus(n, Unknown) && FieldOr(n.fields, RequiredLevel) == JLevel(ConditionalRequired)
  }

  predicate WarnsInactive(n: Node) { HasStatus(n, Inactive) && ActiveWeightOf(n) > 0.2 }

  function NodeWarnings(n: Node): seq<Warning> {
    (if WarnsUnknown(n) then [ConditionalUnknown(n.nodeId)] else [])
    + (if WarnsInactive(n) then [HeavyInactive(n.nodeId)] else [])
  }

  function AllNodeWarnings(nodes: seq<Node>): seq<Warning> {
    if nodes == [] then [] else AllNodeWarnings(nodes[..|nodes| - 1]) + NodeWarnings(nodes[|nodes| - 1])
  }

  /** The dp_ids governance has an entry for; absent when there is no registry. */
  type GovernedIds = Option<set<string>>

  predicate Slot(n: Node) { n.dpId != "" && n.dpId != "company" }

  predicate IsUngoverned(n: Node, governed: GovernedIds) { governed.Some? && Slot(n) && n.dpId !in governed.value }

  predicate LacksGovernance(n: Node, governed: GovernedIds) {
    && governed.Some? && Slot(n) && n.dpId in governed.value
    && !(Truthy(FieldOr(n.fields, FieldRole)) && Truthy(FieldOr(n.fields, ScoreTarget)))
  }

  function CountUngoverned(nodes: seq<Node>, governed: GovernedIds): nat {
    if nodes == [] then 0
    else CountUngoverned(nodes[..|nodes| - 1], governed) + (if IsUngoverned(nodes[|nodes| - 1], governed) then 1 else 0)
  }

  function CountLacking(nodes: seq<Node>, governed: GovernedIds): nat {
    if nodes == [] then 0
    else CountLacking(nodes[..|nodes| - 1], governed) + (if LacksGovernance(nodes[|nodes| - 1], governed) then 1 else 0)
  }

  function Warnings(o: Overlay, governed: GovernedIds): seq<Warning> {
    AllNodeWarnings(o.nodes)
    + (if CountLacking(o.nodes, governed) > 0 then [WithoutGovernance(CountLacking(o.nodes, governed))] else [])
    + (if CountUngoverned(o.nodes, governed) > 0 then [NotGoverned(CountUngoverned(o.nodes, governed))] else [])
  }

  // ---- the validator's loops ---------------------------------------------------------

  method ReportAbsent(names: seq<string>, have: set<string>, problem: string -> Problem) returns (errors: seq<Problem>)
    ensures errors == Absent(names, have, problem)
  {
    errors := [];
    for i := 0 to |names|
      invariant Absent(names, have, problem) == errors + Absent(names[i..], have, problem)
    {
      assert names[i..][1..] == names[i + 1..];
      if names[i] !in have {
        errors := errors + [problem(names[i])];
      }
    }
  }

  method CheckHierarchyEdge(e: Edge, ids: set<string>) returns (errors: seq<Problem>)
    ensures errors == HierarchyEdge(e, ids)
  {
    hide Contains, Dangling;
    errors := [];
    if e.edgeType != "Parent-Child" {
      errors := errors + [WrongHierarchyType(e.edgeId)];
    }
    if Contains(e.edgeType, "Transmission") || Contains(e.edgeType, "Risk") {
      errors := errors + [CausalInHierarchy(e.edgeId)];
    }
    if Dangling(e, ids) {
      errors := errors + [DanglingEdge(e.edgeId)];
    }
  }

  method CheckHierarchy(edges: seq<Edge>, ids: set<string>) returns (errors: seq<Problem>)
    ensures errors == HierarchyProblems(edges, ids)
  {
    hide HierarchyEdge;
    errors := [];
    for i := 0 to |edges|
      invariant errors == HierarchyProblems(edges[..i], ids)
    {
      assert edges[..i + 1][..i] == edges[..i];
      var found := CheckHierarchyEdge(edges[i], ids);
      errors := errors + found;
    }
    assert edges[..|edges|] == edges;
  }

  method CheckCausal(edges: seq<Edge>, ids: set<string>) returns (errors: seq<Problem>)
    ensures errors == CausalProblems(edges, ids)
  {
    hide Dangling;
    errors := [];
    for i := 0 to |edges|
      invariant errors == CausalProblems(edges[..i], ids)
    {
      assert edges[..i + 1][..i] == edges[..i];
      var e := edges[i];
      if e.edgeType == "Parent-Child" {
        errors := errors + [HierarchyInCausal(e.edgeId)];
      }
      if Dangling(e, ids) {
        errors := errors + [DanglingEdge(e.edgeId)];
      }
    }
    assert edges[..|edges|] == edges;
  }

  /** The node loop: errors, warnings, and the two governance counters. */
  method CheckNodes(nodes: seq<Node>, vocabulary: Vocabulary, governed: GovernedIds)
    returns (errors: seq<Problem>, warnings: seq<Warning>, lacking: nat, ungoverned: nat)
    ensures errors == AllNodeProblems(nodes, vocabulary) && warnings == AllNodeWarnings(nodes)
    ensures lacking == CountLacking(nodes, governed) && ungoverned == CountUngoverned(nodes, governed)
  {
    hide NodeProblems, WarnsUnknown, WarnsInactive, IsUngoverned, LacksGovernance;
    errors, warnings, lacking, ungoverned := [], [], 0, 0;
    for i := 0 to |nodes|
      invariant errors == AllNodeProblems(nodes[..i], vocabulary) && warnings == AllNodeWarnings(nodes[..i])
      invariant lacking == CountLacking(nodes[..i], governed) && ungoverned == CountUngoverned(nodes[..i], governed)
    {
      assert nodes[..i + 1][..i] == nodes[..i];
      var n := nodes[i];
      errors := errors + NodeProblems(n, vocabulary);
      if IsUngoverned(n, governed) {
        ungoverned := ungoverned + 1;
      }
      if LacksGovernance(n, governed) {
        lacking := lacking + 1;
      }
      warnings := warnings + NodeWarnings(n);
    }
    assert nodes[..|nodes|] == nodes;
  }

  /** `validate_stock_overlay`. */
  method ValidateStockOverlay(o: Overlay, vocabulary: Vocabulary, governed: GovernedIds)
    returns (errors: seq<Problem>, warnings: seq<Warning>)
    ensures errors == Problems(o, vocabulary) && warnings == Warnings(o, governed)
  {
    hide Absent, AllNodeProblems, AllNodeWarnings, CountLacking, CountUngoverned, HierarchyProblems, CausalProblems, NodeIds;
    var f, ids := o.frame, NodeIds(o.nodes);
    var top := ReportAbsent(REQUIRED_TOP, f.present, s => MissingTop(s));
    errors := top;
    if f.templateVersion != STOCK_TEMPLATE_VERSION {
      errors := errors + [WrongTemplate];
    }
    assert errors == TopProblems(f);
    var inNodes, lacking, ungoverned;
    inNodes, warnings, lacking, ungoverned := CheckNodes(o.nodes, vocabulary, governed);
    if lacking > 0 {
      warnings := warnings + [WithoutGovernance(lacking)];
    }
    if ungoverned > 0 {
      warnings := warnings + [NotGoverned(ungoverned)];
    }
    var inHierarchy := CheckHierarchy(f.hierarchy, ids);
    var inCausal := CheckCausal(f.causal, ids);
    var closing: seq<Problem> := if ModeMissing(f) then [WrongMode] else [];
    var views := ReportAbsent(EXPECTED_VIEWS, f.views, s => MissingView(s));
    var layers := ReportAbsent(SCORE_LAYERS, f.scoreLayers, s => MissingScoreLayer(s));
    closing := closing + views + layers;
    assert closing == ClosingProblems(f);
    errors := errors + inNodes + inHierarchy + inCausal + closing;
  }

  // ---- clean nodes ------------------------------------------------------------------

  /** The fields a merge takes from the generated node are all there and in their vocabularies. */
  predicate CleanStructure(n: Node, vocabulary: Vocabulary) {
    var f := n.fields;
    && NodeId in f && NodeName in f && NodeType in f && Layer in f && CalculationType in f && AggregationPolicy in f
    && LegalLevel(FieldOr(f, RequiredLevel))
    && vocabulary(CalculationType, FieldOr(f, CalculationType))
    && vocabulary(AggregationPolicy, FieldOr(f, AggregationPolicy))
    && vocabulary(AlertPolicy, FieldOr(f, AlertPolicy))
    && (FieldOr(f, FieldRole) == JNull || vocabulary(FieldRole, FieldOr(f, FieldRole)))
    && (FieldOr(f, ScoreTarget) == JNull || vocabulary(ScoreTarget, FieldOr(f, ScoreTarget)))
  }

  /** Status, policy, missing reason and value go together. */
  predicate CleanState(n: Node) {
    var f, status := n.fields, StatusField(n);
    && DataStatus in f && MissingPolicy in f && LegalStatus(status) && LegalPolicy(f[MissingPolicy])
    && !(status == JStatus(Unknown) && FieldOr(f, RequiredLevel) == JLevel(Required))
    && (status == JStatus(Unknown) && FieldOr(f, RequiredLevel) == JLevel(ConditionalRequired) ==> Truthy(FieldOr(f, MissingReason)))
    && (status == JStatus(NotApplicable) ==> f[MissingPolicy] == JPolicy(NotApplicableRemove))
    && (status == JStatus(Optionality) ==> SplitOption(FieldOr(f, ValueKey)))
  }

  lemma CleanParts(n: Node, vocabulary: Vocabulary)
    ensures NodeProblems(n, vocabulary) == [] <==> CleanStructure(n, vocabulary) && CleanState(n)
  {
    NoMissingFields(n);
    NoInvalidFields(n, vocabulary);
    NoRuleProblems(n);
    hide MissingFields, InvalidFields, RuleProblems, LegalStatus, LegalPolicy, LegalLevel, SplitOption, Truthy;
  }

  lemma {:induction false} NoneMissing(n: Node, keys: seq<Key>)
    ensures MissingAmong(n, keys) == [] <==> forall k :: k in keys ==> k in n.fields
    ensures forall p :: p in MissingAmong(n, keys) ==> p.MissingField?
  {
    if keys != [] {
      NoneMissing(n, keys[1..]);
      assert keys == [keys[0]] + keys[1..];
    }
  }

  lemma NoMissingFields(n: Node)
    ensures MissingFields(n) == [] <==>
            && AggregationPolicy in n.fields && CalculationType in n.fields && DataStatus in n.fields && Layer in n.fields
            && MissingPolicy in n.fields && NodeId in n.fields && NodeName in n.fields && NodeType in n.fields
  {
    NoneMissing(n, REQUIRED_FIELDS);
    forall k { RequiredAre(k); }
    hide MissingAmong, REQUIRED_FIELDS;
  }

  lemma RequiredAre(k: Key)
    ensures k in REQUIRED_FIELDS <==>
            || k == AggregationPolicy || k == CalculationType || k == DataStatus || k == Layer
            || k == MissingPolicy || k == NodeId || k == NodeName || k == NodeType
  {
    var r := REQUIRED_FIELDS;
    assert r[0] in r && r[1] in r && r[2] in r && r[3] in r && r[4] in r && r[5] in r && r[6] in r && r[7] in r;
  }

  lemma NoInvalidFields(n: Node, vocabulary: Vocabulary)
    ensures var f := n.fields;
            InvalidFields(n, vocabulary) == [] <==>
            && LegalStatus(StatusField(n)) && LegalLevel(FieldOr(f, RequiredLevel)) && LegalPolicy(FieldOr(f, MissingPolicy))
            && vocabulary(CalculationType, FieldOr(f, CalculationType))
            && vocabulary(AggregationPolicy, FieldOr(f, AggregationPolicy))
            && vocabulary(AlertPolicy, FieldOr(f, AlertPolicy))
            && (FieldOr(f, FieldRole) == JNull || vocabulary(FieldRole, FieldOr(f, FieldRole)))
            && (FieldOr(f, ScoreTarget) == JNull || vocabulary(ScoreTarget, FieldOr(f, ScoreTarget)))
  {
    hide LegalStatus, LegalPolicy, LegalLevel, FieldOr;
  }

  lemma NoRuleProblems(n: Node)
    ensures var f, status := n.fields, StatusField(n);
            RuleProblems(n) == [] <==>
            && !(status == JStatus(Unknown) && FieldOr(f, RequiredLevel) == JLevel(Required))
            && (status == JStatus(Unknown) && FieldOr(f, RequiredLevel) == JLevel(ConditionalRequired) ==> Truthy(FieldOr(f, MissingReason)))
            && (status == JStatus(NotApplicable) ==> FieldOr(f, MissingPolicy) == JPolicy(NotApplicableRemove))
            && (status == JStatus(Optionality) ==> SplitOption(FieldOr(f, ValueKey)))
  {
    hide Truthy, SplitOption;
  }

  /** Equal on everything a merge takes from the generated node. */
  predicate SameStructure(a: Node, b: Node) {
    && a.nodeId == b.nodeId
    && Lookup(a.fields, NodeId) == Lookup(b.fields, NodeId)
    && Lookup(a.fields, NodeName) == Lookup(b.fields, NodeName)
    && Lookup(a.fields, NodeType) == Lookup(b.fields, NodeType)
    && Lookup(a.fields, Layer) == Lookup(b.fields, Layer)
    && Lookup(a.fields, CalculationType) == Lookup(b.fields, CalculationType)
    && Lookup(a.fields, AggregationPolicy) == Lookup(b.fields, AggregationPolicy)
    && Lookup(a.fields, RequiredLevel) == Lookup(b.fields, RequiredLevel)
    && Lookup(a.fields, AlertPolicy) == Lookup(b.fields, AlertPolicy)
    && Lookup(a.fields, FieldRole) == Lookup(b.fields, FieldRole)
    && Lookup(a.fields, ScoreTarget) == Lookup(b.fields, ScoreTarget)
  }

  lemma SameStructureClean(a: Node, b: Node, vocabulary: Vocabulary)
    requires SameStructure(a, b)
    ensures CleanStructure(a, vocabulary) == CleanStructure(b, vocabulary)
  {
    SameLookup(a.fields, b.fields, NodeId);
    SameLookup(a.fields, b.fields, NodeName);
    SameLookup(a.fields, b.fields, NodeType);
    SameLookup(a.fields, b.fields, Layer);
    SameLookup(a.fields, b.fields, CalculationType);
    SameLookup(a.fields, b.fields, AggregationPolicy);
    SameLookup(a.fields, b.fields, RequiredLevel);
    SameLookup(a.fields, b.fields, AlertPolicy);
    SameLookup(a.fields, b.fields, FieldRole);
    SameLookup(a.fields, b.fields, ScoreTarget);
    hide Lookup, FieldOr, LegalLevel;
  }

  lemma SameLookup(f: Fields, g: Fields, k: Key)
    ensures Lookup(f, k) == Lookup(g, k) ==> FieldOr(f, k) == FieldOr(g, k) && (k in f <==> k in g)
  {
  }

  predicate Structural(k: Key) {
    k in {NodeId, NodeName, NodeType, Layer, CalculationType, AggregationPolicy, RequiredLevel, AlertPolicy, FieldRole, ScoreTarget}
  }

  lemma MergedKeeps(gen: Fields, prev: Fields, k: Key)
    requires DataStatus in prev && prev[DataStatus] != JNull && Structural(k)
    ensures Lookup(MergedFields(gen, prev), k) == Lookup(gen, k)
  {
    hide MergedFields;
    MergedLookup(gen, prev, k);
  }

  lemma MergedStructure(gen: Node, prev: Node)
    requires DataStatus in prev.fields && prev.fields[DataStatus] != JNull
    ensures SameStructure(MergedNode(gen, prev), gen)
  {
    assert Structural(NodeId) && Structural(NodeName) && Structural(NodeType) && Structural(Layer) && Structural(CalculationType)
        && Structural(AggregationPolicy) && Structural(RequiredLevel) && Structural(AlertPolicy)
        && Structural(FieldRole) && Structural(ScoreTarget);
    hide MergedFields, Structural;
    MergedKeeps(gen.fields, prev.fields, NodeId);
    MergedKeeps(gen.fields, prev.fields, NodeName);
    MergedKeeps(gen.fields, prev.fields, NodeType);
    MergedKeeps(gen.fields, prev.fields, Layer);
    MergedKeeps(gen.fields, prev.fields, CalculationType);
    MergedKeeps(gen.fields, prev.fields, AggregationPolicy);
    MergedKeeps(gen.fields, prev.fields, RequiredLevel);
    MergedKeeps(gen.fields, prev.fields, AlertPolicy);
    MergedKeeps(gen.fields, prev.fields, FieldRole);
    MergedKeeps(gen.fields, prev.fields, ScoreTarget);
    hide Lookup;
  }

  /** A preserved Optionality node whose value lacks one half is the one thing a merge can spoil. */
  predicate WellShaped(prev: Node) {
    HasStatus(prev, Optionality) ==> SplitOption(FieldOr(prev.fields, ValueKey))
  }

  /** A preserved node is clean if and only if an Optionality value is properly split, whatever missing
      policy a patch had left behind. */
  lemma MergedNodeClean(gen: Node, prev: Node, events: set<string>, vocabulary: Vocabulary)
    requires ShouldPreserve(prev, events) && NodeProblems(gen, vocabulary) == []
    ensures NodeProblems(MergedNode(gen, prev), vocabulary) == [] <==> WellShaped(prev)
  {
    hide MergedFields, NodeProblems, CleanStructure, CleanState;
    var m := MergedNode(gen, prev);
    PreservedHasStatus(prev, events);
    MergedStructure(gen, prev);
    SameStructureClean(m, gen, vocabulary);
    CleanParts(gen, vocabulary);
    CleanParts(m, vocabulary);
    MergedLookup(gen.fields, prev.fields, DataStatus);
    MergedLookup(gen.fields, prev.fields, MissingPolicy);
    MergedLookup(gen.fields, prev.fields, ValueKey);
    CleanMerged(gen, prev, m, events);
  }

  lemma CleanMerged(gen: Node, prev: Node, m: Node, events: set<string>)
    requires ShouldPreserve(prev, events) && CleanState(gen)
    requires DataStatus in prev.fields && Lookup(m.fields, DataStatus) == Some(prev.fields[DataStatus])
    requires Lookup(m.fields, MissingPolicy) ==
             if MissingPolicy in Induced(prev.fields[DataStatus]) then Some(Induced(prev.fields[DataStatus])[MissingPolicy])
             else Lookup(gen.fields, MissingPolicy)
    requires ValueKey in prev.fields ==> Lookup(m.fields, ValueKey) == Some(prev.fields[ValueKey])
    ensures CleanState(m) <==> WellShaped(prev)
  {
    assert Lookup(m.fields, DataStatus).Some? && Lookup(m.fields, MissingPolicy).Some?;
    assert StatusField(m) == StatusField(prev);
  }

  /** A preserved node never warns, whatever weight the slot is generated with. */
  lemma PreservedNeverWarns(gen: Node, prev: Node, events: set<string>)
    requires ShouldPreserve(prev, events)
    ensures NodeWarnings(MergedNode(gen, prev)) == []
  {
    hide MergedFields;
    PreservedHasStatus(prev, events);
    MergedLookup(gen.fields, prev.fields, DataStatus);
    MergedLookup(gen.fields, prev.fields, ActiveWeight);
    var m := MergedNode(gen, prev);
    assert StatusField(m) == StatusField(prev);
    if HasStatus(prev, Inactive) {
      assert Lookup(m.fields, ActiveWeight) == Some(JNum(0.0));
    }
  }

  // ---- clean overlays -------------------------------------------------------------------

  lemma {:induction false} AllCleanExact(nodes: seq<Node>, vocabulary: Vocabulary)
    ensures AllNodeProblems(nodes, vocabulary) == [] <==>
            forall i :: 0 <= i < |nodes| ==> NodeProblems(nodes[i], vocabulary) == []
  {
    hide NodeProblems;
    if nodes != [] {
      var n := |nodes| - 1;
      AllCleanExact(nodes[..n], vocabulary);
      assert forall i :: 0 <= i < n ==> nodes[..n][i] == nodes[i];
    }
  }

  lemma SameIds(a: seq<Node>, b: seq<Node>)
    requires SameKeys(a, b)
    ensures NodeIds(a) == NodeIds(b)
  {
    forall id | id in NodeIds(a) ensures id in NodeIds(b) {
      var i :| 0 <= i < |a| && a[i].nodeId == id;
      assert b[i] in b;
    }
    forall id | id in NodeIds(b) ensures id in NodeIds(a) {
      var i :| 0 <= i < |b| && b[i].nodeId == id;
      assert a[i] in a;
    }
  }

  /** The existing node that merge would carry over into generated node `n`, if any. */
  function Carried(n: Node, existing: seq<Node>, events: set<string>): Option<Node> {
    var prev := Existing(existing, n.nodeId, n.dpId);
    if prev.Some? && ShouldPreserve(prev.value, events) then prev else None
  }

  /** Merging into a clean generated overlay yields a clean overlay exactly when every carried-over
      Optionality value is properly split. Statuses and policies of the existing file need no check: a
      carried-over status is legal, and its policy is rewritten. */
  lemma MergeKeepsValidity(generated: Overlay, existing: Overlay, events: set<string>, vocabulary: Vocabulary)
    requires Problems(generated, vocabulary) == []
    ensures Problems(Merge(generated, Some(existing), false, events), vocabulary) == [] <==>
            forall i :: 0 <= i < |generated.nodes| ==>
              var c := Carried(generated.nodes[i], existing.nodes, events);
              c.Some? ==> WellShaped(c.value)
  {
    hide NodeProblems, MergedNode, ShouldPreserve, Existing, TopProblems, ClosingProblems, HierarchyProblems, CausalProblems, NodeIds, WellShaped;
    var m := MergeNodes(generated.nodes, existing.nodes, events);
    MergeNodesKeys(generated.nodes, existing.nodes, events);
    SameIds(generated.nodes, m);
    AllCleanExact(generated.nodes, vocabulary);
    AllCleanExact(m, vocabulary);
    forall i | 0 <= i < |generated.nodes|
      ensures NodeProblems(m[i], vocabulary) == [] <==>
              var c := Carried(generated.nodes[i], existing.nodes, events); c.Some? ==> WellShaped(c.value)
    {
      var c := Carried(generated.nodes[i], existing.nodes, events);
      if c.Some? {
        MergedNodeClean(generated.nodes[i], c.value, events, vocabulary);
      }
    }
  }

  // ---- a merge that spoils ----------------------------------------------------------------

  /** A frame with everything in place and no edges. */
  function FullFrame(): Frame {
    Frame(Elements(REQUIRED_TOP), STOCK_TEMPLATE_VERSION, [], [], None, "", Elements(EXPECTED_VIEWS), Elements(SCORE_LAYERS))
  }

  /** The new-business slot as generated: an Optionality with both halves still to fill. */
  function FreshNode(): Node {
    Node("600000.SH:L2.newbiz.tam", "L2.newbiz.tam",
         map[NodeId := JStr("600000.SH:L2.newbiz.tam"), NodeName := JStr("New business"), NodeType := JStr("Optionality"),
             Layer := JStr("business_optionality"), CalculationType := JStr(SCENARIO), AggregationPolicy := JStr(PROBABILITY),
             AlertPolicy := JStr(NO_ALERT), RequiredLevel := JLevel(OptionalLevel), DataStatus := JStatus(Optionality),
             LegacyStatus := JStatus(Optionality), MissingPolicy := JPolicy(OptionalityTrack),
             ValueKey := JDict(map["current_contribution" := JNull, "future_option_value" := JNull])])
  }

  /** The same slot after a patch that wrote only the half it knew. */
  function HalfFilledNode(): Node {
    FreshNode().(fields := FreshNode().fields[ValueKey := JDict(map["current_contribution" := JNum(1.0)])])
  }

  const SCENARIO := "scenario_weighted"
  const PROBABILITY := "scenario_probability_weighted"
  const NO_ALERT := "no_alert"

  /** The vocabulary has the three words the slot definition uses. */
  predicate AcceptsSlot(vocabulary: Vocabulary) {
    && vocabulary(CalculationType, JStr(SCENARIO)) && vocabulary(AggregationPolicy, JStr(PROBABILITY))
    && vocabulary(AlertPolicy, JStr(NO_ALERT))
  }

  lemma {:induction false} NothingAbsent(names: seq<string>, have: set<string>, problem: string -> Problem)
    requires forall s :: s in names ==> s in have
    ensures Absent(names, have, problem) == []
  {
    if names != [] {
      assert names == [names[0]] + names[1..];
      NothingAbsent(names[1..], have, problem);
    }
  }

  lemma FullFrameClean()
    ensures TopProblems(FullFrame()) == [] && ClosingProblems(FullFrame()) == []
  {
    var f := FullFrame();
    NothingAbsent(REQUIRED_TOP, f.present, s => MissingTop(s));
    NothingAbsent(EXPECTED_VIEWS, f.views, s => MissingView(s));
    NothingAbsent(SCORE_LAYERS, f.scoreLayers, s => MissingScoreLayer(s));
    hide Absent, REQUIRED_TOP, EXPECTED_VIEWS, SCORE_LAYERS;
  }

  lemma FreshNodeClean(vocabulary: Vocabulary)
    requires AcceptsSlot(vocabulary)
    ensures NodeProblems(FreshNode(), vocabulary) == []
  {
    CleanParts(FreshNode(), vocabulary);
    hide NodeProblems;
  }

  lemma HalfFilledIsKept(events: set<string>)
    ensures ShouldPreserve(HalfFilledNode(), events) && !WellShaped(HalfFilledNode())
  {
    var v := JDict(map["current_contribution" := JNum(1.0)]);
    assert HalfFilledNode().fields[ValueKey] == v;
    assert Filled(v.fields, "current_contribution");
    var absent := "future_option_value";
    assert absent != "current_contribution";
    assert absent !in v.fields;
  }

  /** A real failing input: the half-filled Optionality node is carried over, and the merged overlay has
      an error that neither the generated overlay nor anything the merge wrote by itself had. */
  lemma HalfFilledOptionSpoilsMerge(events: set<string>, vocabulary: Vocabulary)
    requires AcceptsSlot(vocabulary)
    ensures var generated, existing := Overlay(FullFrame(), [FreshNode()]), Overlay(FullFrame(), [HalfFilledNode()]);
            && Problems(generated, vocabulary) == []
            && Problems(Merge(generated, Some(existing), false, events), vocabulary) != []
  {
    hide AcceptsSlot, NodeProblems, TopProblems, ClosingProblems, FullFrame, FreshNode, HalfFilledNode, ShouldPreserve, WellShaped, Existing;
    var generated, existing := Overlay(FullFrame(), [FreshNode()]), Overlay(FullFrame(), [HalfFilledNode()]);
    FullFrameClean();
    FreshNodeClean(vocabulary);
    NoEdges();
    AllCleanExact(generated.nodes, vocabulary);
    assert Problems(generated, vocabulary) == [];
    HalfFilledIsKept(events);
    SameNode();
    ExistingAt(existing.nodes, 0);
    MergeKeepsValidity(generated, existing, events, vocabulary);
    assert Carried(generated.nodes[0], existing.nodes, events) == Some(HalfFilledNode());
  }

  lemma NoEdges()
    ensures FullFrame().hierarchy == [] && FullFrame().causal == []
  {
  }

  lemma SameNode()
    ensures HalfFilledNode().nodeId == FreshNode().nodeId && HalfFilledNode().dpId == FreshNode().dpId
  {
  }
}
