/** Overlay files and the merge that keeps filled-in nodes when an overlay is
    regenerated. */
module OverlayMerge {
  import opened Basics
  import opened Json

  /** Node fields the tools name; all others are `OtherKey`. */
  datatype Key =
    | DataStatus | LegacyStatus | MissingPolicy | ActiveWeight
    | ValueKey | Confidence | EvidenceSources | LastUpdated | DataSource | MissingReason
    | FingerprintAtFill | LastFilledPeriod | LastEventId
    | EvidenceQuality | DataCoverage | Strength | PricedIn | Exposure | FinancialSensitivity
    | ValuationSensitivity | TriggerCondition | InvalidationCondition | RelatedBusiness | RelatedMetrics
    | NodeId | NodeName | NodeType | Layer | RequiredLevel | CalculationType | AggregationPolicy | AlertPolicy
    | FieldRole | ScoreTarget
    | OtherKey(name: string)

  type Fields = map<Key, Val>

  /** `nodeId` and `dpId` are "" when absent; whether `node_id` is there at all shows in the fields. */
  datatype Node = Node(nodeId: string, dpId: string, fields: Fields)

  datatype Edge = Edge(edgeId: string, fromNode: string, toNode: string, edgeType: string)

  /** Everything outside `nodes`: edges, and the top-level facts the validator looks at. */
  datatype Frame = Frame(
    present: set<string>, templateVersion: string,
    hierarchy: seq<Edge>, causal: seq<Edge>,
    dataCoverage: Option<real>, currentMode: string, views: set<string>, scoreLayers: set<string>)

  datatype Overlay = Overlay(frame: Frame, nodes: seq<Node>)

  function Lookup(f: Fields, k: Key): Option<Val> { if k in f then Some(f[k]) else None }

  /** `node.get("data_status")`. */
  function StatusField(n: Node): Val { if DataStatus in n.fields then n.fields[DataStatus] else JNull }

  predicate HasStatus(n: Node, s: Status) { StatusField(n) == JStatus(s) }

  // ---- the preserve rule ---------------------------------------------------------

  /** `_PRESERVE_FIELDS`. */
  predicate PreserveField(k: Key) {
    k in {ValueKey, Confidence, EvidenceSources, LastUpdated, DataSource, MissingReason,
          FingerprintAtFill, LastFilledPeriod, LastEventId}
  }

  predicate Filled(fields: map<string, Val>, key: string) { key in fields && !Empty(fields[key]) }

  /** An Optionality value with something in either half. */
  predicate OptionFilled(n: Node) {
    && ValueKey in n.fields && n.fields[ValueKey].JDict?
    && (Filled(n.fields[ValueKey].fields, "current_contribution") || Filled(n.fields[ValueKey].fields, "future_option_value"))
  }

  /** `_should_preserve_node`; `events` are the event-driven dp_ids. */
  predicate ShouldPreserve(n: Node, events: set<string>) {
    || HasStatus(n, Known)
    || HasStatus(n, NotApplicable)
    || (HasStatus(n, Optionality) && OptionFilled(n))
    || (HasStatus(n, Inactive) && n.dpId !in events)
  }

  /** `_STATUS_INDUCED_FIELDS`. */
  function Induced(status: Val): Fields {
    if status == JStatus(NotApplicable) then map[MissingPolicy := JPolicy(NotApplicableRemove), ActiveWeight := JNum(0.0)]
    else if status == JStatus(Inactive) then map[MissingPolicy := JPolicy(InactiveZeroWeight), ActiveWeight := JNum(0.0)]
    else if status == JStatus(Optionality) then map[MissingPolicy := JPolicy(OptionalityTrack)]
    else map[]
  }

  /** The fields of a preserved node: generated structure, existing content and status, and the
      fields that status implies. */
  function MergedFields(gen: Fields, prev: Fields): Fields {
    var kept := gen + (map k | k in prev && PreserveField(k) :: prev[k]);
    if DataStatus !in prev then kept
    else
      var status := prev[DataStatus];
      var withStatus := kept[DataStatus := status];
      if status == JNull then withStatus
      else (if LegacyStatus in withStatus then withStatus[LegacyStatus := status] else withStatus) + Induced(status)
  }

  function MergedNode(gen: Node, prev: Node): Node { gen.(fields := MergedFields(gen.fields, prev.fields)) }

  /** `existing_nodes_by_key`: the last node with a given key. */
  function Existing(nodes: seq<Node>, nodeId: string, dpId: string): Option<Node> {
    if nodes == [] then None
    else
      var n := nodes[|nodes| - 1];
      if n.nodeId == nodeId && n.dpId == dpId then Some(n) else Existing(nodes[..|nodes| - 1], nodeId, dpId)
  }

  function MergeOne(gen: Node, existing: seq<Node>, events: set<string>): Node {
    match Existing(existing, gen.nodeId, gen.dpId)
    case None => gen
    case Some(prev) => if ShouldPreserve(prev, events) then MergedNode(gen, prev) else gen
  }

  function MergeNodes(gen: seq<Node>, existing: seq<Node>, events: set<string>): (r: seq<Node>)
    ensures |r| == |gen|
  {
    seq(|gen|, i requires 0 <= i < |gen| => MergeOne(gen[i], existing, events))
  }

  /** `merge_preserve_existing_overlay`. */
  function Merge(generated: Overlay, existing: Option<Overlay>, force: bool, events: set<string>): Overlay {
    if force || existing.None? then generated
    else generated.(nodes := MergeNodes(generated.nodes, existing.value.nodes, events))
  }

  // ---- the merge as the program runs it --------------------------------------------

  type NodeIndex = map<(string, string), Node>

  lemma ExistingStep(nodes: seq<Node>, i: nat, nodeId: string, dpId: string)
    requires i < |nodes|
    ensures Existing(nodes[..i + 1], nodeId, dpId) ==
            if nodes[i].nodeId == nodeId && nodes[i].dpId == dpId then Some(nodes[i])
            else Existing(nodes[..i], nodeId, dpId)
  {
    assert nodes[..i + 1][..i] == nodes[..i];
  }

  method IndexByKey(nodes: seq<Node>) returns (index: NodeIndex)
    ensures forall a, b :: Existing(nodes, a, b) == if (a, b) in index then Some(index[(a, b)]) else None
  {
    index := map[];
    for i := 0 to |nodes|
      invariant forall a, b :: Existing(nodes[..i], a, b) == if (a, b) in index then Some(index[(a, b)]) else None
    {
      forall a, b { ExistingStep(nodes, i, a, b); }
      index := index[(nodes[i].nodeId, nodes[i].dpId) := nodes[i]];
    }
    assert nodes[..|nodes|] == nodes;
  }

  const PRESERVE_FIELDS: seq<Key> :=
    [ValueKey, Confidence, EvidenceSources, LastUpdated, DataSource, MissingReason,
     FingerprintAtFill, LastFilledPeriod, LastEventId]

  /** Field `k` once the first `i` preserve fields have been copied. */
  function Copied(gen: Fields, prev: Fields, i: nat, k: Key): Option<Val>
    requires i <= |PRESERVE_FIELDS|
  {
    if k in PRESERVE_FIELDS[..i] && k in prev then Some(prev[k]) else Lookup(gen, k)
  }

  /** The copying loop over `_PRESERVE_FIELDS`. */
  method CopyPreserved(gen: Fields, prev: Fields) returns (fields: Fields)
    ensures fields == gen + (map k | k in prev && PreserveField(k) :: prev[k])
  {
    fields := gen;
    for i := 0 to |PRESERVE_FIELDS|
      invariant forall k :: Lookup(fields, k) == Copied(gen, prev, i, k)
    {
      var f := PRESERVE_FIELDS[i];
      ghost var before := fields;
      PrefixStep(PRESERVE_FIELDS, i + 1);
      if f in prev {
        fields := fields[f := prev[f]];
      }
      forall k ensures Lookup(fields, k) == Copied(gen, prev, i + 1, k) {
        assert Lookup(before, k) == Copied(gen, prev, i, k);
      }
    }
    ghost var whole := gen + (map k | k in prev && PreserveField(k) :: prev[k]);
    forall k ensures Lookup(fields, k) == Lookup(whole, k) {
      PreserveFieldsListed(k);
    }
    SameFields(fields, whole);
  }

  lemma PreserveFieldsListed(k: Key)
    ensures k in PRESERVE_FIELDS[..|PRESERVE_FIELDS|] <==> PreserveField(k)
  {
    assert PRESERVE_FIELDS[..|PRESERVE_FIELDS|] == PRESERVE_FIELDS;
  }

  /** Building one preserved node. */
  method BuildMerged(gen: Node, prev: Node) returns (merged: Node)
    ensures merged == MergedNode(gen, prev)
  {
    var fields := CopyPreserved(gen.fields, prev.fields);
    if DataStatus in prev.fields {
      var status := prev.fields[DataStatus];
      fields := fields[DataStatus := status];
      if status != JNull {
        if LegacyStatus in fields {
          fields := fields[LegacyStatus := status];
        }
        fields := fields + Induced(status);
      }
    }
    merged := gen.(fields := fields);
  }

  /** `merge_preserve_existing_overlay`, with its index and its output list. */
  method MergePreserve(generated: Overlay, existing: Option<Overlay>, force: bool, events: set<string>) returns (merged: Overlay)
    ensures merged == Merge(generated, existing, force, events)
  {
    hide MergedNode, ShouldPreserve, Existing;
    if force || existing.None? {
      return generated;
    }
    var index := IndexByKey(existing.value.nodes);
    var nodes: seq<Node> := [];
    for i := 0 to |generated.nodes|
      invariant |nodes| == i
      invariant forall j :: 0 <= j < i ==> nodes[j] == MergeOne(generated.nodes[j], existing.value.nodes, events)
    {
      var gen := generated.nodes[i];
      var key := (gen.nodeId, gen.dpId);
      if key in index && ShouldPreserve(index[key], events) {
        var m := BuildMerged(gen, index[key]);
        nodes := nodes + [m];
      } else {
        nodes := nodes + [gen];
      }
    }
    assert nodes == MergeNodes(generated.nodes, existing.value.nodes, events);
    merged := generated.(nodes := nodes);
  }

  // ---- laws of one node's merge -------------------------------------------------------

  /** What a preserved node carries, field by field. */
  lemma MergedLookup(gen: Fields, prev: Fields, k: Key)
    requires DataStatus in prev && prev[DataStatus] != JNull
    ensures Lookup(MergedFields(gen, prev), k) ==
            if k in Induced(prev[DataStatus]) then Some(Induced(prev[DataStatus])[k])
            else if k == DataStatus then Some(prev[DataStatus])
            else if k == LegacyStatus then (if LegacyStatus in gen then Some(prev[DataStatus]) else None)
            else if PreserveField(k) && k in prev then Some(prev[k])
            else Lookup(gen, k)
  {
  }

  lemma PreservedHasStatus(n: Node, events: set<string>)
    requires ShouldPreserve(n, events)
    ensures DataStatus in n.fields && n.fields[DataStatus] != JNull
  {
  }

  /** Content of a preserved node survives exactly as it was, provided the fresh node does not add the
      field where the old one lacked it. */
  lemma PreservedContent(gen: Node, prev: Node, events: set<string>, k: Key)
    requires ShouldPreserve(prev, events) && (PreserveField(k) || k == DataStatus)
    requires k in prev.fields || k !in gen.fields
    ensures Lookup(MergedNode(gen, prev).fields, k) == Lookup(prev.fields, k)
  {
    hide ShouldPreserve, MergedFields;
    PreservedHasStatus(prev, events);
    MergedLookup(gen.fields, prev.fields, k);
  }

  /** Preserving is stable: a merged node would itself be preserved. */
  lemma MergedIsPreserved(gen: Node, prev: Node, events: set<string>)
    requires ShouldPreserve(prev, events) && gen.dpId == prev.dpId
    ensures ShouldPreserve(MergedNode(gen, prev), events)
  {
    hide MergedFields;
    PreservedHasStatus(prev, events);
    MergedLookup(gen.fields, prev.fields, DataStatus);
    MergedLookup(gen.fields, prev.fields, ValueKey);
    assert Lookup(MergedNode(gen, prev).fields, DataStatus) == Some(prev.fields[DataStatus]);
    if OptionFilled(prev) {
      assert Lookup(MergedNode(gen, prev).fields, ValueKey) == Some(prev.fields[ValueKey]);
    }
  }

  lemma SameFields(a: Fields, b: Fields)
    requires forall k :: Lookup(a, k) == Lookup(b, k)
    ensures a == b
  {
    forall k ensures (k in a <==> k in b) && (k in a ==> a[k] == b[k]) {
      assert Lookup(a, k) == Lookup(b, k);
    }
  }

  /** Merging the same fresh node into its own merge result changes nothing. */
  lemma MergedAgain(gen: Node, prev: Node, events: set<string>)
    requires ShouldPreserve(prev, events)
    ensures MergedNode(gen, MergedNode(gen, prev)) == MergedNode(gen, prev)
  {
    hide MergedFields, ShouldPreserve;
    PreservedHasStatus(prev, events);
    var m := MergedFields(gen.fields, prev.fields);
    MergedLookup(gen.fields, prev.fields, DataStatus);
    assert m[DataStatus] == prev.fields[DataStatus];
    forall k ensures Lookup(MergedFields(gen.fields, m), k) == Lookup(m, k) {
      MergedLookup(gen.fields, prev.fields, k);
      MergedLookup(gen.fields, m, k);
    }
    SameFields(MergedFields(gen.fields, m), m);
  }

  /** Status and status-induced fields agree: what a merge with itself would write is already there. */
  predicate StatusConsistent(n: Node) {
    && (LegacyStatus in n.fields ==> n.fields[LegacyStatus] == StatusField(n))
    && forall k :: k in Induced(StatusField(n)) ==> Lookup(n.fields, k) == Some(Induced(StatusField(n))[k])
  }

  lemma MergedWithItself(n: Node, events: set<string>)
    requires ShouldPreserve(n, events)
    ensures MergedNode(n, n) == n <==> StatusConsistent(n)
  {
    hide MergedFields, ShouldPreserve;
    PreservedHasStatus(n, events);
    var m := MergedFields(n.fields, n.fields);
    if StatusConsistent(n) {
      forall k ensures Lookup(m, k) == Lookup(n.fields, k) {
        MergedLookup(n.fields, n.fields, k);
      }
      SameFields(m, n.fields);
    } else {
      forall k {
        MergedLookup(n.fields, n.fields, k);
      }
    }
  }

  // ---- whole overlays --------------------------------------------------------------------

  ghost predicate UniqueKeys(nodes: seq<Node>) {
    forall i, j :: 0 <= i < j < |nodes| ==> (nodes[i].nodeId, nodes[i].dpId) != (nodes[j].nodeId, nodes[j].dpId)
  }

  /** Same keys in the same order. */
  ghost predicate SameKeys(a: seq<Node>, b: seq<Node>) {
    |a| == |b| && forall i :: 0 <= i < |a| ==> a[i].nodeId == b[i].nodeId && a[i].dpId == b[i].dpId
  }

  lemma {:induction false} ExistingAt(nodes: seq<Node>, i: nat)
    requires UniqueKeys(nodes) && i < |nodes|
    ensures Existing(nodes, nodes[i].nodeId, nodes[i].dpId) == Some(nodes[i])
  {
    var n := |nodes| - 1;
    if i < n {
      assert nodes[..n][i] == nodes[i];
      ExistingAt(nodes[..n], i);
    }
  }

  lemma {:induction false} ExistingHasKey(nodes: seq<Node>, nodeId: string, dpId: string)
    ensures match Existing(nodes, nodeId, dpId)
            case None => true
            case Some(n) => n in nodes && n.nodeId == nodeId && n.dpId == dpId
  {
    if nodes != [] {
      ExistingHasKey(nodes[..|nodes| - 1], nodeId, dpId);
    }
  }

  /** The merge keeps the generated keys, order and frame. */
  lemma MergeKeepsShape(generated: Overlay, existing: Option<Overlay>, force: bool, events: set<string>)
    ensures var m := Merge(generated, existing, force, events);
            m.frame == generated.frame && SameKeys(m.nodes, generated.nodes)
  {
  }

  /** With matching keys, node `i` merges with its counterpart. */
  lemma MergeAt(generated: seq<Node>, existing: seq<Node>, events: set<string>, i: nat)
    requires UniqueKeys(existing) && SameKeys(generated, existing) && i < |generated|
    ensures MergeNodes(generated, existing, events)[i] ==
            if ShouldPreserve(existing[i], events) then MergedNode(generated[i], existing[i]) else generated[i]
  {
    ExistingAt(existing, i);
  }

  lemma MergeNodesKeys(generated: seq<Node>, existing: seq<Node>, events: set<string>)
    ensures SameKeys(generated, MergeNodes(generated, existing, events))
    ensures UniqueKeys(generated) ==> UniqueKeys(MergeNodes(generated, existing, events))
  {
    hide MergedFields, ShouldPreserve, Existing;
    var m := MergeNodes(generated, existing, events);
    assert forall i :: 0 <= i < |generated| ==> m[i].nodeId == generated[i].nodeId && m[i].dpId == generated[i].dpId;
  }

  /** Merge idempotence: with unique keys, merging the same generated overlay into the merge result
      changes nothing, as long as generated nodes a merge would preserve are status-consistent. */
  lemma MergeIdempotent(generated: Overlay, existing: Overlay, events: set<string>)
    requires UniqueKeys(generated.nodes)
    requires forall i :: 0 <= i < |generated.nodes| && ShouldPreserve(generated.nodes[i], events) ==> StatusConsistent(generated.nodes[i])
    ensures var once := Merge(generated, Some(existing), false, events);
            Merge(generated, Some(once), false, events) == once
  {
    hide MergedNode, ShouldPreserve, Existing, StatusConsistent;
    var once := MergeNodes(generated.nodes, existing.nodes, events);
    MergeNodesKeys(generated.nodes, existing.nodes, events);
    forall i | 0 <= i < |once| ensures MergeNodes(generated.nodes, once, events)[i] == once[i] {
      var gen := generated.nodes[i];
      MergeAt(generated.nodes, once, events, i);
      ExistingHasKey(existing.nodes, gen.nodeId, gen.dpId);
      var prev := Existing(existing.nodes, gen.nodeId, gen.dpId);
      if prev.Some? && ShouldPreserve(prev.value, events) {
        MergedIsPreserved(gen, prev.value, events);
        MergedAgain(gen, prev.value, events);
      } else if ShouldPreserve(gen, events) {
        MergedWithItself(gen, events);
      }
    }
    assert MergeNodes(generated.nodes, once, events) == once;
  }

  /** The condition is exact: merging an overlay into itself changes nothing if and only if its
      preservable nodes are status-consistent. */
  lemma SelfMergeExact(g: Overlay, events: set<string>)
    requires UniqueKeys(g.nodes)
    ensures Merge(g, Some(g), false, events) == g <==>
            forall i :: 0 <= i < |g.nodes| && ShouldPreserve(g.nodes[i], events) ==> StatusConsistent(g.nodes[i])
  {
    hide MergedNode, ShouldPreserve, Existing, StatusConsistent;
    var m := MergeNodes(g.nodes, g.nodes, events);
    forall i | 0 <= i < |g.nodes|
      ensures m[i] == g.nodes[i] <==> (ShouldPreserve(g.nodes[i], events) ==> StatusConsistent(g.nodes[i]))
    {
      MergeAt(g.nodes, g.nodes, events, i);
      if ShouldPreserve(g.nodes[i], events) {
        MergedWithItself(g.nodes[i], events);
      }
    }
    if forall i :: 0 <= i < |g.nodes| && ShouldPreserve(g.nodes[i], events) ==> StatusConsistent(g.nodes[i]) {
      assert m == g.nodes;
    }
  }
}
