/** The merge, read off its result field by field, with nothing taken from the rule that
    computes it. */
module MergeInWords {
  import opened Basics
  import opened Json
  import opened OverlayMerge

  /** Neither missing nor one of the four empty values. */
  predicate Given(v: Val, key: string) {
    && v.JDict? && key in v.fields
    && v.fields[key] != JNull && v.fields[key] != JStr("") && v.fields[key] != JDict(map[]) && v.fields[key] != JList([])
  }

  predicate HalfGiven(n: Node) {
    ValueKey in n.fields && (Given(n.fields[ValueKey], "current_contribution") || Given(n.fields[ValueKey], "future_option_value"))
  }

  /** The statuses a regeneration keeps. */
  predicate Kept(n: Node, events: set<string>) {
    && DataStatus in n.fields && n.fields[DataStatus].JStatus?
    && match n.fields[DataStatus].status
       case Known => true
       case NotApplicable => true
       case Inactive => n.dpId !in events
       case Optionality => HalfGiven(n)
       case _ => false
  }

  /** `m` carries the old value of `k`, if there was one. */
  predicate Carries(m: Node, prev: Node, k: Key) {
    k in prev.fields ==> k in m.fields && m.fields[k] == prev.fields[k]
  }

  /** Content comes from the old node: status and nine fields. */
  predicate CarriesContent(m: Node, prev: Node) {
    && Carries(m, prev, DataStatus)
    && Carries(m, prev, ValueKey) && Carries(m, prev, Confidence) && Carries(m, prev, EvidenceSources)
    && Carries(m, prev, LastUpdated) && Carries(m, prev, DataSource) && Carries(m, prev, MissingReason)
    && Carries(m, prev, FingerprintAtFill) && Carries(m, prev, LastFilledPeriod) && Carries(m, prev, LastEventId)
  }

  predicate Content(k: Key) {
    || k == DataStatus || k == ValueKey || k == Confidence || k == EvidenceSources || k == LastUpdated || k == DataSource
    || k == MissingReason || k == FingerprintAtFill || k == LastFilledPeriod || k == LastEventId
  }

  /** Structure comes from the generated node: every field that is neither content nor implied by the status,
      and content fields the old node did not have. */
  ghost predicate KeepsStructure(m: Node, gen: Node, prev: Node) {
    && m.nodeId == gen.nodeId && m.dpId == gen.dpId
    && (forall k :: !Content(k) && k != LegacyStatus && k != MissingPolicy && k != ActiveWeight ==> Lookup(m.fields, k) == Lookup(gen.fields, k))
    && (forall k :: Content(k) && k !in prev.fields ==> Lookup(m.fields, k) == Lookup(gen.fields, k))
    && (LegacyStatus in m.fields <==> LegacyStatus in gen.fields)
    && (LegacyStatus in gen.fields && DataStatus in prev.fields ==> Lookup(m.fields, LegacyStatus) == Lookup(prev.fields, DataStatus))
  }

  /** Missing policy and active weight follow the status. */
  predicate FollowsStatus(m: Node, gen: Node, s: Status) {
    match s
    case NotApplicable =>
      Lookup(m.fields, MissingPolicy) == Some(JPolicy(NotApplicableRemove)) && Lookup(m.fields, ActiveWeight) == Some(JNum(0.0))
    case Inactive =>
      Lookup(m.fields, MissingPolicy) == Some(JPolicy(InactiveZeroWeight)) && Lookup(m.fields, ActiveWeight) == Some(JNum(0.0))
    case Optionality =>
      Lookup(m.fields, MissingPolicy) == Some(JPolicy(OptionalityTrack)) && Lookup(m.fields, ActiveWeight) == Lookup(gen.fields, ActiveWeight)
    case _ =>
      Lookup(m.fields, MissingPolicy) == Lookup(gen.fields, MissingPolicy) && Lookup(m.fields, ActiveWeight) == Lookup(gen.fields, ActiveWeight)
  }

  // ---- one node --------------------------------------------------------------------------

  lemma KeptIsPreserved(n: Node, events: set<string>)
    ensures Kept(n, events) <==> ShouldPreserve(n, events)
  {
  }

  lemma MergedInWords(gen: Node, prev: Node)
    requires DataStatus in prev.fields && prev.fields[DataStatus].JStatus?
    ensures var m := MergedNode(gen, prev);
            CarriesContent(m, prev) && KeepsStructure(m, gen, prev) && FollowsStatus(m, gen, prev.fields[DataStatus].status)
  {
    hide MergedNode, Carries;
    forall k | Content(k) ensures Carries(MergedNode(gen, prev), prev, k) {
      ContentCarried(gen, prev, k);
    }
    hide KeepsStructure, FollowsStatus;
    StructureInWords(gen, prev);
    StatusInWords(gen, prev);
  }

  lemma ContentCarried(gen: Node, prev: Node, k: Key)
    requires DataStatus in prev.fields && prev.fields[DataStatus].JStatus? && Content(k)
    ensures Carries(MergedNode(gen, prev), prev, k)
  {
    hide MergedFields, PreserveField, Induced, Content;
    MergedLookup(gen.fields, prev.fields, k);
    ContentIs(k, prev.fields[DataStatus]);
    assert k in prev.fields ==> Lookup(MergedNode(gen, prev).fields, k) == Some(prev.fields[k]);
  }

  lemma ContentIs(k: Key, status: Val)
    ensures Content(k) <==> PreserveField(k) || k == DataStatus
    ensures Content(k) ==> k !in Induced(status) && k != LegacyStatus
    ensures k != MissingPolicy && k != ActiveWeight ==> k !in Induced(status)
  {
  }

  lemma StructureInWords(gen: Node, prev: Node)
    requires DataStatus in prev.fields && prev.fields[DataStatus].JStatus?
    ensures KeepsStructure(MergedNode(gen, prev), gen, prev)
  {
    hide MergedFields, Content, PreserveField, Induced;
    var m := MergedNode(gen, prev);
    forall k
      ensures !Content(k) && k != LegacyStatus && k != MissingPolicy && k != ActiveWeight ==> Lookup(m.fields, k) == Lookup(gen.fields, k)
      ensures Content(k) && k !in prev.fields ==> Lookup(m.fields, k) == Lookup(gen.fields, k)
    {
      MergedLookup(gen.fields, prev.fields, k);
      ContentIs(k, prev.fields[DataStatus]);
    }
    MergedLookup(gen.fields, prev.fields, LegacyStatus);
    ContentIs(LegacyStatus, prev.fields[DataStatus]);
    assert Lookup(m.fields, LegacyStatus) == if LegacyStatus in gen.fields then Some(prev.fields[DataStatus]) else None;
  }

  lemma StatusInWords(gen: Node, prev: Node)
    requires DataStatus in prev.fields && prev.fields[DataStatus].JStatus?
    ensures FollowsStatus(MergedNode(gen, prev), gen, prev.fields[DataStatus].status)
  {
    hide MergedFields;
    MergedLookup(gen.fields, prev.fields, MissingPolicy);
    MergedLookup(gen.fields, prev.fields, ActiveWeight);
  }

  // ---- the merge result ----------------------------------------------------------------------

  predicate SameKey(a: Node, b: Node) { a.nodeId == b.nodeId && a.dpId == b.dpId }

  /** Node `j` is the last one with its key. */
  predicate LastWithKey(nodes: seq<Node>, j: int) {
    0 <= j < |nodes| && forall k :: j < k < |nodes| ==> !SameKey(nodes[k], nodes[j])
  }

  lemma {:induction false} ExistingIsLast(nodes: seq<Node>, j: nat)
    requires LastWithKey(nodes, j)
    ensures Existing(nodes, nodes[j].nodeId, nodes[j].dpId) == Some(nodes[j])
  {
    var n := |nodes| - 1;
    if j < n {
      assert !SameKey(nodes[n], nodes[j]);
      assert forall k :: 0 <= k < n ==> nodes[..n][k] == nodes[k];
      ExistingIsLast(nodes[..n], j);
    }
  }

  /** At each generated node: no old node of that key, or the last old node of that key has a status that is
      not kept, and the generated node stands as it is; otherwise content is the old node's, structure the generated one's,
      and policy and weight follow the status. */
  lemma MergeInWords(generated: Overlay, existing: Overlay, events: set<string>, i: nat)
    requires i < |generated.nodes|
    ensures var m := Merge(generated, Some(existing), false, events);
            && m.frame == generated.frame && |m.nodes| == |generated.nodes|
            && ((forall j :: 0 <= j < |existing.nodes| ==> !SameKey(existing.nodes[j], generated.nodes[i])) ==> m.nodes[i] == generated.nodes[i])
            && forall j :: LastWithKey(existing.nodes, j) && SameKey(existing.nodes[j], generated.nodes[i]) ==>
                 if Kept(existing.nodes[j], events) then
                   && CarriesContent(m.nodes[i], existing.nodes[j])
                   && KeepsStructure(m.nodes[i], generated.nodes[i], existing.nodes[j])
                   && FollowsStatus(m.nodes[i], generated.nodes[i], existing.nodes[j].fields[DataStatus].status)
                 else m.nodes[i] == generated.nodes[i]
  {
    hide ShouldPreserve, MergedNode, CarriesContent, KeepsStructure, FollowsStatus, Existing, Kept;
    var gen := generated.nodes[i];
    ExistingHasKey(existing.nodes, gen.nodeId, gen.dpId);
    forall j | LastWithKey(existing.nodes, j) && SameKey(existing.nodes[j], gen)
      ensures if Kept(existing.nodes[j], events) then
                var m := Merge(generated, Some(existing), false, events).nodes[i];
                && DataStatus in existing.nodes[j].fields && existing.nodes[j].fields[DataStatus].JStatus?
                && CarriesContent(m, existing.nodes[j]) && KeepsStructure(m, gen, existing.nodes[j])
                && FollowsStatus(m, gen, existing.nodes[j].fields[DataStatus].status)
              else Merge(generated, Some(existing), false, events).nodes[i] == gen
    {
      ExistingIsLast(existing.nodes, j);
      KeptIsPreserved(existing.nodes[j], events);
      KeptHasStatus(existing.nodes[j], events);
      if Kept(existing.nodes[j], events) {
        MergedInWords(gen, existing.nodes[j]);
      }
    }
  }

  lemma KeptHasStatus(n: Node, events: set<string>)
    ensures Kept(n, events) ==> DataStatus in n.fields && n.fields[DataStatus].JStatus?
  {
  }
}
