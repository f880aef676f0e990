/** The life of one overlay file: regenerated, patched and audited in any order. */
module Lifecycle {
  import opened Basics
  import opened Json
  import opened OverlayMerge
  import opened OverlayPatch
  import opened OverlayValidation
  import opened ClosedLoopAudit
  import opened Fingerprint
  import opened PromptQueue
  import G = Governance

  /** Regeneration without `force`, a patch file, one audit pass. */
  datatype Step =
    | Regenerate(generated: Overlay)
    | Patch(entries: seq<OverlayPatch.Entry>, strict: bool)
    | Audit(mode: Mode)

  /** What stays fixed during a run: the governance file and the patch schema. */
  datatype Env = Env(g: G.Registry, schemaOk: OverlayPatch.Entry -> bool)

  function Events(env: Env): set<string> { G.EventDrivenIds(env.g) }

  function Apply(o: Overlay, s: Step, env: Env): Overlay {
    match s
    case Regenerate(generated) => Merge(generated, Some(o), false, Events(env))
    case Patch(entries, strict) => o.(nodes := Patched(o.nodes, entries, env.schemaOk, strict))
    case Audit(mode) => o.(nodes := AuditNodes(o.nodes, env.g, mode))
  }

  function Run(o: Overlay, steps: seq<Step>, env: Env): Overlay {
    if steps == [] then o else Apply(Run(o, steps[..|steps| - 1], env), steps[|steps| - 1], env)
  }

  // ---- shape ---------------------------------------------------------------------------

  /** `o` has the edges and other frame of `base`, its node keys in its order, and at least its fields. */
  ghost predicate Shaped(base: Overlay, o: Overlay) {
    && o.frame == base.frame
    && SameKeys(base.nodes, o.nodes)
    && forall i :: 0 <= i < |base.nodes| ==> base.nodes[i].fields.Keys <= o.nodes[i].fields.Keys
  }

  /** Every regeneration produces the frame, the node keys and the field keys of `base`. Field values
      may differ from one regeneration to the next. */
  ghost predicate Stable(base: Overlay, steps: seq<Step>) {
    forall j :: 0 <= j < |steps| && steps[j].Regenerate? ==> SameTemplate(base, steps[j].generated)
  }

  ghost predicate SameTemplate(base: Overlay, generated: Overlay) {
    && generated.frame == base.frame
    && SameKeys(base.nodes, generated.nodes)
    && forall i :: 0 <= i < |base.nodes| ==> base.nodes[i].fields.Keys == generated.nodes[i].fields.Keys
  }

  lemma StablePrefix(base: Overlay, steps: seq<Step>)
    requires steps != [] && Stable(base, steps)
    ensures Stable(base, steps[..|steps| - 1])
    ensures steps[|steps| - 1].Regenerate? ==> SameTemplate(base, steps[|steps| - 1].generated)
  {
    hide SameTemplate;
  }

  lemma MergedKeys(gen: Fields, prev: Fields)
    ensures gen.Keys <= MergedFields(gen, prev).Keys
  {
  }

  lemma RegenerateShape(base: Overlay, o: Overlay, generated: Overlay, env: Env)
    requires Shaped(base, o) && SameTemplate(base, generated)
    ensures Shaped(base, Apply(o, Regenerate(generated), env))
  {
    hide MergedFields, ShouldPreserve, Existing;
    var m := MergeNodes(generated.nodes, o.nodes, Events(env));
    MergeNodesKeys(generated.nodes, o.nodes, Events(env));
    forall i | 0 <= i < |base.nodes| ensures base.nodes[i].fields.Keys <= m[i].fields.Keys {
      var gen := generated.nodes[i];
      var prev := Existing(o.nodes, gen.nodeId, gen.dpId);
      if prev.Some? {
        MergedKeys(gen.fields, prev.value.fields);
      }
    }
  }

  lemma PatchShape(base: Overlay, o: Overlay, entries: seq<OverlayPatch.Entry>, strict: bool, env: Env)
    requires Shaped(base, o)
    ensures Shaped(base, Apply(o, Patch(entries, strict), env))
  {
    hide ApplyEntries;
    ApplyEntriesKeys(o.nodes, entries);
    forall i | 0 <= i < |base.nodes| ensures base.nodes[i].fields.Keys <= ApplyEntries(o.nodes, entries)[i].fields.Keys {
      forall k | k in o.nodes[i].fields ensures k in ApplyEntries(o.nodes, entries)[i].fields {
        PatchKeepsStructure(o.nodes, entries, i, k);
      }
    }
  }

  lemma AuditShape(base: Overlay, o: Overlay, mode: Mode, env: Env)
    requires Shaped(base, o)
    ensures Shaped(base, Apply(o, Audit(mode), env))
  {
    hide Demoted, Demotes;
    forall i | 0 <= i < |o.nodes|
      ensures var a := AuditNode(o.nodes[i], env.g, mode);
              a.nodeId == o.nodes[i].nodeId && a.dpId == o.nodes[i].dpId && o.nodes[i].fields.Keys <= a.fields.Keys
    {
      DemotedNode(o.nodes[i]);
    }
  }

  /** Over any run, node ids, order and edges stay as generated, and no generated field disappears. */
  lemma {:induction false} RunKeepsShape(base: Overlay, o: Overlay, steps: seq<Step>, env: Env)
    requires Shaped(base, o) && Stable(base, steps)
    ensures Shaped(base, Run(o, steps, env))
  {
    hide Shaped, SameTemplate, Apply;
    if steps != [] {
      StablePrefix(base, steps);
      var front := steps[..|steps| - 1];
      RunKeepsShape(base, o, front, env);
      match steps[|steps| - 1] {
        case Regenerate(generated) => RegenerateShape(base, Run(o, front, env), generated, env);
        case Patch(entries, strict) => PatchShape(base, Run(o, front, env), entries, strict, env);
        case Audit(mode) => AuditShape(base, Run(o, front, env), mode, env);
      }
    }
  }

  // ---- generated fields ------------------------------------------------------------------

  /** Fields that neither a patch, nor a merge, nor a status, nor a demotion writes. */
  predicate GeneratedOnly(k: Key) {
    && !Whitelisted(k) && !PreserveField(k)
    && k != DataStatus && k != LegacyStatus && k != MissingPolicy && k != ActiveWeight
  }

  /** The overlay generated last, or the one the run began with. */
  function LastGenerated(o: Overlay, steps: seq<Step>): Overlay {
    if steps == [] then o
    else
      match steps[|steps| - 1]
      case Regenerate(generated) => generated
      case _ => LastGenerated(o, steps[..|steps| - 1])
  }

  lemma MergeTakesGenerated(gen: Node, prev: Node, events: set<string>, k: Key)
    requires ShouldPreserve(prev, events) && GeneratedOnly(k)
    ensures Lookup(MergedNode(gen, prev).fields, k) == Lookup(gen.fields, k)
  {
    hide ShouldPreserve, MergedFields;
    PreservedHasStatus(prev, events);
    MergedLookup(gen.fields, prev.fields, k);
  }

  lemma DemotionKeeps(n: Node, k: Key)
    requires GeneratedOnly(k)
    ensures Lookup(Demoted(n).fields, k) == Lookup(n.fields, k)
  {
  }

  /** Every field nobody writes holds, over any run, the value of the last regeneration (of the starting
      overlay, if there was none), whatever was merged, patched or demoted in between. */
  lemma {:induction false} RunKeepsGenerated(base: Overlay, o: Overlay, steps: seq<Step>, env: Env, i: nat, k: Key)
    requires Shaped(base, o) && Stable(base, steps) && i < |base.nodes| && GeneratedOnly(k)
    ensures i < |Run(o, steps, env).nodes| && i < |LastGenerated(o, steps).nodes|
    ensures Lookup(Run(o, steps, env).nodes[i].fields, k) == Lookup(LastGenerated(o, steps).nodes[i].fields, k)
  {
    hide Apply, Lookup, GeneratedOnly;
    if steps != [] {
      StablePrefix(base, steps);
      var front, s := steps[..|steps| - 1], steps[|steps| - 1];
      RunKeepsGenerated(base, o, front, env, i, k);
      RunKeepsShape(base, o, front, env);
      StepKeepsGenerated(Run(o, front, env), s, env, i, k);
    }
  }

  lemma StepKeepsGenerated(o: Overlay, s: Step, env: Env, i: nat, k: Key)
    requires i < |o.nodes| && GeneratedOnly(k) && (s.Regenerate? ==> |s.generated.nodes| == |o.nodes|)
    ensures i < |Apply(o, s, env).nodes|
    ensures Lookup(Apply(o, s, env).nodes[i].fields, k) ==
            Lookup((if s.Regenerate? then s.generated else o).nodes[i].fields, k)
  {
    hide Lookup, ShouldPreserve, MergedFields, ApplyEntries, Demotes, Demoted, Existing;
    match s {
      case Regenerate(generated) =>
        var gen := generated.nodes[i];
        var prev := Existing(o.nodes, gen.nodeId, gen.dpId);
        if prev.Some? && ShouldPreserve(prev.value, Events(env)) {
          MergeTakesGenerated(gen, prev.value, Events(env), k);
        }
      case Patch(entries, strict) =>
        PatchKeepsStructure(o.nodes, entries, i, k);
      case Audit(mode) =>
        DemotionKeeps(o.nodes[i], k);
    }
  }

  // ---- preservation ----------------------------------------------------------------------

  /** Same status and same preserved fields: value, confidence, evidence, stored fingerprint, ... */
  ghost predicate SameContent(a: Node, b: Node) {
    && a.nodeId == b.nodeId && a.dpId == b.dpId
    && forall k :: PreserveField(k) || k == DataStatus ==> Lookup(a.fields, k) == Lookup(b.fields, k)
  }

  /** The step is no patch, or one that is rejected or does not name the dp_id, and no audit that
      would demote the node as it stands. */
  predicate Spares(n: Node, s: Step, env: Env) {
    match s
    case Regenerate(_) => true
    case Patch(entries, strict) => Rejected(entries, env.schemaOk, strict) || !Names(entries, n.dpId)
    case Audit(mode) => !Demotes(n, env.g, mode)
  }

  predicate Untouched(n: Node, steps: seq<Step>, env: Env) {
    forall j :: 0 <= j < |steps| ==> Spares(n, steps[j], env)
  }

  lemma ContentDecides(a: Node, b: Node, s: Step, env: Env)
    requires SameContent(a, b)
    ensures ShouldPreserve(a, Events(env)) == ShouldPreserve(b, Events(env))
    ensures Spares(a, s, env) == Spares(b, s, env)
    ensures StatusField(a) == StatusField(b) && StoredFingerprint(a) == StoredFingerprint(b)
  {
    hide WebEntries;
    assert Lookup(a.fields, DataStatus) == Lookup(b.fields, DataStatus);
    assert Lookup(a.fields, ValueKey) == Lookup(b.fields, ValueKey);
    assert Lookup(a.fields, EvidenceSources) == Lookup(b.fields, EvidenceSources);
    assert Lookup(a.fields, FingerprintAtFill) == Lookup(b.fields, FingerprintAtFill);
  }

  /** One step that spares a preservable node keeps its content. */
  lemma StepPreserves(base: Overlay, o: Overlay, s: Step, env: Env, i: nat)
    requires Shaped(base, o) && UniqueKeys(base.nodes) && i < |base.nodes|
    requires s.Regenerate? ==> SameTemplate(base, s.generated)
    requires ShouldPreserve(o.nodes[i], Events(env)) && Spares(o.nodes[i], s, env)
    ensures i < |Apply(o, s, env).nodes| && SameContent(o.nodes[i], Apply(o, s, env).nodes[i])
  {
    hide ShouldPreserve, MergedFields, ApplyEntries, Demotes, Demoted, Existing, PreserveField;
    match s {
      case Regenerate(generated) =>
        MergeAt(generated.nodes, o.nodes, Events(env), i);
        forall k | PreserveField(k) || k == DataStatus
          ensures Lookup(o.nodes[i].fields, k) == Lookup(MergedNode(generated.nodes[i], o.nodes[i]).fields, k)
        {
          PreservedContent(generated.nodes[i], o.nodes[i], Events(env), k);
        }
      case Patch(entries, strict) =>
        if !Rejected(entries, env.schemaOk, strict) {
          PatchTouchesOnlyNamed(o.nodes, entries, i);
        }
      case Audit(mode) =>
    }
  }

  /** Whole-run preservation: a node that a merge would preserve (any Known or N/A node among them)
      keeps its status, value, evidence and stored fingerprint over every run, until an accepted patch
      names its dp_id or an audit demotes it. Whether an audit demotes it can be read off the node as
      it was at the start. */
  lemma {:induction false} RunPreserves(base: Overlay, o: Overlay, steps: seq<Step>, env: Env, i: nat)
    requires Shaped(base, o) && Stable(base, steps) && UniqueKeys(base.nodes) && i < |base.nodes|
    requires ShouldPreserve(o.nodes[i], Events(env)) && Untouched(o.nodes[i], steps, env)
    ensures i < |Run(o, steps, env).nodes| && SameContent(o.nodes[i], Run(o, steps, env).nodes[i])
    ensures ShouldPreserve(Run(o, steps, env).nodes[i], Events(env))
  {
    hide SameTemplate, Apply, ShouldPreserve, Spares, SameContent;
    if steps == [] {
      SameContentRefl(o.nodes[i]);
    } else {
      StablePrefix(base, steps);
      var front, s := steps[..|steps| - 1], steps[|steps| - 1];
      var before := Run(o, front, env);
      RunPreserves(base, o, front, env, i);
      RunKeepsShape(base, o, front, env);
      ContentDecides(o.nodes[i], before.nodes[i], s, env);
      StepPreserves(base, before, s, env, i);
      ContentDecides(before.nodes[i], Apply(before, s, env).nodes[i], s, env);
      SameContentTrans(o.nodes[i], before.nodes[i], Apply(before, s, env).nodes[i]);
    }
  }

  lemma SameContentRefl(n: Node)
    ensures SameContent(n, n)
  {
  }

  lemma SameContentTrans(a: Node, b: Node, c: Node)
    requires SameContent(a, b) && SameContent(b, c)
    ensures SameContent(a, c)
  {
  }

  // ---- refresh quiescence ------------------------------------------------------------------

  /** The stored fingerprint is the one recomputed from the hot store. */
  predicate UpToDate(n: Node, g: G.Registry, ctx: Context) {
    n.dpId in g ==>
      var fp := FingerprintOf(ctx.hash, ctx.table, ctx.tsCode, g[n.dpId].dependencies);
      fp.Some? ==> StoredFingerprint(n) == Some(JStr(fp.value))
  }

  /** With the hot store frozen, an up-to-date Known node is never queued: not after any regenerations,
      patches to other nodes and audits that spare it. */
  lemma RunQuiescent(base: Overlay, o: Overlay, steps: seq<Step>, env: Env, i: nat, tier: Option<G.Tier>, ctx: Context)
    requires Shaped(base, o) && Stable(base, steps) && UniqueKeys(base.nodes) && i < |base.nodes|
    requires HasStatus(o.nodes[i], Known) && Untouched(o.nodes[i], steps, env)
    requires UpToDate(o.nodes[i], env.g, ctx)
    ensures i < |Run(o, steps, env).nodes|
    ensures !Queued(Decide(Run(o, steps, env).nodes[i], env.g, tier, Events(env), Some(ctx)))
  {
    hide Run, Stable, Untouched, FingerprintOf, SameContent;
    RunPreserves(base, o, steps, env, i);
    var n := Run(o, steps, env).nodes[i];
    ContentDecides(o.nodes[i], n, Audit(FULL), env);
    SameDp(o.nodes[i], n);
    PreservedQueuedExactly(n, env.g, tier, Some(ctx));
  }

  lemma SameDp(a: Node, b: Node)
    requires SameContent(a, b)
    ensures a.dpId == b.dpId && a.nodeId == b.nodeId
  {
  }

  // ---- demotion and refill ---------------------------------------------------------------------

  predicate NoRegeneration(steps: seq<Step>) {
    forall j :: 0 <= j < |steps| ==> !steps[j].Regenerate?
  }

  /** A node without evidence that no patch names is unchanged until the next regeneration. */
  lemma {:induction false} BareNodeStays(o: Overlay, steps: seq<Step>, env: Env, i: nat)
    requires NoRegeneration(steps) && i < |o.nodes|
    requires EvidenceOf(o.nodes[i]) == [] && Untouched(o.nodes[i], steps, env)
    ensures SameKeys(o.nodes, Run(o, steps, env).nodes) && Run(o, steps, env).nodes[i] == o.nodes[i]
  {
    hide Apply, Spares;
    if steps != [] {
      var front, s := steps[..|steps| - 1], steps[|steps| - 1];
      BareNodeStays(o, front, env, i);
      QuietStep(Run(o, front, env), s, env, i);
    }
  }

  lemma QuietStep(o: Overlay, s: Step, env: Env, i: nat)
    requires !s.Regenerate? && i < |o.nodes|
    requires EvidenceOf(o.nodes[i]) == [] && Spares(o.nodes[i], s, env)
    ensures SameKeys(o.nodes, Apply(o, s, env).nodes) && Apply(o, s, env).nodes[i] == o.nodes[i]
  {
    hide ApplyEntries, Demoted, Scan;
    match s {
      case Patch(entries, strict) =>
        ApplyEntriesKeys(o.nodes, entries);
        if !Rejected(entries, env.schemaOk, strict) {
          PatchTouchesOnlyNamed(o.nodes, entries, i);
        }
      case Audit(mode) =>
        AuditShape(o, o, mode, env);
    }
  }

  /** An audit that demotes node `i` puts it in the fill queue (given an LLM route and a tier that
      passes the filter); it stays there through audits and patches to other nodes, and the next
      regeneration replaces it by the generated node. */
  lemma DemotionLeadsToRefill(o: Overlay, mode: Mode, later: seq<Step>, generated: Overlay, env: Env, i: nat,
                              tier: Option<G.Tier>, ctx: Option<Context>)
    requires i < |o.nodes| && UniqueKeys(o.nodes) && SameKeys(generated.nodes, o.nodes)
    requires Demotes(o.nodes[i], env.g, mode)
    requires NoRegeneration(later) && Untouched(Demoted(o.nodes[i]), later, env)
    requires o.nodes[i].dpId in env.g && env.g[o.nodes[i].dpId].route != G.OtherRoute
    requires tier.Some? ==> env.g[o.nodes[i].dpId].tier == tier
    ensures var demoted := Run(Apply(o, Audit(mode), env), later, env);
            && i < |demoted.nodes|
            && Decide(demoted.nodes[i], env.g, tier, Events(env), ctx) == Fill
            && Apply(demoted, Regenerate(generated), env).nodes[i] == generated.nodes[i]
  {
    hide Demoted, Demotes, Untouched, NoRegeneration, Run, Existing, MergedNode, OptionFilled;
    var n := Demoted(o.nodes[i]);
    DemotedNode(o.nodes[i]);
    AuditShape(o, o, mode, env);
    var audited := Apply(o, Audit(mode), env);
    assert audited.nodes[i] == n;
    BareNodeStays(audited, later, env, i);
    var final := Run(audited, later, env);
    UniqueCarries(o.nodes, final.nodes);
    MergeAt(generated.nodes, final.nodes, Events(env), i);
  }

  lemma UniqueCarries(a: seq<Node>, b: seq<Node>)
    requires UniqueKeys(a) && SameKeys(a, b)
    ensures UniqueKeys(b)
  {
  }

  // ---- patch and regenerate ----------------------------------------------------------------------

  /** What a patch writes, and what is left of it after the next regeneration, when the patched node is
      one a merge preserves: exactly status and preserved fields stay; everything else the patch wrote
      (evidence quality, strength, exposure, ...) goes back to what the generator says. */
  lemma PatchedFieldSurvivesExactly(o: Overlay, e: OverlayPatch.Entry, generated: Overlay, env: Env, i: nat, k: Key)
    requires UniqueKeys(o.nodes) && SameKeys(generated.nodes, o.nodes)
    requires e.dpId != "" && Target(o.nodes, e.dpId) == Some(i)
    requires k in e.items && Whitelisted(k)
    requires i < |o.nodes| && ShouldPreserve(ApplyEntry(o.nodes, e)[i], Events(env))
    ensures var patched := Apply(o, Patch([e], false), env);
            var after := Apply(patched, Regenerate(generated), env);
            && i < |patched.nodes| && Lookup(patched.nodes[i].fields, k) == Some(e.items[k])
            && i < |after.nodes| && Lookup(after.nodes[i].fields, k) ==
               if PreserveField(k) || k == DataStatus then Some(e.items[k]) else Lookup(generated.nodes[i].fields, k)
  {
    hide ShouldPreserve, MergedFields, PatchedFields, Existing;
    SingleEntry(o.nodes, e);
    var patched := Apply(o, Patch([e], false), env);
    TargetIs(o.nodes, e.dpId);
    ApplyEntryIs(o.nodes, e);
    ApplyEntryKeys(o.nodes, e);
    var p := patched.nodes[i];
    PatchedLookup(o.nodes[i].fields, e.items, k);
    UniqueCarries(o.nodes, patched.nodes);
    MergeAt(generated.nodes, patched.nodes, Events(env), i);
    PreservedHasStatus(p, Events(env));
    MergedLookup(generated.nodes[i].fields, p.fields, k);
    WhitelistAvoidsPolicy(k, p.fields[DataStatus]);
  }

  lemma SingleEntry(nodes: seq<Node>, e: OverlayPatch.Entry)
    ensures ApplyEntries(nodes, [e]) == ApplyEntry(nodes, e)
  {
    assert [e][..0] == [];
    assert ApplyEntries(nodes, []) == nodes;
  }

  /** A patch cannot write the legacy status, nor any field a status implies. */
  lemma WhitelistAvoidsPolicy(k: Key, status: Val)
    requires Whitelisted(k)
    ensures k != LegacyStatus && k !in Induced(status)
  {
  }

  /** A patch that turns a node N/A leaves it with the old missing policy, which the validator reports;
      the next regeneration from a clean overlay repairs the node and keeps it N/A. */
  lemma RegenerationRepairsNaPolicy(o: Overlay, e: OverlayPatch.Entry, generated: Overlay, env: Env, i: nat,
                                    vocabulary: Vocabulary)
    requires UniqueKeys(o.nodes) && SameKeys(generated.nodes, o.nodes)
    requires e.dpId != "" && Target(o.nodes, e.dpId) == Some(i) && i < |o.nodes|
    requires DataStatus in e.items && e.items[DataStatus] == JStatus(NotApplicable)
    requires NodeProblems(generated.nodes[i], vocabulary) == []
    ensures var patched := Apply(o, Patch([e], false), env);
            var after := Apply(patched, Regenerate(generated), env);
            && i < |patched.nodes| && i < |after.nodes|
            && (WrongNaPolicy(o.nodes[i].nodeId) in NodeProblems(patched.nodes[i], vocabulary) <==>
                Lookup(o.nodes[i].fields, MissingPolicy) != Some(JPolicy(NotApplicableRemove)))
            && NodeProblems(after.nodes[i], vocabulary) == [] && HasStatus(after.nodes[i], NotApplicable)
  {
    hide MergedFields, PatchedFields, Existing, NodeProblems;
    SingleEntry(o.nodes, e);
    var patched := Apply(o, Patch([e], false), env);
    TargetIs(o.nodes, e.dpId);
    ApplyEntryIs(o.nodes, e);
    ApplyEntryKeys(o.nodes, e);
    var p := patched.nodes[i];
    PatchedLookup(o.nodes[i].fields, e.items, DataStatus);
    PatchedLookup(o.nodes[i].fields, e.items, MissingPolicy);
    assert HasStatus(p, NotApplicable);
    WrongPolicyReported(p, vocabulary);
    UniqueCarries(o.nodes, patched.nodes);
    MergeAt(generated.nodes, patched.nodes, Events(env), i);
    MergedNodeClean(generated.nodes[i], p, Events(env), vocabulary);
    MergedLookup(generated.nodes[i].fields, p.fields, DataStatus);
  }

  lemma WrongPolicyReported(n: Node, vocabulary: Vocabulary)
    requires HasStatus(n, NotApplicable)
    ensures WrongNaPolicy(n.nodeId) in NodeProblems(n, vocabulary) <==>
            Lookup(n.fields, MissingPolicy) != Some(JPolicy(NotApplicableRemove))
  {
    MissingIsNotPolicy(n);
    InvalidIsNotPolicy(n, vocabulary);
    PolicyInRules(n);
    hide MissingFields, InvalidFields, RuleProblems;
  }

  lemma MissingIsNotPolicy(n: Node)
    ensures WrongNaPolicy(n.nodeId) !in MissingFields(n)
  {
    NoneMissing(n, REQUIRED_FIELDS);
    hide MissingAmong;
  }

  lemma InvalidIsNotPolicy(n: Node, vocabulary: Vocabulary)
    ensures WrongNaPolicy(n.nodeId) !in InvalidFields(n, vocabulary)
  {
    StatesAreNotPolicy(n);
    TextsAreNotPolicy(n, vocabulary);
    hide InvalidStates, InvalidTexts;
  }

  lemma StatesAreNotPolicy(n: Node)
    ensures WrongNaPolicy(n.nodeId) !in InvalidStates(n)
  {
    hide LegalStatus, LegalPolicy, LegalLevel, FieldOr;
  }

  lemma TextsAreNotPolicy(n: Node, vocabulary: Vocabulary)
    ensures WrongNaPolicy(n.nodeId) !in InvalidTexts(n, vocabulary)
  {
    hide FieldOr;
  }

  lemma PolicyInRules(n: Node)
    requires HasStatus(n, NotApplicable)
    ensures WrongNaPolicy(n.nodeId) in RuleProblems(n) <==> Lookup(n.fields, MissingPolicy) != Some(JPolicy(NotApplicableRemove))
  {
  }
}
