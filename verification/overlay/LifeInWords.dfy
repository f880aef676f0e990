/** Whole runs over an overlay file, in words: what a node keeps, and what can take it away. */
module LifeInWords {
  import opened Json
  import opened OverlayMerge
  import opened MergeInWords
  import opened OverlayPatch
  import opened ClosedLoopAudit
  import opened AuditInWords
  import opened Lifecycle

  /** A regeneration always leaves the node its content. A patch does, if it is strict and some named entry
      fails its schema, or no entry names the node. An audit does, unless it demotes, covers all tiers, and the
      node cites the web outside the web tier. */
  ghost predicate Leaves(n: Node, s: Step, env: Env) {
    match s
    case Regenerate(_) => true
    case Patch(entries, strict) =>
      || (strict && exists e :: e in entries && e.dpId != "" && !env.schemaOk(e))
      || (forall e :: e in entries ==> e.dpId != n.dpId)
    case Audit(mode) => !(mode.autoDemote && !mode.strictWebOnly && CitesTheWeb(n) && !WebTier(n, env.g))
  }

  lemma LeavesIs(n: Node, s: Step, env: Env)
    ensures Leaves(n, s, env) <==> Spares(n, s, env)
  {
    hide Scan, CitesTheWeb, WebTier;
    match s {
      case Regenerate(_) =>
      case Patch(entries, strict) =>
        assert Rejected(entries, env.schemaOk, strict) <==> strict && exists e :: e in entries && e.dpId != "" && !env.schemaOk(e);
        assert Names(entries, n.dpId) <==> exists e :: e in entries && e.dpId == n.dpId;
      case Audit(mode) =>
        OffenceExactly(n, env.g);
        TierExactly(n, env.g);
    }
  }

  /** Status and the nine content fields are the old ones, missing where they were missing. */
  predicate HoldsContent(m: Node, n: Node) {
    && Lookup(m.fields, DataStatus) == Lookup(n.fields, DataStatus)
    && Lookup(m.fields, ValueKey) == Lookup(n.fields, ValueKey)
    && Lookup(m.fields, Confidence) == Lookup(n.fields, Confidence)
    && Lookup(m.fields, EvidenceSources) == Lookup(n.fields, EvidenceSources)
    && Lookup(m.fields, LastUpdated) == Lookup(n.fields, LastUpdated)
    && Lookup(m.fields, DataSource) == Lookup(n.fields, DataSource)
    && Lookup(m.fields, MissingReason) == Lookup(n.fields, MissingReason)
    && Lookup(m.fields, FingerprintAtFill) == Lookup(n.fields, FingerprintAtFill)
    && Lookup(m.fields, LastFilledPeriod) == Lookup(n.fields, LastFilledPeriod)
    && Lookup(m.fields, LastEventId) == Lookup(n.fields, LastEventId)
  }

  lemma ContentHeld(n: Node, m: Node)
    requires SameContent(n, m)
    ensures HoldsContent(m, n)
  {
    hide Lookup;
  }

  /** Over any run whose every step leaves the node its content, a node whose status is kept (Known, N/A,
      Inactive outside the event-driven slots, or an Optionality with a filled half) holds it at the end. */
  lemma LifeInWords(base: Overlay, o: Overlay, steps: seq<Step>, env: Env, i: nat)
    requires Shaped(base, o) && Stable(base, steps) && UniqueKeys(base.nodes) && i < |base.nodes|
    requires Kept(o.nodes[i], Events(env))
    requires forall j :: 0 <= j < |steps| ==> Leaves(o.nodes[i], steps[j], env)
    ensures i < |Run(o, steps, env).nodes|
    ensures var m := Run(o, steps, env).nodes[i]; HoldsContent(m, o.nodes[i]) && Kept(m, Events(env))
  {
    hide Leaves, Kept, SameContent, HoldsContent, Run, Shaped, Spares, ShouldPreserve;
    ShapedNodes(base, o);
    KeptIsPreserved(o.nodes[i], Events(env));
    forall j | 0 <= j < |steps| ensures Spares(o.nodes[i], steps[j], env) {
      LeavesIs(o.nodes[i], steps[j], env);
    }
    RunPreserves(base, o, steps, env, i);
    var m := Run(o, steps, env).nodes[i];
    KeptIsPreserved(m, Events(env));
    ContentHeld(o.nodes[i], m);
  }

  lemma ShapedNodes(base: Overlay, o: Overlay)
    requires Shaped(base, o)
    ensures |o.nodes| == |base.nodes|
  {
  }
}
