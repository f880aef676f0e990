/** Which nodes a prompt asks the model to fill. */
module PromptQueue {
  import opened Basics
  import opened Json
  import opened HotStore
  import opened OverlayMerge
  import opened MergeInWords
  import opened Fingerprint
  import G = Governance

  /** Database context; absent in a dry listing. */
  datatype Context = Context(hash: Hasher, table: Option<Table>, tsCode: string)

  datatype Reason =
    | NotInGovernance | WrongRoute | TierMismatch
    | OptionalityFilled | InactiveStatic | InactiveNoContext | InactiveNoChange(why: RefreshReason)
    | PreservedKnown | KnownNoChange(why: RefreshReason) | PreservedNotApplicable | OtherStatus

  datatype Decision = Fill | Refresh(why: RefreshReason) | Skip(reason: Reason)

  predicate Queued(d: Decision) { !d.Skip? }

  /** `_is_fillable`. `tier` None means the filter is off. */
  function Decide(n: Node, g: G.Registry, tier: Option<G.Tier>, events: set<string>, ctx: Option<Context>): Decision {
    if n.dpId !in g then Skip(NotInGovernance)
    else
      var e := g[n.dpId];
      if e.route == G.OtherRoute then Skip(WrongRoute)
      else if tier.Some? && e.tier != tier then Skip(TierMismatch)
      else if HasStatus(n, Unknown) then Fill
      else if HasStatus(n, Optionality) then (if OptionFilled(n) then Skip(OptionalityFilled) else Fill)
      else if HasStatus(n, Inactive) then
        if !(e.trigger == G.EventDriven || n.dpId in events) then Skip(InactiveStatic)
        else if ctx.None? then Skip(InactiveNoContext)
        else
          var why := RefreshDecision(n, e, ctx.value.hash, ctx.value.table, ctx.value.tsCode);
          if NeedsRefresh(why) then Refresh(why) else Skip(InactiveNoChange(why))
      else if HasStatus(n, Known) then
        if ctx.None? then Skip(PreservedKnown)
        else
          var why := RefreshDecision(n, e, ctx.value.hash, ctx.value.table, ctx.value.tsCode);
          if NeedsRefresh(why) then Refresh(why) else Skip(KnownNoChange(why))
      else if HasStatus(n, NotApplicable) then Skip(PreservedNotApplicable)
      else Skip(Reason.OtherStatus)
  }

  /** The layer filters of `_filter_nodes`. */
  predicate InLayers(dp: string, prefix: string, exclude: seq<string>) {
    (prefix == "" || StartsWith(dp, prefix)) && forall i :: 0 <= i < |exclude| ==> !StartsWith(dp, exclude[i])
  }

  /** What `_filter_nodes` is given besides the nodes. */
  datatype Filter = Filter(g: G.Registry, prefix: string, exclude: seq<string>, tier: Option<G.Tier>,
                           events: set<string>, ctx: Option<Context>)

  predicate Admitted(n: Node, f: Filter) { InLayers(n.dpId, f.prefix, f.exclude) }

  function Decided(n: Node, f: Filter): Decision { Decide(n, f.g, f.tier, f.events, f.ctx) }

  /** The nodes to fill, in order. */
  function Fillable(nodes: seq<Node>, f: Filter): seq<Node> {
    if nodes == [] then []
    else
      var n := nodes[|nodes| - 1];
      Fillable(nodes[..|nodes| - 1], f) + (if Admitted(n, f) && Queued(Decided(n, f)) then [n] else [])
  }

  /** The nodes passed over, in order, with the reason. */
  function PassedOver(nodes: seq<Node>, f: Filter): seq<(string, Reason)> {
    if nodes == [] then []
    else
      var n := nodes[|nodes| - 1];
      PassedOver(nodes[..|nodes| - 1], f)
      + (if Admitted(n, f) && !Queued(Decided(n, f)) then [(n.dpId, Decided(n, f).reason)] else [])
  }

  /** `_filter_nodes`. */
  method FilterNodes(nodes: seq<Node>, f: Filter) returns (fillable: seq<Node>, skipped: seq<(string, Reason)>)
    ensures fillable == Fillable(nodes, f) && skipped == PassedOver(nodes, f)
  {
    hide Decide, InLayers;
    fillable, skipped := [], [];
    for i := 0 to |nodes|
      invariant fillable == Fillable(nodes[..i], f) && skipped == PassedOver(nodes[..i], f)
    {
      var n := nodes[i];
      assert nodes[..i + 1][..i] == nodes[..i];
      if Admitted(n, f) {
        var d := Decided(n, f);
        if Queued(d) {
          fillable := fillable + [n];
        } else {
          skipped := skipped + [(n.dpId, d.reason)];
        }
      }
    }
    assert nodes[..|nodes|] == nodes;
  }

  /** Every admitted node is in exactly one of the two lists, and nothing else is in either. */
  lemma {:induction false} FilterIsExact(nodes: seq<Node>, f: Filter)
    ensures forall n :: n in Fillable(nodes, f) <==> n in nodes && Admitted(n, f) && Queued(Decided(n, f))
    ensures forall dp, r :: (dp, r) in PassedOver(nodes, f) <==>
              exists n :: n in nodes && n.dpId == dp && Admitted(n, f) && Decided(n, f) == Skip(r)
    ensures |Fillable(nodes, f)| + |PassedOver(nodes, f)| == |AdmittedOf(nodes, f)|
  {
    hide Decided, Admitted;
    if nodes != [] {
      var front, last := nodes[..|nodes| - 1], nodes[|nodes| - 1];
      assert nodes == front + [last];
      FilterIsExact(front, f);
    }
  }

  ghost predicate BeginsWith(dp: string, p: string) { exists rest: string :: dp == p + rest }

  lemma BeginsIs(dp: string, p: string)
    ensures StartsWith(dp, p) <==> BeginsWith(dp, p)
  {
    assert StartsWith(dp, p) ==> dp == p + dp[|p|..];
  }

  /** A node passes the layer filters exactly when its dp_id begins with the wanted prefix and with none of the
      unwanted ones. */
  lemma AdmittedExactly(n: Node, f: Filter)
    ensures Admitted(n, f) <==> BeginsWith(n.dpId, f.prefix) && forall p :: p in f.exclude ==> !BeginsWith(n.dpId, p)
  {
    hide BeginsWith, StartsWith;
    BeginsIs(n.dpId, f.prefix);
    AnythingBegins(n.dpId);
    forall p { BeginsIs(n.dpId, p); }
  }

  lemma AnythingBegins(dp: string)
    ensures BeginsWith(dp, "")
  {
    assert dp == "" + dp;
  }

  function AdmittedOf(nodes: seq<Node>, f: Filter): seq<Node> {
    if nodes == [] then []
    else AdmittedOf(nodes[..|nodes| - 1], f) + (if Admitted(nodes[|nodes| - 1], f) then [nodes[|nodes| - 1]] else [])
  }

  // ---- the queue against the merge -------------------------------------------------------

  /** With the event-driven set taken from the same governance, a node that a merge would preserve is
      queued exactly when it is Known, its route and tier admit it, and its dependencies have a current
      fingerprint that the stored one is missing or differs from. */
  lemma PreservedQueuedExactly(n: Node, g: G.Registry, tier: Option<G.Tier>, ctx: Option<Context>)
    requires ShouldPreserve(n, G.EventDrivenIds(g))
    ensures Queued(Decide(n, g, tier, G.EventDrivenIds(g), ctx)) <==>
            && HasStatus(n, Known) && ctx.Some?
            && n.dpId in g && g[n.dpId].route != G.OtherRoute && (tier.Some? ==> g[n.dpId].tier == tier)
            && g[n.dpId].trigger != G.StaticPicture && g[n.dpId].trigger != G.ExplicitRefresh
            && var current := FingerprintOf(ctx.value.hash, ctx.value.table, ctx.value.tsCode, g[n.dpId].dependencies);
               current.Some? && StoredFingerprint(n) != Some(JStr(current.value))
  {
    if ctx.Some? && n.dpId in g {
      RefreshExactly(n, g[n.dpId], ctx.value.hash, ctx.value.table, ctx.value.tsCode);
    }
    hide RefreshDecision, FingerprintOf, OptionFilled;
  }

  /** The stored fingerprint is out of date, and the trigger lets that count. */
  predicate Stale(n: Node, e: G.Entry, ctx: Option<Context>) {
    && ctx.Some? && e.trigger != G.StaticPicture && e.trigger != G.ExplicitRefresh
    && var current := FingerprintOf(ctx.value.hash, ctx.value.table, ctx.value.tsCode, e.dependencies);
       current.Some? && Lookup(n.fields, FingerprintAtFill) != Some(JStr(current.value))
  }

  /** The whole queue rule, status by status: Unknown nodes and Optionalities with both halves empty are filled;
      Known nodes, and Inactive ones that are event-driven by their entry or by the list, are refreshed when
      their sources moved; nothing else is. */
  lemma QueuedExactly(n: Node, g: G.Registry, tier: Option<G.Tier>, events: set<string>, ctx: Option<Context>)
    ensures Queued(Decide(n, g, tier, events, ctx)) <==>
            && n.dpId in g && (g[n.dpId].route == G.LlmClose || g[n.dpId].route == G.LlmWeb)
            && (tier.Some? ==> g[n.dpId].tier == tier)
            && DataStatus in n.fields && n.fields[DataStatus].JStatus?
            && match n.fields[DataStatus].status
               case Unknown => true
               case Optionality => !HalfGiven(n)
               case Known => Stale(n, g[n.dpId], ctx)
               case Inactive => (g[n.dpId].trigger == G.EventDriven || n.dpId in events) && Stale(n, g[n.dpId], ctx)
               case _ => false
  {
    if ctx.Some? && n.dpId in g {
      RefreshExactly(n, g[n.dpId], ctx.value.hash, ctx.value.table, ctx.value.tsCode);
      StoredIs(n);
    }
    GivenIsFilled(n);
    hide RefreshDecision, FingerprintOf, OptionFilled, HalfGiven, StoredFingerprint;
  }

  lemma GivenIsFilled(n: Node)
    ensures HalfGiven(n) <==> OptionFilled(n)
  {
  }

  lemma StoredIs(n: Node)
    ensures forall s: string :: StoredFingerprint(n) == Some(JStr(s)) <==> Lookup(n.fields, FingerprintAtFill) == Some(JStr(s))
  {
  }
}
