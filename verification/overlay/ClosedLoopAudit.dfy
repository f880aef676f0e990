/** The evidence audit: web evidence outside the web tier is a hard violation, and
    `--auto-demote` sends the node back to Unknown. */
module ClosedLoopAudit {
  import opened Basics
  import opened Json
  import opened OverlayMerge
  import G = Governance

  /** `https?://`, any case, anywhere. */
  predicate ContainsUrl(s: string) {
    Contains(Lower(s), "http://") || Contains(Lower(s), "https://")
  }

  const WEB_KINDS: seq<string> := ["annual_report", "research_report", "investor_relations", "external_url", "web_fetch"]

  predicate IsWebEvidence(v: Val) {
    match v
    case JStr(s) => ContainsUrl(s)
    case JDict(fields) =>
      || ("kind" in fields && fields["kind"].JStr? && fields["kind"].text in WEB_KINDS)
      || exists k :: k in fields && fields[k].JStr? && ContainsUrl(fields[k].text)
    case _ => false
  }

  function MissingMetadata(v: Val): nat {
    if !v.JDict? then 1
    else
      (if "url" in v.fields && Truthy(v.fields["url"]) then 0 else 1)
      + (if "checksum" in v.fields && Truthy(v.fields["checksum"]) then 0 else 1)
      + (if "fetched_at" in v.fields && Truthy(v.fields["fetched_at"]) then 0 else 1)
  }

  function EvidenceOf(n: Node): seq<Val> {
    if EvidenceSources !in n.fields || !Truthy(n.fields[EvidenceSources]) then []
    else if n.fields[EvidenceSources].JList? then n.fields[EvidenceSources].items
    else [n.fields[EvidenceSources]]
  }

  function WebEntries(evidence: seq<Val>): seq<Val> {
    if evidence == [] then []
    else WebEntries(evidence[..|evidence| - 1]) +
         (if IsWebEvidence(evidence[|evidence| - 1]) then [evidence[|evidence| - 1]] else [])
  }

  function Warnings(web: seq<Val>): nat {
    if web == [] then 0 else Warnings(web[..|web| - 1]) + MissingMetadata(web[|web| - 1])
  }

  datatype Verdict = Fine | Warning | Violation

  /** `scan_node`. */
  function Scan(n: Node, g: G.Registry): Verdict {
    var web := WebEntries(EvidenceOf(n));
    if G.TierOf(n.dpId, g) == Some(G.WebAnalysis) then (if Warnings(web) > 0 then Warning else Fine)
    else if web != [] then Violation
    else Fine
  }

  const REASON := "evidence_violation_closed_loop_web_evidence"

  /** `_demote_node`. Note what it keeps: the value itself. */
  function Demoted(n: Node): Node {
    var f0 := if HasStatus(n, Unknown) then n.fields
              else n.fields[DataStatus := JStatus(Unknown)][LegacyStatus := JStatus(Unknown)]
                           [MissingPolicy := JPolicy(UnknownReduceConfidence)][Confidence := JNull]
                           [MissingReason := JStr(REASON)];
    var f1 := if EvidenceSources in f0 && Truthy(f0[EvidenceSources]) then f0[EvidenceSources := JList([])] else f0;
    var f2 := if DataSource in f1 && Truthy(f1[DataSource]) then f1[DataSource := JNull] else f1;
    n.(fields := f2)
  }

  /** The audit switches that matter to a node. */
  datatype Mode = Mode(autoDemote: bool, strictWebOnly: bool)

  const FULL := Mode(true, false)

  predicate Skipped(n: Node, g: G.Registry, m: Mode) {
    m.strictWebOnly && G.TierOf(n.dpId, g) != Some(G.WebAnalysis)
  }

  predicate Demotes(n: Node, g: G.Registry, m: Mode) {
    m.autoDemote && !Skipped(n, g, m) && Scan(n, g) == Violation
  }

  function AuditNode(n: Node, g: G.Registry, m: Mode): Node {
    if Demotes(n, g, m) then Demoted(n) else n
  }

  function AuditNodes(nodes: seq<Node>, g: G.Registry, m: Mode): (r: seq<Node>)
    ensures |r| == |nodes|
  {
    seq(|nodes|, i requires 0 <= i < |nodes| => AuditNode(nodes[i], g, m))
  }

  /** Hard violations reported (skipped nodes report nothing). */
  function HardViolations(nodes: seq<Node>, g: G.Registry, m: Mode): nat {
    if nodes == [] then 0
    else HardViolations(nodes[..|nodes| - 1], g, m) +
         (if !Skipped(nodes[|nodes| - 1], g, m) && Scan(nodes[|nodes| - 1], g) == Violation then 1 else 0)
  }

  function Demotions(nodes: seq<Node>, g: G.Registry, m: Mode): nat {
    if nodes == [] then 0
    else Demotions(nodes[..|nodes| - 1], g, m) + (if Demotes(nodes[|nodes| - 1], g, m) then 1 else 0)
  }

  function SoftWarningsOf(n: Node, g: G.Registry): nat {
    if Scan(n, g) == Warning then Warnings(WebEntries(EvidenceOf(n))) else 0
  }

  /** Soft warnings reported: what the web evidence of the web tier lacks. */
  function SoftWarnings(nodes: seq<Node>, g: G.Registry): nat {
    if nodes == [] then 0 else SoftWarnings(nodes[..|nodes| - 1], g) + SoftWarningsOf(nodes[|nodes| - 1], g)
  }

  /** `_demote_node` as it runs, reporting whether it changed anything. */
  method DemoteNode(n: Node) returns (after: Node, mutated: bool)
    ensures after == Demoted(n)
    ensures WebEntries(EvidenceOf(n)) != [] ==> mutated
  {
    var f := n.fields;
    mutated := false;
    if !HasStatus(n, Unknown) {
      f := f[DataStatus := JStatus(Unknown)];
      f := f[LegacyStatus := JStatus(Unknown)];
      f := f[MissingPolicy := JPolicy(UnknownReduceConfidence)];
      f := f[Confidence := JNull];
      f := f[MissingReason := JStr(REASON)];
      mutated := true;
    }
    if EvidenceSources in f && Truthy(f[EvidenceSources]) {
      f := f[EvidenceSources := JList([])];
      mutated := true;
    }
    if DataSource in f && Truthy(f[DataSource]) {
      f := f[DataSource := JNull];
      mutated := true;
    }
    after := n.(fields := f);
  }

  /** The node loop of `audit_overlays` over one file. */
  method AuditFile(o: Overlay, g: G.Registry, m: Mode) returns (after: Overlay, hard: nat, soft: nat, demoted: nat)
    ensures after == o.(nodes := AuditNodes(o.nodes, g, m))
    ensures hard == HardViolations(o.nodes, g, m) && demoted == Demotions(o.nodes, g, m)
    ensures soft == SoftWarnings(o.nodes, g)
  {
    hide Scan, Demoted;
    var nodes: seq<Node> := [];
    hard, soft, demoted := 0, 0, 0;
    for i := 0 to |o.nodes|
      invariant |nodes| == i && forall j :: 0 <= j < i ==> nodes[j] == AuditNode(o.nodes[j], g, m)
      invariant hard == HardViolations(o.nodes[..i], g, m) && demoted == Demotions(o.nodes[..i], g, m)
      invariant soft == SoftWarnings(o.nodes[..i], g)
    {
      assert o.nodes[..i + 1][..i] == o.nodes[..i];
      var n := o.nodes[i];
      var verdict := Scan(n, g);
      var kept := n;
      WarnsInWebTier(n, g);
      if !Skipped(n, g, m) {
        if verdict == Violation {
          hard := hard + 1;
        }
        if verdict == Warning {
          soft := soft + Warnings(WebEntries(EvidenceOf(n)));
        }
        if m.autoDemote && verdict == Violation {
          ViolationHasWebEvidence(n, g);
          var mutated;
          kept, mutated := DemoteNode(n);
          if mutated {
            demoted := demoted + 1;
          }
        }
      }
      nodes := nodes + [kept];
    }
    assert o.nodes[..|o.nodes|] == o.nodes;
    assert nodes == AuditNodes(o.nodes, g, m);
    after := o.(nodes := nodes);
  }

  lemma WarnsInWebTier(n: Node, g: G.Registry)
    ensures Scan(n, g) == Warning ==> G.TierOf(n.dpId, g) == Some(G.WebAnalysis)
  {
  }

  lemma ViolationHasWebEvidence(n: Node, g: G.Registry)
    requires Scan(n, g) == Violation
    ensures WebEntries(EvidenceOf(n)) != []
  {
  }

  // ---- convergence ------------------------------------------------------------------

  lemma DemotedNode(n: Node)
    ensures HasStatus(Demoted(n), Unknown) && EvidenceOf(Demoted(n)) == []
    ensures Demoted(n).nodeId == n.nodeId && Demoted(n).dpId == n.dpId
    ensures n.fields.Keys <= Demoted(n).fields.Keys
    ensures Lookup(Demoted(n).fields, ValueKey) == Lookup(n.fields, ValueKey)
  {
  }

  /** After demotion a node raises no hard violation. */
  lemma DemotedScans(n: Node, g: G.Registry)
    ensures Scan(Demoted(n), g) != Violation
  {
    hide Demoted;
    DemotedNode(n);
  }

  lemma {:induction false} NoViolations(nodes: seq<Node>, g: G.Registry, m: Mode)
    requires forall i :: 0 <= i < |nodes| ==> Scan(nodes[i], g) != Violation
    ensures HardViolations(nodes, g, m) == 0 && Demotions(nodes, g, m) == 0
  {
    hide Scan;
    if nodes != [] {
      NoViolations(nodes[..|nodes| - 1], g, m);
    }
  }

  /** Demotion convergence: after one full auto-demote audit, a second audit, in any mode, reports no hard
      violation, demotes nothing and leaves the file as it is. */
  lemma DemotionConverges(o: Overlay, g: G.Registry, m: Mode)
    ensures var once := AuditNodes(o.nodes, g, FULL);
            && HardViolations(once, g, m) == 0 && Demotions(once, g, m) == 0
            && AuditNodes(once, g, m) == once
  {
    hide Scan, Demoted;
    var once := AuditNodes(o.nodes, g, FULL);
    forall i | 0 <= i < |once| ensures Scan(once[i], g) != Violation {
      DemotedScans(o.nodes[i], g);
    }
    NoViolations(once, g, m);
    assert AuditNodes(once, g, m) == once;
  }
}
