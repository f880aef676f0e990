/** The audit, read off the evidence entries before and after it. */
module AuditInWords {
  import opened Basics
  import opened Json
  import opened OverlayMerge
  import opened ClosedLoopAudit
  import G = Governance

  // ---- evidence entries ------------------------------------------------------------------

  /** `v` is one of the node's evidence entries; a bare non-empty value counts as one entry. */
  predicate Cites(n: Node, v: Val) {
    && EvidenceSources in n.fields
    && (if n.fields[EvidenceSources].JList? then v in n.fields[EvidenceSources].items
        else Truthy(n.fields[EvidenceSources]) && v == n.fields[EvidenceSources])
  }

  /** What counts as saying nothing: null, false, zero, and the empty text, list and mapping. */
  lemma TruthyExactly(v: Val)
    ensures Truthy(v) <==> v !in {JNull, JBool(false), JNum(0.0), JStr(""), JList([]), JDict(map[])}
  {
  }

  /** The text has `http://` or `https://` in it, in any case. */
  ghost predicate HasUrl(s: string) {
    exists a: string, u: string, b: string :: s == a + u + b && Lower(u) in {"http://", "https://"}
  }

  /** A text with a link, a mapping with such a text, or a mapping of one of the five web kinds. */
  ghost predicate FromTheWeb(v: Val) {
    || (v.JStr? && HasUrl(v.text))
    || (v.JDict? && exists k :: k in v.fields && v.fields[k].JStr? && HasUrl(v.fields[k].text))
    || (v.JDict? && "kind" in v.fields && v.fields["kind"].JStr?
        && v.fields["kind"].text in {"annual_report", "research_report", "investor_relations", "external_url", "web_fetch"})
  }

  ghost predicate CitesTheWeb(n: Node) { exists v :: Cites(n, v) && FromTheWeb(v) }

  /** Governance puts the node in the one tier that may use the web. */
  predicate WebTier(n: Node, g: G.Registry) { n.dpId != "" && n.dpId in g && g[n.dpId].tier == Some(G.WebAnalysis) }

  ghost predicate Offends(n: Node, g: G.Registry) { CitesTheWeb(n) && !WebTier(n, g) }

  // ---- the scan agrees ---------------------------------------------------------------------

  lemma LowerParts(a: string, b: string)
    ensures Lower(a + b) == Lower(a) + Lower(b)
  {
  }

  lemma UrlIsFound(a: string, u: string, b: string)
    ensures Contains(Lower(a + u + b), Lower(u))
  {
    LowerParts(a + u, b);
    LowerParts(a, u);
    assert Lower(a + u + b)[|a|..] == Lower(u) + Lower(b);
  }

  lemma FoundIsUrl(s: string, p: string)
    requires Contains(Lower(s), p)
    ensures exists a: string, u: string, b: string :: s == a + u + b && Lower(u) == p
  {
    hide Lower, Contains;
    var i := FoundAt(s, p);
    var a, u, b := s[..i], s[i..i + |p|], s[i + |p|..];
    assert s == a + u + b;
  }

  lemma FoundAt(s: string, p: string) returns (i: nat)
    requires Contains(Lower(s), p)
    ensures i + |p| <= |s| && Lower(s[i..i + |p|]) == p
  {
    hide Lower;
    i :| 0 <= i <= |Lower(s)| && StartsWith(Lower(s)[i..], p);
    LowerSlice(s, i, |p|);
    SlicePrefix(Lower(s), i, p);
  }

  lemma LowerSlice(s: string, i: nat, k: nat)
    ensures i + k <= |s| ==> Lower(s[i..i + k]) == Lower(s)[i..i + k]
  {
  }

  lemma SlicePrefix(s: string, i: nat, p: string)
    requires i <= |s| && StartsWith(s[i..], p)
    ensures i + |p| <= |s| && s[i..i + |p|] == p
  {
    assert s[i..][..|p|] == p;
  }

  lemma UrlExactly(s: string)
    ensures HasUrl(s) <==> ContainsUrl(s)
  {
    hide Contains, Lower;
    if HasUrl(s) {
      var a, u, b :| s == a + u + b && Lower(u) in {"http://", "https://"};
      UrlIsFound(a, u, b);
    }
    if ContainsUrl(s) {
      var p := if Contains(Lower(s), "http://") then "http://" else "https://";
      FoundIsUrl(s, p);
    }
  }

  lemma WebExactly(v: Val)
    ensures FromTheWeb(v) <==> IsWebEvidence(v)
  {
    hide HasUrl, ContainsUrl;
    if v.JStr? {
      UrlExactly(v.text);
    }
    if v.JDict? {
      forall k | k in v.fields && v.fields[k].JStr? ensures HasUrl(v.fields[k].text) <==> ContainsUrl(v.fields[k].text) {
        UrlExactly(v.fields[k].text);
      }
      if "kind" in v.fields && v.fields["kind"].JStr? {
        KindExactly(v.fields["kind"].text);
      }
    }
  }

  lemma KindExactly(kind: string)
    ensures kind in WEB_KINDS <==> kind in {"annual_report", "research_report", "investor_relations", "external_url", "web_fetch"}
  {
    var w := WEB_KINDS;
    assert w[0] in w && w[1] in w && w[2] in w && w[3] in w && w[4] in w;
  }

  lemma {:induction false} WebEntriesExactly(evidence: seq<Val>)
    ensures WebEntries(evidence) != [] <==> exists v :: v in evidence && FromTheWeb(v)
  {
    hide IsWebEvidence, FromTheWeb;
    if evidence != [] {
      var front, last := evidence[..|evidence| - 1], evidence[|evidence| - 1];
      assert evidence == front + [last];
      WebEntriesExactly(front);
      WebExactly(last);
    }
  }

  lemma EntriesExactly(n: Node, v: Val)
    ensures Cites(n, v) <==> v in EvidenceOf(n)
  {
  }

  lemma OffenceExactly(n: Node, g: G.Registry)
    ensures Offends(n, g) <==> Scan(n, g) == Violation
  {
    hide FromTheWeb, Cites, EvidenceOf, WebEntries, Warnings;
    WebEntriesExactly(EvidenceOf(n));
    forall v { EntriesExactly(n, v); }
  }

  // ---- the audit -----------------------------------------------------------------------------

  /** An offending node afterwards: back to Unknown with the reason, nothing cited, no source named, and
      every other field, the value among them, as it was. A node that was Unknown before only loses what
      it cited. */
  ghost predicate SentBack(n: Node, after: Node) {
    && after.nodeId == n.nodeId && after.dpId == n.dpId
    && Lookup(after.fields, DataStatus) == Some(JStatus(Unknown))
    && (forall v :: !Cites(after, v))
    && EmptiedAt(n, after, EvidenceSources, JList([])) && EmptiedAt(n, after, DataSource, JNull)
    && (Lookup(n.fields, DataStatus) != Some(JStatus(Unknown)) ==>
          && Lookup(after.fields, LegacyStatus) == Some(JStatus(Unknown))
          && Lookup(after.fields, MissingPolicy) == Some(JPolicy(UnknownReduceConfidence))
          && Lookup(after.fields, Confidence) == Some(JNull)
          && Lookup(after.fields, MissingReason) == Some(JStr("evidence_violation_closed_loop_web_evidence")))
    && (Lookup(n.fields, DataStatus) == Some(JStatus(Unknown)) ==>
          forall k :: k != EvidenceSources && k != DataSource ==> Lookup(after.fields, k) == Lookup(n.fields, k))
    && forall k :: Spared(k) ==> Lookup(after.fields, k) == Lookup(n.fields, k)
  }

  /** What said something under `k` says nothing now; what was missing or said nothing stays. */
  predicate EmptiedAt(n: Node, after: Node, k: Key, nothing: Val) {
    Lookup(after.fields, k) == if k in n.fields && Truthy(n.fields[k]) then Some(nothing) else Lookup(n.fields, k)
  }

  predicate Spared(k: Key) {
    && k != DataStatus && k != LegacyStatus && k != MissingPolicy && k != Confidence && k != MissingReason
    && k != EvidenceSources && k != DataSource
  }

  lemma DemotedInWords(n: Node)
    ensures SentBack(n, Demoted(n))
  {
    NothingCited(n);
    ReasonGiven(n);
    forall k
      ensures Spared(k) ==> Lookup(Demoted(n).fields, k) == Lookup(n.fields, k)
      ensures HasStatus(n, Unknown) && k != EvidenceSources && k != DataSource ==> Lookup(Demoted(n).fields, k) == Lookup(n.fields, k)
    {
      Untouched(n, k);
    }
    hide Cites, Demoted;
  }

  lemma ReasonGiven(n: Node)
    ensures var after := Demoted(n);
            && after.nodeId == n.nodeId && after.dpId == n.dpId
            && Lookup(after.fields, DataStatus) == Some(JStatus(Unknown))
            && EmptiedAt(n, after, EvidenceSources, JList([])) && EmptiedAt(n, after, DataSource, JNull)
            && (!HasStatus(n, Unknown) ==>
                  && Lookup(after.fields, LegacyStatus) == Some(JStatus(Unknown))
                  && Lookup(after.fields, MissingPolicy) == Some(JPolicy(UnknownReduceConfidence))
                  && Lookup(after.fields, Confidence) == Some(JNull)
                  && Lookup(after.fields, MissingReason) == Some(JStr("evidence_violation_closed_loop_web_evidence")))
  {
  }

  lemma Untouched(n: Node, k: Key)
    ensures Spared(k) ==> Lookup(Demoted(n).fields, k) == Lookup(n.fields, k)
    ensures HasStatus(n, Unknown) && k != EvidenceSources && k != DataSource ==> Lookup(Demoted(n).fields, k) == Lookup(n.fields, k)
  {
  }

  lemma NothingCited(n: Node)
    ensures forall v :: !Cites(Demoted(n), v)
  {
    DemotedNode(n);
    forall v { EntriesExactly(Demoted(n), v); }
    hide Demoted, EvidenceOf, Cites, FromTheWeb;
  }

  /** One audit pass in any mode: exactly the offending nodes change, and only if the pass demotes and is not
      confined to the web tier; they are sent back. So after a full audit no node outside the web tier cites
      the web, while the web tier and everything that cites no web stands as it was. */
  lemma AuditInWords(nodes: seq<Node>, g: G.Registry, mode: Mode, i: nat)
    requires i < |nodes|
    ensures var after := AuditNodes(nodes, g, mode);
            if mode.autoDemote && !mode.strictWebOnly && Offends(nodes[i], g) then SentBack(nodes[i], after[i])
            else after[i] == nodes[i]
    ensures var after := AuditNodes(nodes, g, FULL);
            && (WebTier(nodes[i], g) ==> after[i] == nodes[i])
            && (!CitesTheWeb(nodes[i]) ==> after[i] == nodes[i])
            && (!WebTier(nodes[i], g) ==> !CitesTheWeb(after[i]))
  {
    hide Scan, Demoted, CitesTheWeb, SentBack;
    OffenceExactly(nodes[i], g);
    DemotedInWords(nodes[i]);
    SentBackIsClean(nodes[i], Demoted(nodes[i]));
    TierExactly(nodes[i], g);
  }

  lemma SentBackIsClean(n: Node, after: Node)
    requires SentBack(n, after)
    ensures !CitesTheWeb(after)
  {
  }

  lemma TierExactly(n: Node, g: G.Registry)
    ensures WebTier(n, g) <==> G.TierOf(n.dpId, g) == Some(G.WebAnalysis)
  {
  }

  /** The places of the offending nodes. */
  ghost function Offenders(nodes: seq<Node>, g: G.Registry): set<int> {
    set i | 0 <= i < |nodes| && Offends(nodes[i], g)
  }

  /** What the pass reports: one hard violation per offending node, unless confined to the web tier. */
  lemma {:induction false} ViolationsCounted(nodes: seq<Node>, g: G.Registry, mode: Mode)
    ensures HardViolations(nodes, g, mode) ==
            if mode.strictWebOnly then 0 else |Offenders(nodes, g)|
    ensures Demotions(nodes, g, mode) == if mode.autoDemote then HardViolations(nodes, g, mode) else 0
  {
    hide Scan, Offends;
    if nodes != [] {
      var n := |nodes| - 1;
      var front := nodes[..n];
      ViolationsCounted(front, g, mode);
      OffenceExactly(nodes[n], g);
      OffenceHasTier(nodes[n], g);
      TierExactly(nodes[n], g);
      OneMoreOffender(nodes, g);
      hide Offenders;
    } else {
      NoOffenders(g);
    }
  }

  lemma NoOffenders(g: G.Registry)
    ensures |Offenders([], g)| == 0
  {
  }

  lemma OneMoreOffender(nodes: seq<Node>, g: G.Registry)
    requires nodes != []
    ensures var n := |nodes| - 1;
            |Offenders(nodes, g)| == |Offenders(nodes[..n], g)| + (if Offends(nodes[n], g) then 1 else 0)
  {
    hide Offends;
    var n := |nodes| - 1;
    var before := Offenders(nodes[..n], g);
    assert forall i :: 0 <= i < n ==> nodes[..n][i] == nodes[i];
    assert Offenders(nodes, g) == if Offends(nodes[n], g) then before + {n} else before;
    assert n !in before;
  }

  lemma OffenceHasTier(n: Node, g: G.Registry)
    ensures Offends(n, g) ==> !WebTier(n, g)
  {
  }

  // ---- soft warnings ---------------------------------------------------------------------------

  /** The metadata a web citation should carry and does not; one thing, when it is not a mapping at all. */
  function Lacks(v: Val): set<string> {
    if v.JDict? then set k | k in {"url", "checksum", "fetched_at"} && (k in v.fields ==> !Truthy(v.fields[k])) else {"all"}
  }

  function LacksKey(v: Val, k: string): set<string>
    requires v.JDict?
  {
    if k in v.fields && Truthy(v.fields[k]) then {} else {k}
  }

  lemma LacksParts(v: Val)
    requires v.JDict?
    ensures Lacks(v) == LacksKey(v, "url") + LacksKey(v, "checksum") + LacksKey(v, "fetched_at")
  {
    hide Truthy;
  }

  lemma LacksCounted(v: Val)
    ensures MissingMetadata(v) == |Lacks(v)|
  {
    hide Truthy, Lacks;
    if v.JDict? {
      LacksParts(v);
      var a, b, c := LacksKey(v, "url"), LacksKey(v, "checksum"), LacksKey(v, "fetched_at");
      assert |a + b| == |a| + |b|;
      assert |a + b + c| == |a + b| + |c|;
    } else {
      NotAMapping(v);
    }
  }

  lemma NotAMapping(v: Val)
    requires !v.JDict?
    ensures |Lacks(v)| == 1
  {
  }

  lemma {:induction false} WarningsAre(evidence: seq<Val>)
    ensures Warnings(WebEntries(evidence)) > 0 <==> exists v :: v in evidence && FromTheWeb(v) && Lacks(v) != {}
  {
    hide IsWebEvidence, FromTheWeb, Lacks, MissingMetadata;
    if evidence != [] {
      var front, last := evidence[..|evidence| - 1], evidence[|evidence| - 1];
      assert evidence == front + [last];
      WarningsAre(front);
      WebExactly(last);
      LacksCounted(last);
      assert (WebEntries(front) + [last])[..|WebEntries(front)|] == WebEntries(front);
      assert WebEntries(front) + [] == WebEntries(front);
    }
  }

  /** In the web tier a citation of the web is asked for its url, checksum and time of fetching; nothing else
      is ever warned about. */
  lemma WarningExactly(n: Node, g: G.Registry)
    ensures SoftWarningsOf(n, g) > 0 <==> WebTier(n, g) && exists v :: Cites(n, v) && FromTheWeb(v) && Lacks(v) != {}
  {
    hide FromTheWeb, Cites, EvidenceOf, WebEntries, Warnings, Lacks;
    WarningsAre(EvidenceOf(n));
    forall v { EntriesExactly(n, v); }
    TierExactly(n, g);
  }

  /** One citation gives one warning for each thing it lacks. */
  lemma WarningsOfOne(n: Node, g: G.Registry, v: Val)
    requires WebTier(n, g) && FromTheWeb(v) && Is(n, EvidenceSources, JList([v]))
    ensures SoftWarningsOf(n, g) == |Lacks(v)|
  {
    hide FromTheWeb, IsWebEvidence, Lacks, MissingMetadata;
    WebExactly(v);
    LacksCounted(v);
    TierExactly(n, g);
    assert [v][..0] == [];
    assert WebEntries([]) == [];
    assert WebEntries([v]) == [v];
    assert Warnings([]) == 0;
    assert Warnings([v]) == MissingMetadata(v);
  }

  predicate Is(n: Node, k: Key, v: Val) { k in n.fields && n.fields[k] == v }
}
