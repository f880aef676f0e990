/** The in-place pass that promotes Unavailable nodes to Proxy, and where the
    promoted values come from. */
module ProxyPass {
  import opened Basics
  import opened AggregatorNode
  import opened CompanyTree

  predicate HasUsableValue(v: RawPayload) {
    v != VNull && !(v.VDict? && v.cells == map[])
  }

  /** May lend its value: Known or Proxy, with something to lend. */
  predicate Donor(n: Node) {
    (n.status == Known || n.status == Proxy) && HasUsableValue(n.value.raw)
  }

  /** `nodes_by_dp[dp]`: the ids carrying a dp_id, in insertion order. */
  function WithDp(nodes: map<string, Node>, ids: seq<string>, dp: string): seq<string>
    requires Elements(ids) <= nodes.Keys
  {
    if ids == [] then []
    else
      var last := ids[|ids| - 1];
      assert last in Elements(ids) && Elements(ids[..|ids| - 1]) <= Elements(ids);
      WithDp(nodes, ids[..|ids| - 1], dp) + (if dp != "" && nodes[last].dpId == dp then [last] else [])
  }

  lemma NoneWithDp(nodes: map<string, Node>)
    ensures Elements([]) <= nodes.Keys && forall dp :: WithDp(nodes, [], dp) == []
  {
  }

  lemma WithDpStep(nodes: map<string, Node>, ids: seq<string>, i: nat, dp: string)
    requires i < |ids| && Elements(ids[..i + 1]) <= nodes.Keys && Elements(ids[..i]) <= nodes.Keys && ids[i] in nodes
    ensures WithDp(nodes, ids[..i + 1], dp) ==
            WithDp(nodes, ids[..i], dp) + (if dp != "" && nodes[ids[i]].dpId == dp then [ids[i]] else [])
  {
    assert ids[..i + 1][..i] == ids[..i];
  }

  lemma {:induction false} WithDpIs(nodes: map<string, Node>, ids: seq<string>, dp: string)
    requires Elements(ids) <= nodes.Keys
    ensures forall d :: d in WithDp(nodes, ids, dp) ==> d in nodes
    ensures forall d :: d in WithDp(nodes, ids, dp) <==> d in ids && dp != "" && nodes[d].dpId == dp
  {
    if ids != [] {
      assert Elements(ids[..|ids| - 1]) <= Elements(ids);
      WithDpIs(nodes, ids[..|ids| - 1], dp);
    }
  }

  function FirstDonor(nodes: map<string, Node>, list: seq<string>, self: string): Option<string>
    requires forall d :: d in list ==> d in nodes
  {
    if list == [] then None
    else if list[0] != self && Donor(nodes[list[0]]) then Some(list[0])
    else FirstDonor(nodes, list[1..], self)
  }

  lemma FirstDonorStep(nodes: map<string, Node>, list: seq<string>, self: string)
    requires list != [] && forall d :: d in list ==> d in nodes
    ensures FirstDonor(nodes, list, self) ==
            if list[0] != self && Donor(nodes[list[0]]) then Some(list[0]) else FirstDonor(nodes, list[1..], self)
  {
  }

  lemma FirstDonorEnd(nodes: map<string, Node>, self: string)
    ensures FirstDonor(nodes, [], self) == None
  {
  }

  lemma {:induction false} FirstDonorIs(nodes: map<string, Node>, list: seq<string>, self: string)
    requires forall d :: d in list ==> d in nodes
    ensures var r := FirstDonor(nodes, list, self);
            match r
            case Some(d) => d in list && d != self && Donor(nodes[d])
            case None => forall d :: d in list && d != self ==> !Donor(nodes[d])
  {
    if list != [] {
      FirstDonorIs(nodes, list[1..], self);
    }
  }

  function DonorFor(g: Graph, dp: string, self: string): Option<string>
    requires Elements(g.ids) == g.nodes.Keys
  {
    WithDpIs(g.nodes, g.ids, dp);
    assert forall d :: d in g.ids ==> d in Elements(g.ids);
    FirstDonor(g.nodes, WithDp(g.nodes, g.ids, dp), self)
  }

  /** The first configured candidate that some other node can serve. */
  function FirstProxy(g: Graph, candidates: seq<string>, self: string): Option<string>
    requires Elements(g.ids) == g.nodes.Keys
  {
    if candidates == [] then None
    else if DonorFor(g, candidates[0], self).Some? then DonorFor(g, candidates[0], self)
    else FirstProxy(g, candidates[1..], self)
  }

  lemma FirstProxyStep(g: Graph, candidates: seq<string>, self: string)
    requires Elements(g.ids) == g.nodes.Keys && candidates != []
    ensures FirstProxy(g, candidates, self) ==
            if DonorFor(g, candidates[0], self).Some? then DonorFor(g, candidates[0], self)
            else FirstProxy(g, candidates[1..], self)
  {
  }

  lemma FirstProxyEnd(g: Graph, self: string)
    requires Elements(g.ids) == g.nodes.Keys
    ensures FirstProxy(g, [], self) == None
  {
  }

  /** `d` is another node carrying one of `n`'s candidate dp_ids. */
  predicate Serves(g: Graph, n: string, d: string) {
    && n in g.nodes && d in g.nodes && d != n
    && g.nodes[d].dpId != "" && g.nodes[d].dpId in g.nodes[n].proxyCandidates
  }

  lemma {:induction false} FirstProxyIs(g: Graph, candidates: seq<string>, self: string)
    requires Elements(g.ids) == g.nodes.Keys
    ensures var r := FirstProxy(g, candidates, self);
            match r
            case Some(d) => d in g.nodes && d != self && Donor(g.nodes[d]) && g.nodes[d].dpId != "" && g.nodes[d].dpId in candidates
            case None => forall d :: d in g.nodes && d != self && g.nodes[d].dpId != "" && g.nodes[d].dpId in candidates
                           ==> !Donor(g.nodes[d])
  {
    if candidates != [] {
      var dp := candidates[0];
      WithDpIs(g.nodes, g.ids, dp);
      assert forall d :: d in g.ids <==> d in Elements(g.ids);
      FirstDonorIs(g.nodes, WithDp(g.nodes, g.ids, dp), self);
      FirstProxyIs(g, candidates[1..], self);
    }
  }

  function Promoted(n: Node, donor: Node): Node {
    n.(value := donor.value, status := Proxy,
       proxyUsed := Some((donor.dpId, donor.nodeId)),
       confidencePenalty := Some(Min(OrDefault(n.confidencePenalty, 1.0), 0.75)))
  }

  /** Who `id` would borrow from on its turn; nobody, unless it is Unavailable. */
  function Found(g: Graph, id: string): (found: Option<string>)
    requires Elements(g.ids) == g.nodes.Keys && id in g.nodes
    ensures found.Some? ==> found.value in g.nodes
  {
    FirstProxyIs(g, g.nodes[id].proxyCandidates, id);
    if g.nodes[id].status == Unavailable then FirstProxy(g, g.nodes[id].proxyCandidates, id) else None
  }

  function Lend(g: Graph, id: string, found: Option<string>): Graph
    requires id in g.nodes && (found.Some? ==> found.value in g.nodes)
  {
    match found
    case None => g
    case Some(d) => g.(nodes := g.nodes[id := Promoted(g.nodes[id], g.nodes[d])])
  }

  /** One turn of the outer loop. */
  function PromoteNode(g: Graph, id: string): (r: Graph)
    requires Elements(g.ids) == g.nodes.Keys && id in g.nodes
    ensures r.ids == g.ids && r.nodes.Keys == g.nodes.Keys
  {
    Lend(g, id, Found(g, id))
  }

  /** The table after the first `k` turns. */
  function PromoteFirst(g: Graph, k: nat): (r: Graph)
    requires Elements(g.ids) == g.nodes.Keys && k <= |g.ids|
    ensures r.ids == g.ids && r.nodes.Keys == g.nodes.Keys
  {
    if k == 0 then g
    else
      assert g.ids[k - 1] in Elements(g.ids);
      PromoteNode(PromoteFirst(g, k - 1), g.ids[k - 1])
  }

  function PromoteAll(g: Graph): Graph
    requires Elements(g.ids) == g.nodes.Keys
  {
    PromoteFirst(g, |g.ids|)
  }

  // ---- provenance -----------------------------------------------------------

  /** A chain of borrowings: each node serves the one before it, all but the last were Unavailable,
      and the last one lent its original value `v`. */
  ghost predicate BorrowChain(g: Graph, chain: seq<string>, v: Payload) {
    && |chain| >= 2
    && (forall j :: 0 <= j < |chain| ==> chain[j] in g.nodes)
    && (forall j :: 0 <= j < |chain| - 1 ==>
          Serves(g, chain[j], chain[j + 1]) && g.nodes[chain[j]].status == Unavailable)
    && Donor(g.nodes[chain[|chain| - 1]]) && g.nodes[chain[|chain| - 1]].value == v
  }

  ghost predicate BorrowedBy(g: Graph, id: string, v: Payload) {
    exists chain :: BorrowChain(g, chain, v) && chain[0] == id
  }

  /** What the pass may have done to node `id`. */
  ghost predicate Provenance(before: Graph, after: Graph, id: string)
    requires id in before.nodes && id in after.nodes
  {
    var n, m := before.nodes[id], after.nodes[id];
    m == n ||
    (&& n.status == Unavailable && m.status == Proxy
     && m.confidencePenalty == Some(Min(OrDefault(n.confidencePenalty, 1.0), 0.75))
     && BorrowedBy(before, id, m.value)
     && m == n.(value := m.value, status := Proxy,
                proxyUsed := m.proxyUsed, confidencePenalty := m.confidencePenalty))
  }

  lemma TurnKeepsOthers(g: Graph, id: string, other: string)
    requires Elements(g.ids) == g.nodes.Keys && id in g.nodes && other in g.nodes && other != id
    ensures PromoteNode(g, id).nodes[other] == g.nodes[other]
  {
  }

  /** One turn preserves provenance: a node that borrows extends the chain of its donor. */
  lemma ProvenanceTurn(g: Graph, mid: Graph, self: string)
    requires Elements(mid.ids) == mid.nodes.Keys == g.nodes.Keys && self in g.nodes
    requires mid.nodes[self] == g.nodes[self] && Provenances(g, mid)
    ensures Provenances(g, PromoteNode(mid, self))
  {
    var n := g.nodes[self];
    var found := FirstProxy(mid, n.proxyCandidates, self);
    FirstProxyIs(mid, n.proxyCandidates, self);
    if n.status == Unavailable && found.Some? {
      var d := found.value;
      assert Provenance(g, mid, d);
      ExtendChain(g, mid, self, d);
      assert Provenance(g, PromoteNode(mid, self), self);
    }
  }

  ghost predicate Provenances(g: Graph, after: Graph)
    requires after.nodes.Keys == g.nodes.Keys
  {
    forall id :: id in g.nodes ==> Provenance(g, after, id)
  }

  /** Nodes whose turn has not come are untouched. */
  ghost predicate Untouched(g: Graph, after: Graph, k: nat)
    requires Elements(g.ids) == g.nodes.Keys == after.nodes.Keys
  {
    forall j :: k <= j < |g.ids| ==> g.ids[j] in Elements(g.ids) && after.nodes[g.ids[j]] == g.nodes[g.ids[j]]
  }

  lemma UntouchedTurn(g: Graph, mid: Graph, k: nat)
    requires ValidGraph(g) && 0 < k <= |g.ids| && mid.ids == g.ids && mid.nodes.Keys == g.nodes.Keys
    requires Untouched(g, mid, k - 1)
    ensures g.ids[k - 1] in g.nodes && Untouched(g, PromoteNode(mid, g.ids[k - 1]), k)
  {
    assert g.ids[k - 1] in Elements(g.ids);
    forall j | k <= j < |g.ids|
      ensures g.ids[j] in Elements(g.ids) && PromoteNode(mid, g.ids[k - 1]).nodes[g.ids[j]] == g.nodes[g.ids[j]]
    {
      TurnKeepsOthers(mid, g.ids[k - 1], g.ids[j]);
    }
  }

  lemma {:induction false} ProvenanceAfter(g: Graph, k: nat)
    requires ValidGraph(g) && k <= |g.ids|
    ensures Provenances(g, PromoteFirst(g, k)) && Untouched(g, PromoteFirst(g, k), k)
  {
    if k > 0 {
      ProvenanceAfter(g, k - 1);
      hide PromoteNode, Provenances;
      var mid, self := PromoteFirst(g, k - 1), g.ids[k - 1];
      assert self in Elements(g.ids);
      ProvenanceTurn(g, mid, self);
      UntouchedTurn(g, mid, k);
    }
  }

  lemma ExtendChain(g: Graph, mid: Graph, self: string, d: string)
    requires self in g.nodes && d in g.nodes && d in mid.nodes && d != self
    requires g.nodes[self].status == Unavailable
    requires Provenance(g, mid, d) && Donor(mid.nodes[d])
    requires mid.nodes[d].dpId != "" && mid.nodes[d].dpId in g.nodes[self].proxyCandidates
    ensures BorrowedBy(g, self, mid.nodes[d].value)
  {
    var v := mid.nodes[d].value;
    if mid.nodes[d] == g.nodes[d] {
      assert BorrowChain(g, [self, d], v);
    } else {
      var chain :| BorrowChain(g, chain, v) && chain[0] == d;
      assert BorrowChain(g, [self] + chain, v);
    }
  }

  /** Every promoted value was lent, through a chain of promotions, by a node that had it to begin
      with; the penalty is at most 0.75; nothing that was not Unavailable is touched. */
  lemma ProxyProvenance(g: Graph)
    requires ValidGraph(g)
    ensures PromoteAll(g).ids == g.ids && PromoteAll(g).nodes.Keys == g.nodes.Keys
    ensures Provenances(g, PromoteAll(g))
    ensures forall id :: id in g.nodes && g.nodes[id].status != Unavailable ==> PromoteAll(g).nodes[id] == g.nodes[id]
  {
    ProvenanceAfter(g, |g.ids|);
    forall id | id in g.nodes && g.nodes[id].status != Unavailable
      ensures PromoteAll(g).nodes[id] == g.nodes[id]
    {
      assert Provenance(g, PromoteAll(g), id);
    }
  }

  lemma OneTurn(g: Graph, k: nat, id: string, mid: Graph, after: Graph)
    requires ValidGraph(g) && 0 < k <= |g.ids| && id in g.nodes && g.ids[k - 1] != id
    requires mid == PromoteFirst(g, k - 1) && after == PromoteFirst(g, k)
    ensures after.nodes[id] == mid.nodes[id]
  {
    assert g.ids[k - 1] in Elements(g.ids);
    TurnKeepsOthers(mid, g.ids[k - 1], id);
  }

  /** Node `j` is settled at its own turn: no later turn moves it. */
  lemma {:induction false} LaterTurnsKeep(g: Graph, j: nat, k: nat, id: string, settled: Graph, after: Graph)
    requires ValidGraph(g) && j < k <= |g.ids| && g.ids[j] == id && id in g.nodes
    requires settled == PromoteFirst(g, j + 1) && after == PromoteFirst(g, k)
    ensures after.nodes[id] == settled.nodes[id]
    decreases k
  {
    hide PromoteFirst;
    if k > j + 1 {
      var mid := PromoteFirst(g, k - 1);
      LaterTurnsKeep(g, j, k - 1, id, settled, mid);
      OneTurn(g, k, id, mid, after);
    }
  }

  /** On its turn an Unavailable node that can be served is served. */
  lemma ServedTurn(g: Graph, id: string, d: string)
    requires Elements(g.ids) == g.nodes.Keys && Serves(g, id, d) && Donor(g.nodes[d]) && g.nodes[id].status == Unavailable
    ensures PromoteNode(g, id).nodes[id].status == Proxy
  {
    hide FirstProxy;
    FirstProxyIs(g, g.nodes[id].proxyCandidates, id);
  }

  /** The pass misses nobody: a node left Unavailable had no other node, able to lend from the
      start, under any of its candidates. */
  lemma ProxyComplete(g: Graph, id: string, d: string)
    requires ValidGraph(g) && Serves(g, id, d) && Donor(g.nodes[d])
    requires g.nodes[id].status == Unavailable
    ensures id in PromoteAll(g).nodes && PromoteAll(g).nodes[id].status == Proxy
  {
    assert id in Elements(g.ids);
    var j :| 0 <= j < |g.ids| && g.ids[j] == id;
    ProvenanceAfter(g, j);
    assert Provenance(g, PromoteFirst(g, j), d) && Provenance(g, PromoteFirst(g, j), id);
    ServedTurn(PromoteFirst(g, j), id, d);
    hide Provenance, BorrowedBy, PromoteNode;
    LaterTurnsKeep(g, j, |g.ids|, id, PromoteFirst(g, j + 1), PromoteAll(g));
  }
}
