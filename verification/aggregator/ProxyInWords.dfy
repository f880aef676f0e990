/** Who an Unavailable node borrows from, and what it becomes, told from the table its turn finds. */
module ProxyInWords {
  import opened Basics
  import opened AggregatorNode
  import opened CompanyTree
  import opened ProxyPass

  /** Place `q` holds another node with that dp_id which is Known or Proxy and has a value: neither null nor
      an empty dictionary. */
  predicate LendsAt(g: Graph, self: string, dp: string, q: nat) {
    && q < |g.ids| && g.ids[q] in g.nodes && g.ids[q] != self
    && dp != "" && g.nodes[g.ids[q]].dpId == dp
    && g.nodes[g.ids[q]].status in {Known, Proxy}
    && match g.nodes[g.ids[q]].value.raw
       case VNull => false
       case VDict(cells, _) => cells != map[]
       case _ => true
  }

  ghost predicate NoneLends(g: Graph, self: string, dp: string, before: nat) {
    forall q :: 0 <= q < before ==> !LendsAt(g, self, dp, q)
  }

  /** Candidate `c` is the first that any other node serves, and place `p` holds the first node to serve it. */
  ghost predicate Chosen(g: Graph, self: string, candidates: seq<string>, c: nat, p: nat) {
    && c < |candidates| && LendsAt(g, self, candidates[c], p) && NoneLends(g, self, candidates[c], p)
    && forall b :: 0 <= b < c ==> NoneLends(g, self, candidates[b], |g.ids|)
  }

  // ---- the search agrees ------------------------------------------------------------------

  lemma {:induction false} FirstDonorAppend(nodes: map<string, Node>, list: seq<string>, d: string, self: string)
    requires d in nodes && forall x :: x in list ==> x in nodes
    ensures FirstDonor(nodes, list + [d], self) ==
            if FirstDonor(nodes, list, self).Some? then FirstDonor(nodes, list, self)
            else if d != self && Donor(nodes[d]) then Some(d) else None
  {
    hide Donor;
    if list == [] {
      assert list + [d] == [d] && [d][1..] == [];
    } else {
      assert (list + [d])[1..] == list[1..] + [d];
      FirstDonorAppend(nodes, list[1..], d, self);
    }
  }

  lemma LenderIs(g: Graph, self: string, dp: string, q: nat)
    requires q < |g.ids| && g.ids[q] in g.nodes
    ensures LendsAt(g, self, dp, q) <==> g.ids[q] != self && dp != "" && g.nodes[g.ids[q]].dpId == dp && Donor(g.nodes[g.ids[q]])
  {
  }

  lemma {:induction false} FirstOfPrefix(g: Graph, self: string, dp: string, k: nat)
    requires Elements(g.ids) == g.nodes.Keys && k <= |g.ids|
    ensures Elements(g.ids[..k]) <= g.nodes.Keys
    ensures forall d :: d in WithDp(g.nodes, g.ids[..k], dp) ==> d in g.nodes
    ensures match FirstDonor(g.nodes, WithDp(g.nodes, g.ids[..k], dp), self)
            case None => NoneLends(g, self, dp, k)
            case Some(d) => exists p: nat :: p < k && g.ids[p] == d && LendsAt(g, self, dp, p) && NoneLends(g, self, dp, p)
  {
    hide LendsAt, Donor, WithDp, FirstDonor;
    assert Elements(g.ids[..k]) <= Elements(g.ids);
    WithDpIs(g.nodes, g.ids[..k], dp);
    if k == 0 {
      NoneWithDp(g.nodes);
      FirstDonorEnd(g.nodes, self);
    } else {
      FirstOfPrefix(g, self, dp, k - 1);
      assert g.ids[k - 1] in Elements(g.ids);
      WithDpStep(g.nodes, g.ids, k - 1, dp);
      LenderIs(g, self, dp, k - 1);
      var list := WithDp(g.nodes, g.ids[..k - 1], dp);
      assert list + [] == list;
      FirstDonorAppend(g.nodes, list, g.ids[k - 1], self);
    }
  }

  lemma DonorForIs(g: Graph, self: string, dp: string)
    requires Elements(g.ids) == g.nodes.Keys
    ensures match DonorFor(g, dp, self)
            case None => NoneLends(g, self, dp, |g.ids|)
            case Some(d) => exists p: nat :: p < |g.ids| && g.ids[p] == d && LendsAt(g, self, dp, p) && NoneLends(g, self, dp, p)
  {
    hide LendsAt, NoneLends, FirstDonor, WithDp;
    FirstOfPrefix(g, self, dp, |g.ids|);
    assert g.ids[..|g.ids|] == g.ids;
  }

  lemma {:induction false} FirstProxyInWords(g: Graph, self: string, candidates: seq<string>, i: nat)
    requires Elements(g.ids) == g.nodes.Keys && i <= |candidates|
    requires forall b :: 0 <= b < i ==> NoneLends(g, self, candidates[b], |g.ids|)
    ensures match FirstProxy(g, candidates[i..], self)
            case None => forall b :: 0 <= b < |candidates| ==> NoneLends(g, self, candidates[b], |g.ids|)
            case Some(d) => exists c: nat, p: nat :: Chosen(g, self, candidates, c, p) && g.ids[p] == d
    decreases |candidates| - i
  {
    hide LendsAt, NoneLends, DonorFor;
    if i < |candidates| {
      var dp := candidates[i];
      DonorForIs(g, self, dp);
      FirstProxyStep(g, candidates[i..], self);
      assert candidates[i..][1..] == candidates[i + 1..];
      match DonorFor(g, dp, self) {
        case Some(d) =>
          var p: nat :| p < |g.ids| && g.ids[p] == d && LendsAt(g, self, dp, p) && NoneLends(g, self, dp, p);
          assert Chosen(g, self, candidates, i, p);
        case None =>
          FirstProxyInWords(g, self, candidates, i + 1);
      }
    }
  }

  lemma ChosenIsUnique(g: Graph, self: string, candidates: seq<string>, c: nat, p: nat, c': nat, p': nat)
    requires Chosen(g, self, candidates, c, p) && Chosen(g, self, candidates, c', p')
    ensures c == c' && p == p'
  {
    hide LendsAt;
    assert LendsAt(g, self, candidates[c], p) && LendsAt(g, self, candidates[c'], p');
    assert p < |g.ids| && p' < |g.ids| by {
      LendsInside(g, self, candidates[c], p);
      LendsInside(g, self, candidates[c'], p');
    }
  }

  lemma LendsInside(g: Graph, self: string, dp: string, q: nat)
    ensures LendsAt(g, self, dp, q) ==> q < |g.ids|
  {
  }

  // ---- the pass ---------------------------------------------------------------------------

  /** `mid` is the table in the middle of the pass: nodes before place `j` as they end up, the others as they
      were. */
  ghost predicate Midway(g: Graph, after: Graph, j: nat, mid: Graph) {
    && mid.ids == g.ids && mid.nodes.Keys == g.nodes.Keys == after.nodes.Keys
    && forall q :: 0 <= q < |g.ids| ==>
         && g.ids[q] in g.nodes
         && mid.nodes[g.ids[q]] == if q < j then after.nodes[g.ids[q]] else g.nodes[g.ids[q]]
  }

  /** What a borrower becomes. */
  function Borrowing(n: Node, dp: string, lender: Node): Node {
    n.(status := Proxy, value := lender.value, proxyUsed := Some((dp, lender.nodeId)),
       confidencePenalty := Some(match n.confidencePenalty
                                 case Some(x) => if x == 0.0 || x > 0.75 then 0.75 else x
                                 case None => 0.75))
  }

  lemma MidwayIs(g: Graph, j: nat)
    requires ValidGraph(g) && j <= |g.ids|
    ensures Midway(g, PromoteAll(g), j, PromoteFirst(g, j))
  {
    ProvenanceAfter(g, j);
    hide Provenances, PromoteFirst;
    forall q | 0 <= q < |g.ids|
      ensures g.ids[q] in g.nodes
      ensures PromoteFirst(g, j).nodes[g.ids[q]] == if q < j then PromoteAll(g).nodes[g.ids[q]] else g.nodes[g.ids[q]]
    {
      assert g.ids[q] in Elements(g.ids);
      if q < j {
        LaterTurnsKeep(g, q, j, g.ids[q], PromoteFirst(g, q + 1), PromoteFirst(g, j));
        LaterTurnsKeep(g, q, |g.ids|, g.ids[q], PromoteFirst(g, q + 1), PromoteAll(g));
      }
    }
  }

  /** The whole pass, node by node. With the nodes before it as they end up and those after it as they were, an
      Unavailable node takes the value of the first lender of its first served candidate; every other node, and
      an Unavailable one without a lender, stays as it is. */
  lemma ProxyInWords(g: Graph, j: nat, mid: Graph)
    requires ValidGraph(g) && j < |g.ids| && Midway(g, PromoteAll(g), j, mid)
    ensures g.ids[j] in g.nodes && g.ids[j] in PromoteAll(g).nodes
    ensures var id := g.ids[j]; var n, m := g.nodes[id], PromoteAll(g).nodes[id];
            && (n.status != Unavailable ==> m == n)
            && (n.status == Unavailable && (forall b :: 0 <= b < |n.proxyCandidates| ==> NoneLends(mid, id, n.proxyCandidates[b], |g.ids|)) ==> m == n)
            && (forall c: nat, p: nat :: n.status == Unavailable && Chosen(mid, id, n.proxyCandidates, c, p) ==>
                  m == Borrowing(n, n.proxyCandidates[c], mid.nodes[g.ids[p]]))
  {
    var id := g.ids[j];
    assert id in Elements(g.ids);
    MidwayIs(g, j);
    SameTable(g, PromoteAll(g), j, mid, PromoteFirst(g, j));
    LaterTurnsKeep(g, j, |g.ids|, id, PromoteFirst(g, j + 1), PromoteAll(g));
    hide PromoteAll, LendsAt, NoneLends, FirstProxy, Promoted, Midway;
    assert PromoteFirst(g, j + 1) == PromoteNode(mid, id);
    TurnInWords(mid, id);
  }

  lemma SameTable(g: Graph, after: Graph, j: nat, mid: Graph, mid': Graph)
    requires ValidGraph(g) && Midway(g, after, j, mid) && Midway(g, after, j, mid')
    ensures mid == mid' && (j < |g.ids| ==> mid.nodes[g.ids[j]] == g.nodes[g.ids[j]])
  {
    forall id | id in g.nodes ensures mid.nodes[id] == mid'.nodes[id] {
      assert id in Elements(g.ids);
    }
    assert mid.nodes == mid'.nodes;
  }

  lemma TurnInWords(mid: Graph, id: string)
    requires Elements(mid.ids) == mid.nodes.Keys && id in mid.nodes
    ensures var n, m := mid.nodes[id], PromoteNode(mid, id).nodes[id];
            && (n.status != Unavailable ==> m == n)
            && (n.status == Unavailable && (forall b :: 0 <= b < |n.proxyCandidates| ==> NoneLends(mid, id, n.proxyCandidates[b], |mid.ids|)) ==> m == n)
            && (forall c: nat, p: nat :: n.status == Unavailable && Chosen(mid, id, n.proxyCandidates, c, p) ==>
                  mid.ids[p] in mid.nodes && m == Borrowing(n, n.proxyCandidates[c], mid.nodes[mid.ids[p]]))
  {
    hide NoneLends, FirstProxy, Promoted;
    var n := mid.nodes[id];
    assert n.proxyCandidates[0..] == n.proxyCandidates;
    FirstProxyInWords(mid, id, n.proxyCandidates, 0);
    forall c: nat, p: nat | n.status == Unavailable && Chosen(mid, id, n.proxyCandidates, c, p)
      ensures mid.ids[p] in mid.nodes
      ensures PromoteNode(mid, id).nodes[id] == Borrowing(n, n.proxyCandidates[c], mid.nodes[mid.ids[p]])
    {
      ChosenLends(mid, id, n.proxyCandidates, c, p);
      if FirstProxy(mid, n.proxyCandidates, id).Some? {
        var c': nat, p': nat :| Chosen(mid, id, n.proxyCandidates, c', p') && mid.ids[p'] == FirstProxy(mid, n.proxyCandidates, id).value;
        ChosenIsUnique(mid, id, n.proxyCandidates, c, p, c', p');
        BorrowingIs(n, mid.nodes[mid.ids[p]]);
      }
    }
    if FirstProxy(mid, n.proxyCandidates, id).Some? {
      var c: nat, p: nat :| Chosen(mid, id, n.proxyCandidates, c, p);
      ChosenLends(mid, id, n.proxyCandidates, c, p);
    }
  }

  lemma ChosenLends(g: Graph, self: string, candidates: seq<string>, c: nat, p: nat)
    requires Chosen(g, self, candidates, c, p)
    ensures c < |candidates| && p < |g.ids| && g.ids[p] in g.nodes && g.nodes[g.ids[p]].dpId == candidates[c]
    ensures !NoneLends(g, self, candidates[c], |g.ids|)
  {
  }

  lemma BorrowingIs(n: Node, lender: Node)
    ensures Promoted(n, lender) == Borrowing(n, lender.dpId, lender)
  {
  }
}
