/** Proxy promotion does not notice a quiet leaf: promoting and inserting commute. */
module QuietPromotion {
  import opened Basics
  import opened AggregatorNode
  import opened CompanyTree
  import opened ProxyPass
  import opened Transparency

  lemma {:induction false} WithDpConcat(m: map<string, Node>, a: seq<string>, b: seq<string>, dp: string)
    requires Elements(a + b) <= m.Keys && Elements(a) <= m.Keys && Elements(b) <= m.Keys
    ensures WithDp(m, a + b, dp) == WithDp(m, a, dp) + WithDp(m, b, dp)
  {
    if b == [] {
      assert a + b == a;
    } else {
      var b0 := b[..|b| - 1];
      assert (a + b)[..|a + b| - 1] == a + b0;
      assert Elements(b0) <= Elements(b);
      assert Elements(a + b0) == Elements(a) + Elements(b0);
      WithDpConcat(m, a, b0, dp);
    }
  }

  lemma {:induction false} SameWithDp(m: map<string, Node>, m': map<string, Node>, ids: seq<string>, dp: string)
    requires Elements(ids) <= m.Keys && Elements(ids) <= m'.Keys
    requires forall n :: n in m ==> n in m' && m'[n].dpId == m[n].dpId
    ensures WithDp(m, ids, dp) == WithDp(m', ids, dp)
  {
    if ids != [] {
      assert Elements(ids[..|ids| - 1]) <= Elements(ids);
      assert ids[|ids| - 1] in Elements(ids);
      SameWithDp(m, m', ids[..|ids| - 1], dp);
    }
  }

  lemma {:induction false} FirstDonorSkips(m: map<string, Node>, m': map<string, Node>, front: seq<string>, id: string, back: seq<string>, self: string)
    requires forall d :: d in front + back ==> d in m
    requires id in m' && !Donor(m'[id]) && forall n :: n in m ==> n in m' && m'[n] == m[n]
    ensures FirstDonor(m', front + [id] + back, self) == FirstDonor(m, front + back, self)
    ensures FirstDonor(m', front + back, self) == FirstDonor(m, front + back, self)
  {
    if front == [] {
      assert front + back == back && front + [id] + back == [id] + back;
      assert ([id] + back)[1..] == back;
      SameDonor(m, m', back, self);
    } else {
      assert front[0] in front + back;
      assert (front + back)[1..] == front[1..] + back;
      assert (front + [id] + back)[1..] == front[1..] + [id] + back;
      assert forall d :: d in front[1..] + back ==> d in front + back;
      FirstDonorSkips(m, m', front[1..], id, back, self);
    }
  }

  lemma {:induction false} SameDonor(m: map<string, Node>, m': map<string, Node>, list: seq<string>, self: string)
    requires forall d :: d in list ==> d in m
    requires forall n :: n in m ==> n in m' && m'[n] == m[n]
    ensures FirstDonor(m', list, self) == FirstDonor(m, list, self)
  {
    if list != [] {
      SameDonor(m, m', list[1..], self);
    }
  }

  lemma ElementsConcat<T>(a: seq<T>, b: seq<T>)
    ensures Elements(a + b) == Elements(a) + Elements(b)
  {
  }

  lemma WithDpInsert(g: Graph, k: nat, id: string, leaf: Node, dp: string) returns (front: seq<string>, back: seq<string>)
    requires ValidGraph(g) && k <= |g.ids| && QuietLeaf(g, id, leaf)
    requires ValidGraph(Insert(g, k, id, leaf))
    ensures WithDp(g.nodes, g.ids, dp) == front + back
    ensures var list := WithDp(Insert(g, k, id, leaf).nodes, Insert(g, k, id, leaf).ids, dp);
            list == front + back || list == front + [id] + back
    ensures forall d :: d in front + back ==> d in g.nodes
  {
    hide WithDp;
    var g' := Insert(g, k, id, leaf);
    var a, b := g.ids[..k], g.ids[k..];
    assert g.ids == a + b && g'.ids == a + [id] + b;
    ElementsConcat(a, b);
    ElementsConcat(a + [id], b);
    ElementsConcat(a, [id]);
    front, back := WithDp(g.nodes, a, dp), WithDp(g.nodes, b, dp);
    WithDpConcat(g.nodes, a, b, dp);
    WithDpIs(g.nodes, a + b, dp);
    assert forall d :: d in a + b ==> d in Elements(a + b);
    assert WithDp(g'.nodes, a + [id] + b, dp) == WithDp(g'.nodes, a, dp) + WithDp(g'.nodes, [id], dp) + WithDp(g'.nodes, b, dp) by {
      WithDpConcat(g'.nodes, a + [id], b, dp);
      WithDpConcat(g'.nodes, a, [id], dp);
    }
    SameWithDp(g.nodes, g'.nodes, a, dp);
    SameWithDp(g.nodes, g'.nodes, b, dp);
    WithDpOne(g'.nodes, id, dp);
    JoinOptional(front, WithDp(g'.nodes, [id], dp), id, back);
  }

  lemma WithDpOne(m: map<string, Node>, id: string, dp: string)
    requires id in m && Elements([id]) <= m.Keys
    ensures WithDp(m, [id], dp) == [id] || WithDp(m, [id], dp) == []
  {
    assert [id][..0] == [];
  }

  /** A quiet leaf lends nothing, so nobody's donor changes. */
  lemma DonorForInsert(g: Graph, k: nat, id: string, leaf: Node, dp: string, self: string)
    requires ValidGraph(g) && k <= |g.ids| && QuietLeaf(g, id, leaf)
    requires ValidGraph(Insert(g, k, id, leaf))
    ensures DonorFor(Insert(g, k, id, leaf), dp, self) == DonorFor(g, dp, self)
  {
    var front, back := WithDpInsert(g, k, id, leaf, dp);
    FirstDonorSkips(g.nodes, Insert(g, k, id, leaf).nodes, front, id, back, self);
  }

  lemma {:induction false} FirstProxyInsert(g: Graph, k: nat, id: string, leaf: Node, candidates: seq<string>, self: string)
    requires ValidGraph(g) && k <= |g.ids| && QuietLeaf(g, id, leaf)
    requires ValidGraph(Insert(g, k, id, leaf))
    ensures FirstProxy(Insert(g, k, id, leaf), candidates, self) == FirstProxy(g, candidates, self)
  {
    if candidates != [] {
      DonorForInsert(g, k, id, leaf, candidates[0], self);
      FirstProxyInsert(g, k, id, leaf, candidates[1..], self);
    }
  }

  lemma LendInsert(g: Graph, k: nat, id: string, leaf: Node, self: string, found: Option<string>)
    requires k <= |g.ids| && id !in g.nodes && self in g.nodes && (found.Some? ==> found.value in g.nodes)
    ensures Lend(Insert(g, k, id, leaf), self, found) == Insert(Lend(g, self, found), k, id, leaf)
  {
    if found.Some? {
      var n := Promoted(g.nodes[self], g.nodes[found.value]);
      assert g.nodes[id := leaf][self := n] == g.nodes[self := n][id := leaf];
    }
  }

  /** One turn, taken by an old node, commutes with the insertion. */
  lemma TurnInsert(g: Graph, k: nat, id: string, leaf: Node, self: string)
    requires ValidGraph(g) && k <= |g.ids| && QuietLeaf(g, id, leaf) && self in g.nodes
    requires ValidGraph(Insert(g, k, id, leaf))
    ensures PromoteNode(Insert(g, k, id, leaf), self) == Insert(PromoteNode(g, self), k, id, leaf)
  {
    hide FirstProxy, Lend;
    FirstProxyInsert(g, k, id, leaf, g.nodes[self].proxyCandidates, self);
    LendInsert(g, k, id, leaf, self, Found(g, self));
  }

  /** The leaf's own turn does nothing. */
  lemma QuietTurn(g: Graph, k: nat, id: string, leaf: Node)
    requires k <= |g.ids| && Elements(Insert(g, k, id, leaf).ids) == Insert(g, k, id, leaf).nodes.Keys
    requires leaf.status == NotApplicable || leaf.status == Inactive
    ensures PromoteNode(Insert(g, k, id, leaf), id) == Insert(g, k, id, leaf)
  {
  }

  lemma TurnKeepsQuiet(g: Graph, id: string, leaf: Node, self: string)
    requires ValidGraph(g) && QuietLeaf(g, id, leaf) && self in g.nodes
    ensures ValidGraph(PromoteNode(g, self)) && QuietLeaf(PromoteNode(g, self), id, leaf)
  {
    FirstProxyIs(g, g.nodes[self].proxyCandidates, self);
  }

  lemma {:induction false} PromotionKeepsQuiet(g: Graph, j: nat, id: string, leaf: Node)
    requires ValidGraph(g) && j <= |g.ids| && QuietLeaf(g, id, leaf)
    ensures ValidGraph(PromoteFirst(g, j)) && QuietLeaf(PromoteFirst(g, j), id, leaf)
  {
    hide PromoteNode, QuietLeaf;
    if j > 0 {
      PromotionKeepsQuiet(g, j - 1, id, leaf);
      assert g.ids[j - 1] in Elements(g.ids);
      TurnKeepsQuiet(PromoteFirst(g, j - 1), id, leaf, g.ids[j - 1]);
    }
  }

  lemma StartOfPromotion(g: Graph)
    requires Elements(g.ids) == g.nodes.Keys
    ensures PromoteFirst(g, 0) == g
  {
  }

  lemma PromoteStep(g: Graph, j: nat)
    requires Elements(g.ids) == g.nodes.Keys && 0 < j <= |g.ids|
    ensures g.ids[j - 1] in g.nodes
    ensures PromoteFirst(g, j) == PromoteNode(PromoteFirst(g, j - 1), g.ids[j - 1])
  {
    hide PromoteNode;
    assert g.ids[j - 1] in Elements(g.ids);
  }

  lemma InsertedAt(g: Graph, k: nat, id: string, leaf: Node, j: nat)
    requires k <= |g.ids| && j <= |g.ids|
    ensures |Insert(g, k, id, leaf).ids| == |g.ids| + 1
    ensures Insert(g, k, id, leaf).ids[j] == if j < k then g.ids[j] else if j == k then id else g.ids[j - 1]
  {
  }

  lemma QuietIsFresh(g: Graph, id: string, leaf: Node)
    requires QuietLeaf(g, id, leaf)
    ensures id != "" && id !in g.nodes
  {
  }

  /** One old turn on both sides. */
  lemma MatchingTurn(g: Graph, g': Graph, k: nat, id: string, leaf: Node, i: nat, i': nat)
    requires ValidGraph(g) && k <= |g.ids| && QuietLeaf(g, id, leaf)
    requires g' == Insert(g, k, id, leaf) && ValidGraph(g')
    requires 0 < i <= |g.ids| && 0 < i' <= |g'.ids| && g'.ids[i' - 1] == g.ids[i - 1]
    requires PromoteFirst(g', i' - 1) == Insert(PromoteFirst(g, i - 1), k, id, leaf)
    ensures PromoteFirst(g', i') == Insert(PromoteFirst(g, i), k, id, leaf)
  {
    hide PromoteNode, PromoteFirst, Insert, QuietLeaf;
    assert id != "" && id !in g.nodes by { QuietIsFresh(g, id, leaf); }
    PromoteStep(g, i);
    PromoteStep(g', i');
    var mid := PromoteFirst(g, i - 1);
    PromotionKeepsQuiet(g, i - 1, id, leaf);
    QuietIsFresh(mid, id, leaf);
    InsertValid(mid, k, id, leaf);
    TurnInsert(mid, k, id, leaf, g.ids[i - 1]);
  }

  /** Turns before the leaf's. */
  lemma {:induction false} PromotionBefore(g: Graph, k: nat, id: string, leaf: Node, j: nat)
    requires ValidGraph(g) && j <= k <= |g.ids| && QuietLeaf(g, id, leaf)
    requires ValidGraph(Insert(g, k, id, leaf))
    ensures PromoteFirst(Insert(g, k, id, leaf), j) == Insert(PromoteFirst(g, j), k, id, leaf)
  {
    hide PromoteNode, PromoteFirst, Insert;
    var g' := Insert(g, k, id, leaf);
    if j == 0 {
      StartOfPromotion(g);
      StartOfPromotion(g');
    } else {
      PromotionBefore(g, k, id, leaf, j - 1);
      InsertedAt(g, k, id, leaf, j - 1);
      MatchingTurn(g, g', k, id, leaf, j, j);
    }
  }

  /** Turns after it, each one place later. */
  lemma {:induction false} PromotionAfter(g: Graph, k: nat, id: string, leaf: Node, j: nat)
    requires ValidGraph(g) && k <= j <= |g.ids| && QuietLeaf(g, id, leaf)
    requires ValidGraph(Insert(g, k, id, leaf)) && |Insert(g, k, id, leaf).ids| == |g.ids| + 1
    ensures PromoteFirst(Insert(g, k, id, leaf), j + 1) == Insert(PromoteFirst(g, j), k, id, leaf)
    decreases j
  {
    hide PromoteNode, PromoteFirst, Insert;
    var g' := Insert(g, k, id, leaf);
    InsertedAt(g, k, id, leaf, j);
    if j == k {
      PromotionBefore(g, k, id, leaf, k);
      PromoteStep(g', k + 1);
      PromotionKeepsQuiet(g, k, id, leaf);
      InsertValid(PromoteFirst(g, k), k, id, leaf);
      QuietTurn(PromoteFirst(g, k), k, id, leaf);
    } else {
      PromotionAfter(g, k, id, leaf, j - 1);
      MatchingTurn(g, g', k, id, leaf, j, j + 1);
    }
  }

  /** The whole pass commutes with the insertion. */
  lemma PromoteAllInsert(g: Graph, k: nat, id: string, leaf: Node)
    requires ValidGraph(g) && k <= |g.ids| && QuietLeaf(g, id, leaf)
    ensures ValidGraph(Insert(g, k, id, leaf))
    ensures PromoteAll(Insert(g, k, id, leaf)) == Insert(PromoteAll(g), k, id, leaf)
  {
    hide PromoteNode, FirstProxy, PromoteFirst;
    InsertValid(g, k, id, leaf);
    assert |Insert(g, k, id, leaf).ids| == |g.ids| + 1;
    PromotionAfter(g, k, id, leaf, |g.ids|);
  }
}
