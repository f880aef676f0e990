/** Directions are signs: exchange "positive" and "negative" throughout an overlay, and every
    score changes sign while everything else stays as it was. */
module Mirror {
  import opened Basics
  import opened AggregatorNode
  import opened Rollup
  import opened CompanyTree
  import opened ProxyPass
  import opened PostOrder
  import opened CompanyGraph
  import opened QuietWalk
  import opened NodeOrder

  // ---- exchanging directions -----------------------------------------------------------

  /** The other direction; any other text stays. */
  function Exchanged(direction: string): string {
    if Lower(direction) == "positive" then "negative"
    else if Lower(direction) == "negative" then "positive"
    else direction
  }

  function MirroredRaw(n: RawNode): RawNode { n.(direction := Exchanged(n.direction)) }

  function MirroredList(list: seq<RawNode>): (r: seq<RawNode>)
    ensures |r| == |list|
  {
    seq(|list|, i requires 0 <= i < |list| => MirroredRaw(list[i]))
  }

  function MirroredNode(n: Node): Node { n.(sign := -n.sign) }

  function Mirrored(g: Graph): Graph { Graph(g.ids, map n | n in g.nodes :: MirroredNode(g.nodes[n])) }

  lemma ExchangedSign(direction: string)
    ensures DirectionSign(Exchanged(direction)) == -DirectionSign(direction)
  {
    assert Lower("positive") == "positive" && Lower("negative") == "negative";
  }

  lemma MirroredRead(n: RawNode)
    ensures ReadNode(MirroredRaw(n)) == MirroredNode(ReadNode(n))
  {
    ExchangedSign(n.direction);
    StatusIgnoresDirection(n);
    hide DirectionSign, Exchanged, NodeStatus, ReadPayload, ClassifyHorizon, Factor;
  }

  lemma StatusIgnoresDirection(n: RawNode)
    ensures NodeStatus(MirroredRaw(n)) == NodeStatus(n) && ScoreEnabled(MirroredRaw(n)) == ScoreEnabled(n)
    ensures IsMultiplier(MirroredRaw(n)) == IsMultiplier(n)
  {
    hide Exchanged, Strip, Lower;
  }

  lemma {:induction false} MirroredLoad(list: seq<RawNode>)
    ensures Load(MirroredList(list)) == Mirrored(Load(list))
  {
    hide ReadNode, MirroredNode, MirroredRaw;
    if list != [] {
      var front, n := list[..|list| - 1], list[|list| - 1];
      MirroredLoad(front);
      assert MirroredList(list)[..|list| - 1] == MirroredList(front);
      MirroredRead(n);
      SameNames(n);
      var g := Load(front);
      assert Mirrored(Graph(g.ids, g.nodes[n.nodeId := ReadNode(n)])).nodes == Mirrored(g).nodes[n.nodeId := MirroredNode(ReadNode(n))];
    } else {
      assert Mirrored(Graph([], map[])).nodes == map[];
    }
  }

  lemma SameNames(n: RawNode)
    ensures MirroredRaw(n).nodeId == n.nodeId
  {
  }

  // ---- promotion and walk -----------------------------------------------------------------

  lemma {:induction false} MirroredWithDp(g: Graph, ids: seq<string>, dp: string)
    requires Elements(ids) <= g.nodes.Keys
    ensures Mirrored(g).nodes.Keys == g.nodes.Keys && WithDp(Mirrored(g).nodes, ids, dp) == WithDp(g.nodes, ids, dp)
  {
    if ids != [] {
      ElementsStep(ids, |ids| - 1);
      MirroredWithDp(g, ids[..|ids| - 1], dp);
    }
  }

  lemma {:induction false} MirroredDonor(g: Graph, list: seq<string>, self: string)
    requires forall d :: d in list ==> d in g.nodes
    ensures FirstDonor(Mirrored(g).nodes, list, self) == FirstDonor(g.nodes, list, self)
  {
    if list != [] {
      assert list[0] in list;
      MirroredDonor(g, list[1..], self);
    }
  }

  lemma {:induction false} MirroredProxy(g: Graph, candidates: seq<string>, self: string)
    requires Elements(g.ids) == g.nodes.Keys && Elements(Mirrored(g).ids) == Mirrored(g).nodes.Keys
    ensures FirstProxy(Mirrored(g), candidates, self) == FirstProxy(g, candidates, self)
  {
    hide FirstDonor, WithDp;
    if candidates != [] {
      MirroredProxy(g, candidates[1..], self);
      MirroredWithDp(g, g.ids, candidates[0]);
      WithDpIs(g.nodes, g.ids, candidates[0]);
      MirroredDonor(g, WithDp(g.nodes, g.ids, candidates[0]), self);
    }
  }

  lemma MirroredTurn(g: Graph, id: string)
    requires Elements(g.ids) == g.nodes.Keys && id in g.nodes && Elements(Mirrored(g).ids) == Mirrored(g).nodes.Keys
    ensures PromoteNode(Mirrored(g), id) == Mirrored(PromoteNode(g, id))
  {
    hide FirstProxy, Lend;
    MirroredProxy(g, g.nodes[id].proxyCandidates, id);
    MirroredLoan(g, id, Found(g, id));
  }

  lemma MirroredLoan(g: Graph, id: string, found: Option<string>)
    requires id in g.nodes && (found.Some? ==> found.value in g.nodes)
    ensures Lend(Mirrored(g), id, found) == Mirrored(Lend(g, id, found))
  {
    assert Lend(Mirrored(g), id, found).nodes == Mirrored(Lend(g, id, found)).nodes;
  }

  lemma {:induction false} MirroredPromotion(g: Graph, k: nat)
    requires Elements(g.ids) == g.nodes.Keys && Elements(Mirrored(g).ids) == Mirrored(g).nodes.Keys && k <= |g.ids|
    ensures PromoteFirst(Mirrored(g), k) == Mirrored(PromoteFirst(g, k))
  {
    hide PromoteNode, Mirrored;
    SameIds(g);
    if k > 0 {
      MirroredPromotion(g, k - 1);
      assert g.ids[k - 1] in Elements(g.ids);
      SameIds(PromoteFirst(g, k - 1));
      MirroredTurn(PromoteFirst(g, k - 1), g.ids[k - 1]);
    }
  }

  lemma SameIds(g: Graph)
    ensures Mirrored(g).ids == g.ids && Mirrored(g).nodes.Keys == g.nodes.Keys
    ensures ValidGraph(g) ==> ValidGraph(Mirrored(g))
  {
    assert Mirrored(g).nodes.Keys == g.nodes.Keys;
  }

  lemma {:induction false} MirroredChildren(g: Graph, ids: seq<string>, p: string)
    ensures ChildrenAmong(Mirrored(g), ids, p) == ChildrenAmong(g, ids, p)
  {
    if ids != [] {
      MirroredChildren(g, ids[..|ids| - 1], p);
    }
  }

  lemma {:induction false} MirroredVisits(g: Graph, todo: seq<string>, w: Walk)
    requires ValidGraph(g) && ValidGraph(Mirrored(g)) && w.visited <= g.nodes.Keys && w.visited <= Mirrored(g).nodes.Keys
    requires forall n :: n in todo ==> n in g.nodes && n in Mirrored(g).nodes
    ensures VisitAll(Mirrored(g), todo, w) == VisitAll(g, todo, w)
    decreases g.nodes.Keys - w.visited, |todo|
  {
    hide VisitAll, Mirrored, ValidGraph;
    SameIds(g);
    if todo == [] {
      VisitNone(g, w);
      VisitNone(Mirrored(g), w);
    } else {
      var front, n := todo[..|todo| - 1], todo[|todo| - 1];
      assert todo == front + [n];
      MirroredVisits(g, front, w);
      VisitLast(g, front, n, w);
      VisitLast(Mirrored(g), front, n, w);
      var mid := VisitAll(g, front, w);
      if n !in mid.visited {
        MirroredChildren(g, g.ids, n);
        ChildrenAre(g, n);
        assert n in g.nodes.Keys - mid.visited;
        MirroredVisits(g, Children(g, n), Walk(mid.visited + {n}, mid.order));
      }
    }
  }

  lemma MirroredOrder(g: Graph)
    requires ValidGraph(g) && ValidGraph(Mirrored(g))
    ensures PostOrderOf(Mirrored(g)) == PostOrderOf(g)
  {
    IdsAreNodes(g);
    SameIds(g);
    MirroredVisits(g, g.ids, START);
  }

  // ---- scores -------------------------------------------------------------------------------

  function NegatedChild(c: Child): Child { c.(score := -c.score, short := -c.short, medium := -c.medium, long := -c.long) }

  function NegatedResult(r: Result): Result { r.(score := -r.score, short := -r.short, medium := -r.medium, long := -r.long) }

  predicate Negations(cs: seq<Child>, ds: seq<Child>) {
    |ds| == |cs| && forall i :: 0 <= i < |cs| ==> ds[i] == NegatedChild(cs[i])
  }

  /** The one leaf whose score has no direction: a multiplier without a value works by its neutral value. */
  predicate Undirected(n: Node) { n.scoreEnabled && n.status == Unavailable && n.multiplier }

  lemma NegatedTerm(s: real, w: real, conf: real)
    ensures -s * w * conf == -(s * w * conf)
  {
  }

  lemma NegatedSignal(sign: Sign, magnitude: real, recency: real)
    ensures Signal(-sign, magnitude, recency) == -Signal(sign, magnitude, recency)
  {
  }

  lemma MirroredLeaf(n: Node)
    requires !Undirected(n)
    ensures LeafChild(MirroredNode(n)) == NegatedChild(LeafChild(n))
    ensures LeafResult(MirroredNode(n)) == NegatedResult(LeafResult(n))
  {
    var m := MirroredNode(n);
    NegatedSignal(n.sign, n.value.strength, n.recency);
    NegatedSignal(n.sign, Abs(OrDefault(n.neutralValue, 0.0)), n.recency);
    if n.value.future.Some? {
      NegatedSignal(n.sign, n.value.future.value, n.recency);
    }
    hide Signal;
    assert LeafIntrinsic(m) == -LeafIntrinsic(n) && FutureOption(m) == -FutureOption(n);
    hide LeafIntrinsic, FutureOption;
  }

  lemma {:induction false} NegatedApplicable(cs: seq<Child>, ds: seq<Child>)
    requires Negations(cs, ds)
    ensures Negations(Applicable(cs), Applicable(ds))
  {
    if cs != [] {
      NegatedApplicable(cs[..|cs| - 1], ds[..|ds| - 1]);
    }
  }

  lemma {:induction false} NegatedSums(cs: seq<Child>, ds: seq<Child>, m: Measure)
    requires Negations(cs, ds)
    ensures Sum(ds, m) == Sum(cs, m)
  {
    if cs != [] {
      NegatedSums(cs[..|cs| - 1], ds[..|ds| - 1], m);
    }
  }

  lemma {:induction false} NegatedCounts(cs: seq<Child>, ds: seq<Child>, k: Kind)
    requires Negations(cs, ds)
    ensures CountOf(ds, k) == CountOf(cs, k)
  {
    if cs != [] {
      NegatedCounts(cs[..|cs| - 1], ds[..|ds| - 1], k);
    }
  }

  lemma {:induction false} NegatedShares(cs: seq<Child>, ds: seq<Child>, total: real, h: Horizon)
    requires Negations(cs, ds) && total != 0.0
    ensures Share(ds, total, h) == -Share(cs, total, h)
  {
    if cs != [] {
      var n := |cs| - 1;
      NegatedShares(cs[..n], ds[..n], total, h);
      NegatedLast(cs[n], ds[n], total, h);
      hide ScoreAt;
      assert Share(ds, total, h) == Share(ds[..n], total, h) + Term(ds[n], total, h);
      assert Share(cs, total, h) == Share(cs[..n], total, h) + Term(cs[n], total, h);
    }
  }

  lemma NegatedLast(c: Child, d: Child, total: real, h: Horizon)
    requires d == NegatedChild(c) && total != 0.0
    ensures Term(d, total, h) == -Term(c, total, h)
  {
    NegatedTerm(ScoreAt(c, h), c.weight / total, c.confidence);
  }

  lemma NegatedScore(cs: seq<Child>, ds: seq<Child>, h: Horizon)
    requires Negations(cs, ds)
    ensures ParentScore(ds, h) == -ParentScore(cs, h)
  {
    hide Applicable, Sum, Share;
    NegatedApplicable(cs, ds);
    var a, b := Applicable(cs), Applicable(ds);
    NegatedSums(a, b, ByWeight);
    if !(Sum(a, ByWeight) <= 0.0 || a == []) {
      NegatedShares(a, b, Sum(a, ByWeight), h);
    }
  }

  lemma MirroredParent(n: Node, cs: seq<Child>, ds: seq<Child>)
    requires Negations(cs, ds)
    ensures Aggregated(MirroredNode(n), ds) == NegatedResult(Aggregated(n, cs))
    ensures ParentChild(MirroredNode(n), NegatedResult(Aggregated(n, cs))) == NegatedChild(ParentChild(n, Aggregated(n, cs)))
  {
    hide Applicable, Sum, ParentScore, CountOf;
    NegatedApplicable(cs, ds);
    var a, b := Applicable(cs), Applicable(ds);
    NegatedSums(a, b, ByWeight);
    NegatedSums(a, b, ByUsable);
    NegatedSums(a, b, ByPenalty);
    NegatedSums(a, b, ByBaseConfidence);
    NegatedScore(cs, ds, Overall);
    NegatedScore(cs, ds, Short);
    NegatedScore(cs, ds, Medium);
    NegatedScore(cs, ds, Long);
    forall k: Kind ensures CountOf(ds, k) == CountOf(cs, k) {
      NegatedCounts(cs, ds, k);
    }
  }

  // ---- the pass --------------------------------------------------------------------------------

  predicate AllDirected(g: Graph) { forall n :: n in g.nodes ==> !Undirected(g.nodes[n]) }

  predicate NegatedOutcome(a: Outcome, b: Outcome) { b.result == NegatedResult(a.result) && b.asChild == NegatedChild(a.asChild) }

  lemma {:induction false} MirroredAt(g: Graph, order: seq<string>, i: nat)
    requires i < |order| && Elements(order) <= g.nodes.Keys && Elements(order) <= Mirrored(g).nodes.Keys && AllDirected(g)
    ensures NegatedOutcome(Eval(Unfold(g, order, i)), Eval(Unfold(Mirrored(g), order, i)))
    decreases i, 1, 0
  {
    hide Eval, Aggregated, LeafChild, LeafResult, ParentChild, ChildrenAmong;
    assert order[i] in Elements(order);
    var kids := Children(g, order[i]);
    MirroredChildren(g, g.ids, order[i]);
    EvalParts(Unfold(g, order, i));
    EvalParts(Unfold(Mirrored(g), order, i));
    if kids == [] {
      MirroredLeaf(g.nodes[order[i]]);
    } else {
      MirroredKids(g, order, i, kids);
      MirroredParent(g.nodes[order[i]], EvalAll(UnfoldKids(g, order, i, kids)), EvalAll(UnfoldKids(Mirrored(g), order, i, kids)));
    }
  }

  lemma {:induction false} MirroredKids(g: Graph, order: seq<string>, i: nat, kids: seq<string>)
    requires i < |order| && Elements(order) <= g.nodes.Keys && Elements(order) <= Mirrored(g).nodes.Keys && AllDirected(g)
    ensures Negations(EvalAll(UnfoldKids(g, order, i, kids)), EvalAll(UnfoldKids(Mirrored(g), order, i, kids)))
    decreases i, 0, |kids|
  {
    hide Eval, Unfold, Mirrored;
    if kids != [] {
      var front, c := kids[..|kids| - 1], kids[|kids| - 1];
      MirroredKids(g, order, i, front);
      if c in order[..i] {
        var at := IndexOf(order[..i], c);
        MirroredAt(g, order, at);
        EvalAllAppend(UnfoldKids(g, order, i, front), Unfold(g, order, at));
        EvalAllAppend(UnfoldKids(Mirrored(g), order, i, front), Unfold(Mirrored(g), order, at));
      }
    }
  }

  lemma MirroredScored(list: seq<RawNode>)
    ensures Scored(MirroredList(list)) == Mirrored(Scored(list))
  {
    hide Mirrored, PromoteFirst;
    LoadValid(list);
    MirroredLoad(list);
    SameIds(Load(list));
    MirroredPromotion(Load(list), |Load(list).ids|);
  }

  /** The mirror law on the result table: exchange the two directions in every node, and the score and the
      three horizons change sign everywhere, while confidence, coverage, penalty and counters stay. It holds
      unless a score-enabled multiplier is left Unavailable. */
  lemma ReportMirrored(list: seq<RawNode>, order: seq<string>, results: map<string, Result>,
                       order': seq<string>, results': map<string, Result>, n: string)
    requires AllDirected(Scored(list)) && n in Scored(list).nodes
    requires Evaluates(Scored(list), order, results) && Evaluates(Scored(MirroredList(list)), order', results')
    ensures n in results && n in results' && results'[n] == NegatedResult(results[n])
  {
    hide Unfold, Eval, Mirrored, Scored, PostOrderOf;
    var g := Scored(list);
    MirroredScored(list);
    SameIds(g);
    MirroredOrder(g);
    PostOrderIs(g);
    MembersOf(g, order);
    assert order[IndexOf(order, n)] == n;
    MirroredAt(g, order, IndexOf(order, n));
  }
}
