/** `aggregate_company_graph`: load, promote proxies, order, score. The main
    result is that the order-driven, table-filling pass computes, for every node, the
    structural recursion over that node's subtree. */
module CompanyGraph {
  import opened Basics
  import opened AggregatorNode
  import opened Rollup
  import opened CompanyTree
  import opened ProxyPass
  import opened PostOrder
  import opened Preparation

  // ---- loading ----------------------------------------------------------------

  /** `nodes_by_id` after reading `list`: anonymous nodes are skipped; a repeated id keeps its
      place and takes the later node. */
  function Load(list: seq<RawNode>): Graph {
    if list == [] then Graph([], map[])
    else
      var g := Load(list[..|list| - 1]);
      var n := list[|list| - 1];
      if n.nodeId == "" then g
      else Graph(if n.nodeId in g.nodes then g.ids else g.ids + [n.nodeId], g.nodes[n.nodeId := ReadNode(n)])
  }

  lemma {:induction false} LoadValid(list: seq<RawNode>)
    ensures ValidGraph(Load(list))
  {
    if list != [] {
      hide ReadNode, Elements, Distinct;
      LoadValid(list[..|list| - 1]);
      var g, n := Load(list[..|list| - 1]), list[|list| - 1];
      if n.nodeId != "" && n.nodeId !in g.nodes {
        AppendFresh(g.ids, n.nodeId);
      }
    } else {
      ElementsAll<string>([]);
      assert Distinct<string>([]);
    }
  }

  /** Node `i` is the last one with its id. */
  predicate LastWithId(list: seq<RawNode>, i: int) {
    0 <= i < |list| && list[i].nodeId != "" && forall j :: i < j < |list| ==> list[j].nodeId != list[i].nodeId
  }

  /** Node `i` is the first one with its id. */
  predicate FirstWithId(list: seq<RawNode>, i: int) {
    0 <= i < |list| && list[i].nodeId != "" && forall j :: 0 <= j < i ==> list[j].nodeId != list[i].nodeId
  }

  lemma {:induction false} LoadedIds(list: seq<RawNode>)
    ensures forall id :: id in Load(list).nodes <==> id != "" && exists i :: 0 <= i < |list| && list[i].nodeId == id
  {
    hide ReadNode;
    if list != [] {
      var n := |list| - 1;
      LoadedIds(list[..n]);
      assert forall j :: 0 <= j < n ==> list[..n][j] == list[j];
      assert Load(list).nodes.Keys == Load(list[..n]).nodes.Keys + (if list[n].nodeId == "" then {} else {list[n].nodeId});
      hide Load;
    }
  }

  lemma LastBefore(list: seq<RawNode>, i: int)
    requires LastWithId(list, i) && i < |list| - 1
    ensures LastWithId(list[..|list| - 1], i) && list[|list| - 1].nodeId != list[i].nodeId
  {
  }

  lemma {:induction false} LoadedNode(list: seq<RawNode>, i: int)
    requires LastWithId(list, i)
    ensures list[i].nodeId in Load(list).nodes && Load(list).nodes[list[i].nodeId] == ReadNode(list[i])
  {
    hide ReadNode;
    if i < |list| - 1 {
      LastBefore(list, i);
      LoadedNode(list[..|list| - 1], i);
    }
  }

  lemma {:induction false} LoadedOrder(list: seq<RawNode>)
    ensures Load(list).ids == FirstIds(list)
  {
    hide ReadNode, FirstWithId;
    if list != [] {
      var n := |list| - 1;
      LoadedOrder(list[..n]);
      LoadedIds(list[..n]);
      NewIsFirst(list);
      assert Load(list[..n]).ids + [] == Load(list[..n]).ids;
    }
  }

  lemma NewIsFirst(list: seq<RawNode>)
    requires list != []
    ensures var n := |list| - 1;
            FirstWithId(list, n) <==> list[n].nodeId != "" && !(exists i :: 0 <= i < |list[..n]| && list[..n][i].nodeId == list[n].nodeId)
  {
    var n := |list| - 1;
    assert forall j :: 0 <= j < n ==> list[..n][j] == list[j];
  }

  /** What is loaded: under each id the last node that has it, and nothing else; ids in the order in which they
      first occur. */
  lemma LoadInWords(list: seq<RawNode>, i: int, id: string)
    ensures LastWithId(list, i) ==> list[i].nodeId in Load(list).nodes && Load(list).nodes[list[i].nodeId] == ReadNode(list[i])
    ensures id in Load(list).nodes <==> id != "" && exists j :: 0 <= j < |list| && list[j].nodeId == id
    ensures Load(list).ids == FirstIds(list)
  {
    hide Load, ReadNode, FirstIds;
    LoadedIds(list);
    LoadedOrder(list);
    if LastWithId(list, i) {
      LoadedNode(list, i);
    }
  }

  /** The ids of the nodes that are the first with their id. */
  function FirstIds(list: seq<RawNode>): seq<string> {
    if list == [] then []
    else FirstIds(list[..|list| - 1]) + (if FirstWithId(list, |list| - 1) then [list[|list| - 1].nodeId] else [])
  }

  /** The graph that gets scored. */
  function Scored(list: seq<RawNode>): (g: Graph)
    ensures ValidGraph(g)
  {
    LoadValid(list);
    var g := PromoteAll(Load(list));
    assert g.ids == Load(list).ids;
    g
  }

  class CompanyNodes {
    var ids: seq<string>
    var nodes: map<string, Node>

    ghost predicate Valid()
      reads this
    {
      ValidGraph(Table())
    }

    function Table(): Graph
      reads this
    {
      Graph(ids, nodes)
    }

    constructor (list: seq<RawNode>)
      ensures Valid() && Table() == Load(list)
    {
      ids, nodes := [], map[];
      new;
      for i := 0 to |list|
        invariant Table() == Load(list[..i])
      {
        assert list[..i + 1][..i] == list[..i];
        var n := list[i];
        if n.nodeId != "" {
          if n.nodeId !in nodes {
            ids := ids + [n.nodeId];
          }
          nodes := nodes[n.nodeId := ReadNode(n)];
        }
      }
      assert list[..|list|] == list;
      LoadValid(list);
    }

    /** The `nodes_by_dp` table, filled in one pass over the nodes. */
    method NodesByDp() returns (byDp: map<string, seq<string>>)
      requires Valid()
      ensures forall dp :: (if dp in byDp then byDp[dp] else []) == WithDp(nodes, ids, dp)
    {
      hide WithDp, Elements, Distinct, Indexed;
      byDp := map[];
      StartIndex(nodes);
      ElementsAll(ids);
      for i := 0 to |ids|
        invariant Elements(ids[..i]) <= nodes.Keys && ids[..|ids|] == ids
        invariant Indexed(byDp, nodes, ids[..i])
      {
        ElementsStep(ids, i);
        IndexStep(byDp, nodes, ids, i);
        var dp := nodes[ids[i]].dpId;
        if dp != "" {
          byDp := byDp[dp := (if dp in byDp then byDp[dp] else []) + [ids[i]]];
        }
      }
      IndexIs(byDp, nodes, ids);
    }

    /** The two inner loops of the pass: the first candidate dp_id some other node can serve. */
    method FindProxy(id: string, candidates: seq<string>, byDp: map<string, seq<string>>) returns (found: Option<string>)
      requires Valid() && id in nodes
      requires forall dp :: (if dp in byDp then byDp[dp] else []) == WithDp(nodes, ids, dp)
      ensures found == FirstProxy(Table(), candidates, id)
    {
      hide FirstDonor, FirstProxy, WithDp, Elements;
      ElementsAll(ids);
      for c := 0 to |candidates|
        invariant FirstProxy(Table(), candidates, id) == FirstProxy(Table(), candidates[c..], id)
      {
        var dp := candidates[c];
        var list := if dp in byDp then byDp[dp] else [];
        assert list == WithDp(nodes, ids, dp);
        WithDpIs(nodes, ids, dp);
        FirstProxyStep(Table(), candidates[c..], id);
        for i := 0 to |list|
          invariant DonorFor(Table(), dp, id) == FirstDonor(nodes, list[i..], id)
        {
          FirstDonorStep(nodes, list[i..], id);
          if list[i] != id && Donor(nodes[list[i]]) {
            return Some(list[i]);
          }
        }
        FirstDonorEnd(nodes, id);
      }
      FirstProxyEnd(Table(), id);
      return None;
    }

    /** One turn of the outer loop: rewrite node `id` if it is Unavailable and can be served. */
    method PromoteOne(id: string, byDp: map<string, seq<string>>)
      requires Valid() && id in nodes
      requires forall dp :: (if dp in byDp then byDp[dp] else []) == WithDp(nodes, ids, dp)
      modifies `nodes
      ensures Valid() && Table() == PromoteNode(old(Table()), id)
      ensures forall dp :: WithDp(nodes, ids, dp) == old(WithDp(nodes, ids, dp))
    {
      hide WithDp, FirstProxy, Promoted;
      LendKeepsDpIds(Table(), id);
      if nodes[id].status == Unavailable {
        var found := FindProxy(id, nodes[id].proxyCandidates, byDp);
        FirstProxyIs(Table(), nodes[id].proxyCandidates, id);
        if found.Some? {
          nodes := nodes[id := Promoted(nodes[id], nodes[found.value])];
        }
      }
    }

    /** `_apply_proxy_candidates`, rewriting nodes in place. */
    method ApplyProxyCandidates()
      requires Valid()
      modifies `nodes
      ensures Valid() && Table() == PromoteAll(old(Table()))
    {
      ghost var g := Table();
      var byDp := NodesByDp();
      for i := 0 to |ids|
        invariant Table() == PromoteFirst(g, i) && Valid()
        invariant forall dp :: (if dp in byDp then byDp[dp] else []) == WithDp(nodes, ids, dp)
      {
        assert ids[i] in Elements(ids);
        PromoteOne(ids[i], byDp);
      }
    }
  }

  /** `byDp` lists, under every dp_id, the nodes of `ids` that carry it. */
  ghost predicate Indexed(byDp: map<string, seq<string>>, nodes: map<string, Node>, ids: seq<string>)
    requires Elements(ids) <= nodes.Keys
  {
    forall dp :: (if dp in byDp then byDp[dp] else []) == WithDp(nodes, ids, dp)
  }

  lemma StartIndex(nodes: map<string, Node>)
    ensures Elements<string>([]) <= nodes.Keys && Indexed(map[], nodes, [])
  {
    NoneWithDp(nodes);
  }

  lemma IndexStep(byDp: map<string, seq<string>>, nodes: map<string, Node>, ids: seq<string>, i: nat)
    requires i < |ids| && Elements(ids[..i + 1]) <= nodes.Keys && Elements(ids[..i]) <= nodes.Keys
    requires ids[i] in nodes && Indexed(byDp, nodes, ids[..i])
    ensures var dp := nodes[ids[i]].dpId;
            Indexed(if dp == "" then byDp else byDp[dp := (if dp in byDp then byDp[dp] else []) + [ids[i]]], nodes, ids[..i + 1])
  {
    hide WithDp, Elements;
    forall d { WithDpStep(nodes, ids, i, d); }
  }

  lemma IndexIs(byDp: map<string, seq<string>>, nodes: map<string, Node>, ids: seq<string>)
    requires Elements(ids) <= nodes.Keys && Indexed(byDp, nodes, ids)
    ensures forall dp :: (if dp in byDp then byDp[dp] else []) == WithDp(nodes, ids, dp)
  {
  }

  lemma LendKeepsDpIds(g: Graph, id: string)
    requires ValidGraph(g) && id in g.nodes
    ensures ValidGraph(PromoteNode(g, id))
    ensures forall dp :: WithDp(PromoteNode(g, id).nodes, g.ids, dp) == WithDp(g.nodes, g.ids, dp)
  {
    hide FirstProxy, WithDp;
    SameDpIds(g.nodes, PromoteNode(g, id).nodes, g.ids);
  }

  lemma {:induction false} SameDpIds(m: map<string, Node>, m': map<string, Node>, ids: seq<string>)
    requires m.Keys == m'.Keys && Elements(ids) <= m.Keys
    requires forall n :: n in m ==> m[n].dpId == m'[n].dpId
    ensures forall dp :: WithDp(m, ids, dp) == WithDp(m', ids, dp)
  {
    if ids != [] {
      assert Elements(ids[..|ids| - 1]) <= Elements(ids);
      assert ids[|ids| - 1] in Elements(ids);
      SameDpIds(m, m', ids[..|ids| - 1]);
    }
  }

  // ---- what the order-driven pass sees ------------------------------------------

  function IndexOf(order: seq<string>, n: string): (i: nat)
    requires n in order
    ensures i < |order| && order[i] == n
  {
    if order[0] == n then 0 else 1 + IndexOf(order[1..], n)
  }

  /** The tree behind position `i`: children not yet evaluated at that point are skipped. */
  function Unfold(g: Graph, order: seq<string>, i: nat): Tree
    requires i < |order| && Elements(order) <= g.nodes.Keys
    decreases i, 1, 0
  {
    assert order[i] in Elements(order);
    var kids := Children(g, order[i]);
    if kids == [] then Leaf(g.nodes[order[i]])
    else Parent(g.nodes[order[i]], UnfoldKids(g, order, i, kids))
  }

  function UnfoldKids(g: Graph, order: seq<string>, i: nat, kids: seq<string>): seq<Tree>
    requires i < |order| && Elements(order) <= g.nodes.Keys
    decreases i, 0, |kids|
  {
    if kids == [] then []
    else
      var c := kids[|kids| - 1];
      UnfoldKids(g, order, i, kids[..|kids| - 1]) +
      (if c in order[..i] then [Unfold(g, order, IndexOf(order[..i], c))] else [])
  }

  /** A finite subtree is unfolded completely. */
  lemma {:induction false} UnfoldIsSubtree(g: Graph, order: seq<string>, i: nat, t: Tree)
    requires ValidGraph(g) && i < |order| && Elements(order) <= g.nodes.Keys && ChildFirst(g, order)
    requires IsSubtree(g, order[i], t)
    ensures Unfold(g, order, i) == t
    decreases t, 1
  {
    hide Children, Below;
    if t.Parent? {
      var kids := Children(g, order[i]);
      UnfoldKidsAreSubtrees(g, order, i, t, |kids|);
      assert kids[..|kids|] == kids && t.kids[..|kids|] == t.kids;
    }
  }

  lemma {:induction false} UnfoldKidsAreSubtrees(g: Graph, order: seq<string>, i: nat, t: Tree, j: nat)
    requires ValidGraph(g) && i < |order| && Elements(order) <= g.nodes.Keys && ChildFirst(g, order)
    requires IsSubtree(g, order[i], t) && t.Parent? && j <= |t.kids|
    ensures UnfoldKids(g, order, i, Children(g, order[i])[..j]) == t.kids[..j]
    decreases t, 0, j
  {
    hide Children, Below;
    if j > 0 {
      var kids := Children(g, order[i]);
      UnfoldKidsAreSubtrees(g, order, i, t, j - 1);
      assert kids[..j][..j - 1] == kids[..j - 1];
      var c := kids[j - 1];
      FiniteSubtreeHasNoCycle(g, order[i], t, c);
      assert KidsDone(g, order[..i], order[i]);
      UnfoldIsSubtree(g, order, IndexOf(order[..i], c), t.kids[j - 1]);
    }
  }

  /** Without cycles every unfolding is the full subtree. */
  lemma {:induction false} AcyclicUnfold(g: Graph, order: seq<string>, i: nat)
    requires ValidGraph(g) && i < |order| && Elements(order) <= g.nodes.Keys
    requires Acyclic(g) && ChildFirst(g, order)
    ensures IsSubtree(g, order[i], Unfold(g, order, i))
    decreases i, 1, 0
  {
    assert order[i] in Elements(order);
    var kids := Children(g, order[i]);
    if kids != [] {
      AcyclicUnfoldKids(g, order, i, |kids|);
      assert kids[..|kids|] == kids;
    }
  }

  lemma {:induction false} AcyclicUnfoldKids(g: Graph, order: seq<string>, i: nat, j: nat)
    requires ValidGraph(g) && i < |order| && Elements(order) <= g.nodes.Keys
    requires Acyclic(g) && ChildFirst(g, order) && j <= |Children(g, order[i])|
    ensures var ts := UnfoldKids(g, order, i, Children(g, order[i])[..j]);
            |ts| == j && forall k :: 0 <= k < j ==> IsSubtree(g, Children(g, order[i])[k], ts[k])
    decreases i, 0, j
  {
    hide Children, Below, Acyclic;
    if j > 0 {
      var kids := Children(g, order[i]);
      AcyclicUnfoldKids(g, order, i, j - 1);
      assert kids[..j][..j - 1] == kids[..j - 1];
      AcyclicChildrenPrecede(g, order, i, kids[j - 1]);
      AcyclicUnfold(g, order, IndexOf(order[..i], kids[j - 1]));
    }
  }

  // ---- the evaluation loop --------------------------------------------------------

  /** `results` is what the pass leaves behind for `g`: the links fix the order, and the order fixes
      every result, on cycles too. */
  ghost predicate Evaluates(g: Graph, order: seq<string>, results: map<string, Result>)
    requires ValidGraph(g)
  {
    PostOrderIs(g);
    && order == PostOrderOf(g)
    && results.Keys == g.nodes.Keys
    && forall i :: 0 <= i < |order| ==> order[i] in results && results[order[i]] == Eval(Unfold(g, order, i)).result
  }

  /** Order-driven scoring: one pass over `order`, children read from the payload table. */
  method EvaluateInOrder(g: Graph, order: seq<string>) returns (results: map<string, Result>)
    requires ValidGraph(g) && Distinct(order) && Elements(order) == g.nodes.Keys
    ensures results.Keys == g.nodes.Keys
    ensures forall i :: 0 <= i < |order| ==> order[i] in results && results[order[i]] == Eval(Unfold(g, order, i)).result
  {
    hide Eval, Unfold, ValidGraph, Elements, Distinct;
    ElementsAll(order);
    results := map[];
    var payload: map<string, Child> := map[];
    for i := 0 to |order|
      invariant results.Keys == Elements(order[..i]) && payload.Keys == Elements(order[..i])
      invariant forall k :: 0 <= k < i ==> order[k] in Elements(order[..i])
      invariant forall k :: 0 <= k < i ==> results[order[k]] == Eval(Unfold(g, order, k)).result
      invariant forall k :: 0 <= k < i ==> payload[order[k]] == Eval(Unfold(g, order, k)).asChild
    {
      var nid := order[i];
      ElementsStep(order, i);
      NotYet(order, i);
      var outcome := EvaluateOne(g, order, i, payload, nid);
      results := results[nid := outcome.result];
      payload := payload[nid := outcome.asChild];
    }
  }

  lemma NotYet(order: seq<string>, i: nat)
    requires Distinct(order) && i < |order|
    ensures forall k :: 0 <= k < i ==> order[k] != order[i]
  {
  }

  method EvaluateOne(g: Graph, ghost order: seq<string>, ghost i: nat, payload: map<string, Child>, nid: string)
    returns (outcome: Outcome)
    requires ValidGraph(g) && Elements(order) == g.nodes.Keys && i < |order| && order[i] == nid
    requires payload.Keys == Elements(order[..i])
    requires forall k :: 0 <= k < i ==> order[k] in Elements(order[..i])
    requires forall k :: 0 <= k < i ==> payload[order[k]] == Eval(Unfold(g, order, k)).asChild
    ensures outcome == Eval(Unfold(g, order, i))
  {
    hide Eval, Aggregated, LeafResult, LeafChild, ParentChild, Children, ValidGraph;
    assert nid in Elements(order);
    EvalParts(Unfold(g, order, i));
    var node := g.nodes[nid];
    var kids := Children(g, nid);
    if kids == [] {
      return Outcome(LeafResult(node), LeafChild(node));
    }
    var childResults: seq<Child> := [];
    for k := 0 to |kids|
      invariant childResults == EvalAll(UnfoldKids(g, order, i, kids[..k]))
    {
      assert kids[..k + 1][..k] == kids[..k];
      if kids[k] in payload {
        ghost var at := IndexOf(order[..i], kids[k]);
        assert order[at] == kids[k];
        EvalAllAppend(UnfoldKids(g, order, i, kids[..k]), Unfold(g, order, at));
        childResults := childResults + [payload[kids[k]]];
      } else {
        assert kids[k] !in order[..i];
      }
    }
    assert kids[..|kids|] == kids;
    var r := AggregateParent(node, childResults);
    outcome := Outcome(r, ParentChild(node, r));
  }

  /** `aggregate_company_graph`: an absent industry overlay or role registry is an empty one. Exactly one result per node, whatever the parent links, computed in the
      order of the recursive walk; a node whose subtree is finite gets the structural recursion over that whole subtree. */
  method AggregateCompanyGraph(list: seq<RawNode>, industry: seq<RawNode>, rules: map<string, Rule>)
    returns (results: map<string, Result>)
    ensures Evaluates(Scored(Prepared(list, industry, rules)), PostOrderOf(Scored(Prepared(list, industry, rules))), results)
    ensures forall n, t :: IsSubtree(Scored(Prepared(list, industry, rules)), n, t) ==> n in results && results[n] == Eval(t).result
  {
    var prepared := PrepareNodes(list, industry, rules);
    var table := new CompanyNodes(prepared);
    table.ApplyProxyCandidates();
    var g := table.Table();
    assert g == Scored(prepared);
    var order := EvaluationOrder(g);
    results := EvaluateInOrder(g, order);
    FullSubtrees(g, order, results);
  }

  lemma FullSubtrees(g: Graph, order: seq<string>, results: map<string, Result>)
    requires ValidGraph(g) && Evaluates(g, order, results)
    ensures forall n, t :: IsSubtree(g, n, t) ==> n in results && results[n] == Eval(t).result
  {
    PostOrderIs(g);
    forall n, t | IsSubtree(g, n, t) ensures n in results && results[n] == Eval(t).result {
      assert n in Elements(order);
      UnfoldIsSubtree(g, order, IndexOf(order, n), t);
    }
  }

  /** Acyclic links: every child precedes its parent, and every result is the structural recursion
      over the node's full subtree. */
  lemma AcyclicRefinement(g: Graph, order: seq<string>, results: map<string, Result>, n: string) returns (t: Tree)
    requires ValidGraph(g) && Evaluates(g, order, results) && Acyclic(g) && n in g.nodes
    ensures n in order && forall c :: c in Children(g, n) ==> c in order[..IndexOf(order, n)]
    ensures IsSubtree(g, n, t) && results[n] == Eval(t).result
  {
    PostOrderIs(g);
    assert n in Elements(order);
    var i := IndexOf(order, n);
    forall c | c in Children(g, n) ensures c in order[..i] {
      AcyclicChildrenPrecede(g, order, i, c);
    }
    AcyclicUnfold(g, order, i);
    t := Unfold(g, order, i);
  }

  /** Conversely, a node on a cycle has no finite subtree at all. */
  lemma CycleHasNoSubtree(g: Graph, n: string, k: nat, t: Tree)
    requires ValidGraph(g) && k > 0 && Ancestor(g, n, k) == Some(n)
    ensures !IsSubtree(g, n, t)
  {
    if IsSubtree(g, n, t) {
      var c := ChainPenultimate(g, n, k, n);
      var up := k - 1;
      // `c` is a child of `n`, and `n` hangs below `c`.
      assert Ancestor(g, n, up) == Some(c);
      FiniteSubtreeHasNoCycle(g, n, t, c);
    }
  }
}
