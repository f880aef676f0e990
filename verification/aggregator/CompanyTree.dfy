/** Parent links as a graph, subtrees as finite trees, and the structural
    recursion that scores a tree. */
module CompanyTree {
  import opened Basics
  import opened AggregatorNode
  import opened Rollup

  /** `nodes_by_id`: ids in insertion order, and the node behind each id. */
  datatype Graph = Graph(ids: seq<string>, nodes: map<string, Node>)

  ghost predicate ValidGraph(g: Graph) {
    Distinct(g.ids) && Elements(g.ids) == g.nodes.Keys && "" !in g.nodes
  }

  function ParentOf(g: Graph, n: string): Option<string> {
    if n in g.nodes && g.nodes[n].parentNode in g.nodes then Some(g.nodes[n].parentNode) else None
  }

  predicate IsLink(g: Graph, p: string, n: string) {
    ParentOf(g, n) == Some(p)
  }

  /** The children of `p` among `ids`, in order. */
  function ChildrenAmong(g: Graph, ids: seq<string>, p: string): seq<string> {
    if ids == [] then []
    else ChildrenAmong(g, ids[..|ids| - 1], p) + (if IsLink(g, p, ids[|ids| - 1]) then [ids[|ids| - 1]] else [])
  }

  function Children(g: Graph, p: string): seq<string> {
    ChildrenAmong(g, g.ids, p)
  }

  lemma {:induction false} ChildrenAmongAre(g: Graph, ids: seq<string>, p: string)
    ensures forall c :: c in ChildrenAmong(g, ids, p) <==> c in ids && IsLink(g, p, c)
  {
    if ids != [] {
      ChildrenAmongAre(g, ids[..|ids| - 1], p);
    }
  }

  /** The children of `p` are exactly the nodes linked to it. */
  lemma ChildrenAre(g: Graph, p: string)
    requires ValidGraph(g)
    ensures forall c :: c in Children(g, p) <==> IsLink(g, p, c)
    ensures forall c :: c in Children(g, p) ==> c in g.nodes
  {
    ChildrenAmongAre(g, g.ids, p);
    forall c | IsLink(g, p, c) || c in Children(g, p) ensures c in g.ids && c in g.nodes {
      assert c in g.nodes || c in Elements(g.ids);
      assert c in Elements(g.ids);
    }
  }

  /** A node with no children is a leaf; a Parent may still have had every child skipped. */
  datatype Tree = Leaf(node: Node) | Parent(node: Node, kids: seq<Tree>)

  datatype Outcome = Outcome(result: Result, asChild: Child)

  /** Structural recursion: score the children, then the node. */
  function Eval(t: Tree): Outcome
    decreases t
  {
    match t
    case Leaf(n) => Outcome(LeafResult(n), LeafChild(n))
    case Parent(n, kids) =>
      var r := Aggregated(n, EvalAll(kids));
      Outcome(r, ParentChild(n, r))
  }

  function EvalAll(ts: seq<Tree>): (cs: seq<Child>)
    ensures |cs| == |ts|
    ensures forall i :: 0 <= i < |ts| ==> cs[i] == Eval(ts[i]).asChild
    decreases ts
  {
    if ts == [] then [] else [Eval(ts[0]).asChild] + EvalAll(ts[1..])
  }

  lemma EvalParts(t: Tree)
    ensures t.Leaf? ==> Eval(t) == Outcome(LeafResult(t.node), LeafChild(t.node))
    ensures t.Parent? ==> var r := Aggregated(t.node, EvalAll(t.kids)); Eval(t) == Outcome(r, ParentChild(t.node, r))
  {
  }

  lemma EvalAllAppend(ts: seq<Tree>, t: Tree)
    ensures EvalAll(ts + [t]) == EvalAll(ts) + [Eval(t).asChild]
  {
  }

  function Size(t: Tree): (n: nat)
    ensures n >= 1
    decreases t
  {
    match t
    case Leaf(_) => 1
    case Parent(_, kids) => 1 + SizeAll(kids)
  }

  function SizeAll(ts: seq<Tree>): (n: nat)
    ensures forall i :: 0 <= i < |ts| ==> Size(ts[i]) <= n
    decreases ts
  {
    if ts == [] then 0 else Size(ts[0]) + SizeAll(ts[1..])
  }

  /** `t` is exactly the subtree hanging from `n`: every child, at every depth, in link order. */
  ghost predicate IsSubtree(g: Graph, n: string, t: Tree)
    decreases t
  {
    && n in g.nodes && t.node == g.nodes[n]
    && match t
       case Leaf(_) => Children(g, n) == []
       case Parent(_, kids) =>
         && |kids| == |Children(g, n)| > 0
         && forall i :: 0 <= i < |kids| ==> IsSubtree(g, Children(g, n)[i], kids[i])
  }

  lemma {:induction false} SubtreeUnique(g: Graph, n: string, t: Tree, u: Tree)
    requires IsSubtree(g, n, t) && IsSubtree(g, n, u)
    ensures t == u
    decreases t
  {
    if t.Parent? {
      forall i | 0 <= i < |t.kids| ensures t.kids[i] == u.kids[i] {
        SubtreeUnique(g, Children(g, n)[i], t.kids[i], u.kids[i]);
      }
      assert t.kids == u.kids;
    }
  }

  /** The `k`-th ancestor along parent links. */
  function Ancestor(g: Graph, n: string, k: nat): Option<string>
    decreases k
  {
    if k == 0 then Some(n)
    else match ParentOf(g, n)
      case None => None
      case Some(p) => Ancestor(g, p, k - 1)
  }

  ghost predicate Below(g: Graph, n: string, top: string) {
    exists k: nat :: Ancestor(g, n, k) == Some(top)
  }

  /** No node is its own ancestor. */
  ghost predicate Acyclic(g: Graph) {
    forall n, k: nat :: n in g.nodes && k > 0 ==> Ancestor(g, n, k) != Some(n)
  }

  lemma ChildIsBelow(g: Graph, c: string, n: string, top: string)
    requires IsLink(g, n, c) && Below(g, n, top)
    ensures Below(g, c, top)
  {
    var k: nat :| Ancestor(g, n, k) == Some(top);
    assert Ancestor(g, c, k + 1) == Some(top);
  }

  /** Whatever hangs below a node with a finite subtree has a subtree no larger. */
  lemma {:induction false} BelowHasSmallerSubtree(g: Graph, n: string, k: nat, top: string, t: Tree) returns (u: Tree)
    requires ValidGraph(g) && IsSubtree(g, top, t) && Ancestor(g, n, k) == Some(top)
    ensures IsSubtree(g, n, u) && Size(u) <= Size(t)
    decreases k
  {
    if k == 0 {
      u := t;
    } else {
      // The last step of the chain is a child of `top`.
      var c := ChainPenultimate(g, n, k, top);
      ChildrenAre(g, top);
      var i :| 0 <= i < |Children(g, top)| && Children(g, top)[i] == c;
      u := BelowHasSmallerSubtree(g, n, k - 1, c, t.kids[i]);
    }
  }

  lemma {:induction false} ChainPenultimate(g: Graph, n: string, k: nat, top: string) returns (c: string)
    requires ValidGraph(g) && k > 0 && Ancestor(g, n, k) == Some(top)
    ensures Ancestor(g, n, k - 1) == Some(c) && IsLink(g, top, c) && c in Children(g, top)
    decreases k
  {
    if k == 1 {
      c := n;
      assert Ancestor(g, ParentOf(g, n).value, 0) == Some(top);
      ChildrenAre(g, top);
    } else {
      c := ChainPenultimate(g, ParentOf(g, n).value, k - 1, top);
    }
  }

  /** A link into a finite subtree is never closed into a cycle. */
  lemma FiniteSubtreeHasNoCycle(g: Graph, n: string, t: Tree, c: string)
    requires ValidGraph(g) && IsSubtree(g, n, t) && c in Children(g, n)
    ensures !Below(g, n, c)
  {
    if Below(g, n, c) {
      var k: nat :| Ancestor(g, n, k) == Some(c);
      var i :| 0 <= i < |Children(g, n)| && Children(g, n)[i] == c;
      assert Size(t.kids[i]) <= SizeAll(t.kids);
      var u := BelowHasSmallerSubtree(g, n, k, c, t.kids[i]);
      SubtreeUnique(g, n, t, u);
    }
  }
}
