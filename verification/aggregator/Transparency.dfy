/** Adding (read backwards: removing) an N/A or Inactive leaf: what it does to the links, and
    what it does to its parent's outcome. */
module Transparency {
  import opened Basics
  import opened AggregatorNode
  import opened Rollup
  import opened CompanyTree

  /** `g` with node `id` put in at position `k` of the insertion order. */
  function Insert(g: Graph, k: nat, id: string, leaf: Node): Graph
    requires k <= |g.ids|
  {
    Graph(g.ids[..k] + [id] + g.ids[k..], g.nodes[id := leaf])
  }

  /** `leaf` is a fresh, quiet leaf: N/A or Inactive, under a node of `g`, and nobody's parent. */
  ghost predicate QuietLeaf(g: Graph, id: string, leaf: Node) {
    && id != "" && id !in g.nodes
    && leaf.parentNode in g.nodes
    && (leaf.status == NotApplicable || leaf.status == Inactive)
    && forall n :: n in g.nodes ==> g.nodes[n].parentNode != id
  }

  lemma InsertValid(g: Graph, k: nat, id: string, leaf: Node)
    requires ValidGraph(g) && k <= |g.ids| && id != "" && id !in g.nodes
    ensures ValidGraph(Insert(g, k, id, leaf))
  {
    var ids := g.ids[..k] + [id] + g.ids[k..];
    assert g.ids == g.ids[..k] + g.ids[k..];
    assert id !in Elements(g.ids);
    assert Elements(ids) == Elements(g.ids) + {id};
  }

  // ---- adjacency ---------------------------------------------------------------

  lemma {:induction false} ChildrenConcat(g: Graph, a: seq<string>, b: seq<string>, p: string)
    ensures ChildrenAmong(g, a + b, p) == ChildrenAmong(g, a, p) + ChildrenAmong(g, b, p)
  {
    if b == [] {
      assert a + b == a;
    } else {
      assert (a + b)[..|a + b| - 1] == a + b[..|b| - 1];
      ChildrenConcat(g, a, b[..|b| - 1], p);
    }
  }

  lemma {:induction false} SameLinks(g: Graph, g': Graph, ids: seq<string>, p: string)
    requires forall n :: n in ids ==> ParentOf(g, n) == ParentOf(g', n)
    ensures ChildrenAmong(g, ids, p) == ChildrenAmong(g', ids, p)
  {
    if ids != [] {
      SameLinks(g, g', ids[..|ids| - 1], p);
    }
  }

  lemma InsertKeepsLinks(g: Graph, k: nat, id: string, leaf: Node, n: string)
    requires ValidGraph(g) && k <= |g.ids| && QuietLeaf(g, id, leaf) && n in g.ids
    ensures ParentOf(Insert(g, k, id, leaf), n) == ParentOf(g, n)
  {
    assert n in Elements(g.ids);
  }

  lemma NewLink(g: Graph, k: nat, id: string, leaf: Node, p: string)
    requires k <= |g.ids| && QuietLeaf(g, id, leaf)
    ensures IsLink(Insert(g, k, id, leaf), p, id) <==> p == leaf.parentNode
  {
  }

  lemma OneChild(g: Graph, id: string, p: string)
    ensures ChildrenAmong(g, [id], p) == if IsLink(g, p, id) then [id] else []
  {
    assert [id][..0] == [];
  }

  /** The new leaf joins its parent's children somewhere; every other child list is as before. */
  lemma InsertedChildren(g: Graph, k: nat, id: string, leaf: Node, p: string) returns (a: seq<string>, b: seq<string>)
    requires ValidGraph(g) && k <= |g.ids| && QuietLeaf(g, id, leaf)
    ensures Children(g, p) == a + b
    ensures Children(Insert(g, k, id, leaf), p) == if p == leaf.parentNode then a + [id] + b else a + b
  {
    NewLink(g, k, id, leaf, p);
    hide ChildrenAmong, ParentOf, IsLink, QuietLeaf, ValidGraph;
    var g' := Insert(g, k, id, leaf);
    var front, back := g.ids[..k], g.ids[k..];
    assert g.ids == front + back;
    forall n | n in g.ids ensures ParentOf(g, n) == ParentOf(g', n) {
      InsertKeepsLinks(g, k, id, leaf, n);
    }
    SameLinks(g, g', front, p);
    SameLinks(g, g', back, p);
    a, b := ChildrenAmong(g, front, p), ChildrenAmong(g, back, p);
    ChildrenConcat(g, front, back, p);
    var joined := if p == leaf.parentNode then a + [id] + b else a + b;
    assert ChildrenAmong(g', front + [id] + back, p) == joined by {
      ChildrenConcat(g', front + [id], back, p);
      ChildrenConcat(g', front, [id], p);
      OneChild(g', id, p);
      assert a + [] == a;
    }
  }

  lemma InsertedHasNoChildren(g: Graph, k: nat, id: string, leaf: Node)
    requires ValidGraph(g) && k <= |g.ids| && QuietLeaf(g, id, leaf)
    ensures Children(Insert(g, k, id, leaf), id) == []
  {
    var g' := Insert(g, k, id, leaf);
    InsertValid(g, k, id, leaf);
    ChildrenAre(g', id);
    HeadIsMember(Children(g', id));
    forall c ensures c !in Children(g', id) {
      assert !IsLink(g', id, c);
    }
  }

  // ---- invisibility -----------------------------------------------------------------

  /** The parent still has something to score: a score-enabled child that is active or Unknown. */
  predicate StillSpeaks(r: Result) { r.counters.active + r.counters.unknown > 0 }

  /** What the insertion may do to the outcome of node `n`. */
  predicate SameUpToCounters(n: string, p: string, before: Outcome, after: Outcome, leaf: Node) {
    && after.asChild == before.asChild
    && after.result == if n == p then before.result.(counters := Bumped(before.result.counters, LeafChild(leaf)))
                       else before.result
  }

  lemma ParentOutcome(node: Node, a: seq<Child>, leaf: Node, b: seq<Child>)
    requires leaf.status == NotApplicable || leaf.status == Inactive
    requires StillSpeaks(Aggregated(node, a + b))
    ensures var r, r' := Aggregated(node, a + b), Aggregated(node, a + [LeafChild(leaf)] + b);
            && r' == r.(counters := Bumped(r.counters, LeafChild(leaf)))
            && ParentChild(node, r') == ParentChild(node, r)
  {
    AggregateInsert(node, a, LeafChild(leaf), b);
  }

  lemma {:induction false} EvalAllConcat(a: seq<Tree>, b: seq<Tree>)
    ensures EvalAll(a + b) == EvalAll(a) + EvalAll(b)
  {
    if a == [] {
      assert a + b == b;
    } else {
      assert (a + b)[1..] == a[1..] + b;
      EvalAllConcat(a[1..], b);
    }
  }

  lemma EvalAllInsert(front: seq<Tree>, leaf: Node, back: seq<Tree>)
    ensures EvalAll(front + [Leaf(leaf)] + back) == EvalAll(front) + [LeafChild(leaf)] + EvalAll(back)
  {
    EvalAllConcat(front + [Leaf(leaf)], back);
    EvalAllAppend(front, Leaf(leaf));
  }
}
