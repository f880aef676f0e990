/** A quiet leaf is invisible to the whole pass: the walk takes it in without disturbing any
    other node, and no other node's evaluation notices it, on cyclic links as on trees. */
module QuietWalk {
  import opened Basics
  import opened AggregatorNode
  import opened Rollup
  import opened CompanyTree
  import opened PostOrder
  import opened CompanyGraph
  import opened Transparency

  // ---- leaving one id out of a sequence ------------------------------------------------

  function Drop(s: seq<string>, id: string): seq<string> {
    if s == [] then [] else Drop(s[..|s| - 1], id) + (if s[|s| - 1] == id then [] else [s[|s| - 1]])
  }

  lemma {:induction false} DropConcat(a: seq<string>, b: seq<string>, id: string)
    ensures Drop(a + b, id) == Drop(a, id) + Drop(b, id)
  {
    if b == [] {
      assert a + b == a;
    } else {
      assert (a + b)[..|a + b| - 1] == a + b[..|b| - 1];
      DropConcat(a, b[..|b| - 1], id);
    }
  }

  lemma {:induction false} DropKeeps(s: seq<string>, id: string)
    ensures forall c :: c in Drop(s, id) <==> c in s && c != id
    ensures id !in s ==> Drop(s, id) == s
  {
    if s != [] {
      var front := s[..|s| - 1];
      assert s == front + [s[|s| - 1]];
      DropKeeps(front, id);
    }
  }

  lemma DropOne(x: string, id: string)
    ensures Drop([x], id) == if x == id then [] else [x]
  {
    assert [x][..0] == [];
  }

  lemma DropAppend(s: seq<string>, x: string, id: string)
    ensures Drop(s + [x], id) == if x == id then Drop(s, id) else Drop(s, id) + [x]
  {
    DropConcat(s, [x], id);
    DropOne(x, id);
  }

  lemma {:induction false} IndexIsFirst(s: seq<string>, n: string, i: nat)
    requires i < |s| && s[i] == n && n !in s[..i]
    ensures n in s && IndexOf(s, n) == i
  {
    if i > 0 {
      assert s[..i][0] == s[0];
      assert s[1..][..i - 1] == s[..i][1..];
      IndexIsFirst(s[1..], n, i - 1);
    }
  }

  lemma {:induction false} NotBefore(s: seq<string>, n: string)
    requires n in s
    ensures n !in s[..IndexOf(s, n)]
  {
    if s[0] != n {
      NotBefore(s[1..], n);
      assert s[..IndexOf(s, n)] == [s[0]] + s[1..][..IndexOf(s[1..], n)];
    }
  }

  /** A member of a prefix has the same first place in the whole. */
  lemma IndexInPrefix(s: seq<string>, i: nat, c: string)
    requires i <= |s| && c in s[..i]
    ensures c in s && IndexOf(s[..i], c) == IndexOf(s, c) < i
  {
    var j := IndexOf(s[..i], c);
    NotBefore(s[..i], c);
    assert s[..i][..j] == s[..j];
    IndexIsFirst(s, c, j);
  }

  /** Dropping an id commutes with cutting in front of another. */
  lemma DropBefore(s: seq<string>, id: string, n: string)
    requires n in s && n != id
    ensures n in Drop(s, id)
    ensures Drop(s, id)[..IndexOf(Drop(s, id), n)] == Drop(s[..IndexOf(s, n)], id)
  {
    var i := IndexOf(s, n);
    var front, back := s[..i], s[i + 1..];
    assert s == front + [n] + back;
    DropConcat(front + [n], back, id);
    DropAppend(front, n, id);
    var d := Drop(front, id);
    assert Drop(s, id) == d + [n] + Drop(back, id);
    NotBefore(s, n);
    DropKeeps(front, id);
    assert Drop(s, id)[..|d|] == d;
    IndexIsFirst(Drop(s, id), n, |d|);
  }

  // ---- the walk with and without the leaf ---------------------------------------------------

  /** `w'` is `w` with possibly the leaf `id` done as well, and done before its parent `p`. */
  ghost predicate InStep(w: Walk, w': Walk, id: string, p: string) {
    && w'.visited - {id} == w.visited
    && Aligned(w.order, w'.order, id, p)
    && (id in w'.visited ==> id in w'.order)
  }

  /** `order'` is `order` with possibly `id` added, in front of `p` if `p` is there. */
  ghost predicate Aligned(order: seq<string>, order': seq<string>, id: string, p: string) {
    && order == Drop(order', id)
    && forall i :: 0 <= i < |order'| && order'[i] == p ==> id in order'[..i]
  }

  lemma AlignedAppend(order: seq<string>, order': seq<string>, id: string, p: string, n: string)
    requires Aligned(order, order', id, p) && (n == p ==> id in order')
    ensures Aligned(if n == id then order else order + [n], order' + [n], id, p)
  {
    DropAppend(order', n, id);
    var longer := order' + [n];
    forall i | 0 <= i < |longer| && longer[i] == p ensures id in longer[..i] {
      assert longer[..i] == order'[..i];
      assert order'[..|order'|] == order';
    }
  }

  lemma AlignedStart(id: string, p: string)
    ensures Aligned([], [], id, p)
  {
  }

  lemma DropChildren(g: Graph, k: nat, id: string, leaf: Node, n: string)
    requires ValidGraph(g) && k <= |g.ids| && QuietLeaf(g, id, leaf)
    ensures Drop(Children(Insert(g, k, id, leaf), n), id) == Children(g, n)
    ensures n == leaf.parentNode ==> id in Children(Insert(g, k, id, leaf), n)
  {
    var a, b := InsertedChildren(g, k, id, leaf, n);
    ChildrenAre(g, n);
    assert id !in a + b;
    DropKeeps(a + b, id);
    if n == leaf.parentNode {
      DropConcat(a + [id], b, id);
      DropAppend(a, id, id);
      DropConcat(a, b, id);
    }
  }

  lemma QuietIsNew(g: Graph, id: string, leaf: Node)
    requires QuietLeaf(g, id, leaf)
    ensures id !in g.nodes && leaf.parentNode in g.nodes && id != leaf.parentNode
    ensures leaf.status == NotApplicable || leaf.status == Inactive
  {
  }

  /** Visiting the leaf marks it, appends it, and nothing else. */
  lemma QuietVisit(g': Graph, id: string, p: string, w: Walk, w': Walk)
    requires ValidGraph(g') && id in g'.nodes && w'.visited <= g'.nodes.Keys && id != p
    requires Children(g', id) == [] && InStep(w, w', id, p)
    ensures InStep(w, VisitNode(g', id, w'), id, p)
  {
    hide Aligned, Children;
    if id !in w'.visited {
      AlignedAppend(w.order, w'.order, id, p, id);
      var begun := Walk(w'.visited + {id}, w'.order);
      assert VisitAll(g', [], begun) == begun;
      hide VisitAll;
    }
  }

  /** Visiting the same old node keeps the two walks in step. */
  lemma {:induction false} VisitInStep(g: Graph, k: nat, id: string, leaf: Node, n: string, w: Walk, w': Walk)
    requires ValidGraph(g) && k <= |g.ids| && QuietLeaf(g, id, leaf) && n in g.nodes
    requires var g' := Insert(g, k, id, leaf); ValidGraph(g') && w'.visited <= g'.nodes.Keys
    requires w.visited <= g.nodes.Keys && InStep(w, w', id, leaf.parentNode)
    ensures InStep(VisitNode(g, n, w), VisitNode(Insert(g, k, id, leaf), n, w'), id, leaf.parentNode)
    decreases g.nodes.Keys - w.visited, 0, 0
  {
    hide Aligned;
    var g', p := Insert(g, k, id, leaf), leaf.parentNode;
    if n !in w.visited {
      var begun, begun' := Walk(w.visited + {n}, w.order), Walk(w'.visited + {n}, w'.order);
      ChildrenAre(g, n);
      ChildrenAre(g', n);
      DropChildren(g, k, id, leaf, n);
      AllInStep(g, k, id, leaf, Children(g, n), Children(g', n), begun, begun');
      var inner, inner' := VisitAll(g, Children(g, n), begun), VisitAll(g', Children(g', n), begun');
      AlignedAppend(inner.order, inner'.order, id, p, n);
    }
  }

  lemma {:induction false} AllInStep(g: Graph, k: nat, id: string, leaf: Node, todo: seq<string>, todo': seq<string>, w: Walk, w': Walk)
    requires ValidGraph(g) && k <= |g.ids| && QuietLeaf(g, id, leaf)
    requires var g' := Insert(g, k, id, leaf);
             ValidGraph(g') && w'.visited <= g'.nodes.Keys && forall n :: n in todo' ==> n in g'.nodes
    requires todo == Drop(todo', id) && forall n :: n in todo ==> n in g.nodes
    requires w.visited <= g.nodes.Keys && InStep(w, w', id, leaf.parentNode)
    ensures InStep(VisitAll(g, todo, w), VisitAll(Insert(g, k, id, leaf), todo', w'), id, leaf.parentNode)
    decreases g.nodes.Keys - w.visited, 1, |todo'|
  {
    hide InStep, VisitNode, VisitAll, Insert, QuietLeaf, Children;
    var g', p := Insert(g, k, id, leaf), leaf.parentNode;
    QuietIsNew(g, id, leaf);
    if todo' == [] {
      VisitNone(g, w);
      VisitNone(g', w');
    } else {
      var front', last := todo'[..|todo'| - 1], todo'[|todo'| - 1];
      assert todo' == front' + [last];
      DropAppend(front', last, id);
      var front := Drop(front', id);
      assert forall n :: n in front ==> n in todo;
      AllInStep(g, k, id, leaf, front, front', w, w');
      var mid, mid' := VisitAll(g, front, w), VisitAll(g', front', w');
      VisitLast(g', front', last, w');
      if last == id {
        InsertedHasNoChildren(g, k, id, leaf);
        QuietVisit(g', id, p, mid, mid');
      } else {
        VisitLast(g, front, last, w);
        VisitInStep(g, k, id, leaf, last, mid, mid');
      }
    }
  }

  /** The evaluation order with the leaf is the one without it, plus the leaf somewhere in front of its
      parent. */
  lemma WalkIgnoresLeaf(g: Graph, k: nat, id: string, leaf: Node)
    requires ValidGraph(g) && k <= |g.ids| && QuietLeaf(g, id, leaf) && ValidGraph(Insert(g, k, id, leaf))
    ensures Aligned(PostOrderOf(g), PostOrderOf(Insert(g, k, id, leaf)), id, leaf.parentNode)
  {
    var g' := Insert(g, k, id, leaf);
    IdsAreNodes(g);
    IdsAreNodes(g');
    assert Drop(g'.ids, id) == g.ids by {
      var a, b := g.ids[..k], g.ids[k..];
      assert g.ids == a + b;
      DropConcat(a + [id], b, id);
      DropAppend(a, id, id);
      DropConcat(a, b, id);
      DropKeeps(g.ids, id);
    }
    AlignedStart(id, leaf.parentNode);
    AllInStep(g, k, id, leaf, g.ids, g'.ids, START, START);
  }

  // ---- evaluation with and without the leaf ------------------------------------------------------

  lemma {:induction false} UnfoldKidsConcat(g: Graph, order: seq<string>, i: nat, a: seq<string>, b: seq<string>)
    requires i < |order| && Elements(order) <= g.nodes.Keys
    ensures UnfoldKids(g, order, i, a + b) == UnfoldKids(g, order, i, a) + UnfoldKids(g, order, i, b)
  {
    hide Unfold;
    if b == [] {
      assert a + b == a;
    } else {
      assert (a + b)[..|a + b| - 1] == a + b[..|b| - 1];
      UnfoldKidsConcat(g, order, i, a, b[..|b| - 1]);
    }
  }

  /** Everything the comparison of the two passes starts from. */
  ghost predicate Compared(g: Graph, k: nat, id: string, leaf: Node, order: seq<string>, order': seq<string>) {
    && ValidGraph(g) && k <= |g.ids| && QuietLeaf(g, id, leaf) && ValidGraph(Insert(g, k, id, leaf))
    && Elements(order) == g.nodes.Keys && Elements(order') == Insert(g, k, id, leaf).nodes.Keys
    && Aligned(order, order', id, leaf.parentNode)
  }

  /** Among old nodes the two orders agree on who comes before whom. */
  lemma SameBefore(order: seq<string>, order': seq<string>, id: string, p: string, n: string, c: string)
    requires Aligned(order, order', id, p) && n in order' && n != id && c != id
    ensures n in order && (c in order[..IndexOf(order, n)] <==> c in order'[..IndexOf(order', n)])
  {
    DropBefore(order', id, n);
    DropKeeps(order'[..IndexOf(order', n)], id);
  }

  lemma MembersOf(g: Graph, order: seq<string>)
    requires Elements(order) == g.nodes.Keys
    ensures forall n :: n in g.nodes <==> n in order
  {
    assert forall n :: n in order <==> n in Elements(order);
  }

  /** The outcome of `n` when the nodes are evaluated in `order`. */
  function OutcomeAt(g: Graph, order: seq<string>, n: string): Outcome
    requires Elements(order) <= g.nodes.Keys && n in order
  {
    Eval(Unfold(g, order, IndexOf(order, n)))
  }

  /** Old kids hand up the same payloads. */
  lemma {:induction false} SamePayloads(g: Graph, k: nat, id: string, leaf: Node, order: seq<string>, order': seq<string>, n: string, kids: seq<string>)
    requires Compared(g, k, id, leaf, order, order') && n in g.nodes && n in order && n in order'
    requires leaf.parentNode in order && StillSpeaks(OutcomeAt(g, order, leaf.parentNode).result)
    requires forall c :: c in kids ==> c in g.nodes
    ensures EvalAll(UnfoldKids(Insert(g, k, id, leaf), order', IndexOf(order', n), kids)) ==
            EvalAll(UnfoldKids(g, order, IndexOf(order, n), kids))
    decreases IndexOf(order, n), 0, |kids|
  {
    hide Eval, EvalAll, Unfold, Insert, QuietLeaf, Aligned;
    var g', i, i' := Insert(g, k, id, leaf), IndexOf(order, n), IndexOf(order', n);
    QuietIsNew(g, id, leaf);
    if kids != [] {
      var front, c := kids[..|kids| - 1], kids[|kids| - 1];
      SamePayloads(g, k, id, leaf, order, order', n, front);
      SameBefore(order, order', id, leaf.parentNode, n, c);
      if c in order[..i] {
        IndexInPrefix(order, i, c);
        IndexInPrefix(order', i', c);
        QuietLeafIsTransparent(g, k, id, leaf, order, order', c);
        EvalAllAppend(UnfoldKids(g, order, i, front), Unfold(g, order, IndexOf(order, c)));
        EvalAllAppend(UnfoldKids(g', order', i', front), Unfold(g', order', IndexOf(order', c)));
      } else {
        assert UnfoldKids(g, order, i, front) + [] == UnfoldKids(g, order, i, front);
        assert UnfoldKids(g', order', i', front) + [] == UnfoldKids(g', order', i', front);
      }
    }
  }

  /** Whatever old node one looks at, cyclic links or not, its evaluation after the insertion is as
      before; only the direct parent's own counters move, and what that parent hands upward does not. */
  lemma {:induction false} QuietLeafIsTransparent(g: Graph, k: nat, id: string, leaf: Node, order: seq<string>, order': seq<string>, n: string)
    requires Compared(g, k, id, leaf, order, order') && n in g.nodes && n in order && n in order'
    requires leaf.parentNode in order && StillSpeaks(OutcomeAt(g, order, leaf.parentNode).result)
    ensures SameUpToCounters(n, leaf.parentNode, OutcomeAt(g, order, n), OutcomeAt(Insert(g, k, id, leaf), order', n), leaf)
    decreases IndexOf(order, n), 1, 0
  {
    hide Eval, EvalAll, UnfoldKids, QuietLeaf, Children, Aggregated, LeafChild, ParentChild, Aligned;
    var g', p := Insert(g, k, id, leaf), leaf.parentNode;
    var i, i' := IndexOf(order, n), IndexOf(order', n);
    QuietIsNew(g, id, leaf);
    ChildrenAre(g, n);
    var a, b := InsertedChildren(g, k, id, leaf, n);
    EvalParts(Unfold(g, order, i));
    EvalParts(Unfold(g', order', i'));
    SamePayloads(g, k, id, leaf, order, order', n, a + b);
    if n == p {
      NotBareParent(g, order, p);
      SplitPayloads(g, k, id, leaf, order, order', a, b);
      UnfoldKidsConcat(g, order, i, a, b);
      EvalAllConcat(UnfoldKids(g, order, i, a), UnfoldKids(g, order, i, b));
      ParentOutcome(g.nodes[p], EvalAll(UnfoldKids(g, order, i, a)), leaf, EvalAll(UnfoldKids(g, order, i, b)));
    }
  }

  /** A node that still speaks has children. */
  lemma NotBareParent(g: Graph, order: seq<string>, p: string)
    requires Elements(order) <= g.nodes.Keys && p in order && StillSpeaks(OutcomeAt(g, order, p).result)
    ensures Children(g, p) != []
  {
    EvalParts(Unfold(g, order, IndexOf(order, p)));
  }

  /** The payloads the parent collects: the old ones, with the leaf's among them. */
  lemma {:induction false} SplitPayloads(g: Graph, k: nat, id: string, leaf: Node, order: seq<string>, order': seq<string>, a: seq<string>, b: seq<string>)
    requires Compared(g, k, id, leaf, order, order')
    requires leaf.parentNode in order && leaf.parentNode in order'
    requires StillSpeaks(OutcomeAt(g, order, leaf.parentNode).result)
    requires forall c :: c in a + b ==> c in g.nodes
    ensures var p := leaf.parentNode; var i, i' := IndexOf(order, p), IndexOf(order', p);
            EvalAll(UnfoldKids(Insert(g, k, id, leaf), order', i', a + [id] + b)) ==
            EvalAll(UnfoldKids(g, order, i, a)) + [LeafChild(leaf)] + EvalAll(UnfoldKids(g, order, i, b))
    decreases IndexOf(order, leaf.parentNode), 0, |a + b| + 1
  {
    hide Eval, EvalAll, UnfoldKids, QuietLeaf, LeafChild, Aligned;
    var g', p := Insert(g, k, id, leaf), leaf.parentNode;
    var i, i' := IndexOf(order, p), IndexOf(order', p);
    QuietIsNew(g, id, leaf);
    assert forall c :: c in a ==> c in a + b;
    assert forall c :: c in b ==> c in a + b;
    SamePayloads(g, k, id, leaf, order, order', p, a);
    SamePayloads(g, k, id, leaf, order, order', p, b);
    LeafPayload(g, k, id, leaf, order, order');
    UnfoldKidsConcat(g', order', i', a + [id], b);
    UnfoldKidsConcat(g', order', i', a, [id]);
    EvalAllInsert(UnfoldKids(g', order', i', a), leaf, UnfoldKids(g', order', i', b));
  }

  /** The leaf itself unfolds to a leaf, and its parent sees it. */
  lemma LeafPayload(g: Graph, k: nat, id: string, leaf: Node, order: seq<string>, order': seq<string>)
    requires Compared(g, k, id, leaf, order, order') && leaf.parentNode in order'
    ensures UnfoldKids(Insert(g, k, id, leaf), order', IndexOf(order', leaf.parentNode), [id]) == [Leaf(leaf)]
  {
    hide Children, QuietLeaf;
    var g', i' := Insert(g, k, id, leaf), IndexOf(order', leaf.parentNode);
    InsertedHasNoChildren(g, k, id, leaf);
    assert id in order'[..i'];
    assert [id][..0] == [];
    assert UnfoldKids(g', order', i', []) == [];
  }
}
