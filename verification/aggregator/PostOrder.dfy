/** The recursive walk that turns parent links, cyclic or not, into an
    evaluation order. */
module PostOrder {
  import opened Basics
  import opened CompanyTree

  /** Every child of `n` is among `before`, unless its link closes a cycle. */
  ghost predicate KidsDone(g: Graph, before: seq<string>, n: string) {
    forall c :: c in Children(g, n) && !Below(g, n, c) ==> c in before
  }

  /** In `order`, a child comes before its parent unless the link closes a cycle. */
  ghost predicate ChildFirst(g: Graph, order: seq<string>) {
    forall i :: 0 <= i < |order| ==> KidsDone(g, order[..i], order[i])
  }

  /** The nodes whose visit has begun but not ended. */
  ghost function Open(visited: set<string>, order: seq<string>): set<string> {
    visited - Elements(order)
  }

  lemma KidsBelow(g: Graph, n: string, open: set<string>)
    requires ValidGraph(g) && forall x :: x in open ==> Below(g, n, x)
    ensures forall c :: c in Children(g, n) ==> c in g.nodes && forall x :: x in open ==> Below(g, c, x)
  {
    ChildrenAre(g, n);
    forall c, x | c in Children(g, n) && x in open ensures Below(g, c, x) {
      ChildIsBelow(g, c, n, x);
    }
  }

  /** Appending a node whose children have all been visited closes exactly that node. */
  lemma CloseNode(g: Graph, open0: set<string>, visited: set<string>, order: seq<string>, n: string)
    requires ValidGraph(g) && ChildFirst(g, order) && Distinct(order)
    requires n in visited && n !in open0 && Elements(order) <= visited
    requires Open(visited, order) == open0 + {n}
    requires forall x :: x in open0 ==> Below(g, n, x)
    requires forall c :: c in Children(g, n) ==> c in visited
    ensures ChildFirst(g, order + [n]) && Distinct(order + [n])
    ensures Elements(order + [n]) == Elements(order) + {n} && Open(visited, order + [n]) == open0
  {
    var longer := order + [n];
    assert Elements(longer) == Elements(order) + {n};
    assert Ancestor(g, n, 0) == Some(n);
    forall c | c in Children(g, n) && !Below(g, n, c) ensures c in order {
      assert c !in Open(visited, order);
    }
    forall i | 0 <= i < |longer| ensures KidsDone(g, longer[..i], longer[i]) {
      assert longer[..i] == order[..i];
    }
  }

  // ---- the walk as a function -----------------------------------------------------------

  /** The two variables of the walk. */
  datatype Walk = Walk(visited: set<string>, order: seq<string>)

  const START := Walk({}, [])

  /** What `_post_order(n)` makes of the walk so far. */
  ghost function VisitNode(g: Graph, n: string, w: Walk): (r: Walk)
    requires ValidGraph(g) && n in g.nodes && w.visited <= g.nodes.Keys
    ensures w.visited + {n} <= r.visited <= g.nodes.Keys && w.order <= r.order
    decreases g.nodes.Keys - w.visited, 0, 0
  {
    if n in w.visited then w
    else
      ChildrenAre(g, n);
      var inner := VisitAll(g, Children(g, n), Walk(w.visited + {n}, w.order));
      Walk(inner.visited, inner.order + [n])
  }

  /** The nodes of `todo` visited one after the other. */
  ghost function VisitAll(g: Graph, todo: seq<string>, w: Walk): (r: Walk)
    requires ValidGraph(g) && w.visited <= g.nodes.Keys
    requires forall n :: n in todo ==> n in g.nodes
    ensures w.visited <= r.visited <= g.nodes.Keys && w.order <= r.order
    ensures forall n :: n in todo ==> n in r.visited
    decreases g.nodes.Keys - w.visited, 1, |todo|
  {
    if todo == [] then w
    else
      var front, last := todo[..|todo| - 1], todo[|todo| - 1];
      assert todo == front + [last];
      VisitNode(g, last, VisitAll(g, front, w))
  }

  lemma VisitNone(g: Graph, w: Walk)
    requires ValidGraph(g) && w.visited <= g.nodes.Keys
    ensures VisitAll(g, [], w) == w
  {
  }

  lemma VisitLast(g: Graph, front: seq<string>, last: string, w: Walk)
    requires ValidGraph(g) && w.visited <= g.nodes.Keys && last in g.nodes
    requires forall n :: n in front ==> n in g.nodes
    ensures VisitAll(g, front + [last], w) == VisitNode(g, last, VisitAll(g, front, w))
  {
    assert (front + [last])[..|front|] == front;
  }

  /** The evaluation order of `g`: one walk from every node, in insertion order. */
  ghost function PostOrderOf(g: Graph): seq<string>
    requires ValidGraph(g)
  {
    IdsAreNodes(g);
    VisitAll(g, g.ids, START).order
  }

  lemma IdsAreNodes(g: Graph)
    requires ValidGraph(g)
    ensures forall n :: n in g.ids <==> n in g.nodes
  {
    assert forall n :: n in g.ids <==> n in Elements(g.ids);
  }

  lemma VisitAllStep(g: Graph, todo: seq<string>, i: nat, w: Walk)
    requires ValidGraph(g) && w.visited <= g.nodes.Keys && i < |todo|
    requires forall n :: n in todo ==> n in g.nodes
    ensures VisitAll(g, todo[..i + 1], w) == VisitNode(g, todo[i], VisitAll(g, todo[..i], w))
  {
    assert todo[..i + 1][..i] == todo[..i];
  }

  lemma VisitAllEnds(g: Graph, todo: seq<string>, w: Walk)
    requires ValidGraph(g) && w.visited <= g.nodes.Keys
    requires forall n :: n in todo ==> n in g.nodes
    ensures VisitAll(g, todo[..0], w) == w && todo[..|todo|] == todo
  {
  }

  // ---- what the walk keeps --------------------------------------------------------------

  ghost predicate Sound(g: Graph, w: Walk) {
    && ValidGraph(g)
    && Elements(w.order) <= w.visited <= g.nodes.Keys
    && Distinct(w.order)
    && ChildFirst(g, w.order)
  }

  /** Every open node is `n` or above it. */
  ghost predicate OpenAbove(g: Graph, w: Walk, n: string) {
    forall x :: x in Open(w.visited, w.order) ==> Below(g, n, x)
  }

  /** Visits to nodes below all open ones close what they open, and keep the order sound. */
  lemma {:induction false} WalkKeeps(g: Graph, todo: seq<string>, w: Walk)
    requires Sound(g, w) && forall n :: n in todo ==> n in g.nodes && OpenAbove(g, w, n)
    ensures var r := VisitAll(g, todo, w); Sound(g, r) && Open(r.visited, r.order) == Open(w.visited, w.order)
    decreases g.nodes.Keys - w.visited, |todo|
  {
    hide Sound, OpenAbove, Open, VisitAll;
    SoundIs(g, w);
    if todo == [] {
      VisitNone(g, w);
    } else {
      var front, n := todo[..|todo| - 1], todo[|todo| - 1];
      assert todo == front + [n];
      WalkKeeps(g, front, w);
      VisitLast(g, front, n, w);
      var mid := VisitAll(g, front, w);
      SoundIs(g, mid);
      SameAbove(g, w, mid, n);
      if n !in mid.visited {
        BeginVisit(g, n, mid);
        WalkKeeps(g, Children(g, n), Walk(mid.visited + {n}, mid.order));
        EndVisit(g, n, mid);
      }
    }
  }

  lemma SameAbove(g: Graph, w: Walk, v: Walk, n: string)
    requires Open(w.visited, w.order) == Open(v.visited, v.order)
    ensures OpenAbove(g, w, n) == OpenAbove(g, v, n)
  {
  }

  /** Opening `n`: its children lie below every open node. */
  lemma BeginVisit(g: Graph, n: string, w: Walk)
    requires Sound(g, w) && n in g.nodes && n !in w.visited && OpenAbove(g, w, n)
    ensures var begun := Walk(w.visited + {n}, w.order);
            && Sound(g, begun) && Open(begun.visited, begun.order) == Open(w.visited, w.order) + {n}
            && g.nodes.Keys - begun.visited < g.nodes.Keys - w.visited
            && forall c :: c in Children(g, n) ==> c in g.nodes && OpenAbove(g, begun, c)
  {
    hide ChildFirst;
    var begun := Walk(w.visited + {n}, w.order);
    assert Open(begun.visited, begun.order) == Open(w.visited, w.order) + {n};
    assert Ancestor(g, n, 0) == Some(n);
    KidsBelow(g, n, Open(begun.visited, begun.order));
    assert n in g.nodes.Keys - w.visited;
  }

  /** Appending `n` once its children are done. */
  lemma EndVisit(g: Graph, n: string, w: Walk)
    requires ValidGraph(g) && w.visited <= g.nodes.Keys && n in g.nodes && n !in w.visited
    requires Elements(w.order) <= w.visited && OpenAbove(g, w, n)
    requires forall c :: c in Children(g, n) ==> c in g.nodes
    requires var begun := Walk(w.visited + {n}, w.order); var inner := VisitAll(g, Children(g, n), begun);
             Sound(g, inner) && Open(inner.visited, inner.order) == Open(begun.visited, begun.order)
    ensures var r := VisitNode(g, n, w); Sound(g, r) && Open(r.visited, r.order) == Open(w.visited, w.order)
  {
    hide ChildFirst, Below;
    var begun := Walk(w.visited + {n}, w.order);
    var inner := VisitAll(g, Children(g, n), begun);
    assert Open(begun.visited, begun.order) == Open(w.visited, w.order) + {n};
    CloseNode(g, Open(w.visited, w.order), inner.visited, inner.order, n);
  }

  lemma SoundIs(g: Graph, w: Walk)
    requires Sound(g, w)
    ensures ValidGraph(g) && Elements(w.order) <= w.visited <= g.nodes.Keys
  {
  }

  /** The evaluation order is a permutation of the ids, children first. */
  lemma PostOrderIs(g: Graph)
    requires ValidGraph(g)
    ensures var order := PostOrderOf(g);
            Distinct(order) && Elements(order) == g.nodes.Keys && |order| == |g.ids| && ChildFirst(g, order)
  {
    IdsAreNodes(g);
    assert Open({}, []) == {};
    WalkKeeps(g, g.ids, START);
    var r := VisitAll(g, g.ids, START);
    forall n | n in g.nodes ensures n in Elements(r.order) {
      assert n in r.visited && n !in Open(r.visited, r.order);
    }
    SameLength(r.order, g.ids);
  }

  // ---- the walk as it runs ----------------------------------------------------------------

  class PostOrderWalk {
    const g: Graph
    var visited: set<string>
    var order: seq<string>

    function State(): Walk
      reads this
    {
      Walk(visited, order)
    }

    constructor (graph: Graph)
      ensures g == graph && State() == START
    {
      g := graph;
      visited := {};
      order := [];
    }

    /** `_post_order(nid)`. */
    method Visit(nid: string)
      requires ValidGraph(g) && visited <= g.nodes.Keys && nid in g.nodes
      modifies this
      ensures State() == VisitNode(g, nid, old(State()))
      decreases g.nodes.Keys - visited, 0
    {
      if nid in visited {
        return;
      }
      visited := visited + {nid};
      ChildrenAre(g, nid);
      VisitChildren(nid);
      order := order + [nid];
    }

    /** The loop over `children_by_parent[nid]`. */
    method VisitChildren(nid: string)
      requires ValidGraph(g) && visited <= g.nodes.Keys && nid in g.nodes
      requires forall n :: n in Children(g, nid) ==> n in g.nodes
      modifies this
      ensures State() == VisitAll(g, Children(g, nid), old(State()))
      decreases g.nodes.Keys - visited, 1
    {
      hide VisitAll, VisitNode;
      var kids := Children(g, nid);
      VisitAllEnds(g, kids, State());
      for i := 0 to |kids|
        invariant visited <= g.nodes.Keys && old(visited) <= visited
        invariant forall n :: n in kids ==> n in g.nodes
        invariant State() == VisitAll(g, kids[..i], old(State()))
      {
        assert kids[i] in kids;
        VisitAllStep(g, kids, i, old(State()));
        Visit(kids[i]);
      }
    }
  }

  /** Walk from every node. */
  method EvaluationOrder(g: Graph) returns (order: seq<string>)
    requires ValidGraph(g)
    ensures order == PostOrderOf(g)
    ensures Distinct(order) && Elements(order) == g.nodes.Keys && |order| == |g.ids| && ChildFirst(g, order)
  {
    hide VisitAll, VisitNode;
    var walk := new PostOrderWalk(g);
    IdsAreNodes(g);
    VisitAllEnds(g, g.ids, START);
    for i := 0 to |g.ids|
      invariant walk.g == g && fresh(walk) && walk.visited <= g.nodes.Keys
      invariant walk.State() == VisitAll(g, g.ids[..i], START)
    {
      assert g.ids[i] in g.ids;
      VisitAllStep(g, g.ids, i, START);
      walk.Visit(g.ids[i]);
    }
    order := walk.order;
    PostOrderIs(g);
  }

  lemma SameLength<T>(s: seq<T>, t: seq<T>)
    requires Distinct(s) && Distinct(t) && Elements(s) == Elements(t)
    ensures |s| == |t|
  {
    DistinctSize(s);
    DistinctSize(t);
  }

  lemma AcyclicLink(g: Graph, p: string, c: string)
    requires ValidGraph(g) && Acyclic(g) && c in Children(g, p)
    ensures !Below(g, p, c)
  {
    ChildrenAre(g, p);
    forall k: nat ensures Ancestor(g, p, k) != Some(c) {
      assert Ancestor(g, p, k) == Ancestor(g, c, k + 1);
    }
  }

  /** Without cycles every child precedes its parent. */
  lemma AcyclicChildrenPrecede(g: Graph, order: seq<string>, i: nat, c: string)
    requires ValidGraph(g) && Acyclic(g) && ChildFirst(g, order)
    requires i < |order| && c in Children(g, order[i])
    ensures c in order[..i]
  {
    AcyclicLink(g, order[i], c);
    assert KidsDone(g, order[..i], order[i]);
  }
}
