/** The order in which an overlay lists its nodes: the walk follows it and the sums run along
    it, yet on acyclic links it leaves no trace in any result. */
module NodeOrder {
  import opened Basics
  import opened AggregatorNode
  import opened Rollup
  import opened CompanyTree
  import opened ProxyPass
  import opened PostOrder
  import opened CompanyGraph

  // ---- sums over a permuted sequence ----------------------------------------------------

  function Total(cs: seq<Child>, term: Child -> real): real {
    if cs == [] then 0.0 else Total(cs[..|cs| - 1], term) + term(cs[|cs| - 1])
  }

  lemma {:induction false} TotalConcat(a: seq<Child>, b: seq<Child>, term: Child -> real)
    ensures Total(a + b, term) == Total(a, term) + Total(b, term)
  {
    if b == [] {
      assert a + b == a;
    } else {
      assert (a + b)[..|a + b| - 1] == a + b[..|b| - 1];
      TotalConcat(a, b[..|b| - 1], term);
    }
  }

  lemma TotalInsert(a: seq<Child>, x: Child, b: seq<Child>, term: Child -> real)
    ensures Total(a + [x] + b, term) == Total(a + b, term) + term(x)
  {
    TotalConcat(a + [x], b, term);
    assert (a + [x])[..|a|] == a;
    TotalConcat(a, b, term);
  }

  /** Taking an element out of a sequence. */
  lemma Split<T>(s: seq<T>, x: T) returns (a: seq<T>, b: seq<T>)
    requires x in s
    ensures s == a + [x] + b && multiset(s) == multiset(a + b) + multiset{x}
  {
    var i :| 0 <= i < |s| && s[i] == x;
    a, b := s[..i], s[i + 1..];
    assert s == a + [x] + b;
  }

  lemma LastOff<T>(s: seq<T>)
    requires s != []
    ensures multiset(s) == multiset(s[..|s| - 1]) + multiset{s[|s| - 1]} && s[|s| - 1] in s
  {
    assert s == s[..|s| - 1] + [s[|s| - 1]];
  }

  lemma Cancel<T>(a: multiset<T>, b: multiset<T>, x: T)
    requires a + multiset{x} == b + multiset{x}
    ensures a == b
  {
    forall y ensures a[y] == b[y] {
      assert (a + multiset{x})[y] == (b + multiset{x})[y];
    }
  }

  lemma SameLast<T>(s: seq<T>, t: seq<T>)
    requires multiset(s) == multiset(t) && s != []
    ensures s[|s| - 1] in t
  {
    assert s[|s| - 1] in multiset(s);
  }

  lemma {:induction false} TotalPermuted(cs: seq<Child>, ds: seq<Child>, term: Child -> real)
    requires multiset(cs) == multiset(ds)
    ensures Total(cs, term) == Total(ds, term)
    decreases |cs|
  {
    if cs == [] {
      assert |multiset(ds)| == 0;
    } else {
      SameLast(cs, ds);
      LastOff(cs);
      var a, b := Split(ds, cs[|cs| - 1]);
      Cancel(multiset(cs[..|cs| - 1]), multiset(a + b), cs[|cs| - 1]);
      TotalPermuted(cs[..|cs| - 1], a + b, term);
      TotalInsert(a, cs[|cs| - 1], b, term);
    }
  }

  lemma {:induction false} SumIsTotal(cs: seq<Child>, m: Measure)
    ensures Sum(cs, m) == Total(cs, (c: Child) => Measured(c, m))
  {
    hide Measured;
    if cs != [] {
      SumIsTotal(cs[..|cs| - 1], m);
    }
  }

  function Term(c: Child, total: real, h: Horizon): real
    requires total != 0.0
  {
    ScoreAt(c, h) * (c.weight / total) * c.confidence
  }

  lemma {:induction false} ShareIsTotal(cs: seq<Child>, total: real, h: Horizon)
    requires total != 0.0
    ensures Share(cs, total, h) == Total(cs, (c: Child) => Term(c, total, h))
  {
    if cs != [] {
      ShareIsTotal(cs[..|cs| - 1], total, h);
    }
  }

  lemma {:induction false} CountIsTotal(cs: seq<Child>, k: Kind)
    ensures CountOf(cs, k) as real == Total(cs, (c: Child) => if IsKind(c, k) then 1.0 else 0.0)
  {
    hide IsKind;
    if cs != [] {
      CountIsTotal(cs[..|cs| - 1], k);
    }
  }

  /** Each child is in the pool as often as it is among the children, unless it drops out. */
  lemma {:induction false} ApplicableOccurrences(cs: seq<Child>, c: Child)
    ensures multiset(Applicable(cs))[c] == if DropsOut(c) then 0 else multiset(cs)[c]
  {
    hide DropsOut;
    if cs != [] {
      ApplicableOccurrences(cs[..|cs| - 1], c);
      LastOff(cs);
    }
  }

  lemma ApplicablePermuted(cs: seq<Child>, ds: seq<Child>)
    requires multiset(cs) == multiset(ds)
    ensures multiset(Applicable(cs)) == multiset(Applicable(ds))
  {
    hide Applicable, DropsOut;
    forall c ensures multiset(Applicable(cs))[c] == multiset(Applicable(ds))[c] {
      ApplicableOccurrences(cs, c);
      ApplicableOccurrences(ds, c);
    }
  }

  lemma SumPermuted(cs: seq<Child>, ds: seq<Child>, m: Measure)
    requires multiset(cs) == multiset(ds)
    ensures Sum(cs, m) == Sum(ds, m)
  {
    SumIsTotal(cs, m);
    SumIsTotal(ds, m);
    TotalPermuted(cs, ds, (c: Child) => Measured(c, m));
  }

  lemma CountPermuted(cs: seq<Child>, ds: seq<Child>)
    requires multiset(cs) == multiset(ds)
    ensures Count(cs) == Count(ds)
  {
    hide CountOf, IsKind;
    forall k: Kind ensures CountOf(cs, k) == CountOf(ds, k) {
      CountIsTotal(cs, k);
      CountIsTotal(ds, k);
      TotalPermuted(cs, ds, (c: Child) => if IsKind(c, k) then 1.0 else 0.0);
    }
  }

  lemma ScorePermuted(cs: seq<Child>, ds: seq<Child>, h: Horizon)
    requires multiset(cs) == multiset(ds)
    ensures ParentScore(cs, h) == ParentScore(ds, h)
  {
    hide Applicable, Sum, Share, Term;
    var a, b := Applicable(cs), Applicable(ds);
    ApplicablePermuted(cs, ds);
    SumPermuted(a, b, ByWeight);
    SameEmpty(a, b);
    var total := Sum(a, ByWeight);
    if !(total <= 0.0 || a == []) {
      ShareIsTotal(a, total, h);
      ShareIsTotal(b, total, h);
      TotalPermuted(a, b, (c: Child) => Term(c, total, h));
    }
  }

  lemma SameEmpty<T>(a: seq<T>, b: seq<T>)
    requires multiset(a) == multiset(b)
    ensures |a| == |b|
  {
    assert |multiset(a)| == |a| && |multiset(b)| == |b|;
  }

  /** A parent's result does not depend on the order of its children. */
  lemma AggregatePermuted(parent: Node, cs: seq<Child>, ds: seq<Child>)
    requires multiset(cs) == multiset(ds)
    ensures Aggregated(parent, cs) == Aggregated(parent, ds)
  {
    hide Applicable, Sum, ParentScore, Count;
    var a, b := Applicable(cs), Applicable(ds);
    ApplicablePermuted(cs, ds);
    SameEmpty(a, b);
    SumPermuted(a, b, ByWeight);
    SumPermuted(a, b, ByUsable);
    SumPermuted(a, b, ByPenalty);
    SumPermuted(a, b, ByBaseConfidence);
    ScorePermuted(cs, ds, Overall);
    ScorePermuted(cs, ds, Short);
    ScorePermuted(cs, ds, Medium);
    ScorePermuted(cs, ds, Long);
    CountPermuted(cs, ds);
  }

  // ---- trees over relisted nodes --------------------------------------------------------------

  /** The same nodes under the same ids, listed in some other order. */
  ghost predicate Relisted(g: Graph, g': Graph) { ValidGraph(g) && ValidGraph(g') && g.nodes == g'.nodes }

  lemma {:induction false} DistinctOccurs(s: seq<string>, x: string)
    requires Distinct(s)
    ensures multiset(s)[x] == if x in s then 1 else 0
  {
    if s != [] {
      var front := s[..|s| - 1];
      DistinctOccurs(front, x);
      LastOff(s);
      assert s == front + [s[|s| - 1]];
    }
  }

  lemma {:induction false} ChildrenOccur(g: Graph, ids: seq<string>, p: string, c: string)
    ensures multiset(ChildrenAmong(g, ids, p))[c] == if IsLink(g, p, c) then multiset(ids)[c] else 0
  {
    hide IsLink;
    if ids != [] {
      ChildrenOccur(g, ids[..|ids| - 1], p, c);
      LastOff(ids);
    }
  }

  lemma ChildrenRelisted(g: Graph, g': Graph, p: string)
    requires Relisted(g, g')
    ensures multiset(Children(g, p)) == multiset(Children(g', p))
  {
    hide ChildrenAmong;
    IdsAreNodes(g);
    IdsAreNodes(g');
    forall c ensures multiset(Children(g, p))[c] == multiset(Children(g', p))[c] {
      ChildrenOccur(g, g.ids, p, c);
      ChildrenOccur(g', g'.ids, p, c);
      DistinctOccurs(g.ids, c);
      DistinctOccurs(g'.ids, c);
    }
  }

  function Without<T>(s: seq<T>, j: nat): seq<T>
    requires j < |s|
  {
    s[..j] + s[j + 1..]
  }

  lemma TakenOut<T>(s: seq<T>, j: nat)
    requires j < |s|
    ensures multiset(s) == multiset(Without(s, j)) + multiset{s[j]}
    ensures |Without(s, j)| == |s| - 1
    ensures forall i :: 0 <= i < |s| - 1 ==> Without(s, j)[i] == s[if i < j then i else i + 1]
  {
    assert s == s[..j] + [s[j]] + s[j + 1..];
  }

  /** Values attached to the elements of two permuted sequences are permuted too. */
  lemma {:induction false} AttachedPermuted(ns: seq<string>, ms: seq<string>, cs: seq<Child>, ds: seq<Child>)
    requires multiset(ns) == multiset(ms) && |cs| == |ns| && |ds| == |ms|
    requires forall i, j :: 0 <= i < |ns| && 0 <= j < |ms| && ns[i] == ms[j] ==> cs[i] == ds[j]
    ensures multiset(cs) == multiset(ds)
    decreases |ns|
  {
    SameEmpty(ns, ms);
    if ns != [] {
      var k := |ns| - 1;
      SameLast(ns, ms);
      LastOff(ns);
      LastOff(cs);
      var j :| 0 <= j < |ms| && ms[j] == ns[k];
      TakenOut(ms, j);
      TakenOut(ds, j);
      Cancel(multiset(ns[..k]), multiset(Without(ms, j)), ns[k]);
      hide Without;
      AttachedPermuted(ns[..k], Without(ms, j), cs[..k], Without(ds, j));
    }
  }

  /** A node's subtree scores the same, in whatever order its nodes are listed. */
  lemma {:induction false} EvalRelisted(g: Graph, g': Graph, n: string, t: Tree, t': Tree)
    requires Relisted(g, g') && IsSubtree(g, n, t) && IsSubtree(g', n, t')
    ensures Eval(t) == Eval(t')
    decreases t
  {
    hide Eval, Aggregated, ParentChild, Children;
    EvalParts(t);
    EvalParts(t');
    ChildrenRelisted(g, g', n);
    var ns, ms := Children(g, n), Children(g', n);
    SameEmpty(ns, ms);
    if t.Parent? {
      forall i, j | 0 <= i < |ns| && 0 <= j < |ms| && ns[i] == ms[j] ensures EvalAll(t.kids)[i] == EvalAll(t'.kids)[j] {
        EvalRelisted(g, g', ns[i], t.kids[i], t'.kids[j]);
      }
      AttachedPermuted(ns, ms, EvalAll(t.kids), EvalAll(t'.kids));
      AggregatePermuted(t.node, EvalAll(t.kids), EvalAll(t'.kids));
    }
  }

  lemma {:induction false} SameAncestors(g: Graph, g': Graph, n: string, k: nat)
    requires g.nodes == g'.nodes
    ensures Ancestor(g, n, k) == Ancestor(g', n, k)
    decreases k
  {
    if k > 0 && ParentOf(g, n).Some? {
      SameAncestors(g, g', ParentOf(g, n).value, k - 1);
    }
  }

  lemma AcyclicRelisted(g: Graph, g': Graph)
    requires Relisted(g, g') && Acyclic(g)
    ensures Acyclic(g')
  {
    forall n, k: nat | n in g'.nodes && k > 0 ensures Ancestor(g', n, k) != Some(n) {
      SameAncestors(g, g', n, k);
    }
  }

  /** On acyclic links the result table does not depend on the order of the nodes. */
  lemma NodeOrderIsInvisible(g: Graph, g': Graph, order: seq<string>, results: map<string, Result>,
                             order': seq<string>, results': map<string, Result>)
    requires Relisted(g, g') && Acyclic(g) && Evaluates(g, order, results) && Evaluates(g', order', results')
    ensures results == results'
  {
    hide Eval, Acyclic, PostOrderOf;
    AcyclicRelisted(g, g');
    forall n | n in g.nodes ensures n in results && n in results' && results[n] == results'[n] {
      var t := AcyclicRefinement(g, order, results, n);
      var t' := AcyclicRefinement(g', order', results', n);
      EvalRelisted(g, g', n, t, t');
    }
  }

  // ---- the same for the overlay's list --------------------------------------------------------

  /** No node waits for a value that another could lend it. */
  ghost predicate NothingPending(g: Graph) {
    forall id, d :: Serves(g, id, d) && Donor(g.nodes[d]) ==> g.nodes[id].status != Unavailable
  }

  lemma IdleTurn(g: Graph, id: string)
    requires ValidGraph(g) && NothingPending(g) && id in g.nodes
    ensures PromoteNode(g, id) == g
  {
    hide FirstProxy, Donor, Distinct;
    FirstProxyIs(g, g.nodes[id].proxyCandidates, id);
    assert Found(g, id).Some? ==> Serves(g, id, Found(g, id).value);
  }

  lemma {:induction false} NothingPromoted(g: Graph, k: nat)
    requires ValidGraph(g) && NothingPending(g) && k <= |g.ids|
    ensures PromoteFirst(g, k) == g
  {
    hide PromoteNode;
    if k > 0 {
      NothingPromoted(g, k - 1);
      assert g.ids[k - 1] in Elements(g.ids);
      IdleTurn(g, g.ids[k - 1]);
    }
  }

  /** Named nodes have distinct ids. */
  predicate DistinctNodeIds(list: seq<RawNode>) {
    forall i, j :: 0 <= i < j < |list| && list[i].nodeId != "" ==> list[i].nodeId != list[j].nodeId
  }

  lemma LoadedNodes(list: seq<RawNode>)
    requires DistinctNodeIds(list)
    ensures forall id :: id in Load(list).nodes <==> id != "" && exists n :: n in list && n.nodeId == id
    ensures forall n :: n in list && n.nodeId != "" ==> n.nodeId in Load(list).nodes && Load(list).nodes[n.nodeId] == ReadNode(n)
  {
    hide ReadNode, Load;
    LoadedIds(list);
    forall n | n in list && n.nodeId != ""
      ensures n.nodeId in Load(list).nodes && Load(list).nodes[n.nodeId] == ReadNode(n)
    {
      var i :| 0 <= i < |list| && list[i] == n;
      LoadedNode(list, i);
    }
  }

  lemma LoadRelisted(list: seq<RawNode>, list': seq<RawNode>)
    requires DistinctNodeIds(list) && DistinctNodeIds(list') && multiset(list) == multiset(list')
    ensures Relisted(Load(list), Load(list'))
  {
    hide Load, ReadNode;
    LoadValid(list);
    LoadValid(list');
    LoadedNodes(list);
    LoadedNodes(list');
    forall n ensures n in list <==> n in list' {
      assert n in list <==> n in multiset(list);
      assert n in list' <==> n in multiset(list');
    }
  }

  /** On acyclic links with distinct ids, and nothing to promote, listing the overlay's nodes in another
      order changes no result. */
  lemma ListOrderIsInvisible(list: seq<RawNode>, list': seq<RawNode>, order: seq<string>, results: map<string, Result>,
                             order': seq<string>, results': map<string, Result>)
    requires DistinctNodeIds(list) && DistinctNodeIds(list') && multiset(list) == multiset(list')
    requires Acyclic(Load(list)) && NothingPending(Load(list))
    requires Evaluates(Scored(list), order, results) && Evaluates(Scored(list'), order', results')
    ensures results == results'
  {
    hide Acyclic, Evaluates, PromoteFirst, Load;
    LoadRelisted(list, list');
    NothingPromoted(Load(list), |Load(list).ids|);
    NothingPromoted(Load(list'), |Load(list').ids|);
    NodeOrderIsInvisible(Load(list), Load(list'), order, results, order', results');
  }
}
