/** The laws, read off the result table `aggregate_company_graph` returns. */
module AggregatorReport {
  import opened Basics
  import opened PostOrder
  import opened AggregatorNode
  import opened Rollup
  import opened CompanyTree
  import opened ProxyPass
  import opened CompanyGraph
  import opened AggregatorLaws
  import opened Transparency
  import opened QuietPromotion
  import opened QuietWalk

  /** In every table, at every node, cyclic links included: the horizons add up to the score plus
      the future option terms reached from that node. */
  lemma ReportConserves(g: Graph, order: seq<string>, results: map<string, Result>, n: string)
    requires ValidGraph(g) && Evaluates(g, order, results) && n in g.nodes
    ensures n in order
    ensures var r := results[n];
            r.short + r.medium + r.long == r.score + Future(Unfold(g, order, IndexOf(order, n)))
  {
    PostOrderIs(g);
    assert n in Elements(order);
    HorizonsConserve(Unfold(g, order, IndexOf(order, n)));
  }

  // ---- boundedness ------------------------------------------------------------------

  predicate GraphInRange(g: Graph) { forall n :: n in g.nodes ==> InRange(g.nodes[n]) }

  /** Promotion keeps inputs in range. */
  lemma PromotionInRange(g: Graph)
    requires ValidGraph(g) && GraphInRange(g)
    ensures GraphInRange(PromoteAll(g))
  {
    ProxyProvenance(g);
    forall n | n in PromoteAll(g).nodes ensures InRange(PromoteAll(g).nodes[n]) {
      assert Provenance(g, PromoteAll(g), n);
    }
  }

  lemma {:induction false} UnfoldInRange(g: Graph, order: seq<string>, i: nat)
    requires i < |order| && Elements(order) <= g.nodes.Keys && GraphInRange(g)
    ensures TreeInRange(Unfold(g, order, i))
    decreases i, 1, 0
  {
    assert order[i] in Elements(order);
    UnfoldKidsInRange(g, order, i, Children(g, order[i]));
  }

  lemma {:induction false} UnfoldKidsInRange(g: Graph, order: seq<string>, i: nat, kids: seq<string>)
    requires i < |order| && Elements(order) <= g.nodes.Keys && GraphInRange(g)
    ensures forall k :: 0 <= k < |UnfoldKids(g, order, i, kids)| ==> TreeInRange(UnfoldKids(g, order, i, kids)[k])
    decreases i, 0, |kids|
  {
    if kids != [] {
      UnfoldKidsInRange(g, order, i, kids[..|kids| - 1]);
      if kids[|kids| - 1] in order[..i] {
        UnfoldInRange(g, order, IndexOf(order[..i], kids[|kids| - 1]));
      }
    }
  }

  /** With inputs in range, every reported score is in [-1, 1], every short and medium score in
      [-0.5, 0.5], every long score in [-1.6, 1.6], every confidence, coverage and missing penalty in
      [0, 1]. */
  lemma ReportBounded(list: seq<RawNode>, order: seq<string>, results: map<string, Result>, n: string)
    requires GraphInRange(Load(list)) && Evaluates(Scored(list), order, results) && n in results
    ensures ResultInRange(results[n])
  {
    LoadValid(list);
    PromotionInRange(Load(list));
    PostOrderIs(Scored(list));
    assert n in Elements(order);
    var i := IndexOf(order, n);
    UnfoldInRange(Scored(list), order, i);
    TreeBounded(Unfold(Scored(list), order, i));
  }

  // ---- transparency --------------------------------------------------------------------

  /** Add an N/A or Inactive leaf anywhere in the overlay, under a node that keeps a score-enabled
      active or Unknown child: every other node's report is unchanged, at any height and on cycles of
      parent links too, except that the direct parent counts one more quiet child. (Proxy promotion
      included.) */
  lemma ReportTransparent(g: Graph, k: nat, id: string, leaf: Node,
                          order: seq<string>, results: map<string, Result>,
                          order': seq<string>, results': map<string, Result>, n: string)
    requires ValidGraph(g) && k <= |g.ids| && QuietLeaf(g, id, leaf) && n in g.nodes
    requires ValidGraph(PromoteAll(g)) && Evaluates(PromoteAll(g), order, results)
    requires ValidGraph(Insert(g, k, id, leaf)) && ValidGraph(PromoteAll(Insert(g, k, id, leaf)))
    requires Evaluates(PromoteAll(Insert(g, k, id, leaf)), order', results')
    requires leaf.parentNode in results && StillSpeaks(results[leaf.parentNode])
    ensures n in results && n in results'
    ensures results'[n] == if n == leaf.parentNode
                           then results[n].(counters := Bumped(results[n].counters, LeafChild(leaf)))
                           else results[n]
  {
    hide Unfold, Eval, QuietLeaf, PostOrderOf, Insert, Aligned, PromoteAll;
    var q := PromoteAll(g);
    PromotedCompared(g, k, id, leaf);
    QuietIsNew(q, id, leaf);
    PostOrderIs(q);
    PostOrderIs(Insert(q, k, id, leaf));
    MembersOf(q, order);
    OldMembers(q, k, id, leaf, order');
    QuietLeafIsTransparent(q, k, id, leaf, order, order', n);
    ResultsAre(q, order, results, n);
    ResultsAre(q, order, results, leaf.parentNode);
    ResultsAre(Insert(q, k, id, leaf), order', results', n);
  }

  lemma OldMembers(g: Graph, k: nat, id: string, leaf: Node, order': seq<string>)
    requires k <= |g.ids| && Elements(order') == Insert(g, k, id, leaf).nodes.Keys
    ensures forall n :: n in g.nodes ==> n in order'
  {
    MembersOf(Insert(g, k, id, leaf), order');
  }

  /** Promotion and walk with and without the leaf, side by side. */
  lemma PromotedCompared(g: Graph, k: nat, id: string, leaf: Node)
    requires ValidGraph(g) && k <= |g.ids| && QuietLeaf(g, id, leaf)
    requires ValidGraph(Insert(g, k, id, leaf)) && ValidGraph(PromoteAll(g))
    ensures var q := PromoteAll(g);
            && k <= |q.ids| && QuietLeaf(q, id, leaf) && q.nodes.Keys == g.nodes.Keys
            && PromoteAll(Insert(g, k, id, leaf)) == Insert(q, k, id, leaf) && ValidGraph(Insert(q, k, id, leaf))
            && Compared(q, k, id, leaf, PostOrderOf(q), PostOrderOf(Insert(q, k, id, leaf)))
  {
    hide QuietLeaf, PostOrderOf, Aligned;
    var q := PromoteAll(g);
    PromotionKeepsQuiet(g, |g.ids|, id, leaf);
    PromoteAllInsert(g, k, id, leaf);
    QuietIsNew(q, id, leaf);
    QuietHasId(q, id, leaf);
    InsertValid(q, k, id, leaf);
    PostOrderIs(q);
    PostOrderIs(Insert(q, k, id, leaf));
    WalkIgnoresLeaf(q, k, id, leaf);
  }

  lemma QuietHasId(g: Graph, id: string, leaf: Node)
    requires QuietLeaf(g, id, leaf)
    ensures id != ""
  {
  }

  lemma ResultsAre(g: Graph, order: seq<string>, results: map<string, Result>, n: string)
    requires ValidGraph(g) && Evaluates(g, order, results) && Elements(order) <= g.nodes.Keys && n in order
    ensures n in results && results[n] == OutcomeAt(g, order, n).result
  {
    hide Unfold, Eval;
    assert order[IndexOf(order, n)] == n;
  }
}
