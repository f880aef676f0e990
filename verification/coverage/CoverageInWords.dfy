/** The coverage report, told from the list of nodes. */
module CoverageInWords {
  import opened Basics
  import opened MissingStates
  import opened CoverageReport

  // ---- who is reported -------------------------------------------------------------------

  /** A node without an id goes by `None`. */
  predicate Called(n: Child, p: string) { n.nodeId == Some(p) || (n.nodeId.None? && p == "None") }

  /** `c` names `p` as its parent, or a node called `p` lists the non-empty id of `c`. */
  predicate ChildOf(nodes: seq<Child>, p: string, c: Child) {
    && c in nodes
    && (c.parent == Some(p)
        || exists i :: 0 <= i < |nodes| && Called(nodes[i], p) && c.nodeId.Some? && c.nodeId.value != "" && c.nodeId.value in nodes[i].childIds)
  }

  lemma CalledIs(n: Child, p: string)
    ensures Called(n, p) <==> IdText(n) == p
  {
  }

  lemma ChildIs(nodes: seq<Child>, p: string, c: Child)
    ensures ChildOf(nodes, p, c) <==> IsChild(nodes, nodes, p, c)
  {
    hide IdText, Called;
    forall i | 0 <= i < |nodes| ensures Called(nodes[i], p) <==> IdText(nodes[i]) == p {
      CalledIs(nodes[i], p);
    }
  }

  lemma {:induction false} FirstSeenKeeps(s: seq<string>)
    ensures Distinct(FirstSeen(s)) && forall p :: p in FirstSeen(s) <==> p in s
  {
    if s != [] {
      var front := s[..|s| - 1];
      assert s == front + [s[|s| - 1]];
      FirstSeenKeeps(front);
      if s[|s| - 1] !in front {
        AppendFresh(FirstSeen(front), s[|s| - 1]);
      }
    }
  }

  lemma {:induction false} Mentioned(nodes: seq<Child>, i: nat)
    requires i < |nodes|
    ensures nodes[i].parent.Some? ==> nodes[i].parent.value in ParentMentions(nodes)
    ensures nodes[i].childIds != [] ==> IdText(nodes[i]) in ListMentions(nodes)
  {
    if i < |nodes| - 1 {
      assert nodes[..|nodes| - 1][i] == nodes[i];
      Mentioned(nodes[..|nodes| - 1], i);
    }
  }

  lemma ParentInOrder(nodes: seq<Child>, p: string, c: Child)
    requires IsChild(nodes, nodes, p, c)
    ensures p in Order(nodes)
  {
    hide FirstSeen, ParentMentions, ListMentions;
    FirstSeenKeeps(ParentMentions(nodes) + ListMentions(nodes));
    if c.parent == Some(p) {
      var i :| 0 <= i < |nodes| && nodes[i] == c;
      Mentioned(nodes, i);
    } else {
      var i :| 0 <= i < |nodes| && IdText(nodes[i]) == p && c.nodeId.value in nodes[i].childIds;
      Mentioned(nodes, i);
    }
  }

  lemma {:induction false} SummariesAre(nodes: seq<Child>, order: seq<string>, p: string)
    ensures p in order && Kids(nodes, p) != [] ==> ParentSummary(nodes, p) in Summaries(nodes, order)
    ensures forall s :: s in Summaries(nodes, order) ==> exists q :: q in order && Kids(nodes, q) != [] && s == ParentSummary(nodes, q)
    ensures |Summaries(nodes, order)| <= |order|
  {
    hide Kids, ParentSummary;
    if order != [] {
      var front, last := order[..|order| - 1], order[|order| - 1];
      assert order == front + [last];
      SummariesAre(nodes, front, p);
    }
  }

  /** The last node with that id. */
  predicate LastCalled(nodes: seq<Child>, p: string, i: int) {
    0 <= i < |nodes| && p != "" && nodes[i].nodeId == Some(p) && forall j :: i < j < |nodes| ==> nodes[j].nodeId != Some(p)
  }

  lemma {:induction false} ByIdInWords(nodes: seq<Child>, p: string)
    ensures forall i :: LastCalled(nodes, p, i) ==> ById(nodes, p) == Some(nodes[i])
    ensures ById(nodes, p).Some? ==> exists i :: LastCalled(nodes, p, i)
  {
    if nodes != [] && p != "" {
      var n := |nodes| - 1;
      ByIdInWords(nodes[..n], p);
      if nodes[n].nodeId == Some(p) {
        assert LastCalled(nodes, p, n);
      } else {
        forall i ensures LastCalled(nodes, p, i) <==> LastCalled(nodes[..n], p, i) {
          SameLast(nodes, p, i);
        }
      }
    }
  }

  lemma SameLast(nodes: seq<Child>, p: string, i: int)
    requires nodes != [] && nodes[|nodes| - 1].nodeId != Some(p)
    ensures LastCalled(nodes, p, i) <==> LastCalled(nodes[..|nodes| - 1], p, i)
  {
    var n := |nodes| - 1;
    assert forall j :: 0 <= j < n ==> nodes[..n][j] == nodes[j];
  }

  /** `s` tells the truth about `p`: its ids, and per state the number of its children in that state. */
  ghost predicate Tells(nodes: seq<Child>, p: string, s: Summary) {
    && (forall i :: LastCalled(nodes, p, i) ==> s.nodeId == nodes[i].nodeId && s.dpId == nodes[i].dpId)
    && ((forall i :: !LastCalled(nodes, p, i)) ==> s.nodeId == Some(p) && s.dpId == None)
    && (forall t :: s.counts.Of(t) == |set c | c in nodes && ChildOf(nodes, p, c) && Classify(c) == t|)
    && s.nChildren == |set c | c in nodes && ChildOf(nodes, p, c)|
  }

  lemma {:induction false} InStateAre(cs: seq<Child>, t: State)
    requires Distinct(cs)
    ensures Distinct(InState(cs, t)) && forall c :: c in InState(cs, t) <==> c in cs && Classify(c) == t
  {
    hide Classify;
    if cs != [] {
      var front, last := cs[..|cs| - 1], cs[|cs| - 1];
      assert cs == front + [last];
      assert last !in front;
      DistinctFront(cs);
      InStateAre(front, t);
      assert InState(front, t) + [] == InState(front, t);
      AppendNew(InState(front, t), last);
    }
  }

  lemma DistinctFront(cs: seq<Child>)
    requires cs != [] && Distinct(cs)
    ensures Distinct(cs[..|cs| - 1]) && cs[|cs| - 1] !in cs[..|cs| - 1]
  {
  }

  lemma AppendNew(cs: seq<Child>, c: Child)
    requires Distinct(cs)
    ensures c !in cs ==> Distinct(cs + [c])
  {
  }

  lemma StateCounted(nodes: seq<Child>, p: string, t: State)
    requires DistinctNodes(nodes)
    ensures CountStates(Kids(nodes, p)).Of(t) == |set c | c in nodes && ChildOf(nodes, p, c) && Classify(c) == t|
  {
    hide Kids, Classify, InState, CountStates, ChildOf, IsChild, Counts.Of;
    var kids := Kids(nodes, p);
    EachChildOnce(nodes, p);
    ChildInList(nodes, p);
    BucketsPartition(kids, t);
    InStateAre(kids, t);
    forall c { ChildIs(nodes, p, c); }
    SizeOf(InState(kids, t), set c | c in nodes && ChildOf(nodes, p, c) && Classify(c) == t);
  }

  lemma SizeOf<T>(s: seq<T>, whole: set<T>)
    requires Distinct(s) && forall x :: x in whole <==> x in s
    ensures |s| == |whole|
  {
    DistinctSize(s);
    assert whole == Elements(s);
  }

  lemma KidsCounted(nodes: seq<Child>, p: string)
    requires DistinctNodes(nodes)
    ensures |Kids(nodes, p)| == |set c | c in nodes && ChildOf(nodes, p, c)|
    ensures forall c :: c in Kids(nodes, p) <==> ChildOf(nodes, p, c)
  {
    hide Kids, ChildOf, IsChild, CountStates;
    EachChildOnce(nodes, p);
    forall c { ChildIs(nodes, p, c); }
    ChildInList(nodes, p);
    SizeOf(Kids(nodes, p), set c | c in nodes && ChildOf(nodes, p, c));
  }

  lemma ChildInList(nodes: seq<Child>, p: string)
    ensures forall c :: ChildOf(nodes, p, c) ==> c in nodes
  {
  }

  lemma SummaryTells(nodes: seq<Child>, p: string)
    requires DistinctNodes(nodes)
    ensures Tells(nodes, p, ParentSummary(nodes, p))
  {
    hide Kids, ChildOf, Classify, CountStates, LastCalled, Counts.Of, Coverage, Renormalized, LevelOf;
    forall t { StateCounted(nodes, p, t); }
    KidsCounted(nodes, p);
    ByIdInWords(nodes, p);
    if ById(nodes, p).Some? {
      ByIdHas(nodes, p);
    }
  }

  /** With distinct node ids, exactly the parents that have a child by either account are reported, each
      truthfully and in one place of the order. */
  lemma ParentsExactly(nodes: seq<Child>, p: string)
    requires DistinctNodes(nodes)
    ensures var ss := Summaries(nodes, Order(nodes));
            && Distinct(Order(nodes)) && |ss| <= |Order(nodes)|
            && ((exists c :: ChildOf(nodes, p, c)) ==> p in Order(nodes) && ParentSummary(nodes, p) in ss)
            && Tells(nodes, p, ParentSummary(nodes, p))
            && forall s :: s in ss ==> exists q :: (exists c :: ChildOf(nodes, q, c)) && s == ParentSummary(nodes, q)
  {
    hide Kids, ChildOf, ParentSummary, Summaries, IsChild, Tells, FirstSeen;
    SummaryTells(nodes, p);
    FirstSeenKeeps(ParentMentions(nodes) + ListMentions(nodes));
    SummariesAre(nodes, Order(nodes), p);
    KidsCounted(nodes, p);
    forall c | ChildOf(nodes, p, c) ensures p in Order(nodes) {
      ChildIs(nodes, p, c);
      ParentInOrder(nodes, p, c);
    }
    hide Order;
    forall q | Kids(nodes, q) != [] ensures exists c :: ChildOf(nodes, q, c) {
      KidsCounted(nodes, q);
      assert Kids(nodes, q)[0] in Kids(nodes, q);
    }
  }

  // ---- identifiers and weights ------------------------------------------------------------------

  /** The dp_id, or the node id where there is none. */
  predicate FiledUnder(c: Child, id: string) {
    if c.dpId.Some? && |c.dpId.value| > 0 then id == c.dpId.value else c.nodeId == Some(id)
  }

  /** Two children under different identifiers share by weight. */
  lemma SharesOfTwo(a: Child, b: Child, i: string, j: string, x: real, y: real)
    requires Applicable(a) && Applicable(b) && FiledUnder(a, i) && FiledUnder(b, j) && i != j
    requires Weighs(a, x) && Weighs(b, y) && x >= 0.0 && y >= 0.0 && x + y > 0.0
    ensures Renormalized([a, b]) == map[i := x / (x + y), j := y / (x + y)]
  {
    hide Applicable;
    assert [a, b][..1] == [a] && [a][..0] == [];
    assert Entries([]) == [] && LastWeights([]) == map[] && Total([]) == 0.0;
    assert Entries([a]) == [(i, x)];
    assert Entries([a, b]) == [(i, x), (j, y)];
    LastOfTwo((i, x), (j, y));
  }

  lemma LastOfTwo(a: Entry, b: Entry)
    requires a.0 != b.0
    ensures Total([a, b]) == a.1 + b.1 && LastWeights([a, b]) == map[a.0 := a.1, b.0 := b.1]
  {
    assert [a, b][..1] == [a] && [a][..0] == [];
    assert Total([]) == 0.0 && LastWeights([]) == map[];
    assert Total([a]) == a.1 && LastWeights([a]) == map[a.0 := a.1];
  }
}
