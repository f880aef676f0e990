/** Coverage summaries of every parent in an overlay, and the overall figure. */
module CoverageReport {
  import opened Basics
  import opened MissingStates

  // ---- one parent --------------------------------------------------------------------

  datatype WarningLevel = Ok | LowConfidence | NoStrongConclusion

  /** `coverage_warning_level`. */
  function LevelOf(coverage: real): WarningLevel {
    if coverage < 0.3 then NoStrongConclusion else if coverage < 0.5 then LowConfidence else Ok
  }

  datatype Counts = Counts(notApplicable: nat, unknown: nat, inactive: nat, known: nat, optionality: nat, lowMateriality: nat) {
    function All(): nat { notApplicable + unknown + inactive + known + optionality + lowMateriality }

    function Of(s: State): nat {
      match s
      case NotApplicable => notApplicable
      case Unknown => unknown
      case Inactive => inactive
      case Known => known
      case Optionality => optionality
      case LowMateriality => lowMateriality
    }

    function Plus(c: Counts): Counts {
      Counts(notApplicable + c.notApplicable, unknown + c.unknown, inactive + c.inactive,
             known + c.known, optionality + c.optionality, lowMateriality + c.lowMateriality)
    }
  }

  const ZERO: Counts := Counts(0, 0, 0, 0, 0, 0)

  function One(s: State): Counts {
    match s
    case NotApplicable => ZERO.(notApplicable := 1)
    case Unknown => ZERO.(unknown := 1)
    case Inactive => ZERO.(inactive := 1)
    case Known => ZERO.(known := 1)
    case Optionality => ZERO.(optionality := 1)
    case LowMateriality => ZERO.(lowMateriality := 1)
  }

  function CountStates(cs: seq<Child>): Counts {
    if cs == [] then ZERO else CountStates(cs[..|cs| - 1]).Plus(One(Classify(cs[|cs| - 1])))
  }

  datatype Summary = Summary(
    nodeId: Option<string>, dpId: Option<string>, coverage: real, level: WarningLevel,
    counts: Counts, weights: map<string, real>, nChildren: nat, nApplicable: nat)

  method CountOne(counts: Counts, state: State) returns (after: Counts)
    ensures after == counts.Plus(One(state))
  {
    match state {
      case NotApplicable => after := counts.(notApplicable := counts.notApplicable + 1);
      case Unknown => after := counts.(unknown := counts.unknown + 1);
      case Inactive => after := counts.(inactive := counts.inactive + 1);
      case Known => after := counts.(known := counts.known + 1);
      case Optionality => after := counts.(optionality := counts.optionality + 1);
      case LowMateriality => after := counts.(lowMateriality := counts.lowMateriality + 1);
    }
  }

  /** `coverage_summary_for_node`. The counts meet an independent count by state in `BucketsPartition`. */
  method CoverageSummaryForNode(nodeId: Option<string>, dpId: Option<string>, children: seq<Child>) returns (s: Summary)
    ensures s == SummaryOf(nodeId, dpId, children)
  {
    hide Classify, Coverage, Renormalized, Counts.Plus, One;
    var counts, applicable := ZERO, 0;
    for i := 0 to |children|
      invariant counts == CountStates(children[..i])
      invariant applicable + counts.notApplicable == i
    {
      assert children[..i + 1][..i] == children[..i];
      var state := Classify(children[i]);
      PlusOne(counts, state);
      counts := CountOne(counts, state);
      if state != NotApplicable {
        applicable := applicable + 1;
      }
    }
    assert children[..|children|] == children;
    var coverage := ComputeDataCoverage(children);
    var weights := RenormalizeWeights(children);
    s := Summary(nodeId, dpId, coverage, LevelOf(coverage), counts, weights, |children|, applicable);
  }

  function SummaryOf(nodeId: Option<string>, dpId: Option<string>, children: seq<Child>): Summary {
    CountsAll(children);
    Summary(nodeId, dpId, Coverage(children), LevelOf(Coverage(children)), CountStates(children),
            Renormalized(children), |children|, |children| - CountStates(children).notApplicable)
  }

  lemma ZeroCounts(s: State)
    ensures ZERO.All() == 0 && ZERO.Of(s) == 0 && ZERO.notApplicable == 0
  {
    hide CountStates, Counts.Plus, Classify;
    var z := Counts(0, 0, 0, 0, 0, 0);
    assert ZERO == z;
    ZeroOf(z, s);
  }

  lemma ZeroOf(z: Counts, s: State)
    requires z == Counts(0, 0, 0, 0, 0, 0)
    ensures z.Of(s) == 0
  {
    hide CountStates, Counts.Plus, Classify, One;
    match s {
      case NotApplicable => assert z.Of(NotApplicable) == 0;
      case Unknown => assert z.Of(Unknown) == 0;
      case Inactive => assert z.Of(Inactive) == 0;
      case Known => assert z.Of(Known) == 0;
      case Optionality => assert z.Of(Optionality) == 0;
      case LowMateriality => assert z.Of(LowMateriality) == 0;
    }
  }

  lemma PlusOne(c: Counts, s: State)
    ensures c.Plus(One(s)).All() == c.All() + 1
    ensures forall t :: c.Plus(One(s)).Of(t) == c.Of(t) + (if s == t then 1 else 0)
    ensures c.Plus(One(s)).notApplicable == c.notApplicable + (if s == NotApplicable then 1 else 0)
  {
  }

  lemma PlusAll(c: Counts, d: Counts)
    ensures c.Plus(d).All() == c.All() + d.All()
    ensures c.Plus(d).notApplicable == c.notApplicable + d.notApplicable
  {
  }

  lemma {:induction false} CountsAll(cs: seq<Child>)
    ensures CountStates(cs).All() == |cs| && CountStates(cs).notApplicable <= |cs|
  {
    hide Classify, Counts.Plus, Counts.All, One;
    ZeroCounts(Unknown);
    if cs != [] {
      CountsAll(cs[..|cs| - 1]);
      PlusOne(CountStates(cs[..|cs| - 1]), Classify(cs[|cs| - 1]));
    }
  }

  /** The children in a given state. */
  function InState(cs: seq<Child>, s: State): seq<Child> {
    if cs == [] then []
    else InState(cs[..|cs| - 1], s) + (if Classify(cs[|cs| - 1]) == s then [cs[|cs| - 1]] else [])
  }

  /** Each bucket counts the children in its state, and together the six count every child once. */
  lemma {:induction false} BucketsPartition(cs: seq<Child>, s: State)
    ensures CountStates(cs).Of(s) == |InState(cs, s)|
    ensures CountStates(cs).All() == |cs|
  {
    hide Classify, Counts.Plus, Counts.All, Counts.Of, One;
    CountsAll(cs);
    ZeroCounts(s);
    if cs != [] {
      BucketsPartition(cs[..|cs| - 1], s);
      PlusOne(CountStates(cs[..|cs| - 1]), Classify(cs[|cs| - 1]));
    }
  }

  // ---- who is a child of whom ----------------------------------------------------------------

  /** `str(node.get("node_id"))`. */
  function IdText(n: Child): string { n.nodeId.GetOr("None") }

  /** `by_id`: the last node with that non-empty id. */
  function ById(nodes: seq<Child>, id: string): Option<Child> {
    if nodes == [] || id == "" then None
    else
      var n := nodes[|nodes| - 1];
      if n.nodeId == Some(id) then Some(n) else ById(nodes[..|nodes| - 1], id)
  }

  function ByParent(nodes: seq<Child>, p: string): seq<Child> {
    if nodes == [] then []
    else ByParent(nodes[..|nodes| - 1], p) + (if nodes[|nodes| - 1].parent == Some(p) then [nodes[|nodes| - 1]] else [])
  }

  predicate HasId(bucket: seq<Child>, id: string) { exists i :: 0 <= i < |bucket| && IdText(bucket[i]) == id }

  function AddOne(bucket: seq<Child>, id: string, all: seq<Child>): seq<Child> {
    if HasId(bucket, id) || ById(all, id).None? then bucket else bucket + [ById(all, id).value]
  }

  function AddListed(bucket: seq<Child>, listed: seq<string>, all: seq<Child>): seq<Child> {
    if listed == [] then bucket else AddOne(AddListed(bucket, listed[..|listed| - 1], all), listed[|listed| - 1], all)
  }

  /** The bucket of `p` after the explicit lists of `nodes` have been worked off. */
  function KidsUpTo(nodes: seq<Child>, all: seq<Child>, p: string): seq<Child> {
    if nodes == [] then ByParent(all, p)
    else
      var bucket, n := KidsUpTo(nodes[..|nodes| - 1], all, p), nodes[|nodes| - 1];
      if IdText(n) == p then AddListed(bucket, n.childIds, all) else bucket
  }

  function Kids(nodes: seq<Child>, p: string): seq<Child> { KidsUpTo(nodes, nodes, p) }

  /** Parents in the order in which they are first mentioned: by their children, then by themselves. */
  function ParentMentions(nodes: seq<Child>): seq<string> {
    if nodes == [] then []
    else
      ParentMentions(nodes[..|nodes| - 1])
      + (if nodes[|nodes| - 1].parent.Some? then [nodes[|nodes| - 1].parent.value] else [])
  }

  function ListMentions(nodes: seq<Child>): seq<string> {
    if nodes == [] then []
    else ListMentions(nodes[..|nodes| - 1]) + (if nodes[|nodes| - 1].childIds != [] then [IdText(nodes[|nodes| - 1])] else [])
  }

  function FirstSeen(s: seq<string>): seq<string> {
    if s == [] then []
    else
      var front := FirstSeen(s[..|s| - 1]);
      if s[|s| - 1] in front then front else front + [s[|s| - 1]]
  }

  function Order(nodes: seq<Child>): seq<string> { FirstSeen(ParentMentions(nodes) + ListMentions(nodes)) }

  /** `children_of`: a dictionary with its insertion order. */
  class ChildTable {
    var order: seq<string>
    var kids: map<string, seq<Child>>

    ghost predicate Valid()
      reads this
    {
      Distinct(order) && forall p :: p in order <==> p in kids
    }

    constructor ()
      ensures Valid() && order == [] && kids == map[]
    {
      order, kids := [], map[];
    }

    function Bucket(p: string): seq<Child>
      reads this
    {
      if p in kids then kids[p] else []
    }

    /** `setdefault(p, [])`. */
    method Touch(p: string)
      requires Valid()
      modifies this
      ensures Valid()
      ensures order == if p in old(order) then old(order) else old(order) + [p]
      ensures forall q :: Bucket(q) == old(Bucket(q))
    {
      if p !in kids {
        AppendFresh(order, p);
        kids := kids[p := []];
        order := order + [p];
      }
    }

    method Append(p: string, c: Child)
      requires Valid() && p in kids
      modifies this
      ensures Valid() && order == old(order)
      ensures Bucket(p) == old(Bucket(p)) + [c] && forall q :: q != p ==> Bucket(q) == old(Bucket(q))
    {
      kids := kids[p := kids[p] + [c]];
    }

    /** The loop over `parent_node`. */
    method CollectByParent(nodes: seq<Child>)
      requires Valid() && order == [] && kids == map[]
      modifies this
      ensures Valid() && order == FirstSeen(ParentMentions(nodes))
      ensures forall p :: Bucket(p) == ByParent(nodes, p)
    {
      for i := 0 to |nodes|
        invariant Valid() && order == FirstSeen(ParentMentions(nodes[..i]))
        invariant forall p :: Bucket(p) == ByParent(nodes[..i], p)
      {
        assert nodes[..i + 1][..i] == nodes[..i];
        var n := nodes[i];
        if n.parent.Some? {
          FirstSeenStep(ParentMentions(nodes[..i]), n.parent.value);
          Touch(n.parent.value);
          Append(n.parent.value, n);
        } else {
          assert ParentMentions(nodes[..i]) + [] == ParentMentions(nodes[..i]);
        }
        forall p ensures Bucket(p) == ByParent(nodes[..i + 1], p) {
          ByParentStep(nodes, i, p);
        }
      }
      assert nodes[..|nodes|] == nodes;
    }

    /** Working off one explicit list, with the set of ids already in the bucket. */
    method AddChildren(p: string, listed: seq<string>, all: seq<Child>)
      requires Valid() && p in kids
      modifies this
      ensures Valid() && order == old(order)
      ensures Bucket(p) == AddListed(old(Bucket(p)), listed, all)
      ensures forall q :: q != p ==> Bucket(q) == old(Bucket(q))
    {
      hide ById, AddListed, HasId;
      IdsOf(Bucket(p));
      ListedAll(old(Bucket(p)), listed, all);
      var ids := set c | c in Bucket(p) :: IdText(c);
      for i := 0 to |listed|
        invariant Valid() && order == old(order) && p in kids
        invariant Bucket(p) == AddListed(old(Bucket(p)), listed[..i], all)
        invariant forall q :: q != p ==> Bucket(q) == old(Bucket(q))
        invariant forall id :: id in ids <==> HasId(Bucket(p), id)
      {
        ListedStep(old(Bucket(p)), listed, i, all);
        var id := listed[i];
        if id !in ids && ById(all, id).Some? {
          ByIdHas(all, id);
          HasIdAppend(Bucket(p), ById(all, id).value);
          Append(p, ById(all, id).value);
          ids := ids + {id};
        }
      }
    }

    /** The loop over `child_nodes`. */
    method CollectListed(nodes: seq<Child>)
      requires Valid() && order == FirstSeen(ParentMentions(nodes))
      requires forall p :: Bucket(p) == ByParent(nodes, p)
      modifies this
      ensures Valid() && order == Order(nodes)
      ensures forall p :: Bucket(p) == Kids(nodes, p)
    {
      hide AddListed, ByParent, FirstSeen;
      assert ParentMentions(nodes) + [] == ParentMentions(nodes);
      for i := 0 to |nodes|
        invariant Valid() && order == FirstSeen(ParentMentions(nodes) + ListMentions(nodes[..i]))
        invariant forall p :: Bucket(p) == KidsUpTo(nodes[..i], nodes, p)
      {
        assert nodes[..i + 1][..i] == nodes[..i];
        var n := nodes[i];
        if n.childIds != [] {
          var mentions := ParentMentions(nodes) + ListMentions(nodes[..i]);
          assert mentions + [IdText(n)] == ParentMentions(nodes) + ListMentions(nodes[..i + 1]);
          FirstSeenStep(mentions, IdText(n));
          Touch(IdText(n));
          AddChildren(IdText(n), n.childIds, nodes);
        } else {
          assert ListMentions(nodes[..i]) + [] == ListMentions(nodes[..i]);
        }
        forall p ensures Bucket(p) == KidsUpTo(nodes[..i + 1], nodes, p) {
          KidsStep(nodes, i, p);
        }
      }
      assert nodes[..|nodes|] == nodes;
    }
  }

  lemma IdsOf(bucket: seq<Child>)
    ensures forall id :: id in (set c | c in bucket :: IdText(c)) <==> HasId(bucket, id)
  {
    forall id | id in (set c | c in bucket :: IdText(c)) ensures HasId(bucket, id) {
      var c :| c in bucket && IdText(c) == id;
      var i :| 0 <= i < |bucket| && bucket[i] == c;
    }
  }

  lemma ListedStep(bucket: seq<Child>, listed: seq<string>, i: nat, all: seq<Child>)
    requires i < |listed|
    ensures AddListed(bucket, listed[..i + 1], all) == AddOne(AddListed(bucket, listed[..i], all), listed[i], all)
  {
    assert listed[..i + 1][..i] == listed[..i];
  }

  lemma ListedAll(bucket: seq<Child>, listed: seq<string>, all: seq<Child>)
    ensures AddListed(bucket, listed[..0], all) == bucket
    ensures listed[..|listed|] == listed
  {
  }

  lemma FirstSeenStep(s: seq<string>, x: string)
    ensures FirstSeen(s + [x]) == if x in FirstSeen(s) then FirstSeen(s) else FirstSeen(s) + [x]
  {
    assert (s + [x])[..|s|] == s;
  }

  lemma ByParentStep(nodes: seq<Child>, i: nat, p: string)
    requires i < |nodes|
    ensures ByParent(nodes[..i + 1], p) ==
            if nodes[i].parent == Some(p) then ByParent(nodes[..i], p) + [nodes[i]] else ByParent(nodes[..i], p)
  {
    assert nodes[..i + 1][..i] == nodes[..i];
  }

  lemma KidsStep(nodes: seq<Child>, i: nat, p: string)
    requires i < |nodes|
    ensures KidsUpTo(nodes[..i + 1], nodes, p) ==
            if IdText(nodes[i]) == p then AddListed(KidsUpTo(nodes[..i], nodes, p), nodes[i].childIds, nodes)
            else KidsUpTo(nodes[..i], nodes, p)
    ensures nodes[i].childIds == [] ==>
              AddListed(KidsUpTo(nodes[..i], nodes, p), nodes[i].childIds, nodes) == KidsUpTo(nodes[..i], nodes, p)
  {
    assert nodes[..i + 1][..i] == nodes[..i];
  }

  lemma {:induction false} ByIdHas(nodes: seq<Child>, id: string)
    ensures var n := ById(nodes, id); n.Some? ==> n.value in nodes && n.value.nodeId == Some(id)
  {
    if nodes != [] {
      ByIdHas(nodes[..|nodes| - 1], id);
    }
  }

  lemma HasIdAppend(bucket: seq<Child>, c: Child)
    ensures forall id :: HasId(bucket + [c], id) <==> HasId(bucket, id) || id == IdText(c)
  {
    var b := bucket + [c];
    forall id ensures HasId(b, id) <==> HasId(bucket, id) || id == IdText(c) {
      if HasId(bucket, id) {
        var i :| 0 <= i < |bucket| && IdText(bucket[i]) == id;
        assert b[i] == bucket[i];
      }
      if id == IdText(c) {
        assert b[|bucket|] == c;
      }
    }
  }

  // ---- each child exactly once -----------------------------------------------------------------

  predicate DistinctNodes(nodes: seq<Child>) {
    forall i, j :: 0 <= i < j < |nodes| ==> IdText(nodes[i]) != IdText(nodes[j])
  }

  /** Some node called `p` lists `id` as a child. */
  predicate Lists(nodes: seq<Child>, p: string, id: string) {
    exists i :: 0 <= i < |nodes| && IdText(nodes[i]) == p && id in nodes[i].childIds
  }

  /** `c` is a child of `p` by its own or by the parent's account. */
  predicate IsChild(nodes: seq<Child>, upTo: seq<Child>, p: string, c: Child) {
    c in nodes && (c.parent == Some(p) || (c.nodeId.Some? && c.nodeId.value != "" && Lists(upTo, p, c.nodeId.value)))
  }

  lemma {:induction false} ByParentHas(nodes: seq<Child>, p: string)
    requires DistinctNodes(nodes)
    ensures DistinctNodes(ByParent(nodes, p))
    ensures forall c :: c in ByParent(nodes, p) <==> c in nodes && c.parent == Some(p)
  {
    if nodes != [] {
      var front, last := nodes[..|nodes| - 1], nodes[|nodes| - 1];
      assert nodes == front + [last];
      ByParentHas(front, p);
      if last.parent == Some(p) {
        forall c | c in front ensures IdText(c) != IdText(last) {
          var i :| 0 <= i < |front| && front[i] == c;
          assert nodes[i] == c;
        }
        AppendDistinct(ByParent(front, p), last);
      }
    }
  }

  lemma AppendDistinct(b: seq<Child>, c: Child)
    requires DistinctNodes(b) && forall d :: d in b ==> IdText(d) != IdText(c)
    ensures DistinctNodes(b + [c]) && forall d :: d in b + [c] <==> d in b || d == c
  {
    var e := b + [c];
    forall i, j | 0 <= i < j < |e| ensures IdText(e[i]) != IdText(e[j]) {
      assert e[i] in b;
    }
  }

  lemma {:induction false} ByIdIs(nodes: seq<Child>, c: Child)
    requires DistinctNodes(nodes) && c in nodes && c.nodeId.Some? && c.nodeId.value != ""
    ensures ById(nodes, c.nodeId.value) == Some(c)
  {
    var last := nodes[|nodes| - 1];
    var k :| 0 <= k < |nodes| && nodes[k] == c;
    if k < |nodes| - 1 {
      var front := nodes[..|nodes| - 1];
      assert front[k] == c;
      ByIdIs(front, c);
    }
  }

  /** Adding one listed id adds the node it names, unless it is there already. */
  lemma AddOneHas(bucket: seq<Child>, id: string, all: seq<Child>)
    requires DistinctNodes(all) && DistinctNodes(bucket) && forall c :: c in bucket ==> c in all
    ensures DistinctNodes(AddOne(bucket, id, all))
    ensures forall c :: c in AddOne(bucket, id, all) <==>
                        c in bucket || (c in all && id != "" && c.nodeId == Some(id))
  {
    hide ById;
    ByIdHas(all, id);
    if ById(all, id).Some? {
      if HasId(bucket, id) {
        var i :| 0 <= i < |bucket| && IdText(bucket[i]) == id;
        SameIdSameNode(all, bucket[i], ById(all, id).value);
        forall c | c in all && c.nodeId == Some(id) ensures c in bucket {
          SameIdSameNode(all, c, bucket[i]);
        }
      } else {
        forall d | d in bucket ensures IdText(d) != id {
          var i :| 0 <= i < |bucket| && bucket[i] == d;
        }
        AppendDistinct(bucket, ById(all, id).value);
        forall c | c in all && id != "" && c.nodeId == Some(id) ensures c == ById(all, id).value {
          ByIdIs(all, c);
        }
        EmptyIdUnknown(all, id);
      }
    } else {
      forall c | c in all && id != "" ensures c.nodeId != Some(id) {
        if c.nodeId == Some(id) {
          ByIdIs(all, c);
        }
      }
    }
  }

  lemma EmptyIdUnknown(all: seq<Child>, id: string)
    ensures ById(all, id).Some? ==> id != ""
  {
  }

  lemma SameIdSameNode(nodes: seq<Child>, a: Child, b: Child)
    requires DistinctNodes(nodes) && a in nodes && b in nodes && IdText(a) == IdText(b)
    ensures a == b
  {
  }

  lemma {:induction false} AddListedHas(bucket: seq<Child>, listed: seq<string>, all: seq<Child>)
    requires DistinctNodes(all) && DistinctNodes(bucket) && forall c :: c in bucket ==> c in all
    ensures DistinctNodes(AddListed(bucket, listed, all))
    ensures forall c :: c in AddListed(bucket, listed, all) <==>
                        c in bucket || (c in all && c.nodeId.Some? && c.nodeId.value != "" && c.nodeId.value in listed)
  {
    hide AddOne, DistinctNodes;
    if listed != [] {
      var front, id := listed[..|listed| - 1], listed[|listed| - 1];
      assert listed == front + [id];
      AddListedHas(bucket, front, all);
      AddOneHas(AddListed(bucket, front, all), id, all);
    }
  }

  lemma ListsStep(nodes: seq<Child>, p: string, id: string)
    requires nodes != []
    ensures var last := nodes[|nodes| - 1];
            Lists(nodes, p, id) <==> Lists(nodes[..|nodes| - 1], p, id) || (IdText(last) == p && id in last.childIds)
  {
    var front := nodes[..|nodes| - 1];
    if Lists(front, p, id) {
      var i :| 0 <= i < |front| && IdText(front[i]) == p && id in front[i].childIds;
      assert nodes[i] == front[i];
    }
    if Lists(nodes, p, id) {
      var i :| 0 <= i < |nodes| && IdText(nodes[i]) == p && id in nodes[i].childIds;
      if i < |front| {
        assert nodes[i] == front[i];
      }
    }
  }

  lemma {:induction false} KidsUpToHas(nodes: seq<Child>, all: seq<Child>, p: string)
    requires DistinctNodes(all)
    ensures DistinctNodes(KidsUpTo(nodes, all, p))
    ensures forall c :: c in KidsUpTo(nodes, all, p) <==> IsChild(all, nodes, p, c)
  {
    hide AddListed, ByParent, DistinctNodes, Lists;
    if nodes == [] {
      ByParentHas(all, p);
      forall id { NoLists(p, id); }
    } else {
      var front, n := nodes[..|nodes| - 1], nodes[|nodes| - 1];
      KidsUpToHas(front, all, p);
      AddListedHas(KidsUpTo(front, all, p), n.childIds, all);
      forall id { ListsStep(nodes, p, id); }
    }
  }

  lemma NoLists(p: string, id: string)
    ensures !Lists([], p, id)
  {
  }

  /** With distinct node ids, the bucket of a parent holds each of its children exactly once, whether the
      child names the parent, the parent lists the child, or both; so its six counters add up to the number of
      distinct children. */
  lemma EachChildOnce(nodes: seq<Child>, p: string)
    requires DistinctNodes(nodes)
    ensures Distinct(Kids(nodes, p))
    ensures forall c :: c in Kids(nodes, p) <==> IsChild(nodes, nodes, p, c)
    ensures CountStates(Kids(nodes, p)).All() == |set c | c in nodes && IsChild(nodes, nodes, p, c)|
  {
    hide KidsUpTo, IsChild, CountStates;
    KidsUpToHas(nodes, nodes, p);
    CountsAll(Kids(nodes, p));
    DistinctSize(Kids(nodes, p));
    ChildInNodes(nodes, p);
    assert (set c | c in nodes && IsChild(nodes, nodes, p, c)) == Elements(Kids(nodes, p));
  }

  lemma ChildInNodes(nodes: seq<Child>, p: string)
    ensures forall c :: IsChild(nodes, nodes, p, c) ==> c in nodes
  {
  }

  // ---- the report ------------------------------------------------------------------------------

  datatype Alert = Alert(nodeId: Option<string>, dpId: Option<string>, level: WarningLevel, coverage: real)

  datatype Report = Report(perNode: seq<Summary>, overall: real, level: WarningLevel, totals: Counts, alerts: seq<Alert>)

  function ParentSummary(nodes: seq<Child>, p: string): Summary {
    var parent := ById(nodes, p);
    if parent.Some? then SummaryOf(parent.value.nodeId, parent.value.dpId, Kids(nodes, p))
    else SummaryOf(Some(p), None, Kids(nodes, p))
  }

  function Summaries(nodes: seq<Child>, order: seq<string>): seq<Summary> {
    if order == [] then []
    else
      Summaries(nodes, order[..|order| - 1])
      + (if Kids(nodes, order[|order| - 1]) == [] then [] else [ParentSummary(nodes, order[|order| - 1])])
  }

  function Totals(ss: seq<Summary>): Counts {
    if ss == [] then ZERO else Totals(ss[..|ss| - 1]).Plus(ss[|ss| - 1].counts)
  }

  function Times(x: real, n: nat): real { x * n as real }

  function WeightedCoverage(ss: seq<Summary>): real {
    if ss == [] then 0.0 else WeightedCoverage(ss[..|ss| - 1]) + Times(ss[|ss| - 1].coverage, ss[|ss| - 1].nApplicable)
  }

  function ApplicableCount(ss: seq<Summary>): nat {
    if ss == [] then 0 else ApplicableCount(ss[..|ss| - 1]) + ss[|ss| - 1].nApplicable
  }

  function Overall(ss: seq<Summary>): real {
    if ApplicableCount(ss) == 0 then 0.0 else WeightedCoverage(ss) / ApplicableCount(ss) as real
  }

  function Alerts(ss: seq<Summary>): seq<Alert> {
    if ss == [] then []
    else
      var s := ss[|ss| - 1];
      Alerts(ss[..|ss| - 1]) + (if s.level == Ok then [] else [Alert(s.nodeId, s.dpId, s.level, s.coverage)])
  }

  method SummariseParent(nodes: seq<Child>, p: string, kids: seq<Child>) returns (s: Summary)
    requires kids == Kids(nodes, p)
    ensures s == ParentSummary(nodes, p)
  {
    var parent := ById(nodes, p);
    if parent.Some? {
      s := CoverageSummaryForNode(parent.value.nodeId, parent.value.dpId, kids);
    } else {
      s := CoverageSummaryForNode(Some(p), None, kids);
    }
  }

  lemma AppendSummary(ss: seq<Summary>, s: Summary)
    ensures Totals(ss + [s]) == Totals(ss).Plus(s.counts)
    ensures WeightedCoverage(ss + [s]) == WeightedCoverage(ss) + Times(s.coverage, s.nApplicable)
    ensures ApplicableCount(ss + [s]) == ApplicableCount(ss) + s.nApplicable
  {
    assert (ss + [s])[..|ss|] == ss;
  }

  method CollectAlerts(ss: seq<Summary>) returns (alerts: seq<Alert>)
    ensures alerts == Alerts(ss)
  {
    alerts := [];
    for i := 0 to |ss|
      invariant alerts == Alerts(ss[..i])
    {
      assert ss[..i + 1][..i] == ss[..i];
      if ss[i].level != Ok {
        alerts := alerts + [Alert(ss[i].nodeId, ss[i].dpId, ss[i].level, ss[i].coverage)];
      }
    }
    assert ss[..|ss|] == ss;
  }

  /** `coverage_summary_for_overlay`. */
  method CoverageSummaryForOverlay(nodes: seq<Child>) returns (r: Report)
    ensures var ss := Summaries(nodes, Order(nodes));
            r == Report(ss, Overall(ss), LevelOf(Overall(ss)), Totals(ss), Alerts(ss))
  {
    hide Kids, ParentSummary, Order, Times, WeightedCoverage, ApplicableCount, Totals, Counts.Plus, Alerts;
    var table := new ChildTable();
    table.CollectByParent(nodes);
    table.CollectListed(nodes);
    var order, children := table.order, table.kids;
    forall p | p in order ensures p in children && children[p] == Kids(nodes, p) {
      assert table.Bucket(p) == Kids(nodes, p);
    }
    var ss: seq<Summary> := [];
    var totals, num, den := ZERO, 0.0, 0;
    EmptySummaries();
    for i := 0 to |order|
      invariant ss == Summaries(nodes, order[..i]) && totals == Totals(ss)
      invariant num == WeightedCoverage(ss) && den == ApplicableCount(ss)
    {
      assert order[..i + 1][..i] == order[..i];
      var p := order[i];
      assert p in order;
      var kids := children[p];
      if kids != [] {
        var s := SummariseParent(nodes, p, kids);
        AppendSummary(ss, s);
        ss := ss + [s];
        totals := totals.Plus(s.counts);
        TimesZero(s.coverage);
        if s.nApplicable > 0 {
          num := num + Times(s.coverage, s.nApplicable);
          den := den + s.nApplicable;
        }
      }
    }
    assert order[..|order|] == order;
    var overall := if den > 0 then num / den as real else 0.0;
    var alerts := CollectAlerts(ss);
    r := Report(ss, overall, LevelOf(overall), totals, alerts);
  }

  lemma EmptySummaries()
    ensures Totals([]) == ZERO && WeightedCoverage([]) == 0.0 && ApplicableCount([]) == 0
  {
  }

  // ---- laws of the report --------------------------------------------------------------------------

  /** Every bound on the parents that have applicable children bounds the overall coverage. */
  lemma {:induction false} WeightedWithin(ss: seq<Summary>, lo: real, hi: real)
    requires forall i :: 0 <= i < |ss| && ss[i].nApplicable > 0 ==> lo <= ss[i].coverage <= hi
    ensures Times(lo, ApplicableCount(ss)) <= WeightedCoverage(ss) <= Times(hi, ApplicableCount(ss))
  {
    hide Times;
    TimesZero(lo);
    TimesZero(hi);
    if ss != [] {
      var front, s := ss[..|ss| - 1], ss[|ss| - 1];
      WeightedWithin(front, lo, hi);
      if s.nApplicable > 0 {
        TimesMonotone(lo, s.coverage, s.nApplicable);
        TimesMonotone(s.coverage, hi, s.nApplicable);
      } else {
        TimesZero(s.coverage);
      }
      TimesSum(lo, ApplicableCount(front), s.nApplicable);
      TimesSum(hi, ApplicableCount(front), s.nApplicable);
    }
  }

  lemma TimesZero(x: real)
    ensures Times(x, 0) == 0.0
  {
  }

  lemma TimesMonotone(x: real, y: real, n: nat)
    requires x <= y
    ensures Times(x, n) <= Times(y, n)
  {
  }

  lemma TimesSum(x: real, m: nat, n: nat)
    ensures Times(x, m + n) == Times(x, m) + Times(x, n)
  {
  }

  lemma Between(lo: real, num: real, hi: real, n: nat)
    requires n > 0 && Times(lo, n) <= num <= Times(hi, n)
    ensures lo <= num / n as real <= hi
  {
    var q := num / n as real;
    assert num == Times(q, n);
    if q < lo {
      StrictTimes(q, lo, n);
    }
    if hi < q {
      StrictTimes(hi, q, n);
    }
  }

  lemma StrictTimes(x: real, y: real, n: nat)
    requires x < y && n > 0
    ensures Times(x, n) < Times(y, n)
  {
  }

  lemma {:induction false} SomeApplicable(ss: seq<Summary>)
    ensures ApplicableCount(ss) > 0 <==> exists i :: 0 <= i < |ss| && ss[i].nApplicable > 0
  {
    if ss != [] {
      var front := ss[..|ss| - 1];
      SomeApplicable(front);
      assert forall i :: 0 <= i < |front| ==> front[i] == ss[i];
      if ApplicableCount(front) > 0 {
        var i :| 0 <= i < |front| && front[i].nApplicable > 0;
        assert ss[i].nApplicable > 0;
      }
    }
  }

  ghost predicate Bounds(ss: seq<Summary>, lo: nat, hi: nat) {
    && lo < |ss| && hi < |ss| && ss[lo].nApplicable > 0 && ss[hi].nApplicable > 0
    && forall i :: 0 <= i < |ss| && ss[i].nApplicable > 0 ==> ss[lo].coverage <= ss[i].coverage <= ss[hi].coverage
  }

  lemma {:induction false} BoundsExist(ss: seq<Summary>) returns (lo: nat, hi: nat)
    requires ApplicableCount(ss) > 0
    ensures Bounds(ss, lo, hi)
  {
    var n := |ss| - 1;
    var front := ss[..n];
    assert forall i :: 0 <= i < n ==> front[i] == ss[i];
    if ApplicableCount(front) == 0 {
      SomeApplicable(front);
      lo, hi := n, n;
      assert forall i :: 0 <= i < n ==> front[i].nApplicable == 0;
    } else {
      lo, hi := BoundsExist(front);
      if ss[n].nApplicable > 0 {
        if ss[n].coverage < ss[lo].coverage { lo := n; }
        if ss[n].coverage > ss[hi].coverage { hi := n; }
      }
    }
  }

  /** The overall coverage lies between the lowest and the highest parent that has applicable children;
      it is 0 if there is none. */
  lemma OverallBetween(ss: seq<Summary>)
    ensures if ApplicableCount(ss) == 0 then Overall(ss) == 0.0
            else exists lo: nat, hi: nat :: Bounds(ss, lo, hi) && ss[lo].coverage <= Overall(ss) <= ss[hi].coverage
  {
    hide WeightedCoverage, ApplicableCount, Times;
    if ApplicableCount(ss) > 0 {
      var lo, hi := BoundsExist(ss);
      WeightedWithin(ss, ss[lo].coverage, ss[hi].coverage);
      Between(ss[lo].coverage, WeightedCoverage(ss), ss[hi].coverage, ApplicableCount(ss));
      assert Bounds(ss, lo, hi);
    }
  }

  function ChildCount(ss: seq<Summary>): nat {
    if ss == [] then 0 else ChildCount(ss[..|ss| - 1]) + ss[|ss| - 1].nChildren
  }

  /** Totals conserve: the six report-wide counters add up to the children of all reported parents, and
      the non-N/A ones to the denominator of the overall coverage. */
  lemma {:induction false} TotalsConserve(nodes: seq<Child>, order: seq<string>)
    ensures var ss := Summaries(nodes, order);
            && Totals(ss).All() == ChildCount(ss)
            && Totals(ss).All() - Totals(ss).notApplicable == ApplicableCount(ss)
  {
    hide Kids, ById, CountStates, Coverage, Renormalized, Counts.Plus, Counts.All;
    ZeroCounts(Unknown);
    if order != [] {
      var front, p := order[..|order| - 1], order[|order| - 1];
      TotalsConserve(nodes, front);
      CountsAll(Kids(nodes, p));
      var ss, s := Summaries(nodes, front), ParentSummary(nodes, p);
      PlusAll(Totals(ss), s.counts);
      assert (ss + [s])[..|ss|] == ss;
      assert ss + [] == ss;
    }
  }

  /** Warnings by coverage alone: below 0.5 a parent is listed, below 0.3 as allowing no strong conclusion. */
  lemma AlertsExactly(nodes: seq<Child>, order: seq<string>, a: Alert)
    ensures var ss := Summaries(nodes, order);
            a in Alerts(ss) <==>
              exists i :: 0 <= i < |ss| && ss[i].coverage < 0.5
                          && a == Alert(ss[i].nodeId, ss[i].dpId, if ss[i].coverage < 0.3 then NoStrongConclusion else LowConfidence, ss[i].coverage)
  {
    var ss := Summaries(nodes, order);
    LevelsOf(nodes, order);
    AlertsOf(ss, a);
  }

  lemma {:induction false} LevelsOf(nodes: seq<Child>, order: seq<string>)
    ensures forall s :: s in Summaries(nodes, order) ==> s.level == LevelOf(s.coverage)
  {
    hide Kids, ById, Coverage, CountStates, Renormalized, LevelOf;
    if order != [] {
      LevelsOf(nodes, order[..|order| - 1]);
    }
  }

  lemma {:induction false} AlertsOf(ss: seq<Summary>, a: Alert)
    requires forall s :: s in ss ==> s.level == LevelOf(s.coverage)
    ensures a in Alerts(ss) <==>
              exists i :: 0 <= i < |ss| && ss[i].coverage < 0.5
                          && a == Alert(ss[i].nodeId, ss[i].dpId, if ss[i].coverage < 0.3 then NoStrongConclusion else LowConfidence, ss[i].coverage)
  {
    if ss != [] {
      var front, last := ss[..|ss| - 1], ss[|ss| - 1];
      assert ss == front + [last];
      AlertsOf(front, a);
      assert last in ss;
    }
  }
}
