/** Data coverage of a parent over its direct children: classification, weights, coverage. */
module MissingStates {
  import opened Basics

  datatype State = Known | NotApplicable | Unknown | Inactive | Optionality | LowMateriality

  /** A field that `float()` is applied to. */
  datatype Cell = Absent | Number(value: real) | NotNumber

  datatype Child = Child(
    nodeId: Option<string>, dpId: Option<string>, parent: Option<string>, childIds: seq<string>,
    status: Option<string>, policy: string, materiality: Cell, activeWeight: Cell, baseWeight: Cell)

  // ---- one node ----------------------------------------------------------------------

  /** `_node_weight`: the active weight, else the base weight, else 1; text counts as 1. */
  function Weight(c: Child): real {
    var cell := if c.activeWeight != Absent then c.activeWeight else c.baseWeight;
    if cell.Number? then cell.value else 1.0
  }

  /** `_normalise_status`, for a status that is present. */
  function ParseStatus(text: string): Option<State> {
    var s := Strip(text);
    if s == "N/A" || s == "NA" || s == "n/a" then Some(NotApplicable)
    else if s == "Low Materiality" || s == "LowMateriality" then Some(LowMateriality)
    else if s == "Known" then Some(Known)
    else if s == "Unknown" then Some(Unknown)
    else if s == "Inactive" then Some(Inactive)
    else if s == "Optionality" then Some(Optionality)
    else None
  }

  function ParsePolicy(text: string): Option<State> {
    var s := Strip(text);
    if s == "not_applicable_remove" then Some(NotApplicable)
    else if s == "unknown_reduce_confidence" then Some(Unknown)
    else if s == "inactive_zero_weight" then Some(Inactive)
    else if s == "optionality_track" then Some(Optionality)
    else if s == "low_materiality_fold" then Some(LowMateriality)
    else if s == "known" then Some(Known)
    else None
  }

  function Declared(c: Child): Option<State> {
    if c.status.None? then None else ParseStatus(c.status.value)
  }

  predicate Tiny(c: Child) { c.materiality.Number? && c.materiality.value < 0.05 }

  function Fold(s: State, c: Child): State { if s == Known && Tiny(c) then LowMateriality else s }

  /** `classify_missing_state`. */
  function Classify(c: Child): State {
    if Declared(c).Some? then Fold(Declared(c).value, c)
    else if ParsePolicy(c.policy).Some? then Fold(ParsePolicy(c.policy).value, c)
    else if Tiny(c) then LowMateriality
    else Unknown
  }

  predicate Applicable(c: Child) { Classify(c) != NotApplicable }

  /** In the coverage numerator: by its state, or by its declared status if low materiality hid it. */
  predicate CountsAsKnown(c: Child) {
    Classify(c) in {Known, Inactive} || Declared(c) in {Some(Known), Some(Inactive)}
  }

  /** `dp_id or node_id`. */
  function Ident(c: Child): Option<string> {
    if c.dpId.Some? && c.dpId.value != "" then c.dpId else c.nodeId
  }

  /** A declared status is overridden only where a Known node is immaterial, and then it still counts as
      known; a node counts as known through its missing policy alone only if it is not immaterial. */
  lemma KnownExactly(c: Child)
    ensures CountsAsKnown(c) <==>
            || Declared(c) == Some(Known) || Declared(c) == Some(Inactive)
            || (Declared(c).None? && ParsePolicy(c.policy) == Some(Inactive))
            || (Declared(c).None? && ParsePolicy(c.policy) == Some(Known) && !Tiny(c))
    ensures CountsAsKnown(c) ==> Applicable(c)
  {
    hide ParseStatus, ParsePolicy;
  }

  // ---- coverage ------------------------------------------------------------------------

  function ApplicableWeight(cs: seq<Child>): real {
    if cs == [] then 0.0
    else ApplicableWeight(cs[..|cs| - 1]) + (if Applicable(cs[|cs| - 1]) then Weight(cs[|cs| - 1]) else 0.0)
  }

  function KnownWeight(cs: seq<Child>): real {
    if cs == [] then 0.0
    else KnownWeight(cs[..|cs| - 1])
         + (if Applicable(cs[|cs| - 1]) && CountsAsKnown(cs[|cs| - 1]) then Weight(cs[|cs| - 1]) else 0.0)
  }

  /** Known share of the applicable weight. */
  function Coverage(cs: seq<Child>): real {
    if ApplicableWeight(cs) <= 0.0 then 0.0 else Clip(KnownWeight(cs) / ApplicableWeight(cs), 0.0, 1.0)
  }

  /** `compute_data_coverage`. */
  method ComputeDataCoverage(children: seq<Child>) returns (coverage: real)
    ensures coverage == Coverage(children)
  {
    hide Applicable, CountsAsKnown, Weight;
    var known, applicable := 0.0, 0.0;
    for i := 0 to |children|
      invariant known == KnownWeight(children[..i]) && applicable == ApplicableWeight(children[..i])
    {
      assert children[..i + 1][..i] == children[..i];
      var c := children[i];
      if Applicable(c) {
        applicable := applicable + Weight(c);
        if CountsAsKnown(c) {
          known := known + Weight(c);
        }
      }
    }
    assert children[..|children|] == children;
    coverage := if applicable <= 0.0 then 0.0 else Clip(known / applicable, 0.0, 1.0);
  }

  lemma {:induction false} WeightsAppend(a: seq<Child>, b: seq<Child>)
    ensures ApplicableWeight(a + b) == ApplicableWeight(a) + ApplicableWeight(b)
    ensures KnownWeight(a + b) == KnownWeight(a) + KnownWeight(b)
  {
    hide Applicable, CountsAsKnown, Weight;
    if b == [] {
      assert a + b == a;
    } else {
      assert (a + b)[..|a + b| - 1] == a + b[..|b| - 1];
      WeightsAppend(a, b[..|b| - 1]);
    }
  }

  lemma WeightsOfOne(c: Child)
    ensures ApplicableWeight([c]) == if Applicable(c) then Weight(c) else 0.0
    ensures KnownWeight([c]) == if Applicable(c) && CountsAsKnown(c) then Weight(c) else 0.0
  {
    hide Applicable, CountsAsKnown, Weight;
    assert [c][..0] == [];
    assert ApplicableWeight([]) == 0.0 && KnownWeight([]) == 0.0;
  }

  lemma WeightsAround(a: seq<Child>, c: Child, b: seq<Child>)
    ensures ApplicableWeight(a + [c] + b) ==
            ApplicableWeight(a) + (if Applicable(c) then Weight(c) else 0.0) + ApplicableWeight(b)
    ensures KnownWeight(a + [c] + b) ==
            KnownWeight(a) + (if Applicable(c) && CountsAsKnown(c) then Weight(c) else 0.0) + KnownWeight(b)
  {
    WeightsAppend(a + [c], b);
    WeightsAppend(a, [c]);
    WeightsOfOne(c);
  }

  predicate NonNegative(cs: seq<Child>) { forall i :: 0 <= i < |cs| ==> Weight(cs[i]) >= 0.0 }

  lemma {:induction false} KnownWithinApplicable(cs: seq<Child>)
    requires NonNegative(cs)
    ensures 0.0 <= KnownWeight(cs) <= ApplicableWeight(cs)
  {
    hide Applicable, CountsAsKnown, Weight;
    if cs != [] {
      KnownWithinApplicable(cs[..|cs| - 1]);
    }
  }

  lemma Ratio(x: real, y: real, t: real)
    requires t > 0.0
    ensures x <= y <==> x / t <= y / t
    ensures 0.0 <= x <= t ==> 0.0 <= x / t <= 1.0
  {
    assert x == x / t * t && y == y / t * t;
  }

  function Over(x: real, t: real): real
    requires t > 0.0
  {
    x / t
  }

  lemma SumOver(x: real, y: real, t: real)
    requires t > 0.0
    ensures Over(x + y, t) == Over(x, t) + Over(y, t) && Over(0.0, t) == 0.0
  {
  }

  /** N/A children weigh nothing, wherever they stand. */
  lemma NotApplicableIsTransparent(a: seq<Child>, c: Child, b: seq<Child>)
    requires Classify(c) == NotApplicable
    ensures Coverage(a + [c] + b) == Coverage(a + b)
    ensures Renormalized(a + [c] + b) == Renormalized(a + b)
  {
    hide Classify, CountsAsKnown, Weight, Renormalized, Ident, LastWeights;
    WeightsAround(a, c, b);
    WeightsAppend(a, b);
    EntriesAppend(a + [c], b);
    EntriesAppend(a, [c]);
    EntriesAppend(a, b);
    assert [c][..0] == [];
    assert Entries([c]) == Entries([]) + [];
    assert Entries(a) + [] == Entries(a);
    RenormalizedByEntries(a + [c] + b, a + b);
  }

  /** Learning a child never lowers coverage, and raises it exactly when the child has weight. */
  lemma LearningRaisesCoverage(a: seq<Child>, c: Child, learnt: Child, b: seq<Child>)
    requires NonNegative(a + [c] + b)
    requires Applicable(c) && !CountsAsKnown(c) && CountsAsKnown(learnt) && Weight(learnt) == Weight(c)
    ensures Coverage(a + [learnt] + b) >= Coverage(a + [c] + b)
    ensures Coverage(a + [learnt] + b) > Coverage(a + [c] + b) <==> Weight(c) > 0.0
  {
    KnownExactly(learnt);
    hide Applicable, CountsAsKnown, Weight, Clip;
    var before, after := a + [c] + b, a + [learnt] + b;
    assert before[|a|] == c && Weight(c) >= 0.0;
    forall i | 0 <= i < |after| ensures Weight(after[i]) >= 0.0 {
      assert i != |a| ==> after[i] == before[i];
    }
    WeightsAround(a, c, b);
    WeightsAround(a, learnt, b);
    KnownWithinApplicable(before);
    KnownWithinApplicable(after);
    var total := ApplicableWeight(before);
    if total > 0.0 {
      Ratio(KnownWeight(before), KnownWeight(after), total);
      Ratio(KnownWeight(after), KnownWeight(before), total);
    }
  }

  // ---- renormalised weights ------------------------------------------------------------

  type Entry = (string, real)

  /** What `renormalize_weights` collects: identifier and weight of every applicable child that has an
      identifier. */
  function Entries(cs: seq<Child>): seq<Entry> {
    if cs == [] then []
    else
      var c := cs[|cs| - 1];
      Entries(cs[..|cs| - 1]) + (if Applicable(c) && Ident(c).Some? then [(Ident(c).value, Weight(c))] else [])
  }

  function Total(es: seq<Entry>): real {
    if es == [] then 0.0 else Total(es[..|es| - 1]) + es[|es| - 1].1
  }

  /** The weight under each identifier: a repeated identifier keeps its last weight. */
  function LastWeights(es: seq<Entry>): map<string, real> {
    if es == [] then map[] else LastWeights(es[..|es| - 1])[es[|es| - 1].0 := es[|es| - 1].1]
  }

  /** Weight lost because a later child has the same identifier. */
  function Overwritten(es: seq<Entry>): real {
    if es == [] then 0.0
    else
      var front, id := LastWeights(es[..|es| - 1]), es[|es| - 1].0;
      Overwritten(es[..|es| - 1]) + (if id in front then front[id] else 0.0)
  }

  function Divided(m: map<string, real>, t: real): map<string, real>
    requires t > 0.0
  {
    map id | id in m :: Over(m[id], t)
  }

  function Renormalized(cs: seq<Child>): map<string, real> {
    var es := Entries(cs);
    if Total(es) <= 0.0 then map[] else Divided(LastWeights(es), Total(es))
  }

  lemma RenormalizedByEntries(a: seq<Child>, b: seq<Child>)
    requires Entries(a) == Entries(b)
    ensures Renormalized(a) == Renormalized(b)
  {
  }

  lemma {:induction false} EntriesAppend(a: seq<Child>, b: seq<Child>)
    ensures Entries(a + b) == Entries(a) + Entries(b)
  {
    hide Applicable, Ident, Weight;
    if b == [] {
      assert a + b == a;
    } else {
      assert (a + b)[..|a + b| - 1] == a + b[..|b| - 1];
      EntriesAppend(a, b[..|b| - 1]);
    }
  }

  method CollectEntries(children: seq<Child>) returns (es: seq<Entry>, total: real)
    ensures es == Entries(children) && total == Total(es)
  {
    hide Applicable, Ident, Weight;
    es, total := [], 0.0;
    for i := 0 to |children|
      invariant es == Entries(children[..i])
      invariant total == Total(es)
    {
      assert children[..i + 1][..i] == children[..i];
      var c := children[i];
      if Applicable(c) && Ident(c).Some? {
        TotalAppend(es, (Ident(c).value, Weight(c)));
        es := es + [(Ident(c).value, Weight(c))];
        total := total + Weight(c);
      }
    }
    assert children[..|children|] == children;
  }

  /** `renormalize_weights`. */
  method RenormalizeWeights(children: seq<Child>) returns (weights: map<string, real>)
    ensures weights == Renormalized(children)
  {
    hide Entries, Total;
    var es, total := CollectEntries(children);
    if total <= 0.0 {
      return map[];
    }
    weights := map[];
    for i := 0 to |es|
      invariant weights == Divided(LastWeights(es[..i]), total)
    {
      assert es[..i + 1][..i] == es[..i];
      weights := weights[es[i].0 := es[i].1 / total];
    }
    assert es[..|es|] == es;
  }

  ghost function MapSum(m: map<string, real>): real {
    if m == map[] then 0.0
    else
      var k :| k in m;
      m[k] + MapSum(m - {k})
  }

  lemma {:induction false} MapSumOf(m: map<string, real>, k: string)
    requires k in m
    ensures MapSum(m) == m[k] + MapSum(m - {k})
    decreases |m|
  {
    var j :| j in m && MapSum(m) == m[j] + MapSum(m - {j});
    if j != k {
      MapSumOf(m - {j}, k);
      MapSumOf(m - {k}, j);
      assert m - {j} - {k} == m - {k} - {j};
    }
  }

  lemma MapSumEmpty()
    ensures MapSum(map[]) == 0.0
  {
  }

  lemma DividedStep(m: map<string, real>, k: string, t: real)
    requires t > 0.0 && k in m
    ensures k in Divided(m, t) && Divided(m, t)[k] == Over(m[k], t)
    ensures Divided(m, t) - {k} == Divided(m - {k}, t)
  {
    hide Over;
  }

  lemma {:induction false} MapSumDivided(m: map<string, real>, t: real)
    requires t > 0.0
    ensures MapSum(Divided(m, t)) == Over(MapSum(m), t)
    decreases |m|
  {
    hide MapSum, Over, Divided;
    if m == map[] {
      MapSumEmpty();
      SumOver(0.0, 0.0, t);
      assert Divided(m, t) == map[] by { DividedEmpty(t); }
    } else {
      var k :| k in m;
      DividedStep(m, k, t);
      MapSumOf(m, k);
      MapSumOf(Divided(m, t), k);
      MapSumDivided(m - {k}, t);
      SumOver(m[k], MapSum(m - {k}), t);
    }
  }

  lemma DividedEmpty(t: real)
    requires t > 0.0
    ensures Divided(map[], t) == map[]
  {
  }

  /** Weight is either kept under its identifier or overwritten. */
  lemma {:induction false} KeptAndOverwritten(es: seq<Entry>)
    ensures MapSum(LastWeights(es)) + Overwritten(es) == Total(es)
  {
    if es != [] {
      var front, e := es[..|es| - 1], es[|es| - 1];
      KeptAndOverwritten(front);
      var m := LastWeights(front);
      MapSumOf(m[e.0 := e.1], e.0);
      assert m[e.0 := e.1] - {e.0} == m - {e.0};
      if e.0 in m {
        MapSumOf(m, e.0);
      } else {
        assert m - {e.0} == m;
      }
    }
  }

  /** Conservation: the renormalised weights and the overwritten share add up to 1, whenever the
      applicable total is positive. */
  lemma RenormalizedSum(cs: seq<Child>)
    requires Total(Entries(cs)) > 0.0
    ensures MapSum(Renormalized(cs)) + Overwritten(Entries(cs)) / Total(Entries(cs)) == 1.0
  {
    hide Entries, LastWeights, Overwritten, Total, Divided, MapSum, Over;
    var es := Entries(cs);
    KeptAndOverwritten(es);
    MapSumDivided(LastWeights(es), Total(es));
    SumOver(MapSum(LastWeights(es)), Overwritten(es), Total(es));
    OverIs(Overwritten(es), Total(es));
  }

  lemma OverIs(x: real, t: real)
    requires t > 0.0
    ensures Over(x, t) == x / t && Over(t, t) == 1.0
  {
  }

  predicate DistinctIds(es: seq<Entry>) { forall i, j :: 0 <= i < j < |es| ==> es[i].0 != es[j].0 }

  lemma {:induction false} KeysOfLast(es: seq<Entry>, id: string)
    ensures id in LastWeights(es) <==> exists i :: 0 <= i < |es| && es[i].0 == id
  {
    if es != [] {
      var n := |es| - 1;
      KeysOfLast(es[..n], id);
      assert forall i :: 0 <= i < n ==> es[..n][i] == es[i];
    }
  }

  lemma {:induction false} DistinctNothingLost(es: seq<Entry>)
    requires DistinctIds(es)
    ensures Overwritten(es) == 0.0
    ensures forall i :: 0 <= i < |es| ==> es[i].0 in LastWeights(es) && LastWeights(es)[es[i].0] == es[i].1
  {
    if es != [] {
      var n := |es| - 1;
      var front := es[..n];
      assert forall i :: 0 <= i < n ==> front[i] == es[i];
      DistinctNothingLost(front);
      KeysOfLast(front, es[n].0);
      forall i | 0 <= i < n ensures es[i].0 in LastWeights(es) && LastWeights(es)[es[i].0] == es[i].1 {
        assert front[i].0 in LastWeights(front);
      }
    }
  }

  /** Over distinct identifiers the renormalised weights sum to 1. */
  lemma DistinctSumToOne(cs: seq<Child>)
    requires Total(Entries(cs)) > 0.0 && DistinctIds(Entries(cs))
    ensures MapSum(Renormalized(cs)) == 1.0
  {
    hide Entries, Renormalized;
    RenormalizedSum(cs);
    DistinctNothingLost(Entries(cs));
  }

  /** Sum of `weights` over the children that count as known. */
  function KnownShare(cs: seq<Child>, weights: map<string, real>): real {
    if cs == [] then 0.0
    else
      var c := cs[|cs| - 1];
      KnownShare(cs[..|cs| - 1], weights)
      + (if CountsAsKnown(c) && Ident(c).Some? && Ident(c).value in weights then weights[Ident(c).value] else 0.0)
  }

  predicate Named(cs: seq<Child>) { forall i :: 0 <= i < |cs| ==> Ident(cs[i]).Some? }

  lemma TotalAppend(es: seq<Entry>, e: Entry)
    ensures Total(es + [e]) == Total(es) + e.1
  {
    assert (es + [e])[..|es|] == es;
  }

  lemma {:induction false} TotalIsApplicable(cs: seq<Child>)
    requires Named(cs)
    ensures Total(Entries(cs)) == ApplicableWeight(cs)
  {
    hide Applicable, Ident, Weight;
    if cs != [] {
      var front, c := cs[..|cs| - 1], cs[|cs| - 1];
      TotalIsApplicable(front);
      assert Ident(c).Some?;
      assert Entries(front) + [] == Entries(front);
      TotalAppend(Entries(front), (Ident(c).value, Weight(c)));
    }
  }

  /** The weight a counted child finds under its identifier is its own. */
  lemma OwnWeight(front: seq<Child>, c: Child, rest: seq<Child>, t: real)
    requires t > 0.0 && Ident(c).Some? && Applicable(c) && DistinctIds(Entries(front + [c] + rest))
    ensures var weights := Divided(LastWeights(Entries(front + [c] + rest)), t);
            Ident(c).value in weights && weights[Ident(c).value] == Over(Weight(c), t)
  {
    hide Applicable, Ident, Weight, Over, LastWeights;
    var es := Entries(front + [c] + rest);
    EntriesAppend(front + [c], rest);
    EntriesLast(front, c);
    DistinctNothingLost(es);
    assert es[|Entries(front)|] == (Ident(c).value, Weight(c));
  }

  lemma EntriesLast(front: seq<Child>, c: Child)
    requires Ident(c).Some? && Applicable(c)
    ensures Entries(front + [c]) == Entries(front) + [(Ident(c).value, Weight(c))]
  {
    assert (front + [c])[..|front|] == front;
  }

  lemma {:induction false} KnownShareIs(cs: seq<Child>, rest: seq<Child>, t: real)
    requires t > 0.0 && Named(cs) && DistinctIds(Entries(cs + rest))
    ensures KnownShare(cs, Divided(LastWeights(Entries(cs + rest)), t)) == Over(KnownWeight(cs), t)
  {
    hide Applicable, Ident, Weight, CountsAsKnown, Over, Entries, LastWeights, DistinctIds, Divided;
    SumOver(0.0, 0.0, t);
    if cs != [] {
      var front, c := cs[..|cs| - 1], cs[|cs| - 1];
      assert front + ([c] + rest) == cs + rest && front + [c] + rest == cs + rest;
      KnownShareIs(front, [c] + rest, t);
      KnownIsApplicable(c);
      if CountsAsKnown(c) {
        OwnWeight(front, c, rest, t);
        SumOver(KnownWeight(front), Weight(c), t);
      }
    }
  }

  lemma KnownIsApplicable(c: Child)
    ensures CountsAsKnown(c) ==> Applicable(c)
  {
    KnownExactly(c);
  }

  /** The two functions agree: data coverage is the sum of the renormalised weights of the children
      that count as known. */
  lemma CoverageIsKnownShare(cs: seq<Child>)
    requires NonNegative(cs) && Named(cs) && DistinctIds(Entries(cs)) && ApplicableWeight(cs) > 0.0
    ensures Coverage(cs) == KnownShare(cs, Renormalized(cs))
  {
    hide Entries, LastWeights, KnownShare, ApplicableWeight, KnownWeight, Divided, NonNegative, Named, DistinctIds;
    TotalIsApplicable(cs);
    assert cs + [] == cs;
    KnownShareIs(cs, [], ApplicableWeight(cs));
    KnownWithinApplicable(cs);
    Ratio(KnownWeight(cs), KnownWeight(cs), ApplicableWeight(cs));
  }

  // ---- weights and texts --------------------------------------------------------------------

  /** What a child weighs: the active weight if there is one, else the base weight, else 1; a weight that is not
      a number weighs 1. */
  predicate Weighs(c: Child, w: real) {
    || c.activeWeight == Number(w)
    || (c.activeWeight == Absent && c.baseWeight == Number(w))
    || (w == 1.0 && (c.activeWeight == NotNumber || (c.activeWeight == Absent && !c.baseWeight.Number?)))
  }

  /** One known and one unknown child: coverage is the known one's share of the two weights. */
  lemma CoverageOfTwo(a: Child, b: Child, x: real, y: real)
    requires CountsAsKnown(a) && Applicable(b) && !CountsAsKnown(b)
    requires Weighs(a, x) && Weighs(b, y) && x >= 0.0 && y >= 0.0 && x + y > 0.0
    ensures Coverage([a, b]) == x / (x + y)
  {
    KnownExactly(a);
    hide Applicable, CountsAsKnown;
    WeightsAppend([a], [b]);
    WeightsOfOne(a);
    WeightsOfOne(b);
    assert [a] + [b] == [a, b];
    Ratio(x, y, x + y);
    Ratio(x, x + y, x + y);
  }

  lemma ClassOfStatus(c: Child)
    requires !Tiny(c)
    ensures c.status == Some("Known") ==> Classify(c) == Known
    ensures c.status == Some("N/A") ==> Classify(c) == NotApplicable
    ensures c.status == Some("Unknown") ==> Classify(c) == Unknown
  {
    assert Strip("Known") == "Known" && Strip("N/A") == "N/A" && Strip("Unknown") == "Unknown";
  }

  lemma ClassOfSpelling(c: Child)
    ensures c.status == Some("NA") || c.status == Some("n/a") ==> Classify(c) == NotApplicable
    ensures c.status == Some("LowMateriality") ==> Classify(c) == LowMateriality
  {
    assert Strip("NA") == "NA" && Strip("n/a") == "n/a" && Strip("LowMateriality") == "LowMateriality";
  }

  lemma ClassOfQuietStatus(c: Child)
    ensures c.status == Some("Inactive") ==> Classify(c) == Inactive
    ensures c.status == Some("Optionality") ==> Classify(c) == Optionality
    ensures c.status == Some("Low Materiality") ==> Classify(c) == LowMateriality
  {
    assert Strip("Inactive") == "Inactive" && Strip("Optionality") == "Optionality" && Strip("Low Materiality") == "Low Materiality";
  }

  lemma ClassOfPolicy(c: Child)
    requires c.status.None?
    ensures c.policy == "not_applicable_remove" ==> Classify(c) == NotApplicable
    ensures c.policy == "unknown_reduce_confidence" ==> Classify(c) == Unknown
    ensures c.policy == "inactive_zero_weight" ==> Classify(c) == Inactive
    ensures c.policy == "optionality_track" ==> Classify(c) == Optionality
    ensures c.policy == "low_materiality_fold" ==> Classify(c) == LowMateriality
    ensures c.policy == "known" && !Tiny(c) ==> Classify(c) == Known
    ensures c.policy == "" && !Tiny(c) ==> Classify(c) == Unknown
  {
    PolicyTexts(c.policy);
    OtherPolicyTexts(c.policy);
    hide ParsePolicy;
  }

  lemma PolicyTexts(p: string)
    ensures p == "not_applicable_remove" ==> ParsePolicy(p) == Some(NotApplicable)
    ensures p == "unknown_reduce_confidence" ==> ParsePolicy(p) == Some(Unknown)
    ensures p == "inactive_zero_weight" ==> ParsePolicy(p) == Some(Inactive)
  {
    assert Strip("not_applicable_remove") == "not_applicable_remove";
    assert Strip("unknown_reduce_confidence") == "unknown_reduce_confidence";
    assert Strip("inactive_zero_weight") == "inactive_zero_weight";
  }

  lemma OtherPolicyTexts(p: string)
    ensures p == "optionality_track" ==> ParsePolicy(p) == Some(Optionality)
    ensures p == "low_materiality_fold" ==> ParsePolicy(p) == Some(LowMateriality)
    ensures p == "known" ==> ParsePolicy(p) == Some(Known)
    ensures p == "" ==> ParsePolicy(p) == None
  {
    assert Strip("known") == "known";
    assert Strip("optionality_track") == "optionality_track";
    assert Strip("low_materiality_fold") == "low_materiality_fold";
    assert Strip("") == "";
  }

  /** How a child's class reads off its status, and off its missing policy when it has no status. */
  lemma ClassWords(c: Child)
    requires !Tiny(c)
    ensures c.status == Some("Known") ==> Classify(c) == Known
    ensures c.status == Some("Unknown") ==> Classify(c) == Unknown
    ensures c.status == Some("N/A") || c.status == Some("NA") || c.status == Some("n/a") ==> Classify(c) == NotApplicable
    ensures c.status == Some("Inactive") ==> Classify(c) == Inactive
    ensures c.status == Some("Optionality") ==> Classify(c) == Optionality
    ensures c.status == Some("Low Materiality") || c.status == Some("LowMateriality") ==> Classify(c) == LowMateriality
    ensures c.status == None && c.policy == "not_applicable_remove" ==> Classify(c) == NotApplicable
    ensures c.status == None && c.policy == "unknown_reduce_confidence" ==> Classify(c) == Unknown
    ensures c.status == None && c.policy == "inactive_zero_weight" ==> Classify(c) == Inactive
    ensures c.status == None && c.policy == "optionality_track" ==> Classify(c) == Optionality
    ensures c.status == None && c.policy == "low_materiality_fold" ==> Classify(c) == LowMateriality
    ensures c.status == None && c.policy == "known" ==> Classify(c) == Known
    ensures c.status == None && c.policy == "" ==> Classify(c) == Unknown
  {
    hide Classify;
    ClassOfStatus(c);
    ClassOfSpelling(c);
    ClassOfQuietStatus(c);
    if c.status.None? {
      ClassOfPolicy(c);
    }
  }

  /** With no applicable weight there is no coverage and there are no weights. */
  lemma {:induction false} NothingApplies(cs: seq<Child>)
    requires forall i :: 0 <= i < |cs| ==> Classify(cs[i]) == NotApplicable || Weight(cs[i]) == 0.0
    ensures Coverage(cs) == 0.0 && Renormalized(cs) == map[]
    ensures ApplicableWeight(cs) == 0.0 && Total(Entries(cs)) == 0.0
  {
    hide Classify, Weight, Ident;
    if cs != [] {
      var front, c := cs[..|cs| - 1], cs[|cs| - 1];
      NothingApplies(front);
      assert Entries(front) + [] == Entries(front);
      if Applicable(c) && Ident(c).Some? {
        TotalAppend(Entries(front), (Ident(c).value, Weight(c)));
      }
    }
  }

  /** White space around a status makes no difference. */
  lemma ClassPadded(c: Child, a: string, text: string, b: string)
    requires White(a) && White(b)
    ensures Classify(c.(status := Some(a + text + b))) == Classify(c.(status := Some(text)))
  {
    hide Strip;
    StripPadded(a, text, b);
  }

  /** A Known child that is immaterial is counted as such, yet still counts as known. */
  lemma TinyKnown(c: Child, x: real)
    requires c.status == Some("Known") && c.materiality == Number(x)
    ensures Classify(c) == (if x < 0.05 then LowMateriality else Known) && CountsAsKnown(c)
  {
    assert Strip("Known") == "Known";
  }
}
