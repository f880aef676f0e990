/** The registry as shipped: seventeen formulas, one of which (`L8.val.priced_in`) is
    registered before an output it reads (`L11.short.score`). */
module ShippedRegistry {
  import opened Basics
  import opened DeriveEngine
  import opened DeriveConvergence

  const LENGTH: nat := 17

  /** The place of an output in the registry; `LENGTH` for every other dp_id. */
  function Place(dp: Dp): nat {
    match dp
    case EnvRiskAppetite => 0
    case MoodFomo => 1
    case ValExpansionCompression => 2
    case DemandSupply => 3
    case PriceWar => 4
    case PricedIn => 5
    case PathTag => 6
    case SecondDerivative => 7
    case SensGrowthMargin => 8
    case SensCashflow => 9
    case SensRates => 10
    case SensRiskNarrative => 11
    case ShortScore => 12
    case MidScore => 13
    case LongScore => 14
    case Mode => 15
    case TradeSignal => 16
    case _ => LENGTH
  }

  /** Formulas that read collected rows only. */
  function CollectedInputs(output: Dp): (r: seq<Dp>)
    ensures forall dp :: dp in r ==> dp.Other?
  {
    match output
    case EnvRiskAppetite => [Other("L7.env.market_trend"), Other("L7.env.style"), Other("L9.macro.liquidity"), Other("L9.macro.rates")]
    case MoodFomo => [Other("L7.mood.media_social"), Other("L7.flow.active_inflow"), Other("L7.mood.theme")]
    case ValExpansionCompression => [Other("L6.state.expansion_compression")]
    case DemandSupply => [Other("L0.demand.terminal"), Other("L0.supply.capacity"), Other("L0.supply.inventory"), Other("L0.demand.replacement")]
    case PriceWar => [Other("L0.price.discount"), Other("L0.compete.price_war"), Other("L0.price.pricing_power")]
    case PathTag => [Other("L6.mult.pe"), Other("L6.state.historical_percentile"), Other("L10.val.historical_quantile"), Other("L6.state.expansion_compression")]
    case SecondDerivative => [Other("L6.state.historical_percentile"), Other("L6.priced.run_up")]
    case SensGrowthMargin => [Other("L5.fina.gross_margin"), Other("L5.fina.revenue_yoy")]
    case SensCashflow => [Other("L5.fina.ocf_quality"), Other("L5.cf.fcf")]
    case SensRates => [Other("L7.env.rates"), Other("L9.macro.rates")]
    case SensRiskNarrative => [Other("L9.media.report"), Other("L9.event.intraday_news"), Other("L5.surprise.sell_side")]
    case _ => []
  }

  function InputsOf(output: Dp): seq<Dp> {
    match output
    case PricedIn => [Other("L6.priced.run_up"), ShortScore, Other("L8.val.overvalued")]
    case ShortScore => [EventImpact, FlowBoost, SentimentShift, Technical]
    case MidScore => [OrdersRevenue, MarginGuidance, EpsUpward]
    case LongScore => [IndustrySpace, CompeteMoat, BusinessModel, NetMargin]
    case Mode => [ShortScore, MidScore, LongScore, Other("L8.val.overvalued"), Other("L7.flow.active_inflow")]
    case TradeSignal => [ShortScore, MidScore, LongScore, Mode]
    case _ => CollectedInputs(output)
  }

  const SUB_SCORES: set<Dp> :=
    {EventImpact, FlowBoost, SentimentShift, Technical, OrdersRevenue, MarginGuidance, EpsUpward,
     IndustrySpace, CompeteMoat, BusinessModel, NetMargin}

  /** An engine wired as shipped, whatever its formulas compute. */
  ghost predicate Shipped(e: Engine) {
    && WellFormed(e) && e.bootKeys == SUB_SCORES
    && |e.registry| == LENGTH
    && forall i :: 0 <= i < LENGTH ==>
         Place(e.registry[i].output) == i && e.registry[i].inputs == InputsOf(e.registry[i].output)
  }

  lemma WiredInputs(output: Dp, dp: Dp)
    requires dp in InputsOf(output) && Place(dp) < LENGTH
    ensures (output == PricedIn && dp == ShortScore) || (Place(output) >= 15 && 12 <= Place(dp) < Place(output) < LENGTH)
  {
    hide CollectedInputs;
    if dp in CollectedInputs(output) {
      CollectedIsOutside(dp);
    }
  }

  lemma CollectedIsOutside(dp: Dp)
    ensures dp.Other? ==> Place(dp) == LENGTH
  {
  }

  /** Only `L8.val.priced_in`, at place 5, reads an output (place 12) registered no earlier. */
  lemma ShippedLinks(e: Engine, i: nat, j: nat)
    requires Shipped(e) && i < LENGTH && j < LENGTH && DependsOn(e, i, j)
    ensures (i == 5 && j == 12) || (i >= 15 && 12 <= j < i)
  {
    WiredInputs(e.registry[i].output, e.registry[j].output);
  }

  const LATE: seq<nat> := [0, 0, 0, 0, 0, 1, 0, 0, 0, 0, 0, 0, 0, 0, 0, 0, 0]

  lemma ShippedLateBound(e: Engine)
    requires Shipped(e)
    ensures LateBound(e, LATE) && AtMost(LATE, 1)
  {
    forall i, j | 0 <= i < |LATE| && 0 <= j < |LATE| && DependsOn(e, i, j)
      ensures LATE[j] + Late(i, j) <= LATE[i]
    {
      ShippedLinks(e, i, j);
    }
  }

  /** Two runs settle the shipped registry, from any store. */
  lemma ShippedSettlesInTwo(e: Engine, w: World, u: World)
    requires Shipped(e) && SameHard(e, w, u)
    ensures Run(e, Run(e, Run(e, w))) == Run(e, Run(e, w)) == Run(e, Run(e, u))
  {
    hide Run, LateBound;
    ShippedLateBound(e);
    Convergence(e, LATE, 1, w, u, 2, 2);
    TwoRuns(e, w);
    TwoRuns(e, u);
  }

  lemma TwoRuns(e: Engine, w: World)
    ensures Runs(e, w, 2) == Run(e, Run(e, w))
  {
    assert Runs(e, w, 1) == Run(e, Runs(e, w, 0));
  }

  /** The guard the score formulas open with: no non-empty input, no result; otherwise a result. */
  ghost predicate GuardedByInputs(fn: seq<Option<Payload>> -> Option<Payload>, arity: nat) {
    forall ps: seq<Option<Payload>> :: |ps| == arity ==>
      && (fn(ps).Some? <==> exists k :: 0 <= k < |ps| && ps[k].Some? && ps[k].value != map[])
      && (fn(ps).Some? ==> "_inactive" !in fn(ps).value)
  }

  /** One run is not enough: starting from an empty store, `L8.val.priced_in` is Inactive after the
      first run and Known after the second. */
  lemma ShippedNeedsTwo(e: Engine)
    requires Shipped(e)
    requires GuardedByInputs(e.registry[5].fn, 3) && GuardedByInputs(e.registry[12].fn, 4)
    requires forall rows :: EventImpact in e.bootstrap(rows) && e.bootstrap(rows)[EventImpact] != map[]
    ensures var once := Run(e, World(map[], map[])); var twice := Run(e, once);
            && Get(once.stock, PricedIn).Some? && once.stock[PricedIn].status == Inactive
            && Get(twice.stock, PricedIn).Some? && twice.stock[PricedIn].status == Known
  {
    hide Run, EmitAll, EmitFirst, ReadAll, Inputs, GuardedByInputs;
    var w := World(map[], map[]);
    var once := Run(e, w);
    assert Place(e.registry[5].output) == 5 && Place(e.registry[12].output) == 12;
    OutputRow(e, w, 5);
    OutputRow(e, w, 12);
    OutputRow(e, once, 5);
    FirstPricedIn(e, w);
    FirstShortScore(e, w);
    assert "confidence" in EmitAll(e, w)[ShortScore] - {"_input_conf"};
    SecondPricedIn(e, once);
  }

  /** The `k`-th argument a formula is called with. */
  lemma Argument(a: map<Dp, Payload>, rows: map<Dp, Row>, inputs: seq<Dp>, k: nat)
    requires k < |inputs|
    ensures |Payloads(ReadAll(a, rows, inputs))| == |inputs|
    ensures Payloads(ReadAll(a, rows, inputs))[k] == Read(a, rows, inputs[k]).payload
  {
    ReadAllAre(a, rows, inputs);
    PayloadsAre(ReadAll(a, rows, inputs));
  }

  lemma GuardFails(fn: seq<Option<Payload>> -> Option<Payload>, ps: seq<Option<Payload>>)
    requires GuardedByInputs(fn, |ps|) && forall k :: 0 <= k < |ps| ==> ps[k] == None
    ensures fn(ps) == None
  {
  }

  lemma GuardPasses(fn: seq<Option<Payload>> -> Option<Payload>, ps: seq<Option<Payload>>, k: nat)
    requires GuardedByInputs(fn, |ps|) && k < |ps| && ps[k].Some? && ps[k].value != map[]
    ensures fn(ps).Some? && "_inactive" !in fn(ps).value
  {
  }

  /** What place 5 reads, in any run: nothing fresh, since its one derived input comes later. */
  lemma PricedInReads(e: Engine, w: World)
    requires Shipped(e)
    ensures var rows := Inputs(e, w);
            Get(EmitAll(e, w), PricedIn) == Some(Emission(e, e.registry[5], ReadAll(EmitFirst(e, rows, 5), rows, InputsOf(PricedIn))))
    ensures forall dp :: dp in InputsOf(PricedIn) ==> dp !in EmitFirst(e, Inputs(e, w), 5)
  {
    hide Emission, ReadAll, Inputs, CollectedInputs;
    assert Place(e.registry[5].output) == 5;
    EmitStable(e, Inputs(e, w), 5, |e.registry|);
    EmitKeys(e, Inputs(e, w), 5);
    forall k, dp | 0 <= k < 5 && dp in InputsOf(PricedIn) ensures e.registry[k].output != dp {
      assert Place(e.registry[k].output) == k;
    }
  }

  lemma NoRowsButBoot(e: Engine, dp: Dp)
    requires WellFormed(e) && dp !in e.bootKeys
    ensures dp !in Inputs(e, World(map[], map[]))
  {
    BootKeysAre(e, UsableRows(World(map[], map[])));
  }

  lemma FirstPricedIn(e: Engine, w: World)
    requires Shipped(e) && GuardedByInputs(e.registry[5].fn, 3) && w == World(map[], map[])
    ensures PricedIn in EmitAll(e, w) && IsInactive(EmitAll(e, w)[PricedIn])
  {
    hide EmitAll, EmitFirst, ReadAll, Payloads, Inputs, GuardedByInputs, WellFormed;
    PricedInReads(e, w);
    var rows := Inputs(e, w);
    var before := EmitFirst(e, rows, 5);
    var inputs := InputsOf(PricedIn);
    var ps := Payloads(ReadAll(before, rows, inputs));
    Argument(before, rows, inputs, 0);
    forall k | 0 <= k < |ps| ensures ps[k] == None {
      Argument(before, rows, inputs, k);
      assert inputs[k] in inputs;
      NoRowsButBoot(e, inputs[k]);
    }
    GuardFails(e.registry[5].fn, ps);
  }

  lemma ShortScoreReads(e: Engine, w: World)
    requires Shipped(e)
    ensures var rows := Inputs(e, w);
            Get(EmitAll(e, w), ShortScore) == Some(Emission(e, e.registry[12], ReadAll(EmitFirst(e, rows, 12), rows, InputsOf(ShortScore))))
    ensures EventImpact !in EmitFirst(e, Inputs(e, w), 12)
  {
    hide Emission, ReadAll, Inputs;
    assert Place(e.registry[12].output) == 12;
    EmitStable(e, Inputs(e, w), 12, |e.registry|);
    EmitKeys(e, Inputs(e, w), 12);
    forall k | 0 <= k < 12 ensures e.registry[k].output != EventImpact {
      assert Place(e.registry[k].output) == k;
    }
  }

  lemma BootInput(e: Engine, w: World, dp: Dp)
    requires WellFormed(e) && dp in e.bootKeys
    ensures dp in BootPayloads(e, UsableRows(w))
    ensures Get(Inputs(e, w), dp) == Some(BootRow(BootPayloads(e, UsableRows(w))[dp]))
  {
  }

  lemma FirstShortScore(e: Engine, w: World)
    requires Shipped(e) && GuardedByInputs(e.registry[12].fn, 4)
    requires forall rows :: EventImpact in e.bootstrap(rows) && e.bootstrap(rows)[EventImpact] != map[]
    ensures ShortScore in EmitAll(e, w) && !IsInactive(EmitAll(e, w)[ShortScore])
    ensures "confidence" in EmitAll(e, w)[ShortScore]
  {
    hide EmitAll, EmitFirst, ReadAll, Payloads, Inputs, GuardedByInputs, WellFormed;
    ShortScoreReads(e, w);
    var rows := Inputs(e, w);
    var before := EmitFirst(e, rows, 12);
    BootInput(e, w, EventImpact);
    var inputs := InputsOf(ShortScore);
    Argument(before, rows, inputs, 0);
    var ps := Payloads(ReadAll(before, rows, inputs));
    GuardPasses(e.registry[12].fn, ps, 0);
  }

  lemma SecondPricedIn(e: Engine, once: World)
    requires Shipped(e) && GuardedByInputs(e.registry[5].fn, 3)
    requires ShortScore in once.stock && once.stock[ShortScore].status == Known
    requires once.stock[ShortScore].value.Dict? && once.stock[ShortScore].value.fields != map[]
    ensures PricedIn in EmitAll(e, once) && !IsInactive(EmitAll(e, once)[PricedIn])
  {
    hide EmitAll, EmitFirst, ReadAll, Payloads, Inputs, GuardedByInputs;
    PricedInReads(e, once);
    var rows := Inputs(e, once);
    assert Place(e.registry[12].output) == 12;
    OutputInput(e, once, 12);
    var before := EmitFirst(e, rows, 5);
    var inputs := InputsOf(PricedIn);
    assert ShortScore in inputs;
    Argument(before, rows, inputs, 1);
    GuardPasses(e.registry[5].fn, Payloads(ReadAll(before, rows, inputs)), 1);
  }
}
