/** The snapshot-derive driver for one company: formulas run in registration order,
    read fresh outputs before stored rows, and write back into the store they read. */
module DeriveEngine {
  import opened Basics

  /** The dp_ids wired together by the formula registry; every other dp_id is `Other`. */
  datatype Dp =
    | EnvRiskAppetite | MoodFomo | ValExpansionCompression
    | DemandSupply | PriceWar | PricedIn
    | PathTag | SecondDerivative | SensGrowthMargin | SensCashflow | SensRates | SensRiskNarrative
    | ShortScore | MidScore | LongScore | Mode | TradeSignal
    | EventImpact | FlowBoost | SentimentShift | Technical
    | OrdersRevenue | MarginGuidance | EpsUpward
    | IndustrySpace | CompeteMoat | BusinessModel | NetMargin
    | Other(id: string)

  datatype Value = Num(num: real) | Text(text: string) | Flag(on: bool) | Names(ids: seq<Dp>) | Dict(fields: Payload) | Nothing

  type Payload = map<string, Value>

  datatype RowStatus = Known | Inactive | Unknown | Unavailable | OtherStatus

  /** A row of the hot store, minus provenance and time stamp. */
  datatype Row = Row(value: Value, status: RowStatus, confidence: Option<real>)

  /** A formula maps the resolved inputs, in order, to a payload; a raised exception counts as None. */
  datatype Formula = Formula(output: Dp, inputs: seq<Dp>, fn: seq<Option<Payload>> -> Option<Payload>)

  /** The registry, the sub-score bootstrap with the dp_ids it reads and writes, and the governance
      neutral values. */
  datatype Engine = Engine(
    registry: seq<Formula>,
    bootstrap: map<Dp, Row> -> map<Dp, Payload>, bootReads: set<Dp>, bootKeys: set<Dp>,
    neutral: Dp -> real)

  /** The company's own rows, and the sentinel rows behind them. */
  datatype World = World(background: map<Dp, Row>, stock: map<Dp, Row>)

  /** Distinct outputs; the bootstrap always fills the same slots, reads none of the engine's own
      rows, and no formula writes a bootstrap slot. */
  ghost predicate WellFormed(e: Engine) {
    && (forall i, j :: 0 <= i < j < |e.registry| ==> e.registry[i].output != e.registry[j].output)
    && (forall u :: e.bootstrap(u).Keys == e.bootKeys)
    && (forall i :: 0 <= i < |e.registry| ==>
          e.registry[i].output !in e.bootKeys && e.registry[i].output !in e.bootReads)
    && e.bootKeys !! e.bootReads
  }

  function Snapshot(w: World): map<Dp, Row> { w.background + w.stock }

  predicate UsableStatus(s: RowStatus) { s == Known || s == OtherStatus }

  function UsableRows(w: World): map<Dp, Row> {
    map dp | dp in Snapshot(w) && UsableStatus(Snapshot(w)[dp].status) :: Snapshot(w)[dp]
  }

  function BootRow(p: Payload): Row { Row(Dict(p), Known, Some(0.5)) }

  function BootPayloads(e: Engine, usable: map<Dp, Row>): map<Dp, Payload> {
    e.bootstrap(map dp | dp in usable && dp in e.bootReads :: usable[dp])
  }

  function BootRows(e: Engine, usable: map<Dp, Row>): map<Dp, Row> {
    map dp | dp in BootPayloads(e, usable) :: BootRow(BootPayloads(e, usable)[dp])
  }

  /** Everything a formula can see besides fresh outputs. */
  function Inputs(e: Engine, w: World): map<Dp, Row> {
    UsableRows(w) + BootRows(e, UsableRows(w))
  }

  // ---- one formula --------------------------------------------------------------

  function NumAt(p: Payload, key: string, default: real): real {
    if key in p && p[key].Num? then p[key].num else default
  }

  function RowPayload(r: Row): Payload {
    if r.value.Dict? then r.value.fields else map["scalar" := r.value]
  }

  /** What one input resolves to: the payload, and the confidence it contributes. */
  datatype Reading = Reading(payload: Option<Payload>, confidence: Option<real>)

  function Read(emitted: map<Dp, Payload>, rows: map<Dp, Row>, dp: Dp): Reading {
    if dp in emitted then Reading(Some(emitted[dp]), Some(NumAt(emitted[dp], "_input_conf", 0.5)))
    else if dp in rows then Reading(Some(RowPayload(rows[dp])), rows[dp].confidence)
    else Reading(None, None)
  }

  function ReadAll(emitted: map<Dp, Payload>, rows: map<Dp, Row>, inputs: seq<Dp>): seq<Reading> {
    if inputs == [] then []
    else ReadAll(emitted, rows, inputs[..|inputs| - 1]) + [Read(emitted, rows, inputs[|inputs| - 1])]
  }

  function Payloads(rs: seq<Reading>): seq<Option<Payload>> {
    if rs == [] then [] else Payloads(rs[..|rs| - 1]) + [rs[|rs| - 1].payload]
  }

  /** The smallest confidence on offer, 0.5 when there is none. */
  function LowestConfidence(rs: seq<Reading>): Option<real> {
    if rs == [] then None
    else
      var front, last := LowestConfidence(rs[..|rs| - 1]), rs[|rs| - 1].confidence;
      if last.None? then front
      else if front.None? then last
      else Some(Min(front.value, last.value))
  }

  function Decay(conf: real): real { Max(0.0, Min(1.0, conf * 0.9)) }

  function InactivePayload(e: Engine, f: Formula): Payload {
    map["value" := Num(e.neutral(f.output)), "_inactive" := Flag(true), "missing_inputs" := Names(f.inputs)]
  }

  function KnownPayload(result: Payload, base: real): Payload {
    var p := result["_input_conf" := Num(base)];
    if "confidence" in p then p else p["confidence" := Num(Decay(base))]
  }

  function Emission(e: Engine, f: Formula, readings: seq<Reading>): Payload {
    var result := f.fn(Payloads(readings));
    if result.None? then InactivePayload(e, f)
    else KnownPayload(result.value, LowestConfidence(readings).GetOr(0.5))
  }

  // ---- one run --------------------------------------------------------------------

  /** The `emitted` dictionary after the first `k` formulas. */
  function EmitFirst(e: Engine, rows: map<Dp, Row>, k: nat): map<Dp, Payload>
    requires k <= |e.registry|
  {
    if k == 0 then map[]
    else
      var before := EmitFirst(e, rows, k - 1);
      var f := e.registry[k - 1];
      before[f.output := Emission(e, f, ReadAll(before, rows, f.inputs))]
  }

  function EmitAll(e: Engine, w: World): map<Dp, Payload> {
    EmitFirst(e, Inputs(e, w), |e.registry|)
  }

  predicate IsInactive(p: Payload) {
    "_inactive" in p && p["_inactive"] != Flag(false) && p["_inactive"] != Nothing
  }

  /** The persisted row: `_input_conf` stripped, confidence as the payload states it, else 0.5. */
  function Persisted(p: Payload): Row {
    Row(Dict(p - {"_input_conf"}), if IsInactive(p) then Inactive else Known, Some(NumAt(p, "confidence", 0.5)))
  }

  function PersistedRows(emitted: map<Dp, Payload>): map<Dp, Row> {
    map dp | dp in emitted :: Persisted(emitted[dp])
  }

  function Run(e: Engine, w: World): World {
    w.(stock := w.stock + BootRows(e, UsableRows(w)) + PersistedRows(EmitAll(e, w)))
  }

  function Runs(e: Engine, w: World, n: nat): World {
    if n == 0 then w else Run(e, Runs(e, w, n - 1))
  }

  lemma {:induction false} ReadAllAre(a: map<Dp, Payload>, rows: map<Dp, Row>, inputs: seq<Dp>)
    ensures |ReadAll(a, rows, inputs)| == |inputs|
    ensures forall k :: 0 <= k < |inputs| ==> ReadAll(a, rows, inputs)[k] == Read(a, rows, inputs[k])
  {
    if inputs != [] {
      ReadAllAre(a, rows, inputs[..|inputs| - 1]);
    }
  }

  lemma {:induction false} PayloadsAre(rs: seq<Reading>)
    ensures |Payloads(rs)| == |rs|
    ensures forall k :: 0 <= k < |rs| ==> Payloads(rs)[k] == rs[k].payload
  {
    if rs != [] {
      PayloadsAre(rs[..|rs| - 1]);
    }
  }

  // ---- the driver -------------------------------------------------------------------

  lemma ReadAllStep(emitted: map<Dp, Payload>, rows: map<Dp, Row>, inputs: seq<Dp>, i: nat)
    requires i < |inputs|
    ensures ReadAll(emitted, rows, inputs[..i + 1]) == ReadAll(emitted, rows, inputs[..i]) + [Read(emitted, rows, inputs[i])]
  {
    assert inputs[..i + 1][..i] == inputs[..i];
  }

  lemma ReadingsStep(rs: seq<Reading>, r: Reading)
    ensures Payloads(rs + [r]) == Payloads(rs) + [r.payload]
    ensures LowestConfidence(rs + [r]) ==
            if r.confidence.None? then LowestConfidence(rs)
            else if LowestConfidence(rs).None? then r.confidence
            else Some(Min(LowestConfidence(rs).value, r.confidence.value))
  {
    assert (rs + [r])[..|rs + [r]| - 1] == rs;
  }

  class DeriveRunner {
    const engine: Engine
    const background: map<Dp, Row>
    var stock: map<Dp, Row>

    function Store(): World
      reads this
    {
      World(background, stock)
    }

    constructor (e: Engine, w: World)
      ensures engine == e && Store() == w
    {
      engine, background, stock := e, w.background, w.stock;
    }

    /** One registry entry: resolve the inputs one by one, call the formula, build the payload. */
    method RunFormula(f: Formula, emitted: map<Dp, Payload>, rows: map<Dp, Row>) returns (payload: Payload)
      ensures payload == Emission(engine, f, ReadAll(emitted, rows, f.inputs))
    {
      hide ReadAll, Payloads, LowestConfidence, KnownPayload, InactivePayload;
      var payloads: seq<Option<Payload>> := [];
      var lowest: Option<real> := None;
      NoReadings(emitted, rows, f.inputs);
      for i := 0 to |f.inputs|
        invariant payloads == Payloads(ReadAll(emitted, rows, f.inputs[..i]))
        invariant lowest == LowestConfidence(ReadAll(emitted, rows, f.inputs[..i]))
        invariant f.inputs[..|f.inputs|] == f.inputs
      {
        var dp := f.inputs[i];
        ReadAllStep(emitted, rows, f.inputs, i);
        ReadingsStep(ReadAll(emitted, rows, f.inputs[..i]), Read(emitted, rows, dp));
        var conf: Option<real> := None;
        if dp in emitted {
          payloads := payloads + [Some(emitted[dp])];
          conf := Some(NumAt(emitted[dp], "_input_conf", 0.5));
        } else if dp !in rows {
          payloads := payloads + [None];
        } else {
          payloads := payloads + [Some(RowPayload(rows[dp]))];
          conf := rows[dp].confidence;
        }
        if conf.Some? {
          lowest := if lowest.None? then conf else Some(Min(lowest.value, conf.value));
        }
      }
      var result := f.fn(payloads);
      payload := if result.None? then InactivePayload(engine, f) else KnownPayload(result.value, lowest.GetOr(0.5));
    }

    /** `_run_one`: every formula once, in registration order. */
    method RunOne() returns (emitted: map<Dp, Payload>, boot: map<Dp, Row>)
      ensures emitted == EmitAll(engine, Store())
      ensures boot == BootRows(engine, UsableRows(Store()))
    {
      var usable := UsableRows(Store());
      boot := BootRows(engine, usable);
      var rows := usable + boot;
      emitted := map[];
      for k := 0 to |engine.registry|
        invariant emitted == EmitFirst(engine, rows, k)
      {
        var f := engine.registry[k];
        var payload := RunFormula(f, emitted, rows);
        emitted := emitted[f.output := payload];
      }
    }

    /** `run_all` for this company: compute, then upsert everything back. */
    method RunAll()
      modifies `stock
      ensures Store() == Run(engine, old(Store()))
    {
      var emitted, boot := RunOne();
      stock := stock + boot + PersistedRows(emitted);
    }
  }

  lemma NoReadings(emitted: map<Dp, Payload>, rows: map<Dp, Row>, inputs: seq<Dp>)
    ensures ReadAll(emitted, rows, inputs[..0]) == [] && Payloads([]) == [] && LowestConfidence([]) == None
    ensures inputs[..|inputs|] == inputs
  {
  }
}
