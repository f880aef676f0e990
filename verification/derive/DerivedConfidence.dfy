/** What confidence a derived row is stored with: nine tenths of the least confidence at the
    bottom of its fresh inputs, however many formulas lie in between. */
module DerivedConfidence {
  import opened Basics
  import opened DeriveEngine
  import opened DeriveConvergence

  /** The formula at place `i` returns something, called as this run calls it. */
  predicate Answers(e: Engine, rows: map<Dp, Row>, i: nat)
    requires i < |e.registry|
  {
    Answer(e, rows, i).Some?
  }

  function Answer(e: Engine, rows: map<Dp, Row>, i: nat): Option<Payload>
    requires i < |e.registry|
  {
    e.registry[i].fn(Payloads(ReadAll(EmitFirst(e, rows, i), rows, e.registry[i].inputs)))
  }

  /** The formula before place `i` that puts out `dp`. */
  function FreshFrom(e: Engine, dp: Dp, i: nat): (j: Option<nat>)
    requires i <= |e.registry|
    ensures j.Some? ==> j.value < i && e.registry[j.value].output == dp
    ensures j.None? ==> forall k :: 0 <= k < i ==> e.registry[k].output != dp
  {
    if i == 0 then None
    else if e.registry[i - 1].output == dp then Some(i - 1)
    else FreshFrom(e, dp, i - 1)
  }

  /** What an input lends: a stored or bootstrap row its confidence, a fresh output what lies at the bottom
      of it, a fresh output without an answer 0.5. */
  function Lends(e: Engine, rows: map<Dp, Row>, i: nat, dp: Dp): Option<real>
    requires i < |e.registry|
    decreases i, 0, 0
  {
    match FreshFrom(e, dp, i)
    case Some(j) => Some(if Answers(e, rows, j) then Bottom(e, rows, j) else 0.5)
    case None => if dp in rows then rows[dp].confidence else None
  }

  /** The least of what the inputs lend, if any lends something. */
  function Least(e: Engine, rows: map<Dp, Row>, i: nat, inputs: seq<Dp>): Option<real>
    requires i < |e.registry|
    decreases i, 1, |inputs|
  {
    if inputs == [] then None
    else
      var rest, last := Least(e, rows, i, inputs[..|inputs| - 1]), Lends(e, rows, i, inputs[|inputs| - 1]);
      if rest.None? then last
      else if last.None? || rest.value <= last.value then rest
      else last
  }

  /** The least confidence at the bottom of the formula at place `i`. */
  function Bottom(e: Engine, rows: map<Dp, Row>, i: nat): real
    requires i < |e.registry|
    decreases i, 2, 0
  {
    Least(e, rows, i, e.registry[i].inputs).GetOr(0.5)
  }

  // ---- the run agrees -----------------------------------------------------------------

  /** What readers of a fresh output are told. */
  lemma {:induction false} ToldBottom(e: Engine, rows: map<Dp, Row>, j: nat, i: nat)
    requires WellFormed(e) && j < i <= |e.registry|
    ensures var m := EmitFirst(e, rows, i); var dp := e.registry[j].output;
            dp in m && NumAt(m[dp], "_input_conf", 0.5) == if Answers(e, rows, j) then Bottom(e, rows, j) else 0.5
    decreases j, 1
  {
    hide Answer, NumAt, Emission, ReadAll, WellFormed;
    EmitStable(e, rows, j, i);
    var rs := ReadAll(EmitFirst(e, rows, j), rows, e.registry[j].inputs);
    LeastConfidence(e, rows, j, e.registry[j].inputs);
    EmissionTells(e, e.registry[j], rs);
    AnswerIs(e, rows, j);
  }

  lemma AnswerIs(e: Engine, rows: map<Dp, Row>, j: nat)
    requires j < |e.registry|
    ensures Answer(e, rows, j) == e.registry[j].fn(Payloads(ReadAll(EmitFirst(e, rows, j), rows, e.registry[j].inputs)))
  {
  }

  lemma EmissionTells(e: Engine, f: Formula, rs: seq<Reading>)
    ensures NumAt(Emission(e, f, rs), "_input_conf", 0.5) ==
            if f.fn(Payloads(rs)).Some? then LowestConfidence(rs).GetOr(0.5) else 0.5
  {
    hide Payloads, LowestConfidence;
    assert "_input_conf" != "confidence" && "_input_conf" != "value" && "_input_conf" != "_inactive" && "_input_conf" != "missing_inputs";
  }

  lemma {:induction false} LeastConfidence(e: Engine, rows: map<Dp, Row>, i: nat, inputs: seq<Dp>)
    requires WellFormed(e) && i < |e.registry|
    ensures LowestConfidence(ReadAll(EmitFirst(e, rows, i), rows, inputs)) == Least(e, rows, i, inputs)
    decreases i, 0, |inputs|
  {
    hide EmitFirst, Bottom, Answers, Read, NumAt, WellFormed;
    if inputs != [] {
      var front, dp := inputs[..|inputs| - 1], inputs[|inputs| - 1];
      LeastConfidence(e, rows, i, front);
      LendsIs(e, rows, i, dp);
      var a := ReadAll(EmitFirst(e, rows, i), rows, front);
      assert (a + [Read(EmitFirst(e, rows, i), rows, dp)])[..|a|] == a;
    }
  }

  lemma {:induction false} LendsIs(e: Engine, rows: map<Dp, Row>, i: nat, dp: Dp)
    requires WellFormed(e) && i < |e.registry|
    ensures Read(EmitFirst(e, rows, i), rows, dp).confidence == Lends(e, rows, i, dp)
    decreases i, 0, 0
  {
    hide EmitFirst, Bottom, Answers, NumAt, WellFormed, Answer, Least, ReadAll, FreshFrom;
    match FreshFrom(e, dp, i) {
      case Some(j) => ToldBottom(e, rows, j, i);
      case None => NotFresh(e, rows, i, dp);
    }
  }

  // ---- what is stored ------------------------------------------------------------------------

  /** The stored confidence of every output. A formula that gives none of its own gets nine tenths of the
      least confidence at the bottom of its fresh inputs, clipped, whatever the number of formulas in
      between; a formula without an answer is stored with 0.5. */
  lemma StoredConfidence(e: Engine, w: World, i: nat)
    requires WellFormed(e) && i < |e.registry|
    ensures var rows := Inputs(e, w); var row := Get(Run(e, w).stock, e.registry[i].output);
            && row.Some?
            && (Answer(e, rows, i).None? ==> row.value.confidence == Some(0.5) && row.value.status == Inactive)
            && (Answer(e, rows, i).Some? && "confidence" !in Answer(e, rows, i).value ==>
                  row.value.confidence == Some(Clip(0.9 * Bottom(e, rows, i), 0.0, 1.0)))
            && (Answer(e, rows, i).Some? && "confidence" in Answer(e, rows, i).value && Answer(e, rows, i).value["confidence"].Num? ==>
                  row.value.confidence == Some(Answer(e, rows, i).value["confidence"].num))
  {
    hide Run, Inputs, ReadAll, EmitFirst, WellFormed, Least;
    var rows := Inputs(e, w);
    OutputRow(e, w, i);
    OutputEmission(e, w, i);
    LeastConfidence(e, rows, i, e.registry[i].inputs);
    EmissionStores(e, e.registry[i], ReadAll(EmitFirst(e, rows, i), rows, e.registry[i].inputs));
    AnswerIs(e, rows, i);
  }

  /** What stands for no answer. */
  predicate Silent(p: Payload, neutral: real, inputs: seq<Dp>) {
    p == map["value" := Num(neutral), "_inactive" := Flag(true), "missing_inputs" := Names(inputs)]
  }

  predicate SameAt(p: Payload, q: Payload, key: string) { (key in p <==> key in q) && (key in p ==> p[key] == q[key]) }

  /** What is stored besides confidence: everything the formula returned but the internal key; without an answer the
      neutral value, the mark, and the names of the inputs. */
  lemma StoredContent(e: Engine, w: World, i: nat, key: string)
    requires WellFormed(e) && i < |e.registry|
    ensures var row := Get(Run(e, w).stock, e.registry[i].output); var a := Answer(e, Inputs(e, w), i);
            && row.Some? && row.value.value.Dict?
            && (a.Some? && key != "confidence" && key != "_input_conf" ==> SameAt(row.value.value.fields, a.value, key))
            && (a.None? ==> Silent(row.value.value.fields, e.neutral(e.registry[i].output), e.registry[i].inputs))
            && "_input_conf" !in row.value.value.fields
  {
    hide Run, Inputs, ReadAll, EmitFirst, WellFormed;
    var rows := Inputs(e, w);
    OutputRow(e, w, i);
    OutputEmission(e, w, i);
    AnswerIs(e, rows, i);
    EmissionContent(e, e.registry[i], ReadAll(EmitFirst(e, rows, i), rows, e.registry[i].inputs), key);
  }

  lemma EmissionContent(e: Engine, f: Formula, rs: seq<Reading>, key: string)
    ensures var fields := Persisted(Emission(e, f, rs)).value.fields; var a := f.fn(Payloads(rs));
            && (a.Some? && key != "confidence" && key != "_input_conf" ==> SameAt(fields, a.value, key))
            && (a.None? ==> Silent(fields, e.neutral(f.output), f.inputs))
            && "_input_conf" !in fields
  {
    hide Payloads, LowestConfidence;
    assert "_input_conf" != "confidence" && "_input_conf" != "value" && "_input_conf" != "_inactive" && "_input_conf" != "missing_inputs";
  }

  /** A bootstrapped sub-score is stored as Known, with confidence 0.5, and read back so. */
  lemma StoredBootstrap(e: Engine, w: World, dp: Dp)
    requires WellFormed(e) && dp in e.bootKeys
    ensures var row := Get(Run(e, w).stock, dp); row.Some? && row.value.status == Known && row.value.confidence == Some(0.5)
    ensures Get(Inputs(e, w), dp) == Get(Run(e, w).stock, dp)
  {
    hide EmitFirst;
    EmitAllKeys(e, w);
    assert !IsOutput(e, dp);
  }

  lemma OutputEmission(e: Engine, w: World, i: nat)
    requires WellFormed(e) && i < |e.registry|
    ensures var rows := Inputs(e, w);
            Get(EmitAll(e, w), e.registry[i].output) == Some(Emission(e, e.registry[i], ReadAll(EmitFirst(e, rows, i), rows, e.registry[i].inputs)))
  {
    hide Emission, ReadAll, Inputs;
    EmitStable(e, Inputs(e, w), i, |e.registry|);
  }

  lemma EmissionStores(e: Engine, f: Formula, rs: seq<Reading>)
    ensures var row := Persisted(Emission(e, f, rs)); var a := f.fn(Payloads(rs));
            && (a.None? ==> row.confidence == Some(0.5) && row.status == Inactive)
            && (a.Some? && "confidence" !in a.value ==> row.confidence == Some(Clip(0.9 * LowestConfidence(rs).GetOr(0.5), 0.0, 1.0)))
            && (a.Some? && "confidence" in a.value && a.value["confidence"].Num? ==> row.confidence == Some(a.value["confidence"].num))
  {
    hide Payloads, LowestConfidence;
    assert "_input_conf" != "confidence" && "confidence" != "value" && "confidence" != "_inactive" && "confidence" != "missing_inputs";
  }

  // ---- what a formula is given ------------------------------------------------------------------

  /** What a formula is given for an input: what a fresh output carries (the answer, internal key and confidence
      aside, or the stand-in for none); failing that the stored dictionary, or a stored single value under
      `scalar`; failing that nothing. */
  lemma InputsGiven(e: Engine, rows: map<Dp, Row>, i: nat, k: nat, key: string)
    requires WellFormed(e) && i < |e.registry| && k < |e.registry[i].inputs|
    ensures var ps, dp := Payloads(ReadAll(EmitFirst(e, rows, i), rows, e.registry[i].inputs)), e.registry[i].inputs[k];
            && Answer(e, rows, i) == e.registry[i].fn(ps) && |ps| == |e.registry[i].inputs|
            && match FreshFrom(e, dp, i)
               case Some(j) =>
                 && ps[k].Some?
                 && (Answer(e, rows, j).None? ==> Silent(ps[k].value, e.neutral(dp), e.registry[j].inputs))
                 && (Answer(e, rows, j).Some? && key != "confidence" && key != "_input_conf" ==> SameAt(ps[k].value, Answer(e, rows, j).value, key))
               case None => ps[k] == StoredPayload(rows, dp)
  {
    hide EmitFirst, Emission, FreshFrom, WellFormed, Silent;
    var emitted := EmitFirst(e, rows, i);
    var rs, dp := ReadAll(emitted, rows, e.registry[i].inputs), e.registry[i].inputs[k];
    ReadAllAre(emitted, rows, e.registry[i].inputs);
    PayloadsAre(rs);
    AnswerIs(e, rows, i);
    hide ReadAll, Payloads, Answer;
    EmitKeys(e, rows, i);
    match FreshFrom(e, dp, i) {
      case Some(j) =>
        EmitStable(e, rows, j, i);
        AnswerIs(e, rows, j);
        EmissionCarries(e, e.registry[j], ReadAll(EmitFirst(e, rows, j), rows, e.registry[j].inputs), key);
      case None =>
        NotFresh(e, rows, i, dp);
    }
  }

  function StoredPayload(rows: map<Dp, Row>, dp: Dp): Option<Payload> {
    if dp !in rows then None
    else match rows[dp].value
         case Dict(fields) => Some(fields)
         case v => Some(map["scalar" := v])
  }

  lemma NotFresh(e: Engine, rows: map<Dp, Row>, i: nat, dp: Dp)
    requires i <= |e.registry| && FreshFrom(e, dp, i) == None
    ensures dp !in EmitFirst(e, rows, i)
  {
    EmitKeys(e, rows, i);
  }

  lemma EmissionCarries(e: Engine, f: Formula, rs: seq<Reading>, key: string)
    ensures var fields := Emission(e, f, rs); var a := f.fn(Payloads(rs));
            && (a.Some? && key != "confidence" && key != "_input_conf" ==> SameAt(fields, a.value, key))
            && (a.None? ==> Silent(fields, e.neutral(f.output), f.inputs))
  {
    hide Payloads, LowestConfidence;
  }

  // ---- depth does not matter -------------------------------------------------------------------

  predicate Half(x: Option<real>) { x.Some? ==> x.value == 0.5 }

  predicate AllHalf(rows: map<Dp, Row>) { forall dp :: dp in rows ==> Half(rows[dp].confidence) }

  lemma {:induction false} HalfEverywhere(e: Engine, rows: map<Dp, Row>, i: nat, inputs: seq<Dp>)
    requires AllHalf(rows) && i < |e.registry|
    ensures Half(Least(e, rows, i, inputs))
    decreases i, |inputs|
  {
    hide Answers;
    if inputs != [] {
      var dp := inputs[|inputs| - 1];
      HalfEverywhere(e, rows, i, inputs[..|inputs| - 1]);
      var j := FreshFrom(e, dp, i);
      if j.Some? {
        HalfEverywhere(e, rows, j.value, e.registry[j.value].inputs);
        assert Bottom(e, rows, j.value) == 0.5;
      }
      assert Half(Lends(e, rows, i, dp));
    }
  }

  /** Where every row carries 0.5, so does every derived value, and is stored with 0.45: at the first layer and
      at the last alike. */
  lemma DepthDoesNotDecay(e: Engine, w: World, i: nat)
    requires WellFormed(e) && i < |e.registry| && AllHalf(Inputs(e, w))
    requires Answer(e, Inputs(e, w), i).Some? && "confidence" !in Answer(e, Inputs(e, w), i).value
    ensures var row := Get(Run(e, w).stock, e.registry[i].output); row.Some? && row.value.confidence == Some(0.45)
  {
    hide Inputs, Answer, Run, WellFormed;
    StoredConfidence(e, w, i);
    HalfEverywhere(e, Inputs(e, w), i, e.registry[i].inputs);
  }

  // ---- rows no formula sees ----------------------------------------------------------------------

  /** `w` and `u` agree but for rows that are Unknown, Unavailable or Inactive in either. */
  ghost predicate AgreeOnUsable(w: World, u: World) {
    forall dp :: (Seen(w, dp) || Seen(u, dp)) ==>
      dp in Snapshot(w) && dp in Snapshot(u) && Snapshot(w)[dp] == Snapshot(u)[dp]
  }

  predicate Seen(w: World, dp: Dp) {
    dp in Snapshot(w) && Snapshot(w)[dp].status != Unknown && Snapshot(w)[dp].status != Unavailable && Snapshot(w)[dp].status != Inactive
  }

  /** Unknown, Unavailable and Inactive rows have no influence on what a run derives. */
  lemma UnusableRowsAreInvisible(e: Engine, w: World, u: World)
    requires AgreeOnUsable(w, u)
    ensures EmitAll(e, w) == EmitAll(e, u)
  {
    hide EmitFirst, BootRows, Snapshot;
    forall dp ensures Get(UsableRows(w), dp) == Get(UsableRows(u), dp) {
      assert Seen(w, dp) <==> dp in UsableRows(w);
      assert Seen(u, dp) <==> dp in UsableRows(u);
    }
    SameMap(UsableRows(w), UsableRows(u));
  }
}
