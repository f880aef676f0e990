/** The bound on the number of runs is tight for every wiring: along any dependency path there are
    formulas that pass a mark on, and the mark needs one run per late read and one more. */
module LateReadsNeeded {
  import opened Basics
  import opened DeriveEngine
  import opened DeriveConvergence

  const MARK := "mark"

  /** Emits a mark if it finds one in input `at`; with no `at`, always. */
  function Passes(at: Option<nat>): seq<Option<Payload>> -> Option<Payload> {
    (ps: seq<Option<Payload>>) =>
      if at.None? || (at.value < |ps| && ps[at.value].Some? && MARK in ps[at.value].value)
      then Some(map[MARK := Flag(true)]) else None
  }

  /** Never emits anything. */
  function Silent(): seq<Option<Payload>> -> Option<Payload> { (ps: seq<Option<Payload>>) => None }

  function IndexIn<T(==)>(s: seq<T>, x: T): (r: Option<nat>)
    ensures r.Some? ==> r.value < |s| && s[r.value] == x
    ensures r.None? ==> x !in s
  {
    if s == [] then None
    else if s[0] == x then Some(0)
    else match IndexIn(s[1..], x) case None => None case Some(i) => Some(i + 1)
  }

  /** The formula of entry `i`: on the path it watches the next formula's output, off it it is silent. */
  function Tracing(e: Engine, path: seq<nat>, i: nat): seq<Option<Payload>> -> Option<Payload>
    requires IsPath(e, path) && i < |e.registry|
  {
    match IndexIn(path, i)
    case None => Silent()
    case Some(j) =>
      if j == |path| - 1 then Passes(None)
      else
        assert path[j + 1] < |e.registry|;
        Passes(IndexIn(e.registry[i].inputs, e.registry[path[j + 1]].output))
  }

  /** `e` with the same wiring, but tracing formulas. */
  function Traced(e: Engine, path: seq<nat>): (t: Engine)
    requires IsPath(e, path)
    ensures |t.registry| == |e.registry|
    ensures forall i :: 0 <= i < |e.registry| ==>
              t.registry[i] == Formula(e.registry[i].output, e.registry[i].inputs, Tracing(e, path, i))
  {
    e.(registry := seq(|e.registry|, i requires 0 <= i < |e.registry| =>
         Formula(e.registry[i].output, e.registry[i].inputs, Tracing(e, path, i))))
  }

  /** Same outputs, inputs and bootstrap slots. */
  ghost predicate SameWiring(e: Engine, t: Engine) {
    && |t.registry| == |e.registry| && t.bootKeys == e.bootKeys && t.bootReads == e.bootReads && t.bootstrap == e.bootstrap
    && forall i :: 0 <= i < |e.registry| ==> t.registry[i].output == e.registry[i].output && t.registry[i].inputs == e.registry[i].inputs
  }

  lemma TracedWiring(e: Engine, path: seq<nat>)
    requires WellFormed(e) && IsPath(e, path)
    ensures var t := Traced(e, path);
            SameWiring(e, t) && WellFormed(t) && IsPath(t, path)
  {
  }

  // ---- the mark's way -------------------------------------------------------------------

  const EMPTY := World(map[], map[])

  /** Formula `i` emits the mark in the run that follows `n` runs from an empty store. */
  ghost predicate Marked(t: Engine, i: nat, n: nat)
    requires i < |t.registry|
  {
    var m := EmitAll(t, Runs(t, EMPTY, n));
    t.registry[i].output in m && MARK in m[t.registry[i].output]
  }

  /** Outputs along a path are distinct formulas: ranks fall. */
  lemma {:induction false} PathDescends(e: Engine, rank: seq<nat>, path: seq<nat>, a: nat, b: nat)
    requires RankedBy(e, rank) && IsPath(e, path) && a < b < |path|
    ensures path[a] < |rank| && path[b] < |rank| && rank[path[b]] < rank[path[a]]
    decreases b
  {
    assert DependsOn(e, path[b - 1], path[b]);
    if a < b - 1 {
      PathDescends(e, rank, path, a, b - 1);
    }
  }

  lemma PlaceOnPath(e: Engine, rank: seq<nat>, path: seq<nat>, j: nat)
    requires RankedBy(e, rank) && IsPath(e, path) && j < |path|
    ensures IndexIn(path, path[j]) == Some(j)
  {
    var k := IndexIn(path, path[j]).value;
    if k < j {
      PathDescends(e, rank, path, k, j);
    } else if j < k {
      PathDescends(e, rank, path, j, k);
    }
  }

  /** What a formula emits, and whether the mark is in it. */
  lemma EmissionOf(t: Engine, w: World, i: nat)
    requires WellFormed(t) && i < |t.registry|
    ensures var rows := Inputs(t, w); var f := t.registry[i];
            Get(EmitAll(t, w), f.output) == Some(Emission(t, f, ReadAll(EmitFirst(t, rows, i), rows, f.inputs)))
  {
    hide Emission, ReadAll, Inputs;
    EmitStable(t, Inputs(t, w), i, |t.registry|);
  }

  lemma MarkInEmission(t: Engine, f: Formula, rs: seq<Reading>, at: Option<nat>)
    requires f.fn == Passes(at) && (at.Some? ==> at.value < |rs|)
    ensures MARK in Emission(t, f, rs) <==>
              at.None? || (rs[at.value].payload.Some? && MARK in rs[at.value].payload.value)
  {
    PayloadsAre(rs);
    hide Payloads;
    var inactive := InactivePayload(t, f);
    assert MARK != "value" && MARK != "_inactive" && MARK != "missing_inputs";
    assert MARK !in inactive;
  }

  /** A marked payload is a Known one, and is stored with its mark; no mark comes out of any other. */
  lemma MarkSurvivesStoring(t: Engine, f: Formula, rs: seq<Reading>, at: Option<nat>)
    requires f.fn == Passes(at)
    ensures var p := Emission(t, f, rs); var row := Persisted(p);
            MARK in p <==> UsableStatus(row.status) && MARK in RowPayload(row)
  {
    hide Payloads, LowestConfidence;
    assert MARK != "_inactive" && MARK != "_input_conf" && MARK != "confidence" && MARK != "value" && MARK != "missing_inputs";
    assert "_inactive" != "_input_conf" && "_inactive" != "confidence";
  }

  lemma FormulaOnPath(e: Engine, rank: seq<nat>, path: seq<nat>, j: nat)
    requires RankedBy(e, rank) && IsPath(e, path) && j < |path|
    ensures var f := Traced(e, path).registry[path[j]];
            && (j == |path| - 1 ==> f.fn == Passes(None))
            && (j < |path| - 1 ==>
                  var q := e.registry[path[j + 1]].output; var at := IndexIn(f.inputs, q);
                  at.Some? && f.inputs[at.value] == q && f.fn == Passes(at))
  {
    PlaceOnPath(e, rank, path, j);
    if j < |path| - 1 {
      assert DependsOn(e, path[j], path[j + 1]);
    }
  }

  /** What the formula at `j` finds under the next formula's output. */
  lemma NextReading(t: Engine, i: nat, q: nat, at: Option<nat>, n: nat)
    requires WellFormed(t) && i < |t.registry| && q < |t.registry| && t.registry[q].fn == Passes(at)
    ensures var w := Runs(t, EMPTY, n); var rows := Inputs(t, w);
            var r := Read(EmitFirst(t, rows, i), rows, t.registry[q].output);
            (r.payload.Some? && MARK in r.payload.value) <==>
              if q < i then Marked(t, q, n) else n > 0 && Marked(t, q, n - 1)
  {
    hide Inputs, Emission, ReadAll, Persisted, RowPayload, Run;
    var w := Runs(t, EMPTY, n);
    var rows, dp := Inputs(t, w), t.registry[q].output;
    if q < i {
      EmitStable(t, rows, q, i);
      EmitStable(t, rows, q, |t.registry|);
    } else {
      EmitKeys(t, rows, i);
      DistinctOutput(t, q, i);
      if n == 0 {
        NoRows(t, q);
      } else {
        var before := Runs(t, EMPTY, n - 1);
        OutputRow(t, before, q);
        OutputInput(t, w, q);
        EmissionOf(t, before, q);
        MarkSurvivesStoring(t, t.registry[q], ReadAll(EmitFirst(t, Inputs(t, before), q), Inputs(t, before), t.registry[q].inputs), at);
      }
    }
  }

  lemma NoRows(t: Engine, q: nat)
    requires WellFormed(t) && q < |t.registry|
    ensures t.registry[q].output !in Inputs(t, Runs(t, EMPTY, 0))
  {
    BootKeysAre(t, UsableRows(EMPTY));
  }

  /** The mark is at place `j` of the path once one run has passed for every late read behind it. */
  lemma {:induction false} MarkArrives(e: Engine, rank: seq<nat>, path: seq<nat>, j: nat, n: nat)
    requires WellFormed(e) && RankedBy(e, rank) && IsPath(e, path) && j < |path|
    ensures Marked(Traced(e, path), path[j], n) <==> n >= LateReads(path[j..])
    decreases |path| - j
  {
    hide Marked, Traced, Inputs, Emission, ReadAll, Run;
    var t, i := Traced(e, path), path[j];
    TracedWiring(e, path);
    FormulaOnPath(e, rank, path, j);
    var w := Runs(t, EMPTY, n);
    var rs := ReadAll(EmitFirst(t, Inputs(t, w), i), Inputs(t, w), t.registry[i].inputs);
    ReadAllAre(EmitFirst(t, Inputs(t, w), i), Inputs(t, w), t.registry[i].inputs);
    MarkedIs(t, i, n);
    if j == |path| - 1 {
      MarkInEmission(t, t.registry[i], rs, None);
    } else {
      var q := path[j + 1];
      var at := IndexIn(t.registry[i].inputs, e.registry[q].output);
      MarkInEmission(t, t.registry[i], rs, at);
      FormulaOnPath(e, rank, path, j + 1);
      var next := if j + 1 == |path| - 1 then None else IndexIn(t.registry[q].inputs, e.registry[path[j + 2]].output);
      NextReading(t, i, q, next, n);
      assert path[j..][1..] == path[j + 1..];
      if q < i {
        MarkArrives(e, rank, path, j + 1, n);
      } else if n > 0 {
        MarkArrives(e, rank, path, j + 1, n - 1);
      }
    }
  }

  lemma MarkedIs(t: Engine, i: nat, n: nat)
    requires WellFormed(t) && i < |t.registry|
    ensures var w := Runs(t, EMPTY, n); var rows := Inputs(t, w); var f := t.registry[i];
            Marked(t, i, n) <==> MARK in Emission(t, f, ReadAll(EmitFirst(t, rows, i), rows, f.inputs))
  {
    hide Emission, ReadAll, Inputs, Run;
    EmissionOf(t, Runs(t, EMPTY, n), i);
  }

  // ---- the bound is reached -----------------------------------------------------------------

  /** For every acyclic wiring and every dependency path there are formulas and a store for which as many
      runs as the path has late reads are not enough. */
  lemma LateReadsAreNeeded(e: Engine, rank: seq<nat>, path: seq<nat>) returns (t: Engine)
    requires WellFormed(e) && RankedBy(e, rank) && IsPath(e, path)
    ensures SameWiring(e, t) && WellFormed(t)
    ensures var w := Runs(t, EMPTY, LateReads(path)); Run(t, w) != w
  {
    hide Marked, Run, Runs, Traced, SameWiring, WellFormed, RankedBy, IsPath, LateReads;
    t := Traced(e, path);
    TracedWiring(e, path);
    var k := LateReads(path);
    assert path[0..] == path;
    MarkArrives(e, rank, path, 0, k);
    StoredMark(e, rank, path, k);
    RunsStep(t, k);
    if k > 0 {
      MarkArrives(e, rank, path, 0, k - 1);
      StoredMark(e, rank, path, k - 1);
    }
  }

  lemma RunsStep(t: Engine, k: nat)
    ensures Runs(t, EMPTY, k) == if k == 0 then EMPTY else Run(t, Runs(t, EMPTY, k - 1))
  {
    hide Run;
  }

  /** The first formula's row after a run carries the mark exactly when the run emitted it. */
  lemma StoredMark(e: Engine, rank: seq<nat>, path: seq<nat>, n: nat)
    requires WellFormed(e) && RankedBy(e, rank) && IsPath(e, path)
    ensures var t := Traced(e, path);
            var row := Get(Run(t, Runs(t, EMPTY, n)).stock, t.registry[path[0]].output);
            row.Some? && (Marked(t, path[0], n) <==> UsableStatus(row.value.status) && MARK in RowPayload(row.value))
  {
    hide Run, Inputs, ReadAll, Emission, Persisted, RowPayload, Traced;
    var t, i := Traced(e, path), path[0];
    TracedWiring(e, path);
    FormulaOnPath(e, rank, path, 0);
    var w := Runs(t, EMPTY, n);
    OutputRow(t, w, i);
    EmissionOf(t, w, i);
    var at := if |path| == 1 then None else IndexIn(t.registry[i].inputs, e.registry[path[1]].output);
    MarkSurvivesStoring(t, t.registry[i], ReadAll(EmitFirst(t, Inputs(t, w), i), Inputs(t, w), t.registry[i].inputs), at);
  }
}
