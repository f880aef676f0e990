/** Repeated runs over fixed hard rows reach one fixpoint, whatever stale derived rows
    the store started with, and after a number of runs that depends only on how often a
    formula reads an output registered no earlier than itself. */
module DeriveConvergence {
  import opened Basics
  import opened DeriveEngine

  predicate IsOutput(e: Engine, dp: Dp) {
    exists i :: 0 <= i < |e.registry| && e.registry[i].output == dp
  }

  /** Formula `i` reads the output of formula `j`. */
  predicate DependsOn(e: Engine, i: nat, j: nat)
    requires i < |e.registry| && j < |e.registry|
  {
    e.registry[j].output in e.registry[i].inputs
  }

  /** 1 when `i` reads `j` before `j` has run, so only through the store. */
  function Late(i: nat, j: nat): nat { if j >= i then 1 else 0 }

  /** An upper bound, per formula, on late reads along any dependency path from it. */
  ghost predicate LateBound(e: Engine, d: seq<nat>) {
    && |d| == |e.registry|
    && forall i, j :: 0 <= i < |d| && 0 <= j < |d| && DependsOn(e, i, j) ==> d[j] + Late(i, j) <= d[i]
  }

  // ---- what is fixed ------------------------------------------------------------

  predicate Hard(e: Engine, dp: Dp) { !IsOutput(e, dp) && dp !in e.bootKeys }

  function Get<V>(m: map<Dp, V>, dp: Dp): Option<V> { if dp in m then Some(m[dp]) else None }

  /** The same hard rows, hence the same inputs from outside the engine. */
  ghost predicate SameHard(e: Engine, w: World, u: World) {
    w.background == u.background && forall dp :: Hard(e, dp) ==> Get(w.stock, dp) == Get(u.stock, dp)
  }

  lemma {:induction false} EmitKeys(e: Engine, rows: map<Dp, Row>, k: nat)
    requires k <= |e.registry|
    ensures forall dp :: dp in EmitFirst(e, rows, k) <==> exists j :: 0 <= j < k && e.registry[j].output == dp
  {
    if k > 0 {
      EmitKeys(e, rows, k - 1);
    }
  }

  /** A fresh output is not overwritten by later formulas. */
  lemma {:induction false} EmitStable(e: Engine, rows: map<Dp, Row>, j: nat, k: nat)
    requires WellFormed(e) && j < k <= |e.registry|
    ensures Get(EmitFirst(e, rows, k), e.registry[j].output)
         == Some(Emission(e, e.registry[j], ReadAll(EmitFirst(e, rows, j), rows, e.registry[j].inputs)))
    decreases k
  {
    if k > j + 1 {
      EmitStable(e, rows, j, k - 1);
    }
  }

  lemma BootKeysAre(e: Engine, usable: map<Dp, Row>)
    requires WellFormed(e)
    ensures BootRows(e, usable).Keys == e.bootKeys
  {
  }

  lemma EmitAllKeys(e: Engine, w: World)
    ensures forall dp :: dp in EmitAll(e, w) <==> IsOutput(e, dp)
  {
    EmitKeys(e, Inputs(e, w), |e.registry|);
  }

  lemma RunKeepsHard(e: Engine, w: World)
    requires WellFormed(e)
    ensures SameHard(e, w, Run(e, w))
  {
    hide EmitAll, BootRows;
    BootKeysAre(e, UsableRows(w));
    EmitAllKeys(e, w);
  }

  lemma {:induction false} RunsKeepHard(e: Engine, w: World, n: nat)
    requires WellFormed(e)
    ensures SameHard(e, w, Runs(e, w, n))
  {
    hide Run;
    if n > 0 {
      RunsKeepHard(e, w, n - 1);
      RunKeepsHard(e, Runs(e, w, n - 1));
    }
  }

  // ---- what a formula reads --------------------------------------------------------

  /** Hard rows and bootstrap rows read the same in worlds with the same hard rows. */
  lemma HardUsable(e: Engine, w: World, u: World, dp: Dp)
    requires SameHard(e, w, u) && Hard(e, dp)
    ensures Get(UsableRows(w), dp) == Get(UsableRows(u), dp)
  {
    assert Get(w.stock, dp) == Get(u.stock, dp);
  }

  lemma SameBoot(e: Engine, w: World, u: World)
    requires WellFormed(e) && SameHard(e, w, u)
    ensures BootRows(e, UsableRows(w)) == BootRows(e, UsableRows(u))
  {
    hide UsableRows, SameHard;
    forall dp | dp in e.bootReads ensures Get(UsableRows(w), dp) == Get(UsableRows(u), dp) {
      assert Hard(e, dp);
      HardUsable(e, w, u, dp);
    }
    hide WellFormed, Hard;
    SameReads(e, UsableRows(w), UsableRows(u));
  }

  lemma SameReads(e: Engine, a: map<Dp, Row>, b: map<Dp, Row>)
    requires forall dp :: dp in e.bootReads ==> Get(a, dp) == Get(b, dp)
    ensures BootPayloads(e, a) == BootPayloads(e, b)
  {
    forall dp | dp in e.bootReads ensures dp in a <==> dp in b {
      assert Get(a, dp) == Get(b, dp);
    }
    assert (map dp | dp in a && dp in e.bootReads :: a[dp]) == (map dp | dp in b && dp in e.bootReads :: b[dp]);
  }

  lemma OutputRow(e: Engine, w: World, j: nat)
    requires WellFormed(e) && j < |e.registry|
    ensures e.registry[j].output in EmitAll(e, w)
    ensures Get(Run(e, w).stock, e.registry[j].output) == Some(Persisted(EmitAll(e, w)[e.registry[j].output]))
  {
    EmitAllKeys(e, w);
    assert IsOutput(e, e.registry[j].output);
  }

  /** The input row of an output depends only on the row the previous run stored. */
  lemma OutputInput(e: Engine, w: World, j: nat)
    requires WellFormed(e) && j < |e.registry| && e.registry[j].output in w.stock
    ensures var r := w.stock[e.registry[j].output];
            Get(Inputs(e, w), e.registry[j].output) == if UsableStatus(r.status) then Some(r) else None
  {
    BootKeysAre(e, UsableRows(w));
  }

  lemma InputFromOutside(e: Engine, w: World, u: World, dp: Dp)
    requires WellFormed(e) && SameHard(e, w, u) && !IsOutput(e, dp)
    ensures Get(Inputs(e, w), dp) == Get(Inputs(e, u), dp)
  {
    SameBoot(e, w, u);
    BootKeysAre(e, UsableRows(w));
    if dp !in e.bootKeys {
      HardUsable(e, w, u, dp);
    }
  }

  lemma {:induction false} SameReadings(a: map<Dp, Payload>, r: map<Dp, Row>, b: map<Dp, Payload>, s: map<Dp, Row>, inputs: seq<Dp>)
    requires forall dp :: dp in inputs ==> Read(a, r, dp) == Read(b, s, dp)
    ensures ReadAll(a, r, inputs) == ReadAll(b, s, inputs)
  {
    if inputs != [] {
      SameReadings(a, r, b, s, inputs[..|inputs| - 1]);
    }
  }

  // ---- agreement -------------------------------------------------------------------

  /** Formula `i` emits the same payload in any two runs that are at least `d[i]` runs old, over the
      same hard rows, whatever else the two stores held at the start. */
  lemma {:induction false} Agreement(e: Engine, d: seq<nat>, w: World, u: World, n: nat, m: nat, i: nat)
    requires WellFormed(e) && LateBound(e, d) && SameHard(e, w, u)
    requires i < |e.registry| && d[i] <= n && d[i] <= m
    ensures Get(EmitAll(e, Runs(e, w, n)), e.registry[i].output)
         == Get(EmitAll(e, Runs(e, u, m)), e.registry[i].output)
    decreases d[i], i, 1
  {
    hide Inputs, Runs, ReadAll, Emission, WellFormed;
    var f := e.registry[i];
    var r, s := Inputs(e, Runs(e, w, n)), Inputs(e, Runs(e, u, m));
    EmitStable(e, r, i, |e.registry|);
    EmitStable(e, s, i, |e.registry|);
    forall dp | dp in f.inputs ensures Read(EmitFirst(e, r, i), r, dp) == Read(EmitFirst(e, s, i), s, dp) {
      AgreeOnInput(e, d, w, u, n, m, i, dp);
    }
    SameReadings(EmitFirst(e, r, i), r, EmitFirst(e, s, i), s, f.inputs);
  }

  lemma SameHardRuns(e: Engine, w: World, u: World, n: nat, m: nat)
    requires WellFormed(e) && SameHard(e, w, u)
    ensures SameHard(e, Runs(e, w, n), Runs(e, u, m))
  {
    hide Runs;
    RunsKeepHard(e, w, n);
    RunsKeepHard(e, u, m);
  }

  lemma {:induction false} AgreeOnInput(e: Engine, d: seq<nat>, w: World, u: World, n: nat, m: nat, i: nat, dp: Dp)
    requires WellFormed(e) && LateBound(e, d) && SameHard(e, w, u)
    requires i < |e.registry| && d[i] <= n && d[i] <= m && dp in e.registry[i].inputs
    ensures var r, s := Inputs(e, Runs(e, w, n)), Inputs(e, Runs(e, u, m));
            Read(EmitFirst(e, r, i), r, dp) == Read(EmitFirst(e, s, i), s, dp)
    decreases d[i], i, 0
  {
    hide Inputs, Emission, ReadAll, Run, SameHard, Read;
    var wn, um := Runs(e, w, n), Runs(e, u, m);
    var r, s := Inputs(e, wn), Inputs(e, um);
    EmitKeys(e, r, i);
    EmitKeys(e, s, i);
    if IsOutput(e, dp) {
      var j :| 0 <= j < |e.registry| && e.registry[j].output == dp;
      assert DependsOn(e, i, j);
      if j < i {
        Agreement(e, d, w, u, n, m, j);
        ReadEarlier(e, r, s, j, i);
      } else {
        Agreement(e, d, w, u, n - 1, m - 1, j);
        ReadLater(e, Runs(e, w, n - 1), Runs(e, u, m - 1), j, i);
      }
    } else {
      SameHardRuns(e, w, u, n, m);
      InputFromOutside(e, wn, um, dp);
      ReadStored(EmitFirst(e, r, i), r, EmitFirst(e, s, i), s, dp);
    }
  }

  lemma ReadStored(a: map<Dp, Payload>, r: map<Dp, Row>, b: map<Dp, Payload>, s: map<Dp, Row>, dp: Dp)
    requires dp !in a && dp !in b && Get(r, dp) == Get(s, dp)
    ensures Read(a, r, dp) == Read(b, s, dp)
  {
  }

  /** An input registered earlier is read fresh. */
  lemma ReadEarlier(e: Engine, r: map<Dp, Row>, s: map<Dp, Row>, j: nat, i: nat)
    requires WellFormed(e) && j < i < |e.registry|
    requires Get(EmitFirst(e, r, |e.registry|), e.registry[j].output) == Get(EmitFirst(e, s, |e.registry|), e.registry[j].output)
    ensures Read(EmitFirst(e, r, i), r, e.registry[j].output) == Read(EmitFirst(e, s, i), s, e.registry[j].output)
  {
    hide Emission, ReadAll, WellFormed;
    EmitStable(e, r, j, i);
    EmitStable(e, s, j, i);
    EmitStable(e, r, j, |e.registry|);
    EmitStable(e, s, j, |e.registry|);
    hide EmitFirst;
  }

  /** An input registered later is read as the previous run stored it. */
  lemma ReadLater(e: Engine, w0: World, u0: World, j: nat, i: nat)
    requires WellFormed(e) && i <= j < |e.registry|
    requires Get(EmitAll(e, w0), e.registry[j].output) == Get(EmitAll(e, u0), e.registry[j].output)
    ensures var r, s, dp := Inputs(e, Run(e, w0)), Inputs(e, Run(e, u0)), e.registry[j].output;
            Read(EmitFirst(e, r, i), r, dp) == Read(EmitFirst(e, s, i), s, dp)
  {
    hide Inputs, Run, EmitAll, Read;
    var r, s, dp := Inputs(e, Run(e, w0)), Inputs(e, Run(e, u0)), e.registry[j].output;
    OutputRow(e, w0, j);
    OutputRow(e, u0, j);
    OutputInput(e, Run(e, w0), j);
    OutputInput(e, Run(e, u0), j);
    EmitKeys(e, r, i);
    EmitKeys(e, s, i);
    DistinctOutput(e, j, i);
    hide EmitFirst, WellFormed;
    ReadStored(EmitFirst(e, r, i), r, EmitFirst(e, s, i), s, dp);
  }

  lemma DistinctOutput(e: Engine, j: nat, i: nat)
    requires WellFormed(e) && i <= j < |e.registry|
    ensures forall k :: 0 <= k < i ==> e.registry[k].output != e.registry[j].output
  {
  }

  // ---- the fixpoint ------------------------------------------------------------------

  ghost predicate AtMost(d: seq<nat>, bound: nat) { forall i :: 0 <= i < |d| ==> d[i] <= bound }

  lemma SettledEmissions(e: Engine, d: seq<nat>, bound: nat, w: World, u: World, n: nat, m: nat)
    requires WellFormed(e) && LateBound(e, d) && AtMost(d, bound) && SameHard(e, w, u)
    requires n >= bound && m >= bound
    ensures EmitAll(e, Runs(e, w, n)) == EmitAll(e, Runs(e, u, m))
  {
    hide EmitAll, Runs;
    var a, b := EmitAll(e, Runs(e, w, n)), EmitAll(e, Runs(e, u, m));
    EmitAllKeys(e, Runs(e, w, n));
    EmitAllKeys(e, Runs(e, u, m));
    forall dp | dp in a ensures dp in b && a[dp] == b[dp] {
      assert IsOutput(e, dp);
      var i :| 0 <= i < |e.registry| && e.registry[i].output == dp;
      Agreement(e, d, w, u, n, m, i);
      assert Get(a, dp) == Get(b, dp);
    }
    assert a.Keys == b.Keys;
  }

  /** The store after a run, read slot by slot. */
  lemma RunSlot(e: Engine, w: World, dp: Dp)
    requires WellFormed(e)
    ensures Get(Run(e, w).stock, dp) ==
            if IsOutput(e, dp) then Get(PersistedRows(EmitAll(e, w)), dp)
            else if dp in e.bootKeys then Get(BootRows(e, UsableRows(w)), dp)
            else Get(w.stock, dp)
  {
    hide EmitAll, BootRows, UsableRows;
    EmitAllKeys(e, w);
    BootKeysAre(e, UsableRows(w));
  }

  /** After `bound` + 1 runs the whole store, values, statuses and confidences alike, is the same in
      every later run and from every starting store with the same hard rows: one fixpoint. */
  lemma Convergence(e: Engine, d: seq<nat>, bound: nat, w: World, u: World, n: nat, m: nat)
    requires WellFormed(e) && LateBound(e, d) && AtMost(d, bound) && SameHard(e, w, u)
    requires n > bound && m > bound
    ensures Runs(e, w, n) == Runs(e, u, m)
    ensures Run(e, Runs(e, w, n)) == Runs(e, w, n)
  {
    hide Run, WellFormed, LateBound;
    StoresAgree(e, d, bound, w, u, n, m);
    assert SameHard(e, w, w);
    StoresAgree(e, d, bound, w, w, n, n + 1);
  }

  lemma StoresAgree(e: Engine, d: seq<nat>, bound: nat, w: World, u: World, n: nat, m: nat)
    requires WellFormed(e) && LateBound(e, d) && AtMost(d, bound) && SameHard(e, w, u)
    requires n > bound && m > bound
    ensures Runs(e, w, n) == Runs(e, u, m)
  {
    hide Run, EmitAll, WellFormed, LateBound, SameHard, AtMost;
    SettledEmissions(e, d, bound, w, u, n - 1, m - 1);
    SameHardRuns(e, w, u, n - 1, m - 1);
    SameRun(e, Runs(e, w, n - 1), Runs(e, u, m - 1));
  }

  /** Two stores with the same hard rows and the same emissions are the same after the run. */
  lemma SameRun(e: Engine, w: World, u: World)
    requires WellFormed(e) && SameHard(e, w, u) && EmitAll(e, w) == EmitAll(e, u)
    ensures Run(e, w) == Run(e, u)
  {
    hide Run, EmitAll, WellFormed, SameHard;
    SameBoot(e, w, u);
    var a, b := Run(e, w), Run(e, u);
    forall dp ensures Get(a.stock, dp) == Get(b.stock, dp) {
      RunSlot(e, w, dp);
      RunSlot(e, u, dp);
      HardSlot(e, w, u, dp);
    }
    SameMap(a.stock, b.stock);
    SameBackground(e, w, u);
    RunBackground(e, w);
    RunBackground(e, u);
  }

  lemma RunBackground(e: Engine, w: World)
    ensures Run(e, w).background == w.background
  {
  }

  lemma HardSlot(e: Engine, w: World, u: World, dp: Dp)
    requires SameHard(e, w, u)
    ensures Hard(e, dp) ==> Get(w.stock, dp) == Get(u.stock, dp)
  {
  }

  lemma SameBackground(e: Engine, w: World, u: World)
    requires SameHard(e, w, u)
    ensures w.background == u.background
  {
  }

  lemma SameMap(a: map<Dp, Row>, b: map<Dp, Row>)
    requires forall dp :: Get(a, dp) == Get(b, dp)
    ensures a == b
  {
    forall dp ensures (dp in a <==> dp in b) && (dp in a ==> a[dp] == b[dp]) {
      assert Get(a, dp) == Get(b, dp);
    }
  }

  // ---- how many late reads ----------------------------------------------------------

  /** The dependency graph is acyclic: inputs rank strictly lower. */
  ghost predicate RankedBy(e: Engine, rank: seq<nat>) {
    && |rank| == |e.registry|
    && forall i, j :: 0 <= i < |rank| && 0 <= j < |rank| && DependsOn(e, i, j) ==> rank[j] < rank[i]
  }

  /** The largest value of `LateDepth(j) + Late(i, j)` over the dependencies `j < k` of `i`. */
  ghost function LateOver(e: Engine, rank: seq<nat>, i: nat, k: nat): nat
    requires RankedBy(e, rank) && i < |rank| && k <= |rank|
    decreases rank[i], 0, k
  {
    if k == 0 then 0
    else
      var rest := LateOver(e, rank, i, k - 1);
      if DependsOn(e, i, k - 1) && LateDepth(e, rank, k - 1) + Late(i, k - 1) > rest
      then LateDepth(e, rank, k - 1) + Late(i, k - 1)
      else rest
  }

  /** The most late reads on any dependency path starting at formula `i`. */
  ghost function LateDepth(e: Engine, rank: seq<nat>, i: nat): nat
    requires RankedBy(e, rank) && i < |rank|
    decreases rank[i], 1, 0
  {
    LateOver(e, rank, i, |rank|)
  }

  lemma {:induction false} LateOverCovers(e: Engine, rank: seq<nat>, i: nat, j: nat, k: nat)
    requires RankedBy(e, rank) && i < |rank| && j < k <= |rank| && DependsOn(e, i, j)
    ensures LateDepth(e, rank, j) + Late(i, j) <= LateOver(e, rank, i, k)
    decreases k
  {
    if k > j + 1 {
      LateOverCovers(e, rank, i, j, k - 1);
    }
  }

  /** A dependency path: each formula reads the output of the next. */
  ghost predicate IsPath(e: Engine, path: seq<nat>) {
    && path != []
    && (forall k :: 0 <= k < |path| ==> path[k] < |e.registry|)
    && forall k :: 0 <= k < |path| - 1 ==> DependsOn(e, path[k], path[k + 1])
  }

  function LateReads(path: seq<nat>): nat {
    if |path| < 2 then 0 else Late(path[0], path[1]) + LateReads(path[1..])
  }

  lemma {:induction false} PathsAreBounded(e: Engine, rank: seq<nat>, path: seq<nat>)
    requires RankedBy(e, rank) && IsPath(e, path)
    ensures LateReads(path) <= LateDepth(e, rank, path[0])
    decreases |path|
  {
    if |path| >= 2 {
      var rest := path[1..];
      assert forall k :: 0 <= k < |rest| - 1 ==> DependsOn(e, rest[k], path[k + 2]);
      PathsAreBounded(e, rank, rest);
      assert DependsOn(e, path[0], path[1]);
      LateOverCovers(e, rank, path[0], path[1], |rank|);
    }
  }

  lemma {:induction false} DepthIsAttained(e: Engine, rank: seq<nat>, i: nat, k: nat) returns (path: seq<nat>)
    requires RankedBy(e, rank) && i < |rank| && k <= |rank|
    ensures IsPath(e, path) && path[0] == i && LateReads(path) == LateOver(e, rank, i, k)
    decreases rank[i], k
  {
    if k == 0 {
      path := [i];
    } else {
      var rest := LateOver(e, rank, i, k - 1);
      if DependsOn(e, i, k - 1) && LateDepth(e, rank, k - 1) + Late(i, k - 1) > rest {
        var tail := DepthIsAttained(e, rank, k - 1, |rank|);
        path := [i] + tail;
        assert path[1..] == tail;
      } else {
        path := DepthIsAttained(e, rank, i, k - 1);
      }
    }
  }

  /** `LateDepth` is exactly the largest number of late reads on a dependency path from `i`. */
  lemma LateDepthIsExact(e: Engine, rank: seq<nat>, i: nat) returns (path: seq<nat>)
    requires RankedBy(e, rank) && i < |rank|
    ensures IsPath(e, path) && path[0] == i && LateReads(path) == LateDepth(e, rank, i)
    ensures forall p :: IsPath(e, p) && p[0] == i ==> LateReads(p) <= LateReads(path)
  {
    path := DepthIsAttained(e, rank, i, |rank|);
    forall p | IsPath(e, p) && p[0] == i ensures LateReads(p) <= LateReads(path) {
      PathsAreBounded(e, rank, p);
    }
  }

  ghost predicate PathBound(e: Engine, bound: nat) {
    forall p :: IsPath(e, p) ==> LateReads(p) <= bound
  }

  /** Any acyclic registry, in any registration order: one run more than the most late reads on a
      dependency path reaches the fixpoint, from any store. */
  lemma AcyclicConvergence(e: Engine, rank: seq<nat>, bound: nat, w: World, u: World, n: nat, m: nat)
    requires WellFormed(e) && RankedBy(e, rank) && PathBound(e, bound) && SameHard(e, w, u)
    requires n >= bound + 1 && m >= bound + 1
    ensures Runs(e, w, n) == Runs(e, u, m)
    ensures Run(e, Runs(e, w, n)) == Runs(e, w, n)
  {
    var d := seq(|rank|, i requires 0 <= i < |rank| => LateDepth(e, rank, i));
    forall i, j | 0 <= i < |d| && 0 <= j < |d| && DependsOn(e, i, j) ensures d[j] + Late(i, j) <= d[i] {
      LateOverCovers(e, rank, i, j, |rank|);
    }
    forall i | 0 <= i < |d| ensures d[i] <= bound {
      var path := DepthIsAttained(e, rank, i, |rank|);
    }
    Convergence(e, d, bound, w, u, n, m);
  }

  /** In topological registration order a single run settles everything. */
  lemma TopologicalOrderNeedsOneRun(e: Engine, w: World)
    requires WellFormed(e)
    requires forall i, j :: 0 <= i < |e.registry| && 0 <= j < |e.registry| && DependsOn(e, i, j) ==> j < i
    ensures Run(e, Run(e, w)) == Run(e, w)
  {
    var d := seq(|e.registry|, _ => 0);
    assert SameHard(e, w, w);
    Convergence(e, d, 0, w, w, 1, 1);
    assert Runs(e, w, 1) == Run(e, Runs(e, w, 0)) == Run(e, w);
  }
}
