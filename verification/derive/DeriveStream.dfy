/** The derive run as the stream's writer: every derived row is stamped with a clock reading taken
    before the run starts, and reaches the store when the run ends. */
module DeriveStream {
  import opened Basics
  import opened Json
  import opened HotStore
  import opened SseStream
  import D = DeriveEngine

  /** How a derived row is spelled in the store. */
  datatype Naming = Naming(id: D.Dp -> string, source: D.Dp -> string, json: D.Value -> Val, status: D.RowStatus -> string)

  /** Everything one run writes for the company: bootstrap rows and outputs. */
  function Written(e: D.Engine, w: D.World): map<D.Dp, D.Row> {
    D.BootRows(e, D.UsableRows(w)) + D.PersistedRows(D.EmitAll(e, w))
  }

  lemma RunWrites(e: D.Engine, w: D.World)
    ensures D.Run(e, w).stock == w.stock + Written(e, w) && D.Run(e, w).background == w.background
  {
    hide D.BootRows, D.PersistedRows, D.EmitAll, D.UsableRows;
  }

  /** The stored row of `dp`, stamped `start`. */
  function Stamped(nm: Naming, dp: D.Dp, r: D.Row, start: int): Row {
    Row(nm.json(r.value), nm.status(r.status), r.confidence, nm.source(dp), start)
  }

  /** `batch` writes exactly these rows for the company, in some order. */
  ghost predicate Writing(batch: seq<Write>, tsCode: string, nm: Naming, rows: map<D.Dp, D.Row>, start: int) {
    && (forall p, q :: p in rows && q in rows && nm.id(p) == nm.id(q) ==> p == q)
    && (forall i :: 0 <= i < |batch| ==>
          exists dp :: dp in rows && batch[i] == Write(tsCode, nm.id(dp), Stamped(nm, dp, rows[dp], start)))
    && forall dp :: dp in rows ==> Write(tsCode, nm.id(dp), Stamped(nm, dp, rows[dp], start)) in batch
  }

  lemma {:induction false} UpsertSame(t: Table, batch: seq<Write>, key: (string, string), row: Row)
    requires forall i :: Writes(batch, i, key) ==> batch[i].row == row
    ensures (exists i :: Writes(batch, i, key)) ==> key in Upserted(t, batch) && Upserted(t, batch)[key] == row
  {
    if batch != [] {
      var n := |batch| - 1;
      var front := batch[..n];
      assert forall i :: 0 <= i < n ==> (Writes(front, i, key) <==> Writes(batch, i, key));
      UpsertSame(t, front, key, row);
      if i :| Writes(batch, i, key) && i < n {
        assert Writes(front, i, key);
      }
    }
  }

  /** After the upsert the store holds every written row. */
  lemma WritingStores(t: Table, batch: seq<Write>, tsCode: string, nm: Naming, rows: map<D.Dp, D.Row>, start: int, dp: D.Dp)
    requires Writing(batch, tsCode, nm, rows, start) && dp in rows
    ensures var key := (tsCode, nm.id(dp));
            key in Upserted(t, batch) && Upserted(t, batch)[key] == Stamped(nm, dp, rows[dp], start)
  {
    hide Upserted;
    var key, row := (tsCode, nm.id(dp)), Stamped(nm, dp, rows[dp], start);
    var k :| 0 <= k < |batch| && batch[k] == Write(tsCode, nm.id(dp), row);
    assert Writes(batch, k, key);
    UpsertSame(t, batch, key, row);
  }

  /** Exactly when a derived row reaches a client with the poll that follows the run: when the run's clock
      reading is later than the stream's `last_check`, that is, when no poll came after the run had begun
      (or the client held that very row). */
  lemma DerivedRowArrives(e: D.Engine, w: D.World, s: Session, tsCode: string, nm: Naming, start: int, tick: Tick, dp: D.Dp)
    requires Writing(tick.batch, tsCode, nm, Written(e, w), start) && dp in Written(e, w)
    ensures InSync(Poll(s, tsCode, tick), tsCode, nm.id(dp)) <==>
            start > s.lastCheck || Held(s.view, nm.id(dp)) == Some(Stamped(nm, dp, Written(e, w)[dp], start))
    ensures dp in D.Run(e, w).stock && D.Run(e, w).stock[dp] == Written(e, w)[dp]
  {
    RunWrites(e, w);
    hide Written, Upserted, Poll, D.Run;
    WritingStores(s.table, tick.batch, tsCode, nm, Written(e, w), start, dp);
    PollExact(s, tsCode, tick, nm.id(dp));
  }

  /** A poll that falls between the run's clock reading and its upsert leaves a `last_check` no earlier than
      that reading: from there the stream misses everything the run derived. */
  lemma PollDuringRunMisses(e: D.Engine, w: D.World, s: Session, tsCode: string, nm: Naming, start: int, tick: Tick, dp: D.Dp)
    requires start <= s.lastCheck && start <= tick.now && Writing(tick.batch, tsCode, nm, Written(e, w), start) && dp in Written(e, w)
    requires Held(s.view, nm.id(dp)) != Some(Stamped(nm, dp, Written(e, w)[dp], start))
    ensures Missed(Poll(s, tsCode, tick), tsCode, nm.id(dp))
    ensures Poll(s, tsCode, tick).table[(tsCode, nm.id(dp))].updatedAt == start
  {
    hide Written, Upserted, Poll;
    WritingStores(s.table, tick.batch, tsCode, nm, Written(e, w), start, dp);
    LateWriteIsMissed(s, tsCode, nm.id(dp), tick);
    PollTable(s, tsCode, tick);
  }

  /** Nobody writes the row again, and the clock does not run back behind its stamp. */
  predicate Unwritten(later: seq<Tick>, key: (string, string), start: int) {
    forall i :: 0 <= i < |later| ==> later[i].now >= start && forall j :: 0 <= j < |later[i].batch| ==> !Writes(later[i].batch, j, key)
  }

  /** So the client stays without the derived rows, poll after poll. */
  lemma PollDuringRunMissesAll(e: D.Engine, w: D.World, s: Session, tsCode: string, nm: Naming, start: int,
                               tick: Tick, later: seq<Tick>, dp: D.Dp)
    requires start <= s.lastCheck && start <= tick.now && Writing(tick.batch, tsCode, nm, Written(e, w), start) && dp in Written(e, w)
    requires Held(s.view, nm.id(dp)) != Some(Stamped(nm, dp, Written(e, w)[dp], start))
    requires Unwritten(later, (tsCode, nm.id(dp)), start)
    ensures Missed(After(Poll(s, tsCode, tick), tsCode, later), tsCode, nm.id(dp))
  {
    hide Written, Upserted, ChangedSince, Missed, Writing;
    PollDuringRunMisses(e, w, s, tsCode, nm, start, tick, dp);
    forall i, j | 0 <= i < |later| ensures !Writes(later[i].batch, j, (tsCode, nm.id(dp))) {
    }
    MissedStaysMissed(Poll(s, tsCode, tick), tsCode, nm.id(dp), later);
  }
}
