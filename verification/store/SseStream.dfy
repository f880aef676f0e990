/** The realtime stream: one full snapshot, then polled deltas. When does a client that
    folds what it receives hold exactly the store's rows? */
module SseStream {
  import opened Basics
  import opened HotStore
  import opened SnapshotOrigins

  type View = map<string, Row>

  datatype Frame = Snapshot(merged: map<string, Picked>) | Delta(values: View, at: int) | Heartbeat(at: int) | Close

  /** A client starts from the snapshot and overwrites with each delta. */
  function Receive(v: View, f: Frame): View {
    match f
    case Snapshot(merged) => map dp | dp in merged :: merged[dp].row
    case Delta(values, _) => v + values
    case _ => v
  }

  function Fold(frames: seq<Frame>): View {
    if frames == [] then map[] else Receive(Fold(frames[..|frames| - 1]), frames[|frames| - 1])
  }

  /** `read_hot_snapshot_changed_since`. */
  function ChangedSince(table: Table, tsCode: string, since: int): View {
    map key | key in table && key.0 == tsCode && table[key].updatedAt > since :: key.1 := table[key]
  }

  lemma ChangedSinceIs(table: Table, tsCode: string, since: int, dp: string)
    ensures dp in ChangedSince(table, tsCode, since) <==> (tsCode, dp) in table && table[(tsCode, dp)].updatedAt > since
    ensures dp in ChangedSince(table, tsCode, since) ==> ChangedSince(table, tsCode, since)[dp] == table[(tsCode, dp)]
  {
    if (tsCode, dp) in table && table[(tsCode, dp)].updatedAt > since {
      assert (tsCode, dp).1 == dp;
    }
  }

  /** What happens between two turns of the polling loop: the collector's writes since the previous
      read, the clock reading `now` taken before this read, and the conditions the loop tests. */
  datatype Tick = Tick(batch: seq<Write>, now: int, expired: bool, heartbeatDue: bool, delivered: bool)

  /** Store, the stream's `last_check`, and what the client holds. */
  datatype Session = Session(table: Table, lastCheck: int, view: View)

  function Poll(s: Session, tsCode: string, tick: Tick): Session {
    var table := Upserted(s.table, tick.batch);
    Session(table, tick.now, s.view + ChangedSince(table, tsCode, s.lastCheck))
  }

  function After(s: Session, tsCode: string, ticks: seq<Tick>): Session {
    if ticks == [] then s else Poll(After(s, tsCode, ticks[..|ticks| - 1]), tsCode, ticks[|ticks| - 1])
  }

  lemma FoldStep(frames: seq<Frame>, f: Frame)
    ensures Fold(frames + [f]) == Receive(Fold(frames), f)
  {
    assert (frames + [f])[..|frames|] == frames;
  }

  lemma StartFold()
    ensures Fold([]) == map[]
  {
  }

  lemma NoTicks(s: Session, tsCode: string, ticks: seq<Tick>)
    ensures After(s, tsCode, ticks[..0]) == s
  {
  }

  lemma ReceiveQuiet(v: View, f: Frame)
    requires f.Heartbeat? || f.Close?
    ensures Receive(v, f) == v
  {
  }

  lemma ReceiveDelta(v: View, delta: View, at: int)
    ensures Receive(v, Delta(delta, at)) == v + delta
  {
  }

  lemma AfterStep(s: Session, tsCode: string, ticks: seq<Tick>, i: nat)
    requires i < |ticks|
    ensures After(s, tsCode, ticks[..i + 1]) == Poll(After(s, tsCode, ticks[..i]), tsCode, ticks[i])
  {
    hide Poll;
    assert ticks[..i + 1][..i] == ticks[..i];
  }

  /** `stream_realtime_delta`: frames written until the stream expires, the client goes away, or the
      observed ticks end. The client's fold follows the session, tick by tick. */
  method StreamRealtimeDelta(initial: map<string, Picked>, table: Table, tsCode: string, startedAt: int, ticks: seq<Tick>)
    returns (frames: seq<Frame>, polls: nat)
    ensures polls <= |ticks|
    ensures Fold(frames) == After(Session(table, startedAt, Receive(map[], Snapshot(initial))), tsCode, ticks[..polls]).view
    ensures polls < |ticks| ==> ticks[polls].expired || !ticks[polls].delivered
    ensures forall i :: 0 <= i < polls ==> !ticks[i].expired
  {
    hide ChangedSince, Upserted, After, Fold, Receive;
    var current, lastCheck := table, startedAt;
    ghost var start := Session(table, startedAt, Receive(map[], Snapshot(initial)));
    frames, polls := [Snapshot(initial)], 0;
    FoldStep([], Snapshot(initial));
    assert [] + [Snapshot(initial)] == frames;
    StartFold();
    NoTicks(start, tsCode, ticks);
    while polls < |ticks|
      invariant polls <= |ticks|
      invariant After(start, tsCode, ticks[..polls]) == Session(current, lastCheck, Fold(frames))
      invariant forall i :: 0 <= i < polls ==> !ticks[i].expired
    {
      var tick := ticks[polls];
      if tick.expired {
        FoldStep(frames, Close);
        ReceiveQuiet(Fold(frames), Close);
        frames := frames + [Close];
        return;
      }
      current := Upserted(current, tick.batch);
      var delta := ChangedSince(current, tsCode, lastCheck);
      lastCheck := tick.now;
      AfterStep(start, tsCode, ticks, polls);
      if delta != map[] {
        if !tick.delivered {
          return;
        }
        FoldStep(frames, Delta(delta, tick.now));
        ReceiveDelta(Fold(frames), delta, tick.now);
        frames := frames + [Delta(delta, tick.now)];
      } else {
        assert Fold(frames) + delta == Fold(frames);
        if tick.heartbeatDue {
          if !tick.delivered {
            return;
          }
          FoldStep(frames, Heartbeat(tick.now));
          ReceiveQuiet(Fold(frames), Heartbeat(tick.now));
          frames := frames + [Heartbeat(tick.now)];
        }
      }
      polls := polls + 1;
    }
  }

  // ---- catching up -----------------------------------------------------------------

  /** The client holds the store's row under `dp`, if the stock has one. */
  predicate InSync(s: Session, tsCode: string, dp: string) {
    (tsCode, dp) in s.table ==> dp in s.view && s.view[dp] == s.table[(tsCode, dp)]
  }

  /** What the client should hold: the store's row where the stock has one, and elsewhere what the first
      snapshot said, no more and no less. */
  function Expected(table: Table, tsCode: string, first: View, dp: string): Option<Row> {
    if (tsCode, dp) in table then Some(table[(tsCode, dp)])
    else if dp in first then Some(first[dp])
    else None
  }

  function Held(v: View, dp: string): Option<Row> { if dp in v then Some(v[dp]) else None }

  ghost predicate Synced(s: Session, tsCode: string, first: View) {
    forall dp :: Held(s.view, dp) == Expected(s.table, tsCode, first, dp)
  }

  /** The first snapshot is in sync: the stock's own rows win the merge. Where the stock has none it shows
      the row of the first sentinel that has one, or nothing. */
  lemma SnapshotInSync(table: Table, tsCode: string, industries: seq<string>, best: map<string, Picked>, startedAt: int)
    requires Distinct(industries) && !IsSentinel(tsCode)
    requires MergedSnapshot(table, Candidates(tsCode, industries), best)
    ensures var first := Receive(map[], Snapshot(best));
            && Synced(Session(table, startedAt, first), tsCode, first)
            && forall dp :: (tsCode, dp) !in table ==>
                 match FirstOrigin(table, Candidates(tsCode, industries), dp)
                 case None => dp !in first
                 case Some(origin) => origin != tsCode && dp in first && (origin, dp) in table && first[dp] == table[(origin, dp)]
  {
    var c := Candidates(tsCode, industries);
    CandidatesDistinct(tsCode, industries);
    forall dp | (tsCode, dp) !in table
      ensures match FirstOrigin(table, c, dp)
              case None => dp !in best
              case Some(origin) => origin != tsCode && dp in best && (origin, dp) in table && best[dp].row == table[(origin, dp)]
    {
      PriorityMerge(table, c, best, dp);
    }
    var first := Receive(map[], Snapshot(best));
    forall dp ensures Held(first, dp) == Expected(table, tsCode, first, dp) {
      if (tsCode, dp) in table {
        assert c[0] == tsCode;
        FirstOriginAt(table, c, dp, 0);
        PriorityMerge(table, c, best, dp);
        assert dp in first && first[dp] == best[dp].row;
      }
    }
  }

  /** Exactly what one poll repairs: afterwards the client is right about `dp` if and only if the row's
      stamp lies above the `last_check` in force, or the client already held that row. */
  lemma PollExact(s: Session, tsCode: string, tick: Tick, dp: string)
    ensures var table := Upserted(s.table, tick.batch);
            (tsCode, dp) in table ==>
              (InSync(Poll(s, tsCode, tick), tsCode, dp) <==>
                 table[(tsCode, dp)].updatedAt > s.lastCheck || (dp in s.view && s.view[dp] == table[(tsCode, dp)]))
  {
    hide ChangedSince, Upserted;
    ChangedSinceIs(Upserted(s.table, tick.batch), tsCode, s.lastCheck, dp);
  }

  /** Every write to the stock's rows is stamped strictly above the `last_check` in force when it is
      next read. */
  ghost predicate OnTime(s: Session, tsCode: string, ticks: seq<Tick>) {
    forall i, j :: 0 <= i < |ticks| && 0 <= j < |ticks[i].batch| && ticks[i].batch[j].tsCode == tsCode ==>
      ticks[i].batch[j].row.updatedAt > LastCheck(s, ticks, i)
  }

  function LastCheck(s: Session, ticks: seq<Tick>, i: nat): int
    requires i <= |ticks|
  {
    if i == 0 then s.lastCheck else ticks[i - 1].now
  }

  lemma {:induction false} UpsertFrom(t: Table, batch: seq<Write>, key: (string, string))
    ensures key in Upserted(t, batch) ==>
              (key in t && Upserted(t, batch)[key] == t[key]) ||
              exists j :: 0 <= j < |batch| && Writes(batch, j, key) && Upserted(t, batch)[key] == batch[j].row
  {
    if batch != [] {
      var n := |batch| - 1;
      UpsertFrom(t, batch[..n], key);
      assert Writes(batch, n, key) ==> Upserted(t, batch)[key] == batch[n].row;
      if !Writes(batch, n, key) && key in Upserted(t, batch[..n]) && !(key in t && Upserted(t, batch[..n])[key] == t[key]) {
        var j :| 0 <= j < n && Writes(batch[..n], j, key) && Upserted(t, batch[..n])[key] == batch[..n][j].row;
        assert Writes(batch, j, key);
      }
    }
  }

  lemma {:induction false} UpsertGrows(t: Table, batch: seq<Write>, key: (string, string))
    ensures key in t ==> key in Upserted(t, batch)
  {
    if batch != [] {
      UpsertGrows(t, batch[..|batch| - 1], key);
    }
  }

  /** One poll after on-time writes leaves the client in sync. */
  lemma PollCatchesUp(s: Session, tsCode: string, tick: Tick, first: View)
    requires Synced(s, tsCode, first)
    requires forall j :: 0 <= j < |tick.batch| && tick.batch[j].tsCode == tsCode ==> tick.batch[j].row.updatedAt > s.lastCheck
    ensures Synced(Poll(s, tsCode, tick), tsCode, first)
  {
    hide Upserted, Poll;
    var after := Poll(s, tsCode, tick);
    PollTable(s, tsCode, tick);
    forall dp ensures Held(after.view, dp) == Expected(after.table, tsCode, first, dp) {
      assert Held(s.view, dp) == Expected(s.table, tsCode, first, dp);
      if (tsCode, dp) in after.table {
        PollExact(s, tsCode, tick, dp);
        UpsertFrom(s.table, tick.batch, (tsCode, dp));
      } else {
        UpsertGrows(s.table, tick.batch, (tsCode, dp));
        PollView(s, tsCode, tick, dp);
      }
    }
  }

  lemma PollTable(s: Session, tsCode: string, tick: Tick)
    ensures Poll(s, tsCode, tick).table == Upserted(s.table, tick.batch)
  {
  }

  /** Deltas carry rows of the stock only. */
  lemma PollView(s: Session, tsCode: string, tick: Tick, dp: string)
    requires (tsCode, dp) !in Upserted(s.table, tick.batch)
    ensures Held(Poll(s, tsCode, tick).view, dp) == Held(s.view, dp)
  {
    hide Upserted;
  }

  lemma {:induction false} LastCheckAfter(s: Session, tsCode: string, ticks: seq<Tick>)
    ensures After(s, tsCode, ticks).lastCheck == LastCheck(s, ticks, |ticks|)
  {
  }

  /** Catch-up: if every write is on time, then after each poll the client holds exactly the store's
      rows for the stock, and besides them exactly the sentinel rows of the first snapshot under dp_ids
      the stock still has no row for. */
  lemma {:induction false} CatchUp(s: Session, tsCode: string, ticks: seq<Tick>, first: View)
    requires Synced(s, tsCode, first) && OnTime(s, tsCode, ticks)
    ensures Synced(After(s, tsCode, ticks), tsCode, first)
  {
    hide Poll, Synced;
    if ticks != [] {
      var n := |ticks| - 1;
      var front := ticks[..n];
      assert OnTime(s, tsCode, front) by {
        forall i, j | 0 <= i < n && 0 <= j < |front[i].batch| && front[i].batch[j].tsCode == tsCode
          ensures front[i].batch[j].row.updatedAt > LastCheck(s, front, i)
        {
          assert ticks[i].batch[j].row.updatedAt > LastCheck(s, ticks, i);
        }
      }
      CatchUp(s, tsCode, front, first);
      LastCheckAfter(s, tsCode, front);
      PollCatchesUp(After(s, tsCode, front), tsCode, ticks[n], first);
    }
  }

  // ---- missing a write ---------------------------------------------------------------

  /** The client is wrong about `dp` and no poll will ever pick the row up. */
  predicate Missed(s: Session, tsCode: string, dp: string) {
    (tsCode, dp) in s.table && s.table[(tsCode, dp)].updatedAt <= s.lastCheck && !InSync(s, tsCode, dp)
  }

  /** A missed write stays missed, poll after poll, until its key is rewritten (the clock does not run
      backwards past the row's stamp). */
  lemma {:induction false} MissedStaysMissed(s: Session, tsCode: string, dp: string, ticks: seq<Tick>)
    requires Missed(s, tsCode, dp)
    requires forall i :: 0 <= i < |ticks| ==> ticks[i].now >= s.table[(tsCode, dp)].updatedAt
    requires forall i, j :: 0 <= i < |ticks| ==> !Writes(ticks[i].batch, j, (tsCode, dp))
    ensures Missed(After(s, tsCode, ticks), tsCode, dp)
    ensures After(s, tsCode, ticks).table[(tsCode, dp)] == s.table[(tsCode, dp)]
  {
    hide Upserted, ChangedSince;
    if ticks != [] {
      var n := |ticks| - 1;
      MissedStaysMissed(s, tsCode, dp, ticks[..n]);
      var before := After(s, tsCode, ticks[..n]);
      UpsertKeepsOthers(before.table, ticks[n].batch, (tsCode, dp));
      ChangedSinceIs(Upserted(before.table, ticks[n].batch), tsCode, before.lastCheck, dp);
    }
  }

  /** A late write is missed at once: right after the poll that should have shown it, it is `Missed`. */
  lemma LateWriteIsMissed(s: Session, tsCode: string, dp: string, tick: Tick)
    requires (tsCode, dp) in Upserted(s.table, tick.batch)
    requires var r := Upserted(s.table, tick.batch)[(tsCode, dp)];
             r.updatedAt <= s.lastCheck && r.updatedAt <= tick.now && !(dp in s.view && s.view[dp] == r)
    ensures Missed(Poll(s, tsCode, tick), tsCode, dp)
  {
    PollExact(s, tsCode, tick, dp);
  }

  lemma OneWrite(tsCode: string, dp: string, row: Row)
    ensures Upserted(map[], [Write(tsCode, dp, row)]) == map[(tsCode, dp) := row]
  {
    assert [Write(tsCode, dp, row)][..0] == [];
  }

  lemma TwoTicks(s: Session, tsCode: string, a: Tick, b: Tick)
    ensures After(s, tsCode, [a, b]) == Poll(Poll(s, tsCode, a), tsCode, b)
  {
    hide Poll;
    assert [a, b][..1] == [a] && [a][..0] == [];
    assert After(s, tsCode, [a]) == Poll(s, tsCode, a);
  }

  lemma EmptyStoreInSync(lastCheck: int, tsCode: string)
    ensures Synced(Session(map[], lastCheck, map[]), tsCode, map[])
  {
  }

  /** Concretely: time stamps are whole seconds, so a row written in the same second as a poll, just
      after it, is never delivered. */
  lemma SameSecondWriteIsMissed(tsCode: string, dp: string, row: Row, t: int, later: int)
    requires row.updatedAt == t && later >= t
    ensures var quiet := Tick([], t, false, false, true);
            var written := Tick([Write(tsCode, dp, row)], later, false, false, true);
            var s := Session(map[], t - 5, map[]);
            Synced(s, tsCode, map[]) && Missed(After(s, tsCode, [quiet, written]), tsCode, dp)
  {
    var quiet := Tick([], t, false, false, true);
    var written := Tick([Write(tsCode, dp, row)], later, false, false, true);
    var s := Session(map[], t - 5, map[]);
    var s1 := Session(map[], t, map[]);
    assert Poll(s, tsCode, quiet) == s1;
    OneWrite(tsCode, dp, row);
    hide Upserted, ChangedSince, Poll, InSync;
    LateWriteIsMissed(s1, tsCode, dp, written);
    TwoTicks(s, tsCode, quiet, written);
    EmptyStoreInSync(t - 5, tsCode);
  }
}
