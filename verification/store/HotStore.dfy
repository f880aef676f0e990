/** The hot snapshot table: upsert by (ts_code, dp_id), and the merge that lets a
    stock's own row win over its industries' and its market's sentinel rows. */
module HotStore {
  import opened Basics
  import opened Json

  datatype Row = Row(value: Val, status: string, confidence: Option<real>, source: string, updatedAt: int)

  /** Primary key (ts_code, dp_id). */
  type Table = map<(string, string), Row>

  datatype Write = Write(tsCode: string, dpId: string, row: Row)

  // ---- upsert ---------------------------------------------------------------

  function Upserted(t: Table, batch: seq<Write>): Table {
    if batch == [] then t
    else
      var w := batch[|batch| - 1];
      Upserted(t, batch[..|batch| - 1])[(w.tsCode, w.dpId) := w.row]
  }

  predicate Writes(batch: seq<Write>, i: int, key: (string, string)) {
    0 <= i < |batch| && (batch[i].tsCode, batch[i].dpId) == key
  }

  /** The last write to a key wins. */
  lemma {:induction false} UpsertLastWins(t: Table, batch: seq<Write>, key: (string, string), i: nat)
    requires Writes(batch, i, key) && forall j :: i < j < |batch| ==> !Writes(batch, j, key)
    ensures key in Upserted(t, batch) && Upserted(t, batch)[key] == batch[i].row
  {
    var n := |batch| - 1;
    if i < n {
      assert !Writes(batch, n, key);
      assert forall j :: 0 <= j < n ==> (Writes(batch[..n], j, key) <==> Writes(batch, j, key));
      UpsertLastWins(t, batch[..n], key, i);
    }
  }

  /** A key the batch does not mention keeps its row. */
  lemma {:induction false} UpsertKeepsOthers(t: Table, batch: seq<Write>, key: (string, string))
    requires forall i :: 0 <= i < |batch| ==> !Writes(batch, i, key)
    ensures key in Upserted(t, batch) <==> key in t
    ensures key in t ==> Upserted(t, batch)[key] == t[key]
  {
    if batch != [] {
      var n := |batch| - 1;
      assert !Writes(batch, n, key);
      assert forall j :: 0 <= j < n ==> (Writes(batch[..n], j, key) <==> Writes(batch, j, key));
      UpsertKeepsOthers(t, batch[..n], key);
    }
  }

  class HotDb {
    var table: Table

    constructor ()
      ensures table == map[]
    {
      table := map[];
    }

    /** `upsert_realtime`. */
    method UpsertRealtime(batch: seq<Write>) returns (n: nat)
      modifies this
      ensures table == Upserted(old(table), batch) && n == |batch|
    {
      for i := 0 to |batch|
        invariant table == Upserted(old(table), batch[..i])
      {
        assert batch[..i + 1][..i] == batch[..i];
        table := table[(batch[i].tsCode, batch[i].dpId) := batch[i].row];
      }
      assert batch[..|batch|] == batch;
      n := |batch|;
    }
  }

  // ---- lookup order ------------------------------------------------------------

  function MarketOf(tsCode: string): Option<string> {
    if EndsWith(tsCode, ".SH") || EndsWith(tsCode, ".SZ") || EndsWith(tsCode, ".BJ") then Some("CN")
    else if EndsWith(tsCode, ".HK") then Some("HK")
    else if EndsWith(tsCode, ".US") then Some("US")
    else None
  }

  function IndustrySentinels(industries: seq<string>): (r: seq<string>)
    ensures |r| == |industries|
  {
    seq(|industries|, i requires 0 <= i < |industries| => "INDUSTRY:" + industries[i])
  }

  function MarketSentinel(tsCode: string): seq<string> {
    if MarketOf(tsCode).Some? then ["MARKET:" + MarketOf(tsCode).value] else []
  }

  /** Stock, then its industries as listed (primary first), then its market. */
  function Candidates(tsCode: string, industries: seq<string>): seq<string> {
    [tsCode] + IndustrySentinels(industries) + MarketSentinel(tsCode)
  }

  /** `{t: i for i, t in enumerate(candidates)}`: a repeated origin keeps its last place. */
  function Priority(candidates: seq<string>, t: string): int {
    if candidates == [] then 999
    else if candidates[|candidates| - 1] == t then |candidates| - 1
    else Priority(candidates[..|candidates| - 1], t)
  }

  lemma {:induction false} PriorityIs(candidates: seq<string>, t: string)
    requires t in candidates
    ensures 0 <= Priority(candidates, t) < |candidates| && candidates[Priority(candidates, t)] == t
    ensures forall i :: Priority(candidates, t) < i < |candidates| ==> candidates[i] != t
  {
    if candidates[|candidates| - 1] != t {
      var front := candidates[..|candidates| - 1];
      assert t in front;
      PriorityIs(front, t);
    }
  }

  predicate Holds(table: Table, candidates: seq<string>, dp: string, t: string) {
    t in candidates && (t, dp) in table
  }

  /** `t` holds a row for `dp`, and no origin of smaller priority does. */
  ghost predicate IsBest(table: Table, candidates: seq<string>, dp: string, t: string) {
    && Holds(table, candidates, dp, t)
    && forall u :: Holds(table, candidates, dp, u) ==> Priority(candidates, t) <= Priority(candidates, u)
  }

  lemma BestIsUnique(table: Table, candidates: seq<string>, dp: string, t: string, u: string)
    requires IsBest(table, candidates, dp, t) && IsBest(table, candidates, dp, u)
    ensures t == u
  {
    PriorityIs(candidates, t);
    PriorityIs(candidates, u);
  }

  /** The first origin, in candidate order, that holds a row for `dp`. */
  function FirstOrigin(table: Table, candidates: seq<string>, dp: string): Option<string> {
    if candidates == [] then None
    else if (candidates[0], dp) in table then Some(candidates[0])
    else FirstOrigin(table, candidates[1..], dp)
  }

  lemma {:induction false} FirstOriginIs(table: Table, candidates: seq<string>, dp: string)
    ensures match FirstOrigin(table, candidates, dp)
            case None => forall t :: !Holds(table, candidates, dp, t)
            case Some(t) => exists i :: 0 <= i < |candidates| && candidates[i] == t && (t, dp) in table
                              && forall j :: 0 <= j < i ==> (candidates[j], dp) !in table
  {
    if candidates != [] {
      if (candidates[0], dp) in table {
        assert candidates[0] == candidates[0];
      } else {
        var rest := candidates[1..];
        FirstOriginIs(table, rest, dp);
        forall t ensures Holds(table, candidates, dp, t) ==> Holds(table, rest, dp, t) {
        }
        if FirstOrigin(table, rest, dp).Some? {
          var i :| 0 <= i < |rest| && rest[i] == FirstOrigin(table, rest, dp).value
            && forall j :: 0 <= j < i ==> (rest[j], dp) !in table;
          assert candidates[i + 1] == rest[i];
          forall j | 0 <= j < i + 1 ensures (candidates[j], dp) !in table {
            if j > 0 {
              assert candidates[j] == rest[j - 1];
            }
          }
        }
      }
    }
  }

  /** Without repeated origins, the best row is the first origin's. */
  lemma BestIsFirst(table: Table, candidates: seq<string>, dp: string, t: string)
    requires Distinct(candidates)
    ensures IsBest(table, candidates, dp, t) <==> FirstOrigin(table, candidates, dp) == Some(t)
  {
    FirstOriginIs(table, candidates, dp);
    var first := FirstOrigin(table, candidates, dp);
    if first.Some? {
      var i :| 0 <= i < |candidates| && candidates[i] == first.value && (first.value, dp) in table
        && forall j :: 0 <= j < i ==> (candidates[j], dp) !in table;
      PriorityIs(candidates, first.value);
      forall u | Holds(table, candidates, dp, u) ensures i <= Priority(candidates, u) {
        PriorityIs(candidates, u);
      }
      assert IsBest(table, candidates, dp, first.value);
      if IsBest(table, candidates, dp, t) {
        BestIsUnique(table, candidates, dp, t, first.value);
      }
    }
  }

  // ---- the running-best loop ------------------------------------------------------

  /** What a SELECT over the table returns: matching rows, once each, in any order. */
  ghost predicate Listing(table: Table, candidates: seq<string>, rows: seq<Write>) {
    && (forall i, j :: 0 <= i < j < |rows| ==> (rows[i].tsCode, rows[i].dpId) != (rows[j].tsCode, rows[j].dpId))
    && (forall i :: 0 <= i < |rows| ==> Listed(table, candidates, rows[i]))
    && forall t, dp :: t in candidates && (t, dp) in table ==> Write(t, dp, table[(t, dp)]) in rows
  }

  predicate Listed(table: Table, candidates: seq<string>, w: Write) {
    w.tsCode in candidates && (w.tsCode, w.dpId) in table && table[(w.tsCode, w.dpId)] == w.row
  }

  /** A merged entry keeps the origin it came from. */
  datatype Picked = Picked(origin: string, row: Row)

  /** `best` is right for the rows read so far. */
  ghost predicate BestSoFar(candidates: seq<string>, rows: seq<Write>, best: map<string, Picked>) {
    && (forall dp :: dp in best ==> Write(best[dp].origin, dp, best[dp].row) in rows)
    && forall w :: w in rows ==>
         w.dpId in best && Priority(candidates, best[w.dpId].origin) <= Priority(candidates, w.tsCode)
  }

  /** The snapshot the readers get: the best origin's row for every dp_id some origin holds. */
  ghost predicate MergedSnapshot(table: Table, candidates: seq<string>, best: map<string, Picked>) {
    && (forall dp :: dp in best <==> exists t :: Holds(table, candidates, dp, t))
    && forall dp :: dp in best ==>
         && IsBest(table, candidates, dp, best[dp].origin)
         && best[dp].row == table[(best[dp].origin, dp)]
  }

  /** The merge loop of `read_hot_snapshot`; right whatever order the rows come in. */
  method MergeRows(ghost table: Table, candidates: seq<string>, rows: seq<Write>) returns (best: map<string, Picked>)
    requires Listing(table, candidates, rows)
    ensures MergedSnapshot(table, candidates, best)
  {
    hide Listing, MergedSnapshot, Priority;
    best := map[];
    for i := 0 to |rows|
      invariant BestSoFar(candidates, rows[..i], best)
    {
      var w := rows[i];
      assert rows[..i + 1] == rows[..i] + [w];
      var p := Priority(candidates, w.tsCode);
      if w.dpId !in best || Priority(candidates, best[w.dpId].origin) > p {
        best := best[w.dpId := Picked(w.tsCode, w.row)];
      }
    }
    assert rows[..|rows|] == rows;
    AllRowsRead(table, candidates, rows, best);
  }

  lemma AllRowsRead(table: Table, candidates: seq<string>, rows: seq<Write>, best: map<string, Picked>)
    requires Listing(table, candidates, rows) && BestSoFar(candidates, rows, best)
    ensures MergedSnapshot(table, candidates, best)
  {
    forall dp | dp in best
      ensures IsBest(table, candidates, dp, best[dp].origin) && best[dp].row == table[(best[dp].origin, dp)]
    {
      var w := Write(best[dp].origin, dp, best[dp].row);
      assert w in rows && Listed(table, candidates, w);
      forall u | Holds(table, candidates, dp, u)
        ensures Priority(candidates, best[dp].origin) <= Priority(candidates, u)
      {
        assert Write(u, dp, table[(u, dp)]) in rows;
      }
    }
    forall dp, t | Holds(table, candidates, dp, t) ensures dp in best {
      assert Write(t, dp, table[(t, dp)]) in rows;
    }
  }

  /** Priority merge: for distinct origins, every merged entry is the row of the first origin that
      holds one, in stock, primary industry, other industries, market order. */
  lemma PriorityMerge(table: Table, candidates: seq<string>, best: map<string, Picked>, dp: string)
    requires MergedSnapshot(table, candidates, best) && Distinct(candidates)
    ensures match FirstOrigin(table, candidates, dp)
            case None => dp !in best
            case Some(t) => dp in best && (t, dp) in table && best[dp] == Picked(t, table[(t, dp)])
  {
    FirstOriginIs(table, candidates, dp);
    var first := FirstOrigin(table, candidates, dp);
    assert first.Some? ==> Holds(table, candidates, dp, first.value);
    if dp in best {
      BestIsFirst(table, candidates, dp, best[dp].origin);
    }
  }

  // ---- the verifier's own lookup ------------------------------------------------------

  /** Stable insertion by priority. */
  function InsertByPriority(candidates: seq<string>, w: Write, sorted: seq<Write>): seq<Write> {
    if sorted == [] then [w]
    else if Priority(candidates, w.tsCode) < Priority(candidates, sorted[0].tsCode) then [w] + sorted
    else [sorted[0]] + InsertByPriority(candidates, w, sorted[1..])
  }

  /** `rows.sort(key=priority)`. */
  function SortByPriority(candidates: seq<string>, rows: seq<Write>): seq<Write> {
    if rows == [] then []
    else InsertByPriority(candidates, rows[|rows| - 1], SortByPriority(candidates, rows[..|rows| - 1]))
  }

  ghost predicate HeadIsLeast(candidates: seq<string>, sorted: seq<Write>) {
    forall w :: w in sorted ==> Priority(candidates, sorted[0].tsCode) <= Priority(candidates, w.tsCode)
  }

  lemma {:induction false} InsertKeepsMembers(candidates: seq<string>, w: Write, sorted: seq<Write>)
    ensures var r := InsertByPriority(candidates, w, sorted);
            && r != [] && (r[0] == w || (sorted != [] && r[0] == sorted[0]))
            && multiset(r) == multiset(sorted) + multiset{w}
            && forall x :: x in r <==> x == w || x in sorted
    ensures HeadIsLeast(candidates, sorted) ==> HeadIsLeast(candidates, InsertByPriority(candidates, w, sorted))
  {
    if sorted != [] && Priority(candidates, w.tsCode) >= Priority(candidates, sorted[0].tsCode) {
      InsertKeepsMembers(candidates, w, sorted[1..]);
      assert sorted == [sorted[0]] + sorted[1..];
    }
  }

  lemma {:induction false} SortedHead(candidates: seq<string>, rows: seq<Write>)
    ensures var s := SortByPriority(candidates, rows);
            HeadIsLeast(candidates, s) && multiset(s) == multiset(rows) && forall x :: x in s <==> x in rows
  {
    hide InsertByPriority, Priority;
    if rows != [] {
      var front := rows[..|rows| - 1];
      SortedHead(candidates, front);
      InsertKeepsMembers(candidates, rows[|rows| - 1], SortByPriority(candidates, front));
      assert rows == front + [rows[|rows| - 1]];
    }
  }

  /** The rows of one dp_id, listed in any order. */
  ghost predicate ListingFor(table: Table, candidates: seq<string>, dp: string, rows: seq<Write>) {
    forall w :: w in rows <==> Listed(table, candidates, w) && w.dpId == dp
  }

  /** `_lookup_sqlite_value`: sort by priority and take the head. */
  method LookupBySorting(ghost table: Table, candidates: seq<string>, dp: string, rows: seq<Write>) returns (found: Option<Picked>)
    requires ListingFor(table, candidates, dp, rows)
    ensures found.None? <==> forall t :: !Holds(table, candidates, dp, t)
    ensures found.Some? ==> IsBest(table, candidates, dp, found.value.origin)
                            && found.value.row == table[(found.value.origin, dp)]
  {
    hide Priority, InsertByPriority, SortByPriority;
    forall t | Holds(table, candidates, dp, t) ensures Write(t, dp, table[(t, dp)]) in rows {
      assert Listed(table, candidates, Write(t, dp, table[(t, dp)]));
    }
    var sorted := SortByPriority(candidates, rows);
    SortedHead(candidates, rows);
    HeadIsMember(sorted);
    HeadIsMember(rows);
    if rows == [] {
      assert forall t :: !Holds(table, candidates, dp, t);
      return None;
    }
    assert rows[0] in sorted;
    assert Listed(table, candidates, sorted[0]) && Holds(table, candidates, dp, sorted[0].tsCode);
    found := Some(Picked(sorted[0].tsCode, sorted[0].row));
    forall u | Holds(table, candidates, dp, u)
      ensures Priority(candidates, sorted[0].tsCode) <= Priority(candidates, u)
    {
      assert Write(u, dp, table[(u, dp)]) in sorted;
    }
  }

  /** Both lookups pick the same row. */
  lemma LookupsAgree(table: Table, candidates: seq<string>, best: map<string, Picked>, dp: string, found: Option<Picked>)
    requires MergedSnapshot(table, candidates, best)
    requires found.None? <==> forall t :: !Holds(table, candidates, dp, t)
    requires found.Some? ==> IsBest(table, candidates, dp, found.value.origin)
                             && found.value.row == table[(found.value.origin, dp)]
    ensures found == if dp in best then Some(best[dp]) else None
  {
    if dp in best && found.Some? {
      BestIsUnique(table, candidates, dp, best[dp].origin, found.value.origin);
    }
  }
}
