/** The source fingerprint of a dp_id's dependencies, and the refresh decision taken on it. */
module Fingerprint {
  import opened Basics
  import opened TextOrder
  import opened Json
  import opened HotStore
  import opened OverlayMerge
  import G = Governance

  /** What one row contributes to the digest: dp_id, source, time stamp, value with its keys sorted
      (a parsed value has no key order). The filing period that is folded in for filing-class dp_ids is
      part of the value. */
  datatype Canon = Canon(dpId: string, source: string, updatedAt: int, value: Val)

  /** The two uses of the hash: over one row, and over the sub-digests in dp_id order. The dp_ids
      themselves do not go into the second. */
  datatype Hasher = Hasher(row: Canon -> string, combine: seq<string> -> string)

  /** `_candidate_ts_codes`: the stock, then its market; industries are not consulted. */
  function Origins(tsCode: string): seq<string> { [tsCode] + MarketSentinel(tsCode) }

  lemma OriginsDistinct(tsCode: string)
    ensures Distinct(Origins(tsCode))
  {
    if MarketOf(tsCode).Some? {
      var market := "MARKET:" + MarketOf(tsCode).value;
      assert market[|market| - 3] != '.';
    }
  }

  /** The dependencies some origin holds a row for. */
  function Covered(table: Table, tsCode: string, dependencies: seq<string>): (ids: seq<string>)
    ensures forall dp :: dp in ids <==> dp in dependencies && FirstOrigin(table, Origins(tsCode), dp).Some?
  {
    if dependencies == [] then []
    else
      var last := dependencies[|dependencies| - 1];
      assert dependencies == dependencies[..|dependencies| - 1] + [last];
      Covered(table, tsCode, dependencies[..|dependencies| - 1])
      + (if FirstOrigin(table, Origins(tsCode), last).Some? then [last] else [])
  }

  /** The covered dependencies as `sorted()` lists them. */
  function CoveredInOrder(table: Table, tsCode: string, dependencies: seq<string>): (ids: seq<string>)
    ensures forall dp :: dp in ids ==> FirstOrigin(table, Origins(tsCode), dp).Some?
  {
    SortedIs(Covered(table, tsCode, dependencies));
    Sorted(Covered(table, tsCode, dependencies))
  }

  lemma CoveredInOrderIs(table: Table, tsCode: string, dependencies: seq<string>)
    ensures var ids := CoveredInOrder(table, tsCode, dependencies);
            Increasing(ids) && forall dp :: dp in ids <==> dp in Covered(table, tsCode, dependencies)
  {
    SortedIs(Covered(table, tsCode, dependencies));
  }

  function CanonOf(table: Table, tsCode: string, dp: string): Canon
    requires FirstOrigin(table, Origins(tsCode), dp).Some?
  {
    FirstOriginIs(table, Origins(tsCode), dp);
    var r := table[(FirstOrigin(table, Origins(tsCode), dp).value, dp)];
    Canon(dp, r.source, r.updatedAt, r.value)
  }

  function Digests(h: Hasher, table: Table, tsCode: string, ids: seq<string>): (ds: seq<string>)
    requires forall dp :: dp in ids ==> FirstOrigin(table, Origins(tsCode), dp).Some?
    ensures |ds| == |ids|
  {
    seq(|ids|, i requires 0 <= i < |ids| => h.row(CanonOf(table, tsCode, ids[i])))
  }

  /** `compute_dependency_fingerprint`. */
  function FingerprintOf(h: Hasher, table: Option<Table>, tsCode: string, dependencies: seq<string>): Option<string> {
    if dependencies == [] || table.None? || Covered(table.value, tsCode, dependencies) == [] then None
    else Some(h.combine(Digests(h, table.value, tsCode, CoveredInOrder(table.value, tsCode, dependencies))))
  }

  /** The rows of the table whose dp_id is a dependency. */
  function Restricted(table: Table, dependencies: seq<string>): Table {
    map key | key in table && key.1 in dependencies :: table[key]
  }

  lemma {:induction false} RestrictedOrigin(table: Table, dependencies: seq<string>, candidates: seq<string>, dp: string)
    ensures FirstOrigin(Restricted(table, dependencies), candidates, dp) ==
            if dp in dependencies then FirstOrigin(table, candidates, dp) else None
  {
    if candidates != [] {
      RestrictedOrigin(table, dependencies, candidates[1..], dp);
    }
  }

  /** The program's computation: select, keep the best row per dp_id, hash. The result does not depend
      on the order in which the rows come back. */
  method ComputeFingerprint(h: Hasher, table: Option<Table>, tsCode: string, dependencies: seq<string>, rows: seq<Write>)
    returns (digest: Option<string>)
    requires table.Some? ==> Listing(Restricted(table.value, dependencies), Origins(tsCode), rows)
    ensures digest == FingerprintOf(h, table, tsCode, dependencies)
  {
    hide Listing, MergedSnapshot, FirstOrigin, Restricted;
    if dependencies == [] || table.None? {
      return None;
    }
    var best := MergeRows(Restricted(table.value, dependencies), Origins(tsCode), rows);
    OriginsDistinct(tsCode);
    forall dp ensures dp in best <==> dp in Covered(table.value, tsCode, dependencies) {
      PriorityMerge(Restricted(table.value, dependencies), Origins(tsCode), best, dp);
      RestrictedOrigin(table.value, dependencies, Origins(tsCode), dp);
    }
    HeadIsMember(Covered(table.value, tsCode, dependencies));
    if best == map[] {
      return None;
    }
    assert exists dp :: dp in best;
    var ids := SortKeys(best);
    CoveredInOrderIs(table.value, tsCode, dependencies);
    IncreasingUnique(ids, CoveredInOrder(table.value, tsCode, dependencies));
    var subs := SubDigests(h, table.value, tsCode, dependencies, best, ids);
    digest := Some(h.combine(subs));
  }

  /** The loop over the sorted dp_ids. */
  method SubDigests(h: Hasher, ghost table: Table, tsCode: string, dependencies: seq<string>, best: map<string, Picked>, ids: seq<string>)
    returns (subs: seq<string>)
    requires forall dp :: dp in ids ==> dp in best && dp in dependencies && FirstOrigin(table, Origins(tsCode), dp).Some?
    requires MergedSnapshot(Restricted(table, dependencies), Origins(tsCode), best)
    ensures subs == Digests(h, table, tsCode, ids)
  {
    hide MergedSnapshot, FirstOrigin, Restricted;
    subs := [];
    for i := 0 to |ids|
      invariant |subs| == i
      invariant forall j :: 0 <= j < i ==> subs[j] == h.row(CanonOf(table, tsCode, ids[j]))
    {
      var dp := ids[i];
      assert dp in ids;
      OriginsDistinct(tsCode);
      PriorityMerge(Restricted(table, dependencies), Origins(tsCode), best, dp);
      RestrictedOrigin(table, dependencies, Origins(tsCode), dp);
      RestrictedRow(table, dependencies, best[dp].origin, dp);
      subs := subs + [h.row(Canon(dp, best[dp].row.source, best[dp].row.updatedAt, best[dp].row.value))];
    }
  }

  lemma RestrictedRow(table: Table, dependencies: seq<string>, origin: string, dp: string)
    requires (origin, dp) in Restricted(table, dependencies)
    ensures (origin, dp) in table && Restricted(table, dependencies)[(origin, dp)] == table[(origin, dp)]
  {
  }

  /** Two of the given rows with the same digest are the same row. */
  ghost predicate RowsDiffer(h: Hasher, t: Table, u: Table, tsCode: string, a: seq<string>, b: seq<string>)
    requires forall dp :: dp in a ==> FirstOrigin(t, Origins(tsCode), dp).Some?
    requires forall dp :: dp in b ==> FirstOrigin(u, Origins(tsCode), dp).Some?
  {
    forall p, q :: p in a && q in b && h.row(CanonOf(t, tsCode, p)) == h.row(CanonOf(u, tsCode, q)) ==>
      CanonOf(t, tsCode, p) == CanonOf(u, tsCode, q)
  }

  /** The hash runs into no collision on what these two computations feed it: not between a canonical row of
      the one and a canonical row of the other, and not between the two lists of sub-digests. */
  ghost predicate NoCollision(h: Hasher, t: Table, u: Table, tsCode: string, dependencies: seq<string>) {
    var a, b := CoveredInOrder(t, tsCode, dependencies), CoveredInOrder(u, tsCode, dependencies);
    && RowsDiffer(h, t, u, tsCode, a, b)
    && (h.combine(Digests(h, t, tsCode, a)) == h.combine(Digests(h, u, tsCode, b)) ==>
          Digests(h, t, tsCode, a) == Digests(h, u, tsCode, b))
  }

  /** Equal lists of row digests come from equal rows, hence from equal dp_ids, although the dp_ids are not
      hashed a second time. */
  lemma DigestsRecoverRows(h: Hasher, t: Table, u: Table, tsCode: string, a: seq<string>, b: seq<string>)
    requires forall dp :: dp in a ==> FirstOrigin(t, Origins(tsCode), dp).Some?
    requires forall dp :: dp in b ==> FirstOrigin(u, Origins(tsCode), dp).Some?
    requires RowsDiffer(h, t, u, tsCode, a, b) && Digests(h, t, tsCode, a) == Digests(h, u, tsCode, b)
    ensures a == b && forall dp :: dp in a ==> CanonOf(t, tsCode, dp) == CanonOf(u, tsCode, dp)
  {
    hide FirstOrigin;
    assert |a| == |Digests(h, t, tsCode, a)| == |b|;
    forall i | 0 <= i < |a| ensures a[i] == b[i] && CanonOf(t, tsCode, a[i]) == CanonOf(u, tsCode, b[i]) {
      assert Digests(h, t, tsCode, a)[i] == Digests(h, u, tsCode, b)[i];
      assert a[i] in a && b[i] in b;
      CanonNamesDp(t, tsCode, a[i]);
      CanonNamesDp(u, tsCode, b[i]);
    }
    assert a == b;
  }

  lemma CanonNamesDp(t: Table, tsCode: string, dp: string)
    requires FirstOrigin(t, Origins(tsCode), dp).Some?
    ensures CanonOf(t, tsCode, dp).dpId == dp
  {
  }

  lemma SameDigests(h: Hasher, t: Table, u: Table, tsCode: string, ids: seq<string>)
    requires forall dp :: dp in ids ==>
               FirstOrigin(t, Origins(tsCode), dp).Some? && FirstOrigin(u, Origins(tsCode), dp).Some? &&
               CanonOf(t, tsCode, dp) == CanonOf(u, tsCode, dp)
    ensures Digests(h, t, tsCode, ids) == Digests(h, u, tsCode, ids)
  {
    hide FirstOrigin, CanonOf;
    forall i | 0 <= i < |ids| ensures Digests(h, t, tsCode, ids)[i] == Digests(h, u, tsCode, ids)[i] {
      assert ids[i] in ids;
    }
  }

  /** Short of a collision among what the two computations hash, the fingerprint changes exactly when the
      set of covered dependencies or the canonical row of one of them changes. */
  lemma FingerprintExact(h: Hasher, t: Table, u: Table, tsCode: string, dependencies: seq<string>)
    requires NoCollision(h, t, u, tsCode, dependencies)
    requires Covered(t, tsCode, dependencies) != [] && Covered(u, tsCode, dependencies) != []
    ensures FingerprintOf(h, Some(t), tsCode, dependencies) == FingerprintOf(h, Some(u), tsCode, dependencies) <==>
            && (forall dp :: dp in Covered(t, tsCode, dependencies) <==> dp in Covered(u, tsCode, dependencies))
            && forall dp :: dp in Covered(t, tsCode, dependencies) ==> CanonOf(t, tsCode, dp) == CanonOf(u, tsCode, dp)
  {
    hide FirstOrigin, CanonOf, Digests, Covered, CoveredInOrder, RowsDiffer;
    var a, b := CoveredInOrder(t, tsCode, dependencies), CoveredInOrder(u, tsCode, dependencies);
    CoveredInOrderIs(t, tsCode, dependencies);
    CoveredInOrderIs(u, tsCode, dependencies);
    HeadIsMember(dependencies);
    HeadIsMember(Covered(t, tsCode, dependencies));
    if FingerprintOf(h, Some(t), tsCode, dependencies) == FingerprintOf(h, Some(u), tsCode, dependencies) {
      DigestsRecoverRows(h, t, u, tsCode, a, b);
    }
    if (forall dp :: dp in Covered(t, tsCode, dependencies) <==> dp in Covered(u, tsCode, dependencies))
       && forall dp :: dp in Covered(t, tsCode, dependencies) ==> CanonOf(t, tsCode, dp) == CanonOf(u, tsCode, dp) {
      IncreasingUnique(a, b);
      SameDigests(h, t, u, tsCode, a);
    }
  }

  /** The rows behind the fingerprint: for each dependency the row of the stock, failing that the market's. */
  function RowBehind(t: Table, tsCode: string, dp: string): Option<Row> {
    if (tsCode, dp) in t then Some(t[(tsCode, dp)])
    else if MarketOf(tsCode).Some? && ("MARKET:" + MarketOf(tsCode).value, dp) in t then Some(t[("MARKET:" + MarketOf(tsCode).value, dp)])
    else None
  }

  lemma RowBehindIs(t: Table, tsCode: string, dp: string)
    ensures FirstOrigin(t, Origins(tsCode), dp).Some? <==> RowBehind(t, tsCode, dp).Some?
    ensures RowBehind(t, tsCode, dp).Some? ==>
              var r := RowBehind(t, tsCode, dp).value; CanonOf(t, tsCode, dp) == Canon(dp, r.source, r.updatedAt, r.value)
  {
    FirstOriginIs(t, Origins(tsCode), dp);
    var o := Origins(tsCode);
    hide MarketOf;
    assert o[0] == tsCode && (MarketOf(tsCode).Some? ==> o[1] == "MARKET:" + MarketOf(tsCode).value);
    assert o[1..] == MarketSentinel(tsCode);
    assert o[1..] != [] ==> o[1..][0] == o[1] && o[1..][1..] == [];
  }

  /** What moves the fingerprint: a dependency that gains or loses its row, or a row whose source, time stamp or
      value changes. Status and confidence do not. */
  lemma FingerprintSeesRows(h: Hasher, t: Table, u: Table, tsCode: string, dependencies: seq<string>)
    requires NoCollision(h, t, u, tsCode, dependencies)
    requires exists dp :: dp in dependencies && RowBehind(t, tsCode, dp).Some?
    requires exists dp :: dp in dependencies && RowBehind(u, tsCode, dp).Some?
    ensures FingerprintOf(h, Some(t), tsCode, dependencies) == FingerprintOf(h, Some(u), tsCode, dependencies) <==>
            forall dp :: dp in dependencies ==>
              match (RowBehind(t, tsCode, dp), RowBehind(u, tsCode, dp))
              case (None, None) => true
              case (Some(r), Some(s)) => r.source == s.source && r.updatedAt == s.updatedAt && r.value == s.value
              case _ => false
  {
    hide FirstOrigin, CanonOf, RowBehind, NoCollision, FingerprintOf;
    CoveredByRows(t, tsCode, dependencies);
    CoveredByRows(u, tsCode, dependencies);
    var a :| a in dependencies && RowBehind(t, tsCode, a).Some?;
    var b :| b in dependencies && RowBehind(u, tsCode, b).Some?;
    assert a in Covered(t, tsCode, dependencies) && b in Covered(u, tsCode, dependencies);
    hide Covered;
    FingerprintExact(h, t, u, tsCode, dependencies);
  }

  lemma CoveredByRows(t: Table, tsCode: string, dependencies: seq<string>)
    ensures forall dp :: dp in Covered(t, tsCode, dependencies) <==> dp in dependencies && RowBehind(t, tsCode, dp).Some?
    ensures forall dp :: dp in Covered(t, tsCode, dependencies) ==>
              var r := RowBehind(t, tsCode, dp).value; CanonOf(t, tsCode, dp) == Canon(dp, r.source, r.updatedAt, r.value)
  {
    hide FirstOrigin, CanonOf, RowBehind;
    forall dp ensures FirstOrigin(t, Origins(tsCode), dp).Some? <==> RowBehind(t, tsCode, dp).Some? {
      RowBehindIs(t, tsCode, dp);
    }
    forall dp | dp in Covered(t, tsCode, dependencies)
      ensures var r := RowBehind(t, tsCode, dp).value; CanonOf(t, tsCode, dp) == Canon(dp, r.source, r.updatedAt, r.value)
    {
      RowBehindIs(t, tsCode, dp);
    }
  }

  // ---- refresh -----------------------------------------------------------------------

  datatype RefreshReason =
    IsStatic | ExplicitOnly | NoDependencies | NoSourceData | BaselineMissing | SourceChanged | Unchanged

  predicate NeedsRefresh(r: RefreshReason) { r == BaselineMissing || r == SourceChanged }

  /** `node.get("source_fingerprint_at_fill")`, None when missing or null. */
  function StoredFingerprint(n: Node): Option<Val> {
    if FingerprintAtFill in n.fields && n.fields[FingerprintAtFill] != JNull then Some(n.fields[FingerprintAtFill]) else None
  }

  /** `is_refresh_triggered`. */
  function RefreshDecision(n: Node, e: G.Entry, h: Hasher, table: Option<Table>, tsCode: string): RefreshReason {
    if e.trigger == G.StaticPicture then IsStatic
    else if e.trigger == G.ExplicitRefresh then ExplicitOnly
    else if e.dependencies == [] then NoDependencies
    else
      var current := FingerprintOf(h, table, tsCode, e.dependencies);
      if current.None? then NoSourceData
      else if StoredFingerprint(n).None? then BaselineMissing
      else if StoredFingerprint(n) != Some(JStr(current.value)) then SourceChanged
      else Unchanged
  }

  /** When a refresh is asked for: the trigger is not a static or explicit one, some dependency has a
      row, and the stored fingerprint is missing or is not the recomputed one. */
  lemma RefreshExactly(n: Node, e: G.Entry, h: Hasher, table: Option<Table>, tsCode: string)
    ensures NeedsRefresh(RefreshDecision(n, e, h, table, tsCode)) <==>
            && e.trigger != G.StaticPicture && e.trigger != G.ExplicitRefresh
            && var current := FingerprintOf(h, table, tsCode, e.dependencies);
               current.Some? && StoredFingerprint(n) != Some(JStr(current.value))
  {
  }
}
