/** `apply_patch`: whitelisted fields of named nodes are overwritten in place. */
module OverlayPatch {
  import opened Basics
  import opened Json
  import opened OverlayMerge

  /** `WHITELIST_KEYS`. */
  predicate Whitelisted(k: Key) {
    k in {DataStatus, ValueKey, Confidence, EvidenceQuality, EvidenceSources, FingerprintAtFill,
          LastFilledPeriod, LastEventId, LastUpdated, MissingReason, DataCoverage, Strength, PricedIn,
          Exposure, FinancialSensitivity, ValuationSensitivity, TriggerCondition, InvalidationCondition,
          DataSource, RelatedBusiness, RelatedMetrics}
  }

  /** One patch entry; `dpId` is "" when absent. A salvaged patch is the list of entries that parsed. */
  datatype Entry = Entry(dpId: string, items: map<Key, Val>)

  function PatchedFields(f: Fields, items: map<Key, Val>): Fields {
    f + (map k | k in items && Whitelisted(k) :: items[k])
  }

  /** `nodes_by_dp[dp]`: the last node with that dp_id. */
  function Target(nodes: seq<Node>, dp: string): Option<nat> {
    if nodes == [] then None
    else if nodes[|nodes| - 1].dpId == dp then Some(|nodes| - 1)
    else Target(nodes[..|nodes| - 1], dp)
  }

  lemma {:induction false} TargetIs(nodes: seq<Node>, dp: string)
    ensures match Target(nodes, dp)
            case None => forall i :: 0 <= i < |nodes| ==> nodes[i].dpId != dp
            case Some(i) => i < |nodes| && nodes[i].dpId == dp && forall j :: i < j < |nodes| ==> nodes[j].dpId != dp
  {
    if nodes != [] {
      TargetIs(nodes[..|nodes| - 1], dp);
    }
  }

  function ApplyEntry(nodes: seq<Node>, e: Entry): (r: seq<Node>)
    ensures |r| == |nodes|
  {
    TargetIs(nodes, e.dpId);
    if e.dpId == "" || Target(nodes, e.dpId).None? then nodes
    else
      var i := Target(nodes, e.dpId).value;
      nodes[i := nodes[i].(fields := PatchedFields(nodes[i].fields, e.items))]
  }

  function ApplyEntries(nodes: seq<Node>, entries: seq<Entry>): (r: seq<Node>)
    ensures |r| == |nodes|
  {
    if entries == [] then nodes
    else ApplyEntry(ApplyEntries(nodes, entries[..|entries| - 1]), entries[|entries| - 1])
  }

  /** Entries that name a node of the overlay, and entries that name none. */
  function Matched(nodes: seq<Node>, entries: seq<Entry>): nat {
    if entries == [] then 0
    else Matched(nodes, entries[..|entries| - 1]) +
         (if entries[|entries| - 1].dpId != "" && Target(nodes, entries[|entries| - 1].dpId).Some? then 1 else 0)
  }

  function Unmatched(nodes: seq<Node>, entries: seq<Entry>): nat {
    if entries == [] then 0
    else Unmatched(nodes, entries[..|entries| - 1]) +
         (if entries[|entries| - 1].dpId != "" && Target(nodes, entries[|entries| - 1].dpId).None? then 1 else 0)
  }

  /** Strict mode rejects the whole patch if any entry fails its schema. */
  predicate Rejected(entries: seq<Entry>, schemaOk: Entry -> bool, strict: bool) {
    strict && exists i :: 0 <= i < |entries| && entries[i].dpId != "" && !schemaOk(entries[i])
  }

  function Patched(nodes: seq<Node>, entries: seq<Entry>, schemaOk: Entry -> bool, strict: bool): seq<Node> {
    if Rejected(entries, schemaOk, strict) then nodes else ApplyEntries(nodes, entries)
  }

  // ---- in place ------------------------------------------------------------------------

  lemma {:induction false} TargetIgnoresFields(a: seq<Node>, b: seq<Node>, dp: string)
    requires SameKeys(a, b)
    ensures Target(a, dp) == Target(b, dp)
  {
    if a != [] {
      TargetIgnoresFields(a[..|a| - 1], b[..|b| - 1], dp);
    }
  }

  lemma ApplyEntryKeys(nodes: seq<Node>, e: Entry)
    ensures SameKeys(nodes, ApplyEntry(nodes, e))
  {
    TargetIs(nodes, e.dpId);
  }

  lemma {:induction false} ApplyEntriesKeys(nodes: seq<Node>, entries: seq<Entry>)
    ensures SameKeys(nodes, ApplyEntries(nodes, entries))
  {
    hide ApplyEntry;
    if entries != [] {
      ApplyEntriesKeys(nodes, entries[..|entries| - 1]);
      ApplyEntryKeys(ApplyEntries(nodes, entries[..|entries| - 1]), entries[|entries| - 1]);
    }
  }

  class OverlayFile {
    var frame: Frame
    var nodes: seq<Node>

    function Contents(): Overlay
      reads this
    {
      Overlay(frame, nodes)
    }

    constructor (o: Overlay)
      ensures Contents() == o
    {
      frame, nodes := o.frame, o.nodes;
    }

    method NodesByDp() returns (byDp: map<string, nat>)
      ensures forall dp :: Target(nodes, dp) == if dp in byDp then Some(byDp[dp]) else None
    {
      byDp := map[];
      for i := 0 to |nodes|
        invariant forall dp :: Target(nodes[..i], dp) == if dp in byDp then Some(byDp[dp]) else None
      {
        assert nodes[..i + 1][..i] == nodes[..i];
        byDp := byDp[nodes[i].dpId := i];
      }
      assert nodes[..|nodes|] == nodes;
    }

    /** `apply_patch` once the patch file has been parsed; also `_salvage_apply`, with `strict` off. */
    method ApplyPatch(entries: seq<Entry>, schemaOk: Entry -> bool, strict: bool) returns (updated: nat, unmatched: nat)
      modifies this
      ensures Contents() == old(Contents()).(nodes := Patched(old(nodes), entries, schemaOk, strict))
      ensures !Rejected(entries, schemaOk, strict) ==> updated == Matched(old(nodes), entries) && unmatched == Unmatched(old(nodes), entries)
      ensures Rejected(entries, schemaOk, strict) ==> updated == 0 && unmatched == 0
    {
      updated, unmatched := 0, 0;
      if Rejected(entries, schemaOk, strict) {
        return;
      }
      hide ApplyEntry, PatchedFields;
      var byDp := NodesByDp();
      ghost var start := nodes;
      for i := 0 to |entries|
        invariant nodes == ApplyEntries(start, entries[..i]) && frame == old(frame)
        invariant updated == Matched(start, entries[..i]) && unmatched == Unmatched(start, entries[..i])
      {
        assert entries[..i + 1][..i] == entries[..i];
        var e := entries[i];
        ApplyEntriesKeys(start, entries[..i]);
        TargetIgnoresFields(start, nodes, e.dpId);
        assert Target(start, e.dpId) == if e.dpId in byDp then Some(byDp[e.dpId]) else None;
        TargetIs(nodes, e.dpId);
        ApplyEntryIs(nodes, e);
        if e.dpId != "" {
          if e.dpId in byDp {
            var at := byDp[e.dpId];
            nodes := nodes[at := nodes[at].(fields := PatchedFields(nodes[at].fields, e.items))];
            updated := updated + 1;
          } else {
            unmatched := unmatched + 1;
          }
        }
      }
      assert entries[..|entries|] == entries;
    }
  }

  lemma ApplyEntryIs(nodes: seq<Node>, e: Entry)
    ensures ApplyEntry(nodes, e) ==
            if e.dpId == "" || Target(nodes, e.dpId).None? then nodes
            else
              (TargetIs(nodes, e.dpId);
               nodes[Target(nodes, e.dpId).value :=
                       nodes[Target(nodes, e.dpId).value].(fields := PatchedFields(nodes[Target(nodes, e.dpId).value].fields, e.items))])
  {
  }

  // ---- what a patch leaves alone --------------------------------------------------------

  predicate Names(entries: seq<Entry>, dp: string) {
    exists i :: 0 <= i < |entries| && entries[i].dpId == dp
  }

  /** A node whose dp_id the patch does not name is untouched. */
  lemma {:induction false} PatchTouchesOnlyNamed(nodes: seq<Node>, entries: seq<Entry>, i: nat)
    requires i < |nodes| && !Names(entries, nodes[i].dpId)
    ensures ApplyEntries(nodes, entries)[i] == nodes[i]
  {
    hide PatchedFields;
    if entries != [] {
      var front, last := entries[..|entries| - 1], entries[|entries| - 1];
      assert !Names(front, nodes[i].dpId) by {
        forall k | 0 <= k < |front| ensures front[k].dpId != nodes[i].dpId {
          assert entries[k] == front[k];
        }
      }
      PatchTouchesOnlyNamed(nodes, front, i);
      assert last == entries[|entries| - 1] && last.dpId != nodes[i].dpId;
      TargetIs(ApplyEntries(nodes, front), last.dpId);
    }
  }

  /** Whatever the patch, fields off the whitelist keep their values and no field disappears. */
  lemma {:induction false} PatchKeepsStructure(nodes: seq<Node>, entries: seq<Entry>, i: nat, k: Key)
    requires i < |nodes|
    ensures !Whitelisted(k) ==> Lookup(ApplyEntries(nodes, entries)[i].fields, k) == Lookup(nodes[i].fields, k)
    ensures k in nodes[i].fields ==> k in ApplyEntries(nodes, entries)[i].fields
  {
    hide Whitelisted;
    if entries != [] {
      var front, last := entries[..|entries| - 1], entries[|entries| - 1];
      PatchKeepsStructure(nodes, front, i, k);
      TargetIs(ApplyEntries(nodes, front), last.dpId);
    }
  }

  lemma PatchedLookup(f: Fields, items: map<Key, Val>, k: Key)
    ensures Lookup(PatchedFields(f, items), k) == if k in items && Whitelisted(k) then Some(items[k]) else Lookup(f, k)
  {
  }
}
