/** A patch, read off the nodes before and after it. */
module PatchInWords {
  import opened Basics
  import opened Json
  import opened OverlayMerge
  import opened OverlayPatch

  /** The fields a patch may write: status, content, evidence and the analyst's assessments. Identity, links,
      weights, policies and levels are not among them. */
  predicate Writable(k: Key) {
    || k == DataStatus || k == ValueKey || k == Confidence || k == EvidenceQuality || k == EvidenceSources
    || k == FingerprintAtFill || k == LastFilledPeriod || k == LastEventId || k == LastUpdated || k == MissingReason
    || k == DataCoverage || k == Strength || k == PricedIn || k == Exposure || k == FinancialSensitivity
    || k == ValuationSensitivity || k == TriggerCondition || k == InvalidationCondition || k == DataSource
    || k == RelatedBusiness || k == RelatedMetrics
  }

  /** What the last entry for `dp` that mentions `k` says. */
  function LastSaid(entries: seq<Entry>, dp: string, k: Key): Option<Val> {
    if entries == [] then None
    else if entries[|entries| - 1].dpId == dp && k in entries[|entries| - 1].items then Some(entries[|entries| - 1].items[k])
    else LastSaid(entries[..|entries| - 1], dp, k)
  }

  /** Node `i` is the last one with its dp_id. */
  ghost predicate LastOfItsKind(nodes: seq<Node>, i: nat) {
    i < |nodes| && nodes[i].dpId != "" && forall j :: i < j < |nodes| ==> nodes[j].dpId != nodes[i].dpId
  }

  lemma WritableIs(k: Key)
    ensures Writable(k) <==> Whitelisted(k)
  {
  }

  lemma {:induction false} EntriesInWords(nodes: seq<Node>, entries: seq<Entry>, i: nat, k: Key)
    requires i < |nodes|
    ensures var after := ApplyEntries(nodes, entries)[i];
            && after.nodeId == nodes[i].nodeId && after.dpId == nodes[i].dpId
            && Lookup(after.fields, k) ==
               if LastOfItsKind(nodes, i) && Writable(k) && LastSaid(entries, nodes[i].dpId, k).Some?
               then LastSaid(entries, nodes[i].dpId, k) else Lookup(nodes[i].fields, k)
  {
    hide Writable, Whitelisted, PatchedFields, LastOfItsKind;
    WritableIs(k);
    if entries != [] {
      var front, last := entries[..|entries| - 1], entries[|entries| - 1];
      EntriesInWords(nodes, front, i, k);
      var before := ApplyEntries(nodes, front);
      ApplyEntriesKeys(nodes, front);
      ApplyEntryIs(before, last);
      TargetIs(before, last.dpId);
      TargetIsLast(nodes, before, last.dpId, i);
      PatchedLookup(before[i].fields, last.items, k);
    }
  }

  /** Every field of every node after a patch: nothing changes if, in strict mode, some named entry fails its
      schema; otherwise a writable field of the last node with the named dp_id holds what the last entry that
      mentions it says, and everything else, and every other node, is as it was. */
  lemma PatchInWords(nodes: seq<Node>, entries: seq<Entry>, schemaOk: Entry -> bool, strict: bool, i: nat, k: Key)
    requires i < |nodes|
    ensures var patched := Patched(nodes, entries, schemaOk, strict);
            && |patched| == |nodes| && patched[i].nodeId == nodes[i].nodeId && patched[i].dpId == nodes[i].dpId
            && Lookup(patched[i].fields, k) ==
               if strict && (exists e :: e in entries && e.dpId != "" && !schemaOk(e)) then Lookup(nodes[i].fields, k)
               else if LastOfItsKind(nodes, i) && Writable(k) && LastSaid(entries, nodes[i].dpId, k).Some?
               then LastSaid(entries, nodes[i].dpId, k) else Lookup(nodes[i].fields, k)
  {
    hide LastOfItsKind, Writable;
    EntriesInWords(nodes, entries, i, k);
    assert (exists e :: e in entries && e.dpId != "" && !schemaOk(e)) <==>
           exists j :: 0 <= j < |entries| && entries[j].dpId != "" && !schemaOk(entries[j]);
  }

  predicate NamesSome(nodes: seq<Node>, dp: string) { exists j :: 0 <= j < |nodes| && nodes[j].dpId == dp }

  /** The entries that have a dp_id and find a node, or find none. */
  function Entries(nodes: seq<Node>, entries: seq<Entry>, found: bool): set<int> {
    set i | 0 <= i < |entries| && entries[i].dpId != "" && (NamesSome(nodes, entries[i].dpId) <==> found)
  }

  /** What a patch reports: how many of its entries found a node, and how many did not. */
  lemma {:induction false} PatchCounts(nodes: seq<Node>, entries: seq<Entry>)
    ensures Matched(nodes, entries) == |Entries(nodes, entries, true)|
    ensures Unmatched(nodes, entries) == |Entries(nodes, entries, false)|
  {
    hide NamesSome;
    if entries == [] {
      assert Entries(nodes, [], true) == {} && Entries(nodes, [], false) == {};
    } else {
      var n := |entries| - 1;
      PatchCounts(nodes, entries[..n]);
      NamesSomeIs(nodes, entries[n].dpId);
      OneMoreEntry(nodes, entries, true);
      OneMoreEntry(nodes, entries, false);
      hide Entries;
    }
  }

  lemma NamesSomeIs(nodes: seq<Node>, dp: string)
    ensures NamesSome(nodes, dp) <==> Target(nodes, dp).Some?
  {
    TargetIs(nodes, dp);
  }

  lemma OneMoreEntry(nodes: seq<Node>, entries: seq<Entry>, found: bool)
    requires entries != []
    ensures var n := |entries| - 1;
            |Entries(nodes, entries, found)| ==
            |Entries(nodes, entries[..n], found)| + (if entries[n].dpId != "" && (NamesSome(nodes, entries[n].dpId) <==> found) then 1 else 0)
  {
    hide NamesSome;
    var n := |entries| - 1;
    assert forall i :: 0 <= i < n ==> entries[..n][i] == entries[i];
    var before := Entries(nodes, entries[..n], found);
    assert n !in before;
    assert Entries(nodes, entries, found) ==
           if entries[n].dpId != "" && (NamesSome(nodes, entries[n].dpId) <==> found) then before + {n} else before;
  }

  lemma TargetIsLast(nodes: seq<Node>, before: seq<Node>, dp: string, i: nat)
    requires i < |nodes| && SameKeys(nodes, before)
    ensures dp != "" && Target(before, dp) == Some(i) <==> LastOfItsKind(nodes, i) && nodes[i].dpId == dp
  {
    TargetIs(before, dp);
  }
}
