# Verified model of the stock-graph pipeline

The pipeline keeps, for every listed company, an overlay graph of data points. This project models five
parts of it and proves what holds across them.

- **Tree aggregator** (`aggregator/`). Parent links become a child-first order, `Unavailable` nodes borrow
  values from proxies in place, leaves score, and scores move upwards over renormalised weights. The
  reference is a structural recursion over trees; the order-driven pass refines it, and conservation, bounds
  and transparency are proved for the result table.
- **Derive engine** (`derive/`). Formulas run in registration order against the store they write to. The
  number of runs to the fixpoint is tied to the late-registered inputs on dependency paths, and computed for
  the shipped registry.
- **Hot store, delta stream, history archive** (`store/`). Upserts, the priority merge over sentinel rows, the
  polling reader and its client, append and compaction.
- **Overlay lifecycle** (`overlay/`). Merge-on-regenerate, patch, validate, audit-and-demote, fingerprint and
  refill queue as one state machine (`Lifecycle`), with theorems over all runs.
- **Coverage roll-up and excerpt check** (`coverage/`, `excerpts/`). Classification, weights and per-parent
  summaries; text normalisation, the number scanner and the tolerant match.

Each Python loop or in-place update is a method proved against a specification function or a state
predicate; the laws are lemmas about those.

Modules named `...InWords`, with `Mirror` and `DerivedConfidence`, tell what an operation does from its inputs
and its result. Their statements are written out afresh rather than through the rules of the specification
functions, so a specification that swapped two fields or took a wrong branch would contradict them.

`dafny verify dfyconfig.toml` checks the whole project.

## Conventions

Scores and times are exact reals and integers. Status, policy, tier and trigger strings that code branches
on are enumerations with an `Other...` case. A closed predicate or function stands for each thing computed
elsewhere: the patch schema, the validator's vocabularies, the row hash, recency in (0, 1], `tanh` of a growth
rate. Dictionaries with an observable order are a sequence of keys beside a map.

Where the code and its comments differ, the model follows the code:

- Confidence does not decay once more per layer: an output hands its undecayed base to its readers
  (mvp20/derive.py:1587, 1619-1621).
- An Inactive row is stored with confidence 0.5, not 0.3 (mvp20/derive.py:1615, 1640).
- `query_history` does not remove duplicates (mvp20/history.py:118); see `KeepingSourcesDoubles`.
- The fingerprint does not look at industry rows (mvp20/fingerprint.py:132-139).
- The prompt's list of preserved nodes may include Known nodes that are also queued for refresh
  (scripts/codex_prompt_gen.py:216-223, 307-308); see `PreservedQueuedExactly`.

Four promises fail in a corner; each has its exact condition and an input that meets it.

- A merge can be invalid, only through an unsplit Optionality value: `MergeKeepsValidity`, and
  `HalfFilledOptionSpoilsMerge`.
- A compaction can lose rows, exactly those of the daily file it replaces: `CompactionLoss`, and
  `SecondCompactionLoses`.
- The stream can miss a write, exactly when it is stamped at or below `last_check`: `PollExact`, and
  `SameSecondWriteIsMissed`. A derive run stamps its rows before it starts, so a poll during the run misses
  them all: `DerivedRowArrives`, `PollDuringRunMissesAll`.
- A horizon score can leave [-1, 1]: only the long one, up to 1.6, and only through an Optionality value:
  `LongWithinOneExactly`, and `OptionSlot.LongReachesBound`.

## Model

| member | source | states |
|---|---|---|
| `CompanyGraph.AggregateCompanyGraph` | mvp20/aggregator.py:671-854 | after governance and industry inheritance, for any parent links, cycles and self-loops included: one result per node, computed in the order of the recursive walk, which the links alone determine; every node whose subtree is finite gets exactly the structural recursion over that whole subtree |
| `CompanyGraph.AcyclicRefinement` | mvp20/aggregator.py:728-854 | without cycles every child precedes its parent and every result is the structural recursion over the full subtree |
| `CompanyGraph.LoadInWords` | mvp20/aggregator.py:685-697 | what is loaded: under each id the last node that has it, and nothing else, in the order in which the ids first occur |
| `Preparation.PrepareNodes` | mvp20/aggregator.py:688-724 | the loading and inheritance loops give each node its missing governance fields and, where it asks for one and has none, its industry's value |
| `Preparation.PreparationKeepsOwn` | mvp20/aggregator.py:699-724 | ids and links stay; a node's own value and confidence are never overridden; a status changes only from Unknown to Known, together with an inherited value |
| `Preparation.GovernedInWords` | mvp20/aggregator.py:688-697 | the seven governed fields hold their own content, else the rule's, else nothing; no other field changes |
| `Preparation.PreparationInWords` | mvp20/aggregator.py:699-724 | a node that asks for a value and has none takes over the last industry node's value, and its confidence and time stamp where it has none; it becomes Known if it was Unknown; nothing else changes |
| `NodeOrder.AggregatePermuted` | mvp20/aggregator.py:523-663 | a parent's whole result does not depend on the order of its children |
| `NodeOrder.EvalRelisted` | mvp20/aggregator.py:728-854 | a node's subtree scores the same in whatever order its nodes are listed |
| `NodeOrder.NodeOrderIsInvisible` | mvp20/aggregator.py:728-854 | on acyclic links the result table does not depend on the order of the nodes, although the walk and the sums follow it |
| `NodeOrder.ListOrderIsInvisible` | mvp20/aggregator.py:671-854 | the same for the overlay's list, with distinct ids and no promotion pending |
| `CompanyGraph.CycleHasNoSubtree` | mvp20/aggregator.py:740-750 | a node on a cycle of parent links has no finite subtree, so the order-driven pass is the only meaning it has |
| `CompanyGraph.EvaluateInOrder` | mvp20/aggregator.py:752-854 | the loop over `order` with its payload table leaves at each node the evaluation of the node's children evaluated before it |
| `CompanyGraph.EvaluateOne` | mvp20/aggregator.py:758-852 | one turn of that loop: children are collected from the payload table in adjacency order, absent ones skipped; parents aggregate, leaves score |
| `PostOrder.EvaluationOrder` | mvp20/aggregator.py:735-750 | the walk from every node ends with exactly the order its recursive definition gives: each id once, children first except where the child is itself above the parent |
| `PostOrder.PostOrderWalk.Visit` | mvp20/aggregator.py:740-746 | the in-place visit takes `visited` and `order` to what the recursive definition of a visit makes of them |
| `PostOrder.WalkKeeps` | mvp20/aggregator.py:740-746 | visits leave exactly the same nodes open as before and keep the order free of repetitions and child-first, cycles included |
| `PostOrder.PostOrderIs` | mvp20/aggregator.py:735-750 | the evaluation order is a permutation of the ids, child-first up to links that close a cycle |
| `PostOrder.AcyclicChildrenPrecede` | mvp20/aggregator.py:740-746 | on acyclic links the child-first order really puts every child before its parent |
| `CompanyTree.SubtreeUnique` | mvp20/aggregator.py:728-733 | a node has at most one finite subtree, so the structural recursion is well defined |
| `CompanyTree.FiniteSubtreeHasNoCycle` | mvp20/aggregator.py:728-750 | inside a finite subtree no descendant is an ancestor |
| `CompanyGraph.CompanyNodes.ApplyProxyCandidates` | mvp20/aggregator.py:388-419 | the in-place promotion pass leaves exactly the table the turn-by-turn specification gives |
| `CompanyGraph.CompanyNodes.FindProxy` | mvp20/aggregator.py:400-419 | the two nested candidate loops find the first donor of the first candidate dp_id that has one other than the node itself |
| `ProxyPass.ProxyProvenance` | mvp20/aggregator.py:388-419 | every promoted value comes, through a chain of promotions, from a node that was Known or Proxy with a usable value beforehand; the penalty is at most 0.75; no node that was not Unavailable changes; the node set stays |
| `ProxyPass.ProxyComplete` | mvp20/aggregator.py:388-419 | the pass misses nobody: an Unavailable node with a donor among its candidates from the start ends up Proxy |
| `ProxyInWords.ProxyInWords` | mvp20/aggregator.py:384-419 | the whole pass, node by node: with earlier nodes as they end up and later ones as they were, an Unavailable node takes over the value of the first Known or Proxy node with a value under the first candidate dp_id that has one, and records its origin and a penalty of at most 0.75; every other node stays as it was |
| `Rollup.AggregateParent` | mvp20/aggregator.py:523-663 | the counters and weight-sum loops compute the renormalised roll-up: counts by kind, coverage, penalty, base confidence and four horizon scores over the applicable children only |
| `Rollup.CountChildren` | mvp20/aggregator.py:537-587 | the status cascade counts each child under exactly the kind its status and score switch give it |
| `Rollup.PoolChildren` | mvp20/aggregator.py:537-587 | the same loop keeps the children that do not drop out, in order, and sums their weights, usable weights, penalised weights and base confidences |
| `Rollup.AggregateInsert` | mvp20/aggregator.py:553-611 | a dropped-out child inserted anywhere changes nothing in its parent's result except its own counter |
| `AggregatorLaws.HorizonsConserve` | mvp20/aggregator.py:479-611 | in every tree short + medium + long equals score plus the weight-and-confidence sum of the Optionality terms below |
| `AggregatorLaws.HorizonsPartition` | mvp20/aggregator.py:479-611 | without Optionality the three horizons add up to the score exactly |
| `AggregatorLaws.ParentNeverExceedsChildren` | mvp20/aggregator.py:588-611 | at each horizon a parent's absolute score is at most the largest of its applicable children's |
| `AggregatorLaws.LeafScoreInRange` | mvp20/aggregator.py:427-474 | with inputs in range a leaf's intrinsic score lies in [-1, 1] for every status |
| `AggregatorLaws.LeafHorizonsInRange` | mvp20/aggregator.py:479-493 | its short and medium scores lie in [-0.5, 0.5], its long score in [-1.6, 1.6] |
| `AggregatorLaws.LongWithinOneExactly` | mvp20/aggregator.py:479-493 | the long score stays within 1 if and only if the leaf is not an Optionality value whose future option and long share of the present signal, scaled by recency, exceed 1 together |
| `OptionSlot.LongReachesBound` | mvp20/aggregator.py:268-493 | they do for the new-business slot filled in fresh, whose name puts it on the long horizon: its long score is 1.6 |
| `AggregatorLaws.LongWithinOne` | mvp20/aggregator.py:427-663 | if no leaf of a tree exceeds, no node's long score leaves [-1, 1] |
| `AggregatorLaws.TreeBounded` | mvp20/aggregator.py:427-663 | with inputs in range every node of a tree scores in [-1, 1], with short and medium scores in [-0.5, 0.5], long score in [-1.6, 1.6], confidence, coverage and penalty in [0, 1] |
| `AggregatorReport.ReportConserves` | mvp20/aggregator.py:752-854 | conservation read off the result table, at every node, cyclic links included |
| `AggregatorReport.ReportBounded` | mvp20/aggregator.py:388-854 | bounds read off the result table of the whole program, promotion pass included |
| `AggregatorReport.ReportTransparent` | mvp20/aggregator.py:553-785 | adding or removing an N/A or Inactive leaf under a parent that keeps an active or Unknown child changes no other node's report, at any height and on cycles of parent links too; the direct parent's own counter is all that moves |
| `QuietWalk.WalkIgnoresLeaf` | mvp20/aggregator.py:728-750 | the evaluation order with the leaf is the one without it, plus the leaf somewhere in front of its parent |
| `QuietWalk.QuietLeafIsTransparent` | mvp20/aggregator.py:553-785 | the same for the evaluation of each old node and for what it hands to its own parent, whatever the links |
| `QuietPromotion.PromoteAllInsert` | mvp20/aggregator.py:388-419 | the promotion pass commutes with inserting a quiet leaf |
| `Mirror.ReportMirrored` | mvp20/aggregator.py:427-854 | exchange `positive` and `negative` in every raw node, and at every node of the result table score, short, medium and long change sign while confidence, coverage, penalty, warning and counters stay, cycles included, unless a score-enabled multiplier is left Unavailable |
| `ReportInWords.StatusUpward` | mvp20/aggregator.py:778-785 | the status a parent hands upward: its own while some scored child is neither N/A nor Inactive; else Inactive if a scored child is, else N/A if one is, else its own |
| `ReportInWords.SilentParentIsTransparent` | mvp20/aggregator.py:553-785 | a scored parent whose children all drop out, one of them a scored N/A or Inactive child, changes nothing in its own parent's result except one counter |
| `ReportInWords.NothingUsable` | mvp20/aggregator.py:588-663 | a parent with no usable child has coverage 0, confidence 0 and penalty 1; with no applicable child its four scores are 0 |
| `ReportInWords.ScoresUpward` | mvp20/aggregator.py:774-798 | a parent hands up its four scores as they are, its weight and penalty, its own confidence as base, and its result's confidence, 0 counting as 0.5 |
| `ReportInWords.TwoSpeakingChildren` | mvp20/aggregator.py:588-663 | two usable children share by weight, each at its own confidence, with full coverage, the weighted mean of their penalties and the plain mean of their base confidences |
| `ReportInWords.UnknownChildDilutes` | mvp20/aggregator.py:565-663 | an Unknown sibling takes its weight out of the other child's share and out of the coverage, and leaves the penalty alone; the warning is given exactly below the required coverage |
| `ReportInWords.SpeakingLeaf` | mvp20/aggregator.py:427-502 | a Known, Proxy, Optionality or low-materiality leaf scores direction times magnitude times recency at its own confidence, cut by the penalty if the value is borrowed |
| `ReportInWords.UnknownLeaf` | mvp20/aggregator.py:427-502 | an Unknown leaf scores nothing whatever value it carries, is trusted at most 0.3 and covers nothing |
| `ReportInWords.UnavailableLeaf` | mvp20/aggregator.py:458-470 | an Unavailable leaf counts a neutral value: a multiplier its distance from 1 whatever the direction, any other its size in the leaf's direction; at a confidence cut by the penalty |
| `ReportInWords.SilentLeaf` | mvp20/aggregator.py:441-450 | a leaf out of the score, N/A or Inactive scores nothing at unchanged confidence |
| `ReportInWords.LeafUpward` | mvp20/aggregator.py:800-854 | a leaf hands up the scores and confidence of its result, its own confidence or 0.5 as base, its weight and its penalty |
| `ReportInWords.HorizonWords` | mvp20/aggregator.py:274-493 | how a leaf's score splits over the horizons by the words in its dp_id and name: short words before long ones before medium ones, in any case |
| `ReportInWords.OptionIsLong` | mvp20/aggregator.py:479-493 | an Optionality leaf adds its option value, by size and the leaf's direction, to the long horizon alone |
| `ReportInWords.WeightScales` | mvp20/aggregator.py:510-520 | the effective weight is proportional to base weight, active weight and materiality, a missing one counting 1 |
| `ReportInWords.MagnitudeOfNumber` | mvp20/aggregator.py:125-187 | a number says how strong a signal is, up to 1, and never which way it points |
| `ReportInWords.FiguresSettleMagnitude` | mvp20/aggregator.py:125-187 | in a dictionary a score, then an intensity, then a strength, then squashed growth decides, whatever else it holds |
| `ReportInWords.CellsAsNumbers` | mvp20/aggregator.py:125-187 | what counts as such a figure: a number, or text that parses as one |
| `ReportInWords.WordsSettleMagnitude` | mvp20/aggregator.py:125-187 | without figures one of the seven magnitude words decides, in any case; failing that one of the nine trend words, by size alone |
| `ReportInWords.OptionSettlesMagnitude` | mvp20/aggregator.py:125-187 | without figures and words the future option value decides, then the current contribution, then nothing |
| `ReportInWords.StatusWords` | mvp20/aggregator.py:327-351 | which status each text of `data_status` means, `status` standing in where it is empty |
| `ReportInWords.StatusPadded` | mvp20/aggregator.py:327-351 | white space around that text makes no difference |
| `ReportInWords.DirectionWords` | mvp20/aggregator.py:190-193 | which sign a direction gives, in any case of the letters |
| `ReportInWords.QualityWords` | mvp20/aggregator.py:116-122 | which factor evidence quality gives, by number, by word, or missing |
| `ReportInWords.TakesPartExactly` | mvp20/aggregator.py:354-361 | a node takes part in the score if it says so, and if it says nothing unless its role is one of seven |
| `ReportInWords.MultiplierBy` | mvp20/aggregator.py:364-368 | a node is a multiplier by its role or by its target, either one sufficing |
| `DeriveEngine.DeriveRunner.RunFormula` | mvp20/derive.py:1571-1623 | inputs resolve fresh outputs first, stored rows second; the payload carries the undecayed lowest input confidence on to its readers and the decayed one outward |
| `DeriveEngine.DeriveRunner.RunOne` | mvp20/derive.py:1559-1623 | one pass in registration order over the usable rows and the bootstrap sub-scores |
| `DeriveEngine.DeriveRunner.RunAll` | mvp20/derive.py:1625-1681 | bootstrap rows and outputs are written back over the store that was read |
| `DerivedConfidence.StoredConfidence` | mvp20/derive.py:1571-1640 | the confidence every output is stored with: nine tenths, clipped, of the least confidence at the bottom of its fresh inputs, however many formulas lie in between; the formula's own if it gives one; 0.5 with status Inactive if it has no answer |
| `DerivedConfidence.StoredContent` | mvp20/derive.py:1600-1650 | besides confidence an output is stored as its formula returned it, internal key removed; without an answer as the neutral value, the inactive mark and the names of its inputs |
| `DerivedConfidence.InputsGiven` | mvp20/derive.py:1571-1600 | what a formula is given for an input: what a fresh output carries, else the stored dictionary or a stored single value under `scalar`, else nothing |
| `DerivedConfidence.DepthDoesNotDecay` | mvp20/derive.py:1587-1623 | so where every row carries 0.5 every derived value is stored with 0.45, at the last layer as at the first |
| `DerivedConfidence.StoredBootstrap` | mvp20/derive.py:1559-1681 | a bootstrapped sub-score is stored as Known with confidence 0.5, and read back so within the same run |
| `DerivedConfidence.UnusableRowsAreInvisible` | mvp20/derive.py:1559-1600 | rows that are Unknown, Unavailable or Inactive have no influence on what a run derives |
| `DeriveConvergence.Agreement` | mvp20/derive.py:1571-1623 | two stores with the same hard rows agree on every output whose late depth the runs have already covered |
| `DeriveConvergence.Convergence` | mvp20/derive.py:1559-1681 | given per-formula late bounds, after bound + 1 runs the whole store (values, statuses, confidences) is one fixpoint, whatever store with the same hard rows the runs began with |
| `DeriveConvergence.LateDepthIsExact` | mvp20/derive.py:1270-1337 | the bound used is exactly the largest number of late-registered inputs on a dependency path |
| `DeriveConvergence.AcyclicConvergence` | mvp20/derive.py:1559-1681 | any acyclic registry in any registration order reaches its fixpoint within 1 + that number of runs |
| `LateReadsNeeded.LateReadsAreNeeded` | mvp20/derive.py:1559-1681 | the bound is tight for every acyclic wiring: for each dependency path there are formulas for which as many runs as the path has late reads, from an empty store, are not a fixpoint |
| `LateReadsNeeded.MarkArrives` | mvp20/derive.py:1571-1623 | how information travels: with formulas that pass a mark on, the mark reaches the head of a path exactly after one run per late read and one more |
| `DeriveConvergence.TopologicalOrderNeedsOneRun` | mvp20/derive.py:1559-1681 | in topological order one run is a fixpoint |
| `ShippedRegistry.ShippedLinks` | mvp20/derive.py:1270-1337 | the dependencies among the seventeen shipped outputs: only `L8.val.priced_in` reads an output registered later |
| `ShippedRegistry.ShippedSettlesInTwo` | mvp20/derive.py:1270-1337 | the shipped registry is settled after two runs from any store |
| `ShippedRegistry.ShippedNeedsTwo` | mvp20/derive.py:1289-1319 | one run is not enough: from an empty store `L8.val.priced_in` is Inactive after the first run and Known after the second |
| `ShippedFormulas.TwoRunsAreExact` | mvp20/derive.py:1270-1337 | the same with `derive_l8_val_priced_in` and `derive_l11_short_score` themselves in the registry, and two runs are a fixpoint |
| `ShippedFormulas.CompositeScore` | mvp20/derive.py:960-977 | accumulating score, used and weights gives the renormalised, clipped composite |
| `ShippedFormulas.CompositeIsMean` | mvp20/derive.py:838-866 | the composite is the weighted mean of the inputs that are present: missing and empty inputs do not dilute it |
| `ShippedFormulas.CompositeBetween` | mvp20/derive.py:838-866 | so it lies between the lowest and the highest sub-score present |
| `ShippedFormulas.HorizonsBalanced` | mvp20/derive.py:838-972 | short, mid and long scores all satisfy the conditions of those two laws (weights positive, sum 1, empty payloads read as 0) |
| `FormulasInWords.ShortScoreAlone` | mvp20/derive.py:814-876 | with one of its four inputs alone, whichever it is, the short score is that input's score, and its label changes above 0.3 and below -0.3 |
| `FormulasInWords.MidScoreAlone` | mvp20/derive.py:880-941 | orders alone without a score count their growth, 50% in full; guided earnings the middle of the guided range, 100% in full; both saturate |
| `FormulasInWords.MidScoreByScore` | mvp20/derive.py:880-941 | a score of an input's own decides |
| `FormulasInWords.LongScoreAlone` | mvp20/derive.py:944-991 | an input of the long score alone counts its score, and its scalar where that is void or missing |
| `FormulasInWords.PricedInVerdict` | mvp20/derive.py:526-578 | the four verdicts as a decision table over run-up, valuation and short score: no one sign makes a story fully priced in, and an elevated valuation alone leaves it fresh |
| `DeriveStream.DerivedRowArrives` | mvp20/derive.py:1653-1681 | a derived row reaches a client with the next poll if and only if the run's clock reading, taken before it starts, is later than the stream's `last_check`, or the client held that very row |
| `DeriveStream.PollDuringRunMissesAll` | mvp20/sse.py:104-108 | once `last_check` has reached that reading, as any poll during the run makes it, the stream misses every row the run derived, poll after poll, until the row is written again |
| `HotStore.HotDb.UpsertRealtime` | mvp20/storage.py:476-521 | a batch overwrites the table row by row and reports its size |
| `HotStore.UpsertLastWins` | mvp20/storage.py:494-521 | for each key the last write of a batch wins |
| `HotStore.UpsertKeepsOthers` | mvp20/storage.py:494-521 | keys a batch does not name keep their rows |
| `HotStore.MergeRows` | mvp20/storage.py:249-291 | the running-best loop, on rows in any order, keeps for each dp_id a row of best priority among all origins that hold one |
| `HotStore.PriorityMerge` | mvp20/storage.py:249-291 | that is the row of the first origin in the candidate list that holds one, and no other dp_id appears |
| `HotStore.LookupBySorting` | scripts/verify_overlay_closed_loop.py:488-530 | sort by priority and take the head: a row of best priority, none only if no origin holds one |
| `HotStore.LookupsAgree` | scripts/verify_overlay_closed_loop.py:488-530 | the verifier's lookup and the snapshot merge pick the same row |
| `SnapshotOrigins.OriginOrder` | mvp20/storage.py:200-291 | stock, then primary industry, then any other industry, then market |
| `SnapshotOrigins.CandidatesDistinct` | mvp20/storage.py:200-262 | a real stock's candidate list never names an origin twice |
| `SnapshotOrigins.MarketBySuffix` | mvp20/storage.py:184-197 | the market of a stock reads off the end of its code: `.SH`, `.SZ` and `.BJ` are CN, `.HK` is HK, `.US` is US, any other has none |
| `SnapshotOrigins.MarketRowShows` | mvp20/storage.py:222-291 | where neither the stock nor an industry has a row, the snapshot shows that market's |
| `SnapshotOrigins.NoOtherMarket` | mvp20/storage.py:222-291 | and never another market's |
| `SseStream.StreamRealtimeDelta` | mvp20/sse.py:62-123 | for every schedule of writes, polls, expiry and disconnects, the client's fold of the frames is the session state poll by poll |
| `SseStream.SnapshotInSync` | mvp20/sse.py:85-91 | the first snapshot already holds the stock's rows, and under every other dp_id the row of the first sentinel that has one, or nothing |
| `SseStream.PollExact` | mvp20/sse.py:104-116 | after a poll the client is right about a row if and only if its stamp is above the `last_check` in force or the client already held it |
| `SseStream.CatchUp` | mvp20/sse.py:97-123 | if every write is stamped above the `last_check` in force at its next read, after every poll the client holds exactly the store's rows for the stock, and besides them exactly what the first snapshot said under dp_ids the stock has no row for |
| `SseStream.LateWriteIsMissed` | mvp20/sse.py:107-108 | a write stamped at or below `last_check` is missed by the poll that follows it |
| `SseStream.MissedStaysMissed` | mvp20/sse.py:97-123 | and stays missed until its key is written again |
| `SseStream.SameSecondWriteIsMissed` | mvp20/sse.py:94-108 | with whole-second stamps this really happens: a row written in the second of a poll, after it, is never sent |
| `HistoryArchive.Archive.AppendMinute` | mvp20/history.py:36-83 | an append adds its batch behind the minute's rows; an empty batch is refused |
| `HistoryArchive.Archive.CompactDate` | mvp20/history.py:149-185 | the day's rows, each as often as it occurs, become the daily file; the sources go when asked to; nothing happens without sources |
| `HistoryArchive.CompactionByDate` | mvp20/history.py:149-185 | file by file: minute files of other dates stay with their rows; the day's file holds each row as often as the minute files of that date do; with nothing to compact nothing changes; with `delete_source` exactly those files are gone |
| `HistoryArchive.AppendAdds` | mvp20/history.py:78-83 | the archive grows by exactly the batch |
| `HistoryArchive.AppendsCompose` | mvp20/history.py:63-83 | two batches for a minute are one batch in the order they came; other minutes and the daily files stay |
| `HistoryArchive.CompactionLoss` | mvp20/history.py:161-185 | a source-deleting compaction loses exactly the daily file it replaces |
| `HistoryArchive.CompactionConserves` | mvp20/history.py:161-185 | so it conserves the archive if and only if there is nothing to compact or no rows in that file |
| `HistoryArchive.KeepingSourcesDoubles` | mvp20/history.py:118-185 | keeping the sources counts the day twice, since queries read both trees |
| `HistoryArchive.HistoryConserved` | mvp20/history.py:36-185 | through any run of appends and compactions, each date compacted once, the archive grows by exactly the appended rows |
| `HistoryArchive.SecondCompactionLoses` | mvp20/history.py:161-185 | compacting a date twice with an append in between really loses the first batch |
| `HistoryArchive.CompactionIsInvisible` | mvp20/history.py:118-185 | a first compaction leaves every below-limit query answer the same as a multiset |
| `HistoryArchive.AppendedShows` | mvp20/history.py:36-135 | what is appended shows: a below-limit answer afterwards holds in addition exactly the appended rows of that stock and slot in the time range, ends included |
| `OverlayMerge.MergePreserve` | mvp20/overlays.py:1213-1280 | index and output loop compute the merge: generated frame and order, preserved nodes rebuilt field by field |
| `OverlayMerge.IndexByKey` | mvp20/overlays.py:1235-1240 | the index holds the last node for each (node_id, dp_id) |
| `OverlayMerge.CopyPreserved` | mvp20/overlays.py:1252-1255 | the copying loop overwrites exactly the nine preserved fields the existing node has |
| `OverlayMerge.BuildMerged` | mvp20/overlays.py:1249-1274 | one preserved node: content and status of the existing node, fields its status implies, everything else as generated |
| `OverlayMerge.MergedLookup` | mvp20/overlays.py:1164-1274 | where each field of a preserved node comes from |
| `OverlayMerge.PreservedContent` | mvp20/overlays.py:1183-1274 | status and preserved fields of a preservable node survive as they were |
| `OverlayMerge.MergedIsPreserved` | mvp20/overlays.py:1183-1274 | a merged node would be preserved again |
| `OverlayMerge.MergeKeepsShape` | mvp20/overlays.py:1213-1280 | keys, order and frame are the generated ones, forced or not |
| `OverlayMerge.MergeIdempotent` | mvp20/overlays.py:1232-1280 | merging the same generated overlay into the merge result changes nothing |
| `MergeInWords.MergeInWords` | mvp20/overlays.py:1139-1280 | at each generated node: without an old node of its key, or with one whose status is not kept (Known, N/A, Inactive outside the event-driven slots, Optionality with a filled half), it stands as generated; else status and each of nine named fields are the old node's, policy and weight follow the status, and everything else is as generated |
| `OverlayMerge.SelfMergeExact` | mvp20/overlays.py:1232-1280 | the condition is exact: merging an overlay into itself is the identity if and only if its preservable nodes carry the fields their status implies |
| `OverlayValidation.ValidateStockOverlay` | mvp20/overlays.py:876-1024 | the validator reports exactly the specified errors, in the source's order (top-level fields, nodes, hierarchy edges, causal edges, mode, views, score layers), and the specified warnings |
| `ValidationInWords.ProblemsExactly` | mvp20/overlays.py:876-1024 | each of the fifteen kinds of error is reported exactly when it is there: a frame fact, a node that lacks a field or breaks a vocabulary or a rule of its status, a hierarchy or causal edge of the wrong type or with an end that is no node |
| `ValidationInWords.WarningsExactly` | mvp20/overlays.py:932-982 | each warning is given exactly when it is due, and the two governance warnings count exactly the slots without an entry, and those with one whose role or target is missing |
| `OverlayValidation.MergedNodeClean` | mvp20/overlays.py:1164-1274 | a preserved node under a clean generated one is clean if and only if its Optionality value is properly split, whatever policy a patch had left |
| `OverlayValidation.MergeKeepsValidity` | mvp20/overlays.py:876-1280 | a merge into a clean generated overlay is clean if and only if every carried-over Optionality value is properly split |
| `OverlayValidation.PreservedNeverWarns` | mvp20/overlays.py:958-966 | a preserved node raises no warning, whatever weight its slot is generated with |
| `OverlayValidation.HalfFilledOptionSpoilsMerge` | mvp20/overlays.py:967-973 | and one that is not really does come through: the new-business slot with only its present half filled makes the merge of a clean overlay invalid, under every vocabulary with the three words its slot definition uses |
| `OverlayPatch.OverlayFile.ApplyPatch` | scripts/apply_yaml_patch.py:160-270 | entries are applied in order to the last node with their dp_id, whitelisted fields only; matched and unmatched entries are counted; a rejected strict patch changes nothing |
| `OverlayPatch.OverlayFile.NodesByDp` | scripts/apply_yaml_patch.py:240-246 | the dp_id index holds the last node with each dp_id |
| `OverlayPatch.PatchTouchesOnlyNamed` | scripts/apply_yaml_patch.py:246-264 | a node whose dp_id no entry names is untouched |
| `OverlayPatch.PatchKeepsStructure` | scripts/apply_yaml_patch.py:246-264 | fields off the whitelist keep their values and no field disappears |
| `PatchInWords.PatchInWords` | scripts/apply_yaml_patch.py:38-264 | every field of every node: nothing changes if, in strict mode, a named entry fails its schema; else a writable field of the last node with the named dp_id holds what the last entry that mentions it says, and everything else is as it was |
| `PatchInWords.PatchCounts` | scripts/apply_yaml_patch.py:246-264 | the two counters are the numbers of entries that found a node and that found none |
| `ClosedLoopAudit.DemoteNode` | scripts/verify_overlay_closed_loop.py:751-771 | the demotion writes exactly the specified fields, and always reports a change on a violating node |
| `ClosedLoopAudit.AuditFile` | scripts/verify_overlay_closed_loop.py:829-939 | the node loop demotes exactly the violating nodes the mode covers, and counts violations, soft warnings and demotions |
| `ClosedLoopAudit.DemotedScans` | scripts/verify_overlay_closed_loop.py:682-771 | a demoted node raises no hard violation under any governance |
| `ClosedLoopAudit.DemotionConverges` | scripts/verify_overlay_closed_loop.py:791-940 | after one full auto-demote audit any further audit finds no hard violation, demotes nothing and leaves the file alone |
| `AuditInWords.AuditInWords` | scripts/verify_overlay_closed_loop.py:175-225 | one pass in any mode changes exactly the nodes that cite the web outside the web tier, if it demotes and covers them: back to Unknown, nothing cited, no source named, value kept. After a full audit web-tier nodes are as they were, no other node holds a link, a mapping with a link or a web kind, and one that held none is as it was |
| `AuditInWords.ViolationsCounted` | scripts/verify_overlay_closed_loop.py:829-939 | one hard violation per such node, unless the pass is confined to the web tier; as many demotions, if the pass demotes |
| `AuditInWords.WarningExactly` | scripts/verify_overlay_closed_loop.py:228-245 | a soft warning is given exactly for web-tier nodes with a citation of the web that lacks url, checksum or time of fetching |
| `AuditInWords.WarningsOfOne` | scripts/verify_overlay_closed_loop.py:228-245 | one warning for each thing a citation lacks |
| `AuditInWords.TruthyExactly` | scripts/verify_overlay_closed_loop.py:175-245 | which values count as no evidence, no source and missing metadata |
| `Fingerprint.ComputeFingerprint` | mvp20/fingerprint.py:142-210 | select, keep the best row per dependency, hash: independent of the order rows come back in |
| `Fingerprint.FingerprintExact` | mvp20/fingerprint.py:142-210 | short of a collision among the very rows and digest lists the two computations hash, the fingerprint changes exactly when the covered dependencies or one of their canonical rows change |
| `Fingerprint.FingerprintSeesRows` | mvp20/fingerprint.py:87-210 | so, short of a collision, it changes exactly when a dependency gains or loses its row, or the source, time stamp or value of that row changes; status and confidence do not count |
| `Fingerprint.DigestsRecoverRows` | mvp20/fingerprint.py:204-210 | the list of row digests in dp_id order determines the rows and the dp_ids, though the dp_ids are not hashed a second time |
| `Fingerprint.RefreshExactly` | mvp20/fingerprint.py:213-269 | a refresh is asked for exactly when the trigger allows it, some dependency has a row, and the stored fingerprint is missing or differs |
| `PromptQueue.FilterNodes` | scripts/codex_prompt_gen.py:233-275 | the nodes the layer filters admit are split, in order, by decision into those to fill and those skipped with their reason; nothing else appears in either list |
| `PromptQueue.FilterIsExact` | scripts/codex_prompt_gen.py:256-275 | a node is listed to fill exactly when it is admitted and queued, skipped exactly when admitted and not queued; the two lists account for every admitted node once |
| `PromptQueue.AdmittedExactly` | scripts/codex_prompt_gen.py:256-261 | a node passes the layer filters exactly when its dp_id begins with the wanted prefix and with no unwanted one |
| `PromptQueue.QueuedExactly` | scripts/codex_prompt_gen.py:152-230 | the whole rule: with an LLM route and the wanted tier, Unknown nodes and Optionalities with both halves empty are filled, Known and event-driven Inactive nodes are refreshed when their fingerprint is missing or outdated, and nothing else is queued |
| `PromptQueue.PreservedQueuedExactly` | scripts/codex_prompt_gen.py:152-230 | a node a merge would preserve is queued if and only if it is Known, route and tier admit it, and its stored fingerprint is missing or differs from the current one |
| `Lifecycle.RunKeepsShape` | mvp20/overlays.py:1213-1280 | over any interleaving of regenerations, patches and audits, node ids, order and edges stay as generated, and no generated field disappears |
| `Lifecycle.RunKeepsGenerated` | mvp20/overlays.py:1213-1280 | over any such run, every field that no patch, merge, status or demotion writes holds the value of the last regeneration |
| `Lifecycle.RunPreserves` | mvp20/overlays.py:1183-1280 | over any such run a preservable node (every Known and N/A node) keeps status, value, evidence and stored fingerprint until an accepted patch names its dp_id or an audit demotes it |
| `LifeInWords.LifeInWords` | mvp20/overlays.py:1139-1280 | the same told from the node: over any run in which every patch is rejected or leaves it unnamed, and every audit that demotes finds it citing no web outside the web tier, a node of kept status ends with the same status and the same nine fields, missing ones missing |
| `Lifecycle.StepPreserves` | mvp20/overlays.py:1232-1280 | the single-step form, for each kind of step |
| `Lifecycle.RunQuiescent` | scripts/codex_prompt_gen.py:152-230 | with the hot store frozen, a Known node whose stored fingerprint is current is never queued, at any point of any run that spares it |
| `Lifecycle.DemotionLeadsToRefill` | scripts/verify_overlay_closed_loop.py:724-771 | a demoted node with an LLM route is queued for filling, stays so through audits and patches to other nodes, and the next regeneration replaces it by the generated node |
| `Lifecycle.PatchedFieldSurvivesExactly` | scripts/apply_yaml_patch.py:246-264 | of what a patch writes to a preservable node, exactly status and preserved fields survive the next regeneration; the other whitelisted fields revert |
| `Lifecycle.RegenerationRepairsNaPolicy` | mvp20/overlays.py:1172-1280 | a patch that sets N/A leaves a policy error exactly when the old policy stands; the next regeneration repairs it and keeps the node N/A |
| `MissingStates.KnownExactly` | mvp20/coverage.py:110-235 | exactly which declared statuses, policies and materialities put a node in the coverage numerator |
| `MissingStates.ComputeDataCoverage` | mvp20/coverage.py:206-237 | the accumulating loop computes the clipped known share of the applicable weight |
| `MissingStates.RenormalizeWeights` | mvp20/coverage.py:174-198 | collecting, totalling and dividing gives each identifier its last weight over the applicable total |
| `MissingStates.NotApplicableIsTransparent` | mvp20/coverage.py:110-237 | an N/A child anywhere changes neither coverage nor the renormalised weights |
| `MissingStates.LearningRaisesCoverage` | mvp20/coverage.py:206-237 | turning an unknown child into a known one never lowers coverage, and raises it exactly when the child has weight |
| `MissingStates.RenormalizedSum` | mvp20/coverage.py:174-198 | renormalised weights plus the share overwritten by repeated identifiers is 1 |
| `MissingStates.DistinctSumToOne` | mvp20/coverage.py:174-198 | over distinct identifiers they sum to 1 whenever the applicable total is positive |
| `MissingStates.CoverageIsKnownShare` | mvp20/coverage.py:174-237 | the two functions agree: coverage is the sum of the renormalised weights of the known children |
| `MissingStates.CoverageOfTwo` | mvp20/coverage.py:71-237 | one known and one unknown child: coverage is the known one's share of the two weights, active weight before base weight before 1 |
| `MissingStates.ClassWords` | mvp20/coverage.py:92-166 | which class each status text means, and each missing policy where there is no status |
| `MissingStates.ClassPadded` | mvp20/coverage.py:92-107 | white space around a status makes no difference |
| `MissingStates.TinyKnown` | mvp20/coverage.py:110-166 | a Known child under 0.05 materiality is classed as immaterial, yet counts as known |
| `MissingStates.NothingApplies` | mvp20/coverage.py:174-237 | without applicable weight coverage is 0 and there are no weights |
| `CoverageInWords.SharesOfTwo` | mvp20/coverage.py:174-198 | two children under different identifiers (dp_id, else node id) share by weight |
| `CoverageReport.CoverageSummaryForNode` | mvp20/coverage.py:361-417 | the counting loop and the two roll-ups of one parent |
| `CoverageReport.BucketsPartition` | mvp20/coverage.py:381-417 | each of the six buckets counts the children in its state, and together they count every child once |
| `CoverageReport.ChildTable.CollectByParent` | mvp20/coverage.py:449-454 | the first loop files every node under its `parent_node`, in order |
| `CoverageReport.ChildTable.CollectListed` | mvp20/coverage.py:456-472 | the second loop adds explicitly listed children that are not there yet |
| `CoverageReport.EachChildOnce` | mvp20/coverage.py:445-472 | with distinct node ids a parent's bucket holds each of its children exactly once, whether the child names the parent, the parent lists the child, or both |
| `CoverageInWords.ParentsExactly` | mvp20/coverage.py:445-502 | with distinct node ids exactly the parents that have a child by either account are reported, none twice; each summary carries the ids of the last node so called and, per class, the number of its distinct children in that class |
| `CoverageReport.CoverageSummaryForOverlay` | mvp20/coverage.py:420-525 | the report loop: summaries in first-mention order, totals, overall figure, alerts |
| `CoverageReport.OverallBetween` | mvp20/coverage.py:474-502 | overall coverage lies between the lowest and highest parent with applicable children, and is 0 when there is none |
| `CoverageReport.TotalsConserve` | mvp20/coverage.py:474-502 | the six totals add up to the children of all reported parents, and the non-N/A ones to the overall denominator |
| `CoverageReport.AlertsExactly` | mvp20/coverage.py:240-525 | an alert for exactly the parents below half coverage, and the level below 0.3 is the stronger one |
| `TextNormalization.NormalizeAppend` | scripts/verify_overlay_closed_loop.py:258-267 | normalisation distributes over concatenation |
| `TextNormalization.SubstringCites` | scripts/verify_overlay_closed_loop.py:592-592 | every contiguous piece of a text passes the substring test against it |
| `TextNormalization.PunctuationIsInvisible` | scripts/verify_overlay_closed_loop.py:252-267 | punctuation on either side never changes the outcome of the substring test |
| `TextNormalization.MarksAreInvisible` | scripts/verify_overlay_closed_loop.py:252-267 | each of the marks, half width or full width, makes no difference wherever it is inserted |
| `TextNormalization.LettersAndDigitsCount` | scripts/verify_overlay_closed_loop.py:258-267 | letters count, whatever their case, and digits count |
| `TextNormalization.NormalizeTwice` | scripts/verify_overlay_closed_loop.py:258-267 | normalisation is idempotent |
| `TextNormalization.CitesTransitive` | scripts/verify_overlay_closed_loop.py:592-592 | a citation of a citation cites the original |
| `NumberScan.ExtractNumbers` | scripts/verify_overlay_closed_loop.py:301-318 | the scanning loop lists the values of all matches, left to right |
| `NumberScan.ThousandsPlain` | scripts/verify_overlay_closed_loop.py:301-318 | dropping the separators of a printed number gives its plain notation |
| `NumberScan.ThousandsRoundTrip` | scripts/verify_overlay_closed_loop.py:276-318 | for every natural number, printing with thousands separators and scanning returns exactly that number, alone or inside text that does not run into it |
| `NumberScan.PlainRoundTrip` | scripts/verify_overlay_closed_loop.py:276-318 | the same for plain notation, with or without `.0` |
| `ExcerptMatch.NumericTolerantMatch` | scripts/verify_overlay_closed_loop.py:384-471 | the nested loops accept exactly when both texts have numbers and every number of the excerpt is close to one of the source, possibly scaled, or its digits occur there |
| `ExcerptMatch.SubstringAccepted` | scripts/verify_overlay_closed_loop.py:560-604 | an excerpt that is a contiguous piece of the source is accepted unless it is under three characters after normalisation, when it is skipped |
| `ExcerptMatch.WordsJudged` | scripts/verify_overlay_closed_loop.py:384-604 | where either text has no digit, an excerpt of three characters or more is accepted exactly when it is a piece of the source, punctuation and case aside |
| `NumberScan.ScientificRoundTrip` | scripts/verify_overlay_closed_loop.py:276-318 | the same for signed decimals, grouped or plain, with an exponent or without |
| `NumberScan.PowerInDigits` | scripts/verify_overlay_closed_loop.py:301-318 | a power of ten is what a 1 and that many zeros denote |
| `ExcerptMatch.PrintedNumberAccepted` | scripts/verify_overlay_closed_loop.py:384-471 | a printed number in running text (signed, grouped, with fraction and exponent, or without) traces back to any stored one of the same value |
| `ExcerptMatch.DotZeroSame` | scripts/verify_overlay_closed_loop.py:301-318 | a stored `.0` does not change a number, so that law covers whole numbers stored as floats |
| `ExcerptMatch.ScaledNumberAccepted` | scripts/verify_overlay_closed_loop.py:290-471 | a figure followed by any of the seven Chinese units of account, with or without a space, traces back to the stored number in full |
| `ExcerptMatch.ThousandsNormalize` | scripts/verify_overlay_closed_loop.py:258-381 | normalising a printed number, or keeping its digits, gives the plain notation |
| `ExcerptMatch.NumberCitationExact` | scripts/verify_overlay_closed_loop.py:352-604 | a number cited against another is accepted if and only if the two differ by at most 1 or by at most a millionth of the larger, or the digits of the first are a run of digits of the second |

## Left out

- Floating-point rounding, NaN and infinities: numbers are reals.
- `math.exp` and `math.tanh`: recency and the squashed growth rate are given numbers in range.
- Text as the standard library sees it: case folding and digits are ASCII, white space is space, tab and line breaks; numeric text where a number is expected counts as missing in the derive formulas.
- Bodies of the other fifteen derive formulas and of the sub-score bootstrap: arbitrary functions, so convergence holds whatever they compute; an exception counts as no result. Factor and rationale texts.
- Several companies in one derive run: each company reads and writes its own rows.
- A payload confidence that is not a number: treated as the default 0.5.
- The daily-bar derive pass (`derive_all`) and everything it fetches.
- OverlayValidation.ValidateStockOverlay: covers stock overlays, not industry overlays; an active weight given as text counts as 0.
- The patch file's parser and its line splitter: a patch is the list of entries that parsed; overlays are values, not YAML text; entries and nodes that are not mappings.
- Excerpt and schema findings of the audit are soft warnings that change no node; `Judge` models one excerpt against one source text, the choice of source row is `LookupBySorting`, and overlay-file sources are not part of this model.
- SQL, Parquet, hashing and JSON text: tables and files are maps and sequences, the hash is a parameter; `FingerprintExact` assumes no collision among the values it compares.
- HTTP, command line, SSE byte framing, report writers, prompts, source adapters: input and output only.
- `mvp20/scoring.py`, `mvp20/market_adapter.py`, the optionality and confidence helpers of `mvp20/coverage.py`, and the configuration validators: straight-line formulas and single checks that would only add easy members.
