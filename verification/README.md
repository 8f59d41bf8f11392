# Verified model of the Handshake topology indexer

The repository indexes the names of the Handshake blockchain, follows the chain
with a reorg journal, exports a static site that a browser reads, and keeps a
live database of probed hosts. This project models its parts that carry
invariants and proves what they promise. `dafny verify dfyconfig.toml` checks
everything.

- **Index and reorg journal** (`Tables`, `ResourceIp`, `IpColumns`, `Journal`,
  `BlockColumns`, `Retention`, `Replay`, `JournalRuns`, `Convergence`,
  `Mismatch`, `Chains`, `CatchUp`, `Reorgs`, `IndexRuns`, `JournalLimits`,
  `TopologyIndex`).
  `Journal` gives the operations as functions on database values; the class
  `TopologyIndex.Index` updates maps in place as the tables are and is proved
  equal to them. Whole-run results: every rollback inside the window restores
  the exact tables, a reorg ends where following the new chain would have, and
  resource_ip stays in step through any mix of writes.
- **Broad sweep** (`LiveModels`, `Sweep`, `SweepSelect`, `SweepPage`, `SweepTier`,
  `SweepBatch`, `LiveDb`, `SweepRuns`, `SweepKeys`, `SweepColumns`, `SweepReads`,
  `SweepReview`, `AuthorityHealth`, `Limiter`). Selection, recording and stored
  progress, with arbitrary probe results in any order and batches that raise.
  Whole-run results: what a cursor has passed is dealt with, the due set
  drains, and sweeping ends.
- **Listing and due queue** (`Listing`, `ListingColumns`, `DueQueue`,
  `DueColumns`), stated against the whole history of a host and for every limit.
- **Static export and its browser reader** (`Pages`, `RowStore`,
  `RowFilters`, `Lookup`, `IpPages`, `Fnv`, `FnvLaws`, `NameserverQuery`,
  `ShardWriters`), as round trips from the Python writer to the JavaScript
  reader.
- **Evidence and handoff folds** (`Tlsa`, `TlsaSummary`, `TlsaColumns`,
  `TlsaTables`, `NsHandoff`, `RouteColumns`, `Handoff`, `HandoffColumns`,
  `HandoffImport`, `ImportColumns`).
- **Auction fold and publication gate** (`Auctions`, `ProbeGate`,
  `GateColumns`).

The modules named after columns state what an operation does on the stored
columns and inputs alone, without the functions it is made of; `TextLaws` and
`FnvLaws` do so for trimming, lowering, order and hashing.

Node answers, probe results and DNS messages are inputs; timestamps are
parameters. A `with conn` block is one atomic step. Text is compared by code
point; trimming and lower case cover ASCII. Each lemma carries
`{:induction false}`: its body is its whole proof.

## What the code does not meet

Each of these is a lemma, with the exact condition where it depends on the data:

- a height indexed twice between rollbacks loses pre-images
  (`JournalLimits.SameHeightTwiceRestoresIff`), so heights must ascend;
- a name such as `foo .` is captured under one key and written under another, so
  a rollback can leave rows behind (`JournalLimits.AnyBlockRestoresIff`, and on
  an empty index `JournalLimits.RollbackLeavesFoo`); the whole-run results are
  about blocks that capture every row before they write it
  (`Journal.WellCaptured`);
- block history imported by the bootstrap has no pre-images
  (`JournalLimits.ImportedHistoryRestoresNothing`);
- a batch that repeats a name can leave the union of its addresses
  (`ResourceIp.BatchInStepIff`, over runs `IndexRuns.InStepThroughoutIff`);
- a sweep that is asked for one tier twice probes roots twice
  (`SweepBatch.DistinctRootsIff`);
- an authority delay of zero never backs off (`Limiter.BacksOffIff`);
- the evidence summary's ttl depends on row order (`TlsaSummary.OneSummaryIff`),
  and TLSA rows under a name not in plain form escape the incremental refresh or
  make it raise (`TlsaTables.RefreshIsRebuildIff`);
- a nameserver whose name the search box refuses is written and cannot be found
  (`ShardWriters.WrittenIsFoundIff`);
- a quick probe can publish a DS-backed host without validated DNSSEC
  (`ProbeGate.QuickGateIff`).

## Model

| member | source | states |
|---|---|---|
| `Tables.IndexInStepIsFlatten` | src/hns_topology/db.py:918-940 | resource_ip is in step with resource_summary exactly if it is the normalised flattening of all rows |
| `Tables.SameRowsSameTables` | src/hns_topology/db.py:918-940 | two consistent databases with the same rows under every name are equal, resource_ip included |
| `Tables.UpsertResourceKeepsConsistent` | src/hns_topology/db.py:379-382 | a single upsert keeps keys, foreign keys and resource_ip in step |
| `Tables.DeleteNameKeepsConsistent` | src/hns_topology/db.py:559-583 | a deleted name cascades to its summary and addresses and keeps the tables consistent |
| `ResourceIp.BatchInStepIff` | src/hns_topology/db.py:897-911 | a batch upsert keeps resource_ip in step if and only if no repeated name has an address its last row lacks |
| `ResourceIp.DistinctBatchIsSequence` | src/hns_topology/db.py:385-398 | with distinct names the batch leaves the tables that one upsert after another leaves |
| `TopologyIndex.Index.ReplaceResourceIps` | src/hns_topology/db.py:897-911 | deletes the batch's names from resource_ip, then inserts all its rows' addresses |
| `TopologyIndex.Index.UpsertResources` | src/hns_topology/db.py:385-398 | stores the rows, then replaces their addresses as one batch |
| `TopologyIndex.Index.IpRowsInOrder` | src/hns_topology/db.py:923-940 | lists each cleaned address of the four fields of a row exactly once |
| `TopologyIndex.Index.RebuildResourceIp` | src/hns_topology/db.py:730-781 | for every batch size leaves the flattening, returns its size, and changes nothing if the index was in step |
| `IpColumns.UpsertedColumns` | src/hns_topology/db.py:180-185 | after an upsert an address is stored under the name with field GLUE4, GLUE6, SYNTH4 or SYNTH6 exactly if an entry of the glue4, glue6, synth4 or synth6 column trims and lowers to it; other names keep theirs |
| `IpColumns.ConsistentColumns` | src/hns_topology/db.py:918-940 | so it is for every name of a database that blocks, batches of distinct names, deletes and rollbacks leave |
| `IpColumns.RebuiltColumns` | src/hns_topology/db.py:730-781 | the rebuild writes exactly these addresses from the four columns |
| `IpColumns.BatchColumns` | src/hns_topology/db.py:897-911 | a batch leaves under each name the addresses that any of its rows of that name lists, field by field |
| `TopologyIndex.Index.CaptureRollback` | src/hns_topology/db.py:489-525 | saves a name's two rows under (height, name), replacing what is there, and changes nothing else |
| `TopologyIndex.Index.IndexName` | src/hns_topology/indexer.py:657-687 | writes the names row under the normalised name, the resource_summary row and its addresses under that name normalised again; raises exactly if that row would have no names row |
| `TopologyIndex.Index.PruneReorgMetadata` | src/hns_topology/db.py:545-548 | drops history and journal below the window and nothing else |
| `TopologyIndex.Index.IndexChangedNames` | src/hns_topology/indexer.py:332-374 | one block as one transaction: all names, history, meta and pruning, or, if a node call or a write raises, no change at all |
| `TopologyIndex.Index.FindReorgMismatch` | src/hns_topology/indexer.py:377-391 | returns the least retained height whose hash the node denies, or none if all match |
| `TopologyIndex.Index.RollbackToHeight` | src/hns_topology/db.py:551-603 | replaying pre-images from the highest height down is the rollback to the oldest pre-image of each name at or above the height |
| `BlockColumns.NamesAre` | src/hns_topology/indexer.py:345 | the names of a block are the changed names that are not blank, stripped of spaces and dots and lowered, each once in order |
| `BlockColumns.BlockStores` | src/hns_topology/indexer.py:657-687 | after a block each of its names has every column its answer gave, the block's height and time, and every other name the rows it had; the meta rows name the block |
| `BlockColumns.RaisesIff` | src/hns_topology/indexer.py:346-373 | a block raises exactly if a node call fails or a resource_summary row would be written under a name that has no names row by then |
| `Retention.HistoryKept` | src/hns_topology/db.py:545-548 | after a block with `keep`, the history holds exactly the nonnegative heights from its height minus `keep` on that it held, as they were, and the block's own |
| `Retention.JournalKept` | src/hns_topology/db.py:489-548 | so does the journal, with a pre-image of each name of the block: its rows, hash and class before the block, the block's hash and time |
| `Retention.RolledBackRows` | src/hns_topology/db.py:580-583 | a rollback drops history and journal from its height on and nothing below it |
| `Retention.RolledBackMeta` | src/hns_topology/db.py:584-595 | the last indexed block is then the highest one left, or with none left the height below, never a negative one |
| `Journal.IndexNamesEffect` | src/hns_topology/indexer.py:348-358 | a block that captures every row before it writes it journals what each row was and leaves every other name alone |
| `Journal.StableIsWellCaptured` | src/hns_topology/indexer.py:345-358 | names that normalising again leaves alone are captured before they are written |
| `Journal.StableSucceeds` | src/hns_topology/indexer.py:332-374 | and a block of such names raises exactly if a node call does |
| `Journal.IndexBlockSound` | src/hns_topology/indexer.py:332-374 | a block of any names keeps the foreign keys and resource_ip, and journals rows a rollback can put back |
| `Journal.RollbackSound` | src/hns_topology/db.py:551-603 | a rollback keeps the database consistent |
| `Replay.ReplayIsRollback` | src/hns_topology/db.py:551-583 | the descending replay loop computes the declarative rollback |
| `JournalRuns.RollbackRestores` | src/hns_topology/db.py:551-603 | a rollback to a retained height restores names, resource_summary and resource_ip as they were before the first block at or above it |
| `JournalRuns.IndexTracks` | src/hns_topology/indexer.py:332-374 | an indexed block above the last one keeps every retained version restorable |
| `JournalRuns.RollbackTracks` | src/hns_topology/db.py:551-603 | a rollback keeps every version below its height restorable |
| `JournalRuns.EveryRollbackRestores` | src/hns_topology/db.py:489-603 | after any run of blocks, prunings and rollbacks, a rollback to any retained height restores the version before it |
| `Retention.KeptBlocksAreUndone` | src/hns_topology/db.py:489-603 | over any run with one `keep`, a rollback to any nonnegative height at most `keep` below the highest height ever indexed restores the tables from before the first block at or above it |
| `JournalRuns.RollbackUndoesBlocks` | src/hns_topology/db.py:489-603 | any blocks above a height are undone by one rollback to it, on top of any tracked state |
| `JournalRuns.RollbackBelowFloor` | src/hns_topology/db.py:545-583 | below the oldest journal row a rollback restores no more than at that row |
| `Convergence.ReorgConvergence` | src/hns_topology/indexer.py:332-410 | indexing a stale branch, rolling back and indexing the current one gives the same tables, retained journal, history and meta as indexing the current one alone |
| `Chains.ReorgHeals` | src/hns_topology/cli.py:399-522 | on values: a database that followed the stale chain, rolled back to the fork and caught up equals one that followed the current chain from the start |
| `Chains.ForkIsFirstMismatch` | src/hns_topology/indexer.py:377-391 | the first mismatch of a database on a stale chain is the height where the chains part |
| `Mismatch.RollbackAtMismatch` | src/hns_topology/db.py:584-595 | keeps exactly the longest matching prefix of the history, no mismatch remains, and last_indexed_height becomes one below, with history left or not |
| `Mismatch.NextBlockKeepsContiguous` | src/hns_topology/cli.py:454-489 | indexing the next height keeps the retained heights contiguous up to it |
| `CatchUp.FollowChain` | src/hns_topology/cli.py:454-489 | indexes exactly the blocks before the first one refused or failing, and nothing of that one |
| `CatchUp.AcceptedIs` | src/hns_topology/cli.py:454-489 | the blocks counted are each indexable behind the ones before, and the next one is not |
| `CatchUp.ExitIs` | src/hns_topology/cli.py:454-475 | the loop catches up over blocks with whole transactions, no forbidden unresolved hash and a name for their name covenants; it refuses the first block without, and raises only at a block that is missing or whole |
| `CatchUp.IncrementalCatchUp` | src/hns_topology/cli.py:399-495 | each exit happens under its own condition, and only the catch-up changes the database |
| `CatchUp.FollowedIsIndexBlocks` | src/hns_topology/cli.py:454-489 | the loop's result is indexing the chain's blocks in order |
| `CatchUp.CatchUpKeepsContiguous` | src/hns_topology/cli.py:454-489 | catch-up keeps a contiguous window ending at last_indexed_height |
| `Reorgs.ReorgCheck` | src/hns_topology/cli.py:504-521 | rolls back to the first mismatch, or changes nothing if all retained hashes match |
| `Reorgs.FollowThroughReorg` | scripts/full-nightly-job.sh:53-55 | follow one chain, check against the node's other chain, roll back to the fork the check finds, follow that chain: if the first loop catches up, the fork is the first block they do not share; if both do, the index ends as if it had followed the other chain from the start |
| `IndexRuns.InStepThroughoutIff` | src/hns_topology/db.py:367-398 | over any run of names, single and batched upserts, deletes, rebuilds, blocks and rollbacks, resource_ip is in step at every point if and only if no stored batch repeats a name with an address its last row lacks |
| `JournalLimits.SameHeightTwiceRestoresIff` | src/hns_topology/db.py:507-525 | if one height is indexed twice, the rollback restores the tables if and only if the first block left the names both change as they were |
| `JournalLimits.AnyBlockRestoresIff` | src/hns_topology/indexer.py:345-358 | for a block of any names, the rollback restores the tables if and only if no name is written, before its own capture or without one, with rows it did not have |
| `JournalLimits.CapturedFirstRestores` | src/hns_topology/indexer.py:345-358 | so it does whatever is written if every row is written under a name captured by then |
| `JournalLimits.EarlyNameStays` | src/hns_topology/indexer.py:345-358 | and a name unknown before and written before its capture stays behind |
| `JournalLimits.RollbackLeavesFoo` | src/hns_topology/indexer.py:345-358 | the changed name "foo ." on an empty index leaves "foo" behind the rollback |
| `JournalLimits.SpaceThenDotIsUnstable` | src/hns_topology/classifier.py:21-22 | "foo ." is captured as "foo " and written as "foo" |
| `JournalLimits.ImportedHistoryRestoresNothing` | src/hns_topology/indexer.py:202-209 | a rollback over imported block history moves last_indexed_height and restores no row |
| `Sweep.RowsAfterHas` | src/hns_topology/live_sweep.py:624-651 | the rows behind a cursor are exactly the tier's rows with a greater name, in order |
| `Sweep.TiersDisjoint` | src/hns_topology/live_sweep.py:57-78 | no row is in two generic tiers |
| `SweepSelect.MarkSharedAuthorityKeys` | src/hns_topology/live_sweep.py:1027-1037 | a row's health keys are those its page names more than once |
| `SweepSelect.MarkedPageAt` | src/hns_topology/live_sweep.py:466-482 | behind full pages, the page read is the next slice of the tier's rows marked page by page |
| `SweepKeys.AuthorityKeysAre` | src/hns_topology/live_sweep.py:984-996 | a root's authorities are its bootstrap addresses, else its nameservers trimmed and lowered, else its provider |
| `SweepKeys.HealthKeysAre` | src/hns_topology/live_sweep.py:1027-1037 | a row's health keys are those of its authorities that the rows of its page hold twice |
| `SweepPage.TryPick` | src/hns_topology/live_sweep.py:517-545 | picks a due row, waits when its key has three samples, or stops at the limit; a sample always makes the cursor wait |
| `SweepPage.ScanMarked` | src/hns_topology/live_sweep.py:496-545 | the row loop: the cursor passes only settled rows and confirmed picks, and stops at the first row of an unknown authority |
| `SweepTier.ScanTier` | src/hns_topology/live_sweep.py:457-550 | the page loop ends; every row read is picked, settled or its authority has its samples; rows are judged by the page that holds them; every passed row is accounted for, and it stops only at the tier's end, at the limit or at a row of an unknown authority |
| `SweepBatch.SelectSweepCandidates` | src/hns_topology/live_sweep.py:408-557 | for any list of tiers: the scans of the ungated ones in order until the batch is full; candidates are due, unsuppressed rows within the limit, one candidate a name, at most three a sampled key; cursors move over accounted rows only, and an empty batch completes or skips every tier |
| `SweepBatch.DistinctRootsIff` | src/hns_topology/live_sweep.py:101-108 | a selection's roots are always distinct if and only if no tier is asked for twice |
| `SweepColumns.EveryRootHasATier` | src/hns_topology/live_sweep.py:57-78 | a root is in a tier exactly if it is eligible and has glue, synthetic addresses or nameservers |
| `SweepColumns.CandidateColumns` | src/hns_topology/live_sweep.py:457-535 | a candidate is behind the cursor of an open tier asked for, has the tier's flags, is not covered with its present hash beyond now, and its health keys are not all failed and waiting |
| `SweepColumns.CompletedColumns` | src/hns_topology/live_sweep.py:496-550 | a completed tier leaves out no row whose coverage is missing, of another hash or due, unless its health keys are all failed and waiting |
| `SweepColumns.NothingDueIsLeftOut` | src/hns_topology/live_sweep.py:971-981 | so it is for every root of the topology behind the tier's cursor |
| `SweepColumns.WaitingColumns` | src/hns_topology/live_sweep.py:517-550 | an open tier that is neither complete nor cut off by the limit waits at a due row to be sampled, with every row before it selected or not to be probed |
| `SweepColumns.AtMostThreeSamples` | src/hns_topology/live_sweep.py:517-545 | no four candidates of a batch are samples of one authority, the first of their keys that may be probed |
| `SweepReads.NonePassedOver` | src/hns_topology/live_sweep.py:496-541 | no row before a candidate of its tier is left out unless it is not to be probed, its health keys are all failed and waiting, or three candidates sample its authority |
| `SweepReads.PagesAreRead` | src/hns_topology/live_sweep.py:457-550 | a batch that is not full reads each open tier to its end or through whole pages up to the one its cursor waits on, and leaves none of these rows out without such a reason |
| `LiveDb.Database.RecordAuthorityHealth` | src/hns_topology/live_db.py:647-682 | updates each distinct nonempty key once, from its own previous row |
| `LiveDb.Database.StoreSelectionProgress` | src/hns_topology/live_sweep.py:611-617 | stores moved cursors, reopens their tiers and gates completed ones for a week |
| `LiveDb.Database.RecordResults` | src/hns_topology/live_sweep.py:231-262 | stores coverage and health of the results that arrive before one raises, in any order, and of no other |
| `LiveDb.Database.RunSweepBatch` | src/hns_topology/live_sweep.py:180-298 | one batch: selection, recording in any order, progress; a batch that raises stores no progress |
| `SweepReview.RecordedColumns` | src/hns_topology/live_db.py:592-626 | a recorded candidate is covered with its hash and tier, and the outcome, category and 30, 90 or 7 days its result calls for |
| `SweepReview.DueAgain` | src/hns_topology/live_sweep.py:971-981 | over any run a recorded root is due again from exactly the next check its result gave it until it is recorded again, and no batch selects it before |
| `SweepReview.ProgressColumns` | src/hns_topology/live_sweep.py:611-617 | a completed batch stores its cursors, closes completed tiers for a week and reopens moved ones; one that raises stores none |
| `SweepRuns.BatchKeepsCursorSafe` | src/hns_topology/live_sweep.py:457-550 | any batch keeps every row behind a cursor covered, skipped or suppressed on its page when the cursor moved over it; a completed tier has no other row |
| `SweepRuns.PassIsSafe` | src/hns_topology/live_sweep.py:231-276 | the same for the current pass over any run of batches, failing ones included; what earlier passes suppressed excuses nothing |
| `SweepRuns.FailedBatchMovesNothing` | src/hns_topology/live_sweep.py:277-287 | a batch that raises moves no cursor and no gate |
| `SweepRuns.BatchDrains` | src/hns_topology/live_db.py:592-645 | what a batch records leaves the due set for a week, and nothing else does |
| `SweepRuns.SweepDrains` | src/hns_topology/live_sweep.py:457-550 | within a week the due set shrinks by exactly the recorded roots, none counted twice |
| `SweepRuns.NeverSelectedAgain` | src/hns_topology/live_sweep.py:971-981 | no recorded root is selected again within the week |
| `SweepRuns.EmptyBatchGates` | src/hns_topology/live_sweep.py:466-550 | a completed empty batch with room gates every tier it was asked for |
| `SweepRuns.SweepFinishes` | src/hns_topology/live_sweep.py:180-298 | among one more completed batches than there are due roots, one is empty and leaves all its tiers gated |
| `AuthorityHealth.HealthByHistory` | src/hns_topology/live_db.py:1015-1029 | state and failure count of an authority from its whole history of results |
| `AuthorityHealth.NextProbeByHistory` | src/hns_topology/live_db.py:1015-1029 | the time of the next probe from that history |
| `AuthorityHealth.RowsAreHistories` | src/hns_topology/live_db.py:647-682 | however results interleave, each authority's row is the fold of the results recorded under its own key |
| `AuthorityHealth.SuppressedIff` | src/hns_topology/live_sweep.py:998-1024 | a candidate is suppressed exactly if it has health keys, none healthy and none due; a sampled key is one of its own |
| `Limiter.AdaptiveAuthorityLimiter.constructor` | src/hns_topology/live_sweep.py:119-132 | clamps the three delays |
| `Limiter.AdaptiveAuthorityLimiter.Wait` | src/hns_topology/live_sweep.py:134-148 | the start is the least time after the clock and all reservations, and reserves the next ones |
| `Limiter.AdaptiveAuthorityLimiter.Record` | src/hns_topology/live_sweep.py:150-168 | a result with status 429 or 503 on http or https is an overload; it adapts each distinct key once, `unknown` if there is none |
| `Limiter.StartIsLeast` | src/hns_topology/live_sweep.py:134-148 | no start is later than the clock and the reservations before it require |
| `Limiter.StartsAreSpaced` | src/hns_topology/live_sweep.py:134-168 | over any interleaving and clock, starts are the global delay apart, and those sharing a key the delay in force at the earlier one |
| `Limiter.DelaysStayBounded` | src/hns_topology/live_sweep.py:150-168 | every delay stays between base and maximum |
| `Limiter.DelayIsItsHistory` | src/hns_topology/live_sweep.py:150-168 | a key's delay depends on its own outcomes only |
| `Limiter.OverloadsDouble` | src/hns_topology/live_sweep.py:157-162 | n overloads from base give base doubled n times, at most the maximum |
| `Limiter.QuietRecovers` | src/hns_topology/live_sweep.py:163-168 | n quiet outcomes take a quarter off each time, at least base |
| `Limiter.BacksOffIff` | src/hns_topology/live_sweep.py:157-162 | overloads slow a key down if and only if the base delay is positive and below the maximum |
| `Listing.ListingByHistory` | src/hns_topology/live_db.py:956-994 | listed iff the last result is online, degraded iff one ordinary failure follows an online result |
| `Listing.RowRemembers` | src/hns_topology/live_db.py:685-767 | last good category and url, first and last online times and failures from the whole history |
| `Listing.WaitByHistory` | src/hns_topology/live_db.py:956-994 | the next check lies 1 to 90 days ahead, by the kind of the last result and the failures in a row |
| `Listing.BackoffNeverShrinks` | src/hns_topology/live_db.py:983-986 | along ordinary failures the wait never shrinks and doubles up to ninety days |
| `Listing.FirstOnlineIsFixed` | src/hns_topology/live_db.py:957-972 | a first online time never changes |
| `Listing.DirectoryByHistory` | src/hns_topology/live_db.py:1032-1036 | the published category from the last two results |
| `Listing.RowsAreHistories` | src/hns_topology/live_db.py:685-767 | however hosts interleave, each row is that of its own history |
| `Listing.StatusTable.StoreProbeResult` | src/hns_topology/live_db.py:685-767 | replaces the row of the result's host and no other |
| `Listing.ListingState` | src/hns_topology/live_db.py:956-994 | the code's branches compute the row transition |
| `ListingColumns.RowColumns` | src/hns_topology/live_db.py:685-994 | a row copies the last result; by the offline results at the end it is listed, degraded or unlisted and waits 1, 7, 14, 28, 56 or 90 days |
| `Listing.StatusTable.SummaryCounts` | src/hns_topology/live_db.py:770-788 | the checked, https, http-only, degraded and offline counts over rows of active candidates and roots with the present resource hash |
| `Listing.SummaryPartitions` | src/hns_topology/live_db.py:770-788 | the checked rows are the https, the http-only and the offline ones, each counted once, and degraded rows are among the online ones |
| `DueQueue.SelectDueCandidates` | src/hns_topology/live_db.py:387-449 | the requested prefix of the due candidates in queue order |
| `DueQueue.ProvidersTakeTurns` | src/hns_topology/live_db.py:431-443 | within a tier a provider with candidates left is at most one pick behind any other |
| `DueQueue.LowerTiersFirst` | src/hns_topology/live_db.py:418-443 | every waiting candidate of a lower tier number comes before a pick |
| `DueQueue.LinesKeepOrder` | src/hns_topology/live_db.py:431-436 | within provider and tier the earlier-ranked candidate is picked first |
| `DueColumns.PickedColumns` | src/hns_topology/live_db.py:421-432 | exactly active, unsuppressed candidates that are unprobed, changed or due are picked, all of them or as many as the limit allows |
| `DueColumns.ClassesInOrder` | src/hns_topology/live_db.py:411-417 | changed and newly seen candidates first, then those once online, then those never probed, then the rest |
| `DueColumns.LineInOrder` | src/hns_topology/live_db.py:433-440 | one provider's candidates of a class by due time, then priority, then host |
| `DueColumns.RoundsInOrder` | src/hns_topology/live_db.py:433-444 | within a class all providers' first picks come before any second pick and so on; in a round by priority, then due time, then host |
| `Pages.WritePages` | src/hns_topology/exporter.py:1827-1841 | the fetchmany loop cuts rows into pages 1 to the page count |
| `Pages.OrdinalFound` | src/hns_topology/site_assets/app.js:756-761 | quotient and remainder by the page size find an ordinal's page and place |
| `Pages.JoinedIsAll` | src/hns_topology/exporter.py:1827-1841 | all pages together are the rows |
| `RowStore.PageDecodes` | src/hns_topology/site_assets/app.js:655-674 | full and compact pages decode to their rows' columns |
| `RowStore.WriteNameRowStore` | src/hns_topology/exporter.py:1792-1853 | writes every page of the rows, and an empty first page if there are none |
| `RowStore.WriteNamePostings` | src/hns_topology/exporter.py:1856-1937 | writes the ordinals the filter selects, page by page |
| `RowStore.LoadRowsByOrdinals` | src/hns_topology/site_assets/app.js:752-771 | resolves ordinals to rows in their order, whatever order the pages load in |
| `RowStore.PostingPageReadsBack` | src/hns_topology/site_assets/app.js:742-771 | a posting page of any filter reads back as that page of the matching rows, for any two page sizes |
| `RowStore.PostingsReadBack` | src/hns_topology/exporter.py:1713-1937 | all posting pages read back as exactly the matching rows, in order, once each |
| `RowStore.ExportAndRead` | src/hns_topology/exporter.py:1792-1937 | writer and reader composed |
| `RowFilters.FilterColumns` | src/hns_topology/exporter.py:234-253 | which posting lists hold a row, read off its columns; none if it is expired |
| `RowFilters.ListsAreLawful` | src/hns_topology/exporter.py:234-253 | how the lists lie to one another: strict readiness implies a likely website, one stage and one provider list a row, and so on |
| `RowFilters.OrdinalsAscend` | src/hns_topology/exporter.py:1880-1921 | each list is in row order, once each |
| `Lookup.LookupExactNameFromStatic` | src/hns_topology/site_assets/app.js:1109-1151 | the page search ends and finds the row of the name if and only if there is one; no collection without pages |
| `Lookup.RowBesidePage` | src/hns_topology/site_assets/app.js:1120-1133 | a name before a page's first or after its last row is on an earlier or later page |
| `IpPages.IpFieldMask` | src/hns_topology/exporter.py:1566-1570 | the or of the fields' bits |
| `IpPages.MaskRoundTrip` | src/hns_topology/site_assets/app.js:676-683 | a mask decodes to its fields in fixed order, once each |
| `IpPages.MaskIsSum` | src/hns_topology/exporter.py:54-59 | the mask is the sum of 1, 2, 4 and 8 for the fields held |
| `IpPages.SameMaskSameFields` | src/hns_topology/exporter.py:1566-1570 | two masks are equal exactly if the field sets are |
| `IpPages.DefaultMaskIff` | src/hns_topology/exporter.py:1573-1579 | a default mask exists exactly if all names have one and the same single field |
| `IpPages.WriteIpAddressNames` | src/hns_topology/exporter.py:1015-1062 | the gathering loop writes the same pages as cutting the rows |
| `IpPages.IpExportReadsBack` | src/hns_topology/site_assets/app.js:655-683 | all pages of an address read back as all its names with their fields, in either encoding |
| `IpPages.DefaultMeansShort` | src/hns_topology/exporter.py:1528-1543 | with a default mask every page has the short encoding |
| `Fnv.PythonFnv1a32` | src/hns_topology/exporter.py:1404-1409 | the hash of the UTF-8 bytes |
| `Fnv.JsFnv1a32` | src/hns_topology/site_assets/app.js:886-893 | signed 32-bit intermediates give the same rounds over the low bytes of the code units |
| `Fnv.SameBytesIff` | src/hns_topology/site_assets/app.js:886-893 | writer and reader hash the same bytes if and only if the text is ASCII |
| `Fnv.JsShardId` | src/hns_topology/site_assets/app.js:895-899 | the reader's shard of an ASCII nameserver is the writer's |
| `FnvLaws.SignedIs` | src/hns_topology/site_assets/app.js:886-904 | the signed intermediate is the word's representative between -2^31 and 2^31 |
| `FnvLaws.XorIs` | src/hns_topology/exporter.py:1405-1409 | a round's exclusive or flips the low byte bit by bit and leaves the others |
| `FnvLaws.KnownHashes` | src/hns_topology/exporter.py:1405-1409 | the hashes of nothing and of "a" are the published ones |
| `ShardWriters.NameserverShardWriters.Write` | src/hns_topology/exporter.py:1350-1354 | appends one line to one shard and keeps at most max_open files open |
| `ShardWriters.NameserverShardWriters.Open` | src/hns_topology/exporter.py:1361-1372 | reuses or opens a handle, closing the least recently used one when full, without changing any shard's lines |
| `ShardWriters.NameserverShardWriters.Close` | src/hns_topology/exporter.py:1356-1359 | after closing, files hold all lines |
| `ShardWriters.WriteShards` | src/hns_topology/exporter.py:1065-1142 | any number of open files gives the lines of unlimited handles, in order |
| `ShardWriters.ReadShard` | src/hns_topology/site_assets/app.js:1060-1076 | the last line of a nameserver wins |
| `NameserverQuery.ReachableIff` | src/hns_topology/site_assets/app.js:860-872 | some query normalises to a name if and only if it passes the reader's test |
| `NameserverQuery.QueryForms` | src/hns_topology/site_assets/app.js:860-872 | a scheme, capitals, dots at the end and a path change nothing: they all look up the name |
| `NameserverQuery.SearchableIff` | src/hns_topology/site_assets/app.js:869-870 | the test is the pattern: labels of `a-z0-9_-` joined by single dots, 253 characters at most |
| `ShardWriters.WriteAndLookUp` | src/hns_topology/site_assets/app.js:996-1078 | any query finds the last payload written for the nameserver it normalises to, and nothing if it fails the test |
| `ShardWriters.WrittenIsFoundIff` | src/hns_topology/site_assets/app.js:860-872 | a written nameserver is found by some query if and only if its name passes the test |
| `Tlsa.SummarizeTlsaEvidence` | src/hns_topology/tlsa_evidence.py:24-92 | the loops compute the summary function |
| `Tlsa.LatestIs` | src/hns_topology/tlsa_evidence.py:35-48 | the dictionary ends with exactly the latest observation of each vantage point |
| `TlsaSummary.HasTlsaIff` | src/hns_topology/tlsa_evidence.py:50-87 | has_tlsa iff some latest observation is a successful answer with a record owned at its query name, an HTTPS owner of the root |
| `TlsaColumns.LatestIsNewest` | src/hns_topology/tlsa_evidence.py:161-166 | a row counts as latest exactly if no TLSA row of its name, server and source was captured later, or at the same time with a higher id |
| `TlsaColumns.HasTlsaColumns` | src/hns_topology/tlsa_evidence.py:24-92 | has_tlsa on the columns: such a row is ok, without error, flagged aa or ad, and holds a record owned by the name asked for, `_443._tcp` of the root or below |
| `TlsaColumns.LaterRowEndsTlsa` | src/hns_topology/tlsa_evidence.py:28-34 | an older answer does not keep a removed record alive: a later row that does not count ends has_tlsa unless another vantage point counts |
| `TlsaColumns.RecordColumns` | src/hns_topology/tlsa_evidence.py:60-92 | the stored records and owners are those of such rows, each record once whatever its ttl |
| `TlsaColumns.ObservedAtIs` | src/hns_topology/tlsa_evidence.py:72-90 | observed_at is the last time of a newest row that holds a record |
| `TlsaColumns.CheckedAtIs` | src/hns_topology/tlsa_evidence.py:53-91 | checked_at is the last time of any TLSA row, superseded or not |
| `TlsaColumns.TlsaRowsAre` | src/hns_topology/db.py:417-486 | a name's evidence is its TLSA rows, newest first |
| `TlsaSummary.SummaryRecords` | src/hns_topology/tlsa_evidence.py:50-83 | the stored records are those of the latest observations and no other |
| `TlsaSummary.OrderDoesNotMatter` | src/hns_topology/tlsa_evidence.py:24-92 | observations in any order give the same summary up to ttls |
| `TlsaSummary.OneSummaryIff` | src/hns_topology/tlsa_evidence.py:60-71 | every order of the observations gives one summary, ttls included, if and only if no two latest ones give a record they share different ttls |
| `TlsaSummary.TtlIsObserved` | src/hns_topology/tlsa_evidence.py:60-71 | a stored ttl is that of a record that counts |
| `TlsaSummary.HttpsOwnerShape` | src/hns_topology/tlsa_evidence.py:147-153 | the owners that count are _443._tcp of the root or of a name below it (section 3 of RFC 6698) |
| `TlsaTables.RefreshIsRebuild` | src/hns_topology/db.py:407-486 | with plain names, refreshing touched names succeeds and leaves what a full rebuild would |
| `TlsaTables.RefreshIsRebuildIff` | src/hns_topology/db.py:407-414 | for a batch of known names, the refresh succeeds and equals the rebuild if and only if every inserted TLSA row is filed under a plain name |
| `TlsaTables.BatchKeepsCurrent` | src/hns_topology/db.py:407-414 | current summaries stay current exactly under such batches, which never fail |
| `TlsaTables.BatchesJoin` | src/hns_topology/db.py:407-486 | however plain evidence is split into batches, the summaries are those of one batch and of a rebuild |
| `TlsaTables.EvidenceTables.RefreshNames` | src/hns_topology/db.py:417-486 | the touched summaries are deleted and their groups' inserted under the names they carry; raises exactly if one is unknown, kept or carried twice |
| `TlsaTables.EvidenceTables.InsertDnsEvidenceBatch` | src/hns_topology/db.py:407-414 | stores all rows and refreshes their names or, if anything raises, nothing |
| `TlsaTables.EvidenceTables.RefreshAll` | src/hns_topology/db.py:417-486 | the full rebuild, whatever was stored; with plain names one summary a name that has TLSA rows |
| `NsHandoff.HnsRootIs` | src/hns_topology/ns_handoff.py:22-29 | the root of a nameserver is the label behind its last dot, empty only for an empty name |
| `NsHandoff.FirstUsableIs` | src/hns_topology/ns_handoff.py:86-118 | the ranked query keeps a name's first usable nameserver, and none only if none is usable |
| `NsHandoff.RoutedIff` | src/hns_topology/ns_handoff.py:62-142 | a name has a route exactly if the root of its first usable nameserver has an address |
| `NsHandoff.RouteRows` | src/hns_topology/ns_handoff.py:105-142 | at most one route a name, in the order the groups are streamed in |
| `RouteColumns.RouteIs` | src/hns_topology/ns_handoff.py:62-142 | a name's route is that of its first nameserver under a live root with addresses: the root's first synth4, else glue4, else synth6, else glue6 address |
| `RouteColumns.StreamOrder` | src/hns_topology/exporter.py:920-926 | the stream is ordered by nameserver, root, address, field and name |
| `NsHandoff.ExportGroups` | src/hns_topology/exporter.py:842-956 | from the tables to the exported groups |
| `Handoff.CanariesSpread` | src/hns_topology/exporter.py:990-1000 | more than three members give three ascending canaries: first, middle and last |
| `Handoff.WriteHandoffGroups` | src/hns_topology/exporter.py:842-956 | streaming a sorted query gives the groups by route |
| `Handoff.ExportByRoute` | src/hns_topology/exporter.py:868-900 | each list holds exactly the groups its rule gives for each route |
| `Handoff.OneFate` | src/hns_topology/exporter.py:887-900 | a route is in at most one of cohorts, singletons and canaries, and in none only if lone or unbounded without DS |
| `HandoffColumns.ListsByNumber` | src/hns_topology/exporter.py:878-900 | 2 to 250 names make a cohort, one with DS a singleton, more than 250 with DS canaries, and any with DS a preflight group |
| `HandoffColumns.GroupHas` | src/hns_topology/exporter.py:878-900 | a group counts and holds exactly its route's names, its DS names, or up to three of them |
| `Handoff.PreflightHas` | src/hns_topology/exporter.py:882-886 | a preflight group holds exactly the DS-backed names of its route |
| `Handoff.PreflightOfRow` | src/hns_topology/exporter.py:882-886 | every DS-backed routed name is in the preflight group of its route |
| `Handoff.PreflightOnce` | src/hns_topology/exporter.py:882-886 | and in no other |
| `HandoffImport.RefreshHandoffGroups` | src/hns_topology/live_handoffs.py:48-112 | the loops import the lists in order with their bounds |
| `HandoffImport.ImportKeepsGroups` | src/hns_topology/live_handoffs.py:147-184 | with default bounds and plain text no exported group is lost; routes, order, names, hashes and DS flags stay, nameserver lists are cleaned |
| `ImportColumns.ImportIff` | src/hns_topology/live_handoffs.py:147-184 | a group is accepted exactly if its parts are not blank, it counts its named members right and within the bounds, and a DS list holds DS members only; stored are its plain route and cleaned members in name order |
| `ImportColumns.CleanMemberIs` | src/hns_topology/live_handoffs.py:309-341 | a stored member has its name and nameservers trimmed and lowered, these sorted, once each and not blank, and its other columns as they were |
| `HandoffImport.UnchangedIff` | src/hns_topology/live_handoffs.py:309-341 | a member comes back as it was if and only if its nameservers are plain, sorted and listed once each |
| `HandoffImport.PreflightImported` | src/hns_topology/live_handoffs.py:62-93 | the preflight table holds exactly the DS-backed routed names, each with its own route and row, its nameservers cleaned twice |
| `HandoffImport.ImportedRoutesDistinct` | src/hns_topology/live_handoffs.py:113-126 | no route is imported twice |
| `HandoffImport.ExportAndImport` | src/hns_topology/live_handoffs.py:48-126 | export and import composed |
| `Auctions.RevealsAreSecondPrice` | scripts/hsd-nameonly-replay-jsonl.js:494-502 | reveals from an unowned name leave the highest bid, the second highest counting repeats, and the first highest bidder |
| `Auctions.PriceIgnoresOrder` | scripts/hsd-nameonly-replay-jsonl.js:494-502 | price and highest bid do not depend on the order |
| `Auctions.Replay.ApplyReveal` | scripts/hsd-nameonly-replay-jsonl.js:438-502 | updates the state of one name |
| `Auctions.ReplayReveals` | scripts/hsd-nameonly-replay-jsonl.js:438-502 | each name's state is the fold of its own reveals |
| `Auctions.RecentHistory` | scripts/hsd-nameonly-replay-jsonl.js:634-642 | the window holds the last blocks of the replay |
| `ProbeGate.AddressesOnlyResolved` | src/hns_topology/live_probe.py:182-299 | only a resolved probe reports addresses |
| `ProbeGate.ProbeAuthenticatedHttps` | src/hns_topology/live_probe.py:867-895 | the first tried address whose answer authenticates, else the first that answers, else a failure |
| `ProbeGate.ProbeHost` | src/hns_topology/live_probe.py:63-179 | composes the probes, the second DNS reading and the gate; any exception is offline |
| `ProbeGate.DetailedGate` | src/hns_topology/live_probe.py:102-117 | in detailed mode a DS-backed or resolver-admitted host is online only with validated DNSSEC |
| `ProbeGate.DetailedCategory` | src/hns_topology/live_probe.py:867-1008 | an unblocked host is https iff a tried address authenticates, http-only iff none does and one answers |
| `ProbeGate.QuickGateIff` | src/hns_topology/live_probe.py:89-117 | a quick probe publishes such a host unvalidated if and only if an address of the first reading answers http, or https with WebPKI, or the first to answer https matches a TLSA record of the second reading, and the second reading neither validates nor resolves |
| `ProbeGate.QuickGateFails` | src/hns_topology/live_probe.py:89-117 | a host for which that happens |
| `GateColumns.ReadingIs` | src/hns_topology/live_probe.py:182-385 | one reading: which of servers and resolver supplies the addresses, and when it is validated: all of a nonempty list of responses carry AD, or the parent's DS records validate the keys |
| `GateColumns.DetailedOnlineIff` | src/hns_topology/live_probe.py:63-151 | in detailed mode, over the network alone: a host is https or http-only exactly if an address tried proves or answers so and, with parent DS or preflight, its reading is validated |
| `GateColumns.QuickUntrustedIff` | src/hns_topology/live_probe.py:89-117 | a quick probe publishes such a host on an unvalidated second reading exactly if the first finds a web server and the second no address |
| `TextLaws.StripIs` | src/hns_topology/classifier.py:21-22 | stripping leaves what is between the first and the last character that is no white space |
| `TextLaws.LessIff` | src/hns_topology/site_assets/app.js:1109-1151 | text compares by code point at the first difference, a proper prefix first |
| `TextLaws.LowerLetters` | src/hns_topology/classifier.py:21-22 | lowering changes the capital letters and nothing else |
| `FnvLaws.Utf8Length` | src/hns_topology/exporter.py:1404-1409 | a character is one to four bytes, by its code point |
| `FnvLaws.UnitsAre` | src/hns_topology/site_assets/app.js:886-904 | a character is one code unit or a surrogate pair that stands for it |
| `NameserverQuery.SpacesAre` | src/hns_topology/site_assets/app.js:860-861 | what trimming takes off a query, by code point |
| `NameserverQuery.LabelCharsAre` | src/hns_topology/site_assets/app.js:870 | what a label is made of |

## Left out

- reclassification and evidence rows: not journaled by the code, so a rollback does not restore them and no theorem says it does.
- provider summaries recomputed after a block or a rollback.
- HsdRpcClient, block extraction and the classifier: the node's answer for a name is an input of the block.
- SQL text, migrations, indexes, pragmas and the JSON text of columns and pages: tables are maps and sets, pages are sequences by number.
- export hashing, file paths, percent-encoding, the hexadecimal shard names and HTML rendering.
- JavaScript compares strings by UTF-16 code units: equal to the code point order of the model for the ASCII names that queries are restricted to.
- row_count counts names while rows come from a join with resource_summary: the model has one summary row a name.
- the `hns_handoff` and `shared_delegation` tiers of the sweep: the first writes a route-specific hash into the one coverage row of a root and the second can pick a root twice, so whole-pass claims do not hold of them.
- promotion of online endpoints and discovered hosts during a sweep batch, and the bookkeeping rows of sweep runs.
- LiveDb.Database.RunSweepBatch: two probes of one root in a batch, which a tier named twice makes, share one result here; the thread pool is the arbitrary order in which results are recorded; storing a result is atomic as its transaction is.
- Limiter.AdaptiveAuthorityLimiter.Wait: times are real numbers, so rounding of floats is not modelled; the sleep after the lock is left out.
- DueQueue.SelectDueCandidates: candidates equal in every ordering column, which are the same host under two roots, are ordered by root where the query leaves the order open.
- topology sync bookkeeping, delegation groups and preflight scheduling.
- TlsaTables.EvidenceTables.RefreshNames: names are refreshed one after another where the code reads them in groups of 500, and a table without a name `""` is assumed; parsing of answer lines is an input.
- NsHandoff.RouteRows: the class and provider filters of the source query are applied to its input.
- JournalRuns.EveryRollbackRestores: the runs hold blocks that capture every row before they write it, as blocks of ordinary names do; for any other block JournalLimits.AnyBlockRestoresIff is the exact condition.
- HandoffImport.RefreshHandoffGroups: the shortcut for an unchanged file signature and the JSON text are left out.
- Auctions.Replay.ApplyReveal: expiry and the covenants other than REVEAL belong to a library that is not part of this model.
- ProbeGate.ProbeHost: sockets, TLS, DNSSEC and DANE checks are inputs by address; headers and certificate details are left out.
- ShardWriters.NameserverShardWriters.Write: the operating system may write a buffer earlier, which changes no order; a maximum of zero open files, on which the code raises, is excluded.
