# Verified models of Tokdash and codex-lb

Two systems live in this repository. Tokdash collects the token usage and the quotas of coding
tools on one machine; codex-lb balances load over Codex accounts and keeps a conversation archive
and a migrated database. This project models their stateful parts in Dafny and proves what they
are for.

| file | component |
|---|---|
| `JsonlTail.dfy` | newline-aligned tail reads of append-only JSONL files, line parsing, UTF-8 |
| `UsageIndex.dfy` | the incremental usage index (`sync_files`) against "parse every file from scratch" |
| `ConcurrentTail.dfy` | concurrent syncs of one growing file that all take the tail path |
| `UsageAggregates.dfy` | SQL-grouped totals against the per-entry fold |
| `QuotaEpochs.dfy` | clustering of jittered reset times, torn-read filtering |
| `QuotaConsumption.dfy` | consumption by running highs or adjacent deltas, bucketed by period |
| `ResponseCache.dfy` | the response cache: single-flight, stale-while-revalidate, compute cap, epochs |
| `ArchiveQueue.dfy` | the archive writer queue: byte budget, bounded queue, batching writer |
| `MigrationChain.dfy` | the checker of the Alembic revision chain |
| `RevisionGraph.dfy` | the Alembic revision graph with its branches and merges |
| `MigrationUpgrade.dfy` | `run_upgrade` by several replicas with crashes |
| `SessionMerge.dfy` | the live and the stored route from session files to sessions |
| `ProviderRetag.dfy` | the session retagger |
| `Sums.dfy`, `Options.dfy` | sums over finite maps and optional values, shared by the others |

Where the program mutates tables, dictionaries or lists, the model does too: `UsageEntryStore` and
`CodexHome` are classes, and the loops of the chain checker, the quota derivation, the aggregates
and the session loaders are methods with invariants. Each is proved against a specification that
does not mention how the program works. The four protocols (response cache, archive queue,
migration upgrade, concurrent tail appends) are state machines whose steps are the guarded sections
of the program, and their theorems quantify over every run.

Results that a reader of the code might not expect:

* Cutting a file at a recorded offset is lossless for every line parser exactly when the part before
  the cut ends in a newline (`CutIsLosslessIff`). The full-parse branch of `sync_files` records the
  file size as its offset, so the rows of a file that grows after its first sync are, for every
  parser, those of a parse from scratch exactly when that first sync found it ending in a newline
  (`FirstSeenMidLineIff`).
* The "Unreachable revisions" error of the chain checker fires exactly when some `down_revision` is
  dangling, which is reported anyway, and the list it prints is then empty (`VisitedCount`).
* The torn-read filter undoes isolated spikes, but a spike whose own reset time lies between two
  windows joins them before it is dropped, and the consumption changes
  (`BridgingSpikeChangesConsumption`). Filtering leaves the consumption alone, for all percentages of
  a climbing series and of its spikes, exactly when the spikes' reset times chain no two reset times
  of the series that were not chained before (`SpikesHarmlessIff`).
* The SQL route and the per-entry fold show the same table exactly when no SQL group mixes empty with
  non-empty entries and no entry with tokens lacks a cost that the price list would supply
  (`RoutesAgreeIff`, with `MixedGroupDiffers` and `UnpricedEntryDiffers` at concrete entries); the
  token columns always agree.
* On PostgreSQL the bootstrap creates the version table before it stamps it. A crash in between makes
  later replicas run the graph from its roots, repeating what the legacy history had applied
  (`CrashBeforeStampReruns`), and for every legacy database such a run exists (`CrashRerunExists`);
  without such a crash every migration runs once (`LegacyRunOnce`), and of the applied legacy
  migrations exactly those run again that the stamped revision does not descend from
  (`LegacyRerunIff`).
* A sync that repeats the previous call finds nothing to do exactly when every listed file ends in a
  newline: the stored size of another file is its safe offset, never its size (`SyncTwice`).
* The chain checker demands one line of revisions, but the migration directory has since grown merge
  revisions with several parents. The upgrade model therefore works on a graph, and its log is a
  topologically ordered listing of what separates the applied revisions from those applied before.
* Rewriting a record twice differs from rewriting it once exactly when both its places held the source
  provider (`RetagTwiceIff`; `RetagLinesTwiceIff` for files), yet a second retag of the whole home is a
  no-op (`SecondRunIsNoOp`).
* The two session routes hold the same turns exactly when the session has two files or more or its one
  file repeats no identity (`RoutesAgree`). They list them identically exactly when, besides, from the
  third file on no earlier turn meets a new one at the same time such that its rank in the session and
  its number in its own file disagree about the order (`RoutesIdenticalIff`, `TiesMayDiffer`); two
  files always agree.

## Model

| member | source | states |
|---|---|---|
| `JsonlTail.CompleteTail` | Tokdash/src/tokdash/compute.py:98-108 | the text read is the longest newline-terminated prefix of what lies behind the start offset, and the safe offset is exactly behind it |
| `JsonlTail.ParseConcat` | Tokdash/src/tokdash/compute.py:111-122 | parsing line by line distributes over concatenation at a newline |
| `JsonlTail.ParseOneLine` | Tokdash/src/tokdash/compute.py:111-122 | the entries of a single line are what the parser makes of that line |
| `JsonlTail.CutIsLosslessIff` | Tokdash/src/tokdash/usage_store.py:767-769 | a cut loses nothing, for all line parsers, if and only if the part before it is complete or nothing follows |
| `JsonlTail.CompletePrefixGrows` | Tokdash/src/tokdash/compute.py:98-108 | as a file grows, its longest complete prefix only grows |
| `JsonlTail.ChunksPartition` | Tokdash/src/tokdash/compute.py:98-108 | over any growth history successive tail reads concatenate to the longest complete prefix of the last snapshot: no byte skipped, none read twice |
| `JsonlTail.Utf8Cut` | Tokdash/src/tokdash/compute.py:104-108 | a valid UTF-8 file (section 4 of RFC 3629) may be cut behind any newline without splitting a character |
| `JsonlTail.ChunksAreUtf8` | Tokdash/src/tokdash/compute.py:98-108 | every chunk decodes as UTF-8 if the file as finally written is valid, even where a snapshot caught it in the middle of a character |
| `UsageIndex.ScratchTail` | Tokdash/src/tokdash/usage_store.py:759-763 | upserting the entries of a tail onto the rows of a complete prefix gives the rows of a from-scratch parse of the whole |
| `UsageIndex.UpsertRows` | Tokdash/src/tokdash/usage_store.py:799-830 | upserting the entries of one file changes that file's rows as a keyed fold says and the rows of no other file |
| `UsageIndex.LastEntryCounts` | Tokdash/src/tokdash/usage_store.py:799-830 | of several entries with one key the last one counts |
| `UsageIndex.UnchangedIsCurrent` | Tokdash/src/tokdash/usage_store.py:735-740 | a file whose stored signature matches is already indexed as a from-scratch parse would index it |
| `UsageIndex.TailParsePrepared` | Tokdash/src/tokdash/usage_store.py:751-764 | the tail branch yields entries that complete the stored rows to a from-scratch parse |
| `UsageIndex.FullParsePrepared` | Tokdash/src/tokdash/usage_store.py:767-769 | the full branch yields the entries of a from-scratch parse, provided the file ends in a newline |
| `UsageIndex.ParsedIsPrepared` | Tokdash/src/tokdash/usage_store.py:745-769 | whichever branch is taken, committing the result leaves the file's rows equal to a from-scratch parse of its complete lines |
| `UsageIndex.StaleIsWorkList` | Tokdash/src/tokdash/usage_store.py:735-740 | every listed file is on the work list or already current; the list repeats no path |
| `UsageIndex.StaleIffNeedsWork` | Tokdash/src/tokdash/usage_store.py:735-740 | a listed file is reparsed exactly when it is new, was missing, or differs in modification time, size or version from what is known |
| `UsageIndex.NothingToDoIff` | Tokdash/src/tokdash/usage_store.py:729-743 | the work lists are both empty exactly when no listed file needs work and no tracked file has to be removed |
| `UsageIndex.RepeatNeedsWorkIff` | Tokdash/src/tokdash/usage_store.py:742-743 | after a sync the same call finds work again exactly when some listed file does not end in a newline |
| `UsageIndex.WorkListIsSync` | Tokdash/src/tokdash/usage_store.py:729-743 | processing the removed and changed paths alone reaches the state that the specification demands for all files |
| `UsageIndex.CommitsMirror` | Tokdash/src/tokdash/usage_store.py:792-858 | the upsert loop keeps the tables a mirror of the from-scratch parses, file after file |
| `UsageIndex.TransactionMirrors` | Tokdash/src/tokdash/usage_store.py:771-858 | removals followed by upserts mirror the new knowledge in the rows and in the file states |
| `UsageIndex.RecountedIsCounted` | Tokdash/src/tokdash/usage_store.py:860-893 | refreshing the counters of one source makes every stored counter, of every source, the true row count |
| `UsageIndex.UsageEntryStore.Upsert` | Tokdash/src/tokdash/usage_store.py:799-830 | entry by entry, later entries replace earlier ones of the same source and key |
| `UsageIndex.UsageEntryStore.RemovePath` | Tokdash/src/tokdash/usage_store.py:774-788 | durable: only the missing flag is set; strict: the file's rows and its state are deleted, nothing else |
| `UsageIndex.UsageEntryStore.RemovePaths` | Tokdash/src/tokdash/usage_store.py:774-788 | the whole removal loop, in whatever order the paths come |
| `UsageIndex.UsageEntryStore.RemovedPaths` | Tokdash/src/tokdash/usage_store.py:729-734 | exactly the tracked, unlisted files of the source that are not already flagged (or all of them in strict mode) |
| `UsageIndex.UsageEntryStore.ChangedFiles` | Tokdash/src/tokdash/usage_store.py:735-740 | the listed files without a current signature or flagged missing, in order |
| `UsageIndex.UsageEntryStore.ParseChanged` | Tokdash/src/tokdash/usage_store.py:745-769 | tail or full parse, as the stored signature allows |
| `UsageIndex.UsageEntryStore.ParseAll` | Tokdash/src/tokdash/usage_store.py:745-769 | every changed file is parsed against the state read at the start, before anything is written |
| `UsageIndex.UsageEntryStore.CommitFile` | Tokdash/src/tokdash/usage_store.py:792-858 | delete unless appending, upsert, and store the state with the listed modification time and the safe offset as size, so that the file is tracked exactly as it was listed |
| `UsageIndex.UsageEntryStore.CommitAll` | Tokdash/src/tokdash/usage_store.py:791-858 | the commit loop over all parsed files |
| `UsageIndex.UsageEntryStore.WriteTables` | Tokdash/src/tokdash/usage_store.py:774-858 | both commit loops together |
| `UsageIndex.UsageEntryStore.Recount` | Tokdash/src/tokdash/usage_store.py:860-893 | all counters of all sources are true afterwards if they were before this source was touched; the file states still mirror the same knowledge and other sources keep their state |
| `UsageIndex.UsageEntryStore.Transaction` | Tokdash/src/tokdash/usage_store.py:771-895 | the write transaction takes a valid index to a valid index of the new knowledge |
| `UsageIndex.UsageEntryStore.SyncFiles` | Tokdash/src/tokdash/usage_store.py:674-895 | whatever the mix of signatures, tails and flags, the rows of every known file end up equal to a from-scratch parse and all counters are true; it returns true exactly when a listed file is new, missing or changed in modification time, size or version, or a tracked one is no longer listed, and otherwise nothing changes |
| `UsageIndex.UsageEntryStore.SyncTwice` | Tokdash/src/tokdash/usage_store.py:674-895 | the same call twice: the second returns true exactly when some listed file does not end in a newline |
| `UsageIndex.UsageEntryStore.Replay` | Tokdash/src/tokdash/usage_store.py:674-895 | the same after any number of serial syncs of any sources from an empty database |
| `UsageIndex.DurableKeepsLastSeen` | Tokdash/src/tokdash/usage_store.py:774-779 | durable runs know every file ever listed exactly as its last listing saw it, flagged missing if and only if a later sync of its source did not list it |
| `UsageIndex.StrictKnowsOnlyListed` | Tokdash/src/tokdash/usage_store.py:780-788 | strict runs know exactly the files that the last sync of their source listed, each as that sync saw it |
| `UsageIndex.FirstSeenMidLineIff` | Tokdash/src/tokdash/usage_store.py:745-769 | after a full parse and a tail sync the rows are a from-scratch parse, for every parser, if and only if the first content ended in a newline |
| `ConcurrentTail.CommitCovers` | Tokdash/src/tokdash/usage_store.py:792-830 | a commit covers the prefix up to the end of what was read, even if it was read from an older offset |
| `ConcurrentTail.CommitWithin` | Tokdash/src/tokdash/usage_store.py:792-830 | a commit adds no row that is not an entry of the file |
| `ConcurrentTail.StepKeeps` | Tokdash/src/tokdash/usage_store.py:713-858 | every step of any worker, and growth of the file, keeps the rows complete up to the stored offset and up to every offset that a worker has in hand |
| `ConcurrentTail.TailAppendsStayComplete` | Tokdash/src/tokdash/usage_store.py:713-858 | under every interleaving of state reads, tail reads and commits the rows hold every entry up to the stored offset and nothing outside the file, even when the offset moves back |
| `ConcurrentTail.OneSyncRecovers` | Tokdash/src/tokdash/usage_store.py:713-858 | one undisturbed sync, also after the offset has moved back, brings offset and rows to the end of the complete lines |
| `UsageAggregates.ParseEntriesJson` | Tokdash/src/tokdash/compute.py:360-470 | the loop computes the per-entry fold whose value `ParseTableIs` states as sums |
| `UsageAggregates.ParseTableIs` | Tokdash/src/tokdash/compute.py:360-470 | a key's row is the sum over its non-empty entries, and exists exactly when there is one |
| `UsageAggregates.AggregateEntries` | Tokdash/src/tokdash/usage_store.py:972-1025 | one row per SQL group that has tokens |
| `UsageAggregates.MergeParsedUsage` | Tokdash/src/tokdash/compute.py:187-258 | the loop computes the merged table whose value `MergeTableIs` states as sums |
| `UsageAggregates.MergeTableIs` | Tokdash/src/tokdash/compute.py:187-258 | a key's merged row is the sum of its rows in all parts |
| `UsageAggregates.EmittedIsGrouped` | Tokdash/src/tokdash/usage_store.py:947-964 | grouping by source, provider and model and then summing rows is summing entries |
| `UsageAggregates.SqlRoute` | Tokdash/src/tokdash/usage_store.py:938-1025 | the SQL rows of a key sum to the raw columns of the entries whose group has tokens |
| `UsageAggregates.RowSumPermutes` | Tokdash/src/tokdash/usage_store.py:963-964 | the order in which SQL returns the groups does not matter |
| `UsageAggregates.TokensAgree` | Tokdash/src/tokdash/compute.py:187-258 | for all non-negative rows both routes show the same keys with the same token columns |
| `UsageAggregates.FoldRowColumns` | Tokdash/src/tokdash/compute.py:360-470 | column by column: a row of the fold sums input plus cache writes, output, cache reads, all five token fields, costs (recorded or looked up) and messages of the non-empty entries of its source and displayed name |
| `UsageAggregates.CombinedRowColumns` | Tokdash/src/tokdash/usage_store.py:938-1025 | column by column for the SQL route merged with the live entries: the same token columns; recorded costs and messages of every stored entry whose source, provider and model are in use |
| `UsageAggregates.RoutesAgreeIff` | Tokdash/src/tokdash/compute.py:360-470 | cost and messages agree as well if and only if no group mixes empty and non-empty entries and every priced entry has its cost recorded |
| `UsageAggregates.MixedGroupDiffers` | Tokdash/src/tokdash/usage_store.py:947-964 | a concrete mixed group on which the two routes differ |
| `UsageAggregates.UnpricedEntryDiffers` | Tokdash/src/tokdash/compute.py:398-402 | a concrete entry without a cost on which the two routes differ |
| `QuotaEpochs.SortedResets` | Tokdash/src/tokdash/usage_store.py:1511-1511 | the observed reset times, each once, ascending |
| `QuotaEpochs.ResetEpochs` | Tokdash/src/tokdash/usage_store.py:1511-1517 | two reset times get the same epoch exactly when a chain of observed times with gaps of at most 5 seconds joins them, and the epoch is the least member of the cluster |
| `QuotaEpochs.JoinedIffSameAnchor` | Tokdash/src/tokdash/usage_store.py:1514-1517 | in the sorted list, being joined by a chain is having the same anchor |
| `QuotaEpochs.EpochMapUnique` | Tokdash/src/tokdash/usage_store.py:1511-1517 | the specification of the epoch dictionary admits only one dictionary |
| `QuotaEpochs.DropTornReads` | Tokdash/src/tokdash/usage_store.py:208-242 | the `keep` array selects the readings that `KeptIsSubsequence` describes, in order |
| `QuotaEpochs.KeptIsSubsequence` | Tokdash/src/tokdash/usage_store.py:225-242 | filtering yields a subsequence: a reading is dropped exactly when the next one of its epoch is at least 40 points lower and it opens its run or stands at least 40 points above the previous one of its epoch |
| `QuotaEpochs.NeverTwoNeighbours` | Tokdash/src/tokdash/usage_store.py:225-242 | two neighbouring readings of one epoch are never both dropped |
| `QuotaEpochs.NoEpochDisappears` | Tokdash/src/tokdash/usage_store.py:225-242 | the last reading of every same-epoch run survives, so no epoch disappears |
| `QuotaEpochs.SpikesAreUndone` | Tokdash/src/tokdash/usage_store.py:208-242 | isolated leading or interior spikes of at least 40 points inserted into a series that climbs within its runs are removed, giving the series back |
| `QuotaEpochs.SpikesLeaveEpochs` | Tokdash/src/tokdash/usage_store.py:1511-1522 | spikes stamped with reset times of the series leave the clustering as it was |
| `QuotaConsumption.AdjacentDelta` | Tokdash/src/tokdash/usage_store.py:192-205 | a rise clear of an earlier high counts in full, a recovery counts by its excess over the high, both only beyond the noise band, and nothing else counts |
| `QuotaConsumption.HighAndFirstMean` | Tokdash/src/tokdash/usage_store.py:1540-1549 | the running high is the true maximum of its epoch and the baseline its true first reading |
| `QuotaConsumption.ContributionIs` | Tokdash/src/tokdash/usage_store.py:1528-1549 | a reading adds its adjusted rise above the previous reading of its epoch in a rolling window or without a reset time, and its rise above the highest one in a fixed window |
| `QuotaConsumption.FirstAddsNothing` | Tokdash/src/tokdash/usage_store.py:1540-1545 | the first reading of an epoch is its baseline and adds nothing |
| `QuotaConsumption.WeeklyIff` | Tokdash/src/tokdash/usage_store.py:172-190 | rolling are exactly the Codex buckets `7d` and those ending in `_7d` |
| `QuotaConsumption.RollingCountsAgain` | Tokdash/src/tokdash/usage_store.py:172-205 | readings of 50, 10 and 30 percent in one epoch consume 20 points in a rolling window and none in a fixed one |
| `QuotaConsumption.Observe` | Tokdash/src/tokdash/usage_store.py:1528-1549 | one round of the loop keeps both epoch tables and yields the reading's contribution |
| `QuotaConsumption.Accumulate` | Tokdash/src/tokdash/usage_store.py:1525-1549 | every bucket holds the contributions of its period, and the buckets sum to the total |
| `QuotaConsumption.FixedTotalIsClimbs` | Tokdash/src/tokdash/usage_store.py:1525-1549 | however epochs interleave, a fixed window's total is the sum over epochs of highest minus first reading (readings without a reset time add their adjacent deltas) |
| `QuotaConsumption.DayIsItsHours` | Tokdash/src/tokdash/usage_store.py:1536-1549 | a day bucket is the sum of its 24 hour buckets |
| `QuotaConsumption.Flush` | Tokdash/src/tokdash/usage_store.py:1486-1552 | clustering, filtering and accumulation together: points are the filtered series and the buckets total the climbs of its epochs |
| `QuotaConsumption.SpikesKeepConsumption` | Tokdash/src/tokdash/usage_store.py:1511-1549 | isolated spikes leave every bucket as it was if they join no windows of the series |
| `QuotaConsumption.MoreTimesJoin` | Tokdash/src/tokdash/usage_store.py:1511-1517 | additional reset times can only join windows, never split them |
| `QuotaConsumption.PartitionIffApart` | Tokdash/src/tokdash/usage_store.py:1511-1517 | two clusterings keep the windows of a series the same exactly when the larger set of reset times chains no two of its times anew |
| `QuotaConsumption.BucketsAgreeIff` | Tokdash/src/tokdash/usage_store.py:1525-1549 | a coarser clustering fills the same buckets, for all percentages, if and only if it joins no windows |
| `QuotaConsumption.JoinedIsHarmful` | Tokdash/src/tokdash/usage_store.py:1511-1549 | wherever spikes join two windows, some climbing series and spikes with these times show a different consumption |
| `QuotaConsumption.SpikesHarmlessIff` | Tokdash/src/tokdash/usage_store.py:1511-1549 | filtering a spiked series leaves every bucket alone, for all percentages of climbing series and spikes, if and only if the spikes' reset times chain no two reset times of the series anew |
| `QuotaConsumption.BridgingSpikeChangesConsumption` | Tokdash/src/tokdash/usage_store.py:1511-1522 | a concrete series and spike for which the filter restores the series but the consumption changes from 0 to 10 points |
| `ResponseCache.StepKeeps` | Tokdash/src/tokdash/api.py:443-544 | the invariant of cache, locks, permits and requests is kept by every step of every request and by clears |
| `ResponseCache.CacheIsCurrent` | Tokdash/src/tokdash/api.py:457-482 | in every reachable state each cached value was fetched for its key by a fetch begun in the current epoch |
| `ResponseCache.FillIff` | Tokdash/src/tokdash/api.py:457-467 | between noting the epoch and storing, in any interleaving: the cache then holds the fetched payload under the request's key, with the time of storing, exactly when no clear came in between; every other key is as it was |
| `ResponseCache.FilledThenHit` | Tokdash/src/tokdash/api.py:505-526 | while nothing clears or replaces a stored value, every unforced request that looks within the TTL, before or under the lock, gets that value as a hit with its true age |
| `ResponseCache.AnswersWhatWasFetched` | Tokdash/src/tokdash/api.py:537-542 | a request whose fetch returned answers with what the fetch delivered, as recomputed, whatever else happens |
| `ResponseCache.LeavesAsItsFetch` | Tokdash/src/tokdash/api.py:537-542 | in every run a request leaves with a recomputed answer exactly when its own fetch returned, and with an exception of the fetch exactly when that raised |
| `ResponseCache.RefusedIff` | Tokdash/src/tokdash/api.py:511-536 | a request is refused exactly when its lock is taken or no permit is free, and then answers with what it last read and the age of that, or with backpressure if it read nothing |
| `ResponseCache.UndisturbedRequestFills` | Tokdash/src/tokdash/api.py:484-544 | left alone with its lock and a permit free, a request that finds nothing to serve fetches, fills the cache and gives everything back |
| `ResponseCache.NothingFromBeforeTheClear` | Tokdash/src/tokdash/api.py:457-544 | a request that starts after a clear never returns, by any path, a value whose fetch began before that clear |
| `ResponseCache.AnswersAreTruthful` | Tokdash/src/tokdash/api.py:505-544 | answers belong to the request's key; hit means within the TTL and unforced, stale the opposite, recomputed age zero |
| `ResponseCache.SingleFlight` | Tokdash/src/tokdash/api.py:443-449 | at most one request at a time is inside a key's locked section |
| `ResponseCache.PermitsConserved` | Tokdash/src/tokdash/api.py:528-540 | free permits plus running fetches equal the cap, and all permits and locks are back when all requests have left |
| `ResponseCache.ExitsCleanly` | Tokdash/src/tokdash/api.py:511-544 | a finished request, however it left, holds no lock and no permit, and backpressure means that its latest look at the cache found nothing |
| `ResponseCache.NeverBlocks` | Tokdash/src/tokdash/api.py:505-544 | an unfinished request can always take its next step and each of its own steps brings it nearer to its exit |
| `ArchiveQueue.AccountingStep` | codex-lb/app/core/conversation_archive.py:178-340 | every step of any producer or the writer keeps the byte and task accounting |
| `ArchiveQueue.ByteBudget` | codex-lb/app/core/conversation_archive.py:312-340 | the counter equals the summed sizes of reserved and unreleased records, and exceeds the budget only while one oversize record alone is outstanding |
| `ArchiveQueue.ClampNeverTruncates` | codex-lb/app/core/conversation_archive.py:336-340 | the `max(0, ...)` of the release never takes effect and the unfinished count is always what is queued or in hand |
| `ArchiveQueue.FirstInFirstOut` | codex-lb/app/core/conversation_archive.py:228-254 | each path's records reach the writer and the file in enqueue order; when `join` returns everything put has been processed, and is in its file unless a group of that path was dropped |
| `ArchiveQueue.FilesAreWhatWasWritten` | codex-lb/app/core/conversation_archive.py:261-288 | along every run a file grows by exactly what the appends wrote to it, and a path is lost exactly when some append had a record of it in hand and did not write it |
| `ArchiveQueue.FlushedIsWritten` | codex-lb/app/core/conversation_archive.py:174-288 | when `join` returns, a file holds exactly the records put for it, in order, unless an append of the run dropped some; always, if every append wrote what it had in hand |
| `ArchiveQueue.RecordIsPutOrTurnedAway` | codex-lb/app/core/conversation_archive.py:178-210 | a producer that has finished put its record exactly once exactly when it was not turned away, by disk pressure on arrival or because no writer could be started |
| `ArchiveQueue.RecordIsKept` | codex-lb/app/core/conversation_archive.py:178-210 | the record it puts is the one it arrived with |
| `ArchiveQueue.DrainedIsPut` | codex-lb/app/core/conversation_archive.py:174-254 | once the system has drained by itself every record on its way has been put and processed, and is in its file if the appends wrote what they had in hand |
| `ArchiveQueue.ReservesIff` | codex-lb/app/core/conversation_archive.py:312-333 | a reservation succeeds at once exactly within the budget or for an oversize record when nothing is reserved; otherwise only the producer waits |
| `ArchiveQueue.PutsIff` | codex-lb/app/core/conversation_archive.py:195-204 | a put succeeds at once exactly when the queue has room, and the record then stands last |
| `ArchiveQueue.BatchEndsIff` | codex-lb/app/core/conversation_archive.py:237-247 | the writer goes on gathering exactly while it finds records, and remembers a stop mark |
| `ArchiveQueue.StopsAreConserved` | codex-lb/app/core/conversation_archive.py:228-254 | every stop request stops the writer once: it is still queued, being carried out, or the writer has been restarted since |
| `ArchiveQueue.AppendFile` | codex-lb/app/core/conversation_archive.py:261-288 | appending or dropping a group keeps a file an ordered part of what was processed, all of it while nothing was dropped |
| `ArchiveQueue.GroupByPath` | codex-lb/app/core/conversation_archive.py:267-269 | grouping keeps each path's records in batch order and invents no path |
| `ArchiveQueue.HelpForBlocked` | codex-lb/app/core/conversation_archive.py:312-333 | while a producer is blocked on bytes or on the queue and the writer lives, a step of somebody else is enabled |
| `ArchiveQueue.InternalStepExists` | codex-lb/app/core/conversation_archive.py:178-254 | a running system that is not quiescent can always move without new input |
| `ArchiveQueue.InternalStepWorks` | codex-lb/app/core/conversation_archive.py:178-254 | every such move uses up a bounded amount of work |
| `ArchiveQueue.InternalRunsEnd` | codex-lb/app/core/conversation_archive.py:178-254 | so no run without new input is longer than the work there was |
| `ArchiveQueue.ReachableDrains` | codex-lb/app/core/conversation_archive.py:174-254 | from every reachable state with a running writer the archive drains: all producers done, queue empty, all bytes released |
| `MigrationChain.ReadRevisions` | codex-lb/scripts/rewrite_alembic_revisions.py:58-88 | the dictionary keeps the first file of each revision, the errors are exactly what is wrong with the files one by one, and there is none exactly when the files are parsed, distinct and correctly named |
| `MigrationChain.ReadFile` | codex-lb/scripts/rewrite_alembic_revisions.py:59-88 | for one file: it enters the dictionary exactly when parsed and new, has no error exactly when it is also correctly named, and its error is what is wrong with it |
| `MigrationChain.CheckTargets` | codex-lb/scripts/rewrite_alembic_revisions.py:90-92 | an error for exactly the links whose target is not a known revision |
| `MigrationChain.CountEnds` | codex-lb/scripts/rewrite_alembic_revisions.py:94-100 | the true numbers of roots and heads |
| `MigrationChain.CheckEnds` | codex-lb/scripts/rewrite_alembic_revisions.py:95-100 | an error with the true count exactly when there is not one root, and exactly when there is not one head |
| `MigrationChain.Walk` | codex-lb/scripts/rewrite_alembic_revisions.py:104-114 | the inner loop terminates, reports a cycle exactly when following `down_revision` never stops, at a revision on that cycle, and at its own start if that is on one |
| `MigrationChain.WalkAll` | codex-lb/scripts/rewrite_alembic_revisions.py:102-115 | reports exactly the revisions that lie on a cycle; what was visited is every revision and every target |
| `MigrationChain.CycleEntry` | codex-lb/scripts/rewrite_alembic_revisions.py:104-114 | a walk that starts on a cycle meets its start again first |
| `MigrationChain.VisitedCount` | codex-lb/scripts/rewrite_alembic_revisions.py:117-119 | the reachability test succeeds exactly when no target is dangling |
| `MigrationChain.CheckVisited` | codex-lb/scripts/rewrite_alembic_revisions.py:117-119 | it reports exactly the dangling case |
| `MigrationChain.SoundIsOnePath` | codex-lb/scripts/rewrite_alembic_revisions.py:90-115 | the hard direction: one root, one head, no dangling target and no cycle force a single path through every revision |
| `MigrationChain.ChainIsSound` | codex-lb/scripts/rewrite_alembic_revisions.py:90-115 | a linear chain passes every check |
| `MigrationChain.SoundIffChain` | codex-lb/scripts/rewrite_alembic_revisions.py:52-121 | the local checks together mean "one linear chain" |
| `MigrationChain.ValidateChain` | codex-lb/scripts/rewrite_alembic_revisions.py:52-121 | terminates on every finite set of files, returns no error if and only if they form one non-empty linear chain covering every file, and reports exactly the defects of the directory |
| `MigrationUpgrade.ContiguousPrefixCount` | codex-lb/app/db/migrate.py:216-223 | the loop counts the leading applied migrations |
| `MigrationUpgrade.LegacyPrefix` | codex-lb/app/db/migrate.py:216-223 | all before the count are applied, the one at it is not |
| `MigrationUpgrade.LegacyHeadIs` | codex-lb/app/db/migrate.py:291-294 | with the first `n` migrations applied and the next one not, the revision to stamp is that of the `n`-th, and there is none for `n` = 0 |
| `MigrationUpgrade.HistoryEndIsHead` | codex-lb/app/db/migrate.py:235-294 | a revision is stamped exactly when the contiguous history ends with its migration |
| `RevisionGraph.AntichainIsMaximal` | codex-lb/app/db/migrate.py:189-204 | a table without related rows shows exactly the maximal revisions of the applied ones |
| `RevisionGraph.SameDownSameVersion` | codex-lb/app/db/migrate.py:189-204 | so what has been applied determines the table |
| `RevisionGraph.AdvancedDown` | codex-lb/app/db/migrate.py:716-716 | applying a revision whose parents are applied adds that revision and nothing else to the applied ones, through branches and merges |
| `RevisionGraph.AdvancedAntichain` | codex-lb/app/db/migrate.py:716-716 | and leaves a table without related rows |
| `RevisionGraph.SomethingIsNext` | codex-lb/app/db/migrate.py:716-716 | while anything known is pending, some pending revision has all its parents applied |
| `MigrationUpgrade.RemapOnGraph` | codex-lb/app/db/migrate.py:424-461 | a table that holds only known revisions is left alone by the remap |
| `MigrationUpgrade.RemapIs` | codex-lb/app/db/migrate.py:450-457 | exactly what the remap leaves: current ids, the new ids of old ones, without the repair ancestor if the old branch id stood beside a descendant of the branch |
| `MigrationUpgrade.RemapIdempotent` | codex-lb/app/db/migrate.py:424-474 | remapping again changes nothing more |
| `MigrationUpgrade.RemapRepairsBranch` | codex-lb/app/db/migrate.py:452-457 | the old branch id beside a descendant becomes the descendant alone; under new ids both rows stay |
| `MigrationUpgrade.RepairMakesAntichain` | codex-lb/app/db/migrate.py:452-457 | the repair is what makes such a table acceptable: without it a revision would stand beside its own ancestor |
| `MigrationUpgrade.StepKeeps` | codex-lb/app/db/migrate.py:673-729 | the invariant of lock, log, version table and replicas is kept by every step, crash, time-out and retry |
| `MigrationUpgrade.WritesAreExclusive` | codex-lb/app/db/migration_lock.py:36-61 | only the lock holder writes and there is only one, so schema writes never interleave |
| `MigrationUpgrade.EachMigrationOnce` | codex-lb/app/db/migrate.py:650-729 | in any run the log lists, without repetition and parents first, exactly what separates the applied revisions from those applied before the first migration, and the table shows the maximal applied revisions |
| `MigrationUpgrade.ReturnedSawHead` | codex-lb/app/db/migrate.py:673-729 | a replica that returned normally saw its head, and nothing up to it is ever undone |
| `MigrationUpgrade.UnknownIsNotWritten` | codex-lb/app/db/migrate.py:681-683 | a write happens only to a database whose revisions the writer's build knows |
| `MigrationUpgrade.UnknownFreezes` | codex-lb/app/db/migrate.py:681-683 | a revision that no replica knows freezes the database for good |
| `MigrationUpgrade.PendingRunOnce` | codex-lb/app/db/migrate.py:650-729 | from any version table, counting old ids as what they map to, exactly what separates the applied revisions from those the table stood for is executed, each once |
| `MigrationUpgrade.ReturnedRanPending` | codex-lb/app/db/migrate.py:650-729 | once a replica has returned, everything pending up to its head has run, each revision once and after its parents |
| `MigrationUpgrade.FreshRunOnce` | codex-lb/app/db/migrate.py:696-716 | however many replicas race to set up a database without a version table, it is untouched or has run the graph from its roots, each revision once |
| `MigrationUpgrade.ReturnedRanFresh` | codex-lb/app/db/migrate.py:696-716 | a replica that returned from such a set-up has seen everything up to its head run exactly once |
| `MigrationUpgrade.LegacyRunOnce` | codex-lb/app/db/migrate.py:235-301 | if no replica crashes between creating and stamping the table, a legacy database is stamped at the end of its contiguous history and only what that does not include runs, each once; only a replica with the bootstrap disabled can start it at the roots instead |
| `MigrationUpgrade.LegacyStampsLast` | codex-lb/app/db/migrate.py:291-294 | with the first `n` legacy migrations applied and every replica bootstrapping, no run without such a crash executes a legacy revision that the `n`-th descends from, and until something is executed the table holds the revision of the `n`-th |
| `MigrationUpgrade.LegacyRerunIff` | codex-lb/app/db/migrate.py:291-294 | once a replica has returned, the applied legacy migrations that were executed again are exactly those that the stamped revision does not descend from; none if they lie on one line |
| `MigrationUpgrade.CrashBeforeStampReruns` | codex-lb/app/db/migrate.py:293-294 | with such a crash, whoever returns has executed the graph from its roots, everything the legacy history had applied included |
| `MigrationUpgrade.CrashRerunExists` | codex-lb/app/db/migrate.py:293-294 | for every legacy database on such a backend there is a run in which one replica crashes there and another returns, having executed again all that the legacy history had applied |
| `MigrationUpgrade.SoloReplicaReachesHead` | codex-lb/app/db/migrate.py:650-729 | a replica that finds the lock free and a table that is acceptable once stamped or remapped can get through, having executed exactly what was pending |
| `MigrationUpgrade.SoloReplicaFinishesHistory` | codex-lb/app/db/migrate.py:650-729 | left alone with a legacy database, a replica executes exactly what the revision of the last contiguous legacy migration does not include |
| `MigrationUpgrade.ExampleRuns` | codex-lb/app/db/migrate.py:650-729 | over a concrete graph with a branch and a merge a replica sets up a new database: all four revisions run once, parents first, so the assumptions of the theorems can be met |
| `MigrationUpgrade.ExampleStamps` | codex-lb/app/db/migrate.py:291-294 | over the same graph with two legacy migrations, a concrete run that stamps the second and executes only the two revisions behind it |
| `MigrationUpgrade.ExampleReruns` | codex-lb/app/db/migrate.py:293-294 | over the same graph, a concrete run with a crash before the stamp that executes both legacy migrations again |
| `SessionMerge.MergeRawSession` | Tokdash/src/tokdash/sessions.py:308-343 | the loop computes the merge whose turns `RenumberedIs` describes |
| `SessionMerge.MergedTitle` | Tokdash/src/tokdash/sessions.py:308-343 | a known project and a title are kept, the incoming ones taken where they are missing, and a title is made up only where both are missing |
| `SessionMerge.DropRepeated` | Tokdash/src/tokdash/sessions.py:319-334 | appends exactly the first occurrences of identities not seen before |
| `SessionMerge.FreshAreFirst` | Tokdash/src/tokdash/sessions.py:319-334 | exactly the first occurrences of new identities are kept, unchanged and in their order |
| `SessionMerge.RenumberedIs` | Tokdash/src/tokdash/sessions.py:336-338 | the result is in time order, numbered from 1, repeats no identity and holds exactly the first occurrences |
| `SessionMerge.SortSorts` | Tokdash/src/tokdash/sessions.py:336-336 | the sort by time and turn number sorts and permutes |
| `SessionMerge.SortOrder` | Tokdash/src/tokdash/sessions.py:336-336 | the order is by timestamp and then by turn number |
| `SessionMerge.SortIsStable` | Tokdash/src/tokdash/sessions.py:336-336 | turns that tie in both keep their order |
| `SessionMerge.LoadClaudeSessions` | Tokdash/src/tokdash/sessions.py:700-710 | the loader merges the files of each session in path order |
| `SessionMerge.AddRecord` | Tokdash/src/tokdash/sessions.py:1482-1500 | one record keeps a session's turns the one-pass deduplication of all its files |
| `SessionMerge.Gather` | Tokdash/src/tokdash/sessions.py:1470-1500 | the first loop gathers exactly the sessions with an id, each with all its turns once |
| `SessionMerge.SessionRecordsToRawSessions` | Tokdash/src/tokdash/sessions.py:1469-1509 | each session with its first known project, its title and its turns deduplicated, sorted and renumbered |
| `SessionMerge.FirstKnownProject` | Tokdash/src/tokdash/sessions.py:1482-1492 | a session's project is that of the first of its files that knows one |
| `SessionMerge.NoProjectKnown` | Tokdash/src/tokdash/sessions.py:1482-1492 | and "unknown" if none of them does |
| `SessionMerge.FirstTitle` | Tokdash/src/tokdash/sessions.py:1482-1490 | its title is that of its first file |
| `SessionMerge.RoutesAgree` | Tokdash/src/tokdash/sessions.py:700-710 | both routes know the same sessions with the same project and title, in time order and numbered 1..n, and hold the same turns if and only if there are two files or more or the one file repeats no identity |
| `SessionMerge.InsertAllIff` | Tokdash/src/tokdash/sessions.py:336-338 | sorting new turns into two arrangements of the old ones gives one order exactly when the arrangements agree and treat every new turn alike |
| `SessionMerge.SameListIff` | Tokdash/src/tokdash/sessions.py:308-343 | on the turn lists of a session: pairwise merging equals one-pass sorting if and only if no rank matters from the third file on (and a single file repeats no identity) |
| `SessionMerge.RoutesIdenticalIff` | Tokdash/src/tokdash/sessions.py:1502-1508 | the two loaders give the very same list of turns under exactly that condition |
| `SessionMerge.TiesMayDiffer` | Tokdash/src/tokdash/sessions.py:336-338 | with equal timestamps they may order turns differently: three one-turn files show it |
| `ProviderRetag.DetectedIff` | codex-lb/app/codex_sessions_retag.py:276-287 | a provider is detected exactly where a top-level string names it or, failing such a string, the payload of a `session_meta` record does |
| `ProviderRetag.RetagIs` | codex-lb/app/codex_sessions_retag.py:290-303 | one field is rewritten, and only where it holds the source: the top-level one, or that of a `session_meta` payload; every other record is left alone |
| `ProviderRetag.OtherTypesByTopLevel` | codex-lb/app/codex_sessions_retag.py:276-303 | a record of another type is detected and rewritten by its top-level field alone |
| `ProviderRetag.RetagDetected` | codex-lb/app/codex_sessions_retag.py:276-303 | although detector and rewriter use different rules, rewriting moves the detected provider from source to target and no other detection |
| `ProviderRetag.RetagBack` | codex-lb/app/codex_sessions_retag.py:290-303 | rewriting there and back restores a record in which the target did not occur |
| `ProviderRetag.RetagTwiceIff` | codex-lb/app/codex_sessions_retag.py:290-303 | rewriting twice is rewriting once if and only if not both places held the source |
| `ProviderRetag.RetagLinesTwiceIff` | codex-lb/app/codex_sessions_retag.py:226-262 | rewriting the lines of a file twice is rewriting them once if and only if no line names the source in both places |
| `ProviderRetag.RetagFile` | codex-lb/app/codex_sessions_retag.py:226-262 | line by line, unmatched and invalid lines verbatim, rewritten lines newline-terminated; changed exactly when some record was rewritten |
| `ProviderRetag.RetagLineProvider` | codex-lb/app/codex_sessions_retag.py:235-251 | a rewritten line parses to the rewritten record, and detection moves accordingly |
| `ProviderRetag.RetagMovesCounts` | codex-lb/app/codex_sessions_retag.py:406-429 | conservation: no source record or row is left, the target gains exactly the source's count, every other count stays |
| `ProviderRetag.RowsInPlace` | codex-lb/app/codex_sessions_retag.py:94-120 | every thread row stays in its place, and exactly those of the source are retagged |
| `ProviderRetag.SecondRunIsNoOp` | codex-lb/app/codex_sessions_retag.py:88-124 | an immediate second run finds nothing and changes nothing |
| `ProviderRetag.ThereAndBack` | codex-lb/app/codex_sessions_retag.py:226-303 | if the target occurs nowhere, retagging there and back restores every parsed record and row; lines that do not match, valid or not, stay verbatim throughout, and files without a source record are untouched |
| `ProviderRetag.CodexHome.CountFile` | codex-lb/app/codex_sessions_retag.py:408-412 | adds one file's records to the counts of their providers |
| `ProviderRetag.CodexHome.CountTable` | codex-lb/app/codex_sessions_retag.py:413-425 | adds one thread table's rows to the counts of their providers |
| `ProviderRetag.CodexHome.ProviderCounts` | codex-lb/app/codex_sessions_retag.py:406-429 | the counts of every provider over all files and tables |
| `ProviderRetag.CodexHome.RetagSessionFiles` | codex-lb/app/codex_sessions_retag.py:93-115 | exactly the matched files are rewritten and every matched file is updated |
| `ProviderRetag.CodexHome.RetagDatabases` | codex-lb/app/codex_sessions_retag.py:94-120 | exactly the matched rows are rewritten and counted |
| `ProviderRetag.CodexHome.Retag` | codex-lb/app/codex_sessions_retag.py:64-143 | it goes ahead exactly from `openai` to `codex-lb` or back and is an error otherwise; a dry run changes nothing; otherwise the home is retagged, and the reported counts, matches and updates are true |

## Left out

- Assumptions of the usage index, stated in `UsageIndex.Environment`: a followed file only grows, a file about to be parsed in full ends in a newline, an entry's own source is the sync's and its key belongs to one file, no listed path repeats, and one sync is one atomic step.
- Concurrent syncs that mix a stale full replace with tail appends: nothing is re-checked under the lock, so completeness does not hold for them and only tail-only interleavings are modelled.
- Line parsers, the derivation of entry keys and signatures are parameters: an entry has a source, a key, a time and a body, and a signature is the data it is built from.
- Tail parsing that depends on earlier lines of the file: the parser is modelled line by line.
- The response cache, the archive queue, the upgrade protocol and the concurrent syncs are transition systems over immutable states, one step per guarded section; update in place and the lock objects themselves are not modelled.
- In `ResponseCache` the clock values are parameters of the events; the reservation marks of the quota refresh are not part of this model.
- In `ArchiveQueue` the disk-pressure deadline is an arbitrary choice at each check, gzip recovery and file errors are an arbitrary set of written paths, and the wake-up time-outs of the condition variable are not modelled.
- In `MigrationUpgrade` an Alembic migration is one atomic step with its version bump, a build has one head, and Alembic is taken to refuse a table with unknown rows or with a row beside its own ancestor; the polling loop of the lock is the choice between acquiring and timing out; databases without a lock (in-memory SQLite, other dialects) are not modelled.
- RemapIdempotent: assumes that no replacement id is itself an old id, as the id table of the repository has it.
- In `MigrationChain` the two regular expressions are replaced by what they matched; the branch for an invalid literal (codex-lb/scripts/rewrite_alembic_revisions.py:75-77) cannot be reached with the pattern used and has no counterpart.
- Percentages are integers in units of 0.0001 and costs are reals, so rounding of binary floating point is not modelled; nor is the merging of equal timestamps and the downsampling of points before and after `_flush`.
- SpikesAreUndone: covers spikes that are followed by the reading they revert to, in the same epoch; longer plateaus are not torn reads for the filter.
- SpikesHarmlessIff: assumes that each spike falls into the window of the reading it precedes, which is what makes it a torn read for the filter.
- ParseEntriesJson: models the `all_models` table; the per-application breakdown, the grand totals, sorting by cost and hit rates would repeat the same sums.
- AggregateEntries: models the `all_models` rows only, for the same reason.
- MergeParsedUsage: models the `all_models` table only, for the same reason; contribution days are left out with it.
- MergeRawSession: does not carry the tool name, the project id and the review flag, which take no part in merging turns.
- SessionRecordsToRawSessions: does not model the Codex branch, where the last record of a session simply wins.
- RoutesAgreeIff: assumes non-negative token counts and prices, without which positive and negative rows could cancel.
- RoutesAgree: assumes what the Claude parser delivers (a project, a title, turns in time order numbered from 1); missing files are not modelled.
- In `ProviderRetag` JSON text is a parse and a dump function that agree; backups, temporary files, state databases that cannot be opened, and trimming of provider names are not modelled.
- Routes, the command line, the individual tool parsers and quota providers, pricing tables, the proxy, leader election and the frontend are not part of this model.
