# GlitchTip core, modelled in Dafny

A model of the stateful and arithmetic cores of GlitchTip, with proofs of what they promise. Each
module stands for one component of the repository.

| module | component |
|---|---|
| `ColdListing`, `ColdRewrite`, `ColdRemoval`, `ColdScan`, `ColdOrder` | cold-storage layouts: enumeration under shadowing, project removal, newest-first scan |
| `Chunker`, `ColdArchive`, `ColdContents`, `ColdVisibility` | the streaming export of a partition, the crash-and-restart protocol around it, what it leaves alone, and what readers see meanwhile |
| `Lifespan` | the ASGI lifespan multiplexer as interleaved atomic steps (ASGI Lifespan Protocol) |
| `IngestRace`, `IngestReleases`, `IngestStats` | racing issue creation, batched counters and releases, statistics, tags and transaction groups |
| `Uuid7`, `Partitions` | UUID version 7 keys (section 5.7 of RFC 9562), range and hash partitions, the DDL planner |
| `KeyMatcher`, `KeyTokens`, `ScrubTree`, `Luhn` | the PII scrubber |
| `BitFlags` | bit-flag fields |
| `RateLimit` | the sliding-window limiter |
| `BlobGc`, `BlobNames` | the blob garbage collector racing with uploads, and which storage names are safe |
| `Names`, `Numbers`, `Sequences` | string order, zero-padded numbers, remainders, folds over lists |

Objects that the source updates are classes or methods over arrays and maps, proved equal to a
specification function; protocols are step relations, and their theorems range over every run.

## Verifying

`dafny verify dfyconfig.toml --resource-limit 2000000` (Dafny 4.11) checks everything.

## What was found

* `archive_and_swap_partition` goes on to detach and drop when the export returned no files, also
  when the reason was that no storage backend was available. `LossFreeExactly` gives the exact
  condition under which no run loses rows.
* If the process is stopped between DETACH and DROP, the rerun clears the chunks of an organisation too
  large for one flat file while its table is out of readers' sight. `SeenExactly` says exactly when
  every run keeps all rows visible.
* Deleting a flat or sealed file that a project removal emptied brings back whatever chunks it was
  shadowing. `RemovalCommutes` and `HourRemovalCommutes` give the exact condition.
* The early exit of the scan relies on files ascending in id. Three things break that: flat files are
  listed before chunks whatever their dates, chunk names stop sorting in write order at the
  thousand-and-first, and the exports select without ORDER BY. `ColdOrder.ListingOrderExact` is the
  exact condition on what is stored.
* A lifespan runner cancelled before its first step never runs its `finally` block. It happens only when
  the handler is already giving up, so no wait is affected (`EndedRunnersSettled`).
* `BitFormField.clean` sets whatever names it is given: an underscored flag is silently dropped, a
  submitted `_value` overwrites the mask and `_keys` the list of flags. `CleanEncodesExactly` gives the
  exact condition on the submitted names. A flag named like an attribute of `BitHandler` breaks
  iteration (`Items`).
* A safe key made only of separators switches the aggressive key matcher off; `AggressiveIsOffExactly`
  says what does in general.
* A range partition created as a leaf makes every later call with a positive bucket count raise
  (`CallRaisesExactly`).
* A UUID-keyed range is refused as empty when both its ends clamp to one millisecond, which happens
  before 1970 or for a last tile within one millisecond (`UuidTilesHold`). A zero interval never ends, a
  negative one always raises.
* An issue without its index row gets one from the next batch that saves. Two batches that save at once
  both find it missing, and the second one's counts are dropped by `ON CONFLICT DO NOTHING`
  (`CountsConserved`; `ConservedExactly` is the exact condition before the run).
* One batch that counts a project or issue for two organisations credits all of it to the later one
  (`BatchingIsInvisible`).
* Blob collection is safe with storage that picks a free name. The S3 storage that the settings select
  overwrites by default, and `putfile` names an object by its checksum, so a deleted row's pending
  storage delete can take a new row's bytes (`OverwritingRunLosesBytes`; `SafeExactly` is the exact
  condition on a name).

## Model

| member | source | states |
|---|---|---|
| ColdListing.EnumerateOrg | glitchtip/cold_storage.py:458-514 | the appended paths are the kept flat files in name order, then the chunks of every kept date without a flat file that can be listed; if the organisation cannot be listed there are none |
| ColdListing.EnumerateFiles | glitchtip/cold_storage.py:482-492 | flat files in name order, and exactly the dates they shadow |
| ColdListing.EnumerateDirs | glitchtip/cold_storage.py:493-512 | date directories in name order, skipping shadowed dates, dates out of range and directories whose listing fails |
| ColdListing.EnumerateChunks | glitchtip/cold_storage.py:500-512 | one directory's Parquet files in name order |
| ColdListing.EnumerateHours | glitchtip/cold_storage.py:517-584 | the hour-tiered listing: sealed days, then inside every open date sealed hours over open chunks; a date or an hour directory whose listing fails is skipped |
| ColdListing.ListingExact | glitchtip/cold_storage.py:458-514 | a path is listed if and only if the shadowing rules make it visible, and it is listed once |
| ColdListing.HourListingExact | glitchtip/cold_storage.py:517-584 | the same for sealed day over sealed hour over open chunks |
| ColdListing.RangeOnlyFilters | glitchtip/cold_storage.py:447-455 | a date range only removes the paths of dates that do not overlap it; the order and the rest stay |
| ColdListing.RangeKeepsRows | glitchtip/cold_storage.py:447-455 | no visible row of a date that overlaps the range is lost by giving the range |
| ColdListing.RangeShowsItsDays | glitchtip/cold_storage.py:447-455 | and shows nothing else: a path is in the ranged listing exactly if it is in the full one and its day has a moment in the window or its name is no date |
| ColdRewrite.OrgStorage.RewriteFile | glitchtip/cold_storage.py:1714-1758 | one listed file is deleted when nothing remains, left alone when nothing goes, replaced otherwise, and left alone on an error; it is counted exactly if it changed |
| ColdRewrite.OrgStorage.RewriteExcluding | glitchtip/cold_storage.py:1691-1782 | the new tree after every listed flat-layout file was processed, and the number of files that had to be deleted or rewritten |
| ColdRewrite.HourStorage.RewriteExcluding | glitchtip/cold_storage.py:1691-1782 | the same for the hour-tiered layout |
| ColdRewrite.RewriteAllMidway | glitchtip/cold_storage.py:1712-1771 | after any part of the loop the processed files hold their filtered rows and every other file is untouched |
| ColdRewrite.RewriteAllIsPurged | glitchtip/cold_storage.py:1700-1771 | file by file, the loop gives the tree in which every visible file is filtered and every shadowed one untouched |
| ColdRewrite.HourRewriteAllIsPurged | glitchtip/cold_storage.py:1700-1771 | the same for the hour-tiered layout |
| ColdRewrite.RemovalLeaves | glitchtip/cold_storage.py:1712-1771 | path by path: a visible file that can be processed holds its remaining rows or is gone if there are none, a shadowed one and one whose processing fails is as it was |
| ColdRewrite.HourRemovalLeaves | glitchtip/cold_storage.py:1712-1771 | the same for the hour-tiered layout |
| ColdRewrite.TouchCounts | glitchtip/cold_storage.py:1725-1757 | the number returned is that of the listed files that could be processed and had a row to lose or no row |
| ColdRemoval.RemovalCommutes | glitchtip/cold_storage.py:1700-1764 | visible rows afterwards are exactly the earlier ones without the project's if and only if no emptied flat file shadowed leftover chunk rows; otherwise there are strictly more |
| ColdRemoval.HourRemovalCommutes | glitchtip/cold_storage.py:1700-1764 | the same for the hour-tiered layout, with both levels of shadowing: equal if and only if nothing is re-exposed, strictly more otherwise |
| ColdRemoval.RemovalBringsRowsBack | glitchtip/cold_storage.py:1732-1737 | a concrete tree in which deleting an emptied flat file makes a deleted project's row visible again |
| ColdScan.TakeTopIsTopK | glitchtip/cold_storage.py:1417-1423 | a per-file ORDER BY id DESC LIMIT k returns the k largest ids with their multiplicities, in descending order |
| ColdScan.ScanEqualsGlobalSort | glitchtip/cold_storage.py:1413-1426 | reading files newest first with per-file limits and the early exit, then cutting to k, equals sorting all matching rows, when files ascend in id |
| ColdScan.EarlyExitExact | glitchtip/cold_storage.py:1413-1426 | the early exit is right for every k if and only if later files never hold smaller ids |
| ColdScan.QueryFiles | glitchtip/cold_storage.py:1409-1452 | rows returned, exception and deleted files of the scan loop over readable, corrupt and failing files |
| ColdScan.QueryOutcome | glitchtip/cold_storage.py:1409-1452 | the result is the scan of the readable files unless a failing file is reached; exactly the corrupt files reached are deleted |
| ColdOrder.ChunksListInWriteOrder | glitchtip/cold_storage.py:440-444 | sorted chunk names are in write order if and only if there are at most 1000 of them |
| ColdOrder.ListingOrder | glitchtip/cold_storage.py:482-512 | all flat files come before all chunks; flat files by date, chunks by date and name |
| ColdOrder.ListingOrderExact | glitchtip/cold_storage.py:1413-1426 | when later dates hold larger ids, the scan is right for every k if and only if no chunked date lies behind a newer flat date and, within each date, chunks ascend as listed |
| ColdOrder.UnorderedChunksScanWrong | apps/logs/cold_storage.py:31-36 | one date in two chunks of which the first holds the newer row, as an export without ORDER BY can leave them, makes some newest-rows query wrong |
| ColdOrder.FlatListingsScanRight | glitchtip/cold_storage.py:484-512 | a listing that shows only flat files, whatever emptied or shadowed directories lie beside them, always meets the premise of the early exit |
| ColdOrder.FilteredAscends | glitchtip/cold_storage.py:1417-1423 | a WHERE filter keeps ascending files ascending |
| ColdOrder.OlderChunkHidesNewerDay | glitchtip/cold_storage.py:484-512 | for any two dates and rows, an older chunked date beside a newer flat one makes the newest-row query return the older row |
| Chunker.SplitIsCut | glitchtip/cold_storage.py:888-935 | the flushed groups concatenate to the input, none is empty, each closes on the first row that hits a limit, and only the last may be open |
| Chunker.CutUnique | glitchtip/cold_storage.py:888-935 | that description has only one solution, so the loop's cut is the one it describes |
| Chunker.GroupBounds | glitchtip/cold_storage.py:888-935 | a group has at most 50,000 rows, and its buffer exceeds the larger of byte limit and header by at most its last line |
| Chunker.FlatIffNeverFull | glitchtip/cold_storage.py:936-945 | a non-empty input becomes one flat file if and only if no prefix of it ever reached a limit |
| Chunker.FlatIffBelowLimits | glitchtip/cold_storage.py:888-945 | that is, if and only if the header and all its lines stay below the byte limit and there are fewer than 50,000 of them |
| Chunker.OrgExport.FlushNext | glitchtip/cold_storage.py:711-759 | with the groups of `done` stored as the cut numbers them, a flush stores the buffer as the next group under the next number, or as the flat file if it is the only and last one |
| Chunker.OrgExport.DeleteChunks | glitchtip/cold_storage.py:860-871 | the leftover chunks of a crashed run are all removed and nothing else |
| Chunker.OrgExport.Stream | glitchtip/cold_storage.py:888-945 | the files written are the cut's groups, numbered from 0 without gap, and all lines are counted |
| Chunker.OrgExport.ArchiveOrg | glitchtip/cold_storage.py:849-954 | an organisation with a flat file is skipped; otherwise old chunks go and the new cut is written |
| ColdContents.OtherDatesKept | glitchtip/cold_storage.py:711-757 | an organisation's turn leaves every path filed under another date there or absent as it was, with the same rows |
| ColdContents.OwnPathsAre | glitchtip/cold_storage.py:849-945 | of its own date nothing is left from before: all rows in one flat file if they are below both limits, otherwise group i of the cut as chunk i and nothing else |
| ColdContents.RunLeavesOtherPaths | glitchtip/cold_storage.py:860-945 | over every run with crashes and restarts no path outside the date's flat file and chunk directory ever changes |
| ColdContents.RunLeavesOtherDates | glitchtip/cold_storage.py:492-512 | so what an organisation's storage exposes for any other date never changes |
| ColdContents.RunLeavesOtherOrgs | glitchtip/cold_storage.py:829-847 | nor does anything of an organisation that is not eligible or has no rows in the partition |
| ColdArchive.NoRunLosesRows | glitchtip/cold_storage.py:849-954 | for every run with crashes after any step and any number of restarts, an eligible organisation's rows are all still in the table or exactly the multiset the enumerator exposes |
| ColdArchive.NoBackendDrops | glitchtip/cold_storage.py:794-797 | a run without a storage backend drops the partition although nothing was archived |
| ColdArchive.LossFreeExactly | glitchtip/cold_storage.py:1115-1139 | every run is loss-free if and only if a backend is available or everything eligible was archived before |
| ColdArchive.RerunFinishes | glitchtip/cold_storage.py:1078-1139 | from whatever a crash left there is an uninterrupted rerun that ends detached, dropped and fully archived |
| ColdArchive.EveryRerunEndsWell | glitchtip/cold_storage.py:1078-1139 | every uninterrupted rerun comes nearer the end with every step, and one that cannot go on has ended detached, dropped and fully archived |
| ColdVisibility.SeenUnlessStopped | glitchtip/cold_storage.py:1078-1139 | with a backend, or everything archived before, readers see every row at every moment of every run in which the process is not stopped between DETACH and DROP |
| ColdArchive.FlatIffSmall | glitchtip/cold_storage.py:888-945 | in whatever order the rows arrive, an export goes to one flat file exactly if header and rows together stay below the limit derived from the memory setting and below 50,000 rows |
| ColdVisibility.SeenExactly | glitchtip/cold_storage.py:1078-1139 | from an attached partition every run keeps every row in sight at every moment if and only if every eligible organisation has its flat file already or is small enough for one under every memory setting of the runs or, without a backend, is archived already |
| ColdVisibility.RerunHides | glitchtip/cold_storage.py:860-871 | after a stop between DETACH and DROP, a rerun that clears the chunks of an organisation without a flat file, the only rows readers had left |
| ColdArchive.WorkGetsNearer | glitchtip/cold_storage.py:849-954 | every step without a crash decreases a well-founded measure, so no run works for ever |
| ColdArchive.WorkIsPossible | glitchtip/cold_storage.py:849-954 | until it is done an uninterrupted run always has a next step |
| ColdArchive.DateRowsAre | glitchtip/cold_storage.py:492-512 | what a date exposes: its flat file alone if there is one, otherwise all its chunks |
| ColdArchive.WritesEqualStream | glitchtip/cold_storage.py:888-945 | after all the writes of an export the organisation's storage is exactly what the streaming loop leaves, and no other organisation's has changed |
| ColdArchive.OrderedExportAscends | glitchtip/cold_storage.py:888-945 | rows streamed in id order leave chunks that ascend as listed if and only if they fill at most 1000 groups |
| ColdArchive.ExportedFiles | glitchtip/cold_storage.py:711-716 | an export leaves one flat file if its only group stayed open, otherwise exactly the chunks 0 to n - 1, chunk i holding group i |
| ColdArchive.ChunkMapRows | glitchtip/cold_storage.py:440-444 | numbered chunks written so far expose exactly the rows of their groups |
| Lifespan.StepKeeps | glitchtip/asgi.py:105-212 | every atomic step of the three tasks keeps the protocol invariant |
| Lifespan.RepliesFollowTheProtocol | glitchtip/asgi.py:184-209 | in every interleaving the replies are a prefix of startup.complete, shutdown.complete or of startup.failed, and each queue hands out the server's messages in order |
| Lifespan.StartupCompleteIsTrue | glitchtip/asgi.py:193-199 | startup.complete is sent only after both applications reported completion, neither reported failure and neither died before reporting |
| Lifespan.StartupFailedIsTrue | glitchtip/asgi.py:193-195 | startup.failed is sent only if an application reported failure or died before reporting |
| Lifespan.ShutdownCompleteIsTrue | glitchtip/asgi.py:204-207 | shutdown.complete is sent only after each application closed or was gone |
| Lifespan.EndedRunnersSettled | glitchtip/asgi.py:158-169 | an ended runner has set both its events if and only if its body ever ran, which can fail only after the handler has cancelled it |
| Lifespan.UnbegunRunnerSettlesNothing | glitchtip/asgi.py:208-212 | a run in which a task cancelled before its first step ends with neither event set |
| Lifespan.WaitsCanEnd | glitchtip/asgi.py:150-157 | whenever the handler waits on an unset event, that application's own runner can still set it and let the handler go on |
| Lifespan.NeverStuck | glitchtip/asgi.py:105-212 | until the handler has returned some task can act, in every reachable state |
| Lifespan.HandlerStepsAreFew | glitchtip/asgi.py:173-212 | in every run the handler takes at most eleven steps, whatever the applications do in between |
| Lifespan.EndedRunnersLetItReturn | glitchtip/asgi.py:173-212 | once both runners have ended, however they did, every undisturbed run from there takes at most eleven more steps and, where it cannot go on, has returned |
| Lifespan.FinallyCancelsAll | glitchtip/asgi.py:208-212 | whenever the handler enters its finally block, every runner that has not ended is being cancelled |
| Lifespan.UncancelledSurvived | glitchtip/asgi.py:208-212 | while it gathers, a runner that is neither ended nor being cancelled has itself survived that cancellation since |
| Lifespan.OnlyFinallyCancels | glitchtip/asgi.py:208-212 | before the finally block no runner is ever being cancelled |
| Lifespan.FactsMean | glitchtip/asgi.py:127-145 | what the observable log says about an application, independently of the flags |
| Lifespan.SilentMeans | glitchtip/asgi.py:163-169 | a silent death is an exit with no report before it |
| IngestRace.CollectUpdates | apps/event_ingest/process_event.py:238-267 | the dictionary built over the batch's event objects is the fold of its events |
| IngestRace.AggregateCounts | apps/event_ingest/process_event.py:238-267 | an issue is in the dictionary if and only if the batch has an event for it that did not create it; added count, latest time and presence of a release follow from counting those events |
| IngestReleases.EntryRelease | apps/event_ingest/process_event.py:238-267 | an entry's release is that of the last event that was later than all before it and names one, or, if no such event names one, of the first event that does |
| IngestReleases.LatestRelease | apps/event_ingest/process_event.py:238-267 | in particular, if the first event received at the entry's time names a release, that one |
| IngestReleases.SavedRelease | apps/event_ingest/process_event.py:299-303 | a batch that names a release for the issue replaces the row's by that one |
| IngestReleases.SavedWithoutRelease | apps/event_ingest/process_event.py:299-303 | one that names none, or drops its update, keeps it |
| IngestReleases.FinalReleaseIsNamed | apps/event_ingest/process_event.py:289-314 | when all have saved and at most one worker found the row missing, the row's release is one that an event of the run names if any names one, so the common one if all name the same |
| IngestRace.CheckSetIssueId | apps/event_ingest/process_event.py:396-414 | every event of the batch without an issue and with that project and hash gets the id; no other event changes |
| IngestRace.InferredAt | apps/event_ingest/process_event.py:396-414 | field by field: the issue id is set exactly where it was missing and the key fits |
| IngestRace.MadeSettlesAll | apps/event_ingest/process_event.py:731-736 | creating an issue settles every event of the batch with its key at once |
| IngestRace.CountsConserved | apps/event_ingest/process_event.py:289-314 | when all workers have saved, in any interleaving and from any tables, an issue's count is its earlier count plus the number of events received for it, last_seen is the latest time and a release is set exactly if it was or one event has one, if and only if at most one worker's statement found the issue without its index row |
| IngestRace.CountFallsShort | apps/event_ingest/process_event.py:289-314 | otherwise the issue had no row at the start and the count falls short by at least one event for each further such worker |
| IngestRace.ConservedExactly | apps/event_ingest/process_event.py:286-314 | every run from given tables and batches conserves the issue's count, last_seen and release if and only if the issue has its index row or at most one batch holds events for it |
| IngestRace.EveryEventFiled | apps/event_ingest/process_event.py:1063-1080 | every received event ends with its (project, hash) mapped to an issue that has its index row |
| IngestRace.CreatedIssueHasOneHash | apps/event_ingest/process_event.py:676-730 | an issue created in the run has exactly one (project, hash), of its own project: a losing insert leaves nothing |
| IngestRace.ShortIdsDistinct | apps/event_ingest/process_event.py:661-673 | short ids within a project are distinct in every reachable state although losers consume a counter value |
| IngestRace.CounterCountsReservations | apps/event_ingest/process_event.py:661-673 | a project's counter grows by exactly the number of short ids reserved in the run, whether their inserts win or lose |
| IngestRace.StepKeeps | apps/event_ingest/process_event.py:676-749 | every statement of any worker keeps all workers' invariants, and hashes are only ever added |
| IngestRace.StepsAreBounded | apps/event_ingest/process_event.py:632-751 | every step leaves less to do, so every run is finite |
| IngestRace.NeverBlocked | apps/event_ingest/process_event.py:632-751 | an unfinished worker can always take its next step, whatever the others did |
| IngestStats.TallyEvents | apps/event_ingest/process_event.py:1082-1093 | the hourly project and issue dictionaries of the main loop are the tallies of the batch's hits |
| IngestStats.TallyTags | apps/event_ingest/process_event.py:1512-1527 | the daily tag dictionary is the tally of every (event, tag) pair with a known issue |
| IngestStats.SameSlotExactly | apps/event_ingest/process_event.py:1082-1093 | two events share an hourly slot exactly if received in one clock hour, a daily one exactly if on one date, for the same project, issue or tag |
| IngestStats.HourOf | apps/event_ingest/process_event.py:1082-1084 | a slot's hour begins on the hour, at or less than an hour before the event |
| IngestStats.TallyCounts | apps/event_ingest/process_event.py:1088-1093 | for any hits, a dictionary entry exists if and only if its slot was hit, counts all hits on it, and has the last one's organisation |
| IngestStats.AfterReads | apps/event_ingest/process_event.py:1283-1296 | for any batches, a row's count is its earlier count plus what each batch credits to it: all the batch's hits on its slot if the last of them is the row's own, otherwise none |
| IngestStats.OwnHits | apps/event_ingest/process_event.py:1088-1093 | a batch that hits a slot for one organisation only credits that row exactly its own hits |
| IngestStats.BatchingIsInvisible | apps/event_ingest/process_event.py:1276-1334 | for each of project, issue and tag counts: all splits of the same events into batches, in any order, leave the same counts if and only if no slot is hit for two organisations |
| IngestStats.OneOrgIsEnough | apps/event_ingest/process_event.py:1276-1334 | so batching is invisible whenever each project and each issue belongs to one organisation |
| IngestStats.InvisibleExactly | apps/event_ingest/process_event.py:1088-1093 | the same if and only if for any statistic whose hits carry their event's organisation |
| IngestStats.TotalsGrowByHits | apps/event_ingest/process_event.py:1283-1296 | a statistic's grand total grows by exactly the number of hits |
| IngestStats.ProjectCountsSumToEvents | apps/event_ingest/process_event.py:1276-1296 | hourly project counts sum to the number of events |
| IngestStats.TagCountsSumToPairs | apps/event_ingest/process_event.py:1533-1560 | daily tag counts sum to the number of event-tag pairs with a known issue |
| IngestStats.Collect | apps/event_ingest/process_event.py:1727-1742 | durations and error counts collected per transaction group, backward clocks counting as zero |
| IngestStats.DurationIs | apps/event_ingest/process_event.py:1727-1742 | a duration is the difference of the two times if both are known and in order, otherwise zero |
| IngestStats.AverageIsExact | apps/event_ingest/process_event.py:1374-1412 | after any batches count times average is the exact total of all durations, counts and errors add up, and errors never exceed the count |
| IngestStats.GroupBatchingIsInvisible | apps/event_ingest/process_event.py:1374-1412 | any two splits of the same transactions leave a group the same |
| Uuid7.PackedReads | glitchtip/partition_manager.py:60-75 | packing the five fields of RFC 9562 section 5.7 and reading them back is the identity |
| Uuid7.ReadPacks | glitchtip/partition_manager.py:60-75 | every 128-bit integer is the packing of its own fields |
| Uuid7.GeneratedKeys | glitchtip/partition_manager.py:38-77 | from_datetime succeeds exactly from the epoch on, carries version 7 and the RFC's variant, and extraction returns its millisecond |
| Uuid7.ExtractsExactly | glitchtip/partition_manager.py:80-103 | extraction succeeds exactly on version 7 under the RFC's variant up to the year 9999, and returns the first 48 bits |
| Uuid7.KeysFollowTime | glitchtip/partition_manager.py:56-77 | a key made for an earlier millisecond is below every key made for a later one, whatever the random bits |
| Uuid7.BoundsEncloseMillisecond | glitchtip/partition_manager.py:137-170 | the min-random form is the least and the max-random form the greatest version 7 key of the clamped millisecond |
| Uuid7.BoundCutsAtMillisecond | glitchtip/partition_manager.py:137-170 | a version 7 key is at or above a bound exactly if its millisecond is |
| Uuid7.FilterIsExact | apps/issue_events/managers.py:120-130 | filter_by_time_range keeps exactly the keys whose millisecond lies in [floor(start), floor(end)), with either end optional |
| Uuid7.AdjacentRangesMeet | glitchtip/partition_manager.py:126-134 | ranges of adjacent dates share no key and leave none out |
| Partitions.ClashMeans | glitchtip/partition_manager.py:289-306 | two buckets of which one modulus divides the other clash exactly if some hash goes to both |
| Partitions.Manager.CreateTimePartition | glitchtip/partition_manager.py:276-303 | the statements for a range partition and its buckets in order, or for a leaf |
| Partitions.Manager.ReadModuli | glitchtip/partition_manager.py:519-526 | the set of moduli the children's bounds expose |
| Partitions.Manager.RunAtomically | glitchtip/partition_manager.py:588-592 | all statements take effect or, if one is refused, none |
| Partitions.Manager.ExecutePartitionCreation | glitchtip/partition_manager.py:497-605 | the new catalog and the number of statements, or the exception, are those of the planner's specification |
| Partitions.AnyCallsKeepTheCatalog | glitchtip/partition_manager.py:497-605 | over any sequence of calls with arbitrary dates and bucket counts every range partition keeps one modulus, child h_i holds remainder i, ranges do not overlap, no existing table changes and no bucket goes missing |
| Partitions.CallFillsExactlyTheGaps | glitchtip/partition_manager.py:567-583 | a matching modulus executes one statement per missing bucket and completes the set; any other count changes nothing |
| Partitions.RepeatExecutesNothing | glitchtip/partition_manager.py:584-586 | a call that did not raise, repeated at once, executes 0 statements and changes nothing |
| Partitions.CallRaisesExactly | glitchtip/partition_manager.py:588-592 | exactly which calls raise, and that they change nothing |
| Partitions.UnexpectedChildrenSurvive | glitchtip/partition_manager.py:528-562 | in any catalog, over any sequence of calls for any dates, children with another modulus, several or none stay exactly as they are |
| Partitions.CreatePartitionsForDateRange | glitchtip/partition_manager.py:637-685 | the loop's catalog and count, or its exception, for every interval, positive, negative or unknown, except where a zero interval makes it run for ever |
| Partitions.GoingBackRaises | glitchtip/partition_manager.py:651-672 | a negative interval always ends in an exception |
| Partitions.ZeroIntervalNeverEnds | glitchtip/partition_manager.py:651-672 | with an interval of zero a first call that returns is followed by the same call for ever, none of which changes anything |
| Partitions.TilesTile | glitchtip/partition_manager.py:653-672 | the ranges run from start to end without gap or overlap, each non-empty |
| Partitions.TileNamesDistinct | glitchtip/partition_manager.py:658-660 | they are named for different days and follow one another |
| Partitions.ExactlyOneTile | glitchtip/partition_manager.py:653-672 | every moment of the range lies in exactly one of them |
| Partitions.IntervalTiles | glitchtip/partition_manager.py:641-649 | daily tiles start 86,400 seconds apart, weekly ones 604,800, n-day ones n days |
| Partitions.RoutesToOneLeaf | glitchtip/partition_manager.py:289-306 | in a consistent catalog with no bucket missing, any key in a range and any hash have exactly one leaf |
| Partitions.LoopReturnsExactly | glitchtip/partition_manager.py:637-672 | over any consistent catalog the call returns if and only if, on the catalog before it, every tile without a partition is neither empty nor overlapping and no childless unhashed partition is asked for buckets |
| Partitions.EveryKeyHasOneLeaf | glitchtip/partition_manager.py:637-672 | where existing partitions of its dates have the tiles' bounds, the call returns under exactly that condition, and then every key of the range, with any hash, has exactly one leaf |
| Partitions.RollingWindowHasOneLeaf | glitchtip/partition_manager.py:637-672 | for a window whose first tiles stand already and whose others lie behind all tables, the call returns if and only if none of the others is empty in key order, and then every key of the window, with any hash, has exactly one leaf |
| Partitions.FreshKeyHasOneLeaf | glitchtip/partition_manager.py:637-672 | for a range behind all existing ones, with no tile empty in key order, the call returns and every key of the range, with any hash, has exactly one leaf |
| Partitions.EveryUuidHasOneLeaf | glitchtip/partition_manager.py:282-284 | the same, in particular, for every version 7 key whose millisecond lies in [floor(start), floor(end)) |
| Partitions.FreshDatetimeHasOneLeaf | glitchtip/partition_manager.py:637-672 | for a datetime key no tile is empty, so for every fresh range the call returns and every moment of it, with any hash, has exactly one leaf |
| Partitions.FreshUuidHasOneLeaf | glitchtip/partition_manager.py:282-284 | for a fresh range that reaches the epoch's first millisecond in its first tile and does not end in the millisecond its last tile starts in, the call returns and every such version 7 key has exactly one leaf |
| Partitions.AppendingSucceedsExactly | glitchtip/partition_manager.py:637-672 | appending dates, for either key type, creates every tile if and only if no tile is empty in key order, and raises otherwise |
| Partitions.UuidTilesHold | glitchtip/partition_manager.py:137-170 | no tile is empty in UUID order if and only if the first one reaches past the epoch's first millisecond and the last one ends in a later millisecond than it starts in |
| Partitions.SameUuidBound | glitchtip/partition_manager.py:137-170 | two moments have the same lower bound exactly if both clamp to the epoch's first millisecond or share a millisecond |
| Partitions.DropOldPartitions | glitchtip/partition_manager.py:370-397 | exactly the listed partitions whose nominal end is before the threshold go, with their buckets, and are counted |
| Partitions.DroppingDropsExactly | glitchtip/partition_manager.py:370-397 | in days, in a consistent catalog: a date's partition and each of its buckets stay exactly if date plus interval is not before today minus the retention, other tables stay unless they hang below one that goes, and the count is the number of partitions before that line |
| Partitions.DroppingKeepsTheRest | glitchtip/partition_manager.py:370-397 | dropping keeps the catalog consistent and complete and keeps every partition whose range reaches the threshold |
| KeyMatcher.TokensConcatToNormalized | apps/event_ingest/pii_scrubber.py:163-171 | the concatenated tokens of a key are its normalized form |
| KeyMatcher.PlainKeyIsOneToken | apps/event_ingest/pii_scrubber.py:308-312 | a key equal to its normalized form splits into itself alone |
| KeyTokens.SeparatorCuts | apps/event_ingest/pii_scrubber.py:155-171 | a hyphen, underscore, dot or white space cuts a key in two |
| KeyTokens.SeparatorDrops | apps/event_ingest/pii_scrubber.py:163-164 | and drops out of its normalized form |
| KeyTokens.CamelSplits | apps/event_ingest/pii_scrubber.py:158-171 | splitting undoes camel case: any words of small letters and digits are the tokens of their camel-case key |
| KeyTokens.AcronymCuts | apps/event_ingest/pii_scrubber.py:158-171 | an acronym's last capital belongs to the word that follows it |
| KeyTokens.AcronymIsOneToken | apps/event_ingest/pii_scrubber.py:158-171 | capitals alone are one token |
| KeyTokens.DefaultsFlagExactly | apps/event_ingest/pii_scrubber.py:266-317 | with the built-in lists alone a key is flagged exactly if its normalized form is a whole name or one of its tokens is a sensitive word |
| KeyTokens.SensitiveWordFlags | apps/event_ingest/pii_scrubber.py:66-100 | password, secret, auth, token, session, cookie and ssn are flagged wherever they are a token |
| KeyTokens.SafeTokenExempts | apps/event_ingest/pii_scrubber.py:313-317 | a token that is a safe key exempts the key from the token match |
| KeyTokens.NoListsNoFlags | apps/event_ingest/pii_scrubber.py:266-317 | with the lists off and no key named nothing is flagged |
| KeyTokens.NamedAloneFlagExactly | apps/event_ingest/pii_scrubber.py:271-317 | with the lists off the token-aware matcher flags exactly the named keys, in any spelling, that no safe key equals |
| KeyMatcher.FastPathAgrees | apps/event_ingest/pii_scrubber.py:303-317 | the simple-identifier fast path never changes the verdict of always splitting |
| KeyMatcher.AggressiveFlagsMore | apps/event_ingest/pii_scrubber.py:292-317 | with no safe keys the aggressive matcher flags every key the token-aware one flags |
| KeyMatcher.MoreKeysFlagMore | apps/event_ingest/pii_scrubber.py:266-284 | adding sensitive_keys never unflags a key, under either matcher |
| KeyMatcher.NamedKeysAreFlagged | apps/event_ingest/pii_scrubber.py:271-284 | a key an operator named is flagged in any spelling exactly if no safe key exempts it |
| KeyMatcher.AggressiveIsOffExactly | apps/event_ingest/pii_scrubber.py:292-296 | the aggressive matcher flags no key at all if and only if every denylisted string contains a safe key |
| KeyMatcher.TokenAwareIsOffExactly | apps/event_ingest/pii_scrubber.py:297-317 | the token-aware matcher flags no key at all if and only if every denylisted string is a safe key |
| KeyMatcher.EmptySafeKeyDisablesAggressive | apps/event_ingest/pii_scrubber.py:281-296 | in particular a safe key made only of separators switches the aggressive matcher off for every key |
| ScrubTree.ScrubDictInPlace | apps/event_ingest/pii_scrubber.py:360-366 | the dictionary loop overwrites each value as the walk says |
| ScrubTree.ScrubListInPlace | apps/event_ingest/pii_scrubber.py:368-390 | the list loop redacts pairs by their first element, turns tuple pairs into lists and walks anything else |
| ScrubTree.ScrubTwice | apps/event_ingest/pii_scrubber.py:344-390 | scrubbing a scrubbed node changes nothing, for any idempotent string function and any depth |
| ScrubTree.ScrubKeepsShape | apps/event_ingest/pii_scrubber.py:344-390 | every key set, list length and kind outside redacted values is kept |
| ScrubTree.VisitScrubbed | apps/event_ingest/pii_scrubber.py:344-390 | following any path into the scrubbed tree is walking the node the path reaches in the original |
| ScrubTree.EveryVisitedKeyIsHidden | apps/event_ingest/pii_scrubber.py:344-390 | along every path the walk can take, down to depth 48, each sensitive key or pair holds the placeholder and each string is clean |
| ScrubTree.StringsAreCleaned | apps/event_ingest/pii_scrubber.py:344-357 | wherever the walk reaches a string it is cleaned down to depth 48, and left alone below |
| ScrubTree.RestIsUntouched | apps/event_ingest/pii_scrubber.py:344-359 | everything below depth 48, and every number, boolean, None or lone tuple, is as it was |
| ScrubTree.EntriesAreScrubbed | apps/event_ingest/pii_scrubber.py:360-366 | in a reached dictionary the value of a sensitive string key is the placeholder, a string under any other key is cleaned, other plain values stay |
| ScrubTree.PairsAreScrubbed | apps/event_ingest/pii_scrubber.py:368-390 | in a reached list a list or tuple of a string and more becomes a list that differs at most in its second element: the placeholder after a sensitive string, otherwise scrubbed |
| ScrubTree.ItemsAreScrubbed | apps/event_ingest/pii_scrubber.py:368-390 | a string in a reached list is cleaned, other plain values stay |
| ScrubTree.NestingBounded | apps/event_ingest/pii_scrubber.py:344-359 | whatever the payload, at most 50 node calls are nested |
| ScrubTree.ScrubEvent | apps/event_ingest/pii_scrubber.py:394-401 | the loop over sections computes the scrubbed payload; a disabled scrubber returns it as it is |
| ScrubTree.EventSectionsScrubbed | apps/event_ingest/pii_scrubber.py:394-401 | listed sections are walked once, None and all other keys are unchanged, no key appears or disappears |
| ScrubTree.SectionsAreWalked | apps/event_ingest/pii_scrubber.py:125-140 | the sections are the twelve named ones |
| ScrubTree.ScrubEventTwice | apps/event_ingest/pii_scrubber.py:394-401 | scrub_event is idempotent |
| Luhn.LuhnValid | apps/event_ingest/pii_scrubber.py:174-186 | the loop accepts exactly the digit strings valid by the rule of ISO/IEC 7812-1 Annex B, read from the right |
| Luhn.SingleChangeCaught | apps/event_ingest/pii_scrubber.py:174-186 | any single changed digit of a valid string is rejected |
| Luhn.AdjacentSwapCaught | apps/event_ingest/pii_scrubber.py:174-186 | swapping two neighbours of a valid string stays valid if and only if they are equal or are 0 and 9 |
| Luhn.OneCheckDigit | apps/event_ingest/pii_scrubber.py:174-186 | exactly one final digit validates each prefix |
| BitFlags.BitHandler.SetBit | bitfield/types.py:231-237 | the bit is set or cleared and every other bit is unchanged |
| BitFlags.BitHandler.SetAttr | bitfield/types.py:206-211 | a flag's name sets its bit, an unknown one is an error, and an underscored name goes to the object: `_value` overwrites the value, `_keys` the list of flags, any other sets no bit |
| BitFlags.BitHandler.Items | bitfield/types.py:248-250 | iteration yields each flag with its bit, and fails exactly if some name is underscored or an attribute of the class |
| BitFlags.DecodeHandler | bitfield/forms.py:11-12 | the handler's iteration selects the flags whose bit is set, or fails on such a name |
| BitFlags.DecodeByShift | bitfield/forms.py:42-47 | the shift test selects the same flags among the first 63 |
| BitFlags.DecodeByDivision | bitfield/forms.py:13-21 | the mod/div loop selects the same flags, for negative values too |
| BitFlags.Clean | bitfield/forms.py:53-64 | the value after all the assignments in turn, a validation error at the first unknown name, or the uncaught error of a guarded attribute or an overwritten list |
| BitFlags.CleanEncodesExactly | bitfield/forms.py:53-64 | for a set of submitted names, every order with any repeats encodes to their mask if and only if each is a flag or an ordinary underscored name, no flag among them is underscored, and `_keys` and `_value` come only where they do no harm |
| BitFlags.DecodeThenCleanExactly | bitfield/forms.py:10-64 | decoding a value and submitting the decoded names in any order with any repeats returns the value modulo 2^n if and only if the decoded names are so encodable |
| BitFlags.DecodeThenClean | bitfield/forms.py:10-64 | so always for flags of which none begins with an underscore |
| BitFlags.EncodeDecode | bitfield/forms.py:10-64 | decoding the mask of a set of flags gives that set back |
| BitFlags.ToPython | bitfield/models.py:153-170 | a negative value becomes its remainder modulo 2^n, any other stays |
| BitFlags.RepairShowsTheSame | bitfield/models.py:157-164 | the repaired value shows the same flags |
| RateLimit.Transport.IsRateLimited | glitchtip/internal_transport.py:55-68 | entries older than the window go; the call is refused with 50 left, otherwise recorded |
| RateLimit.StoredIsRecent | glitchtip/internal_transport.py:62-67 | on a clock that never runs back the stored list is exactly the accepted calls of the last 60 seconds |
| RateLimit.RefusedExactly | glitchtip/internal_transport.py:65-66 | a call is refused if and only if 50 calls were accepted in the 60 seconds before it |
| RateLimit.AtMostFiftyPerWindow | glitchtip/internal_transport.py:55-68 | every window (T-60, T], wherever it ends, contains at most 50 accepted calls |
| RateLimit.StoredIsSmall | glitchtip/internal_transport.py:62-67 | the stored list never exceeds 50 entries |
| BlobGc.StepKeeps | apps/files/maintenance.py:17-59 | every statement of the collector and of any upload, a lookup and its store being apart, keeps rows, objects and pending deletions apart |
| BlobGc.EveryRowKeepsItsBytes | apps/files/maintenance.py:17-59 | under any interleaving, with crashes and failed storage deletes, every FileBlob row has its content under its name and every File its row |
| BlobGc.OneCallDeletesFew | apps/files/maintenance.py:19-59 | one call deletes at most 10,999 blob rows |
| BlobGc.DeleteCountsRows | apps/files/maintenance.py:33-34 | the counted number is exactly the number of rows that went |
| BlobGc.OnlyOldFilesGo | apps/files/maintenance.py:78-84 | a File disappears only in a retention pass and only if created before its cutoff |
| BlobGc.OnlyOldRowsGo | apps/files/maintenance.py:78-94 | a row goes only if created before the pass's cutoff and no File, in the retention pass no recent one, references it |
| BlobGc.YoungRowsStay | apps/files/maintenance.py:64-94 | the grace period: a row no older than any cutoff of the run stays to the end with its bytes, with or without a File |
| BlobGc.StaleIdsAre | apps/files/maintenance.py:78-94 | what each of the two passes may delete |
| BlobGc.RecentFilesStay | apps/files/maintenance.py:64-94 | a File not older than any retention cutoff of the run stays to the end with its blob and bytes |
| BlobNames.SafeExactly | apps/files/models.py:103-114 | storing under a name is safe for every continuation if and only if no row, no other upload and no fetched or pending entry of the collector has it |
| BlobNames.FreeNameIsSafe | apps/files/models.py:103-114 | a name that nothing in storage has is safe |
| BlobNames.UploadsComplete | apps/files/models.py:98-117 | whatever an upload was doing, a new one of any content can run to its end: a File whose row has the content and whose object holds it |
| BlobNames.OverwritingRunLosesBytes | glitchtip/settings.py:1111-1115 | with names that are checksums and storage that overwrites, a run from an idle collector that leaves a row without its bytes |
| BlobGc.Maintenance.DeleteFileBlobs | apps/files/maintenance.py:17-59 | uninterrupted, the loop collects stale rows only, with Files and objects, and all of them if they are fewer than 10,000 |
| BlobGc.InsertBlobKeeps | apps/files/models.py:107-111 | the blob insert, won or lost on the unique checksum, keeps the invariant |
| BlobGc.InsertFileKeeps | apps/files/models.py:112-114 | the File insert under its foreign key keeps the invariant |

## Left out

Assumptions, common to all modules:

- Single file writes, replacements and deletes are atomic; one SQL statement or one `atomic()` block is one step. What Postgres locking adds or refuses beyond that is not modelled.
- DuckDB, Parquet, COPY, S3 and connection handling: a file is a list of rows, a query its exact meaning, an error a branch. Retries and backoff in `detach_partition` are one step.
- Logging, metrics, alerts, caches, search vectors, environments, releases as tables, event payloads.

Cold storage:

- `archive_and_swap_partition` returns before any DDL when DuckDB is not available or the partition's name has no date; those runs change nothing and are not modelled.
- Organisation eligibility is fixed, the old partition does not change during its archive, and a flat file already present is a finished archive of the same rows; the order in which rows arrive is arbitrary, a row's CSV line always has the same size, and each run has one of a given set of memory limits, already parsed.
- `cleanup_cold_storage_for_org` and the other age-based purges, the compaction of hours into days, and the choice of which partitions are old enough.
- The WHERE clause of a removal is any filter on rows; paths are data, not strings with a prefix.
- ColdRewrite.OrgStorage.RewriteFile: one flag stands for every way DuckDB can fail on a file.

ASGI lifespan:

- Forwarding when only the MCP application needs lifespan; HTTP routing. The server sends startup, then shutdown, as the ASGI Lifespan Protocol says; a handler await that raises stands for any cancellation or transport error.

Ingest:

- Organisation ids are functions of projects and issues in `IngestRace`, so the index row's key is the issue alone. Reopening resolved issues, deletion of issues and merges during a run.
- A replica read returns any part of the hash table; the order of the fallback read is not modelled.
- IngestRace.CountsConserved: the statement of `update_issues` is two steps, what it finds and what it writes; waiting for row locks is not modelled.
- `IngestStats` uses integer milliseconds and exact reals; nested dictionaries are one dictionary with a compound key. Tag text is a number; truncation and NUL removal happen before. Percentiles, histograms and spans.

Keys and partitions:

- Floating-point timestamps: a datetime is an integer number of microseconds between the years 1 and 9999, so the upper clamp to 48 bits, which lies beyond, is never reached. Bit operations on disjoint fields are sums.
- Table names are data: a day number stands for `YYYYMMDD`, and the names of one date never collide with another table's. `drop_old_partitions` also matches names that only look like a partition's; overflow of dates past the year 9999.
- Partitions.CreatePartitionsForDateRange: a zero interval whose first call returns is excluded, because the source then never returns.

Scrubber:

- Keys are ASCII. Card, PEM and email patterns are one arbitrary string function. `scrub_log`, JSON configuration parsing and caching of compiled scrubbers.
- ScrubTree.ScrubDictInPlace: one container is overwritten in place and its nested values are values, so sharing of one object by two places of a payload is not captured.
- Luhn.LuhnValid: digits are 0 to 9; `\d` also admits other Unicode digits.

Others:

- BitFlags.Clean: choices whose own name is `_labels` or a special method are flags like any other underscored one. Labels, comparison and arithmetic operators, query lookups, composite fields.
- The limiter is single-threaded, as its own comment allows.
- Blob collection: one collector at a time, ids never reused, storage that picks a free name picks and claims it in one step. `assemble_from_file_blob_ids` and chunk uploads without a File are only uploads that give up.
