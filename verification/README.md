# CrashCatcher: a verified model of the crash-data core

CrashCatcher reads the same crash from several sources on a device, joins the sightings into one
occurrence, stores it once, and acknowledges its sources only then. This project models that path
in Dafny and proves what it promises, over all inputs and whole lifetimes:

- **Merger** (`Evidence`, `Ranking`, `Sorting`, `Merger`, `Joining`, `Reports`, `Ledger`, `Suppression`,
  `Occurrences`, `Timing`, `Placement`, `Pairs`): the correlation state machine as a class proved
  against a functional specification; key conservation, where every sighting of a run went and
  exactly why, when each occurrence is handed out and forgotten, and what its record says of the
  sightings.
- **Ingest and pipeline** (`Writes`, `WritesSound`, `Ingest`, `Pipeline`, `Acknowledgement`, `Daemon`): one
  transaction per crash, the companion fold, and acknowledgement safety and completeness over every interleaving
  of arrivals, timeouts and storage failures, down to the transaction, the crash and the received
  sightings behind each key.
- **Store** (`Tables`, `Ranks`, `Retention`, `RetentionSpec`, `Ceilings`, `Lifecycle`, `Store`, `StoreRuns`,
  `Identity`, `Histories`): the tables as maps, the retention sweep against a declarative
  specification, and the aggregate, payload, id, identity and history invariants in every state of
  every lifetime.
- **Pages** (`Search`, `Decimal`, `CursorText`, `Keyset`, `Listing`, `Clients`, `Walks`, `ListOrder`,
  `PackageWalks`): search, filters and order, cursor text and keyset walks over tables that change
  between pages.
- **Ids** (`TextOrder`, `Ids`): the monotone generator and its base32 text.
- **Bytes** (`Utf8`, `Chunks`, `ByteOrder`, `EventCodec`, `GroupKey`, `RollingLog`, `Masks`): UTF-8
  chunking, the binary event parser, the group-key stream, the rotating log and source masks.

Check the whole project with `dafny verify dfyconfig.toml`.

## Reading the model

State that the daemon changes in place is a class (`CrashMerger`, `CrashStore`, `IngestThread`,
`RecordIdGenerator`, `Cursor`, `Writer`) whose methods are proved equal to functions on values; the
theorems are about those functions. What the daemon takes from elsewhere is a parameter: `Env` and
`Fate` give the clock, enrichment, configuration, group id, the choice among equally near
companions, stored sizes and every point of failure.

Where the code differs from what its comments intend, the model follows the code:

- An empty frames or payload slot opened by a high-quality sighting is not filled by a lower-quality
  one. `FramesAsIntendedExactly` and `PayloadAsIntendedExactly` say when the intent is met,
  `LowerRankedPayloadIsLost` gives a concrete miss.
- Deleting by ids leaves the byte totals of groups alone. `DeleteByIdsExactly` says when they stay
  exact, `BytesBecomeInexact` gives a lifetime in which they do not.
- A record folded at another millisecond is stored again by a replay unless another row is its
  companion too or its source keys keep it away. `ReplayStoresExactly` is the exact condition,
  `ReplayIsStored` a concrete replay.
- A package name that holds `|` breaks the ascending cursor. `PackagesAtRestExactly` says when a
  listing by package is right all the same, `GroupListedTwice` gives one that is not.
- A log opened on a torn file at or over the limit rotates it as it is (`LinesStayWholeExactly`).
- The completions of a drain never enter the recent list, so nothing is absorbed by them.

## Model

| member | source | states |
|---|---|---|
| `Evidence.ChainIsOneOccurrence` | crates/cch_merge/src/lib.rs:326-340 | all sightings joined into one occurrence agree on kind and process, on every known user and on every nonzero pid |
| `Evidence.ChainSources` | crates/cch_merge/src/lib.rs:432-458 | the sources an occurrence names are exactly those of its sightings |
| `Evidence.ChainAnrFile` | crates/cch_merge/src/lib.rs:432-458 | the ANR file an occurrence remembers is the one every ANR-file sighting named |
| `Evidence.ChainRepeatsOnlyAnrFiles` | crates/cch_merge/src/lib.rs:432-458 | two sightings from one source in one occurrence are two reads of the same ANR file of an ANR |
| `Evidence.ChainSpan` | crates/cch_merge/src/lib.rs:432-475 | the span of an occurrence is at most one skew per further source plus one window per repeated ANR file |
| `Evidence.ChainSpanWithoutRepeats` | crates/cch_merge/src/lib.rs:432-475 | without a repeated ANR file, last minus first is at most (distinct sources - 1) times clamp(window, 0, 2000) |
| `Evidence.KeyCameFromFragment` | crates/cch_merge/src/lib.rs:459-501 | an occurrence carries a source key exactly when one of its sightings brought it |
| `Joining.JoinsExactly` | crates/cch_merge/src/lib.rs:432-458 | a waiting occurrence admits a sighting if and only if it fits its sightings: no contradiction in kind, process, known pid or known user, pid or user known on both sides, and either a collector not heard yet within max(0, min(window, 2000)) ms of the earliest, or the same ANR file within the window |
| `Joining.AbsorbsExactly` | crates/cch_merge/src/lib.rs:288-322 | a completion absorbs a sighting under exactly the same rule, with the whole window for a dropbox entry after an ANR file |
| `Timing.DelayExactly` | crates/cch_merge/src/lib.rs:502-531 | how long an occurrence waits, by its sightings: not at all when its kind's evidence is complete, 250 ms when a body with its user is there, otherwise the window |
| `Timing.OverdueExactly` | crates/cch_merge/src/lib.rs:179-194 | it is overdue if and only if the watermark is past its latest sighting plus that wait |
| `Reports.FinishReports` | crates/cch_merge/src/lib.rs:533-580 | completing an occurrence reports its sightings in every column: earliest time, exact sources, best-ranked versions, flags, summary, frames and payload, the largest drop count, and the defaults for package, user, system flag, grouping text and self-handling |
| `Reports.ReportIsUnique` | crates/cch_merge/src/lib.rs:533-580 | those conditions determine the record: two records that report the same sightings are equal |
| `Ranking.FieldsHoldWinners` | crates/cch_merge/src/lib.rs:347-371 | over any sequence of sightings each optional ranked field ends as the last-arriving value among the best-quality sightings that carry it |
| `Ranking.WinnerIsUnique` | crates/cch_merge/src/lib.rs:347-371 | that description determines the field: no other value meets it |
| `Ranking.SlotsHoldWinners` | crates/cch_merge/src/lib.rs:459-501 | frames and payload follow the same rule but always count the first sighting, even an empty one |
| `Ranking.SlotEmptyExactly` | crates/cch_merge/src/lib.rs:459-501 | a frames or payload slot stays empty exactly when the first sighting was empty and every later carrier had lower quality |
| `Ranking.FramesAsIntendedExactly` | crates/cch_merge/src/lib.rs:488-493 | the code keeps the frames its outer guard intends if and only if the first sighting had frames, no later one had, or a later carrier is at least as good as the first |
| `Ranking.PayloadAsIntendedExactly` | crates/cch_merge/src/lib.rs:488-493 | the same exact condition for the payload |
| `Ranking.LowerRankedPayloadIsLost` | crates/cch_merge/src/lib.rs:347-352 | a concrete pair of joining sightings whose lower-quality payload does not fill the empty slot |
| `Ranking.QualityAndDropsAreLargest` | crates/cch_merge/src/lib.rs:459-501 | the quality attached to the kind is the best seen and the drop count the largest reported |
| `Sorting.SortByTimeSorts` | crates/cch_merge/src/lib.rs:173-176 | sorting completions by time permutes them into time order |
| `Sorting.SortByTimeStable` | crates/cch_merge/src/lib.rs:190-193 | completions of one instant keep their order |
| `Merger.FlushPartitions` | crates/cch_merge/src/lib.rs:179-194 | a flush emits precisely the overdue occurrences, in time order; emitted and kept together are the previous pending multiset, despite swap_remove |
| `Merger.CrashMerger.FlushBefore` | crates/cch_merge/src/lib.rs:179-194 | the loop over swap_remove computes the specified flush: new pending, recents, ids and output |
| `Merger.CrashMerger.RetainRecent` | crates/cch_merge/src/lib.rs:180-181 | only completions whose window has not passed the watermark are kept, in order |
| `Merger.CrashMerger.FindPending` | crates/cch_merge/src/lib.rs:146-153 | the pass over the pending occurrences finds one exactly when one admits the fragment, and then the first of the nearest |
| `Merger.CrashMerger.FindRecent` | crates/cch_merge/src/lib.rs:158-163 | the same over the recent completions |
| `Merger.CrashMerger.IngestFragment` | crates/cch_merge/src/lib.rs:137-178 | one arrival: flush to its time, then place it |
| `Merger.CrashMerger.DrainAll` | crates/cch_merge/src/lib.rs:195-204 | every pending occurrence is completed in order without entering the recents |
| `Merger.CrashMerger.ConfirmPersisted` | crates/cch_merge/src/lib.rs:205-213 | the search marks the first recent completion with that id as stored, nothing else |
| `Merger.CrashMerger.RejectCompletion` | crates/cch_merge/src/lib.rs:214-219 | forgets the completion and the keys it had absorbed, nothing else |
| `Merger.CrashMerger.TakeConfirmedSuppressedKeys` | crates/cch_merge/src/lib.rs:220-236 | returns the absorbed keys of stored completions in order and keeps the rest |
| `Ledger.KeysConserved` | crates/cch_merge/src/lib.rs:137-254 | over every sequence of calls, counted with multiplicity, the keys taken in are those pending, emitted, suppressed, released, dropped by a rejection or turned away as duplicates |
| `Ledger.NoKeyLost` | crates/cch_merge/src/lib.rs:137-254 | every key ever ingested is pending, emitted, suppressed, released or dropped by a rejection |
| `Ledger.PendingKeysDisjoint` | crates/cch_merge/src/lib.rs:137-178 | in every reachable state the pending key lists are duplicate-free and pairwise disjoint |
| `Ledger.KeyPendingOnce` | crates/cch_merge/src/lib.rs:139-145 | no key is pending more than once |
| `Ledger.DuplicatesCovered` | crates/cch_merge/src/lib.rs:139-145 | a key turned away as a duplicate was pending then, so it is accounted for elsewhere |
| `Ledger.CompletionIdsExact` | crates/cch_merge/src/lib.rs:249-254 | each completion id issued so far was emitted exactly once and no other was |
| `Occurrences.SightingsAreSelected` | crates/cch_merge/src/lib.rs:137-178 | the sightings of an occurrence are a strictly increasing selection of the arrivals: all that joined it and no other |
| `Occurrences.PlaceSourced` | crates/cch_merge/src/lib.rs:139-178 | a placed sighting takes one role and leaves every completed occurrence with the sightings it had |
| `Occurrences.EverySightingIsPlaced` | crates/cch_merge/src/lib.rs:137-254 | over every run each arrived sighting has one role, and the pending, emitted and remembered occurrences are exactly what the arrivals in that role built, each a matching chain; a late sighting is of the same crash as the completion it came late for, and a repeated key was brought before |
| `Occurrences.SightingInOneOccurrence` | crates/cch_merge/src/lib.rs:137-254 | a sighting that joined is among the sightings of exactly one occurrence, and if that is completed it was emitted exactly once; keyless sightings included |
| `Occurrences.EmittedDescribesItsSightings` | crates/cch_merge/src/lib.rs:533-580 | every crash handed to the store reports the sightings that arrived for it in every column, and carries exactly their keys |
| `Occurrences.KeyWasBrought` | crates/cch_merge/src/lib.rs:459-501 | a key a crash carries came with one known arrival that joined it and is of the same occurrence as all its other sightings |
| `Occurrences.AbsorbedSharesCrash` | crates/cch_merge/src/lib.rs:288-322 | a sighting absorbed by a recent completion agrees with every sighting behind that completion on kind, process, known user and nonzero pid, and lies within the window of the first |
| `Placement.RoleExactly` | crates/cch_merge/src/lib.rs:139-178 | the role of a sighting by the sightings already there: a key that waits is turned away, else it joins the nearest waiting occurrence it fits, else the nearest remembered completion it fits absorbs it, else it opens an occurrence |
| `Placement.FlushExactly` | crates/cch_merge/src/lib.rs:179-194 | a flush hands out exactly the expired occurrences, remembers them, and forgets exactly the completions whose earliest sighting plus the window is past |
| `Placement.ArrivalExactly` | crates/cch_merge/src/lib.rs:137-178 | an arrival: expired occurrences first, then the role, then the joined occurrence is handed out at once exactly if it has nothing to wait for, and what is remembered afterwards |
| `Placement.EveryArrivalIsRight` | crates/cch_merge/src/lib.rs:137-178 | the same at every point of every run |
| `Placement.OpenOccurrencesWait` | crates/cch_merge/src/lib.rs:502-531 | between calls every open occurrence has evidence worth waiting for |
| `Placement.HandedOutInOrder` | crates/cch_merge/src/lib.rs:172-204 | what one call hands out is in time order |
| `Pairs.TwoSightings` | crates/cch_merge/src/lib.rs:137-178 | two sightings from different collectors on a fresh merger end in one occurrence if and only if they agree and lie at most max(0, min(window, 2000)) ms apart (the rule for negative windows written out), and in two otherwise |
| `Pairs.OneOccurrenceNamesBoth` | crates/cch_merge/src/lib.rs:137-178 | while the first waits, the one occurrence, pending or handed out, names both collectors |
| `Suppression.ReleaseIsSafe` | crates/cch_merge/src/lib.rs:220-236 | in every reachable state a key that would be released belongs to a completion that was confirmed and never rejected |
| `Pipeline.AcknowledgementsAreSafe` | crates/cch_daemond/src/collectors.rs:150-196 | over every interleaving of arrivals, timeouts and storage outcomes, a marked key was marked before, is carried by a crash the log shows stored, folded or excluded, or was freed after its owner was confirmed and never refused; between steps nothing is left suppressed |
| `Pipeline.NoSourceIsForgotten` | crates/cch_daemond/src/collectors.rs:98-196 | every key received is still pending, was recorded with its crash, was given up because the store refused its crash, waits to be marked, or has been in the ingested table since |
| `Pipeline.EveryFreedKeyIsMarked` | crates/cch_daemond/src/collectors.rs:172-196 | over every step each key waiting before it or freed in it is in the ingested table afterwards unless its marking failed, those that failed wait once more in order, and the table gains nothing else |
| `Acknowledgement.MarkedWithItsCrash` | crates/cch_daemond/src/core.rs:349-416 | every commit in the log is one transaction of that run that put the crash into the store, as a row with its columns and text under an id no row had, or into a nearest companion that gained its sources and, if it had no text, its text, together with all its source keys; every dismissal is a configured exclusion that touched only keys |
| `Acknowledgement.DaemonSourced` | crates/cch_daemond/src/collectors.rs:98-196 | in every run of the daemon the merger's state, the recorded crashes and the freed keys come from the sightings the steps received, each in one role |
| `Acknowledgement.StepHandsOut` | crates/cch_daemond/src/collectors.rs:108-142 | which crashes a step hands to the store: on an arrival the expired ones and the one the sighting completed, on a timeout exactly the expired ones, on stopping all |
| `Acknowledgement.CommitDescribesItsSightings` | crates/cch_daemond/src/collectors.rs:150-170 | every crash stored, folded or dismissed was merged from sightings received no later than the step that recorded it, reports them in every column and carries exactly their keys |
| `Acknowledgement.MarkedKeyWasReceived` | crates/cch_daemond/src/collectors.rs:98-170 | each key of a recorded crash was received, no later than that step, with a sighting that is one of the crash's and of the same occurrence as all its others |
| `Acknowledgement.FreedWithItsCrash` | crates/cch_merge/src/lib.rs:205-235 | a late key is acknowledged on the strength of another crash only if a step received its sighting, it came late for that crash, whose received sightings are all of the same occurrence within the window, and that crash was stored, folded or excluded |
| `Acknowledgement.AcknowledgedForItsCrash` | crates/cch_daemond/src/collectors.rs:98-196 | end to end: a key enters the ingested table only if a step received a sighting with it, and a crash was stored, folded or excluded that this sighting is one of or came late for, all of whose received sightings are of the same occurrence |
| `Daemon.IngestThread.FindCompanion` | crates/cch_store/src/write.rs:243-281 | the scan returns a nearest qualifying row exactly when one qualifies |
| `Daemon.IngestThread.IngestCrash` | crates/cch_daemond/src/core.rs:349-416 | the step-by-step ingest leaves the store and answer the specification gives |
| `Daemon.IngestThread.RecordAccepted` | crates/cch_daemond/src/core.rs:374-416 | fold, or insert and then sweep; a failed sweep does not fail the ingest |
| `Daemon.IngestThread.PersistCrash` | crates/cch_daemond/src/collectors.rs:157-171 | one crash is ingested and the merger told the outcome |
| `Daemon.IngestThread.PersistEach` | crates/cch_daemond/src/collectors.rs:157-171 | the loop over completed crashes is the specified fold over them |
| `Daemon.IngestThread.MarkSourceKeys` | crates/cch_daemond/src/collectors.rs:181-196 | keys whose marking succeeds are marked, the others wait in order |
| `Daemon.IngestThread.PersistCompleted` | crates/cch_daemond/src/collectors.rs:150-179 | persist, release, mark: the specified new state of merger, store and waiting keys |
| `Daemon.IngestThread.TakeStep` | crates/cch_daemond/src/collectors.rs:108-142 | one turn of the ingest loop refines one step of the pipeline |
| `Ingest.IngestSound` | crates/cch_daemond/src/core.rs:349-416 | whatever its outcome, one ingest keeps every store invariant |
| `Ingest.CommitsTogether` | crates/cch_store/src/write.rs:174-182 | a crash and its keys commit together: without a companion as a new row with its columns and text in a group that gains it, with one in a nearest companion that gains its sources and adopts its text if it had none; a failure of an accepted crash changes no row, group or key; an exclusion touches keys only |
| `Ingest.StoredColumns` | crates/cch_store/src/write.rs:125-153 | a stored row carries the versions enrichment found and all else as the crash brought it, and says whether its group was there before |
| `Ingest.FoldsExactly` | crates/cch_store/src/write.rs:243-281 | a recorded crash is folded if and only if a stored row is a second view of it: equal pid, process, kind and user, and the same millisecond, or for a Java or native crash at most 10000 ms apart with no source in common; then into a nearest one |
| `Ingest.ReingestAddsNothing` | crates/cch_daemond/src/core.rs:374-397 | an accepted record with nonzero pid that agrees with a stored row on pid, process, kind, user and millisecond adds no row, group or occurrence |
| `Ingest.FoldIsLocal` | crates/cch_store/src/write.rs:324-378 | a fold targets a nearest qualifying row, adds exactly the record's sources to it, gives it the record's text exactly if it never had one, and changes no other row or count |
| `Ingest.SurvivorsFoldExactly` | crates/cch_daemond/src/core.rs:1226-1231 | an ANR or WTF folds only on an exact millisecond |
| `Ingest.FoldTargetAgain` | crates/cch_store/src/write.rs:335-339 | the row a record was folded into qualifies for it again if and only if their milliseconds are equal or the record names no source |
| `Ingest.ReplayFindsCompanion` | crates/cch_store/src/write.rs:230-281 | after a fold the same record finds a companion again if and only if the target had its millisecond, another stored row qualified too, or it names no source |
| `Ingest.ReplayStoresExactly` | crates/cch_daemond/src/core.rs:374-416 | so a second reading, if it does not fail, adds a second row exactly when none of these holds |
| `Ingest.ReplayIsStored` | crates/cch_store/src/write.rs:230-281 | a concrete miss: an event, its dropbox entry half a second later folded into it, and the entry read again stored as a second row |
| `Writes.CompanionExists` | crates/cch_store/src/write.rs:243-281 | a nearest qualifying row exists exactly when some row qualifies |
| `Writes.WriteTouchesOwnFile` | crates/cch_store/src/payload.rs:66-121 | a payload write, and the clean-up after a failed one, touches no file but the record's own |
| `Writes.FoldAdopts` | crates/cch_store/src/write.rs:296-358 | a successful fold gives a row without payload the truncated text under its own path, marked as cut exactly when cut, with the stored size charged to its group; otherwise payload columns, files and groups stay as they are |
| `Writes.InsertHolds` | crates/cch_store/src/write.rs:36-58 | a successful insert does the same for its row, or leaves it without payload if there is no text |
| `Writes.FailedInsertLeavesNoFile` | crates/cch_store/src/write.rs:46-66 | a failed transaction takes its payload file with it if the clean-up works |
| `Writes.MarkAllMarks` | crates/cch_store/src/write.rs:400-412 | marking adds exactly the given keys, new ones at this time, known ones unchanged |
| `Writes.UpsertGains` | crates/cch_store/src/write.rs:87-124 | an insert begins its group or adds one occurrence to it: earliest and latest sighting, latest known summary, latest flags, bytes |
| `WritesSound.NewIdIsFresh` | crates/cch_store/src/lib.rs:187-190 | a new id is strictly greater than every stored id |
| `WritesSound.NewIdCarriesTime` | crates/cch_store/src/write.rs:36-45 | a new id carries the time of its crash, zero if negative, or the latest id's time if that is later |
| `WritesSound.InsertSound` | crates/cch_store/src/write.rs:36-190 | an insert, committed or failed, keeps aggregates, payload ownership and id order |
| `WritesSound.FoldSound` | crates/cch_store/src/write.rs:288-378 | so does a fold |
| `Store.CrashStore.InsertRecord` | crates/cch_store/src/write.rs:36-190 | id, file, group upsert, row and keys: the specified new store or the specified failure |
| `Store.CrashStore.FoldIntoRecord` | crates/cch_store/src/write.rs:288-378 | payload adoption, source union, byte charge and keys: the specified new store or failure |
| `Store.CrashStore.MarkKeys` | crates/cch_store/src/write.rs:400-412 | unknown keys are marked now, known ones keep their time |
| `Store.CrashStore.WriteFile` | crates/cch_store/src/payload.rs:66-121 | the truncated text under the record's path, or the failure |
| `Store.CrashStore.DeleteRecords` | crates/cch_store/src/retention.rs:124-170 | files unlinked, rows removed and group bytes discharged row by row equal the set-level removal; the count is exact |
| `Store.CrashStore.EvictUntilFreed` | crates/cch_store/src/retention.rs:229-260 | the oldest-first loop evicts exactly the specified payloads and counts them and their bytes |
| `Store.CrashStore.EvictPayloadFiles` | crates/cch_store/src/retention.rs:206-262 | payloads are evicted only beyond the quota |
| `Store.CrashStore.PruneSourceKeys` | crates/cch_store/src/retention.rs:105-122 | per key: a marker stays, a log key stays for its own day, any other for the window; survivors keep their time, and the count is exact |
| `Store.CrashStore.DropEmptyGroupsBefore` | crates/cch_store/src/retention.rs:275-285 | exactly the groups last seen before the cutoff with no row are dropped |
| `Store.CrashStore.TrimRows` | crates/cch_store/src/retention.rs:65-72 | age, per-group and total ceilings in that order |
| `Store.CrashStore.SweepNow` | crates/cch_store/src/retention.rs:57-96 | the whole sweep, and its exact counts of rows, groups, payloads, reclaimed bytes and keys |
| `Store.CrashStore.DeleteIds` | crates/cch_store/src/read.rs:263-279 | delete by ids: rows and files, then groups left without a row, with exact counts |
| `Store.CrashStore.DeleteGroup` | crates/cch_store/src/read.rs:236-284 | delete of one group with its rows and files, with exact counts |
| `Store.CrashStore.DeleteEverything` | crates/cch_store/src/read.rs:236-284 | delete of everything, with exact counts |
| `Store.CrashStore.LatestId` | crates/cch_store/src/lib.rs:230-236 | finds the stored id whose text sorts last |
| `Store.CrashStore.ResumeIds` | crates/cch_store/src/lib.rs:230-244 | resumes the generator from it |
| `Store.CrashStore.RemoveOrphans` | crates/cch_store/src/payload.rs:264-291 | exactly the referenced files remain and the count is exact |
| `Store.CrashStore.Reopen` | crates/cch_store/src/lib.rs:127-159 | opening is resuming the ids, whatever the last generator was, and removing orphans; the count is exact |
| `Retention.DischargeExact` | crates/cch_store/src/retention.rs:156-167 | what a group is discharged never exceeds what it holds, so MAX(0, ...) never clips |
| `Retention.RemoveSound` | crates/cch_store/src/retention.rs:124-170 | removing rows keeps every store invariant |
| `Retention.EvictSound` | crates/cch_store/src/retention.rs:206-262 | evicting payloads keeps every store invariant |
| `Retention.SweepSound` | crates/cch_store/src/retention.rs:57-96 | a sweep keeps every store invariant |
| `RetentionSpec.TrimmedRows` | crates/cch_store/src/retention.rs:65-72 | the three row ceilings leave exactly the newest max_total of the newest max_per_group of each group's in-window rows |
| `RetentionSpec.ReclaimedPrefix` | crates/cch_store/src/retention.rs:229-260 | the evicted payloads are an oldest-first prefix of the candidates |
| `RetentionSpec.ReclaimedEnough` | crates/cch_store/src/retention.rs:229-260 | they free enough, or all are given up |
| `RetentionSpec.ReclaimedNeeded` | crates/cch_store/src/retention.rs:229-260 | none is given up in vain: the older ones had not freed enough |
| `RetentionSpec.SweepRows` | crates/cch_store/src/retention.rs:57-96 | after a sweep the rows are exactly the declared survivors, unchanged but for reclaimed payloads |
| `RetentionSpec.SweepKeepsNewer` | crates/cch_store/src/retention.rs:57-96 | a sweep takes a group's history from its old end: with a row, every newer row of its group survives |
| `RetentionSpec.SweepFits` | crates/cch_store/src/retention.rs:206-262 | after a sweep the indexed payload bytes are within quota |
| `RetentionSpec.SweepGroups` | crates/cch_store/src/retention.rs:275-285 | a group goes exactly when last seen before the window with no surviving row; in the others only payload_bytes changes, so occurrence and first_seen never do |
| `RetentionSpec.SweepTwice` | crates/cch_store/src/retention.rs:57-96 | a second sweep at the same instant changes nothing |
| `Ceilings.RowSurvivesExactly` | crates/cch_store/src/retention.rs:57-96 | a row survives if and only if it is at most days x 86400000 ms old, fewer than max_per_group such rows of its group are newer, and fewer than max_total of the rows that meet both are newer |
| `Ceilings.GroupSurvivesExactly` | crates/cch_store/src/retention.rs:275-285 | a group goes if and only if it was last seen before that window and no row of it survives |
| `Ceilings.KeySurvivesExactly` | crates/cch_store/src/retention.rs:98-122 | a source key survives for ever as a marker, for 86400000 ms as a log entry and for the configured days otherwise |
| `Lifecycle.DeleteWholeAggregates` | crates/cch_store/src/read.rs:236-284 | deleting all or one group keeps the aggregates, exact bytes included |
| `Lifecycle.DeleteExactly` | crates/cch_store/src/read.rs:236-284 | a delete removes exactly the rows asked for with their files, and the groups asked for or left without a row; everything else is as it was |
| `Lifecycle.DeleteByIdsAggregates` | crates/cch_store/src/read.rs:263-279 | deleting by ids keeps the aggregates with payload_bytes as an upper bound |
| `Lifecycle.DeleteByIdsExactly` | crates/cch_store/src/read.rs:263-279 | byte totals stay exact under a delete by ids if and only if no group that keeps a row loses payload bytes |
| `Lifecycle.LatestTextIsLargest` | crates/cch_store/src/lib.rs:225-236 | the textual maximum of the ids is the numeric maximum |
| `Lifecycle.OpenFilesExact` | crates/cch_store/src/lib.rs:149-157 | after opening the shard files are exactly the referenced set |
| `Lifecycle.OpenSound` | crates/cch_store/src/lib.rs:127-159 | opening makes every store invariant hold, whatever the last generator was |
| `StoreRuns.SoundAlways` | crates/cch_store/src/write.rs:87-153 | in every state of every lifetime: occurrence covers the surviving rows, first_seen and last_seen bracket them, payload_bytes is at least their sum, a path is set exactly for readable payloads and names an existing file of that record, ids are behind the generator |
| `StoreRuns.BytesExact` | crates/cch_store/src/write.rs:341-358 | without delete-by-ids group payload_bytes equals the sum over its rows |
| `StoreRuns.BytesBecomeInexact` | crates/cch_store/src/read.rs:263-279 | a concrete lifetime of two stored crashes and a delete by id after which a group's bytes exceed the sum over its rows |
| `StoreRuns.IdsGrowAlways` | crates/cch_store/src/lib.rs:187-190 | over any mix of clocks, ingests, sweeps, deletions and restarts each new id exceeds every stored id and its file is nobody's |
| `StoreRuns.FilesHaveOneOwner` | crates/cch_store/src/payload.rs:362-370 | no file is shared by two rows, and each referenced file exists |
| `StoreRuns.RestartSweepsOrphans` | crates/cch_store/src/lib.rs:149-157 | after a restart the files are exactly the referenced ones |
| `StoreRuns.PayloadKeepsItsBytes` | crates/cch_store/src/payload.rs:66-121 | while a row refers to its payload the file is never rewritten, whatever else the store does |
| `StoreRuns.InsertedPayload` | crates/cch_store/src/write.rs:36-58 | what an insert stores: the truncated text, a path exactly when there is text, Truncated exactly when it was cut |
| `StoreRuns.KeysStayUntilPruned` | crates/cch_store/src/retention.rs:98-122 | in every lifetime a marked source key keeps its time and stays marked, through ingests, deletions and restarts, until a sweep comes after its lifetime |
| `StoreRuns.MarkersStay` | crates/cch_store/src/retention.rs:98-122 | one-time markers are never forgotten |
| `Histories.GroupTellsItsHistory` | crates/cch_store/src/write.rs:87-124 | in every lifetime, from its first crash on and as long as it stays, a group counts the crashes stored into it, spans exactly their earliest and latest, keeps the identity of the first, the flags of the latest and the latest known summary, whatever sweeps and deletions took |
| `Histories.InsertThenSweeps` | crates/cch_daemond/src/core.rs:398-416 | a stored crash is followed by the sweep, after which exactly the surviving rows are left, within the quota; nothing else sweeps |
| `Identity.GroupIdSeparates` | crates/cch_model/src/fingerprint.rs:181-196 | two records share a group id only if package, process, user and kind are equal, short of a collision of digests |
| `Identity.GroupCarriesIdentity` | crates/cch_store/src/write.rs:87-107 | in every lifetime the group an ingest goes into already carries the package, process, user and kind of its record |
| `Identity.RowKeepsDescribing` | crates/cch_store/src/write.rs:243-281 | a row that agrees with a crash on pid, process, kind, user and millisecond does so for as long as it stays |
| `Identity.ReadAgainAddsNothing` | crates/cch_daemond/src/core.rs:374-397 | end to end: once a crash was put into a row of its millisecond, ingesting it again while that row stays adds no row, group or occurrence |
| `Tables.RelativePathInjective` | crates/cch_store/src/payload.rs:362-370 | distinct ids have distinct payload paths |
| `Ids.DecodeEncode` | crates/cch_model/src/id.rs:53-71 | decode(encode(v)) = v for every v below 2^128 |
| `Ids.EncodeOrder` | crates/cch_model/src/id.rs:62-71 | text order is numeric order, and encoding is injective |
| `Ids.EncodeText` | crates/cch_model/src/id.rs:62-71 | the digit loop computes the encoding |
| `Ids.DecodeText` | crates/cch_model/src/id.rs:53-60 | the accumulator loop computes the decoding, or rejects |
| `Ids.NextIncreasesExactly` | crates/cch_model/src/id.rs:124-133 | the next id exceeds the last if and only if a clock of 2^48 or more does not wrap onto an earlier stamp than the last and the 80-bit sequence is not exhausted at that stamp |
| `Ids.IdCarriesTime` | crates/cch_model/src/id.rs:124-133 | the upper 48 bits of an id are the time it was taken, or the latest before it if the clock went back, and the lower 80 count within the millisecond |
| `Ids.ResumeIsMax` | crates/cch_model/src/id.rs:113-121 | resuming lands on the larger of the two positions |
| `Ids.RecordIdGenerator.NextId` | crates/cch_model/src/id.rs:124-133 | updates the generator as specified and prints its value |
| `Ids.RecordIdGenerator.Resume` | crates/cch_model/src/id.rs:113-121 | moves forward only, and ignores what does not decode |
| `Search.LikePattern` | crates/cch_store/src/sql.rs:187-198 | the loop builds the escaped pattern |
| `Search.PatternMatchesSubstring` | crates/cch_store/src/sql.rs:187-198 | under LIKE with ESCAPE the built pattern matches a text if and only if the query occurs in it up to ASCII case |
| `Listing.SearchIsSubstring` | crates/cch_store/src/sql.rs:110-127 | the search keeps a group if and only if the query occurs in its package, summary class or summary text |
| `ListOrder.KeepsExactly` | crates/cch_store/src/sql.rs:54-130 | the filter keeps exactly the groups that meet each restriction asked for: user apps always, preinstalled apps and processes without a package on request, search as substring |
| `ListOrder.TimeIsOverlap` | crates/cch_store/src/sql.rs:46-92 | a time range asks for the groups whose span overlaps it |
| `Listing.EffectiveLimit` | crates/cch_wire/src/query.rs:255-265 | 50 rows when none are asked, the asked number from 1 to 200, and 200 beyond |
| `Listing.ListGroupsIsKeyset` | crates/cch_store/src/read.rs:37-71 | the group query, with its keyset clause and next cursor, returns the keyset page of the filtered groups |
| `Listing.ListRecordsIsKeyset` | crates/cch_store/src/read.rs:78-129 | the record query returns the keyset page of the group's records |
| `Keyset.FetchFaithful` | crates/cch_store/src/read.rs:59-70 | a page is ordered, after its cursor, from the table, and skips nothing before its end |
| `Keyset.FetchShape` | crates/cch_store/src/read.rs:59-70 | a page is the first rows up to its size, with a cursor at its last row exactly when rows are left |
| `Keyset.WalkAdvances` | crates/cch_store/src/sql.rs:137-161 | however the table changes between pages, positions strictly advance |
| `Keyset.StableRowListedOnce` | crates/cch_store/src/sql.rs:137-161 | a row present throughout with an unchanged key is returned exactly once by a finished walk |
| `Keyset.StaticWalkIsTheSort` | crates/cch_store/src/read.rs:37-71 | over a table at rest the walk ends and its pages concatenate to the sorted rows |
| `Keyset.OrderedUnique` | crates/cch_store/src/sql.rs:172-176 | the order by sort column and id admits exactly one listing |
| `Walks.ClientSeesTheWalk` | crates/cch_wire/src/query.rs:145-203 | a client echoing printed cursors sees the keyset walk when every row's cursor survives its text |
| `Walks.GroupListedOnce` | crates/cch_store/src/read.rs:37-71 | asking the group list page by page through printed cursors, for every sort and limits, names a matching group that stays with its sort column exactly once |
| `Walks.GroupsAtRest` | crates/cch_store/src/read.rs:37-71 | asked for groups at rest, the pages concatenate to the filtered sorted list and end; only an unusable filter is refused |
| `ListOrder.GroupsAreOrdered` | crates/cch_store/src/sql.rs:160-173 | over groups at rest a client holds matching groups ordered by last seen, first seen or occurrence, descending, or by package, ascending, ties by id in the same direction, and every matching group once done |
| `Walks.RecordListedOnce` | crates/cch_store/src/read.rs:78-129 | asking for a group's records names each that stays exactly once |
| `Walks.RecordsAtRest` | crates/cch_store/src/read.rs:78-129 | asked for records at rest, the pages concatenate to the group's records, newest first, and end |
| `ListOrder.RecordsAreOrdered` | crates/cch_store/src/read.rs:78-129 | over records at rest a client holds the group's records newest first, ties by id, and every one once done |
| `Walks.RowAheadOfItsOwnCursor` | crates/cch_wire/src/query.rs:133-138 | the echoed cursor of a row admits that same row again if and only if its package name holds the separator |
| `PackageWalks.PackagesAtRestExactly` | crates/cch_wire/src/query.rs:133-203 | listing groups at rest by package is right for every choice of limits if and only if no name but the last of the sorted list holds the separator |
| `PackageWalks.RowComesAgain` | crates/cch_wire/src/query.rs:133-203 | at the first such name a client that asks for one row a page is given a row it has already |
| `PackageWalks.GroupListedTwice` | crates/cch_wire/src/query.rs:133-203 | a concrete pair of groups whose first is listed twice |
| `CursorText.ParsePrint` | crates/cch_wire/src/query.rs:163-203 | what every printed cursor is read back as |
| `CursorText.PrintedText` | crates/cch_wire/src/query.rs:145-165 | the text of a cursor: version 1, the sort's name, the kind of anchor, the anchor and the tiebreak |
| `CursorText.RoundTripExactly` | crates/cch_wire/src/query.rs:145-203 | a cursor survives its text if and only if its integer anchor is 64-bit or its text anchor has no separator |
| `CursorText.SeparatorShiftsTheAnchor` | crates/cch_wire/src/query.rs:163-203 | otherwise the anchor is cut at the separator and the rest slides into the tiebreak |
| `Decimal.ParseShow` | crates/cch_wire/src/query.rs:192-194 | an integer printed in decimal parses back if and only if it fits 64 bits |
| `Utf8.BoundaryExactly` | crates/cch_store/src/payload.rs:386-392 | in well-formed text the byte test finds exactly the positions between characters |
| `Chunks.Truncate` | crates/cch_store/src/payload.rs:372-384 | the backward loop computes the specified cut |
| `Chunks.TruncateLongest` | crates/cch_store/src/payload.rs:372-384 | the cut keeps the longest whole-character prefix that fits, or is raw exactly when not even one character fits |
| `Chunks.TruncateWhole` | crates/cch_store/src/payload.rs:372-384 | a limit of four or more never splits a character |
| `Chunks.ReadChunkProgress` | crates/cch_store/src/payload.rs:138-158 | every nonzero request progresses and returns exactly the bytes it passed |
| `Chunks.ReadChunkKeepsCharacters` | crates/cch_store/src/payload.rs:138-158 | a request of four or more that starts between characters ends between characters |
| `Chunks.ReadThroughHandle` | apps/manager/app/src/main/kotlin/io/github/lingqiqi5211/crashcatcher/data/daemon/DaemonRepositories.kt:231-253 | the chunk loop ends and returns the specified chunks |
| `Chunks.ChunksConserve` | apps/manager/app/src/main/kotlin/io/github/lingqiqi5211/crashcatcher/data/daemon/DaemonRepositories.kt:231-253 | for every request size the chunks join to the payload from the offset on |
| `Chunks.ChunksAreWhole` | apps/manager/app/src/main/kotlin/io/github/lingqiqi5211/crashcatcher/data/daemon/DaemonRepositories.kt:231-253 | from four bytes on no chunk of well-formed text splits a character |
| `Chunks.FindLastCharBoundary` | apps/manager/app/src/main/kotlin/io/github/lingqiqi5211/crashcatcher/data/daemon/DaemonRepositories.kt:287-306 | the backward scan computes the specified boundary |
| `Chunks.LastCharBoundaryOfPrefix` | apps/manager/app/src/main/kotlin/io/github/lingqiqi5211/crashcatcher/data/daemon/DaemonRepositories.kt:287-306 | on any prefix of well-formed text it finds the last character boundary, at most three bytes back |
| `Chunks.ReadThroughDescriptor` | apps/manager/app/src/main/kotlin/io/github/lingqiqi5211/crashcatcher/data/daemon/DaemonRepositories.kt:177-214 | the carry loop emits the specified pieces |
| `Chunks.DescriptorConserves` | apps/manager/app/src/main/kotlin/io/github/lingqiqi5211/crashcatcher/data/daemon/DaemonRepositories.kt:177-214 | for every split into reads what is emitted and held back joins to what was read |
| `Chunks.DescriptorHoldsBackLittle` | apps/manager/app/src/main/kotlin/io/github/lingqiqi5211/crashcatcher/data/daemon/DaemonRepositories.kt:177-214 | after every read of well-formed text the emitted pieces are whole characters and at most three bytes are carried |
| `Chunks.DescriptorShowsCharacters` | apps/manager/app/src/main/kotlin/io/github/lingqiqi5211/crashcatcher/data/daemon/DaemonRepositories.kt:177-214 | at the end everything shown is whole characters |
| `Chunks.ReadersAgree` | apps/manager/app/src/main/kotlin/io/github/lingqiqi5211/crashcatcher/data/daemon/DaemonRepositories.kt:177-253 | both readers show the decoded payload, for every request size from four bytes and every split |
| `EventCodec.Cursor.ReadByte` | crates/cch_logd/src/lib.rs:70-78 | one byte, or Truncated at the end, never past it |
| `EventCodec.Cursor.Read` | crates/cch_logd/src/lib.rs:79-94 | the asked bytes, or LengthOutOfBounds without moving |
| `EventCodec.ParseStringAt` | crates/cch_logd/src/event.rs:147-167 | agrees with the string grammar, value or error |
| `EventCodec.ParseListAt` | crates/cch_logd/src/event.rs:168-181 | the loop over elements agrees with the list grammar, value or first error |
| `EventCodec.ParseValueAt` | crates/cch_logd/src/event.rs:140-188 | the recursive parser terminates and agrees with the grammar, value or error |
| `EventCodec.ParseEventPayload` | crates/cch_logd/src/event.rs:133-138 | tag and value; trailing bytes are ignored |
| `EventCodec.ParseExactly` | crates/cch_logd/src/event.rs:140-188 | the parser yields a value and an end if and only if that value is within the depth, string and list limits and its encoding stands there and ends there |
| `EventCodec.PayloadExactly` | crates/cch_logd/src/event.rs:133-138 | the same for a whole event: decoding inverts encoding and re-encodes to what it consumed |
| `EventCodec.RoundTrip` | crates/cch_logd/src/event.rs:306-315 | every event within the limits survives, whatever follows it |
| `EventCodec.WireBytes` | crates/cch_logd/src/event.rs:11-15 | the bytes of each value: type byte 0 to 4, two's complement least significant first, length and text, count and elements |
| `GroupKey.HashInput` | crates/cch_model/src/fingerprint.rs:181-196 | the feeding loop produces the specified stream |
| `GroupKey.PreImageInjective` | crates/cch_model/src/fingerprint.rs:181-196 | two keys feed the same bytes only if package, process, user, kind, primary and the whole frame list are equal |
| `GroupKey.SampleStream` | crates/cch_model/src/fingerprint.rs:181-196 | the bytes of one key, field by field |
| `RollingLog.Writer.RotateFiles` | crates/cch_daemond/src/logsink.rs:65-81 | the top-down renames shift every copy one further, drop the one at the limit and start an empty live file |
| `RollingLog.Writer.WriteBytes` | crates/cch_daemond/src/logsink.rs:84-95 | rotate when due, then append what the file took |
| `RollingLog.KeptIsASuffix` | crates/cch_daemond/src/logsink.rs:65-95 | the files, oldest to newest, always concatenate to a suffix of the initial contents plus all bytes written |
| `RollingLog.RotatesExactly` | crates/cch_daemond/src/logsink.rs:84-95 | a write rotates if and only if the live file has reached the limit and what was written since opening ends a line; then every copy moves one further and the write starts the new file |
| `RollingLog.LiveStaysSmall` | crates/cch_daemond/src/logsink.rs:84-95 | written in whole lines, the live file outgrows the limit by at most one write |
| `RollingLog.LinesStayWholeExactly` | crates/cch_daemond/src/logsink.rs:31-36 | no rotated file ever splits a line, in any sequence of writes, if and only if the file found at opening is empty, newline-terminated or below the size limit |
| `RollingLog.CopiesStayWithinLimit` | crates/cch_daemond/src/logsink.rs:65-75 | copies stay at the indices 1 to max_files if they were there at opening |
| `Masks.SourcesRoundTrip` | crates/cch_model/src/kind.rs:50-80 | a set of sources survives its bit mask |
| `Masks.StoredBits` | crates/cch_model/src/kind.rs:54-62 | the bit of each source |
| `Masks.MaskRoundTrip` | crates/cch_model/src/kind.rs:78-80 | reading and writing a mask drops exactly the unknown bits |
| `Masks.UnionIsUnion` | crates/cch_model/src/kind.rs:88-90 | the bitwise union is the union of the sets |
| `Masks.IntersectsExactly` | crates/cch_model/src/kind.rs:98-100 | masks, one of them of known bits, intersect if and only if their sets share a source |
| `Masks.ContainsExactly` | crates/cch_model/src/kind.rs:83-85 | a mask contains another of known bits if and only if its set does |

## Left out

- Pipeline.AcknowledgementsAreSafe: the ingest thread's own steps only; user deletions and settings changes between two steps are not interleaved, and the artefact and log readers that mark keys by themselves are not modelled.
- Pipeline.NoSourceIsForgotten: a key whose marking keeps failing stays in the waiting list; that a later attempt succeeds is not claimed.
- StoreRuns.IdsGrowAlways: needs timestamps below 2^48 ms and an unexhausted 80-bit sequence; `Ids.NextIncreasesExactly` gives the exact condition.
- Ledger.CompletionIdsExact: the 64-bit completion counter is unbounded, so its wrap-around is not modelled.
- Fragments carry one source each, as every collector builds them; a fragment with several source bits is not modelled.
- Writes.CompanionExists: window arithmetic of the SQL query is on unbounded integers; overflow of 64-bit timestamps near the ends of their range is not modelled.
- Retention.SweepSound: the policy is taken already clamped, and a sweep or delete interrupted half-way (an unlink error, a power loss between unlinking a file and deleting its row) is not modelled; a sweep that fails after an insert is modelled as doing nothing.
- Store.CrashStore.RemoveOrphans: every unlink succeeds; the code logs a failed one and goes on.
- Listing.SearchIsSubstring: the query is taken already trimmed; text with embedded NUL characters is not modelled.
- Chunks.ReadersAgree: the payload is well-formed UTF-8; the replacement characters of lossy decoding are not modelled.
- RollingLog.KeptIsASuffix: renames and reopening succeed, as the code ignores their failures.
- EventCodec.ParseValueAt: the check that a list has at most 255 elements cannot fail on a one-byte count and is not a branch of its own; a float is its bits.
- Identity.GroupCarriesIdentity: that no two group keys of one lifetime share a digest is taken as given, and the bytes of strings and the normalised frames are parameters.
- GroupKey.PreImageInjective: SHA-256 and its truncation to 32 hex digits are not modelled; frame normalisation, framework filtering and the shortening of summaries come before the key.
- SQLite itself, migrations, pragmas and VACUUM: tables are maps and transactions are atomic steps.
- zstd and gzip: a payload file holds the text that reading it back yields; its compressed size is a parameter.
- Mutes, statistics, package roll-ups, storage status and single-row reads: easy queries over the same tables.
- Text scrapers, sockets, descriptors, inotify, authentication, the bridge, configuration and the manager's screens.
