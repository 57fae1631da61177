# Verified models of the notebooklm client and its video pipeline

Each module models one self-contained algorithm or protocol of the repository and proves what it is
for. Code that changes state step by step is a method or a class here and is proved equal to a
specification function; what the code promises is then proved about that function, about every run of
a step relation, or against an independent definition.

- `Signatures`: the compatibility verdict on two signatures, measured against Python's own argument
  binding (Python Language Reference, section 6.3.4; PEP 570).
- `Allowances`: approving breaks, finding stale allowances, pruning them.
- `ResumableUpload`: a crash-recovery protocol between a saved record and upload sessions; byte ranges
  as in section 14.4 of RFC 9110.
- `AtomicFile`: an atomic write on a file system that forgets what was not synced.
- `LockedUpdate`: read-modify-write of a JSON file by many processes under one lock.
- `DurableUpdate`: the same calls on that file system, with the power failing at any moment.
- `CookieSaves`: saves numbered at dispatch and run by workers in any order.
- `TopicHistory`: choosing a topic a day, with a 90-day window over a pruned history.
- `WorkflowScan`: a one-pass scanner of workflow files, with block scalars and deferred verdicts.
- `ConversationCache`: an LRU cache with two caps.
- `MergeItems`: a round-robin merge without duplicates.
- `ProgramMarker`: a marker line printed by one program and read back by another.
- `IdempotentCreate`: probe-then-retry creation, and the registry that turns transport retries off.
- `TreePaths`: reading a file tree drawn in box characters.
- `PyText`, `Options`: the Python string operations and the option type that these share.

Where a property turned out false of the code, the code is modelled as it is, a lemma gives the inputs
on which it fails, and another says exactly when it holds. These are the places:

- A clean verdict on two signatures is right exactly when the lists have no blind spot
  (`Signatures.VerdictExact`); three ways to be passed wrongly and one to be reported wrongly are
  `OptionalPositionalOnlyMissed`, `ReusedNameMissed`, `MovedBehindStarMissed` and `SwallowedNameReported`.
- When a session has expired, the upload's offset becomes `None`, so that run stops after saving the new
  session and the next run finishes (`ResumableUpload.Uploader.Upload`, `ResumableUpload.ExpiredThenFinished`).
- A write whose fsync is unsupported may leave anything at a crash (`AtomicFile.Disk.AtomicWriteJson`
  states exactly when the target is safe). A call may return and still be lost when its directory sync failed
  (`DurableUpdate.FailedDirSyncLoses`) or the sync of its bytes was skipped (`SkippedSyncLoses`); which updates
  survive every power loss is said by `DurableUpdate.SurvivesExactly`.
- Pruning reports that it could not rewrite the allowlist although it has, exactly when only the sync of the
  directory failed (`Allowances.PolicyFile.PruneAllowlist`).
- With two paths a cookie baseline can move back to an older dispatch (`CookieSaves.TwoPathsMoveBack`); it
  can never do so exactly when all saves go to one path (`MovesBackExactly`).
- A topic picked again on a day that already recorded one of its keys is not recorded, so it may come back
  (`TopicHistory.UnrecordedPickRepeats`); a pick is protected exactly when it is recorded or that day's entries
  have all its keys (`PickProtectedExactly`).
- A history entry that is no dictionary is ignored when picking, as the comments promise, but makes `main`
  raise before it writes the history back (`TopicHistory.OneBadEntry`): on each day exactly when there is
  something to pick (`BrokenExactly`), and so on every such day to come, while a history without one never
  gets one (`BrokenForever`).
- A job-level `if:` counts exactly when it stands above the first step (`WorkflowScan.LateJobIfIgnored`,
  `WorkflowScan.JobIfCountsExactly`).
- A programme slug whose fixed tail exceeds the description limit is cut, and a slug that cannot be printed
  leaves the head text to speak for itself (`ProgramMarker.UnmarkedReadsHead`); all others read back
  (`ProgramMarker.RoundTripExactly`).
- What is drawn below an undocumented root is filed under the documented root before it, or as roots when
  there is none (`TreePaths.UndocumentedRootLeaks`); what is found is right exactly when those paths are there
  anyway (`ReadRightExactly`). A root line with a marker or a comment of mere space, and a last child's line
  with a branch in it, are the ones that misread (`RootLineExactly`, `OtherRootLineExactly`, `ChildLineExactly`).
- The sibling of an allowance's sibling is not itself when the path nests the client twice
  (`Allowances.SiblingTwice`).

`dafny verify dfyconfig.toml` checks the whole project.

## Model

| member | source | states |
|---|---|---|
| Signatures.CompatibleIffLists | scripts/audit_public_api_compat.py:515-588 | every call that bound still binds, with each argument reaching the parameter it reached and each default kept, if and only if five conditions on the two parameter lists hold |
| Signatures.VerdictIsClean | scripts/audit_public_api_compat.py:515-588 | no break is reported if and only if no parameter, arity, position or required-parameter check objects |
| Signatures.ReasonHolds | scripts/audit_public_api_compat.py:515-588 | whatever reason is reported holds of the two parameter lists; a signature that appears or vanishes is reported, one that never was is not |
| Signatures.VerdictExact | scripts/audit_public_api_compat.py:515-588 | for all well-formed signatures: a clean verdict is right exactly when there is no blind spot, and a compatible change is passed exactly when no name lookup is misled |
| Signatures.PlainVerdictDecides | scripts/audit_public_api_compat.py:515-588 | without positional-only parameters, `*args` or a reused `**` name, no break is reported if and only if every old call still fits |
| Signatures.ParameterLoop | scripts/audit_public_api_compat.py:529-549 | the loop over the old parameters finds no break if and only if each one passes |
| Signatures.PositionLoop | scripts/audit_public_api_compat.py:559-578 | the loop over positions finds no break if and only if the names agree from there on |
| Signatures.RequiredLoop | scripts/audit_public_api_compat.py:580-586 | the last loop finds no break if and only if every new required parameter has an old namesake |
| Signatures.OptionalPositionalOnlyMissed | scripts/audit_public_api_compat.py:536-545 | an optional positional-only parameter may become required unnoticed |
| Signatures.ReusedNameMissed | scripts/audit_public_api_compat.py:580-586 | a required parameter may take over the name of an old `**kwargs` unnoticed |
| Signatures.MovedBehindStarMissed | scripts/audit_public_api_compat.py:553-564 | a positional parameter may move behind a new `*args` unnoticed |
| Signatures.SwallowedNameReported | scripts/audit_public_api_compat.py:536-549 | a keyword swallowed by a `**` parameter of its name is reported although every old call fits |
| Signatures.NormalizeMergesOnlySentinels | scripts/audit_public_api_compat.py:421-437 | two default texts are equated only if they are equal or both stand for a bare sentinel object |
| Signatures.ListsSuffice | scripts/audit_public_api_compat.py:515-588 | under the list conditions every old call still fits |
| Signatures.PositionsNecessary | scripts/audit_public_api_compat.py:551-578 | if every old call still fits, the fixed positions are kept |
| Signatures.KeywordsNecessary | scripts/audit_public_api_compat.py:536-543 | if every old call still fits, every keyword lands somewhere |
| Signatures.RequiredNecessary | scripts/audit_public_api_compat.py:580-586 | if every old call still fits, every new required parameter was required before |
| Allowances.PartitionAllowed | scripts/audit_public_api_compat.py:833-845 | each break goes, in order and as often as it occurs, to the unapproved ones exactly if no allowance matches it in both patterns, and otherwise to the approved ones with the first that does |
| Allowances.FirstMatchIsFirst | scripts/audit_public_api_compat.py:840-844 | the chosen allowance matches and no earlier one does; none is chosen exactly when none matches |
| Allowances.StaleAllowances | scripts/audit_public_api_compat.py:868-909 | exactly the allowances are returned, in order and as often as they occur, that approve no break and whose object's other path has no allowance that does |
| Allowances.SiblingTwice | scripts/audit_public_api_compat.py:848-865 | the sibling of the sibling is the path itself exactly when the path does not nest the client twice |
| Allowances.PolicyFile.PruneAllowlist | scripts/audit_public_api_compat.py:773-830 | which calls raise; the file's entries and the removed list are those of the counting specification, other fields stay, nothing is written when nothing is removed; a failure leaves the file as it was exactly unless only the directory sync failed |
| Allowances.PruneCounts | scripts/audit_public_api_compat.py:786-798 | for any list, as many copies of an allowance are removed as the list and the file both have, and the rest stay |
| Allowances.PruneStale | scripts/audit_public_api_compat.py:773-909 | pruning the stale entries removes exactly them, keeps the live ones whole and in order, leaves the partition and each break's allowance alone, and a second check finds nothing |
| Allowances.PartitionUnchanged | scripts/audit_public_api_compat.py:833-845 | dropping stale allowances changes no side of the partition |
| Allowances.StillLive | scripts/audit_public_api_compat.py:903-907 | what was live, through its sibling or not, is live among the live ones |
| ResumableUpload.RangeRoundTrip | pipeline/scripts/youtube_upload.py:308-336 | the number of bytes that the server reports is the offset that the client resumes from |
| ResumableUpload.RangeExactly | pipeline/scripts/youtube_upload.py:308-329 | whatever header comes, the digits after its prefix count up to the file's size, what follows them is ignored, and without any nothing has arrived |
| ResumableUpload.DecimalValue | pipeline/scripts/youtube_upload.py:308-315 | a printed decimal number parses to itself |
| ResumableUpload.StepKeepsInv | pipeline/scripts/youtube_upload.py:390-486 | every step, crash, lost response or expiry keeps the protocol's invariant |
| ResumableUpload.QueryKeepsInv | pipeline/scripts/youtube_upload.py:421-458 | acting on a status reply keeps it |
| ResumableUpload.PutKeepsInv | pipeline/scripts/youtube_upload.py:361-387 | a PUT that stores any prefix, with or without an answer, keeps it |
| ResumableUpload.NeverTwoVideos | pipeline/scripts/youtube_upload.py:390-486 | in every run of the system, at every moment: at most one completed video, every session holds a prefix of the file, a completed one all of it, and a done record names an existing video |
| ResumableUpload.Uploader.Upload | pipeline/scripts/youtube_upload.py:390-486 | the flow makes only protocol steps; an undisturbed run skips, finishes, or, when the recorded session has expired, saves a fresh session and stops |
| ResumableUpload.Uploader.InitUpload | pipeline/scripts/youtube_upload.py:462-466 | a new session is saved in the record before anything is sent |
| ResumableUpload.Uploader.UploadBody | pipeline/scripts/youtube_upload.py:361-387 | an undisturbed PUT from where the session stands ends in a done record |
| ResumableUpload.Uploader.FinalizeUpload | pipeline/scripts/youtube_upload.py:339-346 | an undisturbed empty PUT on a full session ends in a done record |
| ResumableUpload.Uploader.RecordDone | pipeline/scripts/youtube_upload.py:109-121 | the record is done with that video, or unchanged if the process died first |
| ResumableUpload.Uploader.ResumeUpload | pipeline/scripts/youtube_upload.py:429-477 | a quiet run with a live recorded session finishes; with an expired one it saves a fresh session and stops |
| ResumableUpload.ExpiredThenFinished | pipeline/scripts/youtube_upload.py:429-486 | an upload that breaks off and whose session expires still arrives: the next run stops, the one after it finishes with one video that holds the file |
| ResumableUpload.TwoRunsFinish | pipeline/scripts/youtube_upload.py:390-486 | from any reachable state two undisturbed runs end with one video that holds exactly the file |
| AtomicFile.Disk.AtomicWriteJson | src/notebooklm/_atomic_io.py:202-295 | which calls raise; after a failure, and for other files always, no crash point brings back anything new; the target comes back old or complete at every crash point exactly unless unsynced bytes replaced a durable file; after both syncs only the new content comes back |
| AtomicFile.Disk.StageTemp | src/notebooklm/_atomic_io.py:244-282 | the temporary file holds the data, synced or not, and no crash point touches any other file |
| AtomicFile.ConcatJoins | src/notebooklm/_atomic_io.py:258-282 | the complete data is the chunks one after another and nothing else |
| AtomicFile.ReplacedOldOrNew | src/notebooklm/_atomic_io.py:283-286 | after the rename of a synced file a crash brings back what it could before or the complete new content |
| AtomicFile.FlushedOnlyNew | src/notebooklm/_atomic_io.py:123-172 | after the directory sync it brings back exactly the new content |
| AtomicFile.UnsyncedIsUnsafe | src/notebooklm/_atomic_io.py:271-282 | after the rename of an unsynced file the guarantee fails, unless it had failed before |
| AtomicFile.UntouchedRecovers | src/notebooklm/_atomic_io.py:288-295 | a file left alone can come back only as it could before |
| LockedUpdate.JsonFile.AtomicUpdateJson | src/notebooklm/_atomic_io.py:413-443 | one call alone: it succeeds exactly when the name is allowed, the lock is had in time, the file can be read and loads, the mutator does not raise and the write works; it leaves what the mutator makes of the file's object, or of an empty one, or else the old content, and which error it raises |
| LockedUpdate.StepKeepsInv | src/notebooklm/_atomic_io.py:426-443 | every step of any process, or its death, keeps the invariant |
| LockedUpdate.StepKeepsFresh | src/notebooklm/_atomic_io.py:426-443 | what the holder has read and computed is about the file as it still is |
| LockedUpdate.CommitKeepsOrder | src/notebooklm/_atomic_io.py:428-443 | a commit extends the serial execution in lock order |
| LockedUpdate.NoLostUpdate | src/notebooklm/_atomic_io.py:345-443 | in every interleaving the file is what the committed calls make of it one after another in lock order; a call that returned committed once, one that raised not at all |
| LockedUpdate.OneHolder | src/notebooklm/_atomic_io.py:428-428 | two processes are never inside the lock together |
| LockedUpdate.CallGoesThrough | src/notebooklm/_atomic_io.py:428-443 | an undisturbed call does to the file what it does alone, returns exactly if it does not raise alone, and leaves the lock free and the others as they were |
| LockedUpdate.OneWayOn | src/notebooklm/_atomic_io.py:428-443 | without a fault a process can only take its next step |
| LockedUpdate.MayFail | src/notebooklm/_atomic_io.py:428-443 | a refused lock, an unreadable or unwritable file and a death, wherever they may happen, leave the file alone and the lock free |
| DurableUpdate.PowerLossExactly | src/notebooklm/_atomic_io.py:188-443 | a power loss at any moment of any interleaving may leave exactly the serial results of those prefixes of the commits that reach at least the last directory sync that worked, or anything for a prefix whose last commit skipped the sync of its bytes |
| DurableUpdate.ReturnedSurvives | src/notebooklm/_atomic_io.py:238-243 | every such prefix holds each call that returned, unless its own directory sync failed; and what a reader sees is the result of all commits |
| DurableUpdate.SurvivesExactly | src/notebooklm/_atomic_io.py:123-172 | an update survives every power loss if and only if some directory sync took effect after its commit and neither the last commit before that sync nor any later one skipped the sync of its bytes |
| DurableUpdate.FailedDirSyncLoses | src/notebooklm/_atomic_io.py:136-165 | from any moment at which a call has renamed its file, a failed directory sync lets it return with its update not safe |
| DurableUpdate.SkippedSyncLoses | src/notebooklm/_atomic_io.py:271-282 | a call whose fsync was not supported returns with its directory synced, and any bytes may come back |
| DurableUpdate.RecordsAreTrue | src/notebooklm/_atomic_io.py:271-288 | what is recorded of skipped and failed syncs is what took effect |
| DurableUpdate.ActKeepsInv | src/notebooklm/_atomic_io.py:244-295 | every system call of any process keeps it: each version of the directory leads to the durable result of a prefix of the commits |
| DurableUpdate.PlayIsRun | src/notebooklm/_atomic_io.py:426-443 | without the disk it is a run of the locked updates, so what holds of those holds here |
| DurableUpdate.RestartIsDurable | src/notebooklm/_atomic_io.py:238-243 | a machine started again after a power loss reads one of the contents that may be left, and begins durable, so that all of this holds again |
| DurableUpdate.DiskNeverWedges | src/notebooklm/_atomic_io.py:244-295 | after any actions, crashes and failed syncs included, the calls under way can all be run to their end without another fault |
| LockedUpdate.NeverWedged | src/notebooklm/_atomic_io.py:428-443 | after any prefix, crashes included, the calls still under way can all run to their end without a timeout |
| CookieSaves.CookiePersistence.CaptureOpenSnapshot | src/notebooklm/_cookie_persistence.py:80-88 | the baseline and the auth object hold the auth snapshot, or the jar's if there was none |
| CookieSaves.CookiePersistence.Save | src/notebooklm/_cookie_persistence.py:107-123 | without a path nothing happens; otherwise the next number is stamped on a job with the canonical key and the jar's snapshot |
| CookieSaves.CookiePersistence.RunWorker | src/notebooklm/_cookie_persistence.py:125-158 | the worker writes exactly if no newer dispatch marked its path; the marker rises to it exactly if the writer merged, refused keys or not; and what the baseline and the auth object become for each answer of the writer |
| CookieSaves.WorkLeaves | src/notebooklm/_cookie_persistence.py:134-181 | in a session, what a worker that writes leaves: its mark if anything was merged, and the baseline for each answer, a partial one included |
| CookieSaves.AppliedInOrder | src/notebooklm/_cookie_persistence.py:134-157 | in every schedule the dispatches applied to one path rise strictly |
| CookieSaves.NoOlderWrite | src/notebooklm/_cookie_persistence.py:134-157 | once a worker has merged its jar, refused keys or not, no older dispatch to its path ever writes |
| CookieSaves.DroppedExactly | src/notebooklm/_cookie_persistence.py:139-144 | a worker is dropped exactly when a newer dispatch was applied to its own path |
| CookieSaves.NewestWins | src/notebooklm/_cookie_persistence.py:139-157 | the last write to a path is at least as new as any dispatch to it whose save would merge |
| CookieSaves.LatestWins | src/notebooklm/_cookie_persistence.py:139-157 | if no save fails outright, the last write to each path is its latest dispatch |
| CookieSaves.MarkersNeverFall | src/notebooklm/_cookie_persistence.py:155-157 | the marker of a path never falls |
| CookieSaves.BaselineIsLastApplied | src/notebooklm/_cookie_persistence.py:162-181 | without partial applies the baseline is the snapshot of the save applied last, or the one captured at open, and the auth object agrees |
| CookieSaves.AuthAgrees | src/notebooklm/_cookie_persistence.py:162-181 | with partial applies too, the auth object always holds the baseline |
| CookieSaves.BaselineIsMarker | src/notebooklm/_cookie_persistence.py:146-181 | with one path it is the snapshot of the dispatch in that path's marker, and never moves back to an older dispatch |
| CookieSaves.TwoPathsMoveBack | src/notebooklm/_cookie_persistence.py:146-181 | with two paths it can go back to an older dispatch |
| CookieSaves.MovesBackExactly | src/notebooklm/_cookie_persistence.py:146-181 | for any list of dispatched saves: the baseline never moves back, whatever the schedule and the outcomes, if and only if all saves go to one path |
| TopicHistory.RecentTopicKeys | pipeline/scripts/rank_news.py:290-312 | the keys of the entries in the window and, in order, their titles, today's own and malformed ones left out |
| TopicHistory.FreshItemIndices | pipeline/scripts/rank_news.py:315-328 | exactly the indices of unblocked items, rising |
| TopicHistory.FreshAreUnseen | pipeline/scripts/rank_news.py:290-328 | the filter lets through exactly the items that share no key with an entry of the last 90 days, today's own left out |
| TopicHistory.SameTopic | pipeline/scripts/rank_news.py:247-261 | two topics are the same if and only if a key of one, of its title or its URL, is a key of the other and not empty |
| TopicHistory.PickTopic | pipeline/scripts/rank_news.py:331-404 | the first ranking entry whose index names an item that shares no key with an entry of the window is picked, under that index; every entry before it, or every entry if none is picked, has no such index; and which of the three failures it is |
| TopicHistory.PicksIffFresh | pipeline/scripts/rank_news.py:315-404 | a topic is picked if and only if some entry has the index of an item that the filter let through, and it is the first such entry |
| TopicHistory.Ranker.Run | pipeline/scripts/rank_news.py:471-585 | one day: its outcome, and the history written back and pruned, or left alone on failure |
| TopicHistory.StillThere | pipeline/scripts/rank_news.py:579-585 | what pruning has dropped is outside the window for good |
| TopicHistory.NeverRepeats | pipeline/scripts/rank_news.py:290-312 | over any run of days a recorded topic shares no key with one recorded on another date less than 90 days earlier, pruned or not |
| TopicHistory.OneBadEntry | pipeline/scripts/rank_news.py:290-312 | a history with one entry that is no dictionary blocks nothing, and the day raises |
| TopicHistory.BrokenExactly | pipeline/scripts/rank_news.py:568-585 | the day raises if and only if there is such an entry and the ranking points at a fresh item; a topic is picked if and only if the latter holds without the former |
| TopicHistory.BrokenForever | pipeline/scripts/rank_news.py:568-585 | over any run of days: with such an entry nothing is ever picked and the history stays as it is; without one no day raises and none comes in |
| TopicHistory.SameDayAgain | pipeline/scripts/rank_news.py:568-585 | running again on the same day picks the same item, and changes the history exactly when that item has no key |
| TopicHistory.UnrecordedPickRepeats | pipeline/scripts/rank_news.py:571-578 | a pick that was not recorded may be repeated the next day |
| TopicHistory.PickProtectedExactly | pipeline/scripts/rank_news.py:571-585 | whatever shares a key with a pick is blocked for the rest of the window if and only if the pick is recorded or each of its keys stands in an entry of that day |
| TopicHistory.ProtectedNeverRepeats | pipeline/scripts/rank_news.py:290-312 | over any run of days a protected pick, recorded or not, shares no key with a later pick of its window |
| WorkflowScan.ScanWorkflow | scripts/check_workflow_secret_gates.py:227-457 | the report holds, in the order of the text and each once, exactly the uses that neither an approved environment nor a trusted guard of their job or step covers, jobs being what stands between headers below a `jobs:` line; or one complaint, exactly if nothing opens a job where jobs and secrets are mentioned |
| WorkflowScan.ScanLine | scripts/check_workflow_secret_gates.py:312-438 | one iteration keeps the loop's variables equal to what the lines read so far determine |
| WorkflowScan.FlushJob | scripts/check_workflow_secret_gates.py:270-287 | the verdict on the pending hits of a job, from its final environment and guards |
| WorkflowScan.ReportedExactly | scripts/check_workflow_secret_gates.py:270-287 | a use is reported exactly when it is a searched, non-benign use in an unapproved job and neither its job's nor its step's final guard is trusted |
| WorkflowScan.JobPlacesOf | scripts/check_workflow_secret_gates.py:289-343 | the jobs are those opened by the headers below the first `jobs:` line, each with the lines up to the next |
| WorkflowScan.EnvironmentPlacement | scripts/check_workflow_secret_gates.py:350-355 | moving an approved environment line within its job changes no job's report |
| WorkflowScan.LateJobIfIgnored | scripts/check_workflow_secret_gates.py:361-372 | a job-level `if:` below the first step changes no guard |
| WorkflowScan.JobIfCountsExactly | scripts/check_workflow_secret_gates.py:361-372 | an inline job-level `if:` that says something new becomes the job's guard if and only if no step has begun |
| WorkflowScan.GuardLine | scripts/check_workflow_secret_gates.py:361-404 | an `if:` of the job before its first step, or of the step begun last, replaces that guard by its own text, or by nothing when it opens a block |
| WorkflowScan.GuardContinues | scripts/check_workflow_secret_gates.py:318-331 | a continuation line extends the guard of the scope whose block scalar is open |
| WorkflowScan.BlockGoesOn | scripts/check_workflow_secret_gates.py:318-331 | a blank line, or one deeper than the `if:` that opened the block, continues it and extends its guard; any other ends it |
| WorkflowScan.OtherGuardContinues | scripts/check_workflow_secret_gates.py:318-331 | and no other guard |
| WorkflowScan.OneOpener | scripts/check_workflow_secret_gates.py:261-263 | at most one block scalar is open at a time |
| WorkflowScan.OpenScope | scripts/check_workflow_secret_gates.py:318-331 | a block scalar lies in one scope with no other guard inside it |
| WorkflowScan.HitsAre | scripts/check_workflow_secret_gates.py:408-438 | which lines of a job yield which hits |
| ConversationCache.ConversationCache.CacheConversationTurn | src/notebooklm/_conversation_cache.py:53-98 | the whole ordered dictionary after a write, for any caps, evictions and trimming included |
| ConversationCache.ConversationCache.GetCachedConversation | src/notebooklm/_conversation_cache.py:100-109 | the turns or none, and a hit becomes the most recent entry |
| ConversationCache.ConversationCache.Clear | src/notebooklm/_conversation_cache.py:111-120 | one entry, or everything when the id is missing or empty |
| ConversationCache.CacheIsLastTouched | src/notebooklm/_conversation_cache.py:53-120 | over any trace with fixed caps, from any dictionary given at the start, it is, in order, the end of the list of touched conversations, and each resident holds exactly its newest turns since it was inserted, or what was given if nothing was written to it |
| ConversationCache.CapHolds | src/notebooklm/_conversation_cache.py:53-81 | a cache that starts within its cap stays within it |
| ConversationCache.TouchResident | src/notebooklm/_conversation_cache.py:82-84 | touching a resident shuffles only the resident end of the list |
| ConversationCache.TouchAbsent | src/notebooklm/_conversation_cache.py:78-81 | touching anything else evicts the oldest resident if there is no room |
| MergeItems.Merge | pipeline/scripts/fetch_news.py:296-325 | the result holds, in the order of reading row by row, items no two of which share a URL key or a title key, at most `limit`; every other item shares a key with one taken before it or is read when the limit is reached |
| MergeItems.MergeRound | pipeline/scripts/fetch_news.py:308-324 | one round reads one row, and tells whether any batch was long enough |
| MergeItems.ResultsDistinct | pipeline/scripts/fetch_news.py:315-320 | no two results share a URL key or a title key, and there are at most `limit` |
| MergeItems.NothingLost | pipeline/scripts/fetch_news.py:307-325 | below the limit every item shares a key with some result |
| MergeItems.SmallerLimit | pipeline/scripts/fetch_news.py:307-325 | a smaller limit only cuts the result short |
| MergeItems.KeepsOrder | pipeline/scripts/fetch_news.py:309-320 | the results come in the order of the enumeration |
| MergeItems.RoundRobinPlaces | pipeline/scripts/fetch_news.py:309-313 | every item of every batch has its place in the enumeration |
| MergeItems.PlacesRise | pipeline/scripts/fetch_news.py:306-324 | places rise with depth, and with the batch at one depth, so each batch's order is kept |
| MergeItems.RoundRobinOnly | pipeline/scripts/fetch_news.py:309-313 | nothing else is enumerated |
| ProgramMarker.MatcherComplete | pipeline/scripts/_config.py:78-80 | whatever way the pattern matches at a position, it captures one slug, and the matcher finds it with the longest end |
| ProgramMarker.MatcherSound | pipeline/scripts/_config.py:78-80 | what the matcher finds is a match of the pattern |
| ProgramMarker.NoStartInside | pipeline/scripts/_config.py:120-120 | nothing that starts inside a match is a match, so scanning past it loses nothing |
| ProgramMarker.ParsesLastMatch | pipeline/scripts/_config.py:101-121 | the parser returns the slug of the last match anywhere in the text, or nothing if there is none |
| ProgramMarker.RoundTrip | pipeline/scripts/youtube_upload.py:145-169 | for every head, if the tail fits: the description keeps the whole tail, stays in the limit and reads back as the stripped slug |
| ProgramMarker.RoundTripExactly | pipeline/scripts/youtube_upload.py:145-169 | for any slug, string or not: it reads back for every head if and only if the slug can be printed and the tail fits the limit |
| ProgramMarker.UnmarkedReadsHead | pipeline/scripts/youtube_upload.py:145-169 | without a printable slug the description reads exactly as the kept part of its head does |
| IdempotentCreate.Creator.IdempotentCreate | src/notebooklm/_idempotency.py:100-184 | the loop leaves the server and the outcome of the specification, or rejects its argument |
| IdempotentCreate.AtMostOneCommit | src/notebooklm/_idempotency.py:100-184 | with one request per attempt: at most one commit, success returns what was committed, giving up means nothing was |
| IdempotentCreate.DecidedBy | src/notebooklm/_idempotency.py:145-184 | the first request that is not dropped, or whose probe fails, decides the outcome |
| IdempotentCreate.AtMostOneExactly | src/notebooklm/_idempotency.py:108-116 | one commit at most, whatever the server does, if and only if the transport's own retries are off |
| IdempotentCreate.RetryDuplicates | src/notebooklm/_idempotency.py:108-116 | with them on, a lost answer followed by a good one commits twice |
| IdempotentCreate.RepeatsUntilHeard | src/notebooklm/_idempotency.py:108-116 | the transport repeats a request as often as it may while it hears nothing and hands on the first answer; every request that the server commits is among the commits |
| IdempotentCreate.PolicyDecidesAtMostOnce | src/notebooklm/_idempotency.py:464-510 | among methods that are found, exactly the two forcing policies give at most one commit whatever the caller asks |
| IdempotentCreate.RegisterThenGet | src/notebooklm/_idempotency.py:314-388 | a registered row is found, other methods answer as before, and a first variant makes a method's other variants unknown |
| IdempotentCreate.Registry.Register | src/notebooklm/_idempotency.py:314-343 | the whole table afterwards |
| IdempotentCreate.Registry.SeedDefaults | src/notebooklm/_idempotency.py:398-415 | every method then answers a plain look-up, what answered before answers the same, and the only new rows are placeholders |
| IdempotentCreate.Resolver.ResolveEffective | src/notebooklm/_idempotency.py:442-510 | the flag is set if the caller sets it or the row found has one of the two forcing policies, and a failed look-up raises; a warning is given exactly for the accepting policy when the last one is the interval ago, so that warnings of one key are at least the interval apart |
| TreePaths.ExtractPaths | scripts/check_claude_md_freshness.py:38-87 | the paths of the specification, sorted and each once, from any text; all of them below one of the two documented roots |
| TreePaths.FindPaths | scripts/check_claude_md_freshness.py:38-85 | the loop, its stack's indents rising strictly, finds the paths of the specification |
| TreePaths.StemCounts | scripts/check_claude_md_freshness.py:50-62 | in a line without branch or corner what follows a stem is read one level below its column |
| TreePaths.IgnoredLine | scripts/check_claude_md_freshness.py:44-46 | nothing is read from an empty line or one that begins like a table, a heading or a fence |
| TreePaths.PushKeepsRising | scripts/check_claude_md_freshness.py:77-81 | popping and pushing keeps the indents strictly increasing |
| TreePaths.RoundTrip | scripts/check_claude_md_freshness.py:38-87 | what is found in the drawing of a forest of documented roots is exactly the joined names on the way from a root to a node |
| TreePaths.ChildrenWalk | scripts/check_claude_md_freshness.py:77-85 | reading a node's children adds their paths and restores the stack up to that node |
| TreePaths.ChildLineExactly | scripts/check_claude_md_freshness.py:50-75 | a drawn child line reads back as its depth and its name if and only if it has no corner with a branch after it |
| TreePaths.RootLineExactly | scripts/check_claude_md_freshness.py:50-75 | a documented root's line reads back if and only if it has no marker and no comment of mere space |
| TreePaths.OtherRootLineExactly | scripts/check_claude_md_freshness.py:44-70 | any other root's line is skipped if and only if its name is ignored, it has no marker, or nothing is left after the marker |
| TreePaths.PathsBelowAre | scripts/check_claude_md_freshness.py:77-85 | the paths below a node are the joined names on the ways down from it |
| TreePaths.FoundExactly | scripts/check_claude_md_freshness.py:38-87 | in the drawing of any forest, exactly the documented roots' paths are found and those documented paths as which undocumented roots' nodes are filed |
| TreePaths.ReadRightExactly | scripts/check_claude_md_freshness.py:38-87 | for any forest: exactly the documented roots' paths are found if and only if every documented path so filed is one of them |
| TreePaths.UndocumentedRootLeaks | scripts/check_claude_md_freshness.py:65-70 | in any forest a child of an undocumented root is filed under the documented root before it, or as a root of its own if there is none and its name will do |
| PyText.FirstLine | scripts/check_claude_md_freshness.py:42-42 | splitting cuts a text at its first break, a carriage return with its line feed being one |
| PyText.SplitJoined | scripts/check_claude_md_freshness.py:42-42 | lines without line breaks come back from the text they are joined into |
| PyText.AscendingIsUnique | scripts/check_claude_md_freshness.py:87-87 | there is one strictly ascending list of a given set of paths |

## Left out

- Signatures.PlainVerdictDecides: covers the plain fragment only, because outside it the property is false of the code; `VerdictExact` covers all well-formed signatures.
- Return annotations, class members, the collector process and the git baseline of the compatibility audit.
- Allowances.StaleAllowances: `fnmatchcase` is an abstract predicate, and the second loop runs over the allowances instead of the keys of the first dictionary, which meets the same keys.
- Allowances.PolicyFile.PruneAllowlist: whether a text loads as a policy is a given, and so is which step of the rewriting fails; file modes are left out.
- ResumableUpload.NeverTwoVideos: assumes what the protocol assumes: the server's status codes are truthful, the record is written atomically, and runs on one file do not overlap or use `--force`.
- A corrupt upload record, Unicode digits in a Range header, and bytes of a PUT that arrive after the client has gone.
- AtomicFile.Disk.AtomicWriteJson: the retries of `replace_file_atomically` on Windows and the `storage_state.json` guard are left out, and file permissions are not part of the file system; a chmod can only fail.
- LockedUpdate.NoLostUpdate: every writer of the file takes the lock.
- LockedUpdate.JsonFile.AtomicUpdateJson: the case folding of the file name is done before the call; the mutator is a function, as its documentation demands.
- DurableUpdate.PowerLossExactly: JSON text is read back as what was printed, and the target is durable at the start.
- CookieSaves.BaselineIsMarker: excludes partial applies, after which the baseline mixes two snapshots in a function that is abstract here; `AuthAgrees` covers them.
- The storage writer, `canonical_storage_key` and `advance_cookie_snapshot_after_save` are parameters; the writer's own merge is not part of this model.
- TopicHistory.NeverRepeats: speaks of recorded topics, since unrecorded picks are not protected; dates are day numbers, so two spellings of one date are the same date.
- TopicHistory.Ranker.Run: the Gemini request, the title fields and the other output files are left out; the ranking is a parameter.
- WorkflowScan.ScanWorkflow: lines arrive classified, so the regular expressions, comment stripping and the trusted-guard test are abstract.
- ConversationCache.ConversationCache.GetCachedConversation: returns a copy, where the source returns the live list.
- MergeItems.Merge: the two key functions are parameters; the inner loop is a method of its own.
- ProgramMarker.RoundTrip: the logged warning is left out.
- IdempotentCreate.AtMostOneCommit: the probe is accurate when it answers; cancellation is left out, and probe-key functions are names, since nothing calls them.
- TreePaths.RoundTrip: names have no space at either end, no hash after a space and no slash at the end, and labels are one line; only lines that read back, or are skipped, are drawn, as `RootLineExactly`, `OtherRootLineExactly` and `ChildLineExactly` describe them.
- The other files of the repository: transport, authentication, browser and video plumbing, live probes and reports.
