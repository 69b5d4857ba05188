# Kapowarr verification

A Dafny model of the parts of Kapowarr that carry state, recovery or arithmetic, with proofs of what they
guarantee. `dafny verify dfyconfig.toml` checks the whole project.

| modules | what they model |
|---|---|
| `ImportState`, `ImportReview`, `ImportProtocol`, `ImportSafety`, `ImportRuns`, `ImportPasses`, `ImportHolds`, `ImportSummary`, `ImportStore`, `ImportWorker`, `ImportMaintenance` | the durable queue of Continuous Library Import: jobs and folder rows, the worker, stops, shutdowns, crashes, resumes, the review backlog, re-evaluation and rescan |
| `RequestPacing` | the adaptive interval between provider requests, the waiting loop, and the searches that spend its slots |
| `ImportPolicy`, `RunContext` | the unattended import decision: score, margin, tie-breaks, grouping, whole-run context |
| `DownloadQueue`, `ExternalPolling` | the scheduler over the shared download list, and the polling of external clients |
| `BackupRetention`, `RestoreStaging` | retention of backups, staging a restore, applying it at the next start with a crash between any two file operations |
| `FolderPruning` | recursive clean-up of empty folders below, and above, a place in the tree |
| `IssueNumbers`, `PublisherAutomation`, `RateLimits`, `NaturalOrder` | the decimal encoding of issue numbers, retries over passes, the rate-limited request loop, natural page order |
| `Basics`, `Characters`, `Sequences` | options; digits, case and the order of text; facts about filtering, sorting and joining lists |

## How the model is built

The import protocol is a transition system. Each event is one SQL statement of the importer or of a maintenance
job, one of its control decisions, or something done to it: a stop request, a shutdown, a crash, a page that
reconciles the backlog. `CheckpointStore` and `Worker` are the imperative code; the worker carries a ghost trace
and is proved to be a run of the transition system, so what `ImportRuns` and `ImportPasses` prove of every run and
every pass holds of the code.
The script a worker is given lists what its surroundings answer; when it runs out, the process has died.

The download queue, publisher automation and request cooldowns follow the same plan: a class with the source's
fields and loops, tied by `ensures` to pure functions or a transition system, and theorems over whole runs.
Times and issue numbers are exact reals. Sleeping takes at least what was asked. The generic ranker, clients,
providers, directory order, Python's `float` and case folding of titles are arbitrary inputs or parameters.

## Where the code does not do what it promises

Each is kept as the code has it, with a concrete instance and, where one decides, the exact condition.

- Rows of a killed pass can stay in flight although a later pass ended and its `finally` ran. A pass that claimed
  its job leaves a row in flight exactly when a row of another job was in flight at its launch, even if it
  completes untroubled: `ImportPasses.NothingInFlightExactly`, `ImportPasses.StaleRowSurvivesACompletedPass`. A pass
  that fails before it has claimed its job leaves that job's rows in flight exactly when the process is shutting
  down: `ImportRuns.UnclaimedExit`, `ImportRuns.StaleRowSurvivesABrokenResume`.
- Two jobs can be running at once: resuming looks only for a paused one. After a pass has claimed its job, that one
  runs alone exactly when no other was running: `ImportPasses.TwoJobsCanRun`, `ImportPasses.OneJobRunsExactly`.
- A folder without files whose name search is cut short by a stop is recorded as done and never searched by that
  job; exactly when its query is new and the stop is seen before its search slot: `ImportWorker.Worker.RecordEmpty`,
  `ImportPasses.InterruptedFolderIsDone`, `ImportPasses.UnsearchedFolderIsDone`.
- A search starts after its slot, so an hour can see 201 search starts, one more than the provider allows. It does
  exactly when it begins with a search granted its slot before the hour, holds all 200 slots it can, and each of
  them is spent inside it: `RequestPacing.HourlySearches`. Importers that start their searches within a given time
  of their slots all keep to 200 exactly when that time is zero: `RequestPacing.AllowanceKeptExactly`.
- The owner test looks local volumes up by ComicVine id, which other providers' rows lack, so the order of tied
  rows can decide the outcome: `ImportPolicy.OrderCanDecide`. It does not exactly when every row some order could
  pick is what is decided without an owner, or one ComicVine id is picked in every order and its rows are one
  identity; which rows can be picked is read off the list: `ImportPolicy.WinnersExactly`,
  `ImportPolicy.VerdictIgnoresOrderExactly`.
- The overlap test misses a first range strictly inside the second, and a run with overlapping ranges is
  promoted: `RunContext.OverlapIsReportedUnlessNested`, `RunContext.RunShape`, `RunContext.OverlappingRunIsPromoted`.
- Moving a queued download ahead of a running one lets the next pass exceed the limit:
  `DownloadQueue.PassKeepsTheLimitExactly`, `DownloadQueue.MovingBreaksTheLimit`.
- A shutdown requested while an external client is unreachable ends with the download recorded as failed and
  taken off the queue: `ExternalPolling.QuietShutdownExactly`, `ExternalPolling.ShutdownDuringOutageFails`.
- The safety backup of a restore can prune the archive that is being restored:
  `RestoreStaging.SourceLostExactly`, `BackupRetention.OlderSourceIsLost`.
- Parent pruning deletes a file when a proper ancestor of the given path is a file, and climbs past a root that
  is one: `FolderPruning.ParentPruningLosesNoFileExactly`, `FolderPruning.FileTakenForFolderIsDeleted`.

## Model

| member | source | states |
|---|---|---|
| `ImportStore.CheckpointStore.CreateJob` | backend/features/library_import_state.py:72-102 | a new running job, after all earlier rows one pending row for each folder of the list, in the order in which each first occurs there |
| `ImportStore.CheckpointStore.GetLatestJob` | backend/features/library_import_state.py:105-122 | the newest job of a status, none exactly when there is none |
| `ImportStore.CheckpointStore.MarkJobRunning` | backend/features/library_import_state.py:149-173 | row by row: its in-flight rows wait again, all others are as they were, and no other job changes; what it will be offered is what it had not recorded |
| `ImportStore.CheckpointStore.MarkJobPaused` | backend/features/library_import_state.py:176-199 | row by row the same, with the job paused and the error kept |
| `ImportStore.CheckpointStore.GetPendingFolders` | backend/features/library_import_state.py:216-226 | exactly the folders of the job's pending rows, in row order |
| `ImportReview.SnapshotInPositionOrder` | backend/features/library_import_state.py:216-226 | the snapshot of pending folders is in the order of the rows' positions |
| `ImportReview.NewestPassFirst` | backend/features/library_import_state.py:558-586 | the page lists the holds of newer passes first, and those of one pass in the order of its folders |
| `ImportStore.CheckpointStore.MarkFolderPending` | backend/features/library_import_state.py:243-254 | row by row: this job's row for the folder waits again if it was in flight; a recorded row and every other row are untouched |
| `ImportStore.CheckpointStore.MarkFolderResult` | backend/features/library_import_state.py:257-321 | row by row: the folder's row of this job holds exactly the given rows, is in review exactly when there are any, whatever was imported, counts what was imported and keeps the reason exactly when it holds something; other jobs' holds for the folder are retired, no other row changes |
| `ImportStore.CheckpointStore.PruneReviewRows` | backend/features/library_import_state.py:430-480 | the loop rewrites exactly the given review rows to their live holds, retires emptied ones, and reports exactly whether anything changed |
| `ImportStore.CheckpointStore.GetOutstandingReviewItems` | backend/features/library_import_state.py:542-586 | reading the backlog reconciles every held row and lists what is still live, one folder once |
| `ImportStore.CheckpointStore.CountOutstandingReviewFolders` | backend/features/library_import_state.py:520-539 | counting rows while remembering the folders seen gives the number of different folders with a row in review |
| `ImportReview.ReconciledRow` | backend/features/library_import_state.py:394-480 | a reconciled row keeps exactly its live holds, stays in review exactly when one is left, and is stable |
| `ImportReview.ReconciliationSettles` | backend/features/library_import_state.py:430-480 | reconciling keeps every table invariant, never adds a held folder, and on an unchanged disk a second one changes nothing |
| `ImportReview.ListedRows` | backend/features/library_import_state.py:542-586 | the seen-folder filter of the listing drops nothing: the page lists what the reconciled rows hold |
| `ImportReview.CountersAgree` | backend/features/library_import_state.py:520-586 | after reconciling, the folders listed are exactly those the SQL count counts, and the listed holds exactly the live ones |
| `ImportReview.StagedFoldersAreLive` | backend/features/library_import_maintenance.py:47-57 | a re-evaluation stages each folder with a live hold exactly once |
| `ImportSafety.StepKeeps` | backend/features/library_import_persistent.py:527-779 | every event keeps the table and worker invariants and moves rows only pending to processing to pending, done or review, and review to done |
| `ImportSafety.SnapshotIsPending` | backend/features/library_import_state.py:216-226 | the list a worker iterates is exactly its job's pending folders, each once |
| `ImportSafety.ResultKeeps` | backend/features/library_import_state.py:257-321 | recording a verdict keeps at most one row per folder in review across all jobs |
| `ImportRuns.EveryRunIsSafe` | backend/features/library_import_persistent.py:527-779 | every reachable state, through any stops, crashes, restarts and page reads, satisfies the invariants: one held row per folder, review exactly when held items and a reason exist |
| `ImportRuns.VerdictsAreFinal` | backend/features/library_import_persistent.py:547-579 | whatever follows, a recorded row stays recorded with no new holds; the late hand-back in `finally` cannot undo it |
| `ImportRuns.NeverExaminedAgain` | backend/features/library_import_persistent.py:547-579 | a folder a job has recorded is never taken or worked on again by that job |
| `ImportPasses.NothingTakenAfterAStop` | backend/features/library_import_persistent.py:527-579 | once a pass is stopped by the user or a shutdown, it takes no further folder |
| `ImportPasses.TakenInOrder` | backend/features/library_import_persistent.py:527-579 | a pass takes the folders of its snapshot one at a time from the front, skipping none |
| `ImportPasses.StopButtonPausesTheNewest` | frontend/library_import_status.py:102-127 | the stop button without a listed task pauses the newest running job, frees its folders in flight and changes nothing else |
| `ImportRuns.PassSettlesItsJob` | backend/features/library_import_persistent.py:724-752 | the job's final status as a function of user stop and shutdown; completed only with every row done or in review |
| `ImportRuns.FailureSettlesItsJob` | backend/features/library_import_persistent.py:753-770 | after an exception the job is paused with the error, or left running when the process shuts down |
| `ImportPasses.PassEndsAs` | backend/features/library_import_persistent.py:724-779 | a whole claimed pass that is not killed leaves its job exactly as its user stop, shutdown and error say, and no other job's status moves |
| `ImportPasses.NothingInFlightExactly` | backend/features/library_import_persistent.py:527-779 | such a pass leaves no row at all processing exactly when, at its launch, no row of another job was |
| `ImportPasses.StaleRowSurvivesACompletedPass` | backend/features/library_import_persistent.py:459-498 | a reachable run: a pass completes undisturbed and a killed pass's row is still processing |
| `ImportPasses.TwoJobsCanRun` | backend/features/library_import_persistent.py:468-498 | a reachable state with two running jobs |
| `ImportPasses.OneJobRunsExactly` | backend/features/library_import_persistent.py:459-498 | the claimed job runs alone exactly when no other job was running before |
| `ImportPasses.InterruptedFolderIsDone` | backend/features/library_import_persistent.py:357-358 | a folder whose search a stop cut short stays done whatever follows, and its job never takes it again |
| `ImportPasses.UnsearchedFolderIsDone` | backend/features/library_import_persistent.py:562-579 | a reachable run that ends with the job paused and its folder done, unsearched |
| `ImportRuns.UnclaimedExit` | backend/features/library_import_persistent.py:753-777 | the one other exit frees a stale in-flight row exactly when the process is not shutting down or there was none |
| `ImportRuns.StaleRowSurvivesABrokenResume` | backend/features/library_import_persistent.py:753-777 | a reachable run in which `finally` ran and a row stays processing |
| `ImportRuns.OnlyTheNewVerdictRemains` | backend/features/library_import_state.py:304-315 | once a pass records a folder, only that verdict can be in review for it until it is recorded again |
| `ImportRuns.StaysSuperseded` | backend/features/library_import_state.py:304-315 | supersession persists over every run that does not record the folder |
| `ImportRuns.OnlyRecordHolds` | backend/features/library_import_state.py:257-321 | a row enters review only by a verdict on its own folder |
| `ImportHolds.RecordedAsGiven` | backend/features/library_import_state.py:257-321 | in every reachable state a verdict lands on the one row in flight for its folder, exactly as given |
| `ImportHolds.ListedUntilRecordedAgain` | backend/features/library_import_state.py:394-586 | over any run that does not record the folder again, the review page shows for it exactly the verdict's rows whose file exists, is not imported and is no artifact, and which every read of the row in between found so |
| `ImportRuns.RetirementEnds` | backend/features/library_import_maintenance.py:31-37 | each turn of the retirement loop lowers the number of paused jobs by one |
| `ImportRuns.RecheckStagesOneJob` | backend/features/library_import_maintenance.py:40-44 | a re-evaluation ends with exactly one paused job whose pending rows are exactly the staged folders, and alters no earlier row |
| `ImportRuns.RecheckCollectsLiveHolds` | backend/features/library_import_maintenance.py:47-57 | collecting changes the tables by reconciliation only and stages exactly the folders with a live hold |
| `ImportSummary.CountersBalance` | backend/features/library_import_state.py:324-374 | checked plus remaining is the total, remaining is pending plus processing, and the reasons sum to the review count |
| `ImportSummary.NothingRemaining` | backend/features/library_import_state.py:324-374 | remaining is zero exactly when every row of the job is done or in review |
| `ImportSummary.VerdictMovesTheCounters` | backend/features/library_import_state.py:324-374 | recording a folder moves it from remaining to checked, adds what it imported, and adds it to the review count and its reason exactly when something is held |
| `ImportWorker.Worker.ReviewContentLessFolder` | backend/features/library_import_persistent.py:323-393 | a name that needs no search or was searched before is settled without waiting; a new one has no row exactly when a stop comes before its slot, else one row, and its query is cached |
| `ImportWorker.Worker.RecordEmpty` | backend/features/library_import_persistent.py:562-579 | a folder whose name needs a search is recorded done, unsearched, exactly when its query is new and a stop is seen before its slot |
| `ImportWorker.Worker.Record` | backend/features/library_import_persistent.py:706-716 | one checkpoint of the verdict as given, as one event of the protocol |
| `ImportWorker.Worker.Decide` | backend/features/library_import_persistent.py:581-722 | a folder with files is handed back, at once when a stop is already asked for, or recorded with the first judgement it was given: what was imported, the first of its reasons, and all its held rows |
| `ImportWorker.FirstReasonIsGiven` | backend/features/library_import_persistent.py:446-457 | of the reasons given, no candidate comes before a weak score and that before a tie; no candidate when there is none |
| `ImportWorker.Worker.Run` | backend/features/library_import_persistent.py:527-779 | a whole pass is a run of the protocol; however it ends short of a kill, its job is as its events say and nothing is in flight unless another job's row was; a failure during shutdown leaves what the loop's end had settled, else running |
| `ImportWorker.Worker.Handle` | backend/features/library_import_persistent.py:753-770 | the exception handler pauses the job with the error unless the process is shutting down |
| `ImportWorker.Worker.HandBack` | backend/features/library_import_persistent.py:771-777 | the `finally` clause leaves no claimed row in flight and every recorded row as it was |
| `ImportWorker.Worker.StartOrResume` | backend/features/library_import_persistent.py:459-498 | the job claimed is the wanted one, else the newest paused one, else a new one |
| `ImportMaintenance.RetirePausedJobs` | backend/features/library_import_maintenance.py:31-37 | exactly the paused jobs become complete, and none is left paused |
| `ImportMaintenance.LiveReviewFolders` | backend/features/library_import_maintenance.py:47-57 | the seen-set loop returns the folders with live holds, once each, reconciling the backlog |
| `ImportMaintenance.Recheck` | backend/features/library_import_maintenance.py:96-108 | one paused job, the new one, pending exactly on the folders with live holds, earlier rows changed by reconciliation only |
| `ImportMaintenance.Rescan` | backend/features/library_import_maintenance.py:131-143 | the same staging over every folder found, with earlier rows unchanged |
| `RequestPacing.IntervalIsCappedPower` | backend/features/library_import.py:67-130 | capping step by step is min(18 * 1.5^k, 90), always within [18, 90] |
| `RequestPacing.AdaptiveDelay.Current` | backend/features/library_import.py:100-113 | the interval after the refusals since the last recovery; an hour without one forgets them |
| `RequestPacing.AdaptiveDelay.RecordBlock` | backend/features/library_import.py:115-124 | one more refusal, and an interval that never falls |
| `RequestPacing.Importer.WaitForResourceSlot` | backend/features/library_import_persistent.py:161-176 | a granted slot is at least the interval after the lane's last one; a stop grants nothing |
| `RequestPacing.Importer.SearchTitle` | backend/features/library_import_persistent.py:182-205 | a cached title costs nothing; any other search comes right after a slot of its own, and a refusal widens the interval |
| `RequestPacing.Importer.MatchSearchGroups` | backend/features/library_import_persistent.py:207-289 | in a folder of eight titles or more the titles its own search settles have its results and cost no search; every other title has the results of its own; nothing else is searched, and each search is paid for by a slot |
| `RequestPacing.SlotKeepsBooks` | backend/features/library_import_persistent.py:161-176 | a granted slot keeps the starts of every lane spaced |
| `RequestPacing.SearchKeepsBooks` | backend/features/library_import_persistent.py:182-205 | no query is answered twice, and the cache holds exactly the answered ones |
| `RequestPacing.WindowBound` | backend/features/library_import.py:67-130 | starts at least a gap apart: at most n of them in a half-open window of n gaps |
| `RequestPacing.HourlyAllowance` | backend/features/library_import.py:67-130 | at most 200 slots of either lane, searches or metadata, in any half-open hour |
| `RequestPacing.SearchesFollowSlots` | backend/features/library_import_persistent.py:161-205 | in any window, the searches and the search slots left unspent are as many as the search slots, plus one if a search of the window has its slot before it |
| `RequestPacing.HourlySearches` | backend/features/library_import_persistent.py:161-205 | at most 201 provider searches start in any half-open hour, and more than 200 exactly when one has its slot before the hour and the hour's slots are 200, all spent in it |
| `RequestPacing.OneMoreSearchIsPossible` | backend/features/library_import_persistent.py:161-201 | slots and searches the importer can take one by one from empty books: however little the first search is late, up to 201 fit into an hour |
| `RequestPacing.AllowanceKeptExactly` | backend/features/library_import_persistent.py:161-205 | if every search starts within `lag` seconds of its slot, all importers keep to 200 searches in every hour exactly when `lag` is zero |
| `ImportPolicy.HighestIssueNumber` | backend/features/library_import_policy.py:44-59 | the highest issue number any file carries, alone or as an end of a range; none exactly when none does |
| `ImportPolicy.CapacityOrdersCandidates` | backend/features/library_import_policy.py:62-111 | being able to hold the highest issue is worth three points and never costs any |
| `ImportPolicy.ScoreIsEvidence` | backend/features/library_import_policy.py:62-111 | the score is the ranker's, one point more when a file names the candidate's year, and, where files are numbered, two more with room for every number or one less without |
| `ImportPolicy.StrictlyBestDecides` | backend/features/library_import_policy.py:259-322 | the entry whose ranking and evidence beat every other's is accepted when they are not negative together, held as weak otherwise, whatever the library |
| `ImportPolicy.ExactYearWins` | backend/features/library_import_policy.py:62-111 | among candidates alike to the ranker and in room, the only one whose year a file names is accepted |
| `ImportPolicy.RoomWins` | backend/features/library_import_policy.py:62-111 | among candidates alike to the ranker, the only one with room for the files' numbers is accepted, whatever the years |
| `ImportPolicy.TiesAreSettledInTurn` | backend/features/library_import_policy.py:259-322 | a tie at the top goes to the one owner of the folder, then to the fullest row of one series, else it is held |
| `ImportPolicy.OwnsFromAbove` | backend/features/library_import_policy.py:168-180 | a row owns the folder exactly when its volume was looked up and lies at or above the folder |
| `ImportPolicy.OneSeriesExactly` | backend/features/library_import_policy.py:195-244 | a tie is one series exactly when all rows agree on title up to case and punctuation, year and volume number, and two come from different databases |
| `ImportPolicy.SameTitleExactly` | backend/features/library_import_policy.py:195-200 | two titles count as one exactly when their letters and digits are the same in the same order, up to case |
| `ImportPolicy.FullestRowIsTaken` | backend/features/library_import_policy.py:246-256 | of one series a ComicVine row is taken if there is any, then the most issues, then provider and id as text |
| `ImportPolicy.LowestIsLowest` | backend/features/library_import_policy.py:246-256 | the row chosen for a series reported twice ranks no later than any other |
| `ImportPolicy.SelectAutoImportVolumeResult` | backend/features/library_import_policy.py:259-322 | scoring, sorting and looking at the first two places decides as the reference over the set of best-scored rows |
| `ImportPolicy.AcceptanceIsSafe` | backend/features/library_import_policy.py:259-322 | an accepted row has the best score, not negative, and shares it only as the one tied owner of the folder or with rows naming one series across two providers |
| `ImportPolicy.HoldsAreJustified` | backend/features/library_import_policy.py:259-322 | exactly when each hold reason is given: nothing viable; all below zero; a shared best score with neither one owner nor one series |
| `ImportPolicy.LookupIgnoresOrderExactly` | backend/features/library_import_policy.py:160-172 | the owner test's look-up table is the same for every order exactly when rows sharing a ComicVine id agree on their local volume |
| `ImportPolicy.WinnersExactly` | backend/features/library_import_policy.py:136-192 | a row can be picked as owner in some order exactly when it alone is added as a volume that owns the folder and every other ComicVine id has a row that does not |
| `ImportPolicy.VerdictIgnoresOrderExactly` | backend/features/library_import_policy.py:259-322 | the decision, its reason and the chosen provider and id are the same for every order of the list exactly when no row that can be picked changes what is decided without one, or one id is picked in every order and its rows are one identity |
| `ImportPolicy.VerdictIgnoresOrder` | backend/features/library_import_policy.py:160-172 | in particular the order never matters when best-scored rows sharing a ComicVine id agree on their local volume, whatever the library and the folder |
| `ImportPolicy.OrderCanDecide` | backend/features/library_import_policy.py:136-192 | for every file group and equal scores, two tied rows of another provider are imported in one order and held in the other |
| `RunContext.CreateGroups` | backend/features/library_import.py:141-173 | group k holds, in order, the files of the k-th kind, where a kind is everything but the issue number |
| `RunContext.GroupsAreClasses` | backend/features/library_import.py:141-173 | two files share a group exactly when they agree on everything but the issue number, and no file is duplicated or lost in its group |
| `RunContext.EveryFileIsGrouped` | backend/features/library_import.py:141-173 | every file is in a group |
| `RunContext.GroupsAreUsed` | backend/features/library_import.py:141-173 | no group is empty and no number is used twice |
| `RunContext.KindsInOrder` | backend/features/library_import.py:141-173 | groups are numbered in the order in which their kinds first appear |
| `RunContext.OverlapIsReportedUnlessNested` | backend/base/helpers.py:846-878 | what is reported is a common number unless the first range lies strictly inside the second; and exactly what happens for a range written backwards |
| `RunContext.NestedRangeIsMissed` | backend/base/helpers.py:874-878 | a concrete pair that shares a number unreported, and is reported with the arguments swapped |
| `RunContext.IsSingleIssueRun` | backend/features/library_import_context.py:52-81 | true exactly when every file is numbered, exactly one reaches issue 1, there are three or more, and no later one is reported to overlap an earlier one |
| `RunContext.RunShape` | backend/features/library_import_context.py:52-81 | in a promoted run exactly one file reaches issue 1, and two files share a number exactly when the later one is a range written forwards strictly inside the earlier one's, so single issues never repeat |
| `RunContext.SingleIssuesFormARunExactly` | backend/features/library_import_context.py:52-81 | single issues are a run exactly when there are at least three, none twice, and issue 1 is among them |
| `RunContext.RunHasOneFirstIssue` | backend/features/library_import_context.py:52-81 | whatever its issues look like, a run has three files or more and exactly one that covers issue 1 |
| `RunContext.OverlappingRunIsPromoted` | backend/features/library_import_context.py:173-219 | files of two years with issues 1-10, 2-3 and 4-5 form two groups, both promoted to the one search result though they share numbers |
| `RunContext.SelectSeriesRunWinner` | backend/features/library_import_context.py:100-140 | the winner is the one entry that is not negative and at least a point ahead of every rival, whatever the list's order |
| `RunContext.BoundaryBreaksTheTie` | backend/features/library_import_context.py:112-128 | among candidates that score alike, the only one with exactly as many issues as the run's last number wins |
| `RunContext.NoBoundaryNoPoint` | backend/features/library_import_context.py:112-128 | a run that ends at no whole positive number gives no candidate that point |
| `RunContext.HighestIssue` | backend/features/library_import_context.py:91-97 | the highest upper end of any numbered file |
| `RunContext.CombinedFiles` | backend/features/library_import_context.py:84-88 | merging the groups' dictionaries one after another |
| `RunContext.CombiningKeepsAll` | backend/features/library_import_context.py:84-88 | merging loses nothing when no name is used twice |
| `RunContext.PutReplaces` | backend/features/library_import_context.py:84-88 | a later file of the same name replaces the earlier one in its place |
| `RunContext.MatchNamesItsSeries` | backend/features/library_import_context.py:143-170 | a promoted match determines its series, with ComicVine and its id where no other is named |
| `RunContext.ApplySeriesRunContext` | backend/features/library_import_context.py:173-219 | every promoted group has its series' match, every other group and key what it had; the groups of one regular run share one fate, and a group in no run with another keeps its match |
| `RunContext.WholeRunOrNothing` | backend/features/library_import_context.py:186-219 | groups whose first files carry one folded series and one volume tag, neither special nor annual, end with one equal match or all keep theirs |
| `RunContext.OneClusterExactly` | backend/features/library_import_context.py:30-49 | two groups land in one cluster exactly when their first files agree on folded series, not empty, and volume tag, and are neither special nor annual |
| `RunContext.LoneGroupKeepsItsMatch` | backend/features/library_import_context.py:186-192 | a group in no regular run with another keeps its own match |
| `RunContext.PromotionNeedsARun` | backend/features/library_import_context.py:30-81 | a promotion needs a second group of the same regular run; the files of all its groups, in order, are at least three and one unambiguous sequence; and it is the run's winner among what its title's search found |
| `RunContext.PromotionExactly` | backend/features/library_import_context.py:173-219 | a regular group is promoted exactly when its run has two groups, is unambiguous, its title's search found something and that has a winner; and to that winner |
| `RunContext.KeySetIsKept` | backend/features/library_import_context.py:193-219 | the set of matched groups is unchanged when every group had a match |
| `DownloadQueue.QueueHandler.ProcessQueue` | backend/features/download_queue.py:331-356 | the in-order count with its early exit starts exactly the queued direct downloads with fewer than the limit eligible ones ahead |
| `DownloadQueue.PassFillsTheLimit` | backend/features/download_queue.py:331-356 | however the queue is ordered, a pass ends with the limit reached or nothing queued |
| `DownloadQueue.PassKeepsTheLimitExactly` | backend/features/download_queue.py:331-356 | a pass ends within the limit exactly when no running download had that many eligible ones ahead of it |
| `DownloadQueue.PassIsFirstInFirstOut` | backend/features/download_queue.py:331-356 | nothing queued ahead of a started download stays behind |
| `DownloadQueue.PassKeepsGood` | backend/features/download_queue.py:331-356 | started downloads stay ahead of queued ones and within the limit |
| `DownloadQueue.MoveIsPermutation` | backend/features/download_queue.py:358-384 | a move is a permutation that lands the download at the index and keeps the others' order |
| `DownloadQueue.QueueHandler.SetQueueLocation` | backend/features/download_queue.py:358-384 | the three error cases leave the queue alone; otherwise exactly that move |
| `DownloadQueue.QueueHandler.Add` | backend/features/download_queue.py:597-604 | arrivals go to the end in their order, and then a pass is made that leaves nothing waiting while there is room |
| `DownloadQueue.QueueHandler.Remove` | backend/features/download_queue.py:734-773 | a queued or dead direct download is off the list at once, any other stays listed, cancelled; no other entry changes |
| `DownloadQueue.QueueHandler.RemoveMega` | backend/features/download_queue.py:789-803 | walking a reversed copy stops every other Mega download although the list shrinks meanwhile |
| `DownloadQueue.SweepCancelsMega` | backend/features/download_queue.py:789-803 | after it every other Mega download still listed is cancelled and the rest is as it was |
| `DownloadQueue.QueueHandler.RunEnds` | backend/features/download_queue.py:101-144 | however its run ends, unless it was shut down, the download is off the list, all others are still there in their order (after a Mega limit all but Mega ones, and every Mega one still listed is cancelled), and the queue is filled up; one that was shut down stays |
| `DownloadQueue.ThreadEndsLeaveTheQueue` | backend/features/download_queue.py:101-144 | the same of the series of queue events a thread's end is |
| `DownloadQueue.NextStartsWhileImporting` | backend/features/download_queue.py:130-137 | while a finished download is imported it no longer counts, and the next ones are started |
| `DownloadQueue.ShutdownKeepsTheQueue` | backend/features/download_queue.py:820-833 | a shutdown marks every download and takes none off, also when its thread then returns |
| `DownloadQueue.StepKeeps` | backend/features/download_queue.py:101-144 | every event but a move keeps the limit, the order of started before queued, and the order of arrival |
| `DownloadQueue.EveryRunIsFair` | backend/features/download_queue.py:331-356 | in every run without moves the running ones keep to the limit, started precede queued, and starts are strictly in order of arrival |
| `DownloadQueue.PassSettles` | backend/features/download_queue.py:331-356 | after a pass in such a run exactly the limit runs or none is queued |
| `DownloadQueue.MovingBreaksTheLimit` | backend/features/download_queue.py:382-384 | a run with one move ends with two downloads running under a limit of one |
| `ExternalPolling.RunExternalDownload` | backend/features/download_queue.py:146-259 | the polling loop, with its failure counter and copied flag, behaves as the recursive reference on every list of answers |
| `ExternalPolling.SeedingOnce` | backend/features/download_queue.py:223-229 | seeding is processed at most once |
| `ExternalPolling.OneEnding` | backend/features/download_queue.py:205-258 | exactly one final step and one removal from the queue when the loop exits other than by shutdown, none of either otherwise |
| `ExternalPolling.EndsAsItsStateSays` | backend/features/download_queue.py:205-238 | the last thing done is the final step its state calls for, then leaving the queue |
| `ExternalPolling.ClientCleanup` | backend/features/download_queue.py:205-238 | the client's files are deleted exactly on cancel or failure, and a completed download is cleared exactly when the setting says so |
| `ExternalPolling.GivesUpExactlyAtTheLimit` | backend/features/download_queue.py:174-203 | it gives up exactly when 60 polls in a row have failed, any success restarting the count |
| `ExternalPolling.QuietShutdownExactly` | backend/features/download_queue.py:174-222 | a requested shutdown exits quietly exactly when the client answers before the failures run out and still knows the download |
| `ExternalPolling.ShutdownDuringOutageFails` | backend/features/download_queue.py:174-216 | otherwise the interrupted download is recorded as failed and taken off the queue |
| `ExternalPolling.CancelIsKeptExactly` | backend/implementations/download_clients.py:942-946 | a cancelled download ends cancelled at the client's first answer, whatever it is, unless the failures run out before, and then failed; until either the loop goes on |
| `ExternalPolling.StopsTakeHold` | backend/features/download_queue.py:174-222 | a stop takes hold where it lands: before an answer, after one, or after a failed poll |
| `ExternalPolling.ClientDecides` | backend/implementations/download_clients.py:929-950 | with no stop the loop ends in what the client last said, cancelled when it knows the download no more, at the first answer by which that is an end, or failed when the failures run out |
| `ExternalPolling.SeedingIsProcessedExactly` | backend/features/download_queue.py:223-229 | with no stop, seeding is processed once if the client ever says so while the loop runs, and only then |
| `ExternalPolling.EveryTurnWaits` | backend/features/download_queue.py:174-257 | every poll that does not end the loop is followed by exactly one wait or the processing of a seeding download |
| `BackupRetention.BackupFolder.PruneBackups` | backend/features/backups.py:217-244 | the counting loop removes exactly the readable ordinary archives beyond the first `keep` of the listing |
| `BackupRetention.BackupFolder.CreateBackup` | backend/features/backups.py:137-181 | the name clash and invalid-copy errors change nothing; otherwise a sound archive of this database, of this kind and date, is added and the rest pruned; it surely survives before a restore, or as the newest where one is kept; nothing else is new |
| `BackupRetention.OnlySurplusIsPruned` | backend/features/backups.py:217-244 | pre-restore and unreadable archives survive; a pruned one has at least `keep` ordinary ones as new |
| `BackupRetention.NewestAreKept` | backend/features/backups.py:217-244 | nothing deleted is newer than an ordinary archive that is kept |
| `BackupRetention.RetentionCount` | backend/features/backups.py:217-244 | exactly the smaller of `keep` and their number of ordinary archives are left |
| `BackupRetention.PruningIsIdempotent` | backend/features/backups.py:217-244 | pruning again deletes nothing, however the directory is listed |
| `BackupRetention.SafetyBackupIsKept` | backend/features/backups.py:137-181 | the safety backup survives the pruning it triggers, whatever the clock says |
| `BackupRetention.NewBackupIsKept` | backend/features/backups.py:137-181 | a pre-restore backup, or one newer than every ordinary archive where at least one is kept, outlives the pruning it sets off |
| `BackupRetention.SourceSurvivalBounds` | backend/features/backups.py:247-266 | the safety backup never costs a restore its source while fewer than `keep` other ordinary archives are at least as new, and always does once `keep` are newer, ties or not |
| `BackupRetention.OlderSourceIsLost` | backend/features/backups.py:252-266 | with one archive kept, the older of two is pruned before its own restore reads it |
| `BackupRetention.SourceSurvivesExactly` | backend/features/backups.py:247-266 | without a tie in age, the source survives the safety backup exactly when it is pre-restore or has fewer than `keep` newer ordinary ones |
| `RestoreStaging.Disk.StageRestore` | backend/features/backups.py:247-285 | it succeeds exactly when the live content and an intact archive of that name are databases of the program, the safety name is free and retention keeps the archive; then a copy is staged and the safety backup holds the live content, log included; failure leaves database and stage alone; exactly when the source is not found |
| `RestoreStaging.Disk.Stage` | backend/features/backups.py:252-276 | the states after each file operation of staging; it succeeds exactly for a database of the program, and only then is the stage a new one |
| `RestoreStaging.Disk.ApplyPendingRestore` | backend/features/backups.py:288-314 | succeeds exactly when nothing is staged or the stage validates and the database can be opened |
| `RestoreStaging.Disk.StartUp` | Kapowarr.py:96-105 | a stage that cannot be applied is removed; the states after each operation of a start |
| `RestoreStaging.StartAppliesExactly` | backend/features/backups.py:288-314 | a start leaves no stage, and the database becomes the staged image exactly when that opens, is sound and not from the future and the live file can be opened; otherwise it stays what it was |
| `RestoreStaging.EveryCrashPointIsSafe` | backend/features/backups.py:288-314 | wherever a start is cut off the database reads as before with the stage intact, or exactly as staged after the replacement; no log of another image is ever left beside it |
| `RestoreStaging.RestartConverges` | backend/features/backups.py:288-314 | starting again after a cut-off start ends in the very same files |
| `RestoreStaging.EveryRestartConverges` | backend/features/backups.py:288-314 | the same after any number of cut-off starts |
| `RestoreStaging.StagingIsSafe` | backend/features/backups.py:252-276 | at every point of staging the live content is untouched and the stage is the old one, absent, or validated |
| `RestoreStaging.StagedThenStarted` | backend/features/backups.py:247-314 | stage over any earlier stage, crash after any operation, restart at will: the database ends as whatever was staged at the crash, the source exactly from the last operation on |
| `RestoreStaging.SourceLostExactly` | backend/features/backups.py:252-266 | without a tie, the safety backup costs a restore its source exactly when it is ordinary with `keep` newer ones |
| `FolderPruning.Scanner.Decf` | backend/base/files.py:959-1000 | the recursive scan with its accumulator returns whether there is no file below and collects what the reference collects |
| `FolderPruning.CollectedExactly` | backend/base/files.py:959-1000 | what is collected is exactly the hollow folders no folder on the way to which is hollow |
| `FolderPruning.CollectedAreApart` | backend/base/files.py:959-1000 | no collected folder lies inside another |
| `FolderPruning.DeleteEmptyChildFolders` | backend/base/files.py:924-1008 | deleting the collected paths one by one leaves the tree without its hollow folders |
| `FolderPruning.RemovingIsCleaning` | backend/base/files.py:1002-1006 | removing exactly the maximal hollow folders is removing all hollow folders |
| `FolderPruning.CleaningKeepsFiles` | backend/base/files.py:924-1008 | no file is lost, and the files keep their paths and order |
| `FolderPruning.NoHollowFolderIsLeft` | backend/base/files.py:924-1008 | no hollow folder is left at any path |
| `FolderPruning.CleaningIsIdempotent` | backend/base/files.py:924-1008 | a second cleaning changes nothing |
| `FolderPruning.DeleteEmptyParentFolders` | backend/base/files.py:861-921 | the climb deletes what the reference dooms, past a root that is a file; it fails exactly when the root is missing |
| `FolderPruning.HighestRemovable` | backend/base/files.py:861-921 | a path is what is deleted exactly when it lies strictly below the root on the way to the start, nothing else stands from there on down, and the folder above it is the root or has another entry |
| `FolderPruning.ParentPruningLosesNoFileExactly` | backend/base/files.py:861-921 | no file is lost exactly when no proper ancestor of the start below the root is a file; a root that is a file is lost unless it is all there is up to the top |
| `FolderPruning.FileTakenForFolderIsDeleted` | backend/base/files.py:899-919 | cleaning up from r/a/b below r, where r/a is a file, deletes that file |
| `IssueNumbers.CalculatedIssueNumber` | backend/base/file_extraction.py:132-195 | the conversion loop with its dot flag gives what the character-wise reference gives, with its no-number and error cases |
| `IssueNumbers.IssueValue` | backend/base/file_extraction.py:132-195 | digits with a letter suffix become the number plus the suffix read as two-digit codes; a minus sign negates all of it |
| `IssueNumbers.SuffixOrder` | backend/base/file_extraction.py:21-24 | dictionary order of suffixes is the order of what they add, and different suffixes add different amounts |
| `IssueNumbers.StrictOrderEmbedding` | backend/base/file_extraction.py:132-195 | values compare as number first and suffix next, determine both, and lie in [n, n+1) |
| `IssueNumbers.IssuesCompare` | backend/base/file_extraction.py:132-195 | the same for the results of the calculation itself |
| `IssueNumbers.PlainIsNormal` | backend/base/helpers.py:633-650 | digits followed by lower-case letters pass normalisation unchanged, also behind a minus sign |
| `IssueNumbers.NormalForm` | backend/base/helpers.py:633-650 | blanks around an issue and points after it are dropped, commas are points, question marks zeros, capitals small letters |
| `IssueNumbers.WritingsAgree` | backend/base/file_extraction.py:132-195 | an issue counts the same in every such writing that `float` does not read at once |
| `IssueNumbers.FractionIssue` | backend/base/file_extraction.py:183-187 | a half adds 0.5 and a quarter 0.3, with or without a blank before it |
| `IssueNumbers.InfinityIsLast` | backend/base/file_extraction.py:174-179 | infinity comes after every issue of at most twelve digits, whatever its suffix |
| `IssueNumbers.PlainReaderReadsDecimals` | backend/base/file_extraction.py:132-195 | what the theorems ask of `float` is met by a plain reader of decimals |
| `PublisherAutomation.Automation.ProcessPublisherSubscriptions` | backend/features/pull_list.py:835-921 | the counting loop over releases: attempted is succeeded plus failed and the number of new attempts, and with the skipped ones all eligible releases |
| `PublisherAutomation.AttemptsAreWellSpaced` | backend/features/pull_list.py:786-917 | over any passes and any clock a job succeeds at most once, is never attempted after it, and is attempted at least a day apart |
| `PublisherAutomation.OncePerPass` | backend/features/pull_list.py:839-917 | one pass attempts a job at most once, even with duplicate releases |
| `PublisherAutomation.DueJobsAreAttempted` | backend/features/pull_list.py:839-880 | the job of a release that is out, subscribed to and asked for is attempted in a pass exactly when it had not succeeded and its last failure is a day old |
| `PublisherAutomation.OnlyReleasesThatAreOut` | backend/features/pull_list.py:839-917 | every attempt of a pass is that of one of its releases whose week has begun, whose date has come and whose publisher is subscribed to and asked for, with that subscription's action |
| `RateLimits.RateLimitHost` | backend/base/helpers.py:1245-1271 | the key is the longest registered scope the URL falls inside, else its host |
| `RateLimits.KeyIsUnique` | backend/base/helpers.py:1245-1271 | that key is the same whatever the order of registration |
| `RateLimits.RegisteredEndpointHasItsOwnKey` | backend/base/helpers.py:1212-1242 | a URL inside a registered endpoint's scope never shares a key with one outside it; the endpoint is inside its own exactly when its path has a slash |
| `RateLimits.Session.Request` | backend/base/helpers.py:1416-1538 | nothing while its key cools down; otherwise at most five attempts, each but the last a failure or a short refusal, and the last none or the fifth; two minutes of sleep at most; a limit recorded only as the last act |
| `RateLimits.Session.NoteRateLimit` | backend/base/helpers.py:1315-1322 | the cooldown asked for, or the default, from now on, for the URL's key alone |
| `RateLimits.Session.Remaining` | backend/base/helpers.py:1307-1312 | positive exactly while the URL's key cools down |
| `RateLimits.PauseAfter` | backend/base/helpers.py:1418-1517 | each pause is what the refusal asked for, or for a failure the back-off then in force, which each failure sets to 1, 2, 4, 8 |
| `RateLimits.FailuresBackOff` | backend/base/helpers.py:1418-1517 | failures alone are slept off for 1, 1, 2 and 4 seconds |
| `RateLimits.PausesAreShort` | backend/base/helpers.py:1418-1517 | however refusals and failures mix, no pause is longer than half a minute |
| `RateLimits.LimitStands` | backend/base/helpers.py:1307-1322 | over any series of requests a recorded limit blocks every request of its key until it expires, and no longer |
| `RateLimits.OtherKeysAreNotSilenced` | backend/base/helpers.py:1193-1209 | a limit leaves URLs of other keys as they were |
| `NaturalOrder.KeysAlternate` | backend/features/comic_reader.py:55-60 | a key alternates text and numbers, beginning and ending with text |
| `NaturalOrder.ComparingNamesNeverFails` | backend/features/comic_reader.py:55-60 | comparing two keys never compares a number with text |
| `NaturalOrder.NamesArePreordered` | backend/features/comic_reader.py:55-60 | keys order names totally, consistently and transitively |
| `NaturalOrder.EqualKeysExactly` | backend/features/comic_reader.py:55-60 | equal keys exactly for names equal up to case and leading zeros of digit runs |
| `NaturalOrder.NumbersCountAsNumbers` | backend/features/comic_reader.py:55-60 | after the same text, names go by the size of their next number |
| `NaturalOrder.TextsGoByLetters` | backend/features/comic_reader.py:55-60 | names without numbers go by their letters, capital or small |
| `NaturalOrder.KeyWritesPlain` | backend/features/comic_reader.py:55-60 | a key written out is the name in lower case without those zeros |
| `NaturalOrder.ListArchivePages` | backend/features/comic_reader.py:85-103 | the readable members, sorted |
| `NaturalOrder.NaturalSortWorks` | backend/features/comic_reader.py:102-103 | an ordered permutation that keeps names with equal keys in their order |
| `NaturalOrder.BuildPagesForFiles` | backend/features/comic_reader.py:241-289 | the pages of all files, in natural order of files and then of members |
| `NaturalOrder.PagesExactly` | backend/features/comic_reader.py:241-289 | the pages are exactly the images among the files and inside their archives |
| `NaturalOrder.PagesAreInOrder` | backend/features/comic_reader.py:241-289 | every page comes from a file, later pages never from one that sorts earlier, and pages of one archive are in name order |

## Left out

- SourceSurvivesExactly: assumes no tie in age with the source; with a tie the directory order decides, and `SourceSurvivalBounds` says how far.
- SourceLostExactly: the same assumption.
- IssueValue: exact decimals. A float merges suffixes longer than its precision; fractions are valued by `FractionIssue` but not part of the order theorem.
- RunEnds: post-processing takes no time here; what other threads do meanwhile are further events of the transition system, to which the theorems over runs apply.
- DeleteEmptyParentFolders: paths are component lists without links.
- Remove: a download without a thread, for which the source returns at once; every kind is given its thread before it is listed (backend/features/download_queue.py:452-475).
- Timestamps, decoding of the stored JSON, and the display fields of a hold.
- Download objects are values at their queue positions; another reference to one is not modelled.
- Two threads inside one queue operation; starting a download thread is one step with its first assignment of the downloading state.
- A second exception raised inside the importer's own exception handler.
- Importing files into the library, and the look-up of provider metadata: the worker's script says what they answer.
- The generic ranker, title matching and file-name parsing: inputs.
- SQLite, ZIP, RAR and TAR decoding, HTTP, FlareSolverr and the clients' protocols: flags and oracles.
- Release keys are given as numbers; how their text is made, and its cut at 255 characters, are not part of this model.
- Search results collected by publisher automation, and the links of found downloads.
- Hidden-folder skipping in child pruning, symbolic links to folders, and non-ASCII digits in natural sorting.
- Rate limits of concurrent requests, and scopes registered while a request is under way.
- Preferences, size limits, notifications, web pages, logging and database migration: easy, or plumbing.
