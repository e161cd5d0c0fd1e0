# bpfcompat: a verified model

bpfcompat checks eBPF programs against many kernels, keeps the reports and artifacts in a project registry, and lets
agents on hosts load what a report approved. This project models the parts of it whose correctness depends on whole
runs rather than on one function, and proves what those parts are there to guarantee.

| file | what it models |
|---|---|
| `Scheduler.dfy`, `SchedulerRuns.dfy`, `QueueLimit.dfy` | the validate-job table as a class, every interleaving of start handlers, workers and shutdown, and when the queue limit holds |
| `AuditRing.dfy`, `AuditRuns.dfy` | the audit log: append, rotation that may fail half way, merged listing, and every run of appends |
| `Ledger.dfy`, `Apply.dfy`, `ApplyGates.dfy` | the agent's load ledger, the gates before a load and what they require, the result file and its status summary, rollback |
| `LoadPolicy.dfy`, `PolicyDecision.dfy`, `PolicyMeaning.dfy` | the agent's load policy: normalization, validation, first-match evaluation, and what a policy as written means |
| `KeyCache.dfy`, `KeyStore.dfy`, `KeyRefresh.dfy`, `KeyVerify.dfy`, `KeyRuns.dfy` | the two-level key cache as interleaved steps of concurrent loads, and as a class whose loads refine those steps; the forced-refresh cooldown; the verification loop, and runs of it |
| `RateLimiter.dfy` | the fixed-window rate limiter |
| `Upload.dfy` | artifact uploads: quotas, content addressing, the record list |
| `Grants.dfy` | token grants: who a request acts as, and what revoking changes |
| `KernelOrder.dfy`, `Freshness.dfy`, `BaselineUpdate.dfy` | the order on kernel releases, selection by it, freshness verdicts, table updates |
| `ReportDiff.dfy` | the diff of two reports and how its counters balance |
| `Text.dfy`, `Sorting.dfy`, `Listing.dfy` | trimming, case folding, identifiers, sorting, sorted listings of sets |

`dafny verify dfyconfig.toml` verifies all of it. Time is an integer. The network, the file system, hashing, signature
checks, glob matching and token comparison are parameters, or results a step may take either way.

Some properties one would expect do not hold of the code. For these the model keeps the code as it is, gives a case
where the property fails, and proves exactly when it holds:

- At shutdown the drain waits for the HTTP server to stop, at most its timeout. If the server stopped in time, a
  reported drain is true and final (`SchedulerRuns.DrainAfterStop`). After a timeout it can report completion while a
  job is queued whose start handler has not reached the wait group (`SchedulerRuns.DrainCanRaceHandler`); with the wait
  group empty, all jobs are finished exactly when no handler is at that point (`SchedulerRuns.DrainReport`).
- The limit on queued jobs is not an invariant (`SchedulerRuns.QueueLimitIsNotAnInvariant`). A handler running alone
  passes it exactly when it finds the queue full and a slot free (`QueueLimit.LoneHandlerOverflowsExactly`); handlers
  past the capacity check stay within it in every order exactly when the queue has room for all of them
  (`QueueLimit.CreatesFitExactly`).
- After an interrupted rotation the audit ring can drop its oldest slot while another is free
  (`AuditRuns.InterruptedRotationDropsEarly`). An append loses events exactly when it finds the active file
  full and the last slot taken and the first operation of its rotation works (`AuditRuns.LossExactly`), so a run drops
  early exactly when some append met this with another slot free (`AuditRuns.EarlyDropExactly`), and never before a
  failure (`AuditRuns.CleanRunMeetsNoGap`).
- The status summary of an apply result and apply's exit code can disagree. For the statuses the executor returns
  ("pass", "fail", "error") that happens in one case: the load passed, audit and ledger are fine, and standard output
  fails after the result file was written (`Apply.ExecutorAgreement`, `Apply.HealthyFileFailedExit`). For statuses it
  never returns the condition is in `Apply.AgreementExactly` and `Apply.DisagreeingStatuses`.
- The rate limiter limits nothing in the window that starts at the zero time (`RateLimiter.FirstWindowUnlimited`).
  Windows are at most some 292 years long, so only an injected clock reads a time in it; `RateLimiter.WindowLaw` says
  what every window allows, that one included.
- The project limit bounds the bytes of recorded files, not the bytes on disk, which also include the files without a
  record (`Upload.StoredIsUsageAndOrphans`). An upload that fails after storing its content leaves such a file, and
  recording a version at its path takes it away again (`Upload.OrphansExactly`). With room for one byte, such an upload
  and a second one, failed or not, leave two bytes on disk (`Upload.OrphansEscapeQuota`). An upload takes the disk past
  the limit exactly when nothing refuses it, its path is free, and its content does not fit beside the recorded and
  unrecorded files (`Upload.DiskPassesLimitExactly`); a run does exactly when one of its uploads finds the project so
  (`Upload.RunPassesLimitExactly`).
- A hash collision between contents of different length can take even the recorded bytes past the limit
  (`Upload.CollisionPassesQuota`), exactly when the file already at the path does not fit (`Upload.StepQuotaExactly`).
- Revoking a subject in one project leaves those of its grants that reach the tenant by a wildcard, or the project
  only by a blank pattern (`Grants.BlankPatternSurvives`, `Grants.SurvivesExactly`).
- A new required failure is shown by no counter of a report diff exactly when its profile became required while failing
  in both reports without a drop in score (`ReportDiff.FlagFlipIsUncounted`, `ReportDiff.CountedExactly`,
  `ReportDiff.AllCountedExactly`). The failure counter is the number of failing profiles exactly when no failing target
  is replaced by a later one of its profile (`ReportDiff.CounterIsProfilesExactly`, `ReportDiff.RepeatIsUncounted`), and
  the counters alone bound the required failures exactly when the failures they do not show are made up for
  (`ReportDiff.BoundHoldsExactly`).

## Model

| member | source | states |
|---|---|---|
| `Scheduler.EstimatePercent` | internal/api/server.go:2572-2604 | the estimate is between 5 and 100, and 100 only for the completed stage |
| `Scheduler.EstimateGrows` | internal/api/server.go:2572-2604 | the estimate grows from stage to stage whatever the profile counts, and with the completed profiles |
| `Scheduler.EstimateIsShare` | internal/api/server.go:2581-2593 | validating targets takes it from 45 to 90, by the completed share rounded down |
| `Scheduler.UpdatesOne` | internal/api/server.go:2715-2731 | an update stamps one stored job, keeps its percentage within 0 and 100, and touches no other |
| `Scheduler.ProgressTakesOver` | internal/api/server.go:2538-2570 | progress marks the job running, takes over the counts it is given, and never lowers the percentage |
| `Scheduler.JobTable.constructor` | internal/api/server.go:2681-2713 | a table starts empty with the given limits |
| `Scheduler.JobTable.Counts` | internal/api/server.go:2669-2679 | the scan returns how many jobs are running and how many are queued |
| `Scheduler.JobTable.EnsureCapacity` | internal/api/server.go:2606-2626 | capacity is reported exactly when the running count or the queued count is below its limit at that instant |
| `Scheduler.JobTable.Create` | internal/api/server.go:2681-2713 | the table gains one queued job and is then trimmed to the storage limit |
| `Scheduler.JobTable.FinishedIds` | internal/api/server.go:2773-2793 | lists exactly the finished jobs, each once |
| `Scheduler.JobTable.Trim` | internal/api/server.go:2773-2793 | only finished jobs go, oldest update first, no more than needed, stopping early only when none is left |
| `Scheduler.JobTable.Poll` | internal/api/server.go:2628-2667 | one pass of the slot wait: a stored job has the slot afterwards exactly when it was running or fewer than maxActive jobs were |
| `Scheduler.JobTable.Update` | internal/api/server.go:2715-2731 | changes one stored job and stamps it; a missing job changes nothing |
| `Scheduler.SortByUpdate` | internal/api/server.go:2773-2793 | a permutation of the ids in order of last update |
| `Scheduler.TrimDone` | internal/api/server.go:2773-2793 | dropping a prefix of the oldest-first list of finished jobs is a correct trim |
| `SchedulerRuns.CreateKeepsInv` | internal/api/server.go:2347-2393 | creating and trimming keeps every unfinished job and its handler consistent |
| `SchedulerRuns.PollKeepsInv` | internal/api/server.go:2628-2667 | polling keeps the bound on running jobs |
| `SchedulerRuns.UpdateKeepsInv` | internal/api/server.go:2538-2570 | progress and completion only touch the worker's own running job |
| `SchedulerRuns.AddKeepsInv` | internal/api/server.go:2347-2393 | entering the wait group keeps its count equal to the counted workers |
| `SchedulerRuns.DoneKeepsInv` | internal/api/server.go:2491-2526 | leaving the wait group keeps its count equal to the counted workers |
| `SchedulerRuns.StepKeepsInv` | internal/api/server.go:2347-2793 | every step of every handler, worker and shutdown keeps the invariant |
| `SchedulerRuns.RunKeepsInv` | internal/api/server.go:2347-2793 | so does every interleaving of steps |
| `SchedulerRuns.ActiveBound` | internal/api/server.go:2628-2679 | in every reachable state at most maxActive jobs run |
| `SchedulerRuns.NoJobLost` | internal/api/server.go:2491-2526 | in every reachable state a waiting or working worker finds its job in the state it expects; the "job not found" exit is never taken |
| `SchedulerRuns.UnfinishedBound` | internal/api/server.go:2355-2387 | unfinished jobs are at most the wait group plus the handlers between create and add |
| `SchedulerRuns.DrainReport` | internal/api/server.go:585-617 | when the wait group is empty, every stored job is finished exactly when no handler is between create and add |
| `SchedulerRuns.DrainIsFinal` | internal/api/server.go:585-617 | after a drain with no start handler in flight the table never changes again and holds finished jobs only |
| `SchedulerRuns.StepKeepsShutdown` | internal/api/server.go:585-617 | every step keeps that |
| `SchedulerRuns.RunKeepsShutdown` | internal/api/server.go:585-617 | in every run: after the server stopped no start handler is left, and after the drain reported then, no worker |
| `SchedulerRuns.DrainAfterStop` | internal/api/server.go:585-617 | when the HTTP server stopped without timing out, a reported drain means every stored job is finished and the table never changes again |
| `SchedulerRuns.StepAdvances` | internal/api/server.go:2538-2570 | a step never lowers a job's percentage, requeues it or changes it once finished |
| `SchedulerRuns.JobLifecycle` | internal/api/server.go:2491-2570 | over any run a job only advances, and disappears only when its work is done |
| `SchedulerRuns.GoneForGood` | internal/api/server.go:2773-2793 | a job that was trimmed never comes back |
| `SchedulerRuns.PollStartsExactly` | internal/api/server.go:2628-2667 | a waiting job starts at its next poll exactly when a slot is free; no other job changes |
| `SchedulerRuns.FinishEnds` | internal/api/server.go:2491-2526 | a run that succeeds leaves its job completed at 100, one that fails leaves it failed |
| `SchedulerRuns.EndsByItsRun` | internal/api/server.go:2491-2526 | over any run of the server, a job is completed only by a run of it that succeeded and failed only by one that failed |
| `SchedulerRuns.JobCanEnd` | internal/api/server.go:2491-2667 | no deadlock: with a positive limit, every job not yet ended can go on to end either way, whatever the other handlers did so far |
| `SchedulerRuns.QueueMany` | internal/api/server.go:2347-2393 | for any n some interleaving queues n jobs whatever the queue limit |
| `SchedulerRuns.QueueLimitIsNotAnInvariant` | internal/api/server.go:2606-2626 | so the queue limit is not an invariant of the queue |
| `QueueLimit.StepOverflowsExactly` | internal/api/server.go:2681-2713 | a step takes the queue past its limit exactly when it creates a job while the queue is full |
| `QueueLimit.LoneHandlerOverflowsExactly` | internal/api/server.go:2606-2626 | a handler running alone leaves more jobs queued than the limit exactly when it found the queue full and a slot free |
| `QueueLimit.TrimExists` | internal/api/server.go:2773-2793 | every table can be trimmed as the source trims it |
| `QueueLimit.CreatesPossible` | internal/api/server.go:2681-2713 | all handlers past the check can create their jobs one after the other |
| `QueueLimit.CreatesFitExactly` | internal/api/server.go:2347-2393 | whatever the order in which handlers past the check create their jobs, the queue stays within its limit exactly when it has room for all of them |
| `SchedulerRuns.DrainCanRaceHandler` | internal/api/server.go:585-617 | a reachable state where the wait for HTTP handlers timed out, the drain reported completion and a job is unfinished |
| `AuditRing.MoveGap` | internal/cloudregistry/store.go:869-918 | renaming a slot into the gap above it moves the gap down and loses nothing |
| `AuditRing.DropLast` | internal/cloudregistry/store.go:869-918 | removing the oldest slot opens the gap the shift needs |
| `AuditRing.NewerIsOrder` | internal/cloudregistry/store.go:920-960 | the listing order by date and id is a strict weak order |
| `Sorting.StableSortSorts` | internal/cloudregistry/store.go:950-955 | the result of the stable sort is sorted by the comparison |
| `Sorting.StableSortPermutes` | internal/cloudregistry/store.go:950-955 | it is a permutation of its input |
| `Sorting.StableSortKeepsTies` | internal/cloudregistry/store.go:950-955 | elements that compare equal keep their order |
| `AuditRing.AuditLog.constructor` | internal/cloudregistry/store.go:775-842 | a log starts as an empty directory |
| `AuditRing.AuditLog.Rotate` | internal/cloudregistry/store.go:869-918 | the directory after a rotation is the shifted ring, complete or as far as the first failing operation; unchanged when none is due or the first operation fails |
| `AuditRing.AuditLog.Append` | internal/cloudregistry/store.go:775-842 | a refused event changes nothing; otherwise a rotation, then the event at the end of the active file, unless preparing, rotating, opening or writing fails; a failing close leaves the line in the file and reports an error |
| `AuditRing.AuditLog.ReadShard` | internal/cloudregistry/store.go:980-1016 | the events of a shard that pass the filter, or failure exactly when a line is too long |
| `AuditRing.AuditLog.ReadAll` | internal/cloudregistry/store.go:966-975 | reads the active file and every slot rotation can fill |
| `AuditRing.AuditLog.List` | internal/cloudregistry/store.go:920-960 | the merged events, newest first, cut to the limit |
| `AuditRuns.RotationRetains` | internal/cloudregistry/store.go:869-918 | a rotation, interrupted anywhere, keeps every event in order, without the oldest slot's exactly when it is due and its first operation works |
| `AuditRuns.RotationKeepsShards` | internal/cloudregistry/store.go:869-918 | rotated shards hold at least maxBytes and every shard was below it before its last line |
| `AuditRuns.AppendRetains` | internal/cloudregistry/store.go:775-842 | what an append leaves: all retained events, without the oldest slot's exactly when a rotation is due and its first operation works, and its own if its line is in the file |
| `AuditRuns.AppendKeepsRing` | internal/cloudregistry/store.go:775-842 | one append, failing anywhere, keeps the ring a suffix of what is in the file, and says how many events go: the oldest slot's when a rotation is due and starts, else none |
| `AuditRuns.AppendKeepsGapFree` | internal/cloudregistry/store.go:775-842 | without failures the rotated slots stay without gap and grow by one until full |
| `AuditRuns.RunKeepsRing` | internal/cloudregistry/store.go:775-918 | every run of appends keeps the ring invariant, with failures while preparing, rotating, opening, writing or closing |
| `AuditRuns.RingIsSuffix` | internal/cloudregistry/store.go:775-918 | from an empty directory, with those failures anywhere, the ring read oldest slot first is a suffix of everything that got into the file, in slots 0 to M |
| `AuditRuns.CleanRing` | internal/cloudregistry/store.go:775-918 | without failures there is no gap and nothing is dropped until all M rotated slots hold at least maxBytes |
| `AuditRuns.LossExactly` | internal/cloudregistry/store.go:869-918 | an append loses events exactly when a rotation is due, its first operation works and the last slot is taken; it then loses that slot's |
| `AuditRuns.EarlyDropExactly` | internal/cloudregistry/store.go:775-918 | a run loses events while a slot is free exactly when some append with a rotation due whose first operation works met a directory with the last slot taken and another free |
| `AuditRuns.CleanRunMeetsNoGap` | internal/cloudregistry/store.go:775-918 | no append meets such a directory before some append failed |
| `AuditRuns.InterruptedRotationDropsEarly` | internal/cloudregistry/store.go:869-918 | a run with one failed rotation drops an event while a slot is free |
| `AuditRuns.ReadIsRetained` | internal/cloudregistry/store.go:966-1016 | what the reader collects is a permutation of the retained events that pass the filter |
| `AuditRuns.CutSorted` | internal/cloudregistry/store.go:920-960 | cutting a sorted list keeps the greatest elements |
| `AuditRuns.ListingAccepted` | internal/cloudregistry/store.go:920-960 | a listing by names that are empty or identifiers is not refused |
| `AuditRuns.ListingIsExact` | internal/cloudregistry/store.go:920-1016 | in every reachable ring a listing fails exactly when a retained line is too long; else it is the first `limit` of the retained events that pass the filter, newest first, none older than any left out |
| `AuditRuns.ListsWhatWasAsked` | internal/cloudregistry/store.go:1000-1012 | a listing and what it leaves out hold each retained event of the tenant and project asked for, as often as it was retained, and no other |
| `AuditRuns.ListedNewestFirst` | internal/cloudregistry/store.go:950-955 | listed events come newest first, equal dates by greater id first |
| `AuditRuns.StoredEvent` | internal/cloudregistry/store.go:775-842 | an event is refused exactly when its action is blank or a name is malformed; else it is stored with what it leaves open filled in |
| `AuditRuns.OpeningKeeps` | internal/cloudregistry/store.go:820-842 | opening the active file creates it if need be and changes nothing stored |
| `AuditRuns.LinesOfOneLength` | internal/cloudregistry/store.go:869-918 | each line counts its event and a line feed |
| `Ledger.LastSuccessIsLatest` | internal/agent/load_ledger.go:153-165 | the last success is the pass/success load of the artifact after which it has none; there is none exactly when it never had one |
| `Ledger.WithPrevious` | cmd/bpfcompat/agent.go:1520-1527 | an entry's previous fields are those of the load before it, empty if there is none |
| `Ledger.ReversedAt` | internal/agent/load_ledger.go:167-171 | the reversed list has the entries at mirrored places |
| `Ledger.ReverseEntries` | internal/agent/load_ledger.go:167-171 | swapping from both ends reverses the array |
| `Ledger.ListEntries` | internal/agent/load_ledger.go:114-151 | the artifact's entries, newest first, at most `limit` when positive |
| `Ledger.FirstOfReversed` | internal/agent/load_ledger.go:153-165 | the first success of the newest-first list is the latest success of the ledger |
| `Ledger.LastSuccessfulLoad` | internal/agent/load_ledger.go:153-165 | finds the latest pass/success load of the artifact |
| `Ledger.AppendKeepsPointers` | cmd/bpfcompat/agent.go:1474-1529 | in a ledger every load points back to the latest earlier success of its artifact, and appending keeps that |
| `Ledger.OnlySuccessCounts` | internal/agent/load_ledger.go:153-165 | only a successful load of an artifact changes which load is its last success |
| `Ledger.LoadBecomesLast` | internal/agent/load_ledger.go:153-165 | after an append the last success of every name is the entry, if it is a success for that name, else what it was |
| `Ledger.OwnLoadIsLast` | internal/agent/load_ledger.go:153-165 | a successful load becomes the last success of its own artifact and of no other |
| `Ledger.RollbackSwaps` | cmd/bpfcompat/agent.go:1017-1066 | a rollback that loads the planned version swaps current and previous; one that fails or is denied leaves both |
| `Ledger.RollbackParity` | cmd/bpfcompat/agent.go:983-1080 | after n rollbacks the pair is the original for even n, swapped for odd n |
| `Ledger.RollbackReturns` | cmd/bpfcompat/agent.go:983-1080 | n rollbacks return to the original pair exactly when n is even or the versions are equal |
| `Apply.Summarize` | cmd/bpfcompat/agent.go:1880-1996 | the summary is healthy exactly when fetch and load are good, the audit is persisted, the policy does not deny and the ledger has no error; the error shown is the result's own, else the first of policy, ledger, fetch and audit; the status of each part |
| `Apply.StatusesSay` | cmd/bpfcompat/agent.go:1930-1990 | when the fetch, load, audit and policy statuses of a summary are which |
| `Apply.ValidatePins` | cmd/bpfcompat/agent.go:1353-1380 | succeeds exactly when required pins are present and given pins match the decision and the fetched artifact |
| `Apply.PinsBlock` | cmd/bpfcompat/agent.go:1382-1399 | the pins block is there exactly when something is pinned or required, with what was given |
| `Apply.BuildManifestIntent` | cmd/bpfcompat/agent.go:1401-1423 | succeeds exactly when the manifest in use loads and declares a program, and one is in use if required |
| `Apply.EvaluateLocalPolicy` | cmd/bpfcompat/agent.go:1303-1351 | allows exactly when there is no policy and none is required, or a valid one evaluates to "allow" |
| `Apply.CheckGates` | cmd/bpfcompat/agent.go:745-895 | pins, manifest and policy all hold, or the first that does not names the phase |
| `Apply.LoadOutcome` | cmd/bpfcompat/agent.go:745-895 | the host executor runs exactly when every gate passes |
| `ApplyGates.PinsExactly` | cmd/bpfcompat/agent.go:1353-1380 | the pin gate passes exactly when required pins are given, a given decision id is that of the plan, and a given hash is hexadecimal and that of the artifact but for case and padding |
| `ApplyGates.ManifestExactly` | cmd/bpfcompat/agent.go:1401-1423 | the manifest gate passes exactly when the manifest given, else the record's for a local registry, declares a program, or there is none and none is required |
| `ApplyGates.PolicyExactly` | cmd/bpfcompat/agent.go:1303-1351 | the policy gate passes exactly when there is no policy and none is required, or it is valid, the manifest readable, and the policy as loaded allows the load |
| `ApplyGates.ExecutedHasRule` | cmd/bpfcompat/agent.go:745-895 | a load executed under a required policy that denies by default has a rule, as written, that allows it and applies to it |
| `Apply.SuccessIsGated` | cmd/bpfcompat/agent.go:1474-1519 | an entry is a success exactly when the load was executed and its status is empty, "pass" or "success"; it then has approval, policy "allow", pins and manifest on record |
| `Apply.AgreementExactly` | cmd/bpfcompat/agent.go:1880-1996 | summary and exit code agree exactly when the status is consistent with what was written out, or audit or ledger failed; with standard output failing only a failed status is consistent |
| `Apply.ExecutorStatus` | internal/runtime/execute.go:247-283 | the executor's status is "pass", "fail" or "error", and "pass" exactly when validator and load passed with exit code 0 |
| `Apply.ExecutorAgreement` | cmd/bpfcompat/agent.go:661-895 | for the executor's statuses they disagree exactly in that case |
| `Apply.HealthyFileFailedExit` | cmd/bpfcompat/agent.go:1834-1847 | a passed load with audit and ledger fine whose standard output fails leaves a healthy file and an error exit |
| `Apply.DisagreeingStatuses` | cmd/bpfcompat/agent.go:1880-1996 | of trimmed statuses, also those the executor never returns, exactly the empty one and "skipped" are not consistent; neither is a padded "pass" |
| `Apply.Agent.constructor` | cmd/bpfcompat/agent.go:661-895 | an agent starts with an empty ledger and no result file |
| `Apply.Agent.AppendLoad` | cmd/bpfcompat/agent.go:1474-1529 | appends the entry linked to the previous success of its artifact, or nothing when reading or writing the ledger fails; a failing close keeps the entry and reports an error |
| `Apply.Agent.Persist` | cmd/bpfcompat/agent.go:1449-1472 | the result records the audit, the entry written unless its file could not be closed, and the errors of each |
| `Apply.Agent.PersistOutcome` | cmd/bpfcompat/agent.go:1449-1529 | the entry of an approved run is about what was planned and fetched (name, version, hash, path), linked, and a success exactly when the executed load succeeded |
| `Apply.Agent.WriteResult` | cmd/bpfcompat/agent.go:661-895 | the file holds the result exactly when a path was given and writing worked |
| `Apply.Agent.ApplyApproved` | cmd/bpfcompat/agent.go:745-895 | an approved run: one entry at most, a success only behind the gates, and exactly when the exit code and the file's summary agree |
| `Apply.Agent.ApplyCommand` | cmd/bpfcompat/agent.go:661-895 | every path through apply keeps the ledger linked, executes exactly when approved and gated, writes an entry exactly when approved, fetched and storable; a load that succeeded becomes the last success of its artifact and nothing else changes one; exit code and file agree exactly as stated, whatever is written out |
| `Apply.Agent.ApplyFetchOnly` | cmd/bpfcompat/agent.go:691-745 | without approval nothing is loaded or recorded, and summary and exit code agree exactly when standard output works or the audit failed |
| `Apply.Agent.WriteFailure` | cmd/bpfcompat/agent.go:691-745 | the failure file is written exactly when a path is given and writing works, holds the phase and error, and is never healthy |
| `Apply.Agent.RecordDrill` | cmd/bpfcompat/agent.go:1582-1609 | a drill is in the ledger exactly when writing works, also if closing fails, and never changes the last successful load of any artifact |
| `Apply.Agent.PlanRollback` | cmd/bpfcompat/agent.go:983-1016 | planning succeeds exactly when the artifact is named, the ledger readable with a success of it, and the drill recorded and closed if asked for; a plan has a version exactly when there is one to go back to, and it is the recorded previous one; the drill holds the current and previous version, and nothing of how the load was approved |
| `Apply.Agent.Rollback` | cmd/bpfcompat/agent.go:983-1080 | an executed rollback applies the planned version from a ready plan and only behind the gates; what it writes is a success exactly when the load succeeded, and is then the planned version, so the pair is swapped |
| `Apply.Agent.ApplyVersion` | cmd/bpfcompat/agent.go:1531-1580 | an apply asked for one version of an artifact writes an entry for that version, if planning selects what it is asked for, and a success exactly when the load succeeded |
| `LoadPolicy.NormalizedListing` | internal/agent/load_policy.go:293-314 | a normalized list is the strictly sorted listing of its trimmed, folded, non-blank patterns |
| `LoadPolicy.SameCleanSameList` | internal/agent/load_policy.go:293-314 | lists with the same clean patterns normalize to the same list |
| `LoadPolicy.NormalizeListIdempotent` | internal/agent/load_policy.go:293-314 | normalizing a list twice is normalizing it once |
| `LoadPolicy.NormalizePatternList` | internal/agent/load_policy.go:293-314 | the scan with a set of seen patterns and a sort computes that listing |
| `LoadPolicy.NormalizeOneRule` | internal/agent/load_policy.go:99-144 | rewrites one rule field by field and reports whether it is valid |
| `LoadPolicy.NormalizeAndValidate` | internal/agent/load_policy.go:99-144 | rewrites the policy up to its first invalid part and reports whether it is valid |
| `LoadPolicy.RewritesPointwise` | internal/agent/load_policy.go:99-144 | rules are valid together exactly when each is, and each is rewritten on its own |
| `LoadPolicy.NormalizeIdempotent` | internal/agent/load_policy.go:99-144 | normalizing a valid policy twice is normalizing it once |
| `PolicyDecision.FirstMatch` | internal/agent/load_policy.go:146-192 | the result matches and no earlier rule does |
| `PolicyDecision.AllowExactly` | internal/agent/load_policy.go:146-259 | allowed exactly when not revoked, listed if there is a list, and the first matching rule allows, or none matches and the default allows |
| `PolicyDecision.DecidedBy` | internal/agent/load_policy.go:146-192 | revocation decides first, then the allow list, then the first matching rule with its name and action, then the default |
| `PolicyDecision.EvaluateNormalized` | internal/agent/load_policy.go:146-192 | a valid policy and its normal form give the same decision |
| `PolicyDecision.DecisionIgnoresSpelling` | internal/agent/load_policy.go:99-192 | the decision depends on each pattern list only through its set of clean patterns |
| `PolicyDecision.SpellingVariants` | internal/agent/load_policy.go:293-314 | reordering, repeating, re-casing and padding entries keep that set |
| `PolicyDecision.RevokedIsDenied` | internal/agent/load_policy.go:146-192 | an agent a revoked pattern names is denied whatever the rest of the policy says |
| `PolicyMeaning.ParsesNumbers` | internal/agent/load_policy.go:352-369 | a release or bound is read as the first three numbers written in it, at least two, none over 64 bits, whatever text is around them |
| `PolicyMeaning.ComparesKernels` | internal/agent/load_policy.go:371-381 | versions compare by major, then minor, then patch |
| `PolicyMeaning.ValidExactly` | internal/agent/load_policy.go:99-144 | a policy is valid exactly when its schema is the known one or left out and every action and bound reads |
| `PolicyMeaning.MatchesExactly` | internal/agent/load_policy.go:194-259 | the code matches a normalized rule exactly when the rule as written applies: each list is blank or names the agent, tenant, project, artifact, a profile, a program type and an attach kind, and the verified flag and kernel bounds hold |
| `PolicyMeaning.NamedIsAdmitted` | internal/agent/load_policy.go:293-346 | a list that holds a name admits it, however either is padded or cased |
| `PolicyMeaning.AllowsExactly` | internal/agent/load_policy.go:146-192 | a valid policy as written allows a load exactly when the agent is not refused and the first rule that applies allows, or none applies and the default allows |
| `PolicyMeaning.AgentDecides` | internal/agent/load_policy.go:146-169 | a refused agent is denied by the revocation or else by the allow list |
| `PolicyMeaning.RuleDecides` | internal/agent/load_policy.go:170-182 | otherwise the first rule that applies decides, under its name or its number |
| `PolicyMeaning.DefaultDecides` | internal/agent/load_policy.go:183-192 | and when none applies, the default, deny when left out |
| `PolicyMeaning.AllowNeedsRule` | internal/agent/load_policy.go:146-192 | under a default of deny an allowed load has a rule that allows it and applies to it |
| `PolicyMeaning.OtherTenantsOnly` | internal/agent/load_policy.go:194-203 | a rule whose tenants are all others does not apply |
| `KeyCache.CacheKeyIdentifies` | internal/api/write_auth.go:93-95 | sources that differ never share a cache entry |
| `KeyCache.IssuerSpelling` | internal/api/write_auth.go:832-836 | an issuer is the same with padding and with one slash at its end |
| `KeyCache.HttpsOnly` | internal/api/write_auth.go:843-850 | https in any case will do, plain http will not |
| `KeyCache.LookUpKeysKeepsInv` | internal/api/write_auth.go:608-631 | a key-cache hit uses keys fetched within the key lifetime |
| `KeyCache.ResolveKeepsInv` | internal/api/write_auth.go:700-722 | the discovery lookup reads the clock no earlier than its load did |
| `KeyCache.LookUpUrlKeepsInv` | internal/api/write_auth.go:700-722 | a discovery hit yields a URL named within the discovery lifetime |
| `KeyCache.DiscoverKeepsInv` | internal/api/write_auth.go:723-752 | a discovered URL is https and comes from a document that names the issuer asked for |
| `KeyCache.StoreUrlKeepsInv` | internal/api/write_auth.go:753-760 | a stored URL expires one discovery lifetime after the clock was read |
| `KeyCache.FetchKeepsInv` | internal/api/write_auth.go:633-698 | fetched keys are not empty and come from the source's own location, by https unless a file |
| `KeyCache.StoreKeysKeepsInv` | internal/api/write_auth.go:608-631 | stored keys expire one key lifetime after the load began |
| `KeyCache.StepKeepsInv` | internal/api/write_auth.go:608-760 | every step of every concurrent load keeps the provenance of both caches |
| `KeyCache.RunKeepsInv` | internal/api/write_auth.go:608-760 | so does every interleaving |
| `KeyCache.StalenessAdds` | internal/api/write_auth.go:608-760 | in every run, keys used at `now` were fetched for that source after now - jwksTTL, for an issuer from a URL in a network answer after now - jwksTTL - oidcTTL that names this issuer, both before the use |
| `KeyCache.LoadedIsTraced` | internal/api/write_auth.go:608-760 | the keys any load of any run returned are such a use, at its own clock reading and for its own source |
| `KeyCache.StalenessIsReached` | internal/api/write_auth.go:608-760 | for every issuer, document and key set a run uses keys whose only discovery is that old, to the nanosecond |
| `KeyStore.EndedStays` | internal/api/write_auth.go:608-631 | a load that has ended changes nothing more |
| `KeyStore.ResolveRuns` | internal/api/write_auth.go:700-760 | the steps of a discovery compute the URL and leave the discovery cache that `ResolveUrl` leaves |
| `KeyStore.FetchRuns` | internal/api/write_auth.go:633-698 | the steps of a fetch return the keys and leave the key cache that `FetchKeys` leaves |
| `KeyStore.LoadRefinesSteps` | internal/api/write_auth.go:608-760 | from any state and beside any other loads, the steps of one undisturbed load leave the caches and result that `LoadKeys` gives |
| `KeyStore.ForcedIgnoresCaches` | internal/api/write_auth.go:608-631 | what a forced load returns depends on the network only |
| `KeyStore.DiscoveredExactly` | internal/api/write_auth.go:723-760 | a document is accepted exactly when it names the issuer asked for and an https URL; otherwise the discovery cache stays |
| `KeyStore.LoadedExactly` | internal/api/write_auth.go:608-698 | a load returns fresh cached keys unless forced, else the keys of the answer exactly when their place can be reached and it holds any; otherwise the key cache stays |
| `KeyStore.Store.constructor` | internal/api/write_auth.go:85-90 | both caches start empty |
| `KeyStore.Store.ResolveUrl` | internal/api/write_auth.go:700-760 | the URL of an issuer from the cache or its document, and the discovery cache after |
| `KeyStore.Store.FetchKeys` | internal/api/write_auth.go:633-698 | the keys at a location, stored for one key lifetime, or none with the cache as it was |
| `KeyStore.Store.LoadKeys` | internal/api/write_auth.go:608-631 | the keys of a source from the cache, or located, fetched and stored |
| `KeyRefresh.RefreshGate.constructor` | internal/api/write_auth.go:569-573 | the gate starts with no refresh remembered |
| `KeyRefresh.RefreshGate.Allowed` | internal/api/write_auth.go:574-586 | grants exactly when the last grant of the source is at least 30 s back; a refusal changes nothing |
| `KeyRefresh.GateIsLastGrant` | internal/api/write_auth.go:574-586 | over any run the gate holds the last grant of each source |
| `KeyRefresh.GrantsAreSpaced` | internal/api/write_auth.go:574-586 | successive grants of a source are at least 30 s apart, whatever the clock and other sources do |
| `KeyRefresh.RefreshRate` | internal/api/write_auth.go:574-586 | an interval of length T holds at most floor(T / 30 s) + 1 grants of a source |
| `KeyRefresh.RefreshRateIsReached` | internal/api/write_auth.go:574-586 | that bound is reached for every number of grants |
| `KeyRefresh.SourcesExactly` | internal/api/write_auth.go:762-774 | a configuration has a source for each setting that is not blank: URL, then file, then issuer |
| `KeyRefresh.SourcesAreSeparate` | internal/api/write_auth.go:762-774 | the sources of a configuration are trimmed, not empty, and have different cache keys |
| `KeyVerify.AcceptedIsOffered` | internal/api/write_auth.go:534-557 | a source accepts exactly keys that verify: those it loads or, when these fail and the cooldown is over, those it loads afresh |
| `KeyVerify.AcceptedExactly` | internal/api/write_auth.go:525-560 | a signature is accepted on keys exactly when some source offers them after every source before it was refused |
| `KeyVerify.VerifySource` | internal/api/write_auth.go:534-557 | one source: a load and, when its keys fail and the gate grants it, a load afresh |
| `KeyVerify.VerifySignature` | internal/api/write_auth.go:525-560 | the loop over the sources: the answer and the state of both caches and the gate after it |
| `KeyRuns.RunMatches` | internal/api/write_auth.go:608-760 | loads one after the other leave the caches, and the last returns the keys, that their steps in the interleaving model give |
| `KeyRuns.ForcedAreGranted` | internal/api/write_auth.go:534-586 | over any run of visits to sources, the loads afresh of a source are exactly the refreshes the gate granted it |
| `KeyRuns.ForcedLoads` | internal/api/write_auth.go:534-557 | each load afresh has one gate reading |
| `KeyRuns.TriesAreCalls` | internal/api/write_auth.go:534-631 | visits leave the caches their loads leave, and accept what the last load returned |
| `KeyRuns.ChecksAreTries` | internal/api/write_auth.go:525-560 | signatures verified one after the other leave and accept what the visits they make do |
| `KeyRuns.ChecksKeepRate` | internal/api/write_auth.go:525-586 | over any number of signatures, a period of length T by the gate's clock holds at most floor(T / 30 s) + 1 loads afresh of a source |
| `KeyRuns.AcceptedKeysAreTraced` | internal/api/write_auth.go:525-760 | the keys a signature is accepted on were fetched within the key lifetime of the load that returned them, for an issuer from a URL found within both lifetimes |
| `RateLimiter.Limiter.constructor` | internal/api/registry_limits.go:41-65 | a limiter starts with no buckets |
| `RateLimiter.Limiter.Allow` | internal/api/registry_limits.go:41-65 | one call's answer and the buckets it leaves |
| `RateLimiter.InWindow` | internal/api/registry_limits.go:41-65 | a reading truncates to a window's start exactly when it lies in that window |
| `RateLimiter.BucketsSay` | internal/api/registry_limits.go:41-65 | after any run a key's bucket holds its last window and, past the zero time, min(calls there, max) |
| `RateLimiter.AllowedExactly` | internal/api/registry_limits.go:41-65 | a call is allowed exactly when it is in the window at the zero time or fewer than max earlier calls of its key are in its window |
| `RateLimiter.WindowLaw` | internal/api/registry_limits.go:41-65 | each key is allowed exactly min(calls, max) times per aligned window, and every time in the one at the zero time |
| `RateLimiter.IntervalBound` | internal/api/registry_limits.go:41-65 | any interval as long as the window, after the one at the zero time, holds at most 2 * max allowed calls of a key |
| `RateLimiter.BoundIsReached` | internal/api/registry_limits.go:41-65 | a run reaches 2 * max, for every max and every window of two or more ticks |
| `RateLimiter.KeysAreIndependent` | internal/api/registry_limits.go:41-65 | a key's answers depend on its own calls only |
| `RateLimiter.FirstWindowUnlimited` | internal/api/registry_limits.go:41-65 | in the window at the zero time every call is allowed |
| `Upload.Project.constructor` | internal/cloudregistry/store.go:539-716 | a project starts without records and files |
| `Upload.Project.ExistingVersions` | internal/registry/history.go:271-298 | the records of one name, so many and with those versions |
| `Upload.Project.StorageUsage` | internal/cloudregistry/store.go:1305-1331 | the bytes of the recorded files that exist, each path once |
| `Upload.Project.Precheck` | internal/cloudregistry/store.go:561-585 | missing project, version quota and conflict, in that order, before anything is written |
| `Upload.Project.Place` | internal/cloudregistry/store.go:587-663 | the temporary file is gone whatever happens; the content is at its final path exactly when nothing refused it |
| `Upload.Project.Upload` | internal/cloudregistry/store.go:539-716 | the outcome, records and files of one upload; a rejected one changes nothing and leaves no temporary file |
| `Upload.UnrecordedIsNotCounted` | internal/cloudregistry/store.go:1305-1331 | a file at a path that is not recorded does not count as usage |
| `Upload.StepKeepsInv` | internal/cloudregistry/store.go:539-716 | an upload keeps (name, version) unique, versions and artifact sizes within their limits, and every record's hash that of its stored bytes |
| `Upload.RunKeepsInv` | internal/cloudregistry/store.go:539-716 | so does every sequence of uploads with any failures |
| `Upload.VersionsAre` | internal/registry/history.go:271-298 | the versions of a name are counted by its records |
| `Upload.StoredHashIsExpected` | internal/cloudregistry/store.go:634-648 | an upload that gives a hash is stored and recorded only with content of that hash |
| `Upload.MismatchExactly` | internal/cloudregistry/store.go:561-648 | a mismatch is reported exactly when an upload passes every check before its hash and gives another one; nothing changes |
| `Upload.StoredExactly` | internal/cloudregistry/store.go:561-663 | an upload is stored exactly when it passes every check, gives no hash or the right one, and its file can be put in place |
| `Upload.HashSpelling` | internal/cloudregistry/store.go:634-648 | the expected hash may be in upper case and padded |
| `Upload.RecordIs` | internal/cloudregistry/store.go:660-706 | the record has the trimmed name and version and the hash of the content |
| `Upload.RecordedBytes` | internal/cloudregistry/store.go:615-634 | a recorded upload adds the size of the file at its path to the usage, any other upload nothing |
| `Upload.StepQuotaExactly` | internal/cloudregistry/store.go:615-663 | an upload takes the usage past the quota exactly when it is recorded with a file already at its path that does not fit |
| `Upload.StoredFromRun` | internal/cloudregistry/store.go:650-663 | every stored file is the content of some upload of the run |
| `Upload.StoredIsUsageAndOrphans` | internal/cloudregistry/store.go:1305-1331 | the bytes on disk are the usage and the bytes of files without a record |
| `Upload.RunKeepsQuota` | internal/cloudregistry/store.go:615-634 | recorded bytes stay within a positive project limit over any sequence of uploads of which no two contents hash alike and differ in length |
| `Upload.CleanRunKeepsQuota` | internal/cloudregistry/store.go:615-634 | while no upload fails after storing, the bytes on disk stay within the limit, whatever the hash |
| `Upload.OrphansExactly` | internal/cloudregistry/store.go:660-706 | the files without a record after an upload: one more when nothing refuses it and the summary or record write fails, one fewer when it is recorded at the path of one, else the same |
| `Upload.DiskGrowsBy` | internal/cloudregistry/store.go:587-663 | an upload adds its content to the bytes on disk exactly when nothing refuses it and its path is free, recorded or not |
| `Upload.DiskPassesLimitExactly` | internal/cloudregistry/store.go:615-663 | an upload takes the bytes on disk past the limit exactly when it adds a file that does not fit beside the recorded and unrecorded ones |
| `Upload.RunPassesLimitExactly` | internal/cloudregistry/store.go:539-716 | after any number of uploads the disk is past the limit exactly when one of them did that |
| `Upload.OrphansEscapeQuota` | internal/cloudregistry/store.go:660-706 | such an upload and a second one, failed or not, leave two bytes on disk in a project limited to one |
| `Upload.CollisionPassesQuota` | internal/cloudregistry/store.go:650-663 | with a hash on which two contents of different length collide, a project limited to two bytes records three |
| `Grants.ResolveToken` | internal/cloudregistry/store.go:457-513 | the first usable grant decides; forbidden exactly when some grant matches the token and none is usable; unauthorized exactly when none matches |
| `Grants.FirstUsableIs` | internal/cloudregistry/store.go:457-513 | a usable grant with no usable one before it is the one chosen |
| `Grants.NoneUsable` | internal/cloudregistry/store.go:457-513 | no grant is chosen exactly when none is usable |
| `Grants.CheckedExactly` | internal/cloudregistry/store.go:425-439 | a bad request exactly when the tenant, or a project that is not blank, is no identifier; else token, tenant and project trimmed |
| `Grants.BootstrapExactly` | internal/cloudregistry/store.go:441-454 | the bootstrap token gives any checked request full rights exactly while its own window is open |
| `Grants.LetInExactly` | internal/cloudregistry/store.go:457-513 | a checked request is let in exactly when some grant matches its token, is within its dates, reaches tenant and project and allows what is asked; it acts as that grant's subject; otherwise forbidden or unauthorized as some grant matches the token or none |
| `Grants.OutsideWindowRefused` | internal/cloudregistry/store.go:136-156 | a token whose grants are all expired, not yet valid or with an unreadable date is refused |
| `Grants.KeepOutside` | cmd/bpfcompat/admin.go:203-212 | keeps exactly the grants outside the scope, in order, and counts the others |
| `Grants.AuthConfig.constructor` | cmd/bpfcompat/admin.go:196-202 | the configuration holds the grants loaded |
| `Grants.AuthConfig.Revoke` | cmd/bpfcompat/admin.go:158-231 | succeeds exactly for well-formed flags, a readable file with a grant in scope and, unless dry, a write that works; otherwise the grants stay |
| `Grants.KeptIn` | cmd/bpfcompat/admin.go:233-253 | a grant is kept exactly when it was there and is outside the scope |
| `Grants.OthersUnchanged` | cmd/bpfcompat/admin.go:158-231 | a request won by the bootstrap token or a grant outside the scope gets the identical principal after a revocation |
| `Grants.RevocationOnlyRemoves` | cmd/bpfcompat/admin.go:158-231 | a revocation lets nothing in that was not let in before |
| `Grants.RevokedSubjectIsGone` | cmd/bpfcompat/admin.go:158-231 | after an all-tenants revocation a request acts as the subject only under a built-in label: the bootstrap token's or that of grants naming no subject |
| `Grants.SurvivesExactly` | cmd/bpfcompat/admin.go:233-253 | a grant that reaches a tenant and project outlives their revocation exactly when it does so by a tenant wildcard or only by a blank project pattern |
| `Grants.SurvivesTenantExactly` | cmd/bpfcompat/admin.go:233-253 | a grant that reaches a tenant outlives the tenant's revocation exactly when its tenant is a wildcard |
| `Grants.OthersKept` | cmd/bpfcompat/admin.go:233-253 | a revocation keeps every grant of another subject, of another tenant, or for other projects |
| `Grants.ScopeExactly` | cmd/bpfcompat/admin.go:158-195 | a command names a scope exactly when it has a subject and either a tenant or all tenants without tenant and project |
| `Grants.BlankPatternSurvives` | cmd/bpfcompat/admin.go:233-253 | a subject revoked in a project still writes to it through a grant with a blank project pattern |
| `KernelOrder.ComparesFirstDifference` | internal/freshness/freshness.go:189-216 | the comparison decides by the first component that differs, a missing one being oldest |
| `KernelOrder.TotalPreorder` | internal/freshness/freshness.go:189-216 | on all strings the comparison is a total preorder, with 0 exactly for equal components |
| `KernelOrder.DecimalRoundTrip` | internal/freshness/freshness.go:198-206 | reading a written number gives it back |
| `KernelOrder.KeyIsNumbers` | internal/freshness/freshness.go:189-216 | the components of a release are the numbers written in it, whatever text is before, between and after, capped at 64 bits |
| `KernelOrder.OrderedByNumbers` | internal/freshness/freshness.go:189-216 | releases are level exactly when their numbers are equal, and older exactly by the first number that differs or is missing |
| `KernelOrder.MinorDecides` | internal/freshness/freshness.go:189-216 | within a series the minor numbers decide as numbers: 6.10 is newer than 6.9 |
| `KernelOrder.MatchesExactly` | internal/freshness/crawler.go:32-49 | an entry matches exactly when it has the target asked for, if any, and its release begins with and contains the texts asked for |
| `KernelOrder.Newest` | internal/freshness/crawler.go:32-49 | the loop returns the newest matching release |
| `KernelOrder.NewestIsMaximum` | internal/freshness/crawler.go:32-49 | that release matches and no matching one is newer; empty exactly when only empty releases match |
| `KernelOrder.NewestOfDistro` | internal/freshness/crawler.go:32-49 | none for an unknown distribution; else no match of the distribution asked for is newer |
| `KernelOrder.DistinctMatches` | internal/freshness/crawler.go:54-70 | the first matching entry of each release, each release once |
| `KernelOrder.SortByRelease` | internal/freshness/crawler.go:71-79 | the same entries, newest first |
| `KernelOrder.SweepEntries` | internal/freshness/crawler.go:54-80 | no repeated release, newest first, nothing left out is newer than anything included, and the head is level with the newest |
| `Freshness.FamilyCovers` | internal/freshness/freshness.go:150-170 | the loop returns the least sweep profile that reaches the newest kernel |
| `Freshness.CoverIsLeast` | internal/freshness/freshness.go:150-170 | one is named exactly when some sweep profile reaches it, and no such profile id is less |
| `Freshness.Inspect` | internal/freshness/freshness.go:85-144 | the memo answers what a fetch would, and each architecture is fetched once |
| `Freshness.EvaluateEntry` | internal/freshness/freshness.go:85-144 | one entry's verdict is the one a fetch of its own would give |
| `Freshness.Evaluate` | internal/freshness/freshness.go:85-144 | the verdicts are those of fetching for every entry, with one fetch per architecture asked for; fails exactly when one of these fails |
| `Freshness.VerdictFrom` | internal/freshness/freshness.go:85-144 | the verdict of an entry from its inventory |
| `Freshness.StaleExactly` | internal/freshness/freshness.go:85-170 | stale exactly when the series has a release newer than the recorded kernel and no sweep profile reaches the newest |
| `Freshness.ReachesExactly` | internal/freshness/freshness.go:150-170 | a sweep profile is the base, "-k", a digit and anything, with a kernel at least as new |
| `Freshness.VerdictExactly` | internal/freshness/freshness.go:85-144 | no entries when the series is empty, fresh when none of it is newer, covered exactly when a cover is named, which then reaches the newest |
| `Freshness.FetchedExactly` | internal/freshness/freshness.go:85-144 | a verdict is missing exactly when the inventory of the entry's architecture is needed and its fetch fails; uncovered and no-kernel need none |
| `Freshness.StaleCount` | internal/freshness/freshness.go:175-187 | the number of stale verdicts |
| `BaselineUpdate.LastIndex` | internal/freshness/update.go:12-46 | the last index of a profile |
| `BaselineUpdate.DateOfStart` | internal/freshness/update.go:12-46 | the recorded date is the first ten characters of the start time |
| `BaselineUpdate.BaselineTable.constructor` | internal/freshness/update.go:12-46 | the table holds the entries given |
| `BaselineUpdate.BaselineTable.BuildIndex` | internal/freshness/update.go:12-46 | every profile indexed at its last entry |
| `BaselineUpdate.BaselineTable.MergeOne` | internal/freshness/update.go:12-46 | merges one target and keeps the index in step |
| `BaselineUpdate.BaselineTable.UpdateFromReport` | internal/freshness/update.go:12-46 | merges the targets in order; `updated` lists the profiles whose existing entry was rewritten, in order, and the added profiles are the new entries |
| `BaselineUpdate.ChangesExactly` | internal/freshness/update.go:12-46 | a target adds exactly when the table grows and rewrites exactly when it changes without growing, to the observed kernel and the date |
| `BaselineUpdate.RewrittenExactly` | internal/freshness/update.go:12-46 | a profile is listed as updated exactly when one of its targets rewrote its entry |
| `BaselineUpdate.UpdateKeepsTable` | internal/freshness/update.go:12-46 | unique profiles stay unique and no crawler mapping is lost or invented |
| `BaselineUpdate.UpdateSettles` | internal/freshness/update.go:12-46 | after an update each observed profile has its last observed kernel, dated by the run unless only confirmed |
| `BaselineUpdate.UpdateIsIdempotent` | internal/freshness/update.go:12-46 | merging the same report again changes nothing |
| `BaselineUpdate.UpdatedVerdict` | internal/freshness/freshness.go:85-144 | after an update a mapped, observed profile is fresh exactly when its series has releases and none is newer than its last observed kernel |
| `Listing.StrictListingUnique` | internal/compare/diff.go:87-91 | a set of strings has one strictly sorted listing |
| `Listing.SortedListing` | internal/compare/diff.go:87-91 | iterating over a set in any order and sorting gives that listing |
| `ReportDiff.IndexTargets` | internal/compare/diff.go:74-86 | the loop maps each profile to its last target |
| `ReportDiff.MakeDiffProfiles` | internal/compare/diff.go:74-120 | one diff per profile of either report, in order of profile id |
| `ReportDiff.ChangeExactly` | internal/compare/diff.go:165-205 | unchanged exactly with equal status and classification; between statuses, improved towards and regressed away from the better of pass, fail, infra_error; only changed between two others |
| `ReportDiff.CountFailing` | internal/compare/diff.go:141-150 | counts the required targets that do not pass |
| `ReportDiff.FailingCount` | internal/compare/diff.go:74-150 | the failure counter is the number of failing profiles and of failing targets replaced by a later one of their profile |
| `ReportDiff.CounterIsProfilesExactly` | internal/compare/diff.go:74-150 | it is the number of failing profiles exactly when every failing target is the last of its profile |
| `ReportDiff.Summarize` | internal/compare/diff.go:122-152 | each counter is the number of diffs, or targets, with its property |
| `ReportDiff.DiffCount` | internal/compare/diff.go:122-152 | a counter over the diffs is the size of the set of profiles with the property |
| `ReportDiff.FailureBalance` | internal/compare/diff.go:122-152 | for all reports: head failures + base replaced + fixed + removed failing = base failures + head replaced + broken + added failing |
| `ReportDiff.FixedCount` | internal/compare/diff.go:154-192 | with agreeing required flags the fixed and broken profiles are those whose diffs say so |
| `ReportDiff.FlagsAgreeNoneSilent` | internal/compare/diff.go:154-163 | agreeing required flags leave no silent promotion |
| `ReportDiff.CountedExactly` | internal/compare/diff.go:154-192 | a new required failure is shown by a counter exactly when it is not a common profile that became required while failing in both reports without a drop in score |
| `ReportDiff.AllCountedExactly` | internal/compare/diff.go:122-192 | every new required failure is shown by a counter exactly when no profile is promoted silently |
| `ReportDiff.HeadFailuresBounded` | internal/compare/diff.go:122-192 | for all reports: head required failures + base replaced are at most base required failures + required regressions + required failing profiles added + silent promotions + head replaced |
| `ReportDiff.BoundHoldsExactly` | internal/compare/diff.go:122-192 | the counters alone bound the head required failures exactly when silent promotions and replaced targets after are at most replaced targets before, regressions that are no new failures, and failures fixed or removed |
| `ReportDiff.FlagFlipIsUncounted` | internal/compare/diff.go:154-163 | a profile that becomes required while failing is a new failure no counter shows |
| `ReportDiff.RepeatIsUncounted` | internal/compare/diff.go:122-152 | a repeated failing profile counts each time as a failure and once as a profile |
| `ReportDiff.SwapSymmetry` | internal/compare/diff.go:74-192 | swapping the reports exchanges added and removed, improved and regressed, and both failure counts, and keeps the total and changed counts |

## Left out

- HTTP routing, JSON and YAML codecs, multipart parsing, pages, badges, metrics and logging: input and output only.
- Cryptography and token parsing: hashes, signature checks and token comparison are parameters.
- Trimming and case folding are modelled for ASCII white space and letters.
- Job fields that only carry text (messages, errors, report paths) and the per-profile statuses of a running job.
- The 150 ms pace of the slot wait and the drain timeout: polling is a step that may happen at any time.
- Scheduler.JobTable.Trim: which of two finished jobs with the same update time goes first is left open, as the unstable sort leaves it open.
- Concurrent writers to the audit log or the ledger, writes that end in the middle of a line or truncate a file, and the ledger reader's limit on line length.
- AuditRing.AuditLog.Rotate: a failing `stat` of a slot is treated as the file being there or not.
- Apply.Agent.ApplyCommand: flag parsing, timeouts and the text of errors and reasons are not modelled; the selector, fetcher and executor answer freely.
- PolicyDecision.DecidedBy: the text of a decision's reason is not modelled.
- Freshness.Evaluate: the text of a verdict's reason is not modelled.
- KeyCache.StalenessAdds: the clock does not go back and the two lifetimes stay fixed during a run; several clock readings of one load are modelled, retries of a request are one answer.
- KeyRuns.AcceptedKeysAreTraced: for verifications one after the other; concurrent loads are covered, below the verification loop, by `KeyCache.StalenessAdds`.
- The test-only switch that admits plain http for key sources.
- Key sources of an unknown kind, which a configuration cannot produce; the choice of a key by id inside a key set.
- RateLimiter.WindowLaw: readings that reach the limiter out of order, which the lock does not prevent, are excluded by its precondition.
- Upload.Project.Upload: removing the temporary file is taken to succeed, the order of the listed records is not modelled (only their number, versions and sizes matter here), and a record is appended whole or not at all.
- Upload.RunKeepsQuota: supposes that no two contents of the run hash alike and differ in length, since a file already at the final path is kept instead of the new one.
- Apply.Agent.Rollback: that planning selects the version it is asked for, as internal/runtime/select.go:27 does locally, is a condition on the world of the apply it runs.
- SchedulerRuns.DrainReport: when the HTTP server stops is modelled as the moment no start handler is left; other handlers and idle connections are not.
- Reading a public project without a grant, and creating and listing grants.
- The hash chain over registry records and its verification.
- Report diff: the confidence fields and the text of the classification delta.
- The server's runtime-execute guard policy (a variant of the load policy), the failure classifier, request retries, client address parsing and archive size budgets.
