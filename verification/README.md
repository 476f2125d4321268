# LoreHub CI, modelled and proved in Dafny

LoreHub runs CI pipelines for Lore repositories. A definition file is validated and its jobs are put into
an order; a push freezes one specification per pipeline and queues a run group; runners claim pipelines
under leases, run their jobs with bounded parallelism and report back; the web editor edits definitions,
compares versions, keeps an undo history and stores a layout; a script archives repository folders.

The development follows the program's own components:

| files | component |
|---|---|
| `Graph`, `Topo`, `Config`, `PipelineFile` | needs graphs, the emission loop, validation of definitions (`src/ci/config.rs`) |
| `Scheduler`, `UnitTime` | the parallel job scheduler and its traces (`src/runner/scheduler.rs`) |
| `Queue`, `QueueRuns`, `Tables`, `RunGroups` | the tables, every transaction on them, and what all runs keep (`src/ci/db.rs`) |
| `Protocol`, `Completion`, `JobRecords`, `Executions` | runners, network and queue as one system: what is recorded, and what can happen (`src/runner/worker.rs`, `src/runner/client.rs`) |
| `Settings` | saved versions, frozen specifications, run groups of a push (`src/ci/settings.rs`) |
| `EndToEnd` | whole runs together with validation and with run groups |
| `LineDiff`, `EditHistory`, `Layout`, `EditorGraph` | the editor's algorithms (`web/*.js`) |
| `Archive`, `ArchiveRoundTrip`, `ArchiveRestore` | folder archives: writing and reading them (`scripts/repository-folder-archive.py`) |
| `RestoreModes`, `RestoreFolder`, `RestoreWritten` | restoring one, operation by operation, and which archives can be restored (the same script) |
| `Version`, `Text`, `Paths`, `Wrappers` | semantic versions (`src/version.rs`), splitting and joining text, where paths lead, `Option` and `Result` |

How the program's forms appear here:

- Each SQL transaction is one atomic step of a function on the tables `Db`; the class `Coordinator` holds
  the same tables in fields and its methods, with the scans and loops the statements stand for, are tied to
  these functions by `State()`. A run is any sequence of steps, so a statement about `Run` holds for every
  interleaving. The clock only moves forward.
- The network is part of the state of `Protocol`: claims and finish reports may be lost, delayed and
  repeated; job creation and job status are sent once, and a call that failed at the runner may still arrive
  once, at any later time. A runner may restart at any moment and then polls under a new request identity.
- The scheduler is a method against an arbitrary environment, which decides when cancellation is seen, which
  job ends next and how. Its trace of starts and ends obeys the rules `Legal`; the theorems are about all
  legal traces, and the end-to-end theorem lets the runner's trace be any of them.
- `flush` and `load` of the layout session are split at their awaits.
- A restore is a script of operations on the folder, each of which the system may refuse or cut short; an extraction
  that fails leaves any part of its entry. A run may end after any number of operations, so a statement about
  `MayLeave` holds for every crash and every failure.
- The numeric limits of the sources are parameters (`Limits`, `Bounds`, `maxCells`, `limit`, `budget`), apart from the
  100 characters of a name, the 100 bytes of a view's name and the 128 change patterns, which are constants.

Findings about the program that the proofs brought out:

- Only claims made with a request identity are covered by the busy check. A step gives a worker a second live pipeline
  exactly when it is a claim without identity by that worker while it is busy, may be given something, and there is
  something for it (`QueueRuns.TwoAfterStepExactly`); a run ever does exactly when some step of it is such a claim
  (`QueueRuns.TwoInRunExactly`). `QueueRuns.AnonymousClaimsTakeTwo` is a run that does.
- Writing an archive accepts file names with a backslash, reading refuses them: a folder archive makes the round trip
  exactly when no path contains one (`ArchiveRoundTrip.RoundTrip`, with an input in `ArchiveRoundTrip.BackslashNameIsNotRead`).
  A server archive is accepted under the identity `server:local` only, while the writer takes any
  (`ArchiveRoundTrip.ForeignServerIsRefused`, with an input in `ArchiveRoundTrip.ForeignStoreIsNotRead`).
- What was written can be restored exactly when it can be read, no top-level entry is named like the restore marker or
  the staging folder, and the restore is privileged or every top-level directory is writable for its owner
  (`RestoreWritten.RestorableExactly`). A directory of mode 0555 can be archived, but moving it out of the staging folder
  is refused to its owner (`RestoreWritten.ReadOnlyTopIsNotRestored`); the marker's own name is another input
  (`RestoreWritten.MarkerNameIsNotRestored`).
- The owner can set the modes of an accepted archive exactly when no directory is listed after what is below it with a
  mode that lacks owner search (`RestoreModes.ModesSettableExactly`). The writer's archives satisfy this;
  `RestoreWritten.LateParentIsClosed` is an accepted archive that does not, and needs privilege.
- A failed restore need not keep the marker: the marker is removed before the folder and its parent are synced. Exactly
  the runs that end in these last two operations leave the whole content and no marker
  (`RestoreFolder.MarkerAtStop`, with an input in `RestoreWritten.SyncFailureLeavesNoMarker`).
- The comparison of two texts keeps a longest common subsequence exactly when the middles fit into the cell limit or
  have no line in common (`LineDiff.Diff`); `LineDiff.LimitMissesCommonLine` is an input that is one cell too large.
- The edit history checks its size budget only when a new key is recorded. New data under the current key leaves it
  within its bounds exactly when the new total does (`EditHistory.CiEditHistory.Record`, with an input in
  `EditHistory.SameKeyOverflows`); the number of entries is within its limit in every state.
- A reaped lease must lie strictly in the past while an active one lies strictly in the future, so a running pipeline is
  neither exactly at the instant its lease ends (`QueueRuns.OnlyTheInstantIsNeither`). At that instant neither its holder
  nor a reap changes it, and any later reap ends it (`QueueRuns.InstantPasses`).

## Model

| member | source | states |
|---|---|---|
| Config.Validate | src/ci/config.rs:430-582 | accepts exactly the well-formed configurations whose needs are acyclic; the result is the same configuration with its jobs in the greedy order; a rejection names a requirement that is really violated |
| Config.OrderJobs | src/ci/config.rs:503-579 | linking and the emission loop succeed exactly when every need is known, distinct, not later-staged, and the needs are acyclic |
| Config.CheckStages | src/ci/config.rs:440-462 | no error certifies the stage rules; an error names a stage that breaks them |
| Config.CheckJobs | src/ci/config.rs:463-502 | no error certifies names, stages, timeouts and scripts; an error names the job and rule |
| Config.LinkNeeds | src/ci/config.rs:515-555 | prerequisites, dependents and indegrees are those of the needs, or a need rule is reported |
| Topo.Emit | src/ci/config.rs:556-577 | emits every node, each the least eligible one by stage and index, or stops with a node that lies on a cycle |
| Topo.EmitNext | src/ci/config.rs:559-576 | one turn keeps each indegree equal to the number of unemitted prerequisites |
| Topo.CycleMember | src/ci/config.rs:585-592 | ends for every state; a returned node is unemitted and lies on a cycle; when every unemitted node waits for another, it does return one |
| Topo.GreedyIsTopological | src/ci/config.rs:556-577 | what the loop emits is a permutation in which prerequisites come first |
| Topo.GreedyIsLeast | src/ci/config.rs:559-562 | and the lexicographically least one by (stage, index) among all topological orders |
| Topo.GreedyIsUnique | src/ci/config.rs:556-577 | the emitted order is determined by the input |
| Topo.GreedyIsStageSorted | src/ci/config.rs:543-562 | as needs never point to later stages, the order never goes back a stage |
| Topo.TopologicalIsAcyclic | src/ci/config.rs:556-572 | an order with prerequisites first rules cycles out, so success implies acyclic needs |
| Config.RejectedIsNotValid | src/ci/config.rs:430-572 | a reported error excludes validity, whatever the error |
| Config.AcceptedIsValidated | src/ci/config.rs:556-580 | the accepted configuration is well-formed, topological and sorted by stage |
| Config.ValidationIsLeast | src/ci/config.rs:556-580 | the validated job list precedes every other topological order |
| Config.ValidatedIsFixed | src/ci/config.rs:430-582 | validating a validated configuration succeeds and changes nothing |
| Config.ValidationIsIdempotent | src/ci/config.rs:556-580 | validating twice is validating once |
| PipelineFile.ValidateFile | src/ci/config.rs:225-364 | accepts exactly the files whose root or pipelines, names, views, patterns and needs are in order; only job order and white space around a view's name change; every error names a rule that is violated where it says, and a pipeline reported for a cycle lies on one |
| PipelineFile.TrimIsIdempotent | src/ci/config.rs:264-273 | trimming a view's name leaves no white space at its ends, and trimming again changes nothing |
| PipelineFile.FileValidationIsIdempotent | src/ci/config.rs:225-364 | a validated file is accepted again, unchanged |
| PipelineFile.PipelinesDetermineFile | src/ci/config.rs:238-243 | nothing written in an accepted file is ignored: two accepted files with the same named pipelines are equal |
| PipelineFile.DirectoryPatternMatchesComponents | src/ci/config.rs:199-208 | a `/**` pattern matches exactly the paths that its directory prefixes by whole components |
| PipelineFile.AcceptedPathStaysInside | src/ci/config.rs:210-216 | a path is accepted exactly when it has no backslash, colon or NUL and resolving its components one by one, from any directory, ends at that directory and exactly those components; on the way it never leaves the directory |
| PipelineFile.AcceptedPatternStaysInside | src/ci/config.rs:284-291 | the same for what a change pattern names, which may contain no wildcard either |
| PipelineFile.WorkingDirectoryStaysInside | src/ci/config.rs:274-277 | an accepted working directory is the top of the checkout or lies below it |
| PipelineFile.MatchesExactly | src/ci/config.rs:199-208 | an accepted pattern matches a changed path exactly when, resolved from any checkout, the path is the named one or, for a directory pattern, lies at or below it |
| PipelineFile.NameLeadsOneDown | src/ci/config.rs:594-600 | a valid name is the name of an entry of any directory, at most 100 bytes long |
| PipelineFile.ScriptLineIsNotBlank | src/ci/config.rs:492-501 | a script line is accepted exactly when trimming leaves something of it and it has no NUL |
| Scheduler.RunJobs | src/runner/scheduler.rs:10-76 | ends for every environment with a legal trace and nothing running; success means every job started and completed; on a validated configuration it never reports that it cannot make progress |
| Scheduler.Refill | src/runner/scheduler.rs:33-47 | after a pass capacity is used up or no unstarted job of the stage has its needs completed |
| Scheduler.JoinNext | src/runner/scheduler.rs:60-66 | one join completes a running job or ends the run with its error |
| Scheduler.DrainRunning | src/runner/scheduler.rs:71-76 | joins whatever still runs and starts nothing |
| Scheduler.StartsAreJustified | src/runner/scheduler.rs:34-46 | in every legal trace a job starts below the limit, after all its needs and every job of every earlier stage completed |
| Scheduler.NothingStartsAfterStop | src/runner/scheduler.rs:59-76 | after the first failure or observed cancellation nothing starts |
| Scheduler.LegalView | src/runner/scheduler.rs:29-66 | never more running than the limit; started is running plus completed until a failure |
| Scheduler.IdleStageIsDone | src/runner/scheduler.rs:48-58 | on a validated configuration a stage with nothing running and nothing ready is complete |
| Scheduler.SerialRunsInListOrder | src/runner/scheduler.rs:33-47 | with a limit of one, jobs start exactly in the validated list order |
| Scheduler.SuccessRunsEachJobOnce | src/runner/scheduler.rs:28-70 | a successful trace starts each job exactly once and completes it |
| UnitTime.UnitTimeStageBound | src/runner/scheduler.rs:29-66 | with unit-time jobs a stage of W jobs and longest same-stage chain L ends at T with m*T <= W + (m-1)*L |
| UnitTime.ScheduleBound | src/runner/scheduler.rs:33-47 | the same bound for every schedule in rounds that wastes no capacity |
| UnitTime.LateJobHeadsChain | src/runner/scheduler.rs:33-47 | a job not yet run heads a chain of needs longer than the rounds with unused capacity |
| Queue.Latest | src/ci/db.rs:356 | the row of that name and origin with the latest creation time, the greater id deciding between equals; none exactly when none is present |
| Queue.Candidate | src/ci/db.rs:361 | the claimable row with the earliest creation time, the smaller id deciding between equals; none exactly when nothing is claimable |
| Queue.Previous | src/ci/db.rs:329-335 | the row already assigned under this runner and request, if any |
| Queue.Coordinator.ClaimInner | src/ci/db.rs:304-368 | replay, busy check, draining, failing of dependents, assignment: the new tables and the answer |
| Queue.Coordinator.FailAllDependents | src/ci/db.rs:355-360 | every queued row with a dead need fails, judged by the statuses before the statement |
| Queue.Coordinator.SubmitPipeline | src/ci/settings.rs:222-271 | a new queued row, unless its id, its name within the run group, or its name as a push of the same branch and revision is taken |
| Queue.Coordinator.ExtendLease | src/ci/db.rs:370-374 | the lease is extended exactly for the active holder |
| Queue.Coordinator.RequestCancel | src/ci/db.rs:376-379 | the new tables and the returned row, none for an unknown id |
| Queue.Coordinator.FinishPipeline | src/ci/db.rs:381-396 | ends the pipeline and closes its open jobs, for the live holder only |
| Queue.Coordinator.ReapExpired | src/ci/db.rs:183-190 | every expired pipeline ends and its open jobs are closed |
| Queue.Coordinator.InsertJobs | src/ci/db.rs:398-422 | one queued job per job of the frozen or sent configuration, all or none |
| Queue.Coordinator.RecordJobStatus | src/ci/db.rs:424-440 | one job's status changes, for the active holder of its pipeline only |
| Queue.Coordinator.WorkerLog | src/ci/db.rs:465-488 | the line is appended exactly for the active holder and a job of that pipeline |
| Queue.Coordinator.RegisterRunner | src/ci/db.rs:192-211 | a registered runner is present and keeps its maintenance switch across restarts |
| Queue.Coordinator.SetRunnerDraining | src/ci/db.rs:248-257 | sets the switch of a known runner |
| Queue.Coordinator.RemoveRunner | src/ci/db.rs:259-281 | only a known runner that is offline and not busy is removed |
| QueueRuns.StepKeepsRows | src/ci/db.rs:183-440 | the complete list of ways in which any transaction may change a pipeline row |
| QueueRuns.RunKeepsRows | src/ci/db.rs:355-396 | over every run statuses only move forward, ended rows never change, worker and request stay once assigned |
| QueueRuns.RunKeepsSound | src/ci/db.rs:183-440 | every run keeps: running rows have a worker and a lease and no others a lease; queued rows are not cancel-requested and have no jobs; ended rows have no open job and are canceled exactly when cancel-requested; claims are unique |
| QueueRuns.EntersRunningOnce | src/ci/db.rs:361-366 | each pipeline enters running at most once |
| QueueRuns.TwoAfterStepExactly | src/ci/db.rs:304-368 | for all tables in which a worker does not hold two live pipelines, the step after which it does is exactly a claim without identity that meets the skipped busy check |
| QueueRuns.TwoInRunExactly | src/ci/db.rs:304-368 | over every run, a worker ever holds two live pipelines exactly when some step is such a claim |
| QueueRuns.OneLivePipelinePerRunner | src/ci/db.rs:343-348 | so a runner that never claims without identity while it is busy holds at most one live lease at any moment |
| QueueRuns.LostLeaseIsNeverRegained | src/ci/db.rs:370-396 | an expired or ended lease is never revived |
| QueueRuns.OldHolderHasNoEffect | src/ci/db.rs:370-488 | after that no heartbeat, finish, job creation, job status or log of the old holder changes anything, whatever happened since |
| QueueRuns.StartsByClaim | src/ci/db.rs:361-366 | a row is assigned only by a claim, to the claiming worker and request, and no other row with it |
| QueueRuns.ClaimHandsOutActive | src/ci/db.rs:329-348 | a claim only returns a pipeline that is running, live and not canceled under this runner and request |
| QueueRuns.ReplayedClaimIsIdempotent | src/ci/db.rs:329-343 | asking again under the same identity at any later time changes nothing and returns the same pipeline, or none once inactive |
| QueueRuns.ClaimPicksOldestFit | src/ci/db.rs:361 | a fresh assignment fits the runner, has its needs met, and was created before every other that does, the smaller id deciding between equals; a draining runner gets none |
| QueueRuns.ClaimAssignsWhenSomethingFits | src/ci/db.rs:361 | a claim that is no replay, of a runner neither busy nor draining, assigns something whenever anything fits and has its needs met |
| QueueRuns.RefusedClaimChangesNothing | src/ci/db.rs:343-354 | a claim of a draining runner, or under a request by a busy one, changes nothing and returns at most what the runner already holds under that request |
| QueueRuns.NeedIsJudgedByLastRun | src/ci/db.rs:355-361 | a need is judged by the run of that name that was created last: it is met when that one succeeded or there is none, and dead when it failed or was canceled |
| QueueRuns.EarlierStartsFirst | src/ci/db.rs:361 | in every run, as long as an earlier free row is queued no later row is started |
| Tables.EarlierSubmittedStartsFirst | src/ci/db.rs:126-136 | of two free submissions at different times, whatever happens between and after them, the earlier is started first |
| QueueRuns.LeaseLasts | src/ci/db.rs:361-374 | a claim, and each heartbeat of the active holder, keeps the pipeline active for the length of a lease |
| Tables.HeldUntilLeaseEnds | src/ci/db.rs:183-190 | over every run without its own report, a holder keeps its pipeline until the lease ends, whatever claims, reaps and cancels happen |
| Tables.HeartbeatHoldsOn | src/ci/db.rs:370-374 | a heartbeat of the active holder makes that a whole lease from then on |
| QueueRuns.SilentHolderIsReaped | src/ci/db.rs:183-190 | a holder silent for longer than a lease loses the pipeline to the next reap |
| QueueRuns.CancelTakesEffect | src/ci/db.rs:376-396 | after a cancel a pipeline that had not ended ends as canceled, however it ends, and its holder is inactive at once |
| QueueRuns.OnlyTheInstantIsNeither | src/ci/db.rs:183-190 | a running pipeline is neither live nor expired exactly when its lease ends at this very instant |
| QueueRuns.UnrenewedEndsAtReap | src/ci/db.rs:183-190 | over every run, a running pipeline whose lease is not live ends exactly when a reap comes later than the lease, and keeps its lease until then |
| QueueRuns.InstantPasses | src/ci/db.rs:183-190 | at the instant of expiry neither a reap nor any report of the holder changes the pipeline; a reap ends it as soon as any time has passed |
| QueueRuns.EndedRecordIsFinal | src/ci/db.rs:381-440 | whatever happens later, the jobs of an ended pipeline never change |
| QueueRuns.FinishClosesJobs | src/ci/db.rs:381-396 | for all later times a finish fixes the final status and what becomes of running, queued and closed jobs |
| QueueRuns.ReapEndsExpired | src/ci/db.rs:183-190 | for all later times a reap fixes the end of an expired pipeline and of its jobs |
| QueueRuns.AnonymousClaimsTakeTwo | src/ci/db.rs:343-348 | two claims without identity give one worker two live pipelines |
| QueueRuns.DrainingRunnerGetsNothing | src/ci/db.rs:248-257 | until switched back or removed, a draining runner is assigned nothing new, also across restarts |
| Tables.SwitchLasts | src/ci/db.rs:248-257 | the maintenance switch of a runner is the one set last, also across restarts and stops |
| Tables.StoppedRunnerGetsNoOs | src/ci/db.rs:222-228 | a stopped runner is assigned no pipeline that asks for an operating system |
| Tables.PresentRunnerStays | src/ci/db.rs:213-281 | over every run, a runner heard of within 15 seconds and not stopped stays registered |
| Tables.IdleRunnerIsRemovable | src/ci/db.rs:259-281 | an idle runner can be removed at once after it stopped, otherwise exactly when it was silent for more than 15 seconds; nobody else is removed with it |
| Tables.SubmitsExactlyWhenApart | migrations/0036_database_ci_config.sql:60-61 | a submission is refused exactly when its row would break the primary key or one of the two unique indexes, and is queued with the time of submission otherwise |
| Tables.CreatesExactlyWhenApart | src/ci/db.rs:398-422 | the jobs of the frozen or sent configuration are inserted exactly for the active holder and when no position or name of the pipeline would occur twice |
| Tables.RunKeepsTidy | migrations/0001_init.sql:20-31 | over every run all rows are apart, jobs have their own positions and names, log lines only grow, and each belongs to a started pipeline and a job of it |
| Tables.HolderLineIsKept | src/ci/db.rs:465-488 | a line of the active holder about its own jobs is appended and stays in its place in every later state |
| RunGroups.NeedsByRow | src/ci/db.rs:356-361 | with each name once, looking up the latest run by name judges exactly the rows needed |
| RunGroups.StartedNeedsSucceeded | src/ci/db.rs:361 | every pipeline ever started has everything it reaches through present needs succeeded |
| RunGroups.FailureReachesDependents | src/ci/db.rs:355-360 | a failure or cancellation reaches every pipeline at distance n within n claims that get as far as the update |
| RunGroups.ClaimPropagates | src/ci/db.rs:355-360 | one such claim carries it over one need |
| RunGroups.ClaimMakesProgress | src/ci/db.rs:355-366 | with something queued and nothing running, a capable claim takes some pipeline out of the queue |
| RunGroups.NeedsNeverDeadlock | src/ci/db.rs:355-366 | the same in every state reachable from a fresh acyclic group |
| RunGroups.ChancesAreBounded | src/ci/db.rs:355-366 | in a run without submissions every such claim is paid for by a pipeline that leaves the queue for good |
| RunGroups.GroupLeavesQueue | src/ci/db.rs:355-366 | so after as many such claims as pipelines were queued, whatever happens in between, nothing of the group is queued |
| Protocol.ActionIsQueueStep | src/runner/worker.rs:98-140 | every action of the system is one transaction or leaves the tables alone |
| Protocol.ExecutesAtMostOnce | src/runner/worker.rs:98-140 | over every interleaving each pipeline begins to execute at most once, on the runner in its row |
| Protocol.ReceivedIsNew | src/runner/worker.rs:118-132 | a received pipeline was never begun before, as its request would be used up |
| Protocol.ClaimIdentityIsUnique | src/runner/client.rs:229-237 | no two pipelines carry the same runner and request |
| Completion.SucceededMeansAllJobsSucceeded | src/runner/worker.rs:222-232 | in every reachable state a succeeded pipeline has jobs and all are recorded as succeeded |
| Completion.SuccessIsComplete | src/runner/worker.rs:371-425 | when the run ends well every job is recorded as succeeded and no call about it can still arrive; rests on an invariant that fixes each row by the phase of its closure, failures included |
| JobRecords.RecordedIsFinal | src/runner/worker.rs:414-421 | in every reachable world the row of a job whose closure recorded its end says succeeded if its script succeeded and failed otherwise, then and in every later world, however the pipeline ends |
| JobRecords.FailedJoinIsRecordedFailed | src/runner/worker.rs:414-423 | a job that the scheduler joined as failed, and whose closure recorded its end, is recorded as failed for good |
| JobRecords.CompletedJoinIsRecordedSucceeded | src/runner/worker.rs:414-424 | a job that was joined as completed is recorded as succeeded for good |
| JobRecords.RowsFollowClosures | src/runner/worker.rs:399-421 | until the pipeline ends, a job is queued until its closure announces it and running from then until its end is recorded |
| JobRecords.StatusesComeInOrder | src/runner/worker.rs:399-421 | until the pipeline ends, a job is announced while it is queued and recorded while it is running; the call of the active holder sets the row and no other call changes anything |
| Executions.EveryTraceHappens | src/runner/worker.rs:359-425 | conversely every legal trace of the scheduler over the jobs of a held pipeline is that of a run of the system, after which the pipeline is succeeded when all jobs completed and failed otherwise |
| Executions.EveryGivenPipelineCanRun | src/runner/worker.rs:98-232 | the same from the moment a runner asks: it receives the pipeline the claim gives out, its jobs are created, and any legal trace and the end it calls for can follow |
| Executions.GivingUpEndsFailed | src/runner/worker.rs:222-232 | a runner whose creation call fails gives up, and its report ends the pipeline as failed |
| Completion.StrayKeepsRecords | src/runner/client.rs:264-272 | a late job status only touches a job whose closure already failed |
| Completion.OneExecutor | src/runner/worker.rs:130-133 | no two runners execute one pipeline |
| Completion.JobsFitTheirPipeline | src/ci/db.rs:183-190 | in every reachable state ended pipelines have no open jobs and queued ones no jobs |
| Settings.ValidateSpec | src/ci/settings.rs:57-76 | accepts exactly schema 1 with a valid configuration, directory and OS; only job order changes |
| Settings.FrozenSpecIsFixed | src/ci/settings.rs:222-240 | a specification frozen from a stored definition, of a named pipeline or of the root, is accepted again, unchanged |
| Settings.FrozenSpecIsOwn | src/ci/settings.rs:222-240 | the specification frozen for a named pipeline has its configuration, working directory and operating system |
| Settings.PushedRowIsFrozen | src/ci/settings.rs:222-271 | each row that a push queues carries the configuration and operating system frozen for its name |
| Settings.JobListHandshake | src/runner/worker.rs:359-370 | while the pipeline has no jobs, the coordinator's own validation returns what the worker sent, and the inserted jobs match the worker's order |
| EndToEnd.OrderCheckNeverFails | src/runner/worker.rs:359-370 | in every reachable world, if submitted specifications are validated, a runner that sends its validated configuration goes on to work exactly when it is the active holder: the order check never fails |
| EndToEnd.BegunNeedsAreComplete | src/ci/db.rs:361 | in every reachable world, everything that a begun pipeline of a group reaches through present needs has jobs, all recorded as succeeded |
| Settings.PushGroupIsFresh | src/ci/settings.rs:222-271 | the group of one push has all rows queued, each name once and acyclic needs |
| Settings.PushQueuesTriggered | src/server/triggers.rs:1381-1418 | a push queues a row for exactly the pipelines whose patterns match a changed path and touches nothing else, unless one of them could not be queued on its own; then it changes nothing |
| Settings.TriggeredExactly | src/ci/config.rs:190-208 | a pipeline is triggered exactly when a changed path is, or lies below, what one of its patterns names, wherever the checkout is |
| Settings.CanBeTriggered | src/ci/config.rs:279-291 | every accepted pipeline is triggered by some accepted path |
| Settings.GroupNeedIsFileNeed | src/ci/settings.rs:247 | needs between queued rows are needs between pipelines of the file |
| Settings.ConfigStore.SaveDefinition | src/ci/settings.rs:136-169 | saves exactly valid files under the expected lock version; nothing changes otherwise; the new version is active |
| Settings.EditKeepsStore | src/ci/settings.rs:171-182 | versions never exceed the lock, are unique per scope, revisions are never changed, the active one belongs to its scope, and the lock grows by one exactly for an edit that is made |
| Settings.EditBrings | src/ci/settings.rs:101-124 | after an edit that is made the definition in force is the saved one, the restored one of the same scope, or none after the switch to the file, which needs the file to say what was in force |
| Settings.LastEditIsInForce | src/server/ci_settings.rs:293-303 | over every list of edits, refused ones and those of other scopes included, the definition in force is what the last edit made of the scope brought |
| Settings.UneditedStaysInForce | src/ci/settings.rs:101-124 | a scope of which no edit is made keeps its definition over every list of edits |
| Settings.SavedCanBeRestored | src/server/ci_settings.rs:277-327 | every version ever saved can be restored at any later time under the lock of that time, and is then in force |
| Settings.SwitchNeedsSameDefinition | src/server/ci_settings.rs:368-393 | the switch to the file is made exactly under the current lock and with the definition in force |
| Settings.NextVersionIsFree | src/ci/settings.rs:153-157 | a save that names the current lock version never meets a taken version number |
| Settings.OneEditPerLockVersion | src/ci/settings.rs:140-142 | of all edits that expect one lock version at most one is ever made |
| LineDiff.Diff | web/ci-editor.js:39-65 | both line lists can be read off the rows; the kept lines are a longest common subsequence exactly when the trimmed middles fit the cell limit or share no line |
| LineDiff.NothingKept | web/ci-editor.js:46-48 | nothing can be kept exactly when the middles have no line in common |
| LineDiff.LimitMissesCommonLine | web/ci-editor.js:46-48 | three lines against three with 15 cells: the common line in the middle is replaced |
| LineDiff.Compare | web/ci-editor.js:41-62 | the number of kept lines is the optimum, less that of the middle when it was too large |
| LineDiff.LcsIsLongest | web/ci-editor.js:50-54 | the recurrence computes the length of a longest common subsequence and nothing else is that length |
| LineDiff.TrimKeepsLcs | web/ci-editor.js:41-44 | trimming a common prefix and suffix loses nothing |
| LineDiff.FillTable | web/ci-editor.js:50-54 | every entry is the answer for what is left from there on |
| LineDiff.WalkTable | web/ci-editor.js:55-60 | the walk spells both middles and keeps as many lines as the table says |
| LineDiff.Trim | web/ci-editor.js:41-43 | a common prefix and a common suffix that do not overlap, and what is left between them starts and ends with different lines |
| LineDiff.Number | web/ci-editor.js:63-64 | line numbers count the lines of each side |
| LineDiff.NumbersPointAtLines | web/ci-editor.js:63-64 | a number is where the row's text stands in its side; added rows have no old and removed rows no new number |
| LineDiff.RowsGiveTexts | web/ci-editor.js:40-64 | joining a side's lines gives its text back |
| EditHistory.CiEditHistory.Record | web/ci-editor.js:11-29 | the window shows the end of what an unbounded history would hold and never has too many entries; a new key leaves it within its bounds and drops no more than needed; the current key drops nothing and leaves it within its bounds exactly when the new total weight allows |
| EditHistory.SameKeyOverflows | web/ci-editor.js:12-16 | three entries that fit, and no longer do after new data under the current key |
| EditHistory.CiEditHistory.Move | web/ci-editor.js:30-36 | moves as in the unbounded history as far as the window reaches, changes nothing beyond it, and keeps the bounds as they are |
| EditHistory.CiEditHistory.DropOldest | web/ci-editor.js:25-28 | drops only the oldest and never the last two, keeps the position, and would not fit with the entry dropped last |
| EditHistory.UndoRestoresWhatWasBefore | web/ci-editor.js:17-36 | undo shows the state before the change, redo the change again |
| EditHistory.MergedChangesUndoAsOne | web/ci-editor.js:18-23 | a run of merged changes is undone as one |
| EditHistory.MergesExactly | web/ci-editor.js:18-22 | of two changes after another the second takes the place of the first exactly when both carry the same nonempty group less than 800 milliseconds apart |
| EditHistory.UngroupedDataEndsMerging | web/ci-editor.js:12-16 | data without a group under the current key ends a run of merged changes: undoing the next change shows that data |
| EditHistory.GroupedDataKeepsMerging | web/ci-editor.js:12-16 | data with a group leaves it open: the next change of the run still replaces the last entry |
| EditHistory.MoveEndsMerging | web/ci-editor.js:30-36 | after an undo or redo the next change is an entry of its own and drops what could be redone |
| Layout.NoLostMove | web/ci-layout.js:15-36 | in every run each node the user dropped while the session was loaded is shown where it was dropped last, also when a save was on its way; once idle the server has it there; something unsaved is always attended to |
| Layout.RunKeepsSafe | web/ci-layout.js:15-36 | the invariant behind it, over moves, loads, flushes, failures and other sessions |
| Layout.Settles | web/ci-layout.js:24-36 | left alone with a working server every state saves all moves of the run within two saves |
| Layout.AlwaysSettles | web/ci-layout.js:24-36 | in every continuation without moves and failing saves, five steps that advance the saving have saved all moves of the run, and until then one can be taken |
| Layout.FailureIsShown | web/ci-layout.js:27-36 | a failed save is not sent again before the next flush: until then its message and all unsaved moves stay, and that flush sends all of them |
| Layout.IdleShowsServer | web/ci-layout.js:15-36 | without other sessions, a loaded session with nothing unsaved shows exactly what is stored |
| Layout.LoadingMakesReady | web/ci-layout.js:8-14 | a session that is not busy and has nothing unsaved can be loaded in any reachable state, and then shows what is stored and takes moves |
| Layout.CiLayoutSession.MoveNode | web/ci-layout.js:15-22 | the new state of a move, refused while not ready or loading only |
| Layout.CiLayoutSession.StartFlush | web/ci-layout.js:23-26 | what is sent, and the state before the answer |
| Layout.CiLayoutSession.FlushSucceeded | web/ci-layout.js:27-35 | the answer is shown under the moves made since |
| Layout.CiLayoutSession.FlushFailed | web/ci-layout.js:30-35 | the patch goes back under the moves made since |
| EditorGraph.WouldCreateCycle | web/app.js:2980-2992 | ends, and answers true exactly when the job is reachable from the dependency |
| EditorGraph.WouldCreatePipelineCycle | web/app.js:2966-2978 | the same over pipelines |
| EditorGraph.OfferedExactlyWhenAccepted | web/app.js:2914-2916 | the backend accepts the definition with a candidate's need added exactly when the candidate is offered and the job has room for a need |
| EditorGraph.PipelineOfferedExactlyWhenAccepted | web/app.js:2944-2945 | the same for pipelines: the file with the need added passes the whole validation exactly when the candidate is offered and there is room |
| EditorGraph.NeedsOfMoreAreOk | src/ci/config.rs:308-361 | the part of it that the linking and emission loop over pipelines decides |
| EditorGraph.PipelineNeedsHaveRoom | src/ci/config.rs:313-317 | there always is room when no more pipelines than needs are allowed, as in the source |
| EditorGraph.WithNeedIsWellFormed | web/app.js:2914-2916 | apart from cycles an offered need breaks no rule of the backend |
| EditorGraph.Layers | web/ci-visual.js:269-300 | ends for all entries; with unique names each numbered column holds the entries of that longest chain of present needs, and the last column exactly those on or behind a cycle |
| EditorGraph.RankIsDepth | web/ci-visual.js:273-277 | a column number is the length of the longest chain, and such an entry leads to no cycle |
| EditorGraph.RemainderIsCyclic | web/ci-visual.js:273-276 | what is left when nothing is eligible leads to a cycle |
| Graph.AddedNeedKeepsAcyclic | web/app.js:2980-2992 | adding a need closes a cycle exactly when its target already leads back |
| Archive.Read | scripts/repository-folder-archive.py:215-282 | the loop and its checks: manifest and extracted tree, or the first violated check |
| Archive.InventoryIsLookup | scripts/repository-folder-archive.py:69-85 | the inventory lists exactly the paths that exist below the folder |
| Archive.InventoryIsDistinct | scripts/repository-folder-archive.py:69-85 | no path is listed twice |
| Archive.InventoryListsParents | scripts/repository-folder-archive.py:69-85 | every directory is listed before what it contains |
| ArchiveRoundTrip.Create | scripts/repository-folder-archive.py:135-201 | refuses exactly the unwritable sources, otherwise members for the whole inventory and a manifest with their records and totals |
| ArchiveRoundTrip.WriteMembers | scripts/repository-folder-archive.py:154-183 | members, records, file count and bytes of the inventory |
| ArchiveRoundTrip.RoundTrip | scripts/repository-folder-archive.py:135-282 | reading what was written passes every check and rebuilds the same paths, bytes and permission bits, exactly when no path contains a backslash and a server archive has the server's identity; the error otherwise |
| ArchiveRoundTrip.RestoredFolderIsRepository | scripts/repository-folder-archive.py:137-152 | what comes back of a folder archive has its identity and its lock file |
| ArchiveRoundTrip.ForeignServerIsRefused | scripts/repository-folder-archive.py:269-270 | a server archive written under another identity is refused after everything was read |
| ArchiveRoundTrip.ForeignStoreIsNotRead | scripts/repository-folder-archive.py:269-270 | a small server store archived under another identity: written, and refused when it is read |
| ArchiveRoundTrip.BackslashNameIsNotRead | scripts/repository-folder-archive.py:204-208 | a source with a backslash in a file name: archived, and refused as unsafe when read |
| ArchiveRoundTrip.ReadWritten | scripts/repository-folder-archive.py:225-266 | one written member is read as the item it came from |
| ArchiveRoundTrip.PathIsSafe | scripts/repository-folder-archive.py:204-208 | a path of real names is safe, and is its own components, exactly without a backslash |
| ArchiveRestore.SafeRelativeIsSafe | scripts/repository-folder-archive.py:204-208 | an accepted name has components that all stay below where they start |
| ArchiveRestore.SafeNameStaysBelow | scripts/repository-folder-archive.py:204-208 | resolving an accepted name component by component ends exactly its components below the destination and never leaves it |
| ArchiveRestore.AcceptedArchiveIsSafe | scripts/repository-folder-archive.py:215-282 | for any archive: all targets lie strictly below the destination, no two entries share one, and every file has the size, mode and digest of the manifest |
| ArchiveRestore.AcceptedArchiveIsAccounted | scripts/repository-folder-archive.py:275-277 | for any accepted archive: the manifest counts the files that were extracted and their bytes, and a folder archive is named after the 16 bytes of the extracted `.lore/id` |
| ArchiveRestore.AcceptedStoreIsComplete | scripts/repository-folder-archive.py:268-273 | an accepted archive of a server store has the identity and scope of the server, both indexes as directories and the version as a file |
| ArchiveRestore.AcceptedMembers | scripts/repository-folder-archive.py:223-267 | an accepted archive is a list of whole files and directories under one prefix, each name once and no more than allowed, and one manifest at its end with the format of that kind |
| ArchiveRestore.AcceptedModesArePlain | scripts/repository-folder-archive.py:240 | whatever modes an archive carries, nothing is extracted with more than the nine permission bits |
| ArchiveRestore.ReadingStaysInside | scripts/repository-folder-archive.py:237-262 | also at every point of a reading that fails later |
| RestoreModes.ModesSettableExactly | scripts/repository-folder-archive.py:278-281 | for every archive read to its end, the loop over the modes is permitted exactly when it is privileged or no directory is listed after what is below it with a mode lacking owner search |
| RestoreModes.SettableExactly | scripts/repository-folder-archive.py:278-281 | the same for any list of modes of freshly unpacked directories |
| RestoreFolder.Restore | scripts/repository-folder-archive.py:296-321 | succeeds exactly for a new target, an intact accepted archive, a target left alone, free names, permitted modes and renames and no failure before the end; wherever it stops the folder is one the script may leave; it fails with the whole content and no marker exactly when only syncing failed |
| RestoreFolder.EveryStopIsHonest | scripts/repository-folder-archive.py:296-321 | for every archive and every way to end: without the marker the folder is empty or holds the whole content and nothing else; from the first rename on nothing is lost between staging and target |
| RestoreFolder.EveryStopIsContained | scripts/repository-folder-archive.py:225-321 | and everything in it lies below the folder, also half-way through an entry |
| RestoreFolder.MarkerAtStop | scripts/repository-folder-archive.py:311-321 | a run over an accepted archive leaves the whole content without the marker exactly when it ends before, between or after the two last operations; ending earlier it leaves the marker or an empty folder |
| RestoreFolder.EarlyEnd | scripts/repository-folder-archive.py:311-321 | an early end shows the marker, or an empty folder, or everything in place with only syncing missing |
| RestoreFolder.SyncMayFail | scripts/repository-folder-archive.py:314-316 | every restore that may succeed may also fail that way |
| RestoreFolder.ScriptSucceeds | scripts/repository-folder-archive.py:278-317 | all operations can be performed exactly when the owner may set the modes and move the children; they leave the whole content |
| RestoreWritten.WrittenWayStaysOpen | scripts/repository-folder-archive.py:278-281 | what the writer wrote lists no directory after what is below it |
| RestoreWritten.RestorableExactly | scripts/repository-folder-archive.py:278-312 | what was written can be restored exactly when it can be read, no top-level entry is named like the marker or the staging folder, and the restore is privileged or all top-level directories are writable for their owner |
| RestoreWritten.ReadOnlyTopIsNotRestored | scripts/repository-folder-archive.py:311-312 | a directory of mode 0555: archived, restored with privilege only |
| RestoreWritten.MarkerNameIsNotRestored | scripts/repository-folder-archive.py:309-310 | an entry named like the marker: archived and read, never restored |
| RestoreWritten.SyncFailureLeavesNoMarker | scripts/repository-folder-archive.py:314-316 | a small source whose restore fails in the last operations with everything in place |
| RestoreWritten.LateParentIsClosed | scripts/repository-folder-archive.py:278-281 | an accepted archive of an identity, a directory, and after it the directory above with mode 0600: restored with privilege only |
| Version.ParseAfterPrint | src/version.rs:117-134 | printing any well-formed version and parsing it gives the version back |
| Version.PrintAfterParse | src/version.rs:19-80 | printing a parsed version gives back exactly the accepted text |
| Version.AcceptedTextIsPlain | src/version.rs:19-65 | an accepted text consists of ASCII letters, digits, dots and dashes |
| Version.Display | src/version.rs:117-134 | the loop prints the specified text |
| Version.CompareIsPrecedence | src/version.rs:82-115 | comparison is precedence by section 11 of Semantic Versioning 2.0.0, and equal only for equal versions |
| Version.CompareTransitive | src/version.rs:82-115 | the order is transitive |

## Left out

- SQL row locks, `SKIP LOCKED`, isolation levels and the difference between `now()` and `clock_timestamp()`: a transaction is one step at one clock value.
- Timestamps, error texts, exit codes, change paths and other columns that no decision reads; runner listings, retention, overview counters.
- Pipeline rows are addressed by position instead of by id; an unknown id is a position past the end. The id column only orders rows of equal creation time.
- `last_claim_at`, which a claim writes first and only diagnostics read.
- Completion.SucceededMeansAllJobsSucceeded: claims without a request identity are not among the actions, and a runner identity is used by one process at a time.
- Queue.Coordinator.RecordJobStatus: a status call does not look at the previous status; that statuses come in order while a pipeline runs is due to its runner (`JobRecords.RowsFollowClosures`).
- Heartbeat failure counting and update checks in the runner, and retry delays: they only choose when an action happens.
- Process spawning, shells, checkout, tokens and the Lore command line: a job is an outcome chosen by the environment.
- HTTP routes, sessions, access control, serialization; the TOML parser and serializer: definitions start as decoded values.
- RestoreFolder.Restore: the fields of `System` stand for what the file system, the checksum of the archive file and the privileges of the process say; single writes within a file, syncing of files and limits of the file system on names are not modelled.
- gzip, the tar byte format, file locks, modification times and symbolic links of parent folders; SHA-256 is an injective function, and directory names come without a trailing slash, as tar readers give them.
- ArchiveRoundTrip.Create: the source does not change while it is archived, so the repeated change checks are not modelled; it may also refuse because of an existing archive, a held repository lock, an unreadable file or archive storage inside the source, and may fail in syncing after the archive was published; a manifest's encoding is known by its length only.
- Archive.Read: reading without a destination, which skips extraction, is not modelled separately; permissions of the operating system enter in `RestoreFolder`; directories above a member that no member lists are made with mode 0700, which under the service's `UMask=0077` is also what default permissions give.
- Layout.NoLostMove: runs with a layout reset are not covered, as a reset discards moves on purpose; a failed save may have been applied before it failed, but is not applied afterwards; other sessions save nodes this user has not moved.
- LineDiff.FillTable: the flat 32-bit table is a two-dimensional table of natural numbers; entries never exceed the number of lines.
- EditHistory.CiEditHistory.Record: snapshots are strings already, time is a parameter, and a character outside the basic plane weighs as one.
- Config.Validate: text is a sequence of characters, so byte lengths of names are character counts (names are ASCII).
- PipelineFile.ValidateFile: the size limit of the file text is not modelled; an error says what is wrong and where, not that nothing before it is wrong.
- Settings.EditKeepsStore: advisory locks are atomicity, the events table and revision hashes are not modelled, and revisions are addressed by position.
- Reruns of a group and the repository watcher: they submit rows like any push, reruns without a previous revision. The trigger patterns and changed paths stored with a run are columns no decision reads.
- DOM rendering, pan, zoom, dragging and localization in `web/*.js`.
