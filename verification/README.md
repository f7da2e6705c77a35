# Proofs about the autonomy runner, its scheduler and the CASS gate

This project models six parts of the repository and proves what they keep. Code that changes
things in place is modelled by classes and methods whose contracts tie the new state to a function of
the old one; the theorems are about those functions, over all inputs, all interleavings and whole
runs.

- **The autonomy runner** (`runner.py`): `RunnerModel`, `RunnerRuns`, `RunnerLaws`,
  `RunnerProgress`, `RunnerCheckpoint` and the class `AutonomyRunner.Runner`. One cycle of `main` is a step whose inputs
  are the clock, what the agent reports and how validation ends. Proved: what each exit code means,
  that a stall always has a cause, the budgets, what a checkpoint restores, and a measure that bounds
  how often agents are run. The bound holds over cut-off and resumed runs too, with two exceptions
  that the code does not cap and the bound counts: validation failures that look transient, and tasks
  cut off when they had no attempts left.
- **The RPA scheduler** (`rpa_scheduler.py`): `RpaScheduler`, `RpaTraces`, `RpaAccounting`,
  `RpaOutcomes`, `RpaStarts`, `RpaRun`. Each job is a thread with a program counter; every lock-protected block,
  semaphore operation, dictionary access and sleep is a step, and any interleaving is a run. Proved:
  the concurrency cap, the rate limit, when job starts are spaced, freedom from deadlock, an explicit
  bound on all steps, and what records and report say of the runners' answers.
- **The glob compiler** (`PathMatcher.swift`): `PathMatcher`. A meaning for globs, the emitted text,
  a parser for that text and a matcher for the parsed pattern, and the proof that they agree.
- **Leases, fencing and the execution DAG** (`distributed_coordinator.py`): `FileLease`,
  `ExecutionDag`.
- **The CASS policy engine and its lease store** (`PolicyEngine.swift`, `PolicyModels.swift`,
  `RuntimeSupport.swift`): `PolicyModels`, `PolicyEngine`, `LeaseStore`, and `PolicyLaws`, which says
  what the cascade decides in terms of the policy's rules and the leases alone.
- **Lane fairness** (`swarm_orchestrator.py`): `LaneOccupancy`.

`Wrappers`, `Ordering`, `Tally`, `Backoff` and `DependencyGraph` are shared. `dafny verify
dfyconfig.toml` checks everything.

## Where a promise fails

Some properties one would expect are not true of the code. Each is stated with its exact condition.

- Retries after a validation failure that looks transient have no cap (`runner.py:1625`), although
  `--max-attempts` suggests one: `TransientForever`, `CapsBrokenExactly`. Every other retry is
  capped: `StartsCapped`.
- A task whose run is cut off is pending again on resumption, and nothing checks its attempts before
  it is started (`runner.py:418-420`, `runner.py:1384-1390`). So being cut off is not capped either:
  it spends work exactly when the task had attempts left (`CutSpendsExactly`), and one task can be
  run any number of times (`CutForever`).
- A retry for an unmet delivery contract is not counted against the retry budget
  (`runner.py:1582`): `RetryCountedExactly`. A dry run uses up one attempt with every cycle that
  selects a task, no more and no less (`DryRunOnlyCounts`), without limit (`RehearsalForever`).
- The domain slot is reserved before the semaphore is taken, so reservations are spaced and job starts
  need not be. Starts are spaced in every run exactly when there is no interval, or no two jobs that
  may run share a domain and every backoff is at least the interval: `StartsSpacedExactly`.
- `attempts_by_job` is updated without a lock. Attempts can be lost exactly when two jobs that may run
  share an id (`CountsExactly`), and jobs that share an id always make the report fail
  (`ReportOkExactly`).
- Releasing a lease deletes its file, so epochs start again at 1 (`EpochsGrowExactly`). The fence
  accepts an earlier grant's epoch from the current holder exactly when that grant is of an earlier
  term and has the same place in it as the latest grant has in its own: `StaleGrantAcceptedExactly`,
  `ReleaseReusesEpoch`. A holder whose name is empty is not protected before expiry:
  `HolderProtectedExactly`.
- The `requires_epoch` entry that `check_causal_gate` documents (`distributed_coordinator.py:387`)
  is never looked at: `GateAsDocumentedExactly`.
- A saved DAG with a running node can never be completed by a new driver, nor one with a pending node
  that waits for a failed or skipped one: `ResumeCompletesExactly`.
- The lease cache stores `active` as of the load, so a lease created after the cached load is missed
  until the directory changes: `CacheMissesExactlyPostdated`.
- ICU's `.` and `$` treat line terminators specially, so globs keep their meaning for exactly the
  paths without one: `MeaningPreservedExactly`.
- The fairness of `rebalance_candidates` needs a threshold of at least one over the number of
  candidates: `SomeCandidateFreeExactly`.

## Model

| member | source | states |
|---|---|---|
| RunnerModel.NextIsLeast | src/orxaq_autonomy/runner.py:484-501 | a task is selected if and only if it is ready and precedes every other ready task by priority, owner rank and id |
| RunnerLaws.ReadyExactly | src/orxaq_autonomy/runner.py:469-496 | a task is ready exactly when it is pending, its cooldown is over and every dependency is a known task that is done |
| RunnerModel.SoonestMeans | src/orxaq_autonomy/runner.py:504-517 | the soonest time is the least cooldown of a pending task whose dependencies are done, and is absent exactly without one |
| RunnerRuns.StopsExactly | src/orxaq_autonomy/runner.py:1322-1382 | a cycle ends the run with 4, 0 or 2 exactly when a budget is exceeded, else everything is done, else every pending task has an undone dependency; whatever the clock, so a soonest time in the past never stalls |
| RunnerRuns.IdlesExactly | src/orxaq_autonomy/runner.py:1353-1371 | a cycle idles exactly when nothing is ready but a task only waits for its cooldown; it oversleeps no cooldown by a second or more, and unless it sleeps for the idle setting it sleeps to within a second of the end of one |
| RunnerRuns.ExitCodeMeans | src/orxaq_autonomy/runner.py:1322-1719 | for every run, the exit code is 3 exactly when no cycle stopped it, and 0, 2 and 4 hold exactly of the matching final entries and totals |
| RunnerRuns.SettledForGood | src/orxaq_autonomy/runner.py:1384-1705 | over any run an entry that is done or blocked never changes again, and no cycle head has a task in progress |
| RunnerRuns.OneInProgress | src/orxaq_autonomy/runner.py:1384-1390 | while the selected task runs, it is the only one in progress |
| RunnerRuns.DoneStaysClosed | src/orxaq_autonomy/runner.py:469-501 | if every done task has its dependencies done, that is so after every run |
| RunnerRuns.RetryBudget | src/orxaq_autonomy/runner.py:942-961 | a positive retry limit is never exceeded by more than one over a whole run |
| RunnerRuns.RetryCountedExactly | src/orxaq_autonomy/runner.py:1493-1705 | a cycle counts one retry exactly when its task goes back to pending for any reason but an unmet contract |
| RunnerLaws.SettledExactly | src/orxaq_autonomy/runner.py:1493-1705 | from report, entry and settings alone: the task is done exactly after a good report; blocked exactly when the report is not good, not a transient validation failure, no retryable blocker with retries left, and no attempts are left; otherwise pending with the doubled and capped, or the plain, delay; and its counters |
| RunnerLaws.BlockedIsSpent | src/orxaq_autonomy/runner.py:1526-1704 | a task that any run has blocked had used at least the maximum of attempts |
| RunnerLaws.BudgetStopsExactly | src/orxaq_autonomy/runner.py:938-961 | a cycle stops with 4 exactly when the time or a total exceeds its limit and that limit is not zero |
| RunnerRuns.UsageAccounted | src/orxaq_autonomy/runner.py:926-930 | tokens after any run are the sum of what the executed tasks reported, and so is cost up to half a millionth for the rounding after each of them |
| RunnerRuns.UsageBudget | src/orxaq_autonomy/runner.py:942-961 | positive token and cost limits are overrun by at most one task's usage, rounded, over any run |
| RunnerRuns.DryRunOnlyCounts | src/orxaq_autonomy/runner.py:1384-1405 | a dry run charges nothing and executes nothing; a task's attempts grow by the number of cycles that selected it, its cooldown is cleared if there was one, and nothing else changes |
| RunnerRuns.RehearsalForever | src/orxaq_autonomy/runner.py:1400-1405 | for every number there is a dry run that selects one task that often |
| RunnerRuns.CycleSpends | src/orxaq_autonomy/runner.py:1493-1705 | the work left never grows in a cycle and strictly drops in every executed one, unless its validation failure looks transient |
| RunnerRuns.ExecutionsBounded | src/orxaq_autonomy/runner.py:1322-1719 | all executions of a run, plus the work left at its end, are at most the work at its start plus its transient validation failures |
| RunnerRuns.NewRunBounded | src/orxaq_autonomy/runner.py:1322-1719 | a run of new tasks executes at most (max attempts + max retryable retries + 1) per task, plus one for each transient validation failure |
| RunnerRuns.StartsCapped | src/orxaq_autonomy/runner.py:1504-1682 | without transient validation failures no task of any run is started more often than both retry limits together |
| RunnerRuns.CapsBrokenExactly | src/orxaq_autonomy/runner.py:1622-1657 | a task out of both retry limits is retried again exactly when its validation failure looks transient |
| RunnerRuns.TransientForever | src/orxaq_autonomy/runner.py:1625-1636 | for every number there is a run with that many executions of one task, which is still pending after it |
| RunnerProgress.StalledExactly | src/orxaq_autonomy/runner.py:469-517 | for acyclic tasks with a closed done set, a stall is the same as: something is undone, and every undone task is blocked, names a missing task, or has such a task among its transitive dependencies |
| RunnerProgress.ExitTwoIsReal | src/orxaq_autonomy/runner.py:1353-1382 | after exit code 2 of any run every undone task of an acyclic task list has such a cause |
| RunnerProgress.GoodRunCompletes | src/orxaq_autonomy/runner.py:1322-1350 | if every report is good, acyclic tasks that depend only on each other complete one a cycle, and the exit code is 0 exactly when the cycle limit exceeds the tasks to do |
| RunnerProgress.RetriesAreSpaced | src/orxaq_autonomy/runner.py:1152-1172 | a retried task is not selected again before its delay is over, whatever runs in between: min(max, base * 2^k) after the (k+1)-th retryable failure, otherwise the base forced into 5 to 60 |
| RunnerProgress.RetryDelaysGrow | src/orxaq_autonomy/runner.py:1161-1165 | retryable delays never shrink, never pass the cap, and from the second on equal those of the scheduler's doubling loop |
| RunnerCheckpoint.LoadState | src/orxaq_autonomy/runner.py:405-432 | loading raises exactly for an entry that is not an object, and otherwise gives every task the entry its stored fields determine, with nothing in progress |
| RunnerCheckpoint.LoadedExactly | src/orxaq_autonomy/runner.py:413-431 | field by field: only stored done and blocked are kept as statuses, numbers that are missing or unreadable are 0, and a task without stored fields is new |
| RunnerCheckpoint.LoadRestores | src/orxaq_autonomy/runner.py:405-436 | loading what was saved gives it back, with in progress turned to pending |
| RunnerCheckpoint.CheckpointReplaces | src/orxaq_autonomy/runner.py:439-466 | applying a checkpoint of the same tasks replaces the loaded state altogether, with in progress turned to pending |
| RunnerCheckpoint.MergedExactly | src/orxaq_autonomy/runner.py:444-466 | field by field: tasks the checkpoint has no object for keep their entry, missing fields keep their value, unreadable numbers are 0, interrupted and unknown statuses are pending |
| RunnerCheckpoint.SavesExactly | src/orxaq_autonomy/runner.py:1305-1401 | a cycle saves the start of its task before the agent runs and the outcome after, the state when the run completes or stalls, and nothing while it idles or when a budget stops it |
| RunnerCheckpoint.LastSaveIsEnd | src/orxaq_autonomy/runner.py:1305-1719 | whenever a run ends, what it saved last is the state it ended with |
| RunnerCheckpoint.LeftIsSaved | src/orxaq_autonomy/runner.py:1305-1392 | what a cut-off session is taken to leave is really on file |
| RunnerCheckpoint.ResumeRestores | src/orxaq_autonomy/runner.py:1283-1309 | resuming from any state a run ever saved restores one of that run's cycle heads, at most with one more attempt on a task that was cut off |
| RunnerCheckpoint.ResumedBounded | src/orxaq_autonomy/runner.py:1282-1292 | over any number of sessions, each cut off and resumed: all agent runs, including those cut off, plus the work left are at most the work there was at first plus the transient validation failures and the tasks cut off with no attempts left |
| RunnerCheckpoint.CutSpendsExactly | src/orxaq_autonomy/runner.py:1384-1390 | a session never leaves more work than its last cycle head, and one cut off in a task leaves exactly one less if that task had attempts left, and otherwise the same |
| RunnerCheckpoint.CutForever | src/orxaq_autonomy/runner.py:418-420 | for every number there are as many sessions all cut off in one task, each of them an agent run, and the task is still pending with that many more attempts, whatever the attempt limit |
| RunnerCheckpoint.ResumedForGood | src/orxaq_autonomy/runner.py:439-466 | done and blocked are for good across all sessions, and each starts with nothing in progress |
| RunnerCheckpoint.ResumedClosed | src/orxaq_autonomy/runner.py:439-466 | the done tasks stay closed under dependencies across all sessions |
| AutonomyRunner.Runner.TaskDependenciesDone | src/orxaq_autonomy/runner.py:469-474 | the loop answers whether every dependency has an entry that is done |
| AutonomyRunner.Runner.SelectNextTask | src/orxaq_autonomy/runner.py:484-501 | the loop and sort compute the selection that NextIsLeast characterises |
| AutonomyRunner.Runner.SoonestPendingTime | src/orxaq_autonomy/runner.py:504-517 | the loop computes the time that SoonestMeans characterises |
| AutonomyRunner.Runner.EvaluateBudgetViolations | src/orxaq_autonomy/runner.py:938-961 | the exceeded limits, in order; a limit of zero is off |
| AutonomyRunner.Runner.ScheduleRetry | src/orxaq_autonomy/runner.py:1152-1172 | only the given entry changes, to pending with the returned delay as cooldown and one more failure if retryable |
| AutonomyRunner.Runner.SettleTask | src/orxaq_autonomy/runner.py:1493-1705 | every branch of a finished task updates its entry and the retry count as the settlement function says |
| AutonomyRunner.Runner.RunCycle | src/orxaq_autonomy/runner.py:1322-1705 | one cycle, updating entries and totals in place, is the step the lemmas are about, and saves what they say is saved |
| AutonomyRunner.Runner.RunLoop | src/orxaq_autonomy/runner.py:1322-1719 | the loop ends in the state, with the exit code and after the saves that the run functions give |
| AutonomyRunner.Runner.ApplyCheckpointState | src/orxaq_autonomy/runner.py:439-466 | entry by entry, in whatever order, the state becomes the merge with the checkpoint |
| RpaScheduler.ConcurrencyCap | src/orxaq_autonomy/rpa_scheduler.py:223-265 | in every interleaving free permits and holding threads add up to the cap, the active count is the number of running jobs and stays within the cap, and leaving never hits the floor of zero |
| RpaScheduler.MaxSeenExactly | src/orxaq_autonomy/rpa_scheduler.py:254-257 | the largest concurrency seen is the largest active count of any point of the run so far, and was reached |
| RpaTraces.CapIsReached | src/orxaq_autonomy/rpa_scheduler.py:223-257 | some run has as many jobs running at once as the cap and the jobs that may run allow |
| RpaScheduler.RateLimit | src/orxaq_autonomy/rpa_scheduler.py:232-243 | in every interleaving reservations of a domain are at least the interval apart, and a domain can be reserved exactly when its own last reservation is that old |
| RpaStarts.StartsSpacedExactly | src/orxaq_autonomy/rpa_scheduler.py:232-289 | for every job list and policy, job starts of each domain are at least the interval apart in every run exactly when there is no interval, or no two jobs that may run share a domain and every backoff a job may need is at least the interval |
| RpaScheduler.EveryRunEnds | src/orxaq_autonomy/rpa_scheduler.py:232-295 | all threads together take at most (12 + 2 * jobs) * attempts allowed + 2 * jobs steps in any interleaving |
| RpaScheduler.NeverDeadlocks | src/orxaq_autonomy/rpa_scheduler.py:232-295 | while some thread is not done, some thread can step, if need be after the clock moves on |
| RpaScheduler.EveryRunCanFinish | src/orxaq_autonomy/rpa_scheduler.py:232-295 | every run, wherever it stands, extends to one in which all threads are done |
| RpaAccounting.JobRecords | src/orxaq_autonomy/rpa_scheduler.py:249-289 | at any point each job's records are attempts 1 to k, k at most retries plus one, all failed but possibly the last, with the scheduled backoffs; a job that ended stopped at its first success or used all retries |
| RpaOutcomes.OutcomesRecorded | src/orxaq_autonomy/rpa_scheduler.py:258-286 | in any run the k-th record of a job says success exactly when its runner's k-th answer was a success; a raised answer has no record; a thread that ended ended as its last answer was, and is dead exactly when that answer raised and it has left its block |
| RpaAccounting.AttemptsAreRecords | src/orxaq_autonomy/rpa_scheduler.py:267-306 | when no two jobs that may run share an id, the attempt counts add up to the records plus the attempts counted but not yet recorded, at any point of any run |
| RpaAccounting.CountsExactly | src/orxaq_autonomy/rpa_scheduler.py:267-280 | for every job list, all completed runs count every record exactly when no two jobs that may run share an id |
| RpaAccounting.ReportCounts | src/orxaq_autonomy/rpa_scheduler.py:297-309 | for distinct ids a completed run reports the threads that ended well as succeeded and all others as failed, and its attempts are the records |
| RpaAccounting.ReportOkExactly | src/orxaq_autonomy/rpa_scheduler.py:297-309 | the report is ok exactly when every thread ended with a success and no id is used twice |
| RpaOutcomes.ReportFollowsOutcomes | src/orxaq_autonomy/rpa_scheduler.py:281-309 | a completed schedule is reported ok exactly when no id is used twice and the last answer of every job's runner was a success |
| RpaRun.ScheduleRun.ReserveDomainSlot | src/orxaq_autonomy/rpa_scheduler.py:232-243 | one locked round takes the slot and moves it one interval on, or gives the time to wait for and changes nothing |
| RpaRun.ScheduleRun.AfterAttempt | src/orxaq_autonomy/rpa_scheduler.py:281-289 | a thread reports, waits or tries again exactly as the state machine does |
| RpaRun.ScheduleRun.Step | src/orxaq_autonomy/rpa_scheduler.py:245-289 | each block of a thread, updating the shared variables in place, is one step of the state machine |
| Backoff.LoopIsCapped | src/orxaq_autonomy/rpa_scheduler.py:287-289 | from the second backoff on the doubling loop gives min(cap, base doubled k times), never shrinking |
| Backoff.FirstBackoff | src/orxaq_autonomy/rpa_scheduler.py:248-289 | the first backoff is the base, uncapped, and a base of zero or less never grows |
| PathMatcher.RegexPattern | tools/cass-kernel-gate/Sources/CassPolicyCore/PathMatcher.swift:19-41 | the loop over characters writes the regex text |
| PathMatcher.TextParsesBack | tools/cass-kernel-gate/Sources/CassPolicyCore/PathMatcher.swift:19-41 | the text written for any glob is a valid pattern and reads back as the intended pieces |
| PathMatcher.CompilerPreservesMeaning | tools/cass-kernel-gate/Sources/CassPolicyCore/PathMatcher.swift:4-41 | for every glob and every path without line terminators the search finds a match exactly when the glob means the path |
| PathMatcher.MeaningPreservedExactly | tools/cass-kernel-gate/Sources/CassPolicyCore/PathMatcher.swift:4-41 | all globs keep their meaning on a path exactly when the path has no line terminator |
| PathMatcher.EngineMeans | tools/cass-kernel-gate/Sources/CassPolicyCore/PathMatcher.swift:4-41 | on any path at all, the search finds a match exactly when the glob, stars taken in pairs that stop at line terminators, covers the path up to a place where the engine's end matches |
| PathMatcher.PairsAreRuns | tools/cass-kernel-gate/Sources/CassPolicyCore/PathMatcher.swift:25-30 | splitting a run of stars greedily into pairs means the same as reading the run as a whole |
| PathMatcher.DoubleStar | tools/cass-kernel-gate/Sources/CassPolicyCore/PathMatcher.swift:25-30 | two stars match exactly the paths with no line terminator before their end |
| FileLease.FileLease.Acquire | src/orxaq_autonomy/distributed_coordinator.py:84-101 | acquiring succeeds exactly when the file is free, expired or the holder's own, and then writes the next epoch, which the object takes over |
| FileLease.FileLease.Renew | src/orxaq_autonomy/distributed_coordinator.py:103-113 | renewing succeeds exactly for the file's holder and changes only the expiry |
| FileLease.FileLease.Release | src/orxaq_autonomy/distributed_coordinator.py:115-120 | releasing succeeds exactly for the file's holder and deletes the file |
| FileLease.FileLease.CurrentHolder | src/orxaq_autonomy/distributed_coordinator.py:122-129 | a holder is given exactly when it is named and not expired |
| FileLease.GrantedExactly | src/orxaq_autonomy/distributed_coordinator.py:84-101 | in any state acquiring succeeds exactly when there is no file, it names nobody or the same holder, or its expiry is past |
| FileLease.LifetimeExactly | src/orxaq_autonomy/distributed_coordinator.py:68-113 | acquired or renewed at time t for ttl, with only time passing since, a lease is held at u exactly until u = t + ttl, and another holder can acquire it exactly after that |
| FileLease.EpochFence.FencedExecute | src/orxaq_autonomy/distributed_coordinator.py:152-197 | the action runs exactly when the holder still holds the lease and presents its object's epoch |
| FileLease.RunKeeps | src/orxaq_autonomy/distributed_coordinator.py:68-132 | in every run of acquire, renew, release and clock steps by many holders, the file's holder has the file's epoch in its own object and is the latest grant of the current term |
| FileLease.HolderProtectedExactly | src/orxaq_autonomy/distributed_coordinator.py:84-120 | before expiry a holder is replaced only by its own release, exactly when its name is not empty |
| FileLease.EpochsGrowExactly | src/orxaq_autonomy/distributed_coordinator.py:84-120 | the epochs granted in a run strictly grow exactly when no release separates two grants |
| FileLease.FenceExactly | src/orxaq_autonomy/distributed_coordinator.py:152-197 | in any run the fence accepts exactly the current holder presenting the epoch of the latest acquisition |
| FileLease.FencingWithoutRelease | src/orxaq_autonomy/distributed_coordinator.py:166-197 | in runs without a release no action runs under the epoch of an earlier acquisition |
| FileLease.StaleGrantAcceptedExactly | src/orxaq_autonomy/distributed_coordinator.py:84-197 | in any run the fence accepts the epoch of an earlier grant exactly from the current holder, for a grant of an earlier term with the same place in its term as the latest grant has in its own |
| FileLease.ReleaseReusesEpoch | src/orxaq_autonomy/distributed_coordinator.py:115-120 | there is a run in which that happens: acquire, release, acquire |
| ExecutionDag.ExecutionDAG.ReadyNodes | src/orxaq_autonomy/distributed_coordinator.py:345-357 | exactly the pending nodes with all dependencies done, in insertion order, each once |
| ExecutionDag.ExecutionDAG.CheckCausalGate | src/orxaq_autonomy/distributed_coordinator.py:383-401 | the gate is open exactly for a known node whose required nodes are all done |
| ExecutionDag.GateAsDocumentedExactly | src/orxaq_autonomy/distributed_coordinator.py:383-401 | the gate agrees with its documentation exactly when the node is unknown, requires no epoch or the current one, or has a required node that is not done |
| ExecutionDag.ExecutionDAG.LoadState | src/orxaq_autonomy/distributed_coordinator.py:421-431 | statuses of known nodes are replaced, others and the structure stay |
| ExecutionDag.LoadedExactly | src/orxaq_autonomy/distributed_coordinator.py:427-431 | a node's status becomes the saved one if there is one and stays otherwise; nothing else changes and no node comes or goes |
| ExecutionDag.PendingHasCause | src/orxaq_autonomy/distributed_coordinator.py:345-357 | when nothing is ready or running in a closed acyclic DAG, every pending node has a failed or skipped transitive dependency |
| ExecutionDag.EventsAccount | src/orxaq_autonomy/distributed_coordinator.py:359-377 | over any run a node is started at most once, only if it was pending, and ends at most once |
| ExecutionDag.TopologicalOrder | src/orxaq_autonomy/distributed_coordinator.py:345-377 | a node is only started after each of its dependencies was done at first or has finished |
| ExecutionDag.RunsEnd | src/orxaq_autonomy/distributed_coordinator.py:345-377 | the length of any run plus the events left is a number fixed at its start |
| ExecutionDag.MaximalRunCompletes | src/orxaq_autonomy/distributed_coordinator.py:345-381 | a run without failures that cannot go on has executed each pending node of a closed acyclic DAG exactly once and left it complete |
| ExecutionDag.ReloadIsExact | src/orxaq_autonomy/distributed_coordinator.py:403-431 | loading a saved state into a DAG of the same structure gives the very same nodes, hence ready set and gates |
| ExecutionDag.ResumeCompletesExactly | src/orxaq_autonomy/distributed_coordinator.py:421-431 | a new driver can complete a loaded closed acyclic DAG, failed and skipped nodes included, exactly when nothing was saved as running and no pending node waits, through nodes not done, for a failed or skipped one |
| PolicyModels.NormalizedForgetsOrder | tools/cass-kernel-gate/Sources/CassPolicyCore/PolicyModels.swift:179-193 | for distinct rule ids normalisation gives the same lists whatever order the rules came in |
| PolicyEngine.CollectCandidates | tools/cass-kernel-gate/Sources/CassPolicyCore/PolicyEngine.swift:337-354 | the loop collects the target, the source, path-like arguments and the paths inside arguments |
| PolicyEngine.CommandDecision | tools/cass-kernel-gate/Sources/CassPolicyCore/PolicyEngine.swift:151-186 | the early-return scan gives the verdict of the first governed command that matches, or throws at an invalid expression before it |
| PolicyEngine.PathDecision | tools/cass-kernel-gate/Sources/CassPolicyCore/PolicyEngine.swift:188-214 | the scan gives the verdict of the first governed path rule, and of the verification rules otherwise |
| PolicyEngine.VerificationDecision | tools/cass-kernel-gate/Sources/CassPolicyCore/PolicyEngine.swift:216-320 | the scan gives the verdict of the first verification rule that applies |
| PolicyEngine.DecideEvent | tools/cass-kernel-gate/Sources/CassPolicyCore/PolicyEngine.swift:123-149 | the cascade over usable leases is the decision function the lemmas are about |
| PolicyLaws.CommandRuleExactly | tools/cass-kernel-gate/Sources/CassPolicyCore/PolicyEngine.swift:151-186 | a decision is that of a governed command, under the best lease, exactly when its expression is found and every other rule whose expression is found or invalid has a greater id |
| PolicyLaws.PathRuleExactly | tools/cass-kernel-gate/Sources/CassPolicyCore/PolicyEngine.swift:188-211 | past commands, a decision is that of a governed path, under the best lease, exactly when the rule lists the operation, its pattern matches the target and every other such rule has a greater id |
| PolicyLaws.VerificationRuleExactly | tools/cass-kernel-gate/Sources/CassPolicyCore/PolicyEngine.swift:216-320 | past commands and paths, a decision names a verification rule, and is what that rule says, exactly when its expression is found for a gated operation, every other rule that is found or invalid has a greater id, and the verifier does not throw |
| PolicyLaws.NothingGoverns | tools/cass-kernel-gate/Sources/CassPolicyCore/PolicyEngine.swift:139-148 | a decision names no rule exactly when no command, path or verification rule applies, and then allows |
| PolicyLaws.ThrowsExactly | tools/cass-kernel-gate/Sources/CassPolicyCore/PolicyEngine.swift:123-149 | a decision throws exactly when the first command rule, or past commands and paths the first verification rule, has an invalid expression, or that rule's verifier throws |
| PolicyEngine.BestLeaseExactly | tools/cass-kernel-gate/Sources/CassPolicyCore/PolicyEngine.swift:322-335 | the lease used is the one that matches and precedes all others that match, and there is none exactly when none matches |
| PolicyLaws.CandidatesExactly | tools/cass-kernel-gate/Sources/CassPolicyCore/PolicyEngine.swift:337-365 | the paths leases are matched against are exactly target, source, path-like arguments and the paths inside arguments |
| PolicyLaws.PrecedenceExactly | tools/cass-kernel-gate/Sources/CassPolicyCore/PolicyEngine.swift:367-387 | one lease precedes another exactly when it has a pattern with more literal characters than all of the other's, or neither has and it expires, was created, or is named first, in this order |
| PolicyLaws.BestLeaseByKeys | tools/cass-kernel-gate/Sources/CassPolicyCore/PolicyEngine.swift:128-129 | the lease a decision uses is the one of the profile, within its dates, for the operation and a path of the event, that outranks all others of that kind |
| PolicyEngine.PrecedesIsOrder | tools/cass-kernel-gate/Sources/CassPolicyCore/PolicyEngine.swift:367-388 | lease precedence is a strict order in which leases with distinct ids are always comparable |
| PolicyEngine.DecisionIgnoresOrder | tools/cass-kernel-gate/Sources/CassPolicyCore/PolicyEngine.swift:118-211 | for distinct ids the decision is the same under any reordering of rules, of leases, and of patterns within leases |
| PolicyEngine.CascadeAction | tools/cass-kernel-gate/Sources/CassPolicyCore/PolicyEngine.swift:151-320 | the action of every decision is fixed by the kind of event and two facts about the best lease: whether there is one and whether it bypasses the verifier |
| PolicyEngine.AddedLeaseBest | tools/cass-kernel-gate/Sources/CassPolicyCore/PolicyEngine.swift:322-335 | adding a lease changes the best one exactly when it matches and precedes it |
| PolicyEngine.AddingLeaseDeniesExactly | tools/cass-kernel-gate/Sources/CassPolicyCore/PolicyEngine.swift:151-380 | adding a usable lease turns an allow into a deny exactly for events at a verification gate that the old best lease bypassed, when the new one matches, precedes it and does not bypass |
| PolicyEngine.DeniedWhateverLeasesExactly | tools/cass-kernel-gate/Sources/CassPolicyCore/PolicyEngine.swift:123-320 | an event is denied under every set of leases exactly when its kind denies without a lease and no usable matching lease lifts it; a failed verifier is of a kind nothing lifts |
| PolicyEngine.NamedLeaseIsBest | tools/cass-kernel-gate/Sources/CassPolicyCore/PolicyEngine.swift:123-335 | a lease named in a decision is given, usable, matching and best, and a bypass is only due to one that grants it |
| LeaseStore.LeaseStore.ReloadIfNeeded | tools/cass-kernel-gate/Sources/CassPolicyCore/RuntimeSupport.swift:156-171 | on a snapshot hit nothing changes; otherwise the records are loaded and stored under the snapshot taken before, or an error leaves the cache alone |
| LeaseStore.LeaseStore.ActiveLeases | tools/cass-kernel-gate/Sources/CassPolicyCore/RuntimeSupport.swift:128-135 | the answer is the active part, by both flags, of the records reloaded or cached |
| LeaseStore.LoadsExactly | tools/cass-kernel-gate/Sources/CassPolicyCore/RuntimeSupport.swift:173-194 | a load succeeds exactly when every signed file is genuine and the revocation of its lease is readable if there is one; the records are then those of the signed files, one each, in name order |
| LeaseStore.ListedExactly | tools/cass-kernel-gate/Sources/CassPolicyCore/RuntimeSupport.swift:128-186 | the leases listed from a load are exactly those of genuine signed files without a revocation, within their dates at the load and now, and of the profile asked for |
| LeaseStore.CachedAgainstFresh | tools/cass-kernel-gate/Sources/CassPolicyCore/RuntimeSupport.swift:121-186 | a cached answer is always a subsequence of what a fresh load now would give, and equal to it exactly when every lease listed fresh was created and unexpired at the cached load |
| LeaseStore.CacheMissesExactlyPostdated | tools/cass-kernel-gate/Sources/CassPolicyCore/RuntimeSupport.swift:57-62 | when time has not gone back, the cached answer equals the fresh one exactly when no lease to be listed was created after the cached load |
| LeaseStore.ListingIsCurrent | tools/cass-kernel-gate/Sources/CassPolicyCore/RuntimeSupport.swift:156-210 | in every run of one reader and other writers whose writes leave fresh snapshots, a hit answers with the records of the snapshot's own version, and records newer than their snapshot are never used |
| LeaseStore.CachedListing | tools/cass-kernel-gate/Sources/CassPolicyCore/RuntimeSupport.swift:121-210 | in every such run a cached listing is part of a fresh read of that version, and all of it exactly without leases created after the cached load |
| LeaseStore.RevokeExactly | tools/cass-kernel-gate/Sources/CassPolicyCore/RuntimeSupport.swift:110-119 | writing a revocation changes the records of exactly the named lease, to revoked and inactive |
| LeaseStore.ListingOrderForgotten | tools/cass-kernel-gate/Sources/CassPolicyCore/RuntimeSupport.swift:173-210 | the snapshot and the loaded records of a directory do not depend on the order its files are listed in |
| LeaseStore.SnapshotExactly | tools/cass-kernel-gate/Sources/CassPolicyCore/RuntimeSupport.swift:196-210 | two directories have the same snapshot exactly when they have files of the same names, modification times and sizes |
| LaneOccupancy.LaneOccupancy.RecordRouted | src/orxaq_autonomy/swarm_orchestrator.py:98-99 | one tier's count and the sum of all counts grow by one, nothing else changes |
| LaneOccupancy.LaneOccupancy.RebalanceCandidates | src/orxaq_autonomy/swarm_orchestrator.py:116-132 | the filters and early returns give the rebalanced order the lemmas are about |
| LaneOccupancy.RebalanceIsStable | src/orxaq_autonomy/swarm_orchestrator.py:116-132 | rebalancing is a permutation that keeps the order among saturated and among unsaturated candidates, and its head is unsaturated whenever any is |
| LaneOccupancy.RebalanceExactly | src/orxaq_autonomy/swarm_orchestrator.py:116-132 | the order stays as given while the first candidate is unsaturated; otherwise no saturated candidate is left in front of an unsaturated one |
| LaneOccupancy.ShareBound | src/orxaq_autonomy/swarm_orchestrator.py:107-114 | a tier is saturated exactly when its count exceeds the threshold times the total |
| LaneOccupancy.SomeCandidateFreeExactly | src/orxaq_autonomy/swarm_orchestrator.py:113-132 | distinct candidates always include an unsaturated one, whatever the counts, exactly when their number times the threshold is at least one |
| LaneOccupancy.FairnessBound | src/orxaq_autonomy/swarm_orchestrator.py:98-132 | if every step routes to the rebalanced head, after n steps no tier has more than threshold * (n - 1) + 1 |

## Left out

- Subprocesses, git, HTTP, file locking, heartbeats, reports and console output: what agents, validations and verifiers answer is an input of the model.
- `build_agent_prompt`, `evaluate_delivery_contract`, `is_retryable_error`: their answers are inputs; the text fields of an entry (summary, error, last update, owner) do not influence any step and are not modelled.
- RunnerRuns.UsageAccounted: costs are exact reals rounded to six decimals, half to even; binary floating point is not modelled.
- Exceptions out of the agent or the file system inside a cycle: only their effect on the next session is modelled, as a run cut off after its last save. Budget totals start at zero in every session, as in the source.
- `RunnerLock`: it is not atomic on disk; runs are modelled one at a time.
- RunnerCheckpoint.LoadState: reads parsed stored fields; JSON text and the parsing of timestamps and numbers are not modelled. `load_tasks` appears only as the precondition that ids are distinct.
- RunnerProgress.GoodRunCompletes: assumes no limits and no cooldowns at the start; with them the run may stop or idle first, as StopsExactly and IdlesExactly say.
- RpaRun.ScheduleRun.Step: threads are driven one block at a time; durations and timestamps of records are not modelled. A runner that raises ends its thread without a record, as in the source.
- `run_rpa_schedule_from_config` and `_default_run_job`: configuration parsing and subprocesses.
- PathMatcher.CompilerPreservesMeaning: characters are single code units; grapheme clusters, the case-insensitive option, `normalize`, `candidatePaths` and symbolic links are not modelled.
- FileLease.FileLease.Acquire: reading and writing the file is one step; interleavings between the two, torn files and malformed JSON are not modelled. Times are integers.
- ExecutionDag.ExecutionDAG.LoadState: the recorded results and times of nodes and status texts other than the five known ones are not modelled.
- `DMNPolicyEngine`, `CoordinatorObserver`: table lookup and a bounded log.
- PolicyEngine.DecideEvent: messages are an enumeration of reasons; regular expressions, path globs, dates and the paths inside a token are functions supplied by the host, so every matcher is covered. Sorting of a rule's operations in `PolicyRule` and monitored executables are not modelled.
- `ProcessVerificationRunner`: the verifier is a function from its command, source and target to an outcome or an error.
- LeaseStore.LeaseStore.ActiveLeases: a load sees one version of the directory; several concurrent readers, `save` and its signature check, and `list` as an operation of its own are not modelled. Signatures are a flag of the file.
- LaneOccupancy: `active_counts` with `acquire` and `release` take no part in rebalancing. Shares are exact reals.
- `SwarmOrchestrator.route` and `process_deferred`: routing compares strings with enumeration members, and deferral extends the list it walks; no claim is made about them.
- Dashboards, command lines, provider probing, health scores, event mesh and the other modules of the repository.
