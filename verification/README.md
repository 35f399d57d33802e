# Verified model of the Drive machinery, the architecture map and domain loading

Cosmonauts runs batches of coding tasks ("Drive"): a batch is compiled into a graph of steps, every task is worked on
by a backend, committed and marked Done, and the whole is logged so that it can be watched, interrupted and resumed.
Around it the program keeps a generated map of the code base and loads domains of agents from several sources. This
project models those parts in Dafny, with the failures and crashes they are built for, and proves what they promise.

`dafny verify dfyconfig.toml` checks everything.

| file | models |
|---|---|
| BundleStore.dfy | the crash-safe swap of the architecture map: temporary copy, target, backup, recovery |
| DriveGraph.dfy, GraphSchedule.dfy | compiling a batch into steps, and what any scheduler can do with them |
| LoopRefinement.dfy | the graph runner against the older sequential loop |
| FinalizationHistory.dfy, ResumedSchedule.dfy, Finalization.dfy | source commit, task status, state commit, the pending record, and resuming |
| ResumeSuffix.dfy | which tasks a resumed run still has to do |
| EventLog.dfy | the durable event log: numbers, record status, paging |
| TextLines.dfy, DriverEvents.dfy, EventBridge.dfy | the bridge that tails a log onto a bus |
| CompatReader.dfy | the two logs of a run and the reader that must not tell them apart |
| LockProtocol.dfy | the lock file, as interleaved steps of many callers |
| StepRecords.dfy, StepProjector.dfy, StepStatuses.dfy | step and attempt records made from driver events, and what they say after a run |
| ModuleDepths.dfy | module depths by a memoised search that cuts cycles |
| NarrativeText.dfy, Regeneration.dfy | printing and reading back narratives, and regenerating the map |
| DomainLoader.dfy, DomainResolution.dfy | merging domains from several sources, resolving over tiers, validating |

Code that changes state is a class whose methods take the faults of their writes as arguments, or meet them by choice
unless they are told to run undisturbed;
a crash is an exit that leaves whatever was on disk. Protocols of several processes are state machines over their
steps. Each such method is tied to a function or a predicate on values, and the promises are proved about those.

## Findings

Where the code falls short of what its documentation or its names suggest, the model follows the code, and both the
failing case and the exact condition are proved.

- A pending status record does not keep the worker's report. If a partial task has been committed and its status update
  fails, the next resume marks it Done (`Finalization.MisfiledTaskEndsDone`, reached by `Finalization.CommittedPartialTask`).
  Done means reported success exactly if the task's work step is not recorded as partial (`Finalization.DoneIsEarnedIff`).
- A resume whose retry of a task works while nothing else remains, and only that, reports the run completed without ever
  attempting the state commit (`Finalization.DriveRun.Resume`, `Finalization.StateCommitIsNeverMadeUp`, with a one-task
  run in `Finalization.OneTaskWithoutStateCommit`).
- Two callers can break one stale lock: exclusion needs runs without crashes, or reading and removing a stale file in one
  step (`LockProtocol.ExclusionIff`); the same runs are the ones in which no release removes another holder's file
  (`LockProtocol.ReleaseIff`).
- An attempt that has ended can be overwritten after a swallowed write error (`StepProjector.SwallowedErrorRewrites`),
  namely exactly if its end was written, its step was not and the process goes on (`StepProjector.InDangerIff`,
  `StepProjector.AlwaysKeptIff`). One failure can end two attempts if its first event stops between its writes
  (`StepProjector.StoppedFailureIsRecordedOnceIff`). The results of a blocked task and of a running worker depend on
  whether the projector was restarted (`StepProjector.SurvivesRestartIff`).
- A narrative with Windows line ends, outer white space or a line `## Files`, or a summary of several lines, does not
  survive regeneration (`NarrativeText.PageReadsBackIff`, `Regeneration.PageIsStableIff`). The shipped provider trims both,
  so outer white space needs another provider.
- Modules `.` and `root` share a page (`Regeneration.ShardPathsDifferIff`). Bundle validation then refuses the repeated
  path, so the run fails and the old map stays (`Regeneration.BundleIsRefusedIff`, `BundleStore.MapStorage.StoreBundle`).
- With a task selected twice, the resumed list can depend on how it is computed, and a settled task can remain
  (`ResumeSuffix.IncrementalEqualsRecomputedIff`, `ResumeSuffix.SafeSelectionIff`).
- The registry's own capability lookup prefers the shared domain when asked on its behalf, the resolver does not
  (`DomainResolution.LookupsAgreeIff`).

## Assumptions

One process at a time works on a run directory, and one store appends to an event log. A rename, a hard link and an
append are atomic; recursive removal and writing several files are not. Process ids are not used again. A git commit
makes a HEAD that was never there before. Workers do not edit task status themselves. Task ids of a compiled batch give
unique step ids (`DriveGraph.UniqueIdsIff` says when). The events of a resume retry reach the step records in order:
none of a task status if none of the source commit before it did. A resume from a dirty worktree is one with
`--resume-dirty`. JSON and front matter are faithful encodings, and a serialized event is one line. Comparison by locale
is not modelled: results that are only reordered by it are maps or sets here.

## Model

| member | source | states |
|---|---|---|
| `BundleStore.PartialRemovalKeeps` | lib/architecture-map/store.ts:52-56 | An interrupted recursive removal of the temporary copy, or of the backup once the map is in place, cannot change what recovery will publish, whichever part of the tree is gone. |
| `BundleStore.RemovalSafeIff` | lib/architecture-map/store.ts:49-56 | Exactly which removals have that property: the order of the removals in recovery is the one that matters. |
| `BundleStore.NoDifferencesIff` | lib/architecture-map/store.ts:203-220 | No changed file is reported if and only if the bundle and the directory are equal as maps from path to content. |
| `BundleStore.ValidateBundleFiles` | lib/architecture-map/store.ts:125-145 | A bundle is refused exactly if it lacks an index, repeats a path or breaks the path rules, and the error names such a path. |
| `BundleStore.ChangedGeneratedFiles` | lib/architecture-map/store.ts:203-220 | The two loops return a listed path exactly if it is new or its content differs, every path that is not listed any more, and nothing else. |
| `BundleStore.MapStorage.WriteReplacementTempBundle` | lib/architecture-map/store.ts:222-244 | An interrupted write touches only the temporary copy; a completed one leaves exactly the bundle there. |
| `BundleStore.MapStorage.Recover` | lib/architecture-map/store.ts:45-61 | Wherever recovery is interrupted it leads to the same map; when it completes that map is in place, no backup or temporary copy is left, and a map that existed is not missing. |
| `BundleStore.MapStorage.Swap` | lib/architecture-map/store.ts:83-107 | Every exit of the rename protocol, crash or error or rollback, leads recovery to exactly the old or exactly the new map. |
| `BundleStore.MapStorage.StoreBundle` | lib/architecture-map/store.ts:63-108 | An uninterrupted store reports unchanged if and only if bundle and disk are equal; written means the new bundle is in place, and the reported paths are exactly the added, edited and deleted ones; every other exit leads recovery to old or new, and only an interrupted store ends otherwise than these. |
| `BundleStore.GenerateRepeatedly` | lib/architecture-map/store.ts:45-108 | Over any number of stores and crashes, what recovery publishes is the initial map or one of the offered valid bundles, never older than the last acknowledged store; undisturbed stores of valid bundles are acknowledged, and an undisturbed recovery leaves only that map. |
| `DriveGraph.DependenciesRankLower` | lib/driver/drive-graph-compiler.ts:130-191 | Every step waits only for existing steps of lower rank, so the graph has no cycle. |
| `DriveGraph.RankInjective` | lib/driver/drive-graph-compiler.ts:94-128 | The rank is strict: no two steps share one. |
| `DriveGraph.UniqueIdsIff` | lib/driver/drive-graph-compiler.ts:257-268 | Compiled step ids are unique exactly if task ids are distinct and none equals the id of a finalizer in the graph. |
| `DriveGraph.PlainTaskIdsAreUnique` | lib/driver/drive-graph-compiler.ts:257-268 | Distinct task ids that do not start with `finalizer-` give unique step ids. |
| `DriveGraph.CompiledKeys` | lib/driver/drive-graph-compiler.ts:94-128 | The compiler emits every step of the batch, each once, and nothing else. |
| `DriveGraph.CompileSteps` | lib/driver/drive-graph-compiler.ts:94-128 | The loop over three arrays yields the records of exactly those steps, in that order. |
| `DriveGraph.CompiledTaskIs` | lib/driver/drive-graph-compiler.ts:130-191 | The steps of every task by place: ids, kinds, and that a task waits for the status of the one before, its source commit for the task, its status for the commit or, without one, for the task. |
| `DriveGraph.CompiledStateCommitIs` | lib/driver/drive-graph-compiler.ts:94-191 | The state commit is compiled, last and behind every task status, where the batch asks for it or leaves it to the default of a driver that commits. |
| `DriveGraph.CompiledCount` | lib/driver/drive-graph-compiler.ts:94-128 | How many steps a batch is compiled into. |
| `DriveGraph.CompileDriveRunStart` | lib/driver/drive-graph-compiler.ts:40-65 | The edges of the graph are exactly the `dependsOn` entries of its steps. |
| `DriveGraph.EdgesRaiseRank` | lib/driver/drive-graph-compiler.ts:212-219 | Every edge leads from a lower to a higher rank. |
| `GraphSchedule.ClosedIsLinear` | lib/driver/drive-graph-runner.ts:883-908 | A step that has started or may start has every lower step completed. |
| `GraphSchedule.LinearSchedule` | lib/driver/drive-graph-runner.ts:897-908 | In every state of every dependency-respecting run at most one step is runnable. |
| `GraphSchedule.MovesInRankOrder` | lib/driver/drive-graph-runner.ts:897-908 | All schedules work in one fixed order: task, source commit, status, next task, and at last the state commit. |
| `GraphSchedule.NothingIsSkipped` | lib/driver/drive-graph-runner.ts:897-908 | When a step runs, every lower step has run and is completed. |
| `GraphSchedule.UntouchedStaysPending` | lib/driver/drive-graph-runner.ts:883-895 | A step that was never run is still pending. |
| `LoopRefinement.RunRunLoop` | lib/driver/run-run-loop.ts:49-157 | The loop with its breaks and counters equals a direct description of where a batch stops and what it counts; by the oracle alone, LoopRefinement.BlockedOrAbortedIff, LoopRefinement.FinalizationFailedOrThrewIff and LoopRefinement.CountersMean say what that is. |
| `LoopRefinement.PassesMeans` | lib/driver/run-run-loop.ts:67-135 | The loop goes on after a task exactly if its update works, its commit is not refused, and it succeeded or was partial in a batch that continues then. |
| `LoopRefinement.BlockedOrAbortedIff` | lib/driver/run-run-loop.ts:97-115 | For every oracle: the loop ends blocked exactly at a failure, or at a partial task whose commit is refused, if the update works; aborted exactly at any other partial task that stops it. |
| `LoopRefinement.FinalizationFailedOrThrewIff` | lib/driver/run-run-loop.ts:67-157 | Exactly when the loop ends with a failed finalization, of a task or of the state commit, and when with an error. |
| `LoopRefinement.CountersMean` | lib/driver/run-run-loop.ts:49-66 | The counters count the successful tasks, the partial ones and the stopping one, and together give the started tasks unless the run failed to finalize or threw. |
| `LoopRefinement.EndIsDetermined` | lib/driver/drive-graph-runner.ts:435-515 | Every run of the graph ends in the same step statuses, whatever the schedule. |
| `LoopRefinement.GraphRefinesLoop` | lib/driver/drive-graph-runner.ts:435-515 | For every outcome oracle, every ended run of the compiled graph starts the same prefix of tasks as the loop and counts the same done tasks; it completes exactly if the loop does, and then the results are equal; it reports a failed finalization exactly if the loop does, unless the loop stops at a partial report whose task update failed. |
| `LoopRefinement.FinishesIff` | lib/driver/run-run-loop.ts:287-324 | The loop finishes exactly if every compiled step completes. |
| `LoopRefinement.NoTaskStopsIff` | lib/driver/run-run-loop.ts:67-135 | No task stops the loop exactly if no step of a task stops the graph. |
| `LoopRefinement.CountsAgree` | lib/driver/drive-graph-runner.ts:435-515 | Counting by status records gives the counts the loop keeps. |
| `LoopRefinement.StepUsesUpAKey` | lib/driver/drive-graph-runner.ts:883-908 | Every pass uses up a step, so draining the graph ends. |
| `LoopRefinement.RunDriveOnGraph` | lib/driver/drive-graph-runner.ts:55-225 | Draining the graph, taking any runnable step, terminates with the results of the loop, and ends blocked exactly at a task that did not succeed and whose update works. |
| `LoopRefinement.GraphBlockedIff` | lib/driver/drive-graph-runner.ts:435-512 | Exactly when an ended run of the graph is reported blocked, and how many blocked tasks it counts. |
| `LoopRefinement.FailureBlocksBoth` | lib/driver/run-run-loop.ts:97-105 | If the stopping report is a failure whose update works, loop and graph both end blocked. |
| `FinalizationHistory.StateCommitComesLast` | lib/driver/shell-command-finalizer.ts:209-275 | In a safe history a state commit is attempted only after every selected task was marked Done, each after its sources were settled. |
| `FinalizationHistory.RecordsAreClearedFirst` | lib/driver/run-state.ts:82-108 | Between two pending records there is always a clearing: an outstanding record is never overwritten. |
| `FinalizationHistory.DoneIsEarned` | lib/driver/drive-finalization.ts:171-252 | Drive marks a task Done only after its worker reported success, unless a status failure of an unsuccessful task was recorded for it; the exact condition is that of Finalization.DoneIsEarnedIff. |
| `Finalization.DoneIsEarnedIff` | cli/drive/subcommand.ts:1523-1560 | At every point of every run, for a task that was marked Done: its worker reported success if and only if the record of its work step is not marked partial. |
| `Finalization.PendingTaskHasWorked` | lib/driver/drive-finalization.ts:233-243 | While the finalization of a task is pending, its work step is completed and recorded as partial exactly if success was not reported; for a pending source commit it never is. |
| `Finalization.FinalizerUpdateKeeps` | lib/driver/shell-command-finalizer.ts:101-275 | Persisting a finalizer step keeps step records, pending record and history in agreement. |
| `Finalization.WorkUpdateKeeps` | lib/driver/drive-scheduler-backend.ts:186-231 | Persisting a work step does too, and a completed one that is not marked partial stands for a reported success. |
| `Finalization.DriveRun.FinalizeSourceCommit` | lib/driver/drive-finalization.ts:70-169 | Commits the sources, skips when there is nothing to commit, or leaves a pending commit record; what becomes of HEAD, the dirty sources and the task file in each case. |
| `Finalization.DriveRun.RecordCommitFinalizationFailure` | lib/driver/drive-finalization.ts:254-307 | The record is written before anything else, and stays if a later write fails. |
| `Finalization.DriveRun.TransitionTaskStatus` | lib/driver/drive-finalization.ts:171-252 | A status moves exactly if the update and its event succeed, to Done, in progress or blocked as was reported; a failure after a commit leaves a pending status record. |
| `Finalization.DriveRun.RecordTaskStatusFinalizationFailure` | lib/driver/drive-finalization.ts:309-372 | That record does not keep what the worker had reported. |
| `Finalization.DriveRun.CommitFinalState` | lib/driver/drive-finalization.ts:388-495 | A state commit leaves no selected task file dirty and makes a fresh HEAD; nothing to commit and failure leave HEAD. |
| `Finalization.DriveRun.RunSourceCommitFinalizer` | lib/driver/shell-command-finalizer.ts:101-154 | A successful result means the sources are settled and none is dirty, and names the commit if one was made; a retryable one that a pending record is on disk. |
| `Finalization.DriveRun.RunTaskStatusFinalizer` | lib/driver/shell-command-finalizer.ts:156-207 | A successful result that is not partial means the task was marked Done; without faults the record of the work step decides between Done and in progress. |
| `Finalization.DriveRun.RunStateCommitFinalizer` | lib/driver/shell-command-finalizer.ts:209-275 | A state commit is first attempted only when every status finalizer is done; then, without faults, the changed task files are committed. |
| `Finalization.DriveRun.RetryPendingSourceCommit` | cli/drive/subcommand.ts:1438-1497 | A retried commit is accepted exactly if git and the event work and the sources were dirty or HEAD has moved past the one recorded; then no source is left dirty. |
| `Finalization.DriveRun.FinalizePendingTaskStatus` | cli/drive/subcommand.ts:1523-1560 | The retry succeeds exactly if the Done update and its event do. |
| `Finalization.DriveRun.RetryPendingTask` | cli/drive/subcommand.ts:1231-1293 | The pending record is cleared, last of all, exactly if its phase, the Done update and the clearing succeed; the task then has reported success if and only if its work step is not recorded as partial. If the commit is accepted and the update fails, the record stays, the source commit is recorded as completed and the status as failed. |
| `Finalization.RetryUpdateKeeps` | cli/drive/subcommand.ts:1523-1560 | Whatever the events of a retry write to the steps of its pending record, in whatever state an earlier retry left them, keeps the run consistent. |
| `ResumedSchedule.OrderedIsLinear` | cli/drive/subcommand.ts:1231-1293 | With the records of retries too, everything below a step that was touched or may start is completed, but for source commits that will not run again. |
| `ResumedSchedule.OnlyCurrentRuns` | lib/driver/drive-graph-runner.ts:897-908 | So at most one step is runnable while a step waits. |
| `Finalization.DriveRun.AcceptExternalStateCommit` | cli/drive/subcommand.ts:1340-1383 | A state commit made by hand is accepted exactly if all tasks are Done and HEAD has moved. |
| `Finalization.DriveRun.RetryPendingStateCommit` | cli/drive/subcommand.ts:1295-1338 | The pending record is cleared only with the state landed and no selected task file dirty; without faults exactly if there was something to commit or a commit made by hand counts. |
| `Finalization.DriveRun.GraphRun` | lib/driver/drive-graph-runner.ts:55-225 | Any schedule with the stop policy, any faults of each step: the run drains only if no step can run and no finalizer waits for a retry, stops only over a pending record whose step is to be retried, and is cut off only by a fault that takes the process down. From any state in which nothing has gone wrong, if nothing fails, it drains with every step completed, every task reported successful, its sources settled and marked Done, and the task files committed if asked for. |
| `Finalization.FaultlessBatch` | lib/driver/drive-graph-runner.ts:55-225 | A fresh batch whose workers succeed and for which nothing fails ends drained and completed: every step Completed, every task reported successful, finalized and Done, the state commit landed under the final state commit policy, given or by default. |
| `Finalization.StuckIsComplete` | lib/driver/drive-graph-runner.ts:883-908 | If every step that has ended is completed and none can run, all are completed. |
| `Finalization.OutcomesMean` | lib/durable-runtime/scheduler.ts:1468-1566 | Which results complete, fail, block or retry a step, and which report is read back from them. |
| `Finalization.DriveRun.Resume` | cli/drive/subcommand.ts:374-431 | Exactly when the retry of a task completes the run and when the graph goes on: if git, update, events and the clearing of the record work, by whether anything remains; the same for a state commit whose retry meets no fault. A run completed by the retry of a task has not tried the state commit. |
| `Finalization.DriveRun.Session` | cli/drive/subcommand.ts:374-431 | No step runs while a record is pending; a run is completed by the retry of a task exactly if that works and nothing remains; if it works and something remains the graph is run, with what GraphRun promises; nothing is done exactly for a completed run with nothing pending or remaining. |
| `Finalization.Lifetime` | lib/driver/drive-finalization.ts:70-359 | Over any number of processes with any failing or interrupted writes the whole history is safe in the sense of FinalizationHistory, the record on disk is the outstanding one, and the persisted step records tell which of the tasks marked Done had succeeded. |
| `Finalization.MisfiledTaskEndsDone` | lib/driver/drive-finalization.ts:233-243 | A finding: a partial task whose sources were committed and whose status update fails is marked Done by the next resume. |
| `Finalization.CommittedPartialTask` | lib/driver/drive-finalization.ts:70-169 | The situation of that finding is reached by running the first two steps of a one-task batch. |
| `Finalization.StateCommitIsNeverMadeUp` | cli/drive/subcommand.ts:391-404 | A finding: under the final state commit policy, a resume whose retry of the last task works reports the run completed although its state commit was never attempted, and no later resume attempts it. |
| `Finalization.RefusedSourceCommit` | lib/driver/shell-command-finalizer.ts:101-154 | Running the first two steps of a one-task batch leaves such a pending record when git refuses the commit. |
| `Finalization.OneTaskWithoutStateCommit` | cli/drive/subcommand.ts:391-404 | That batch, its sources then committed by hand and the run resumed, ends completed and without a state commit. |
| `ResumeSuffix.FindHighestCompletedTaskIndex` | cli/drive/subcommand.ts:1757-1772 | The loop finds the largest position of a done or blocked task. |
| `ResumeSuffix.RemainingTasks` | cli/drive/subcommand.ts:1137-1167 | What is left is the suffix after that position: no done or blocked task is first selected in it, and the one before it is such a task. |
| `ResumeSuffix.IncrementalEqualsRecomputedIff` | cli/drive/subcommand.ts:1286-1291 | For every selection, log and task: dropping the finalized task from the list gives what recomputing it from the log would if and only if the task is not left or its first position is not settled yet. |
| `ResumeSuffix.IncrementalEqualsRecomputed` | cli/drive/subcommand.ts:1286-1291 | So it does for every log if tasks are distinct. |
| `ResumeSuffix.SafeSelectionIff` | cli/drive/subcommand.ts:1651-1657 | The two agree for every log and task, and settled tasks never remain, exactly for the selections that repeat no task. |
| `ResumeSuffix.RepeatedTaskDiffers` | cli/drive/subcommand.ts:1651-1657 | A log and a selection with a repeated task on which the two differ. |
| `ResumeSuffix.SettledTasksAreNotRemaining` | cli/drive/subcommand.ts:1757-1772 | No task with a done or blocked event, and no task before it, is left. |
| `EventLog.SortedAlready` | lib/durable-runtime/file-store.ts:711-715 | On a log in order, sorting by sequence number changes nothing. |
| `EventLog.SortSorts` | lib/durable-runtime/file-store.ts:711-715 | Sorting loses no event and leaves the numbers in order. |
| `EventLog.PageIsExact` | lib/durable-runtime/file-store.ts:348-372 | A page holds exactly the events between its two cursors, as many as the limit allows, is empty only at the end, and a limit of 0 makes no progress. |
| `EventLog.PositionKeeps` | lib/durable-runtime/file-store.ts:348-372 | A reader keeps its place while the log grows. |
| `EventLog.PagingIsExact` | lib/durable-runtime/file-store.ts:348-372 | Feeding the cursor back delivers every event exactly once and in order, for any positive limits and any growth between the pages. |
| `EventLog.PagingUntilEmptyDeliversAll` | lib/durable-runtime/file-store.ts:348-372 | Paging until a page is empty delivers everything after the first cursor, and the whole log from a cursor before all of it. |
| `EventLog.AppendIsReported` | lib/durable-runtime/controller.ts:64-99 | An append moves the reported status as its event says, whether or not the record is updated; no terminal status is left again. |
| `EventLog.AppendStaysUpToDate` | lib/durable-runtime/file-store.ts:333-345 | The record equals the reported status unless the update for a terminal event was lost. |
| `EventLog.RecordedAs` | lib/durable-runtime/status.ts:3-32 | What every kind of event does to the record: each end of a run sets the status of its name, a start sets running before any end, any other event nothing. |
| `EventLog.FileRunStore.ReadEventFile` | lib/durable-runtime/file-store.ts:662-716 | Reading finds all events, the largest number, and as many diagnostics as there are diagnostic and malformed lines, whatever lines lie between. |
| `EventLog.FileRunStore.LatestSeq` | lib/durable-runtime/file-store.ts:598-608 | The cached number is the largest on disk. |
| `EventLog.FileRunStore.AppendEvent` | lib/durable-runtime/file-store.ts:312-346 | The event gets the next number; what becomes of record and cache under every fault. |
| `EventLog.FileRunStore.UpdateRun` | lib/durable-runtime/file-store.ts:143-158 | A terminal record refuses a status that is not terminal. |
| `EventLog.FileRunStore.GetRunStatus` | lib/durable-runtime/controller.ts:51-99 | The status is that of the last event that ends the run, else the record; it equals the record unless an update was lost. |
| `EventLog.LifeOfALog` | lib/durable-runtime/file-store.ts:312-372 | Over any appends, faults, stray lines and new processes: the reader finds exactly the appended events numbered 1, 2, 3, ..., and the reported status is the one they lead to. |
| `EventLog.SurvivorsAre` | lib/durable-runtime/file-store.ts:312-346 | The log gets an event exactly if its append does not throw. |
| `EventLog.StatusOfLastEnd` | lib/durable-runtime/controller.ts:51-99 | Over a whole life of the log, the reported status is the one named by the last end that got into the log. |
| `EventLog.StatusWithoutEnd` | lib/durable-runtime/controller.ts:51-99 | Without one it is running as soon as a start has reached the record. |
| `TextLines.SplitText` | lib/driver/event-stream.ts:570-571 | Splitting a text of complete lines and an unfinished one gives those lines and that rest. |
| `DriverEvents.BusShows` | lib/driver/event-stream.ts:446-487 | Exactly which events the bus shows, and as what; every event that ends a run is shown. |
| `EventBridge.CutIsCut` | lib/driver/event-stream.ts:573-597 | Where a reader of a log stops: after the first line that ends the stream, before the first unreadable line, or at the end. |
| `EventBridge.CutMeans` | lib/driver/event-stream.ts:573-597 | The same in terms of what the lines hold: an event of this run under this parent that completes it, aborts it or fails to finalize it. |
| `EventBridge.BatchMeans` | lib/driver/event-stream.ts:573-597 | What a line contributes to the bus, for every line: nothing unless it holds an event of this run and parent that the bus shows, and then that event. |
| `EventBridge.Bridge.ProcessContent` | lib/driver/event-stream.ts:560-597 | One reading takes the complete lines up to that place; a file that became shorter is followed from its start. |
| `EventBridge.Bridge.Poll` | lib/driver/event-stream.ts:599-621 | A failed read changes nothing, and nothing is published once stopped. |
| `EventBridge.Tail` | lib/driver/event-stream.ts:549-621 | Polling a growing log cut off anywhere publishes filter and map of its complete lines, cut after the first matching terminal event or before the first unreadable line; nothing lost, nothing twice. |
| `CompatReader.CarriesItself` | lib/driver/durable-events.ts:45-54 | In both sink modes the event itself comes last among what is appended for it, and is all that can be read back. |
| `CompatReader.CanonicalMeans` | lib/driver/durable-events.ts:45-242 | Which events complete, fail, block, start or ready a step, and start, complete or fail the run in the normalized log, each exactly. |
| `CompatReader.GraphActivityIs` | lib/driver/event-stream.ts:205-214 | The sink of a graph run appends exactly the activity among them, in order. |
| `CompatReader.SubsequenceLength` | lib/driver/watch-events-compat.ts:76-90 | A subsequence that is as long as the whole is the whole: why comparing counts is enough. |
| `CompatReader.TailEvents` | lib/driver/event-stream.ts:725-750 | The legacy reader returns the readable lines from the cursor on and the number of lines. |
| `CompatReader.LinesOfLog` | lib/driver/event-stream.ts:802-808 | The lines of a log that was written event by event are the serialized events. |
| `CompatReader.DriveLogs.EnsureDurableSinkReady` | lib/driver/event-stream.ts:232-259 | A failed set-up disables the sink and marks the run if the marker can be written. |
| `CompatReader.DriveLogs.AppendDurableEvents` | lib/driver/event-stream.ts:374-395 | What reaches the normalized log, and when the run is marked, for every pattern of failing appends. |
| `CompatReader.EveryAppendIsTried` | lib/driver/event-stream.ts:374-395 | An append that fails does not keep the later ones from being made. |
| `CompatReader.MarkedIff` | lib/driver/event-stream.ts:374-395 | The run is marked exactly if some append failed whose mark could be written. |
| `CompatReader.DriveLogs.Emit` | lib/driver/event-stream.ts:116-136 | The legacy log is written first, and what can be read back from the normalized log stays a subsequence of it; without faults it grows by exactly the event. |
| `CompatReader.DriveLogs.WatchDriverEventsCompat` | lib/driver/watch-events-compat.ts:31-98 | The reader returns events and cursor of the legacy log; it takes the normalized log exactly if that is unmarked and complete. |
| `CompatReader.WatchAfter` | lib/driver/watch-events-compat.ts:31-98 | After any events, faults and sinks, a reader gets exactly the events of the legacy log from its cursor on, and its length as the next cursor; if nothing failed it reads them from the normalized log. |
| `LockProtocol.OwnersAlwaysMatch` | lib/driver/lock.ts:129-151 | In every reachable state, a live caller has a handle exactly if the file is the one it linked. |
| `LockProtocol.MutualExclusion` | lib/driver/lock.ts:48-106 | At most one live caller has the lock, for any number of processes and any interleaving, in runs without crashes and in runs where a stale file is read and removed in one step. |
| `LockProtocol.ReleaseRemovesOwnFile` | lib/driver/lock.ts:209-235 | In those runs a release removes only the holder's own file. |
| `LockProtocol.AbandonedLockIsTaken` | lib/driver/lock.ts:59-77 | When no live caller holds the lock, any caller gets it by its own steps alone, also past a dead owner's file. |
| `LockProtocol.PlanLockTriesTwice` | lib/driver/lock.ts:48-106 | In every run a caller of the plan lock links at most twice, and a caller of the repository lock is never refused. |
| `LockProtocol.JudgeMeans` | lib/driver/lock.ts:48-106 | Before a live owner the one gives up and the other starts over; a dead owner's lock is broken. |
| `LockProtocol.CompareMeans` | lib/driver/lock.ts:209-235 | A release goes on to remove the file only if that holds what its caller has linked, and does nothing the second time. |
| `LockProtocol.ExclusionIff` | lib/driver/lock.ts:189-207 | Exclusion holds for a kind of run exactly if it does not combine crashes with slow breaking. |
| `LockProtocol.SlowBreakerLosesExclusion` | lib/driver/lock.ts:71-77 | A run with one crash in which two breakers both win. |
| `LockProtocol.SlowBreakerLosesItsFile` | lib/driver/lock.ts:213-230 | A run in which a release removes the file of another live holder. |
| `LockProtocol.ReleaseIff` | lib/driver/lock.ts:209-235 | Releases touch only the holder's own file in a kind of run exactly if it does not combine crashes with slow breaking. |
| `StepRecords.UniqueArtifacts` | lib/driver/durable-steps.ts:996-1008 | The loop keeps the first of each artifact. |
| `StepRecords.UniqueKeeps` | lib/driver/durable-steps.ts:996-1008 | No artifact is lost and none is left twice. |
| `StepRecords.FirstStays` | lib/driver/durable-steps.ts:996-1008 | Of the same artifacts the first stays. |
| `StepRecords.WithCommitTwice` | lib/driver/durable-steps.ts:958-979 | A commit reported twice is recorded once. |
| `StepRecords.WithCommitMeans` | lib/driver/durable-steps.ts:958-979 | Adding a commit puts it last, in place of any other record of it, and changes nothing else. |
| `StepRecords.FailedFinalizerResult` | lib/driver/durable-steps.ts:755-771 | A failed finalizer leaves a failure to be retried, with the pending finalization and its commit as artifacts. |
| `StepRecords.FinishedFinalizerResult` | lib/driver/durable-steps.ts:755-771 | Any other leaves a success that lets the run go on. |
| `StepRecords.RetryableFailureMeans` | lib/driver/durable-steps.ts:773-789 | The report of a failed finalization leaves the same as the failed finalizer. |
| `StepRecords.UpsertStepMeans` | lib/driver/durable-steps.ts:617-686 | What an update does not mention stays in a step's record, and no other record changes. |
| `StepProjector.ProcessedIsSound` | lib/driver/durable-steps.ts:744-753 | Attempt numbers have no gaps, wherever the processing of an event stops and whatever was swallowed before. |
| `StepProjector.KeepsEndedIff` | lib/driver/durable-steps.ts:448-480 | Exactly when an event leaves ended attempts as they are: unless it gets to its first write and overwrites one, because an attempt that it ends differently is still remembered as open. |
| `StepProjector.InDangerIff` | lib/driver/event-stream.ts:324-338 | Exactly which event and failure put an ended attempt in danger of a later event: the end of the attempt is written, its step is not, and the error is swallowed. Every other swallowed error is harmless. |
| `StepProjector.AlwaysKeptIff` | lib/driver/durable-steps.ts:60-143 | Over every stream of events, with processes ending or swallowing errors anywhere, ended attempts stay as they are exactly if no event of the stream overwrites one. |
| `StepProjector.SafeUnlessStepLost` | lib/driver/durable-steps.ts:60-143 | No event does as long as a process that lost the step of an ended attempt does not go on. |
| `StepProjector.SwallowedErrorRewrites` | lib/driver/event-stream.ts:324-338 | That condition cannot be dropped: the next event of a failed finalization rewrites an attempt whose step was lost. |
| `StepProjector.SwallowedErrorIsReached` | lib/driver/event-stream.ts:324-338 | The three events of such a run, from any state. |
| `StepProjector.StaysInStep` | lib/driver/durable-steps.ts:60-143 | Memory and files say the same after every event whose writes succeed or whose process ends. |
| `StepProjector.SurvivesRestartIff` | lib/driver/durable-steps.ts:291-363 | Exactly when an event leaves the same files whether or not the projector was restarted before it: always for done tasks, commits and finalizer events; for a spawned worker unless its start is remembered; for a blocked task unless a remembered result is unsuccessful and not the one the event states. |
| `StepProjector.DoneAndCommitSurvive` | lib/driver/durable-steps.ts:291-313 | Done tasks and commits get the same result from a projector that has just been started. |
| `StepProjector.FinalizerEventsSurvive` | lib/driver/durable-steps.ts:423-602 | So do finalizer events, because the open attempt is found again. |
| `StepProjector.Projector.StartAttempt` | lib/driver/durable-steps.ts:423-446 | A start takes the next number and is remembered, then written, then named by its step, wherever it stops; exactly what is on file and in memory if it does not. |
| `StepProjector.Projector.EndAttempt` | lib/driver/durable-steps.ts:448-480 | An end writes the attempt, then its step, and forgets the attempt only then, wherever it stops; exactly what is on file and in memory if it does not. |
| `StepProjector.Projector.RecordTaskDone` | lib/driver/durable-steps.ts:291-313 | The step is completed; the stored result stays, or is success if there is none. |
| `StepProjector.Projector.RecordTaskBlocked` | lib/driver/durable-steps.ts:315-335 | The step is failed exactly if a failure is remembered, else blocked; an unsuccessful result that is remembered stays. |
| `StepProjector.Projector.RecordCommitMade` | lib/driver/durable-steps.ts:337-363 | The stored result stays, with the commit added. |
| `StepProjector.Projector.RecordRetryableFinalizerFailure` | lib/driver/durable-steps.ts:482-529 | A failure that the latest attempt already records writes nothing; any other ends an attempt. |
| `StepProjector.Projector.Project` | lib/driver/durable-steps.ts:70-139 | One event with any failure: its exact effect on files and memory, attempt numbers without gaps, and ended attempts changed exactly if it overwrites one. |
| `StepStatuses.ProjectAll` | lib/driver/durable-steps.ts:60-143 | The whole stream, with any failures and restarts, leaves the files that its events call for, numbers without gaps, and every ended attempt as it was if no event overwrites one or no process goes on after losing a step. If all writes succeed, a task's step is completed exactly if the last of its events other than commits is `task_done`, and a finalizer's exactly if its last event says it passed or was skipped. |
| `StepStatuses.TaskStatusOfRun` | lib/driver/durable-steps.ts:60-143 | The status of a task's step after any such run, for every kind of last event. |
| `StepStatuses.BlockedTaskOfRun` | lib/driver/durable-steps.ts:315-335 | After a blocked task it is failed exactly if the last worker failed by its report or did not run, as the process has seen it, and blocked otherwise. |
| `StepStatuses.FinalizerStatusOfRun` | lib/driver/durable-steps.ts:365-529 | The status of a finalizer's step after any such run. |
| `StepStatuses.SilentRun` | lib/driver/durable-steps.ts:337-363 | Commits and the events of others change the status of no task's step. |
| `StepProjector.FailureEndsOne` | lib/driver/durable-steps.ts:448-480 | From a state in which no ended attempt is still remembered as open, a failed finalization whose end is written ends exactly one attempt, with a failure that will be retried. |
| `StepProjector.LaterAddsNothing` | lib/driver/durable-steps.ts:531-552 | The events of the same failure that follow do nothing, however far they get. |
| `StepProjector.FailureIsRecordedOnce` | lib/driver/durable-steps.ts:482-552 | From such a state, all events of one failed finalization together add exactly one ended attempt if the first is written, wherever the later ones stop and whatever restarts come between. |
| `StepProjector.ReportAddsIff` | lib/driver/durable-steps.ts:482-529 | A report of a failure by itself adds an ended attempt exactly if the failure is not on record. |
| `StepProjector.StoppedFailureIsRecordedOnceIff` | lib/driver/durable-steps.ts:482-552 | If the first event stops between its two writes, the next one adds nothing exactly if the attempt is still remembered, is the one its step names, or follows a failure that will be retried as well; otherwise a second attempt ends. |
| `ModuleDepths.LongestFromDependencies` | lib/artifact-viewer/server.ts:533-541 | The longest path from a module is one longer than the longest from a dependency. |
| `ModuleDepths.BackEdgeIsCycle` | lib/artifact-viewer/server.ts:530-531 | Meeting a module that is being visited means there is a cycle. |
| `ModuleDepths.DepthSearch.DepthFor` | lib/artifact-viewer/server.ts:527-544 | The memoised search terminates, keeps its memo, and on graphs without cycles computes longest paths. |
| `ModuleDepths.Depths` | lib/artifact-viewer/server.ts:519-549 | Depths are at most the number of modules; on graphs without cycles they are longest paths; a graph has no cycle exactly if every dependency lies strictly deeper. |
| `ModuleDepths.GroupModulesByDepth` | lib/artifact-viewer/server.ts:551-559 | A group holds exactly the modules of its depth, in order. |
| `ModuleDepths.OfDepthOfSum` | lib/artifact-viewer/server.ts:551-559 | Groups keep the order of the modules. |
| `ModuleDepths.LaterModuleCounts` | lib/artifact-viewer/server.ts:519-523 | Of two modules with one resource the later one counts. |
| `NarrativeText.ExtractOneLineNarrative` | lib/architecture-map/generator.ts:579-588 | The loop finds the first line after the title that is not blank, trimmed, if it comes before the heading. |
| `NarrativeText.TrimCuts` | lib/architecture-map/generator.ts:579-606 | Trimming takes exactly the white space off both ends. |
| `NarrativeText.PageReadsBackIff` | lib/architecture-map/generator.ts:411-424 | A page gives back its summary and its text if and only if the summary is one trimmed line that is not a heading and the text is trimmed, not empty, without carriage returns before newlines and without the next heading as a line. |
| `NarrativeText.BodyIsStableIff` | lib/architecture-map/generator.ts:411-424 | What is read back from a page is printed like the page exactly under that condition. |
| `NarrativeText.SomePagesHideHeading` | lib/architecture-map/generator.ts:411-424 | There are pages that come out the same although their summary and text are read back differently. |
| `Regeneration.BuildModuleRecords` | lib/architecture-map/generator.ts:121-159 | The loop asks the provider for exactly the modules that call for it, in order. |
| `Regeneration.ProviderIsSpared` | lib/architecture-map/generator.ts:161-225 | Provider calls never exceed the budget and never concern a module that is unchanged and has a narrative. |
| `Regeneration.AskedIff` | lib/architecture-map/generator.ts:161-225 | The provider is asked about exactly the first modules without a narrative that still counts, as many as the budget allows, in their order. |
| `Regeneration.NarrativeOfEach` | lib/architecture-map/generator.ts:161-225 | A module whose page is of the same skeleton and has a narrative keeps it, marked as reused if its sources changed; one that is asked about gets summary and text of the answer of its turn, or the failure as reason; any other stays pending, for the reason there is. |
| `Regeneration.StampTellsChange` | lib/architecture-map/generator.ts:324-350 | A page gets a new stamp exactly if its front matter or text has changed or there was none. |
| `Regeneration.DeriveDependents` | lib/architecture-map/generator.ts:239-263 | Every known module gets exactly the modules that depend on it. |
| `Regeneration.GoodNarrativeReadsBack` | lib/architecture-map/generator.ts:548-570 | Parsing the rendered page of a good narrative gives the narrative back, status included. |
| `Regeneration.RegenerationIsFixpoint` | lib/architecture-map/generator.ts:46-109 | Generating again from the same sources changes no file, with good narratives and no provider to ask about a pending one. |
| `Regeneration.PageIsStableIff` | lib/architecture-map/generator.ts:590-606 | Whatever summary and text a provider gave, the page comes out the same from what is read back if and only if the summary is one trimmed line and no heading and the text is a good one, or the summary hides the heading in itself and reading it as such is good. |
| `Regeneration.ShardPathsDifferIff` | lib/architecture-map/generator.ts:626-629 | Two modules share a page only if one is the root module and the other is called root. |
| `Regeneration.BundleIsRefusedIff` | lib/architecture-map/store.ts:125-145 | With safe paths and distinct modules, the rendered bundle is refused exactly if both of these are among them. |
| `DomainLoader.FoldIsMerge` | lib/domains/loader.ts:329-354 | A merged domain has the manifest of its last provider, each agent from the last that has it, unions of the other resources, chains in ascending and directories in descending order. |
| `DomainLoader.ChainsOfSum` | lib/domains/loader.ts:329-354 | Chains of the first providers come first. |
| `DomainLoader.DirectoriesDescend` | lib/domains/loader.ts:329-354 | Directories are in strictly descending precedence. |
| `DomainLoader.ListingIsUnique` | lib/domains/loader.ts:200-203 | Providers of different precedence can be listed in one ascending order only. |
| `DomainLoader.DomainsAreUnique` | lib/domains/loader.ts:193-283 | The providers alone decide what is loaded. |
| `DomainLoader.SortSorts` | lib/domains/loader.ts:200-203 | Sorting the sources loses no provider. |
| `DomainLoader.SortIsStable` | lib/domains/loader.ts:200-203 | and keeps the order of the sources of one precedence. |
| `DomainLoader.ProvenanceTellsClash` | lib/domains/loader.ts:227-240 | Comparing with the accumulated provenance finds a clash exactly if there is one. |
| `DomainLoader.ClashingIff` | lib/domains/loader.ts:227-240 | A clash is two places among the providers that hold the same active id at the same precedence. |
| `DomainLoader.AddProvider` | lib/domains/loader.ts:215-272 | One step of the fold fails exactly on a clash, and otherwise merges. |
| `DomainLoader.LoadDomainsFromSources` | lib/domains/loader.ts:193-283 | Loading fails exactly if two active providers of one id have one precedence, and then names two such providers, the first as the existing one; otherwise every active id has the merge of its providers in ascending precedence. |
| `DomainLoader.LoadInAnyOrder` | lib/domains/loader.ts:193-283 | Giving the sources in another order changes nothing. |
| `DomainResolution.TieredOrder` | lib/domains/resolver.ts:136-163 | The loop builds own, portables, shared. |
| `DomainResolution.TiersInOrder` | lib/domains/resolver.ts:136-163 | The tiers hold exactly the own, the portable and the shared domains; own comes first, shared last, and the portable ones keep the order of the registry. |
| `DomainResolution.FindInRootDirs` | lib/domains/resolver.ts:174-190 | The path is in the first directory where the resource exists; if there is none, in the first directory. |
| `DomainResolution.ResolveInTiers` | lib/domains/resolver.ts:116-128 | The path comes from the first domain in tier order that declares the resource and has a directory. |
| `DomainResolution.AcceptsIffInTiers` | lib/domains/validator.ts:313-362 | The validator accepts exactly what some tier declares. |
| `DomainResolution.ValidateThenResolve` | lib/domains/validator.ts:313-362 | For unique ids and directories: the validator accepts exactly if resolution returns a path, and that is in the first directory with the resource of the first provider in the order own, portable, shared. |
| `DomainResolution.LookupsAgreeIff` | lib/domains/registry.ts:59-77 | Exactly when the lookup of the registry and that of the resolver pick the same domain. |

## Left out

- The scheduler and the backends: the graph is run by the relation "any pending step whose dependencies are completed", and workers by an outcome oracle.
- Child processes, git command text, timers, file watchers, pid probing and `ps` parsing: only their effect on HEAD, dirty files and live processes is kept.
- Encoding of JSON, YAML and front matter, hashing, and extracting skeletons from TypeScript.
- BundleStore.ValidateBundleFiles: the rules for a single path (relative, normalized, inside the map directory) are a parameter.
- Two stores that append to one event log with caches of their own, and readers that race with a writer in the compatibility reader.
- An external `stop` of the bridge during a read.
- Malformed lines in the legacy log, and a legacy log that exists but is empty, in the compatibility reader.
- LoopRefinement.GraphRefinesLoop: does not compare the blocked tasks, the event counts or the label of a partial stop, because the two implementations differ there (LoopRefinement.BlockedOrAbortedIff and LoopRefinement.GraphBlockedIff say how each ends).
- LoopRefinement.RunDriveOnGraph: of a run that ends otherwise than finished, blocked or with a failed finalization only the started and done tasks are stated.
- LoopRefinement.RunRunLoop: retries within a task and how a worker's report is derived are part of the oracle.
- FinalizationHistory.DoneIsEarned: one direction, from the history alone; the exact condition needs the step records (Finalization.DoneIsEarnedIff).
- ResumeSuffix.RepeatedTaskDiffers: one example; the exact conditions are those of ResumeSuffix.IncrementalEqualsRecomputedIff and ResumeSuffix.SafeSelectionIff.
- The run policy that lets the scheduler run finalizer steps again that were left running: they are blocked, as by default.
- StepStatuses.ProjectAll: titles, dependencies, input artifacts and evidence files of steps are not modelled, because no later event reads them.
- ModuleDepths.GroupModulesByDepth: does not sort the groups and their members by name, which only orders the display.
- Regeneration.BuildModuleRecords: takes the modules already sorted; the printed lists of a page and the body of the index are parameters, because they are never read back.
- DomainLoader.LoadDomainsFromSources: returns the domains by id, without the final ordering of the list, and models the default merge strategy only.
- Reading a domain directory, bindings, public surfaces, named-chain and subagent checks of the validator.
- Prompts, HTML, command-line parsing, tables, episode capture, sessions, packages.
