/**
 Task finalization as Drive runs it on the graph: source commit, task status, state commit, with
 a persisted pending record and retries in later processes
 (lib/driver/drive-finalization.ts, lib/driver/shell-command-finalizer.ts, lib/driver/run-state.ts,
 and the resume half of cli/drive/subcommand.ts).

 Git is a HEAD and two dirty sets; every commit takes a fresh sha.  Each effect is told by its
 arguments whether it succeeds, throws, or takes the process down, so the caller of a method
 chooses the faults and a method is correct for all of them.
 */
module Finalization {
  import opened Wrappers
  import opened DriveGraph
  import opened GraphSchedule
  import opened FinalizationHistory
  import opened ResumedSchedule

  datatype TaskState = ToDo | InProgress | BlockedState | DoneState

  datatype Luck = Fine | Fails | Dies
  /** `FailsAfterCommit`: git made the commit but the command still reported an error. */
  datatype GitLuck = Works | GitFails | FailsAfterCommit | GitDies

  datatype StepOutcome = SuccessOutcome | PartialOutcome | FailedOutcome | BlockedOutcome
  datatype StepResult = StepResult(outcome: StepOutcome, partialMark: bool, retry: bool, commit: Option<Sha>)

  const SUCCESS := StepResult(SuccessOutcome, false, false, None)
  const THROWN := StepResult(FailedOutcome, false, false, None)
  const RETRY := StepResult(FailedOutcome, false, true, None)
  const BLOCKED := StepResult(BlockedOutcome, false, false, None)

  /** `stepTransitionFromResult`; finalizers have no attempt limit. */
  function StatusFromResult(r: StepResult): StepStatus {
    if r.retry then Ready
    else match r.outcome
         case SuccessOutcome => Completed
         case FailedOutcome => Failed
         case PartialOutcome => Blocked
         case BlockedOutcome => Blocked
  }

  /** `reportOutcomeFromStepResult` */
  function ReportFromResult(r: StepResult): Report {
    if r.outcome.PartialOutcome? || r.partialMark then Partial
    else if r.outcome.SuccessOutcome? then Success
    else Failure
  }

  datatype CommitExit = NotApplicable | Skipped | CommittedAs(sha: Sha) | CommitBlocked | CommitFailed | CommitThrew | CommitDied
  datatype StatusExit = StatusMoved(report: Report) | StatusFailed | StatusThrew | StatusDied
  datatype StateExit = StateCommitted(sha: Sha) | PolicyNone | NoChanges | StateFailed(headBefore: Sha) | StateThrew | StateDied
  datatype RetryExit = Retried | RetryFailed | RetryDied
  datatype SessionExit = RetryRefused | CompletedByResume | GoesOn | AlreadyCompleted | FinalizationFailedRun | Drained | Crashed

  /** How much of a phase's events a resume retry gets into the step record: nothing, its start only, or
      its end too. A step that was only started is blocked by the next scheduler. */
  datatype Seen = Unseen | Begun | Ended

  /** The faults met while one step or one retry runs. */
  datatype Env = Env(report: Report, edits: bool, selfCommits: bool, git: GitLuck,
                     update: Luck, emit: Luck, record: Luck, note: Luck, clear: Luck,
                     commitSeen: Seen, statusSeen: Seen, stateSeen: Seen)

  predicate CommitWorks(env: Env) {
    env.git.Works? && env.emit.Fine?
  }

  /** Git refuses to commit, and everything else works. */
  predicate CommitIsRefused(env: Env) {
    env.git.GitFails? && env.record.Fine? && env.note.Fine? && env.emit.Fine?
  }

  /** The worker succeeds, and so does everything that is needed then. */
  predicate Faultless(env: Env) {
    env.report.Success? && env.git.Works? && env.update.Fine? && env.emit.Fine?
  }

  /** Every selected task's file says Done. */
  predicate AllFilesDone(spec: Spec, status: map<nat, TaskState>) {
    forall t | 0 <= t < |spec.taskIds| :: t in status && status[t].DoneState?
  }

  /** There is something to commit of the selected tasks. */
  predicate SelectedDirty(spec: Spec, dirty: set<nat>) {
    exists t | t in dirty :: t < |spec.taskIds|
  }

  /** Something takes the process down. */
  predicate Deadly(env: Env) {
    env.git.GitDies? || env.update.Dies? || env.emit.Dies? || env.record.Dies? || env.note.Dies?
  }

  /** What a step's result makes of the step, and of the report that the finalizers go by. */
  lemma OutcomesMean(r: StepResult)
    ensures StatusFromResult(r) == Completed <==> r.outcome == SuccessOutcome && !r.retry
    ensures StatusFromResult(r) == Failed <==> r.outcome == FailedOutcome && !r.retry
    ensures StatusFromResult(r) == Blocked <==> (r.outcome == PartialOutcome || r.outcome == BlockedOutcome) && !r.retry
    ensures StatusFromResult(r) == Ready <==> r.retry
    ensures ReportFromResult(r) == Success <==> r.outcome == SuccessOutcome && !r.partialMark
    ensures ReportFromResult(r) == Partial <==> r.outcome == PartialOutcome || r.partialMark
  {
  }

  // ----- what ties the persisted state to the history -----

  type Results = map<string, StepResult>

  predicate CompletedWith(spec: Spec, records: Records, results: Results, key: StepKey, partial: bool)
    requires ValidKey(spec, key)
  {
    && StatusOf(spec, records, key).Completed?
    && IdOf(spec, key) in results
    && results[IdOf(spec, key)].outcome.SuccessOutcome?
    && results[IdOf(spec, key)].partialMark == partial
  }

  /** `isDoneTaskStatusStep` */
  predicate DoneStatusStep(spec: Spec, records: Records, results: Results, t: nat)
    requires t < |spec.taskIds|
  {
    CompletedWith(spec, records, results, TaskStatus(t), false)
  }

  function PhaseKey(p: Pending): StepKey {
    match p
    case CommitPhase(t, _) => SourceCommit(t)
    case StatusPhase(t, _) => TaskStatus(t)
    case StatePhase(_) => StateCommit
  }

  /** `isRetryableFinalizerStep` for the step of the pending phase. */
  predicate RetryableStep(spec: Spec, results: Results, p: Pending) {
    var key := PhaseKey(p);
    && ValidKey(spec, key)
    && IdOf(spec, key) in results
    && results[IdOf(spec, key)].outcome.FailedOutcome? && results[IdOf(spec, key)].retry
  }

  predicate Commits(spec: Spec) {
    spec.commitPolicy.DriverCommits?
  }

  ghost predicate WorkTells(spec: Spec, records: Records, results: Results, history: History) {
    forall t | 0 <= t < |spec.taskIds| ::
      if StatusOf(spec, records, Work(t)).Completed?
      then exists partial :: CompletedWith(spec, records, results, Work(t), partial) && (partial <==> Reported(t, Success) !in history)
      else Reported(t, Success) !in history
  }

  ghost predicate CommitTells(spec: Spec, records: Records, history: History) {
    Commits(spec) ==> forall t | 0 <= t < |spec.taskIds| && StatusOf(spec, records, SourceCommit(t)).Completed? :: SourceFinalized(t) in history
  }

  ghost predicate StatusTells(spec: Spec, records: Records, results: Results, history: History) {
    forall t | 0 <= t < |spec.taskIds| && DoneStatusStep(spec, records, results, t) :: MarkedDone(t) in history
  }

  ghost predicate StateTells(spec: Spec, records: Records, results: Results, history: History) {
    StateAttempted in history ==> forall t | 0 <= t < |spec.taskIds| :: DoneStatusStep(spec, records, results, t)
  }

  /** Only a task whose work step has completed is marked Done. */
  ghost predicate DoneTells(spec: Spec, records: Records, history: History) {
    forall t | 0 <= t < |spec.taskIds| && MarkedDone(t) in history :: StatusOf(spec, records, Work(t)).Completed?
  }

  ghost predicate WorkCompleted(spec: Spec, records: Records, t: nat) {
    t < |spec.taskIds| ==> StatusOf(spec, records, Work(t)).Completed?
  }

  /** What is known of a task while its finalization is pending. Its finalizer steps may be recorded as
      anything that will not run by itself. */
  ghost predicate TaskPends(spec: Spec, records: Records, history: History, t: nat) {
    && Commits(spec) && t < |spec.taskIds| && StatusOf(spec, records, Work(t)).Completed?
    && Untouched(spec, records, t) && StateAttempted !in history
  }

  /** What is known while the pending record `p` is on disk. */
  ghost predicate PendingFits(spec: Spec, records: Records, history: History, nextSha: Sha, p: Pending) {
    match p
    case CommitPhase(t, h) =>
      TaskPends(spec, records, history, t) && h < nextSha && Reported(t, Success) in history
    case StatusPhase(t, _) =>
      && TaskPends(spec, records, history, t) && StatusOf(spec, records, SourceCommit(t)).Terminal()
      && SourceFinalized(t) in history && (Reported(t, Success) in history || Misfiled(t) in history)
    case StatePhase(h) =>
      && ValidKey(spec, StateCommit) && DependenciesCompleted(spec, records, StateCommit)
      && h < nextSha && StateAttempted in history
  }

  ghost predicate Consistent(spec: Spec, records: Records, results: Results, pending: Option<Pending>, history: History, nextSha: Sha) {
    && UniqueIds(spec)
    && Ordered(spec, records)
    && Safe(|spec.taskIds|, Commits(spec), history)
    && WorkTells(spec, records, results, history)
    && CommitTells(spec, records, history)
    && StatusTells(spec, records, results, history)
    && StateTells(spec, records, results, history)
    && DoneTells(spec, records, history)
    && pending == Outstanding(history)
    && (pending.Some? ==> PendingFits(spec, records, history, nextSha, pending.value))
  }

  ghost predicate MayFollow(spec: Spec, history: History, e: Event) {
    Allowed(|spec.taskIds|, Commits(spec), history, e)
  }

  /** Once a pending record's phase and the Done update have succeeded, the record may be cleared. */
  lemma ClearingMayFollow(spec: Spec, h: History, p: Pending)
    requires !p.StatePhase? && Outstanding(h) == Some(p)
    requires p.StatusPhase? ==> SourceFinalized(p.task) in h
    ensures var settled := if p.CommitPhase? then h + [SourceFinalized(p.task)] else h;
      MayFollow(spec, settled + [MarkedDone(p.task)], Cleared(p))
  {
    var settled := if p.CommitPhase? then h + [SourceFinalized(p.task)] else h;
    assert (h + [SourceFinalized(p.task)])[..|h|] == h;
    assert Outstanding(settled) == Some(p);
    assert p.CommitPhase? ==> SourceFinalized(p.task) in SinceRecorded(settled);
    var all := settled + [MarkedDone(p.task)];
    assert all[..|settled|] == settled;
    assert Outstanding(all) == Some(p) && SinceRecorded(all) == SinceRecorded(settled) + {MarkedDone(p.task)};
  }

  /** The work step's record says that the worker did not succeed. */
  predicate MarkedPartial(spec: Spec, results: Results, t: nat) {
    t < |spec.taskIds| && IdOf(spec, Work(t)) in results && results[IdOf(spec, Work(t))].partialMark
  }

  lemma WorkRecordTells(spec: Spec, records: Records, results: Results, history: History, t: nat)
    requires WorkTells(spec, records, results, history) && t < |spec.taskIds| && StatusOf(spec, records, Work(t)).Completed?
    ensures IdOf(spec, Work(t)) in results && results[IdOf(spec, Work(t))].outcome.SuccessOutcome?
    ensures MarkedPartial(spec, results, t) <==> Reported(t, Success) !in history
  {
  }

  /** Exactly when Done means that the worker reported success, for every task and whatever went wrong:
      if the task's work step is not recorded as partial. */
  lemma DoneIsEarnedIff(spec: Spec, records: Records, results: Results, pending: Option<Pending>, history: History, nextSha: Sha, t: nat)
    requires Consistent(spec, records, results, pending, history, nextSha) && t < |spec.taskIds| && MarkedDone(t) in history
    ensures Reported(t, Success) in history <==> !MarkedPartial(spec, results, t)
  {
    WorkRecordTells(spec, records, results, history, t);
  }

  /** While a task's finalization is pending its work step is completed, and its record tells the outcome. */
  lemma PendingTaskHasWorked(spec: Spec, records: Records, results: Results, pending: Option<Pending>, history: History, nextSha: Sha)
    requires Consistent(spec, records, results, pending, history, nextSha) && pending.Some? && !pending.value.StatePhase?
    ensures var t := pending.value.task;
      && t < |spec.taskIds| && StatusOf(spec, records, Work(t)).Completed?
      && (MarkedPartial(spec, results, t) <==> Reported(t, Success) !in history)
      && (pending.value.CommitPhase? ==> !MarkedPartial(spec, results, t))
  {
    WorkRecordTells(spec, records, results, history, pending.value.task);
  }

  /** A step of a task that is current may leave a pending record behind. */
  lemma CurrentMayPend(spec: Spec, records: Records, results: Results, history: History, t: nat, key: StepKey)
    requires Ordered(spec, records) && StateTells(spec, records, results, history) && Commits(spec)
    requires Current(spec, records, key) && (key == SourceCommit(t) || key == TaskStatus(t))
    ensures TaskPends(spec, records, history, t)
    ensures key.TaskStatus? ==> StatusOf(spec, records, SourceCommit(t)).Completed?
  {
    CurrentIsLast(spec, records, t, key);
    DependenciesByKey(spec, records, key);
    assert StateAttempted in history ==> DoneStatusStep(spec, records, results, t);
    if key.TaskStatus? {
      assert SourceCommit(t) in DependsOn(spec, key);
    }
  }

  /** What the retry of a pending record of a task needs. */
  predicate TaskRetrySucceeds(p: Pending, head: Sha, sourceDirty: bool, env: Env)
    requires !p.StatePhase?
  {
    && env.update.Fine? && env.note.Fine? && env.clear.Fine?
    && (p.CommitPhase? ==> CommitAccepted(p, head, sourceDirty, env))
  }

  /** The step record of the task status gets to see the end of the retry. */
  predicate Visible(p: Pending, env: Env) {
    env.statusSeen.Ended? && (p.CommitPhase? ==> !env.commitSeen.Unseen?)
  }

  /** A retry whose source commit is accepted and whose Done update then fails. */
  predicate CommitThenNoUpdate(p: Pending, head: Sha, sourceDirty: bool, env: Env)
    requires !p.StatePhase?
  {
    p.CommitPhase? && CommitAccepted(p, head, sourceDirty, env) && env.update.Fails? && env.commitSeen.Ended? && env.statusSeen.Ended?
  }

  predicate HalfRetried(spec: Spec, records: Records, exit: RetryExit, t: nat) {
    && exit.RetryFailed? && t < |spec.taskIds| && Commits(spec)
    && StatusOf(spec, records, SourceCommit(t)).Completed? && StatusOf(spec, records, TaskStatus(t)).Failed?
  }

  /** A retried source commit is accepted if there is something to commit or HEAD has moved. */
  predicate CommitAccepted(p: Pending, head: Sha, sourceDirty: bool, env: Env)
    requires p.CommitPhase?
  {
    CommitWorks(env) && (sourceDirty || head != p.headBefore)
  }

  /** Events that report progress leave everything else in place. */
  lemma NoteKeeps(spec: Spec, records: Records, results: Results, pending: Option<Pending>, history: History, nextSha: Sha, e: Event)
    requires Consistent(spec, records, results, pending, history, nextSha) && MayFollow(spec, history, e)
    requires e.SourceFinalized? || e.MarkedDone? || e.Misfiled? || e.StateLanded? || (e.Reported? && !e.report.Success?)
    requires e.MarkedDone? ==> WorkCompleted(spec, records, e.task)
    ensures Consistent(spec, records, results, pending, history + [e], nextSha)
  {
    SafeSnoc(|spec.taskIds|, Commits(spec), history, e);
    assert forall t :: Reported(t, Success) in history + [e] <==> Reported(t, Success) in history;
    assert WorkTells(spec, records, results, history + [e]);
  }

  lemma RecordKeeps(spec: Spec, records: Records, results: Results, history: History, nextSha: Sha, p: Pending)
    requires Consistent(spec, records, results, None, history, nextSha)
    requires PendingFits(spec, records, history, nextSha, p)
    ensures Consistent(spec, records, results, Some(p), history + [Recorded(p)], nextSha)
  {
    SafeSnoc(|spec.taskIds|, Commits(spec), history, Recorded(p));
    assert WorkTells(spec, records, results, history + [Recorded(p)]);
  }

  lemma ClearKeeps(spec: Spec, records: Records, results: Results, history: History, nextSha: Sha, p: Pending)
    requires Consistent(spec, records, results, Some(p), history, nextSha) && MayFollow(spec, history, Cleared(p))
    ensures Consistent(spec, records, results, None, history + [Cleared(p)], nextSha)
  {
    SafeSnoc(|spec.taskIds|, Commits(spec), history, Cleared(p));
    assert WorkTells(spec, records, results, history + [Cleared(p)]);
  }

  /** May a step that ends with `result` be recorded as completed, given what has happened? */
  ghost predicate Backed(spec: Spec, key: StepKey, result: StepResult, history: History) {
    && result.outcome.SuccessOutcome?
    && match key
       case Work(t) => result.partialMark <==> Reported(t, Success) !in history
       case SourceCommit(t) => SourceFinalized(t) in history
       case TaskStatus(t) => !result.partialMark ==> MarkedDone(t) in history
       case StateCommit => true
  }

  /** The new persisted step state after `key` got `status` and, if given, a new result. */
  function NewResults(spec: Spec, results: Results, key: StepKey, result: Option<StepResult>): Results
    requires ValidKey(spec, key)
  {
    if result.Some? then results[IdOf(spec, key) := result.value] else results
  }

  lemma OtherStepsKeep(spec: Spec, records: Records, results: Results, key: StepKey, status: StepStatus, result: Option<StepResult>)
    requires UniqueIds(spec) && ValidKey(spec, key)
    ensures var records', results' := records[IdOf(spec, key) := status], NewResults(spec, results, key, result);
            && (forall other | ValidKey(spec, other) && other != key :: StatusOf(spec, records', other) == StatusOf(spec, records, other))
            && (forall other, partial | ValidKey(spec, other) && other != key ::
                  CompletedWith(spec, records', results', other, partial) <==> CompletedWith(spec, records, results, other, partial))
  {
    var records', results' := records[IdOf(spec, key) := status], NewResults(spec, results, key, result);
    forall other | ValidKey(spec, other) && other != key
      ensures StatusOf(spec, records', other) == StatusOf(spec, records, other)
    {
      assert IdOf(spec, other) != IdOf(spec, key);
    }
    forall other, partial | ValidKey(spec, other) && other != key
      ensures CompletedWith(spec, records', results', other, partial) <==> CompletedWith(spec, records, results, other, partial)
    {
      assert IdOf(spec, other) != IdOf(spec, key);
    }
  }

  lemma StepUpdateTells(spec: Spec, records: Records, results: Results, history: History,
                        key: StepKey, status: StepStatus, result: Option<StepResult>)
    requires UniqueIds(spec) && ValidKey(spec, key)
    requires !StatusOf(spec, records, key).Completed? || key.SourceCommit? || key.StateCommit? || (key.TaskStatus? && StateAttempted !in history)
    requires CommitTells(spec, records, history) && StatusTells(spec, records, results, history) && StateTells(spec, records, results, history)
    requires DoneTells(spec, records, history)
    requires status.Completed? ==> result.Some? && Backed(spec, key, result.value, history)
    ensures var records', results' := records[IdOf(spec, key) := status], NewResults(spec, results, key, result);
            && CommitTells(spec, records', history) && StatusTells(spec, records', results', history)
            && StateTells(spec, records', results', history) && DoneTells(spec, records', history)
  {
    OtherStepsKeep(spec, records, results, key, status, result);
    var records', results' := records[IdOf(spec, key) := status], NewResults(spec, results, key, result);
    forall t | 0 <= t < |spec.taskIds| && StateAttempted in history ensures DoneStatusStep(spec, records', results', t) {
      assert DoneStatusStep(spec, records, results, t);
    }
    forall t | 0 <= t < |spec.taskIds| && DoneStatusStep(spec, records', results', t) ensures MarkedDone(t) in history {
      assert key != TaskStatus(t) ==> DoneStatusStep(spec, records, results, t);
    }
  }

  lemma StepUpdateKeepsWork(spec: Spec, records: Records, results: Results, history: History,
                            key: StepKey, status: StepStatus, result: Option<StepResult>)
    requires UniqueIds(spec) && ValidKey(spec, key) && !key.Work?
    requires WorkTells(spec, records, results, history)
    ensures WorkTells(spec, records[IdOf(spec, key) := status], NewResults(spec, results, key, result), history)
  {
    OtherStepsKeep(spec, records, results, key, status, result);
    var records', results' := records[IdOf(spec, key) := status], NewResults(spec, results, key, result);
    forall t | 0 <= t < |spec.taskIds| && StatusOf(spec, records', Work(t)).Completed?
      ensures exists partial :: CompletedWith(spec, records', results', Work(t), partial) && (partial <==> Reported(t, Success) !in history)
    {
      var partial :| CompletedWith(spec, records, results, Work(t), partial) && (partial <==> Reported(t, Success) !in history);
      assert CompletedWith(spec, records', results', Work(t), partial);
    }
  }

  /** Recording a finalizer step keeps the run consistent. */
  lemma FinalizerUpdateKeeps(spec: Spec, records: Records, results: Results, pending: Option<Pending>, history: History, nextSha: Sha,
                             key: StepKey, status: StepStatus, result: Option<StepResult>)
    requires Consistent(spec, records, results, pending, history, nextSha) && Current(spec, records, key) && !key.Work?
    requires status.Completed? ==> pending.None? && result.Some? && Backed(spec, key, result.value, history)
    requires pending.Some? ==> key == PhaseKey(pending.value)
    ensures Consistent(spec, records[IdOf(spec, key) := status], NewResults(spec, results, key, result), pending, history, nextSha)
  {
    UpdateKeepsOrdered(spec, records, key, status);
    StepUpdateTells(spec, records, results, history, key, status, result);
    StepUpdateKeepsWork(spec, records, results, history, key, status, result);
    if pending.Some? {
      PendingStillFits(spec, records, history, nextSha, key, status, pending.value);
    }
  }

  /** The finalizer steps of the pending phase may change under the pending record. */
  predicate BelongsTo(key: StepKey, p: Pending) {
    if p.StatePhase? then key.StateCommit? else key == SourceCommit(p.task) || key == TaskStatus(p.task)
  }

  lemma PendingStillFits(spec: Spec, records: Records, history: History, nextSha: Sha, key: StepKey, status: StepStatus, p: Pending)
    requires UniqueIds(spec) && ValidKey(spec, key) && BelongsTo(key, p) && PendingFits(spec, records, history, nextSha, p)
    requires p.StatusPhase? && key.SourceCommit? ==> status.Terminal()
    ensures PendingFits(spec, records[IdOf(spec, key) := status], history, nextSha, p)
  {
    OthersStay(spec, records, key, status);
    if p.StatePhase? {
      DependenciesByKey(spec, records, key);
      DependenciesByKey(spec, records[IdOf(spec, key) := status], key);
      DependenciesRankLower(spec, key);
    }
  }

  /** May a retry give this step a status again, whatever it had? */
  ghost predicate MayRetry(spec: Spec, records: Records, p: Pending, key: StepKey) {
    && ValidKey(spec, key) && BelongsTo(key, p)
    && (key.TaskStatus? ==> Commits(spec) && StatusOf(spec, records, SourceCommit(key.task)).Terminal())
  }

  lemma RetryKeepsOrdered(spec: Spec, records: Records, history: History, nextSha: Sha, p: Pending, key: StepKey, status: StepStatus)
    requires UniqueIds(spec) && Ordered(spec, records) && PendingFits(spec, records, history, nextSha, p)
    requires (p.StatePhase? || ValidKey(spec, SourceCommit(p.task))) && MayRetry(spec, records, p, key) && status.Terminal()
    ensures Ordered(spec, records[IdOf(spec, key) := status])
  {
    match key
    case SourceCommit(t) => RetriedCommitKeepsOrdered(spec, records, t, status);
    case TaskStatus(t) => RetriedStatusKeepsOrdered(spec, records, t, status);
    case StateCommit => RetriedStateKeepsOrdered(spec, records, status);
  }

  /** What a retry writes to the steps of its pending record keeps the run consistent. */
  lemma RetryUpdateKeeps(spec: Spec, records: Records, results: Results, history: History, nextSha: Sha, p: Pending,
                         key: StepKey, status: StepStatus, result: Option<StepResult>)
    requires Consistent(spec, records, results, Some(p), history, nextSha)
    requires MayRetry(spec, records, p, key) && status.Terminal()
    requires status.Completed? ==> result.Some? && Backed(spec, key, result.value, history)
    ensures Consistent(spec, records[IdOf(spec, key) := status], NewResults(spec, results, key, result), Some(p), history, nextSha)
  {
    RetryKeepsOrdered(spec, records, history, nextSha, p, key, status);
    StepUpdateTells(spec, records, results, history, key, status, result);
    StepUpdateKeepsWork(spec, records, results, history, key, status, result);
    PendingStillFits(spec, records, history, nextSha, key, status, p);
  }

  /** What a work step's record and its report add to the history. */
  function Told(history: History, t: nat, done: bool): History {
    history + (if done then [Reported(t, Success)] else [])
  }

  lemma ToldIsSafe(spec: Spec, history: History, t: nat, done: bool)
    requires Safe(|spec.taskIds|, Commits(spec), history)
    ensures Safe(|spec.taskIds|, Commits(spec), Told(history, t, done)) && Outstanding(Told(history, t, done)) == Outstanding(history)
    ensures forall e :: e in Told(history, t, done) <==> e in history || (done && e == Reported(t, Success))
  {
    if done {
      SafeSnoc(|spec.taskIds|, Commits(spec), history, Reported(t, Success));
    } else {
      assert Told(history, t, done) == history;
    }
  }

  lemma WorkUpdateTells(spec: Spec, records: Records, results: Results, history: History, history': History,
                        t: nat, status: StepStatus, result: Option<StepResult>, done: bool)
    requires UniqueIds(spec) && Current(spec, records, Work(t)) && WorkTells(spec, records, results, history)
    requires status.Completed? ==> result.Some? && result.value.outcome.SuccessOutcome?
    requires done <==> status.Completed? && !result.value.partialMark
    requires forall e :: e in history' <==> e in history || (done && e == Reported(t, Success))
    ensures WorkTells(spec, records[IdOf(spec, Work(t)) := status], NewResults(spec, results, Work(t), result), history')
  {
    var key := Work(t);
    var records', results' := records[IdOf(spec, key) := status], NewResults(spec, results, key, result);
    OtherStepsKeep(spec, records, results, key, status, result);
    assert Reported(t, Success) !in history;
    forall u | 0 <= u < |spec.taskIds| && StatusOf(spec, records', Work(u)).Completed?
      ensures exists partial :: CompletedWith(spec, records', results', Work(u), partial) && (partial <==> Reported(u, Success) !in history')
    {
      if u == t {
        assert CompletedWith(spec, records', results', Work(t), !done);
      } else {
        var partial :| CompletedWith(spec, records, results, Work(u), partial) && (partial <==> Reported(u, Success) !in history);
        assert CompletedWith(spec, records', results', Work(u), partial);
      }
    }
  }

  /** Recording a work step, and with it the worker's report, keeps the run consistent. */
  lemma WorkUpdateKeeps(spec: Spec, records: Records, results: Results, history: History, nextSha: Sha,
                        t: nat, status: StepStatus, result: Option<StepResult>)
    requires Consistent(spec, records, results, None, history, nextSha) && Current(spec, records, Work(t))
    requires status.Completed? ==> result.Some? && result.value.outcome.SuccessOutcome?
    ensures var done := status.Completed? && !result.value.partialMark;
            Consistent(spec, records[IdOf(spec, Work(t)) := status], NewResults(spec, results, Work(t), result), None,
                       Told(history, t, done), nextSha)
  {
    var done := status.Completed? && !result.value.partialMark;
    var history' := Told(history, t, done);
    ToldIsSafe(spec, history, t, done);
    UpdateKeepsOrdered(spec, records, Work(t), status);
    StepUpdateTells(spec, records, results, history', Work(t), status, result);
    WorkUpdateTells(spec, records, results, history, history', t, status, result, done);
  }

  // ----- runs in which nothing goes wrong -----

  /** Nothing has gone wrong with the task: its completed work was not partial, and once its status is
      settled it is Done, in a task file that has yet to be committed or is. */
  ghost predicate SmoothTask(spec: Spec, records: Records, results: Results, history: History,
                             status: map<nat, TaskState>, dirty: set<nat>, t: nat)
    requires t < |spec.taskIds|
  {
    && (StatusOf(spec, records, Work(t)).Completed? ==> !MarkedPartial(spec, results, t))
    && (StatusOf(spec, records, TaskStatus(t)).Completed? ==>
          && DoneStatusStep(spec, records, results, t)
          && t in status && status[t].DoneState? && (t in dirty || StateLanded in history))
  }

  /** Nothing has gone wrong with the run: a step that has ended is completed. */
  ghost predicate Smooth(spec: Spec, records: Records, results: Results, history: History,
                         status: map<nat, TaskState>, dirty: set<nat>)
  {
    && (forall key | ValidKey(spec, key) && StatusOf(spec, records, key).Terminal() :: StatusOf(spec, records, key).Completed?)
    && (forall t | 0 <= t < |spec.taskIds| :: SmoothTask(spec, records, results, history, status, dirty, t))
    && (ValidKey(spec, StateCommit) && StatusOf(spec, records, StateCommit).Completed? && |spec.taskIds| > 0 ==>
          StateLanded in history)
  }

  /** What the step that has ended last has to have seen to. */
  ghost predicate SeesTo(spec: Spec, key: StepKey, result: StepResult, history: History,
                         status: map<nat, TaskState>, dirty: set<nat>)
  {
    && result.outcome.SuccessOutcome? && !result.partialMark
    && (key.TaskStatus? ==> key.task in status && status[key.task].DoneState? && key.task in dirty)
    && (key.StateCommit? && |spec.taskIds| > 0 ==> StateLanded in history)
  }

  /** What was settled before stays so. */
  ghost predicate StaysSettled(spec: Spec, records: Records, history: History, status: map<nat, TaskState>, dirty: set<nat>) {
    forall t | 0 <= t < |spec.taskIds| && StatusOf(spec, records, TaskStatus(t)).Completed? ::
      t in status && status[t].DoneState? && (t in dirty || StateLanded in history)
  }

  lemma SmoothUpdate(spec: Spec, records: Records, results: Results, history: History, status: map<nat, TaskState>, dirty: set<nat>,
                     key: StepKey, result: StepResult, history': History, status': map<nat, TaskState>, dirty': set<nat>)
    requires UniqueIds(spec) && ValidKey(spec, key) && Smooth(spec, records, results, history, status, dirty)
    requires SeesTo(spec, key, result, history', status', dirty') && StaysSettled(spec, records, history', status', dirty')
    requires StateLanded in history ==> StateLanded in history'
    ensures Smooth(spec, records[IdOf(spec, key) := Completed], results[IdOf(spec, key) := result], history', status', dirty')
  {
    var records', results' := records[IdOf(spec, key) := Completed], results[IdOf(spec, key) := result];
    OtherStepsKeep(spec, records, results, key, Completed, Some(result));
    forall t | 0 <= t < |spec.taskIds| ensures SmoothTask(spec, records', results', history', status', dirty', t) {
      assert SmoothTask(spec, records, results, history, status, dirty, t);
      assert key != Work(t) ==> IdOf(spec, Work(t)) != IdOf(spec, key);
      assert key == TaskStatus(t) ==> DoneStatusStep(spec, records', results', t);
    }
  }

  /** What a finalizer needs in order to succeed when nothing fails. */
  ghost predicate MaySucceed(spec: Spec, records: Records, results: Results, history: History, dirty: set<nat>, key: StepKey) {
    && (key.TaskStatus? ==> !MarkedPartial(spec, results, key.task))
    && (key.StateCommit? && |spec.taskIds| > 0 ==>
          && (forall t | 0 <= t < |spec.taskIds| :: DoneStatusStep(spec, records, results, t))
          && (StateLanded in history || exists t | t in dirty :: t < |spec.taskIds|))
  }

  lemma SmoothIsReady(spec: Spec, records: Records, results: Results, history: History, status: map<nat, TaskState>, dirty: set<nat>,
                      key: StepKey)
    requires Ordered(spec, records) && Smooth(spec, records, results, history, status, dirty)
    requires Runnable(spec, records, key) && !key.Work?
    ensures MaySucceed(spec, records, results, history, dirty, key)
  {
    DependenciesByKey(spec, records, key);
    match key
    case SourceCommit(_) =>
    case TaskStatus(t) =>
      OrderedIsLinear(spec, records, Work(t), key);
      assert SmoothTask(spec, records, results, history, status, dirty, t);
    case StateCommit =>
      forall t | 0 <= t < |spec.taskIds|
        ensures DoneStatusStep(spec, records, results, t) && (t in dirty || StateLanded in history)
      {
        assert DependsOn(spec, key)[t] == TaskStatus(t);
        assert SmoothTask(spec, records, results, history, status, dirty, t);
      }
      if |spec.taskIds| > 0 && StateLanded !in history {
        assert SmoothTask(spec, records, results, history, status, dirty, 0);
        assert 0 in dirty;
      }
  }

  /** Being recorded as running changes nothing of that. */
  lemma RunningIsReady(spec: Spec, records: Records, results: Results, history: History, dirty: set<nat>, key: StepKey)
    requires UniqueIds(spec) && ValidKey(spec, key) && MaySucceed(spec, records, results, history, dirty, key)
    ensures MaySucceed(spec, records[IdOf(spec, key) := Running], results, history, dirty, key)
  {
    OtherStepsKeep(spec, records, results, key, Running, None);
    var running := records[IdOf(spec, key) := Running];
    if key.StateCommit? && |spec.taskIds| > 0 {
      forall t | 0 <= t < |spec.taskIds| ensures DoneStatusStep(spec, running, results, t) {
        assert DoneStatusStep(spec, records, results, t);
      }
    }
  }

  lemma SmoothIsSettled(spec: Spec, records: Records, results: Results, history: History, status: map<nat, TaskState>, dirty: set<nat>)
    requires Smooth(spec, records, results, history, status, dirty)
    ensures StaysSettled(spec, records, history, status, dirty)
  {
    forall t | 0 <= t < |spec.taskIds| && StatusOf(spec, records, TaskStatus(t)).Completed?
      ensures t in status && status[t].DoneState? && (t in dirty || StateLanded in history)
    {
      assert SmoothTask(spec, records, results, history, status, dirty, t);
    }
  }

  /** No task file is set back, and none is forgotten before it is committed. */
  ghost predicate NothingLost(history: History, status: map<nat, TaskState>, dirty: set<nat>,
                              history': History, status': map<nat, TaskState>, dirty': set<nat>)
  {
    && (StateLanded in history ==> StateLanded in history')
    && (forall t | t in dirty :: t in dirty' || StateLanded in history')
    && (forall t | t in status && status[t].DoneState? :: t in status' && status'[t].DoneState?)
  }

  lemma SettledAfter(spec: Spec, records: Records, history: History, status: map<nat, TaskState>, dirty: set<nat>,
                     history': History, status': map<nat, TaskState>, dirty': set<nat>)
    requires StaysSettled(spec, records, history, status, dirty) && NothingLost(history, status, dirty, history', status', dirty')
    ensures StaysSettled(spec, records, history', status', dirty')
  {
  }

  /** A worker that succeeds keeps the run smooth: it touches no task whose status is settled. */
  lemma SmoothWork(spec: Spec, records: Records, results: Results, history: History, status: map<nat, TaskState>, dirty: set<nat>, t: nat)
    requires UniqueIds(spec) && Ordered(spec, records) && Runnable(spec, records, Work(t))
    requires Smooth(spec, records, results, history, status, dirty)
    ensures var id := IdOf(spec, Work(t));
      Smooth(spec, records[id := Running][id := Completed], results[id := SUCCESS], history + [Reported(t, Success)],
             status[t := InProgress], dirty + {t})
  {
    var id := IdOf(spec, Work(t));
    assert records[id := Running][id := Completed] == records[id := Completed];
    SmoothIsSettled(spec, records, results, history, status, dirty);
    if StatusOf(spec, records, TaskStatus(t)).Completed? {
      OrderedIsLinear(spec, records, Work(t), TaskStatus(t));
    }
    SmoothUpdate(spec, records, results, history, status, dirty, Work(t), SUCCESS,
                 history + [Reported(t, Success)], status[t := InProgress], dirty + {t});
  }

  lemma SmoothMayRun(spec: Spec, records: Records, results: Results, history: History, status: map<nat, TaskState>, dirty: set<nat>,
                     key: StepKey)
    requires UniqueIds(spec) && Ordered(spec, records) && Smooth(spec, records, results, history, status, dirty)
    requires Runnable(spec, records, key) && !key.Work?
    ensures MaySucceed(spec, records[IdOf(spec, key) := Running], results, history, dirty, key)
  {
    SmoothIsReady(spec, records, results, history, status, dirty, key);
    RunningIsReady(spec, records, results, history, dirty, key);
  }

  /** So does a finalizer that has seen to what it is for. */
  lemma SmoothFinalizer(spec: Spec, records: Records, results: Results, history: History, status: map<nat, TaskState>, dirty: set<nat>,
                        key: StepKey, result: StepResult, history': History, status': map<nat, TaskState>, dirty': set<nat>)
    requires UniqueIds(spec) && Runnable(spec, records, key) && Smooth(spec, records, results, history, status, dirty)
    requires SeesTo(spec, key, result, history', status', dirty') && NothingLost(history, status, dirty, history', status', dirty')
    ensures var id := IdOf(spec, key);
      Smooth(spec, records[id := Running][id := Completed], results[id := result], history', status', dirty')
  {
    var id := IdOf(spec, key);
    assert records[id := Running][id := Completed] == records[id := Completed];
    SmoothIsSettled(spec, records, results, history, status, dirty);
    SettledAfter(spec, records, history, status, dirty, history', status', dirty');
    SmoothUpdate(spec, records, results, history, status, dirty, key, result, history', status', dirty');
  }

  /** If every ended step is completed and none can run, all are completed. */
  lemma {:induction false} StuckIsComplete(spec: Spec, records: Records, key: StepKey)
    requires ValidKey(spec, key) && forall other :: !Runnable(spec, records, other)
    requires forall other | ValidKey(spec, other) && StatusOf(spec, records, other).Terminal() :: StatusOf(spec, records, other).Completed?
    ensures StatusOf(spec, records, key).Completed?
    decreases Rank(spec, key)
  {
    DependenciesRankLower(spec, key);
    forall d | d in DependsOn(spec, key) ensures StatusOf(spec, records, d).Completed? {
      StuckIsComplete(spec, records, d);
    }
    DependenciesByKey(spec, records, key);
    assert !Runnable(spec, records, key);
  }

  /** So a smooth run that has nothing left to run has done all that was asked of it. */
  lemma SmoothEnd(spec: Spec, records: Records, results: Results, pending: Option<Pending>, history: History, nextSha: Sha,
                  status: map<nat, TaskState>, dirty: set<nat>)
    requires Consistent(spec, records, results, pending, history, nextSha) && Smooth(spec, records, results, history, status, dirty)
    requires forall key :: !Runnable(spec, records, key)
    ensures forall key | ValidKey(spec, key) :: StatusOf(spec, records, key).Completed?
    ensures forall t | 0 <= t < |spec.taskIds| ::
      && Reported(t, Success) in history && MarkedDone(t) in history && (Commits(spec) ==> SourceFinalized(t) in history)
      && t in status && status[t].DoneState?
    ensures ValidKey(spec, StateCommit) && |spec.taskIds| > 0 ==> StateLanded in history
  {
    forall key | ValidKey(spec, key) ensures StatusOf(spec, records, key).Completed? {
      StuckIsComplete(spec, records, key);
    }
    forall t | 0 <= t < |spec.taskIds|
      ensures Reported(t, Success) in history && MarkedDone(t) in history && (Commits(spec) ==> SourceFinalized(t) in history)
      ensures t in status && status[t].DoneState?
    {
      assert SmoothTask(spec, records, results, history, status, dirty, t);
      WorkRecordTells(spec, records, results, history, t);
      assert Commits(spec) ==> StatusOf(spec, records, SourceCommit(t)).Completed?;
    }
  }

  lemma NoneIsRunnable(spec: Spec, records: Records)
    requires forall key | key in AllKeys(spec) :: !Runnable(spec, records, key)
    ensures forall key :: !Runnable(spec, records, key)
  {
    CompiledKeys(spec);
  }

  /** No step meets a fault, and every worker succeeds. */
  ghost predicate AllFaultless(spec: Spec, envs: StepKey -> Env) {
    forall key | ValidKey(spec, key) :: Faultless(envs(key))
  }

  function OpenKeys(spec: Spec, records: Records): set<StepKey> {
    set key | key in AllKeys(spec) && !StatusOf(spec, records, key).Terminal()
  }

  lemma OpenKeysShrink(spec: Spec, before: Records, after: Records, key: StepKey)
    requires ValidKey(spec, key) && !StatusOf(spec, before, key).Terminal() && StatusOf(spec, after, key).Terminal()
    requires forall other | ValidKey(spec, other) && other != key :: StatusOf(spec, after, other) == StatusOf(spec, before, other)
    ensures OpenKeys(spec, after) < OpenKeys(spec, before)
  {
    CompiledKeys(spec);
    assert key in OpenKeys(spec, before) && key !in OpenKeys(spec, after);
    forall k | k in OpenKeys(spec, after) ensures k in OpenKeys(spec, before) {
      assert k != key;
    }
  }

  class DriveRun {
    const spec: Spec
    // git
    var head: Sha
    var nextSha: Sha
    var sourceDirty: bool
    var dirtyTasks: set<nat>
    // task files
    var status: map<nat, TaskState>
    // run directory
    var pending: Option<Pending>
    var records: Records
    var results: map<string, StepResult>
    var logged: set<nat>  // tasks with a task_done or task_blocked line in events.jsonl
    var completion: bool   // run.completion.json exists
    ghost var history: History

    ghost predicate Valid()
      reads this
    {
      head < nextSha && Consistent(spec, records, results, pending, history, nextSha)
    }

    /** A run directory at the start of a batch, in a repository with some HEAD. */
    constructor (spec: Spec, head: Sha)
      requires UniqueIds(spec)
      ensures Valid() && this.spec == spec && this.head == head && history == [] && pending.None?
      ensures records == map[] && logged == {} && status == map[] && dirtyTasks == {} && results == map[]
      ensures !sourceDirty && !completion
    {
      this.spec, this.head, this.nextSha := spec, head, head + 1;
      sourceDirty, dirtyTasks, status := false, {}, map[];
      pending, records, results, logged, completion := None, map[], map[], {}, false;
      history := [];
    }

    ghost predicate SmoothNow()
      reads this
    {
      Smooth(spec, records, results, history, status, dirtyTasks)
    }

    ghost method Note(e: Event)
      requires Valid() && MayFollow(spec, history, e)
      requires e.SourceFinalized? || e.MarkedDone? || e.Misfiled? || e.StateLanded? || (e.Reported? && !e.report.Success?)
      requires e.MarkedDone? ==> WorkCompleted(spec, records, e.task)
      modifies `history
      ensures Valid() && history == old(history) + [e]
    {
      NoteKeeps(spec, records, results, pending, history, nextSha, e);
      history := history + [e];
    }

    // ----- single effects -----

    method UpdateTask(t: nat, state: TaskState, luck: Luck)
      requires Valid() && (state.DoneState? ==> MayFollow(spec, history, MarkedDone(t)) && WorkCompleted(spec, records, t))
      modifies `status, `dirtyTasks, `history
      ensures Valid()
      ensures luck.Fine? ==> status == old(status)[t := state] && dirtyTasks == old(dirtyTasks) + {t}
      ensures luck.Fine? ==> history == old(history) + (if state.DoneState? then [MarkedDone(t)] else [])
      ensures !luck.Fine? ==> unchanged(this)
    {
      if luck.Fine? {
        status := status[t := state];
        dirtyTasks := dirtyTasks + {t};
        if state.DoneState? {
          Note(MarkedDone(t));
        }
      }
    }

    /** `writePendingFinalization` is atomic: the whole record or nothing. */
    method WritePending(p: Pending, luck: Luck)
      requires Valid() && pending.None? && PendingFits(spec, records, history, nextSha, p)
      modifies `pending, `history
      ensures Valid()
      ensures luck.Fine? ==> pending == Some(p) && history == old(history) + [Recorded(p)]
      ensures !luck.Fine? ==> unchanged(this)
    {
      if luck.Fine? {
        RecordKeeps(spec, records, results, history, nextSha, p);
        pending := Some(p);
        history := history + [Recorded(p)];
      }
    }

    method ClearPending(luck: Luck)
      requires Valid() && pending.Some? && MayFollow(spec, history, Cleared(pending.value))
      modifies `pending, `history
      ensures Valid()
      ensures luck.Fine? ==> pending.None? && history == old(history) + [Cleared(old(pending).value)]
      ensures !luck.Fine? ==> unchanged(this)
    {
      if luck.Fine? {
        ClearKeeps(spec, records, results, history, nextSha, pending.value);
        history := history + [Cleared(pending.value)];
        pending := None;
      }
    }

    /** A commit of everything the pathspec covers, under the repository lock. */
    method GitCommitSources(t: nat)
      requires Valid()
      modifies `head, `nextSha, `sourceDirty, `history
      ensures Valid() && head == old(nextSha) && nextSha == head + 1 && !sourceDirty
      ensures history == old(history) + [SourceFinalized(t)]
    {
      head, nextSha, sourceDirty := nextSha, nextSha + 1, false;
      Note(SourceFinalized(t));
    }

    // ----- source commit -----

    method FinalizeSourceCommit(t: nat, report: Report, env: Env) returns (exit: CommitExit)
      requires Valid() && pending.None? && ValidKey(spec, TaskStatus(t))
      requires Commits(spec) ==> Current(spec, records, SourceCommit(t))
      requires report.Success? ==> Reported(t, Success) in history
      modifies `head, `nextSha, `sourceDirty, `status, `dirtyTasks, `pending, `history, `logged
      ensures Valid()
      ensures Commits(spec) && (exit.Skipped? || exit.CommittedAs?) ==> SourceFinalized(t) in history
      ensures exit.NotApplicable? <==> !Commits(spec) || report.Failure?
      ensures exit.CommittedAs? ==> exit.sha == head != old(head) && head == old(nextSha) && !sourceDirty
      ensures exit.CommitFailed? ==> pending == Some(CommitPhase(t, old(head)))
      ensures pending.Some? ==> pending == Some(CommitPhase(t, old(head))) && report.Success?
      ensures exit.NotApplicable? || exit.Skipped? || exit.CommitBlocked? || exit.CommittedAs? ==> pending.None?
      ensures history == old(history) + (if pending.Some? then [Recorded(pending.value)]
                                         else if env.git.Works? && !exit.NotApplicable? then [SourceFinalized(t)] else [])
      ensures !exit.NotApplicable? && env.git.Works? && env.emit.Fine? ==>
                (exit.Skipped? || exit.CommittedAs?) && history == old(history) + [SourceFinalized(t)]
      ensures env.git.Works? ==> status == old(status) && dirtyTasks == old(dirtyTasks)
      ensures env.git.Works? && env.emit.Fine? && !exit.NotApplicable? ==>
                (exit.CommittedAs? <==> old(sourceDirty)) && !sourceDirty && head == if old(sourceDirty) then old(nextSha) else old(head)
      ensures exit.CommitBlocked? ==> t in logged && status == old(status)[t := BlockedState]
      ensures exit.CommitFailed? ==> status == old(status)[t := InProgress]
      ensures exit.CommitDied? ==> Deadly(env)
      ensures !exit.NotApplicable? && env.git.GitFails? && report.Success? && env.record.Fine? && env.note.Fine? && env.emit.Fine? ==>
                exit.CommitFailed? && head == old(head) && sourceDirty == old(sourceDirty)
    {
      if !spec.commitPolicy.DriverCommits? || report.Failure? {
        return NotApplicable;
      }
      if env.git.GitDies? {
        return CommitDied;
      }
      if !env.git.Works? {
        exit := SourceCommitFails(t, report, env);
        return;
      }
      exit := CommitSources(t, env);
    }

    /** Git works: what is dirty is committed, and then the event is written. */
    method CommitSources(t: nat, env: Env) returns (exit: CommitExit)
      requires Valid()
      modifies `head, `nextSha, `sourceDirty, `history
      ensures Valid() && history == old(history) + [SourceFinalized(t)] && !sourceDirty
      ensures exit == if env.emit.Dies? then CommitDied else if env.emit.Fails? then CommitThrew
                      else if old(sourceDirty) then CommittedAs(head) else Skipped
      ensures head == if old(sourceDirty) then old(nextSha) else old(head)
    {
      if sourceDirty {
        GitCommitSources(t);
        if env.emit.Dies? { return CommitDied; }
        if env.emit.Fails? { return CommitThrew; }
        return CommittedAs(head);
      }
      Note(SourceFinalized(t));
      if env.emit.Dies? { return CommitDied; }
      if env.emit.Fails? { return CommitThrew; }
      return Skipped;
    }

    /** The commit command reports an error. */
    method SourceCommitFails(t: nat, report: Report, env: Env) returns (exit: CommitExit)
      requires Valid() && pending.None? && Commits(spec) && Current(spec, records, SourceCommit(t)) && !report.Failure?
      requires report.Success? ==> Reported(t, Success) in history
      requires env.git.GitFails? || env.git.FailsAfterCommit?
      modifies `head, `nextSha, `sourceDirty, `status, `dirtyTasks, `pending, `history, `logged
      ensures Valid()
      ensures exit.CommitBlocked? || exit.CommitFailed? || exit.CommitThrew? || exit.CommitDied?
      ensures pending == if report.Success? && env.record.Fine? then Some(CommitPhase(t, old(head))) else None
      ensures exit.CommitFailed? <==> report.Success? && env.record.Fine? && env.note.Fine? && env.emit.Fine?
      ensures exit.CommitBlocked? ==> pending.None? && t in logged
      // the task file says what has become of the task
      ensures exit.CommitBlocked? ==> dirtyTasks == old(dirtyTasks) + {t} && status == old(status)[t := BlockedState]
      ensures exit.CommitFailed? ==> dirtyTasks == old(dirtyTasks) + {t} && status == old(status)[t := InProgress]
      ensures history == old(history) + (if pending.Some? then [Recorded(pending.value)] else [])
      ensures env.git.GitFails? ==> head == old(head) && sourceDirty == old(sourceDirty)
      ensures exit.CommitDied? ==> Deadly(env)
    {
      var headBefore := head;
      if env.git.FailsAfterCommit? && sourceDirty {
        // the command reports an error although HEAD has moved
        head, nextSha, sourceDirty := nextSha, nextSha + 1, false;
      }
      if report.Success? {
        CurrentMayPend(spec, records, results, history, t, SourceCommit(t));
        exit := RecordCommitFinalizationFailure(t, headBefore, env);
        return;
      }
      UpdateTask(t, BlockedState, env.note);
      if env.note.Dies? || (env.note.Fine? && env.emit.Dies?) { return CommitDied; }
      if env.note.Fails? || env.emit.Fails? { return CommitThrew; }
      logged := logged + {t};
      return CommitBlocked;
    }

    method RecordCommitFinalizationFailure(t: nat, headBefore: Sha, env: Env) returns (exit: CommitExit)
      requires Valid() && pending.None? && PendingFits(spec, records, history, nextSha, CommitPhase(t, headBefore))
      modifies `pending, `status, `dirtyTasks, `history
      ensures Valid()
      ensures exit.CommitFailed? || exit.CommitThrew? || exit.CommitDied?
      ensures exit.CommitFailed? <==> env.record.Fine? && env.note.Fine? && env.emit.Fine?
      ensures pending == if env.record.Fine? then Some(CommitPhase(t, headBefore)) else None
      ensures history == old(history) + (if env.record.Fine? then [Recorded(CommitPhase(t, headBefore))] else [])
      ensures exit.CommitFailed? ==> dirtyTasks == old(dirtyTasks) + {t} && status == old(status)[t := InProgress]
      ensures exit.CommitDied? ==> Deadly(env)
    {
      WritePending(CommitPhase(t, headBefore), env.record);
      if env.record.Dies? { return CommitDied; }
      if env.record.Fails? { return CommitThrew; }
      UpdateTask(t, InProgress, env.note);
      if env.note.Dies? || (env.note.Fine? && env.emit.Dies?) { return CommitDied; }
      if env.note.Fails? || env.emit.Fails? { return CommitThrew; }
      return CommitFailed;
    }

    // ----- task status -----

    method TransitionTaskStatus(t: nat, report: Report, sha: Option<Sha>, env: Env) returns (exit: StatusExit)
      requires Valid() && pending.None? && Current(spec, records, TaskStatus(t))
      requires Commits(spec) ==> SourceFinalized(t) in history
      requires sha.Some? ==> Commits(spec)
      requires report.Success? <==> Reported(t, Success) in history
      modifies `status, `dirtyTasks, `pending, `history, `logged
      ensures Valid()
      ensures exit.StatusMoved? ==> exit.report == report && pending.None?
      ensures exit.StatusMoved? <==> env.update.Fine? && env.emit.Fine?
      ensures exit.StatusMoved? && report.Success? ==> MarkedDone(t) in history && t in status && status[t].DoneState?
      ensures exit.StatusFailed? ==> sha.Some? && pending == Some(StatusPhase(t, sha.value))
      ensures pending.Some? ==> exit.StatusFailed?
      ensures sha.Some? && env.update.Fails? && env.record.Fine? ==> exit.StatusFailed?
      ensures forall r :: Reported(t, r) in history <==> Reported(t, r) in old(history)
      ensures records == old(records)
      // the record of a failed transition says nothing about the report that led to it
      ensures exit.StatusFailed? ==> (Misfiled(t) in history <==> Misfiled(t) in old(history) || !report.Success?)
      ensures !report.Success? ==> (MarkedDone(t) in history <==> MarkedDone(t) in old(history))
      // the task file says what was reported
      ensures exit.StatusMoved? ==> dirtyTasks == old(dirtyTasks) + {t} && t in logged
      ensures exit.StatusMoved? ==>
                status == old(status)[t := match report case Success => DoneState case Partial => InProgress case Failure => BlockedState]
      ensures exit.StatusMoved? ==> history == old(history) + (if report.Success? then [MarkedDone(t)] else [])
      ensures exit.StatusDied? ==> Deadly(env)
    {
      OrderedIsLinear(spec, records, Work(t), TaskStatus(t));
      var moved, died := MoveStatus(t, report, env);
      if died { return StatusDied; }
      if moved { return StatusMoved(report); }
      if sha.None? { return StatusThrew; }
      exit := RecordTaskStatusFinalizationFailure(t, report, sha.value, env.record);
    }

    /** The update of the task file and its event. */
    method MoveStatus(t: nat, report: Report, env: Env) returns (moved: bool, died: bool)
      requires Valid() && WorkCompleted(spec, records, t)
      requires report.Success? ==> MayFollow(spec, history, MarkedDone(t))
      modifies `status, `dirtyTasks, `history, `logged
      ensures Valid()
      ensures moved <==> env.update.Fine? && env.emit.Fine?
      ensures died <==> env.update.Dies? || (env.update.Fine? && env.emit.Dies?)
      ensures env.update.Fine? ==> t in status && (report.Success? ==> status[t].DoneState?)
      ensures history == old(history) + (if env.update.Fine? && report.Success? then [MarkedDone(t)] else [])
      ensures env.update.Fine? ==> dirtyTasks == old(dirtyTasks) + {t}
      ensures env.update.Fine? ==>
                status == old(status)[t := match report case Success => DoneState case Partial => InProgress case Failure => BlockedState]
      ensures logged == if moved then old(logged) + {t} else old(logged)
    {
      var target := match report case Success => DoneState case Partial => InProgress case Failure => BlockedState;
      UpdateTask(t, target, env.update);
      moved := env.update.Fine? && env.emit.Fine?;
      died := env.update.Dies? || (env.update.Fine? && env.emit.Dies?);
      if moved {
        logged := logged + {t};
      }
    }

    method RecordTaskStatusFinalizationFailure(t: nat, report: Report, sha: Sha, record: Luck) returns (exit: StatusExit)
      requires Valid() && pending.None? && Current(spec, records, TaskStatus(t))
      requires Commits(spec) && SourceFinalized(t) in history
      requires report.Success? <==> Reported(t, Success) in history
      modifies `pending, `history
      ensures Valid()
      ensures exit == if record.Fine? then StatusFailed else if record.Fails? then StatusThrew else StatusDied
      ensures pending == if record.Fine? then Some(StatusPhase(t, sha)) else None
      ensures forall r :: Reported(t, r) in history <==> Reported(t, r) in old(history)
      ensures MarkedDone(t) in history <==> MarkedDone(t) in old(history)
      ensures exit.StatusFailed? ==> (Misfiled(t) in history <==> Misfiled(t) in old(history) || !report.Success?)
    {
      if record.Fails? { return StatusThrew; }
      if record.Dies? { return StatusDied; }
      CurrentMayPend(spec, records, results, history, t, TaskStatus(t));
      if !report.Success? {
        Note(Misfiled(t));
      }
      WritePending(StatusPhase(t, sha), record);
      return StatusFailed;
    }

    // ----- state commit -----

    ghost method NoteStateAttempt()
      requires Valid() && (pending.Some? ==> pending.value.StatePhase?)
      requires forall t | 0 <= t < |spec.taskIds| :: DoneStatusStep(spec, records, results, t)
      modifies `history
      ensures Valid() && history == old(history) + [StateAttempted]
    {
      SafeSnoc(|spec.taskIds|, Commits(spec), history, StateAttempted);
      assert WorkTells(spec, records, results, history + [StateAttempted]);
      history := history + [StateAttempted];
    }

    /** The state commit itself. */
    method LandState(outside: set<nat>)
      requires Valid() && StateAttempted in history
      modifies `head, `nextSha, `dirtyTasks, `history
      ensures Valid() && history == old(history) + [StateLanded]
      ensures head == old(nextSha) && nextSha == old(nextSha) + 1 && dirtyTasks == outside
      ensures SinceRecorded(history) == SinceRecorded(old(history)) + {StateLanded}
    {
      head, nextSha, dirtyTasks := nextSha, nextSha + 1, outside;
      Note(StateLanded);
      assert history[..|history| - 1] == old(history);
    }

    method CommitFinalState(env: Env) returns (exit: StateExit)
      requires Valid() && (pending.Some? ==> pending.value.StatePhase?)
      requires forall t | 0 <= t < |spec.taskIds| :: DoneStatusStep(spec, records, results, t)
      modifies `head, `nextSha, `dirtyTasks, `history
      ensures Valid()
      ensures exit.PolicyNone? <==> ResolveStateCommitPolicy(spec).NoStateCommit?
      ensures exit.PolicyNone? ==> unchanged(this)
      ensures !exit.PolicyNone? ==> StateAttempted in history
      ensures nextSha >= old(nextSha)
      ensures exit.StateCommitted? ==> history == old(history) + [StateAttempted, StateLanded]
      ensures exit.StateCommitted? ==> exit.sha == head == old(nextSha)
      ensures exit.StateCommitted? || exit.NoChanges? ==> forall t | t in dirtyTasks :: t >= |spec.taskIds|
      ensures exit.NoChanges? ==> head == old(head) && dirtyTasks == old(dirtyTasks)
      ensures exit.StateFailed? ==> exit.headBefore == old(head)
      ensures SinceRecorded(history) >= SinceRecorded(old(history))
      ensures exit.StateCommitted? ==> StateLanded in SinceRecorded(history)
      ensures env.git.Works? && env.emit.Fine? && !exit.PolicyNone? ==>
                (if SelectedDirty(spec, old(dirtyTasks)) then exit.StateCommitted? else exit.NoChanges?)
      ensures exit.NoChanges? ==> history == old(history) + [StateAttempted]
      ensures exit.StateDied? ==> Deadly(env)
    {
      if ResolveStateCommitPolicy(spec).NoStateCommit? {
        return PolicyNone;
      }
      var headBefore := head;
      NoteStateAttempt();
      SafeSnoc(|spec.taskIds|, Commits(spec), old(history), StateAttempted);
      var outside := set t | t in dirtyTasks && t >= |spec.taskIds|;
      if env.git.GitDies? { return StateDied; }
      if outside == dirtyTasks {
        return if env.git.Works? then NoChanges else StateFailed(headBefore);
      }
      if env.git.GitFails? {
        return StateFailed(headBefore);
      }
      LandState(outside);
      if env.emit.Dies? { return StateDied; }
      if env.git.FailsAfterCommit? || env.emit.Fails? {
        return if env.note.Fine? then StateFailed(headBefore) else if env.note.Fails? then StateThrew else StateDied;
      }
      return StateCommitted(head);
    }

    // ----- graph steps -----

    /** Persists a finalizer step, or the start or failure of any step. */
    method SetStep(key: StepKey, status: StepStatus, result: Option<StepResult>)
      requires Valid() && Current(spec, records, key)
      requires status.Completed? ==> !key.Work? && pending.None? && result.Some? && Backed(spec, key, result.value, history)
      requires pending.Some? ==> key == PhaseKey(pending.value)
      modifies `records, `results
      ensures Valid()
      ensures records == old(records)[IdOf(spec, key) := status] && StatusOf(spec, records, key) == status
      ensures results == NewResults(spec, old(results), key, result)
      ensures !status.Completed? ==> Current(spec, records, key)
      ensures forall other | ValidKey(spec, other) && other != key :: StatusOf(spec, records, other) == StatusOf(spec, old(records), other)
    {
      if key.Work? {
        WorkUpdateKeeps(spec, records, results, history, nextSha, key.task, status, result);
        assert history + [] == history;
      } else {
        FinalizerUpdateKeeps(spec, records, results, pending, history, nextSha, key, status, result);
      }
      UpdateKeepsOrdered(spec, records, key, status);
      DependenciesByKey(spec, records, key);
      DependenciesRankLower(spec, key);
      var id := IdOf(spec, key);
      records := records[id := status];
      results := NewResults(spec, results, key, result);
      DependenciesByKey(spec, records, key);
    }

    /** The worker: its report and edits are its own; Drive keeps the task file unless the task succeeded. */
    method RunWork(t: nat, env: Env) returns (result: Option<StepResult>)
      requires Valid() && pending.None? && Current(spec, records, Work(t))
      modifies `head, `nextSha, `sourceDirty, `status, `dirtyTasks, `history, `logged
      ensures Valid() && history == old(history)
      ensures result.Some? ==> !result.value.retry
      ensures result.Some? && result.value.outcome.SuccessOutcome? ==>
                (result.value.partialMark <==> env.report.Partial?) && !env.report.Failure?
      ensures sourceDirty == (old(sourceDirty) || env.edits)
      ensures env.report.Success? ==> result.Some? && result.value.outcome.SuccessOutcome?
      ensures env.report.Partial? && spec.partialContinue && env.update.Fine? && env.emit.Fine? ==>
                result.Some? && result.value.outcome.SuccessOutcome?
      ensures env.report.Success? ==>
                result == Some(SUCCESS) && status == old(status)[t := InProgress] && dirtyTasks == old(dirtyTasks) + {t}
      ensures !env.report.Success? && env.update.Fine? && env.emit.Fine? ==>
                && result.Some? && t in logged && dirtyTasks == old(dirtyTasks) + {t}
                && status == old(status)[t := if env.report.Partial? then InProgress else BlockedState]
                && result.value.outcome == (if env.report.Failure? then BlockedOutcome
                                            else if spec.partialContinue then SuccessOutcome else PartialOutcome)
      ensures result.None? ==> Deadly(env)
    {
      UpdateTask(t, InProgress, Fine);
      sourceDirty := sourceDirty || env.edits;
      if env.selfCommits {
        head, nextSha := nextSha, nextSha + 1;
      }
      if env.report.Success? {
        return Some(SUCCESS);
      }
      result := ReportShortfall(t, env);
    }

    /** The worker did not succeed; the task file says so. */
    method ReportShortfall(t: nat, env: Env) returns (result: Option<StepResult>)
      requires Valid() && !env.report.Success?
      modifies `status, `dirtyTasks, `history, `logged
      ensures Valid() && history == old(history)
      ensures result.Some? ==> !result.value.retry
      ensures result.Some? && result.value.outcome.SuccessOutcome? ==> result.value.partialMark && env.report.Partial?
      ensures env.report.Partial? && spec.partialContinue && env.update.Fine? && env.emit.Fine? ==>
                result.Some? && result.value.outcome.SuccessOutcome?
      ensures env.update.Fine? && env.emit.Fine? ==>
                && result.Some? && t in logged && dirtyTasks == old(dirtyTasks) + {t}
                && status == old(status)[t := if env.report.Partial? then InProgress else BlockedState]
                && result.value.outcome == (if env.report.Failure? then BlockedOutcome
                                            else if spec.partialContinue then SuccessOutcome else PartialOutcome)
      ensures result.None? ==> Deadly(env)
    {
      UpdateTask(t, if env.report.Partial? then InProgress else BlockedState, env.update);
      if env.update.Dies? || (env.update.Fine? && env.emit.Dies?) { return None; }
      if env.update.Fails? || env.emit.Fails? { return Some(THROWN); }
      logged := logged + {t};
      return Some(if env.report.Failure? then BLOCKED
                  else if spec.partialContinue then StepResult(SuccessOutcome, true, false, None)
                  else StepResult(PartialOutcome, false, false, None));
    }

    method RunSourceCommitFinalizer(t: nat, env: Env) returns (result: Option<StepResult>)
      requires Valid() && pending.None? && Commits(spec) && Current(spec, records, SourceCommit(t))
      modifies `head, `nextSha, `sourceDirty, `status, `dirtyTasks, `pending, `history, `logged
      ensures Valid()
      ensures pending.Some? ==> PhaseKey(pending.value) == SourceCommit(t)
      ensures result.Some? && result.value.retry ==> result.value == RETRY && pending.Some?
      ensures result.Some? && result.value.outcome.SuccessOutcome? ==> pending.None? && SourceFinalized(t) in history
      ensures CommitWorks(env) ==> result.Some? && result.value.outcome.SuccessOutcome? && !result.value.retry
      ensures CommitWorks(env) ==> history == old(history) + [SourceFinalized(t)]
      ensures CommitIsRefused(env) && Reported(t, Success) in old(history) ==>
                && result == Some(RETRY) && pending == Some(CommitPhase(t, head))
                && sourceDirty == old(sourceDirty)
      ensures CommitWorks(env) ==> status == old(status) && dirtyTasks == old(dirtyTasks) && !result.value.partialMark
      ensures CommitWorks(env) ==> !sourceDirty && head == (if old(sourceDirty) then old(nextSha) else old(head))
                                   && result.value.commit == if old(sourceDirty) then Some(head) else None
      ensures Faultless(env) ==>
                && result.Some? && !result.value.retry && SeesTo(spec, SourceCommit(t), result.value, history, status, dirtyTasks)
                && NothingLost(old(history), old(status), old(dirtyTasks), history, status, dirtyTasks)
      ensures result.None? ==> Deadly(env)
    {
      DependenciesByKey(spec, records, SourceCommit(t));
      assert Work(t) in DependsOn(spec, SourceCommit(t));
      WorkRecordTells(spec, records, results, history, t);
      var report := ReportFromResult(results[IdOf(spec, Work(t))]);
      var exit := FinalizeSourceCommit(t, report, env);
      match exit
      case CommittedAs(sha) => return Some(StepResult(SuccessOutcome, false, false, Some(sha)));
      case Skipped => return Some(SUCCESS);
      case NotApplicable => return Some(SUCCESS);
      case CommitFailed => return Some(RETRY);
      case CommitBlocked => return Some(BLOCKED);
      case CommitThrew => return Some(THROWN);
      case CommitDied => return None;
    }

    method RunTaskStatusFinalizer(t: nat, env: Env) returns (result: Option<StepResult>)
      requires Valid() && pending.None? && Current(spec, records, TaskStatus(t))
      modifies `status, `dirtyTasks, `pending, `history, `logged
      ensures Valid()
      ensures pending.Some? ==> PhaseKey(pending.value) == TaskStatus(t)
      ensures result.Some? && result.value.retry ==> result.value == RETRY.(commit := result.value.commit) && pending.Some?
      ensures result.Some? && result.value.outcome.SuccessOutcome? ==> pending.None? && (!result.value.partialMark ==> MarkedDone(t) in history)
      // what is left of a completed work step's report decides
      ensures env.update.Fine? && env.emit.Fine? ==> var partial := MarkedPartial(spec, results, t);
                && result.Some? && pending.None? && !result.value.retry && dirtyTasks == old(dirtyTasks) + {t}
                && status == old(status)[t := if partial then InProgress else DoneState]
                && history == old(history) + (if partial then [] else [MarkedDone(t)])
                && (result.value.outcome.SuccessOutcome? <==> !partial || spec.partialContinue) && result.value.partialMark == (partial && spec.partialContinue)
      ensures Faultless(env) && !MarkedPartial(spec, results, t) ==>
                && result.Some? && !result.value.retry && SeesTo(spec, TaskStatus(t), result.value, history, status, dirtyTasks)
                && NothingLost(old(history), old(status), old(dirtyTasks), history, status, dirtyTasks)
      ensures result.None? ==> Deadly(env)
    {
      DependenciesByKey(spec, records, TaskStatus(t));
      if Commits(spec) {
        assert SourceCommit(t) in DependsOn(spec, TaskStatus(t));
        OrderedIsLinear(spec, records, Work(t), TaskStatus(t));
      } else {
        assert Work(t) in DependsOn(spec, TaskStatus(t));
      }
      var report := ReportFromResult(results[IdOf(spec, Work(t))]);
      // commitFromDependency
      var sha := if Commits(spec) && IdOf(spec, SourceCommit(t)) in results then results[IdOf(spec, SourceCommit(t))].commit else None;
      var exit := TransitionTaskStatus(t, report, sha, env);
      match exit
      case StatusMoved(_) =>
        return Some(match report
                    case Success => SUCCESS.(commit := sha)
                    case Partial => if spec.partialContinue then StepResult(SuccessOutcome, true, false, sha)
                                    else StepResult(PartialOutcome, false, false, sha)
                    case Failure => BLOCKED.(commit := sha));
      case StatusFailed => return Some(RETRY.(commit := sha));
      case StatusThrew => return Some(THROWN);
      case StatusDied => return None;
    }

    method RunStateCommitFinalizer(env: Env) returns (result: Option<StepResult>)
      requires Valid() && pending.None? && Current(spec, records, StateCommit)
      modifies `head, `nextSha, `dirtyTasks, `pending, `history
      ensures Valid()
      ensures pending.Some? ==> pending.value.StatePhase?
      ensures result.Some? && result.value.retry ==> result.value == RETRY && pending.Some?
      ensures result.Some? && result.value.outcome.SuccessOutcome? ==> pending.None?
      // first attempted only when every task status finalizer is done
      ensures StateAttempted in history && StateAttempted !in old(history) ==>
                forall t | 0 <= t < |spec.taskIds| :: DoneStatusStep(spec, records, results, t)
      ensures env.git.Works? && env.emit.Fine? ==>
                && result.Some? && result.value.outcome.SuccessOutcome? && !result.value.retry && !result.value.partialMark
                && old(history) <= history && (forall t | t in old(dirtyTasks) :: t in dirtyTasks || StateLanded in history)
      // and then the task files are committed if one of them has changed
      ensures env.git.Works? && env.emit.Fine? && (exists t | t in old(dirtyTasks) :: t < |spec.taskIds|) ==>
                (forall t | 0 <= t < |spec.taskIds| :: DoneStatusStep(spec, records, results, t)) ==>
                StateLanded in history && forall t | t in dirtyTasks :: t >= |spec.taskIds|
      ensures Faultless(env) && old(MaySucceed(spec, records, results, history, dirtyTasks, StateCommit)) ==>
                && result.Some? && !result.value.retry && SeesTo(spec, StateCommit, result.value, history, status, dirtyTasks)
                && NothingLost(old(history), old(status), old(dirtyTasks), history, status, dirtyTasks)
      ensures result.None? ==> Deadly(env)
    {
      if exists t | 0 <= t < |spec.taskIds| :: !DoneStatusStep(spec, records, results, t) {
        return Some(SUCCESS);  // not_all_tasks_done
      }
      var exit := CommitFinalState(env);
      match exit
      case StateCommitted(sha) => return Some(SUCCESS.(commit := Some(sha)));
      case PolicyNone => return Some(SUCCESS);
      case NoChanges => return Some(SUCCESS);
      case StateFailed(headBefore) =>
        WritePending(StatePhase(headBefore), env.record);
        return match env.record case Fine => Some(RETRY) case Fails => Some(THROWN) case Dies => None;
      case StateThrew => return Some(THROWN);
      case StateDied => return None;
    }

    method FinishWork(t: nat, result: StepResult)
      requires Valid() && pending.None? && Current(spec, records, Work(t))
      requires !result.retry
      modifies `records, `results, `history
      ensures Valid()
      ensures records == old(records)[IdOf(spec, Work(t)) := StatusFromResult(result)]
      ensures StatusOf(spec, records, Work(t)) == StatusFromResult(result)
      ensures results == old(results)[IdOf(spec, Work(t)) := result]
      ensures history == old(history) + (if result.outcome.SuccessOutcome? && !result.partialMark then [Reported(t, Success)] else [])
      ensures forall other | ValidKey(spec, other) && other != Work(t) :: StatusOf(spec, records, other) == StatusOf(spec, old(records), other)
    {
      var id, status := IdOf(spec, Work(t)), StatusFromResult(result);
      WorkUpdateKeeps(spec, records, results, history, nextSha, t, status, Some(result));
      OtherStepsKeep(spec, records, results, Work(t), status, Some(result));
      records, results := records[id := status], results[id := result];
      history := Told(history, t, status.Completed? && !result.partialMark);
    }

    method RunWorkStep(t: nat, env: Env) returns (alive: bool)
      requires Valid() && pending.None? && Runnable(spec, records, Work(t))
      modifies `head, `nextSha, `sourceDirty, `status, `dirtyTasks, `pending, `records, `results, `history, `logged
      ensures Valid() && pending.None?
      ensures alive ==> var ended := StatusOf(spec, records, Work(t)); ended.Completed? || ended.Blocked? || ended.Failed?
      ensures env.report.Success? ==>
                && alive && StatusOf(spec, records, Work(t)).Completed? && history == old(history) + [Reported(t, Success)]
                && sourceDirty == (old(sourceDirty) || env.edits)
      ensures env.report.Partial? && spec.partialContinue && env.update.Fine? && env.emit.Fine? ==>
                alive && StatusOf(spec, records, Work(t)).Completed? && history == old(history)
      ensures (env.report.Failure? || (env.report.Partial? && !spec.partialContinue)) && env.update.Fine? && env.emit.Fine? ==>
                alive && StatusOf(spec, records, Work(t)).Blocked? && history == old(history)
      ensures env.report.Success? ==> var id := IdOf(spec, Work(t));
                && records == old(records)[id := Running][id := Completed] && results == old(results)[id := SUCCESS]
                && status == old(status)[t := InProgress] && dirtyTasks == old(dirtyTasks) + {t}
      ensures !alive ==> Deadly(env)
      ensures forall other | ValidKey(spec, other) && other != Work(t) :: StatusOf(spec, records, other) == StatusOf(spec, old(records), other)
    {
      RunnableIsCurrent(spec, records, Work(t));
      SetStep(Work(t), Running, None);
      var result := RunWork(t, env);
      if result.Some? {
        FinishWork(t, result.value);
        assert old(history) + [] == old(history);
      }
      return result.Some?;
    }

    method RunFinalizerStep(key: StepKey, env: Env) returns (alive: bool)
      requires Valid() && pending.None? && Runnable(spec, records, key) && !key.Work?
      modifies `head, `nextSha, `sourceDirty, `status, `dirtyTasks, `pending, `records, `results, `history, `logged
      ensures Valid()
      ensures alive ==> var ended := StatusOf(spec, records, key); ended.Ready? || ended.Completed? || ended.Blocked? || ended.Failed?
      ensures alive && StatusOf(spec, records, key).Ready? ==> pending.Some? && RetryableStep(spec, results, pending.value)
      ensures alive && pending.Some? ==> Current(spec, records, key)
      ensures key.SourceCommit? && CommitWorks(env) ==>
                && alive && StatusOf(spec, records, key).Completed? && history == old(history) + [SourceFinalized(key.task)]
                && pending.None?
      ensures key.SourceCommit? && CommitIsRefused(env) && Reported(key.task, Success) in old(history) ==>
                && alive && pending == Some(CommitPhase(key.task, head)) && sourceDirty == old(sourceDirty)
      ensures forall other | ValidKey(spec, other) && other != key :: StatusOf(spec, records, other) == StatusOf(spec, old(records), other)
      ensures Faultless(env) && old(SmoothNow()) ==> var id := IdOf(spec, key);
                && alive && StatusOf(spec, records, key).Completed? && pending.None? && id in results
                && records == old(records)[id := Running][id := Completed] && results == old(results)[id := results[id]]
                && SeesTo(spec, key, results[id], history, status, dirtyTasks)
                && NothingLost(old(history), old(status), old(dirtyTasks), history, status, dirtyTasks)
      ensures !alive ==> Deadly(env)
    {
      RunnableIsCurrent(spec, records, key);
      if SmoothNow() {
        SmoothMayRun(spec, records, results, history, status, dirtyTasks, key);
      }
      SetStep(key, Running, None);
      var result := RunFinalizer(key, env);
      if result.None? {
        return false;
      }
      SetStep(key, StatusFromResult(result.value), result);
      return true;
    }

    /** The finalizer's own work. */
    method RunFinalizer(key: StepKey, env: Env) returns (result: Option<StepResult>)
      requires Valid() && pending.None? && Current(spec, records, key) && !key.Work?
      modifies `head, `nextSha, `sourceDirty, `status, `dirtyTasks, `pending, `history, `logged
      ensures Valid()
      ensures pending.Some? ==> PhaseKey(pending.value) == key
      ensures result.Some? && result.value.retry ==> result.value.outcome.FailedOutcome? && pending.Some?
      ensures result.Some? && result.value.outcome.SuccessOutcome? ==> pending.None? && Backed(spec, key, result.value, history)
      ensures key.SourceCommit? && CommitWorks(env) ==>
                && result.Some? && result.value.outcome.SuccessOutcome? && !result.value.retry
                && history == old(history) + [SourceFinalized(key.task)]
      ensures key.SourceCommit? && CommitIsRefused(env) && Reported(key.task, Success) in old(history) ==>
                && result == Some(RETRY) && pending == Some(CommitPhase(key.task, head)) && sourceDirty == old(sourceDirty)
      ensures Faultless(env) && old(MaySucceed(spec, records, results, history, dirtyTasks, key)) ==>
                && result.Some? && !result.value.retry && SeesTo(spec, key, result.value, history, status, dirtyTasks)
                && NothingLost(old(history), old(status), old(dirtyTasks), history, status, dirtyTasks)
      ensures result.None? ==> Deadly(env)
    {
      match key {
        case SourceCommit(t) => result := RunSourceCommitFinalizer(t, env);
        case TaskStatus(t) => result := RunTaskStatusFinalizer(t, env);
        case StateCommit => result := RunStateCommitFinalizer(env);
      }
    }

    /** One scheduler step, persisted as running before and with its result after. */
    method RunStep(key: StepKey, env: Env) returns (alive: bool)
      requires Valid() && pending.None? && Runnable(spec, records, key)
      modifies `head, `nextSha, `sourceDirty, `status, `dirtyTasks, `pending, `records, `results, `history, `logged
      ensures Valid()
      ensures alive ==> var ended := StatusOf(spec, records, key); ended.Ready? || ended.Completed? || ended.Blocked? || ended.Failed?
      ensures alive && StatusOf(spec, records, key).Ready? ==> pending.Some? && RetryableStep(spec, results, pending.value)
      ensures alive && pending.Some? ==> Current(spec, records, key)
      ensures key.Work? && env.report.Success? ==>
                && alive && StatusOf(spec, records, key).Completed? && history == old(history) + [Reported(key.task, Success)]
                && pending.None? && sourceDirty == (old(sourceDirty) || env.edits)
      ensures key.Work? && env.report.Partial? && spec.partialContinue && env.update.Fine? && env.emit.Fine? ==>
                alive && StatusOf(spec, records, key).Completed? && history == old(history) && pending.None?
      ensures key.SourceCommit? && CommitWorks(env) ==>
                && alive && StatusOf(spec, records, key).Completed? && history == old(history) + [SourceFinalized(key.task)]
                && pending.None?
      ensures key.SourceCommit? && CommitIsRefused(env) && Reported(key.task, Success) in old(history) ==>
                && alive && pending == Some(CommitPhase(key.task, head)) && sourceDirty == old(sourceDirty)
      ensures forall other | ValidKey(spec, other) && other != key :: StatusOf(spec, records, other) == StatusOf(spec, old(records), other)
      ensures Faultless(env) && old(SmoothNow()) ==> alive && StatusOf(spec, records, key).Completed? && pending.None? && SmoothNow()
      ensures !alive ==> Deadly(env)
    {
      if key.Work? {
        if SmoothNow() {
          SmoothWork(spec, records, results, history, status, dirtyTasks, key.task);
        }
        alive := RunWorkStep(key.task, env);
      } else {
        alive := RunFinalizerStep(key, env);
        if Faultless(env) && old(SmoothNow()) {
          SmoothFinalizer(spec, old(records), old(results), old(history), old(status), old(dirtyTasks),
                          key, results[IdOf(spec, key)], history, status, dirtyTasks);
        }
      }
    }

    // ----- resume -----

    /** What the events of one phase of a retry leave in its step record. */
    method ProjectPhase(key: StepKey, seen: Seen, passed: bool, commit: Option<Sha>)
      requires Valid() && pending.Some? && MayRetry(spec, records, pending.value, key)
      requires passed ==> Backed(spec, key, SUCCESS.(commit := commit), history)
      modifies `records, `results
      ensures Valid()
      ensures !seen.Unseen? ==>
                StatusOf(spec, records, key) == if seen.Begun? then Blocked else if passed then Completed else Failed
      ensures seen.Ended? && passed ==> IdOf(spec, key) in results && results[IdOf(spec, key)] == SUCCESS.(commit := commit)
      ensures forall other | ValidKey(spec, other) && other != key :: StatusOf(spec, records, other) == StatusOf(spec, old(records), other)
      ensures seen.Unseen? ==> unchanged(this)
    {
      match seen {
        case Unseen =>
        case Begun => SetRetried(key, Blocked, None);
        case Ended =>
          if passed {
            SetRetried(key, Completed, Some(SUCCESS.(commit := commit)));
          } else {
            SetRetried(key, Failed, Some(RETRY));
          }
      }
    }

    method SetRetried(key: StepKey, status: StepStatus, result: Option<StepResult>)
      requires Valid() && pending.Some? && MayRetry(spec, records, pending.value, key) && status.Terminal()
      requires status.Completed? ==> result.Some? && Backed(spec, key, result.value, history)
      modifies `records, `results
      ensures Valid()
      ensures records == old(records)[IdOf(spec, key) := status] && StatusOf(spec, records, key) == status
      ensures results == NewResults(spec, old(results), key, result)
      ensures forall other | ValidKey(spec, other) && other != key :: StatusOf(spec, records, other) == StatusOf(spec, old(records), other)
    {
      RetryUpdateKeeps(spec, records, results, history, nextSha, pending.value, key, status, result);
      OthersStay(spec, records, key, status);
      records := records[IdOf(spec, key) := status];
      results := NewResults(spec, results, key, result);
    }

    method RetryPendingSourceCommit(env: Env) returns (sha: Option<Sha>, died: bool)
      requires Valid() && pending.Some? && pending.value.CommitPhase?
      modifies `head, `nextSha, `sourceDirty, `history
      ensures Valid()
      // a commit is accepted only if HEAD has moved since the failed finalization
      ensures sha.Some? ==> !died && sha.value == head != pending.value.headBefore
      ensures history == old(history) + (if sha.Some? then [SourceFinalized(pending.value.task)] else [])
      ensures sha.Some? <==> CommitAccepted(pending.value, old(head), old(sourceDirty), env)
      // and then nothing is left to commit
      ensures sha.Some? ==> !sourceDirty && head == if old(sourceDirty) then old(nextSha) else old(head)
    {
      var t := pending.value.task;
      if env.git.GitDies? { return None, true; }
      if !env.git.Works? {
        if env.git.FailsAfterCommit? && sourceDirty {
          head, nextSha, sourceDirty := nextSha, nextSha + 1, false;
        }
        return None, false;
      }
      if sourceDirty {
        head, nextSha, sourceDirty := nextSha, nextSha + 1, false;
      } else if head == pending.value.headBefore {
        return None, false;
      }
      if env.emit.Dies? { return None, true; }
      if env.emit.Fails? { return None, false; }
      Note(SourceFinalized(t));
      return Some(head), false;
    }

    method FinalizePendingTaskStatus(t: nat, env: Env) returns (ok: bool, died: bool)
      requires Valid() && MayFollow(spec, history, MarkedDone(t)) && WorkCompleted(spec, records, t)
      modifies `status, `dirtyTasks, `history, `logged
      ensures Valid()
      ensures ok ==> !died && history == old(history) + [MarkedDone(t)] && t in status && status[t].DoneState?
      ensures logged == if ok then old(logged) + {t} else old(logged)
      ensures ok <==> env.update.Fine? && env.note.Fine?
      ensures died <==> env.update.Dies? || (env.update.Fine? && env.note.Dies?)
      ensures history == old(history) || history == old(history) + [MarkedDone(t)]
    {
      UpdateTask(t, DoneState, env.update);
      if env.update.Dies? || (env.update.Fine? && env.note.Dies?) { return false, true; }
      if env.update.Fails? || env.note.Fails? { return false, false; }
      logged := logged + {t};
      return true, false;
    }

    /** What reaches the record of a step whose process died on the way: at most its start. */
    function SeenOf(seen: Seen, died: bool): Seen {
      if died && seen.Ended? then Begun else seen
    }

    /** The source commit of a pending record, and what its step record then says. */
    method RetryCommitPhase(env: Env) returns (sha: Option<Sha>, died: bool)
      requires Valid() && pending.Some? && pending.value.CommitPhase?
      modifies `head, `nextSha, `sourceDirty, `history, `records, `results
      ensures Valid()
      ensures sha.Some? ==> !died && sha.value == head != pending.value.headBefore
      ensures sha.Some? <==> CommitAccepted(pending.value, old(head), old(sourceDirty), env)
      ensures sha.Some? ==> !sourceDirty && head == if old(sourceDirty) then old(nextSha) else old(head)
      ensures history == old(history) + (if sha.Some? then [SourceFinalized(pending.value.task)] else [])
      ensures sha.Some? && env.commitSeen.Ended? ==> StatusOf(spec, records, SourceCommit(pending.value.task)).Completed?
      ensures !env.commitSeen.Unseen? ==> StatusOf(spec, records, SourceCommit(pending.value.task)).Terminal()
    {
      sha, died := RetryPendingSourceCommit(env);
      ProjectPhase(SourceCommit(pending.value.task), SeenOf(env.commitSeen, died), sha.Some?, sha);
    }

    /** The Done update of a pending record, and what its step record then says. The events of a retry are
        in order: none of a status gets through if the step of the source commit shows none of the commit. */
    method RetryStatusPhase(sha: Option<Sha>, env: Env) returns (exit: RetryExit)
      requires Valid() && pending.Some? && !pending.value.StatePhase?
      requires MayFollow(spec, history, MarkedDone(pending.value.task))
      requires MayFollow(spec, history + [MarkedDone(pending.value.task)], Cleared(pending.value))
      modifies `status, `dirtyTasks, `history, `logged, `records, `results
      ensures Valid()
      ensures exit.Retried? <==> env.update.Fine? && env.note.Fine?
      ensures env.update.Fails? ==> exit.RetryFailed?
      ensures history == old(history) || history == old(history) + [MarkedDone(pending.value.task)]
      ensures exit.Retried? ==> MarkedDone(pending.value.task) in history && MayFollow(spec, history, Cleared(pending.value))
      ensures exit.Retried? ==> pending.value.task in status && status[pending.value.task].DoneState?
      ensures logged == (if exit.Retried? then old(logged) + {pending.value.task} else old(logged))
      ensures Commits(spec) && pending.value.task < |spec.taskIds|
      ensures StatusOf(spec, records, SourceCommit(pending.value.task)) == StatusOf(spec, old(records), SourceCommit(pending.value.task))
      ensures StatusOf(spec, records, SourceCommit(pending.value.task)).Terminal() && env.statusSeen.Ended? ==>
                && (exit.Retried? ==> DoneStatusStep(spec, records, results, pending.value.task))
                && (exit.RetryFailed? ==> StatusOf(spec, records, TaskStatus(pending.value.task)).Failed?)
    {
      var ok, died := FinalizePendingTaskStatus(pending.value.task, env);
      exit := if died then RetryDied else if ok then Retried else RetryFailed;
      ProjectStatus(SeenOf(env.statusSeen, died), ok, sha);
    }

    method ProjectStatus(seen: Seen, passed: bool, sha: Option<Sha>)
      requires Valid() && pending.Some? && !pending.value.StatePhase?
      requires passed ==> MarkedDone(pending.value.task) in history
      modifies `records, `results
      ensures Valid() && Commits(spec) && pending.value.task < |spec.taskIds|
      ensures StatusOf(spec, records, SourceCommit(pending.value.task)) == StatusOf(spec, old(records), SourceCommit(pending.value.task))
      ensures StatusOf(spec, records, SourceCommit(pending.value.task)).Terminal() && seen.Ended? ==>
                && (passed ==> DoneStatusStep(spec, records, results, pending.value.task))
                && (!passed ==> StatusOf(spec, records, TaskStatus(pending.value.task)).Failed?)
    {
      if StatusOf(spec, records, SourceCommit(pending.value.task)).Terminal() {
        ProjectPhase(TaskStatus(pending.value.task), seen, passed, sha);
      }
    }

    /** A pending source commit, and then the Done update. */
    method SettleSourceCommit(env: Env) returns (exit: RetryExit)
      requires Valid() && pending.Some? && pending.value.CommitPhase?
      modifies `head, `nextSha, `sourceDirty, `status, `dirtyTasks, `history, `logged, `records, `results
      ensures Valid()
      ensures exit.Retried? ==> Settled(pending.value, env) && head != pending.value.headBefore && !sourceDirty
      ensures exit.Retried? <==> CommitAccepted(pending.value, old(head), old(sourceDirty), env) && env.update.Fine? && env.note.Fine?
      ensures logged == if exit.Retried? then old(logged) + {pending.value.task} else old(logged)
      ensures forall e :: e in history ==> e in old(history) || e.SourceFinalized? || e.MarkedDone?
      ensures forall e :: e in old(history) ==> e in history
      ensures CommitThenNoUpdate(pending.value, old(head), old(sourceDirty), env) ==> HalfRetried(spec, records, exit, pending.value.task)
    {
      ClearingMayFollow(spec, history, pending.value);
      var sha, died := RetryCommitPhase(env);
      if sha.None? {
        return if died then RetryDied else RetryFailed;
      }
      exit := RetryStatusPhase(sha, env);
    }

    /** All that a pending record of a task asks for has been done. */
    ghost predicate Settled(p: Pending, env: Env)
      requires !p.StatePhase?
      reads this
    {
      && p.task in status && status[p.task].DoneState? && p.task < |spec.taskIds|
      && MarkedDone(p.task) in history && SourceFinalized(p.task) in history
      && MayFollow(spec, history, Cleared(p))
      && (Visible(p, env) ==> DoneStatusStep(spec, records, results, p.task))
    }

    /** Source commit if it is due, then the Done update: all that a pending record of a task asks for. */
    method SettlePendingTask(env: Env) returns (exit: RetryExit)
      requires Valid() && pending.Some? && !pending.value.StatePhase?
      modifies `head, `nextSha, `sourceDirty, `status, `dirtyTasks, `history, `logged, `records, `results
      ensures Valid()
      ensures exit.Retried? ==> Settled(pending.value, env)
      ensures exit.Retried? && pending.value.CommitPhase? ==> head != pending.value.headBefore && !sourceDirty
      ensures env.clear.Fine? ==> (exit.Retried? <==> TaskRetrySucceeds(pending.value, old(head), old(sourceDirty), env))
      ensures logged == if exit.Retried? then old(logged) + {pending.value.task} else old(logged)
      ensures forall e :: e in history ==> e in old(history) || e.SourceFinalized? || e.MarkedDone?
      ensures forall e :: e in old(history) ==> e in history
      ensures CommitThenNoUpdate(pending.value, old(head), old(sourceDirty), env) ==> HalfRetried(spec, records, exit, pending.value.task)
    {
      if pending.value.CommitPhase? {
        exit := SettleSourceCommit(env);
      } else {
        ClearingMayFollow(spec, history, pending.value);
        exit := RetryStatusPhase(Some(pending.value.sha), env);
      }
    }

    /** The retry of a pending source commit or task status. Its events reach the step records as it goes,
        before the pending record is cleared. */
    method RetryPendingTask(env: Env) returns (exit: RetryExit)
      requires Valid() && pending.Some? && !pending.value.StatePhase?
      modifies this
      ensures Valid()
      ensures pending == if exit.Retried? then None else old(pending)
      ensures exit.Retried? ==> var t := old(pending).value.task;
                && t in status && status[t].DoneState? && t in logged
                && MarkedDone(t) in history && SourceFinalized(t) in history
                && (Visible(old(pending).value, env) ==> DoneStatusStep(spec, records, results, t))
      ensures exit.Retried? && old(pending).value.CommitPhase? ==> head != old(pending).value.headBefore && !sourceDirty
      ensures exit.Retried? <==> TaskRetrySucceeds(old(pending).value, old(head), old(sourceDirty), env)
      ensures exit.Retried? ==> logged == old(logged) + {old(pending).value.task}
      // Done is earned unless the work step's record says partial; the record of the failed finalization is no help
      ensures exit.Retried? ==> var t := old(pending).value.task;
                Reported(t, Success) in history <==> !MarkedPartial(spec, old(results), t)
      ensures StateAttempted in history <==> StateAttempted in old(history)
      ensures forall t, r :: Reported(t, r) in history <==> Reported(t, r) in old(history)
      // the steps of a retry whose commit is accepted and whose Done update fails are completed and failed
      ensures CommitThenNoUpdate(old(pending).value, old(head), old(sourceDirty), env) ==>
                HalfRetried(spec, records, exit, old(pending).value.task)
    {
      PendingTaskHasWorked(spec, records, results, pending, history, nextSha);
      exit := SettlePendingTask(env);
      if exit.Retried? {
        exit := ClearRetried(env.clear);
      }
    }

    /** The pending record goes last. */
    method ClearRetried(luck: Luck) returns (exit: RetryExit)
      requires Valid() && pending.Some? && MayFollow(spec, history, Cleared(pending.value))
      modifies `pending, `history
      ensures Valid() && exit == if luck.Fine? then Retried else RetryDied
      ensures pending == if luck.Fine? then None else old(pending)
      ensures history == old(history) + (if luck.Fine? then [Cleared(old(pending).value)] else [])
    {
      ClearPending(luck);
      return if luck.Fine? then Retried else RetryDied;
    }

    /** A state commit made by hand counts when all tasks are Done, nothing is dirty and HEAD has moved. */
    method AcceptExternalStateCommit(env: Env) returns (exit: RetryExit)
      requires Valid() && pending.Some? && pending.value.StatePhase? && StateAttempted in history
      requires forall t | t in dirtyTasks :: t >= |spec.taskIds|
      modifies `history
      ensures Valid()
      ensures exit.Retried? ==> head != pending.value.headBefore && forall t | 0 <= t < |spec.taskIds| :: t in status && status[t].DoneState?
      ensures history == old(history) + (if exit.Retried? then [StateLanded] else [])
      ensures env.emit.Fine? ==> exit == if head != pending.value.headBefore && AllFilesDone(spec, status) then Retried else RetryFailed
    {
      if exists t | 0 <= t < |spec.taskIds| :: !(t in status && status[t].DoneState?) {
        return RetryFailed;
      }
      if head == pending.value.headBefore {
        return RetryFailed;
      }
      if !env.emit.Fine? {
        return RetryDied;
      }
      Note(StateLanded);
      return Retried;
    }

    /** The retry proper of a state commit; on success the pending record may go. */
    method SettleStateCommit(env: Env) returns (exit: RetryExit)
      requires Valid() && pending.Some? && pending.value.StatePhase?
      modifies `head, `nextSha, `dirtyTasks, `history
      ensures Valid()
      ensures exit.Retried? ==> MayFollow(spec, history, Cleared(pending.value)) && StateLanded in history && StateAttempted in history
      ensures exit.Retried? ==> forall t | t in dirtyTasks :: t >= |spec.taskIds|
      ensures exit.Retried? ==>
                || head == old(nextSha)
                || (head == old(head) != pending.value.headBefore
                    && forall t | 0 <= t < |spec.taskIds| :: t in status && status[t].DoneState?)
      ensures env.git.Works? && env.emit.Fine? ==>
                exit == if old(SelectedDirty(spec, dirtyTasks) || (head != pending.value.headBefore && AllFilesDone(spec, status)))
                        then Retried else RetryFailed
    {
      var result := CommitFinalState(env);
      match result {
        case StateFailed(_) => return RetryFailed;
        case StateThrew => return RetryDied;
        case StateDied => return RetryDied;
        case StateCommitted(_) => return Retried;
        case NoChanges =>
          SafeSnoc(|spec.taskIds|, Commits(spec), history, StateLanded);
          exit := AcceptExternalStateCommit(env);
      }
    }

    method RetryPendingStateCommit(env: Env) returns (exit: RetryExit)
      requires Valid() && pending.Some? && pending.value.StatePhase?
      modifies this
      ensures Valid() && logged == old(logged)
      ensures pending == if exit.Retried? then None else old(pending)
      ensures exit.Retried? ==> StateLanded in history && StateAttempted in history && forall t | t in dirtyTasks :: t >= |spec.taskIds|
      ensures exit.Retried? ==>
                || head == old(nextSha)
                || (head == old(head) != old(pending).value.headBefore
                    && forall t | 0 <= t < |spec.taskIds| :: t in status && status[t].DoneState?)
      // exactly when a retry that meets no fault succeeds: there is something to commit, or somebody has done it
      ensures env.git.Works? && env.emit.Fine? && env.clear.Fine? ==>
                exit == if old(SelectedDirty(spec, dirtyTasks) || (head != pending.value.headBefore && AllFilesDone(spec, status)))
                        then Retried else RetryFailed
    {
      exit := SettleStateCommit(env);
      exit := FinishStateRetry(exit, env);
    }

    /** The events of a state commit's retry reach its step record; then the pending record goes. */
    method FinishStateRetry(settled: RetryExit, env: Env) returns (exit: RetryExit)
      requires Valid() && pending.Some? && pending.value.StatePhase?
      requires settled.Retried? ==> MayFollow(spec, history, Cleared(pending.value))
      modifies `records, `results, `pending, `history
      ensures Valid() && (exit.Retried? ==> settled.Retried?) && (env.clear.Fine? ==> exit == settled)
      ensures pending == if exit.Retried? then None else old(pending)
      ensures history == old(history) || history == old(history) + [Cleared(old(pending).value)]
    {
      ProjectPhase(StateCommit, SeenOf(env.stateSeen, settled.RetryDied?), settled.Retried?, None);
      exit := settled;
      if settled.Retried? {
        exit := ClearRetried(env.clear);
      }
    }

    // ----- whole processes -----

    /** `remainingTaskIds` is empty: the last task has a task_done or task_blocked line. */
    predicate RemainingEmpty()
      reads this
    {
      |spec.taskIds| == 0 || |spec.taskIds| - 1 in logged
    }

    /** A step that ends without stopping the run has used up its key, and nothing else is runnable while a record is pending. */
    method Pass(key: StepKey, env: Env) returns (alive: bool)
      requires Valid() && pending.None? && Runnable(spec, records, key)
      modifies `head, `nextSha, `sourceDirty, `status, `dirtyTasks, `pending, `records, `results, `history, `logged
      ensures Valid()
      ensures alive && !(pending.Some? && RetryableStep(spec, results, pending.value)) ==>
                && OpenKeys(spec, records) < OpenKeys(spec, old(records))
                && (pending.Some? ==> forall other :: !Runnable(spec, records, other))
      ensures Faultless(env) && old(SmoothNow()) ==> alive && pending.None? && SmoothNow()
      ensures completion == old(completion)
      ensures !alive ==> Deadly(env)
    {
      alive := RunStep(key, env);
      if alive && !(pending.Some? && RetryableStep(spec, results, pending.value)) {
        OpenKeysShrink(spec, old(records), records, key);
        if pending.Some? {
          forall other ensures !Runnable(spec, records, other) {
            if Runnable(spec, records, other) {
              OnlyCurrentRuns(spec, records, key, other);
            }
          }
        }
      }
    }

    /** Every step has completed, every task has been reported successful, had its sources settled and been
        marked Done, and the task files are committed if that is asked for. */
    ghost predicate AllDone()
      reads this
    {
      && pending.None?
      && (forall key | ValidKey(spec, key) :: StatusOf(spec, records, key).Completed?)
      && (forall t | 0 <= t < |spec.taskIds| ::
            && Reported(t, Success) in history && MarkedDone(t) in history && (Commits(spec) ==> SourceFinalized(t) in history)
            && t in status && status[t].DoneState?)
      && (ValidKey(spec, StateCommit) && |spec.taskIds| > 0 ==> StateLanded in history)
    }

    /** The passes themselves, until no step can run or the stop policy ends them. */
    method Drain(envs: StepKey -> Env) returns (exit: SessionExit)
      requires Valid() && pending.None?
      modifies `head, `nextSha, `sourceDirty, `status, `dirtyTasks, `pending, `records, `results, `history, `logged
      ensures Valid()
      ensures exit.FinalizationFailedRun? || exit.Drained? || exit.Crashed?
      ensures exit.Drained? ==> forall key | key in AllKeys(spec) :: !Runnable(spec, records, key)
      ensures exit.Drained? && pending.Some? ==> !RetryableStep(spec, results, pending.value)
      ensures exit.FinalizationFailedRun? ==> pending.Some? && RetryableStep(spec, results, pending.value)
      ensures exit.Crashed? ==> exists key :: ValidKey(spec, key) && Deadly(envs(key))
      ensures AllFaultless(spec, envs) && old(SmoothNow()) ==> exit.Drained? && pending.None? && SmoothNow()
    {
      ghost var smooth := AllFaultless(spec, envs) && SmoothNow();
      while exists key | key in AllKeys(spec) :: Runnable(spec, records, key)
        invariant Valid()
        invariant pending.Some? ==> !RetryableStep(spec, results, pending.value) && forall key :: !Runnable(spec, records, key)
        invariant smooth ==> pending.None? && SmoothNow()
        decreases OpenKeys(spec, records)
      {
        var key :| key in AllKeys(spec) && Runnable(spec, records, key);
        var alive := Pass(key, envs(key));
        if !alive {
          assert ValidKey(spec, key) && Deadly(envs(key));
          return Crashed;
        }
        if pending.Some? && RetryableStep(spec, results, pending.value) {
          return FinalizationFailedRun;
        }
      }
      return Drained;
    }

    /** The scheduler's passes with Drive's stop policy, any runnable step at a time; `envs` are the faults
        each step meets. The run drains only if no step can run any more and stops only over a finalizer
        that has to be retried. If nothing fails it drains with everything done. */
    method GraphRun(envs: StepKey -> Env) returns (exit: SessionExit)
      requires Valid() && pending.None?
      modifies this
      ensures Valid()
      ensures exit in {FinalizationFailedRun, Drained, Crashed}
      ensures exit.Drained? ==> forall key :: !Runnable(spec, records, key)
      ensures exit.Drained? && pending.Some? ==> !RetryableStep(spec, results, pending.value)
      ensures exit.FinalizationFailedRun? ==> pending.Some? && RetryableStep(spec, results, pending.value)
      ensures exit.Crashed? ==> exists key :: ValidKey(spec, key) && Deadly(envs(key))
      ensures completion == (old(completion) || !exit.Crashed?)
      ensures AllFaultless(spec, envs) && old(SmoothNow()) ==> exit.Drained? && AllDone()
    {
      ghost var smooth := AllFaultless(spec, envs) && SmoothNow();
      exit := Drain(envs);
      if exit.Crashed? {
        return;
      }
      if smooth {
        SmoothEndsDone();
      }
      if exit.Drained? {
        NoneIsRunnable(spec, records);
      }
      WriteCompletion();
    }

    method WriteCompletion()
      requires Valid()
      modifies `completion
      ensures Valid() && completion && (old(AllDone()) ==> AllDone())
    {
      completion := true;
    }

    lemma SmoothEndsDone()
      requires Valid() && pending.None? && SmoothNow() && forall key | key in AllKeys(spec) :: !Runnable(spec, records, key)
      ensures AllDone()
    {
      NoneIsRunnable(spec, records);
      SmoothEnd(spec, records, results, pending, history, nextSha, status, dirtyTasks);
    }

    /** The last task, once its retry has worked, leaves nothing remaining. */
    predicate CompletesRun(p: Pending)
      requires !p.StatePhase?
      reads this
    {
      RemainingEmpty() || p.task == |spec.taskIds| - 1
    }

    /** The retry half of a resume. It ends the process unless the graph still has tasks to run. */
    method Resume(env: Env) returns (exit: SessionExit)
      requires Valid() && pending.Some?
      modifies this
      ensures Valid() && exit in {Crashed, RetryRefused, CompletedByResume, GoesOn}
      ensures pending == if exit.CompletedByResume? || exit.GoesOn? then None else old(pending)
      ensures exit.CompletedByResume? ==> completion && RemainingEmpty()
      ensures exit.GoesOn? ==> !RemainingEmpty()
      // exactly when the retry of a task completes the run, and when the graph goes on
      ensures old(!pending.value.StatePhase?) ==> var p := old(pending.value);
                var works := TaskRetrySucceeds(p, old(head), old(sourceDirty), env);
                && (exit.CompletedByResume? <==> works && old(CompletesRun(p)))
                && (exit.GoesOn? <==> works && !old(CompletesRun(p)))
      // and that of a state commit, if it meets no fault
      ensures old(pending.value.StatePhase?) && env.git.Works? && env.emit.Fine? && env.clear.Fine? ==>
                var works := old(SelectedDirty(spec, dirtyTasks) || (head != pending.value.headBefore && AllFilesDone(spec, status)));
                exit == if !works then RetryRefused else if old(RemainingEmpty()) then CompletedByResume else GoesOn
      // a run completed by the retry of a task has not even tried the state commit
      ensures exit.CompletedByResume? ==> (old(pending).value.StatePhase? <==> StateAttempted in history)
    {
      var retry: RetryExit;
      if pending.value.StatePhase? {
        retry := RetryPendingStateCommit(env);
      } else {
        PendingTaskHasWorked(spec, records, results, pending, history, nextSha);
        retry := RetryPendingTask(env);
      }
      if retry.RetryDied? {
        return Crashed;
      }
      if retry.RetryFailed? {
        completion := true;
        return RetryRefused;
      }
      if !RemainingEmpty() {
        return GoesOn;
      }
      completion := true;
      return CompletedByResume;
    }

    /** One process: retry what is pending, then run the graph. */
    method Session(env: Env, envs: StepKey -> Env) returns (exit: SessionExit)
      requires Valid()
      modifies this
      ensures Valid() && !exit.GoesOn?
      // how the graph ends
      ensures exit.Drained? ==> completion && forall key :: !Runnable(spec, records, key)
      ensures exit.Drained? && pending.Some? ==> !RetryableStep(spec, results, pending.value)
      ensures exit.FinalizationFailedRun? ==> completion && pending.Some? && RetryableStep(spec, results, pending.value)
      ensures old(pending.None?) && exit.Crashed? ==> exists key :: ValidKey(spec, key) && Deadly(envs(key))
      ensures AllFaultless(spec, envs) && old(pending.None? && !completion && SmoothNow()) ==> exit.Drained? && AllDone()
      // no step runs while a pending record is outstanding
      ensures exit.RetryRefused? ==> pending == old(pending) != None
      ensures exit.CompletedByResume? ==> old(pending).Some? && pending.None? && completion && RemainingEmpty()
      // exactly when the retry of a task completes the run, which then has not even tried the state commit
      ensures old(pending.Some? && !pending.value.StatePhase?) ==> var p := old(pending).value;
                exit.CompletedByResume? <==> TaskRetrySucceeds(p, old(head), old(sourceDirty), env) && old(CompletesRun(p))
      ensures exit.CompletedByResume? ==> (old(pending).value.StatePhase? <==> StateAttempted in history)
      // otherwise, if the retry works, the graph is run
      ensures old(pending.Some? && !pending.value.StatePhase?) ==> var p := old(pending).value;
                TaskRetrySucceeds(p, old(head), old(sourceDirty), env) && !old(CompletesRun(p)) ==>
                exit.Drained? || exit.FinalizationFailedRun? || exists key :: ValidKey(spec, key) && Deadly(envs(key))
      ensures old(pending.None? && completion && RemainingEmpty()) <==> exit.AlreadyCompleted?
      ensures exit.AlreadyCompleted? ==> unchanged(this)
      // a pending state commit whose retry meets no fault is refused, completes the run, or lets the graph go on
      ensures old(pending.Some? && pending.value.StatePhase?) && env.git.Works? && env.emit.Fine? && env.clear.Fine? ==>
                var works := old(SelectedDirty(spec, dirtyTasks) || (head != pending.value.headBefore && AllFilesDone(spec, status)));
                && (exit.RetryRefused? <==> !works) && (exit.CompletedByResume? <==> works && old(RemainingEmpty()))
    {
      if pending.Some? {
        exit := Resume(env);
        if !exit.GoesOn? {
          return;
        }
      } else if RemainingEmpty() && completion {
        return AlreadyCompleted;
      }
      completion := false;
      exit := GraphRun(envs);
    }

    /** What people and other programs do between two processes of the run. */
    method Outside(head: Sha, commits: nat, dirty: bool, dirtyTasks: set<nat>, status: map<nat, TaskState>)
      requires Valid() && head < nextSha + commits
      modifies `head, `nextSha, `sourceDirty, `dirtyTasks, `status
      ensures Valid() && this.head == head && nextSha == old(nextSha) + commits && sourceDirty == dirty
    {
      this.nextSha := nextSha + commits;
      this.head, this.sourceDirty, this.dirtyTasks, this.status := head, dirty, dirtyTasks, status;
    }
  }

  /** Any batch over any number of processes, with any faults: the history stays safe throughout, and the
      persisted records always tell which of the tasks marked Done had succeeded. */
  method Lifetime(spec: Spec, head: Sha, sessions: nat) returns (run: DriveRun)
    requires UniqueIds(spec)
    ensures run.spec == spec && Safe(|spec.taskIds|, Commits(spec), run.history)
    ensures run.pending == Outstanding(run.history)
    ensures forall t | 0 <= t < |spec.taskIds| && MarkedDone(t) in run.history ::
              Reported(t, Success) in run.history <==> !MarkedPartial(spec, run.results, t)
  {
    run := new DriveRun(spec, head);
    for i := 0 to sessions
      invariant run.Valid() && fresh(run) && run.spec == spec
    {
      var env: Env, envs: StepKey -> Env := *, *;
      var _ := run.Session(env, envs);
      var moved: Sha, commits: nat, dirty: bool, dirtyTasks: set<nat>, status: map<nat, TaskState> := *, *, *, *, *;
      if moved < run.nextSha + commits {
        run.Outside(moved, commits, dirty, dirtyTasks, status);
      }
    }
    forall t | 0 <= t < |spec.taskIds| && MarkedDone(t) in run.history
      ensures Reported(t, Success) in run.history <==> !MarkedPartial(spec, run.results, t)
    {
      DoneIsEarnedIff(spec, run.records, run.results, run.pending, run.history, run.nextSha, t);
    }
  }

  /** A batch whose workers succeed and for which nothing fails drains: every step completes, the sources of
      every task are settled before it is marked Done, and the task files are committed if the batch asks
      for that or leaves it to the default of a driver that commits. */
  method FaultlessBatch(spec: Spec, head: Sha, envs: StepKey -> Env) returns (run: DriveRun, exit: SessionExit)
    requires UniqueIds(spec)
    requires forall key | ValidKey(spec, key) ::
      envs(key).report.Success? && envs(key).git.Works? && envs(key).update.Fine? && envs(key).emit.Fine?
    ensures run.spec == spec && exit.Drained? && run.completion && run.pending.None?
    ensures Safe(|spec.taskIds|, Commits(spec), run.history)
    ensures forall key | ValidKey(spec, key) :: IdOf(spec, key) in run.records && run.records[IdOf(spec, key)] == Completed
    ensures forall t | 0 <= t < |spec.taskIds| ::
      && Reported(t, Success) in run.history && MarkedDone(t) in run.history
      && (spec.commitPolicy == DriverCommits ==> SourceFinalized(t) in run.history)
      && t in run.status && run.status[t] == DoneState
    ensures |spec.taskIds| > 0 && (spec.stateCommitPolicy == Some(FinalStateCommit) ||
                                   (spec.stateCommitPolicy.None? && spec.commitPolicy == DriverCommits)) ==>
      StateLanded in run.history
  {
    run := new DriveRun(spec, head);
    var env: Env := *;
    exit := run.Session(env, envs);
  }

  const CALM := Env(Partial, true, false, Works, Fine, Fine, Fine, Fine, Fine, Ended, Ended, Ended)

  /**
   Done does not always mean that the worker succeeded: a task reported as partial whose sources
   were committed but whose status update failed is filed like a successful one, and the next
   resume marks it Done.
   */
  method MisfiledTaskEndsDone(run: DriveRun, t: nat, sha: Sha)
    requires run.Valid() && run.pending.None? && Commits(run.spec) && Current(run.spec, run.records, TaskStatus(t))
    requires SourceFinalized(t) in run.history && Reported(t, Success) !in run.history
    modifies run
    ensures run.Valid() && run.pending.None?
    ensures t in run.status && run.status[t].DoneState?
    ensures MarkedDone(t) in run.history && Reported(t, Success) !in run.history
  {
    var exit := run.TransitionTaskStatus(t, Partial, Some(sha), CALM.(update := Fails));
    var retry := run.RetryPendingTask(CALM);
  }

  lemma OneTaskIsPlain(spec: Spec)
    requires spec.taskIds == ["TASK-1"]
    ensures UniqueIds(spec)
  {
    PlainTaskIdsAreUnique(spec);
  }

  lemma FirstWorkIsRunnable(spec: Spec)
    requires |spec.taskIds| > 0
    ensures Runnable(spec, map[], Work(0))
  {
    DependenciesByKey(spec, map[], Work(0));
  }

  lemma NextIsRunnable(spec: Spec, records: Records, t: nat)
    requires t < |spec.taskIds| && Commits(spec)
    requires StatusOf(spec, records, Work(t)).Completed? && StatusOf(spec, records, SourceCommit(t)).Pending?
    ensures Runnable(spec, records, SourceCommit(t))
  {
    DependenciesByKey(spec, records, SourceCommit(t));
    assert DependsOn(spec, SourceCommit(t)) == [Work(t)];
  }

  /** A one-task batch, continuing on partial results, whose worker reports partial and whose sources are committed. */
  method CommittedPartialTask() returns (run: DriveRun)
    ensures fresh(run) && run.Valid() && run.pending.None? && Commits(run.spec) && Current(run.spec, run.records, TaskStatus(0))
    ensures run.history == [SourceFinalized(0)]
  {
    var spec := Spec(["TASK-1"], DriverCommits, None, true);
    OneTaskIsPlain(spec);
    FirstWorkIsRunnable(spec);
    run := new DriveRun(spec, 0);
    var worked := run.RunStep(Work(0), CALM);
    NextIsRunnable(spec, run.records, 0);
    var committed := run.RunStep(SourceCommit(0), CALM);
    DependenciesByKey(spec, run.records, TaskStatus(0));
    assert DependsOn(spec, TaskStatus(0)) == [SourceCommit(0)];
  }

  /** A one-task batch with a final state commit, whose worker succeeds and whose source commit git refuses. */
  method RefusedSourceCommit() returns (run: DriveRun)
    ensures fresh(run) && run.Valid() && run.spec.taskIds == ["TASK-1"] && ResolveStateCommitPolicy(run.spec).FinalStateCommit?
    ensures run.pending == Some(CommitPhase(0, run.head))
  {
    var spec := Spec(["TASK-1"], DriverCommits, None, false);
    OneTaskIsPlain(spec);
    FirstWorkIsRunnable(spec);
    run := new DriveRun(spec, 0);
    var worked := run.RunStep(Work(0), CALM.(report := Success));
    NextIsRunnable(spec, run.records, 0);
    var refused := run.RunStep(SourceCommit(0), CALM.(git := GitFails));
  }

  /**
   A batch with a final state commit whose last task needs its finalization retried is reported
   completed by the resume that manages to, without its state commit, and no later resume makes
   up for it.
   */
  method StateCommitIsNeverMadeUp(run: DriveRun, env: Env, envs: StepKey -> Env, later: nat) returns (first: SessionExit)
    requires run.Valid() && run.pending.Some? && !run.pending.value.StatePhase?
    requires ResolveStateCommitPolicy(run.spec).FinalStateCommit? && run.pending.value.task == |run.spec.taskIds| - 1
    requires TaskRetrySucceeds(run.pending.value, run.head, run.sourceDirty, env)
    modifies run
    ensures run.Valid() && first.CompletedByResume? && run.completion && run.pending.None? && run.RemainingEmpty()
    ensures StateAttempted !in run.history
  {
    first := run.Session(env, envs);
    ghost var history := run.history;
    for i := 0 to later
      invariant run.Valid() && run.pending.None? && run.completion && run.RemainingEmpty() && run.history == history
    {
      var another: Env := *;
      var again := run.Session(another, envs);
    }
  }

  /** The one-task batch ends like that: its sources are committed by hand and it is resumed. */
  method OneTaskWithoutStateCommit(later: nat) returns (run: DriveRun)
    ensures fresh(run) && run.Valid() && ResolveStateCommitPolicy(run.spec).FinalStateCommit?
    ensures run.completion && run.pending.None? && run.RemainingEmpty() && StateAttempted !in run.history
  {
    run := RefusedSourceCommit();
    run.Outside(run.nextSha, 1, false, {}, run.status);
    var first := StateCommitIsNeverMadeUp(run, CALM, _ => CALM, later);
  }
}
