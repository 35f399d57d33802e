/** What the step records of a run say once its events have been projected (lib/driver/durable-steps.ts):
    the status of every task's and every finalizer's step, told by the last event about it. */
module StepStatuses {
  import opened StepRecords
  import opened StepProjector
  import opened Wrappers

  predicate StepIs(d: Disk, s: StepId, status: Status) {
    s in d.steps && d.steps[s].status == status
  }

  /** The step's record and its attempts are as before. */
  predicate SameRecord(before: Disk, after: Disk, s: StepId) {
    Get(after.steps, s) == Get(before.steps, s) && AttemptsOf(after, s) == AttemptsOf(before, s)
  }

  // ------------------------------------------------------------------ one event

  lemma TaskUpToStatus(w: World, u: TaskUpdate, fate: Fate)
    requires fate.writes > 0
    ensures StepIs(TaskUpTo(w, u, fate).disk, TaskStep(u.task), u.status)
    ensures forall s :: s != TaskStep(u.task) ==> SameRecord(w.disk, TaskUpTo(w, u, fate).disk, s)
  {
  }

  lemma EndUpToStatus(w: World, x: End, fate: Fate)
    requires fate.writes >= 2
    ensures StepIs(EndUpTo(w, x, fate).disk, x.step, x.status)
    ensures forall s :: s != x.step ==> SameRecord(w.disk, EndUpTo(w, x, fate).disk, s)
  {
    WriteShows(w.disk, x.step, x.attempt.id, Written(x));
  }

  lemma StartUpToStatus(w: World, s: StepId, at: nat, fate: Fate)
    requires fate.writes >= 2
    ensures StepIs(StartUpTo(w, s, at, fate).disk, s, Running)
    ensures forall t :: t != s ==> SameRecord(w.disk, StartUpTo(w, s, at, fate).disk, t)
  {
    WriteShows(w.disk, s, NextAttemptId(w.disk, s), Attempt(at, None, None));
  }

  lemma SpawnUpToStatus(w: World, task: string, at: nat, fate: Fate)
    requires Whole(fate)
    ensures StepIs(SpawnUpTo(w, task, at, fate).disk, TaskStep(task), Running)
    ensures forall t :: t != TaskStep(task) ==> SameRecord(w.disk, SpawnUpTo(w, task, at, fate).disk, t)
  {
    var u := TaskUpdate(task, Running, None, None);
    TaskUpToStatus(w, u, fate);
    StartUpToStatus(AfterTask(w, u), TaskStep(task), at, Later(fate, 2));
  }

  /** The step an event is about. */
  function About(e: Event): Option<StepId> {
    match e
    case OtherEvent => None
    case Finalize(phase, task, _, _, _, _) => FinalizerStepId(phase, task)
    case FinalizationFailed(phase, task, _, _, _) => FinalizerStepId(phase, task)
    case _ => Some(TaskStep(e.task))
  }

  lemma OthersKeepStatus(w: World, e: Event, fate: Fate, s: StepId)
    requires Whole(fate) && About(e) != Some(s)
    ensures SameRecord(w.disk, Processed(w, e, fate).disk, s)
  {
    var x, u := EndOf(w, e), UpdateOf(w, e);
    if x.Some? {
      EndUpToStatus(Noted(w, x.value), x.value, fate);
    } else if u.Some? {
      TaskUpToStatus(w, u.value, fate);
    } else if e.SpawnStarted? {
      SpawnUpToStatus(w, e.task, e.at, fate);
    } else if StartsFinalizer(e) {
      StartUpToStatus(w, FinalizerStepId(e.phase, e.ofTask).value, e.at, fate);
    }
  }

  /** The event says how a task stands. A commit does not. */
  predicate Speaks(e: Event, task: string) {
    || (e.TaskStarted? && e.task == task)
    || (e.SpawnStarted? && e.task == task)
    || (e.SpawnCompleted? && e.task == task)
    || (e.SpawnFailed? && e.task == task)
    || (e.PreflightFailed? && e.task == task)
    || (e.TaskDone? && e.task == task)
    || (e.TaskBlocked? && e.task == task)
  }

  /** What such an event leaves in the record of the task's step. */
  lemma SpokenStatus(w: World, e: Event, fate: Fate)
    requires Whole(fate) && (e.TaskStarted? || e.SpawnStarted? || e.SpawnCompleted? || e.SpawnFailed?)
    ensures var after := Processed(w, e, fate).disk;
      && (e.TaskStarted? ==> StepIs(after, TaskStep(e.task), Ready))
      && (e.SpawnStarted? || e.SpawnCompleted? ==> StepIs(after, TaskStep(e.task), Running))
      && (e.SpawnFailed? ==> StepIs(after, TaskStep(e.task), FailedStep))
  {
    var x, u := EndOf(w, e), UpdateOf(w, e);
    if x.Some? {
      EndUpToStatus(Noted(w, x.value), x.value, fate);
    } else if u.Some? {
      TaskUpToStatus(w, u.value, fate);
    } else {
      SpawnUpToStatus(w, e.task, e.at, fate);
    }
  }

  lemma ConcludedStatus(w: World, e: Event, fate: Fate)
    requires fate.writes > 0 && (e.PreflightFailed? || e.TaskDone? || e.TaskBlocked?)
    ensures var after := Processed(w, e, fate).disk;
      && (e.PreflightFailed? ==>
            && StepIs(after, TaskStep(e.task), BlockedStep)
            && after.steps[TaskStep(e.task)].result == Some(StepResult(Blocked, e.reason, [], [], WaitForHuman)))
      && (e.TaskDone? ==> StepIs(after, TaskStep(e.task), Completed))
      && (e.TaskBlocked? ==> StepIs(after, TaskStep(e.task),
            if e.task in w.latest && w.latest[e.task].outcome == Failed then FailedStep else BlockedStep))
  {
    TaskUpToStatus(w, UpdateOf(w, e).value, fate);
  }

  /** A commit leaves the status of a step, and makes a step that is not there a running one. */
  lemma CommitKeepsStatus(w: World, task: string, sha: string, subject: Option<string>, fate: Fate)
    requires fate.writes > 0
    ensures StepIs(Processed(w, CommitMade(task, sha, subject), fate).disk, TaskStep(task),
                   if TaskStep(task) in w.disk.steps then w.disk.steps[TaskStep(task)].status else Running)
  {
    CommitIsUpdate(w, task, sha, subject, fate);
    TaskUpToStatus(w, CommitUpdate(w, task, sha, subject), fate);
  }

  lemma SilentKeepsStatus(w: World, e: Event, fate: Fate, task: string)
    requires Whole(fate) && !Speaks(e, task)
    ensures var after := Processed(w, e, fate).disk;
      && (TaskStep(task) in w.disk.steps ==> StepIs(after, TaskStep(task), w.disk.steps[TaskStep(task)].status))
      && (TaskStep(task) !in w.disk.steps && TaskStep(task) in after.steps ==> StepIs(after, TaskStep(task), Running))
  {
    if e.CommitMade? && e.task == task {
      CommitKeepsStatus(w, e.task, e.sha, e.subject, fate);
    } else {
      OthersKeepStatus(w, e, fate, TaskStep(task));
    }
  }

  // ------------------------------------------------------------------ finalizers

  /** A failure on record that will be retried shows in the status of its finalizer's step. */
  ghost predicate FailuresShow(d: Disk) {
    forall s: StepId :: !s.TaskStep? && RetryableFailure(d, s) ==> StepIs(d, s, FailedStep)
  }

  /** What an event of a finalizer leaves in the record of its step. */
  lemma FinalizerStatus(w: World, e: Event, fate: Fate, s: StepId)
    requires Whole(fate) && FailuresShow(w.disk) && About(e) == Some(s) && !s.TaskStep?
    ensures StepIs(Processed(w, e, fate).disk, s,
              if e.FinalizationFailed? then FailedStep
              else match e.status case Started => Running case Passed => Completed case Skipped => Completed
                                  case FinalizeFailed => FailedStep)
  {
    var x := EndOf(w, e);
    if x.Some? {
      EndUpToStatus(Noted(w, x.value), x.value, fate);
    } else if StartsFinalizer(e) {
      StartUpToStatus(w, s, e.at, fate);
    } else {
      assert e.FinalizationFailed? && RetryableFailure(w.disk, s);
    }
  }

  lemma StartedIsOpen(w: World, s: StepId, at: nat, fate: Fate)
    requires fate.writes >= 2
    ensures !RetryableFailure(StartUpTo(w, s, at, fate).disk, s)
  {
    WriteShows(w.disk, s, NextAttemptId(w.disk, s), Attempt(at, None, None));
  }

  lemma EndedIsWritten(w: World, x: End, fate: Fate)
    requires fate.writes >= 2
    ensures RetryableFailure(EndUpTo(w, x, fate).disk, x.step) <==> WillBeRetried(x.result)
  {
    WriteShows(w.disk, x.step, x.attempt.id, Written(x));
  }

  lemma FailureEndsFailed(w: World, e: Event)
    requires EndOf(w, e).Some? && !EndOf(w, e).value.step.TaskStep? && WillBeRetried(EndOf(w, e).value.result)
    ensures EndOf(w, e).value.status == FailedStep
  {
    if e.Finalize? && e.status != FinalizeFailed {
      FinishedFinalizerResult(e);
    }
  }

  lemma FailureShowsAt(w: World, e: Event, fate: Fate, s: StepId)
    requires Whole(fate) && FailuresShow(w.disk) && !s.TaskStep?
    ensures var after := Processed(w, e, fate).disk; RetryableFailure(after, s) ==> StepIs(after, s, FailedStep)
  {
    var x := EndOf(w, e);
    if About(e) != Some(s) {
      OthersKeepStatus(w, e, fate, s);
    } else if x.Some? {
      EndUpToStatus(Noted(w, x.value), x.value, fate);
      EndedIsWritten(Noted(w, x.value), x.value, fate);
      if WillBeRetried(x.value.result) {
        FailureEndsFailed(w, e);
      }
    } else if StartsFinalizer(e) {
      StartedIsOpen(w, s, e.at, fate);
    }
  }

  lemma FailuresStillShow(w: World, e: Event, fate: Fate)
    requires Whole(fate) && FailuresShow(w.disk)
    ensures FailuresShow(Processed(w, e, fate).disk)
  {
    forall s: StepId | !s.TaskStep? && RetryableFailure(Processed(w, e, fate).disk, s)
      ensures StepIs(Processed(w, e, fate).disk, s, FailedStep)
    {
      FailureShowsAt(w, e, fate, s);
    }
  }

  // ------------------------------------------------------------------ whole runs

  /** Every write of the run succeeds. Processes may be replaced between events. */
  predicate AllWritten(inputs: seq<Input>) {
    forall i :: 0 <= i < |inputs| ==> Whole(inputs[i].fate)
  }

  /** Event `k` is the last one that says how the task stands. */
  predicate LastWord(inputs: seq<Input>, task: string, k: nat) {
    k < |inputs| && Speaks(inputs[k].event, task) && forall j :: k < j < |inputs| ==> !Speaks(inputs[j].event, task)
  }

  /** What a task's step says after a run in which all writes succeed: what the last event that says how
      the task stands says. The step is completed exactly if that is `task_done`. */
  lemma {:induction false} TaskStatusOfRun(w: World, inputs: seq<Input>, task: string, k: nat)
    requires AllWritten(inputs) && LastWord(inputs, task, k)
    ensures TaskStep(task) in After(w, inputs).disk.steps
    ensures var status, e := After(w, inputs).disk.steps[TaskStep(task)].status, inputs[k].event;
      && (status == Completed <==> e.TaskDone?)
      && (status == Ready <==> e.TaskStarted?)
      && (status == Running <==> e.SpawnStarted? || e.SpawnCompleted?)
      && (e.SpawnFailed? ==> status == FailedStep)
      && (e.PreflightFailed? ==> status == BlockedStep)
      && (e.TaskBlocked? ==> status == var latest := After(w, inputs[..k]).latest;
            if task in latest && latest[task].outcome == Failed then FailedStep else BlockedStep)
  {
    var n := |inputs| - 1;
    var before := After(w, inputs[..n]);
    if k == n {
      if Concludes(inputs[n].event) {
        ConcludedStatus(before, inputs[n].event, inputs[n].fate);
      } else {
        SpokenStatus(before, inputs[n].event, inputs[n].fate);
      }
    } else {
      TaskStatusOfRun(w, inputs[..n], task, k);
      SilentKeepsStatus(before, inputs[n].event, inputs[n].fate, task);
      assert inputs[..n][..k] == inputs[..k];
    }
  }

  predicate Concludes(e: Event) {
    e.PreflightFailed? || e.TaskDone? || e.TaskBlocked?
  }

  /** A run without a word about a task completes no step of it and undoes none. */
  lemma {:induction false} SilentRun(w: World, inputs: seq<Input>, task: string)
    requires AllWritten(inputs) && forall i :: 0 <= i < |inputs| ==> !Speaks(inputs[i].event, task)
    ensures TaskStep(task) in w.disk.steps ==>
      StepIs(After(w, inputs).disk, TaskStep(task), w.disk.steps[TaskStep(task)].status)
    ensures TaskStep(task) !in w.disk.steps && TaskStep(task) in After(w, inputs).disk.steps ==>
      StepIs(After(w, inputs).disk, TaskStep(task), Running)
  {
    if inputs != [] {
      var n := |inputs| - 1;
      SilentRun(w, inputs[..n], task);
      SilentKeepsStatus(After(w, inputs[..n]), inputs[n].event, inputs[n].fate, task);
    }
  }

  /** A worker of the task has ended, or the task did not get that far. */
  predicate GivesResult(e: Event, task: string) {
    (e.SpawnCompleted? && e.task == task) || (e.SpawnFailed? && e.task == task) || (e.PreflightFailed? && e.task == task)
  }

  predicate ReportsFailedWork(e: Event) {
    e.SpawnFailed? || (e.SpawnCompleted? && e.report.outcome == Failed)
  }

  predicate RemembersFailure(w: World, task: string, failed: bool) {
    task in w.latest && (w.latest[task].outcome == Failed <==> failed)
  }

  lemma ResultIsRemembered(w: World, e: Event, fate: Fate, task: string)
    requires Whole(fate) && GivesResult(e, task)
    ensures RemembersFailure(Processed(w, e, fate), task, ReportsFailedWork(e))
  {
    var x := EndOf(w, e);
    if x.Some? {
      assert Processed(w, e, fate).latest == Noted(w, x.value).latest;
    }
  }

  lemma UpdateKeepsOutcome(w: World, e: Event, task: string, failed: bool)
    requires UpdateOf(w, e).Some? && !GivesResult(e, task) && RemembersFailure(w, task, failed)
    ensures var u := UpdateOf(w, e).value; u.task == task && u.result.Some? ==> (u.result.value.outcome == Failed <==> failed)
  {
    if e.CommitMade? {
      WithCommitMeans(DoneResult(Get(w.latest, e.task), Stored(w.disk, e.task)), e.sha, e.subject);
    }
  }

  lemma UpdateRemembers(w: World, u: TaskUpdate, fate: Fate, task: string, failed: bool)
    requires fate.writes > 0 && RemembersFailure(w, task, failed)
    requires u.task == task && u.result.Some? ==> (u.result.value.outcome == Failed <==> failed)
    ensures RemembersFailure(TaskUpTo(w, u, fate), task, failed)
  {
  }

  lemma EndRemembers(w: World, x: End, fate: Fate, task: string, failed: bool)
    requires fate.writes >= 2 && RemembersFailure(w, task, failed) && x.step != TaskStep(task)
    ensures RemembersFailure(EndUpTo(Noted(w, x), x, fate), task, failed)
  {
  }

  lemma StartRemembers(w: World, s: StepId, at: nat, fate: Fate)
    requires fate.writes >= 2
    ensures StartUpTo(w, s, at, fate).latest == w.latest
  {
  }

  lemma MemoryStays(w: World, e: Event, fate: Fate, task: string, failed: bool)
    requires Whole(fate) && !GivesResult(e, task) && RemembersFailure(w, task, failed)
    ensures RemembersFailure(Processed(w, e, fate), task, failed)
  {
    var x, u := EndOf(w, e), UpdateOf(w, e);
    if x.Some? {
      EndRemembers(w, x.value, fate, task, failed);
    } else if u.Some? {
      UpdateKeepsOutcome(w, e, task, failed);
      UpdateRemembers(w, u.value, fate, task, failed);
    } else if e.SpawnStarted? {
      StartRemembers(AfterTask(w, TaskUpdate(e.task, Running, None, None)), TaskStep(e.task), e.at, Later(fate, 2));
    } else if StartsFinalizer(e) {
      StartRemembers(w, FinalizerStepId(e.phase, e.ofTask).value, e.at, fate);
    }
  }

  lemma LastIsProcessed(w: World, inputs: seq<Input>)
    requires inputs != [] && !inputs[|inputs| - 1].restart
    ensures var n := |inputs| - 1;
      After(w, inputs) == Processed(After(w, inputs[..n]), inputs[n].event, inputs[n].fate)
  {
  }

  /** What is remembered of a task's work after some events: whether its last worker failed. */
  lemma {:induction false} MemoryOfRun(w: World, inputs: seq<Input>, task: string, j: nat)
    requires AllWritten(inputs) && j < |inputs| && GivesResult(inputs[j].event, task)
    requires forall i :: j < i < |inputs| ==> !GivesResult(inputs[i].event, task)
    requires forall i :: j <= i < |inputs| ==> !inputs[i].restart
    ensures RemembersFailure(After(w, inputs), task, ReportsFailedWork(inputs[j].event))
  {
    var n := |inputs| - 1;
    LastIsProcessed(w, inputs);
    if j == n {
      ResultIsRemembered(After(w, inputs[..n]), inputs[n].event, inputs[n].fate, task);
    } else {
      MemoryOfRun(w, inputs[..n], task, j);
      MemoryStays(After(w, inputs[..n]), inputs[n].event, inputs[n].fate, task, ReportsFailedWork(inputs[j].event));
    }
  }

  /** A blocked task's step says failed exactly if its last worker failed, as its process saw it, and
      blocked otherwise, so also if the worker was only reported as partial or as unreadable. */
  lemma BlockedTaskOfRun(w: World, inputs: seq<Input>, task: string, j: nat, k: nat)
    requires AllWritten(inputs) && LastWord(inputs, task, k) && inputs[k].event.TaskBlocked?
    requires j < k && GivesResult(inputs[j].event, task)
    requires forall i :: j < i < k ==> !GivesResult(inputs[i].event, task)
    requires forall i :: j <= i < k ==> !inputs[i].restart
    ensures var failed := inputs[j].event.SpawnFailed? || (inputs[j].event.SpawnCompleted? && inputs[j].event.report.outcome == Failed);
      StepIs(After(w, inputs).disk, TaskStep(task), if failed then FailedStep else BlockedStep)
  {
    TaskStatusOfRun(w, inputs, task, k);
    MemoryOfRun(w, inputs[..k], task, j);
  }

  /** Event `k` is the last one of the finalizer. */
  predicate LastOfFinalizer(inputs: seq<Input>, s: StepId, k: nat) {
    k < |inputs| && About(inputs[k].event) == Some(s) && forall j :: k < j < |inputs| ==> About(inputs[j].event) != Some(s)
  }

  lemma {:induction false} FailuresShowThroughout(w: World, inputs: seq<Input>)
    requires AllWritten(inputs) && FailuresShow(w.disk)
    ensures FailuresShow(After(w, inputs).disk)
  {
    if inputs != [] {
      var n := |inputs| - 1;
      FailuresShowThroughout(w, inputs[..n]);
      FailuresStillShow(After(w, inputs[..n]), inputs[n].event, inputs[n].fate);
    }
  }

  /** The same for finalizers: completed exactly if the last event is a finalizer that passed or was
      skipped, failed exactly if it reports a failure. */
  lemma {:induction false} FinalizerStatusOfRun(w: World, inputs: seq<Input>, s: StepId, k: nat)
    requires AllWritten(inputs) && FailuresShow(w.disk) && !s.TaskStep? && LastOfFinalizer(inputs, s, k)
    ensures s in After(w, inputs).disk.steps
    ensures var status, e := After(w, inputs).disk.steps[s].status, inputs[k].event;
      && (status == Completed <==> e.Finalize? && (e.status.Passed? || e.status.Skipped?))
      && (status == FailedStep <==> e.FinalizationFailed? || e.status.FinalizeFailed?)
      && (status == Running <==> e.Finalize? && e.status.Started?)
  {
    var n := |inputs| - 1;
    if k == n {
      FailuresShowThroughout(w, inputs[..n]);
      FinalizerStatus(After(w, inputs[..n]), inputs[n].event, inputs[n].fate, s);
    } else {
      FinalizerStatusOfRun(w, inputs[..n], s, k);
      OthersKeepStatus(After(w, inputs[..n]), inputs[n].event, inputs[n].fate, s);
    }
  }

  /** A task's step is there and is completed exactly if `task_done` is the last word about the task. */
  ghost predicate TasksTold(inputs: seq<Input>, d: Disk) {
    forall task: string, k: nat :: LastWord(inputs, task, k) ==>
      TaskStep(task) in d.steps && (d.steps[TaskStep(task)].status == Completed <==> inputs[k].event.TaskDone?)
  }

  /** A finalizer's step is there and is completed exactly if its last event says it passed or was skipped. */
  ghost predicate FinalizersTold(inputs: seq<Input>, d: Disk) {
    forall s: StepId, k: nat :: !s.TaskStep? && LastOfFinalizer(inputs, s, k) ==>
      s in d.steps && (d.steps[s].status == Completed <==> Finishes(inputs[k].event))
  }

  predicate Finishes(e: Event) {
    e.Finalize? && (e.status.Passed? || e.status.Skipped?)
  }

  /** The whole stream, projected. However its events are processed, attempts stay numbered without gaps
      and ended ones stay as they are under the exact condition; if all writes succeed, a task's step is
      completed exactly if the last event that says how the task stands is `task_done`. */
  method ProjectAll(before: Disk, inputs: seq<Input>) returns (after: Disk)
    requires Contiguous(before)
    ensures var w := World(before, map[], map[]);
      && after == After(w, inputs).disk && Contiguous(after)
      && (NeverRewrites(w, inputs) || StopsAfterLoss(w, inputs) ==> EndedKept(before, after))
    ensures AllWritten(inputs) ==> TasksTold(inputs, after) && (FailuresShow(before) ==> FinalizersTold(inputs, after))
  {
    var projector := new Projector(before);
    ghost var w := World(before, map[], map[]);
    var i := 0;
    while i < |inputs|
      invariant 0 <= i <= |inputs| && fresh(projector)
      invariant projector.Now() == After(w, inputs[..i])
    {
      AfterOneMore(w, inputs, i);
      AfterIsSound(w, inputs[..i]);
      projector.Project(inputs[i].event, inputs[i].fate);
      if inputs[i].restart {
        projector.Restart();
      }
      i := i + 1;
    }
    assert inputs[..i] == inputs;
    after := projector.disk;
    AfterIsSound(w, inputs);
    if NeverRewrites(w, inputs) || StopsAfterLoss(w, inputs) {
      KeptIfSafe(w, inputs);
    }
    if AllWritten(inputs) {
      RunIsTold(w, inputs);
    }
  }

  lemma RunIsTold(w: World, inputs: seq<Input>)
    requires AllWritten(inputs)
    ensures TasksTold(inputs, After(w, inputs).disk)
    ensures FailuresShow(w.disk) ==> FinalizersTold(inputs, After(w, inputs).disk)
  {
    var d := After(w, inputs).disk;
    forall task, k: nat | LastWord(inputs, task, k)
      ensures TaskStep(task) in d.steps && (d.steps[TaskStep(task)].status == Completed <==> inputs[k].event.TaskDone?)
    {
      TaskStatusOfRun(w, inputs, task, k);
    }
    if FailuresShow(w.disk) {
      forall s: StepId, k: nat | !s.TaskStep? && LastOfFinalizer(inputs, s, k)
        ensures s in d.steps && (d.steps[s].status == Completed <==> Finishes(inputs[k].event))
      {
        FinalizerStatusOfRun(w, inputs, s, k);
      }
    }
  }
}
