/** How driver events become step and attempt records (lib/driver/durable-steps.ts).

    The projector keeps the open attempts and the latest results in memory and everything else in
    files. Its process may end between any two file writes and another one take over, or a write may
    fail and the error be swallowed, so what it remembers must not matter. */
module StepProjector {
  import opened StepRecords
  import opened Wrappers

  // ------------------------------------------------------------------ what an event does

  /** The files and what a projector remembers. */
  datatype World = World(disk: Disk, active: map<StepId, Active>, latest: map<string, StepResult>)

  /** The same files, but a projector that has just been started. */
  function Restarted(w: World): World {
    World(w.disk, map[], map[])
  }

  /** How far the processing of an event gets: after `writes` file writes it fails, either because the
      process ends or because a write throws; the sink swallows that error and goes on. */
  datatype Fate = Fate(writes: nat, dies: bool)

  /** No event takes more writes than this. */
  const WHOLE := Fate(4, false)

  predicate Whole(fate: Fate) {
    fate.writes >= 4
  }

  /** The fate that is left after some writes. */
  function Later(fate: Fate, writes: nat): Fate
    requires fate.writes >= writes
  {
    fate.(writes := fate.writes - writes)
  }

  /** What is left when a write fails in this world. */
  function Stopped(w: World, fate: Fate): World {
    if fate.dies then Restarted(w) else w
  }

  /** The start of an attempt: it is remembered, then written, then named by its step. */
  function Opening(w: World, s: StepId, at: nat): World {
    w.(active := w.active[s := Active(NextAttemptId(w.disk, s), at)])
  }

  function Opened(w: World, s: StepId, at: nat): World {
    Opening(w, s, at).(disk := WriteAttempt(w.disk, s, NextAttemptId(w.disk, s), Attempt(at, None, None)))
  }

  function AfterStart(w: World, s: StepId, at: nat): World {
    var u := Updates(Some(Running), Some(NextAttemptId(w.disk, s)), None, None);
    Opened(w, s, at).(disk := UpsertStep(Opened(w, s, at).disk, s, u))
  }

  function StartUpTo(w: World, s: StepId, at: nat, fate: Fate): World {
    if fate.writes == 0 then Stopped(Opening(w, s, at), fate)
    else if fate.writes == 1 then Stopped(Opened(w, s, at), fate)
    else AfterStart(w, s, at)
  }

  /** The end of an attempt: it is written, then its step, and then it is forgotten. */
  datatype End = End(step: StepId, attempt: Active, at: nat, status: Status, result: StepResult)

  function Written(x: End): Attempt {
    Attempt(x.attempt.startedAt, Some(x.at), Some(x.result))
  }

  function Forget(active: map<StepId, Active>, s: StepId): map<StepId, Active> {
    map t | t in active && t != s :: active[t]
  }

  /** A spawned worker's end is remembered before anything is written. */
  function Noted(w: World, x: End): World {
    if x.step.TaskStep? then w.(active := w.active[x.step := x.attempt], latest := w.latest[x.step.task := x.result]) else w
  }

  function AttemptEnded(w: World, x: End): World {
    w.(disk := WriteAttempt(w.disk, x.step, x.attempt.id, Written(x)))
  }

  function AfterEnd(w: World, x: End): World {
    var u := Updates(Some(x.status), Some(x.attempt.id), Some(x.result.artifacts), Some(x.result));
    World(UpsertStep(AttemptEnded(w, x).disk, x.step, u), Forget(w.active, x.step), w.latest)
  }

  function EndUpTo(w: World, x: End, fate: Fate): World {
    if fate.writes == 0 then Stopped(w, fate)
    else if fate.writes == 1 then Stopped(AttemptEnded(w, x), fate)
    else AfterEnd(w, x)
  }

  /** A new state of a task's step, and a result to remember for the task if there is one. */
  datatype TaskUpdate = TaskUpdate(task: string, status: Status, artifacts: Option<seq<Artifact>>, result: Option<StepResult>)

  function ResultNoted(w: World, u: TaskUpdate): World {
    if u.result.Some? then w.(latest := w.latest[u.task := u.result.value]) else w
  }

  function AfterTask(w: World, u: TaskUpdate): World {
    ResultNoted(w, u).(disk := UpsertStep(w.disk, TaskStep(u.task), Updates(Some(u.status), None, u.artifacts, u.result)))
  }

  function TaskUpTo(w: World, u: TaskUpdate, fate: Fate): World {
    if fate.writes == 0 then Stopped(ResultNoted(w, u), fate) else AfterTask(w, u)
  }

  function SpawnEnd(w: World, task: string, at: nat, status: Status, report: Report): End {
    var a := ActiveFor(w.disk, w.active, TaskStep(task), at);
    End(TaskStep(task), a, at, status, ReportResult(task, a.id, report))
  }

  /** The attempt that an event ends, if it ends one. A failure that the latest attempt already records is
      not recorded again. */
  function EndOf(w: World, e: Event): Option<End> {
    match e
    case SpawnCompleted(task, report, at) => Some(SpawnEnd(w, task, at, Running, report))
    case SpawnFailed(task, error, at) => Some(SpawnEnd(w, task, at, FailedStep, Report(Failed, error)))
    case Finalize(phase, task, status, _, _, at) =>
      var id := FinalizerStepId(phase, task);
      if id.None? || status == Started then None
      else Some(FinalizeEnd(w, e, id.value))
    case FinalizationFailed(phase, task, _, _, at) =>
      var id := FinalizerStepId(phase, task);
      if id.None? || (id.value !in w.active && RetryableFailure(w.disk, id.value)) then None
      else Some(FailureEnd(w, e, id.value))
    case _ => None
  }

  function CommitUpdate(w: World, task: string, sha: string, subject: Option<string>): TaskUpdate {
    var existing := Get(w.disk.steps, TaskStep(task));
    TaskUpdate(task, if existing.Some? then existing.value.status else Running,
               Some(Unique((if existing.Some? then existing.value.artifacts else []) + [CommitArtifact(sha, subject)])),
               Some(WithCommit(DoneResult(Get(w.latest, task), Stored(w.disk, task)), sha, subject)))
  }

  /** The update of a task's step that an event makes, if it makes one and nothing else. */
  function UpdateOf(w: World, e: Event): Option<TaskUpdate> {
    match e
    case TaskStarted(task) => Some(TaskUpdate(task, Ready, None, None))
    case PreflightFailed(task, reason) =>
      Some(TaskUpdate(task, BlockedStep, None, Some(StepResult(Blocked, reason, [], [], WaitForHuman))))
    case TaskDone(task) =>
      Some(TaskUpdate(task, Completed, None, Some(DoneResult(Get(w.latest, task), Stored(w.disk, task)))))
    case TaskBlocked(task, progress, reason) =>
      var result := BlockedResult(Get(w.latest, task), progress, reason);
      Some(TaskUpdate(task, if result.outcome == Failed then FailedStep else BlockedStep, None, Some(result)))
    case CommitMade(task, sha, subject) => Some(CommitUpdate(w, task, sha, subject))
    case _ => None
  }

  /** The start of a spawned worker: its step, a diagnostic, then the start of its attempt. */
  function SpawnUpTo(w: World, task: string, at: nat, fate: Fate): World {
    var u := TaskUpdate(task, Running, None, None);
    if fate.writes == 0 then TaskUpTo(w, u, fate)
    else if fate.writes == 1 then Stopped(AfterTask(w, u), fate)
    else StartUpTo(AfterTask(w, u), TaskStep(task), at, Later(fate, 2))
  }

  predicate StartsFinalizer(e: Event) {
    e.Finalize? && e.status == Started && FinalizerStepId(e.phase, e.ofTask).Some?
  }

  /** What processing an event up to its fate does. */
  function Processed(w: World, e: Event, fate: Fate): World {
    var x, u := EndOf(w, e), UpdateOf(w, e);
    if x.Some? then EndUpTo(Noted(w, x.value), x.value, fate)
    else if u.Some? then TaskUpTo(w, u.value, fate)
    else if e.SpawnStarted? then SpawnUpTo(w, e.task, e.at, fate)
    else if StartsFinalizer(e) then
      StartUpTo(w, FinalizerStepId(e.phase, e.ofTask).value, e.at, fate)
    else w
  }

  /** What an event does if nothing fails. */
  function Projected(w: World, e: Event): World {
    Processed(w, e, WHOLE)
  }

  lemma ProcessedEnd(w: World, e: Event, x: End, fate: Fate)
    requires EndOf(w, e) == Some(x)
    ensures Processed(w, e, fate) == EndUpTo(Noted(w, x), x, fate)
  {
  }

  lemma ProcessedUpdate(w: World, e: Event, u: TaskUpdate, fate: Fate)
    requires EndOf(w, e).None? && UpdateOf(w, e) == Some(u)
    ensures Processed(w, e, fate) == TaskUpTo(w, u, fate)
  {
  }

  lemma ProcessedStart(w: World, e: Event, s: StepId, fate: Fate)
    requires StartsFinalizer(e) && FinalizerStepId(e.phase, e.ofTask) == Some(s)
    ensures Processed(w, e, fate) == StartUpTo(w, s, e.at, fate)
  {
  }

  function FinalizeEnd(w: World, e: Event, s: StepId): End
    requires e.Finalize?
  {
    End(s, ActiveFor(w.disk, w.active, s, e.at), e.at, EndStatus(e), FinalizerResult(e))
  }

  function FailureEnd(w: World, e: Event, s: StepId): End
    requires e.FinalizationFailed?
  {
    End(s, ActiveFor(w.disk, w.active, s, e.at), e.at, FailedStep, RetryableFailureResult(e))
  }

  lemma FinalizeEnds(w: World, e: Event, s: StepId)
    requires e.Finalize? && e.status != Started && FinalizerStepId(e.phase, e.ofTask) == Some(s)
    ensures EndOf(w, e) == Some(FinalizeEnd(w, e, s))
    ensures !s.TaskStep?
  {
  }

  lemma ProcessedFinish(w: World, e: Event, s: StepId, fate: Fate)
    requires e.Finalize? && e.status != Started && FinalizerStepId(e.phase, e.ofTask) == Some(s)
    ensures Processed(w, e, fate) == EndUpTo(w, FinalizeEnd(w, e, s), fate)
  {
    FinalizeEnds(w, e, s);
    ProcessedEnd(w, e, FinalizeEnd(w, e, s), fate);
  }

  // ------------------------------------------------------------------ attempt numbers

  /** No attempt is remembered that is beyond the next one. */
  ghost predicate InRange(d: Disk, active: map<StepId, Active>) {
    forall s :: s in active ==> 1 <= active[s].id <= NextAttemptId(d, s)
  }

  ghost predicate Sound(w: World) {
    Contiguous(w.disk) && InRange(w.disk, w.active)
  }

  lemma WriteShows(d: Disk, s: StepId, id: nat, a: Attempt)
    ensures forall t :: AttemptsOf(WriteAttempt(d, s, id, a), t) == if t == s then AttemptsOf(d, s)[id := a] else AttemptsOf(d, t)
  {
  }

  lemma NextIsNew(d: Disk, s: StepId)
    requires NumberedFromOne(AttemptsOf(d, s))
    ensures NextAttemptId(d, s) !in AttemptsOf(d, s)
  {
    assert NextAttemptId(d, s) !in OneTo(|AttemptsOf(d, s)|);
  }

  /** Writing an attempt that is not beyond the next one leaves no step with fewer attempts. */
  lemma WriteKeepsRange(d: Disk, s: StepId, id: nat, a: Attempt, active: map<StepId, Active>)
    requires Contiguous(d) && 1 <= id <= NextAttemptId(d, s) && InRange(d, active)
    ensures InRange(WriteAttempt(d, s, id, a), active)
    ensures id <= NextAttemptId(WriteAttempt(d, s, id, a), s)
  {
    PutKeepsNumbers(AttemptsOf(d, s), id, a);
    WriteShows(d, s, id, a);
    forall t | t in active ensures active[t].id <= NextAttemptId(WriteAttempt(d, s, id, a), t) {
    }
  }

  /** The attempt an event belongs to is there or the next one; if it is not remembered it may be written. */
  lemma ActiveIsInRange(w: World, s: StepId, at: nat)
    requires Sound(w)
    ensures 1 <= ActiveFor(w.disk, w.active, s, at).id <= NextAttemptId(w.disk, s)
    ensures s !in w.active ==> Writable(w.disk, s, ActiveFor(w.disk, w.active, s, at).id)
  {
    NextIsNew(w.disk, s);
    var a := ActiveFor(w.disk, w.active, s, at);
    if a.id in AttemptsOf(w.disk, s) {
      assert a.id in OneTo(|AttemptsOf(w.disk, s)|);
    }
  }

  lemma OpeningIsSound(w: World, s: StepId, at: nat)
    requires Sound(w)
    ensures Sound(Opening(w, s, at)) && Sound(Opened(w, s, at)) && EndedKept(w.disk, Opened(w, s, at).disk)
  {
    var id, a := NextAttemptId(w.disk, s), Attempt(at, None, None);
    NextIsNew(w.disk, s);
    WriteKeepsContiguous(w.disk, s, id, a);
    WriteKeepsRange(w.disk, s, id, a, Opening(w, s, at).active);
  }

  /** Every attempt that is remembered as open may still be written. */
  ghost predicate AllWritable(w: World) {
    forall s :: s in w.active ==> Writable(w.disk, s, w.active[s].id)
  }

  lemma SameAttempts(w: World, v: World)
    requires v.disk.attempts == w.disk.attempts && v.active == w.active
    ensures Sound(w) ==> Sound(v)
    ensures AllWritable(w) ==> AllWritable(v)
  {
    assert forall s :: AttemptsOf(v.disk, s) == AttemptsOf(w.disk, s);
  }

  lemma StoppedIsSound(w: World, fate: Fate)
    requires Sound(w)
    ensures Sound(Stopped(w, fate)) && Stopped(w, fate).disk == w.disk
  {
  }

  lemma StartIsSound(w: World, s: StepId, at: nat, fate: Fate)
    requires Sound(w)
    ensures Sound(StartUpTo(w, s, at, fate)) && EndedKept(w.disk, StartUpTo(w, s, at, fate).disk)
  {
    OpeningIsSound(w, s, at);
    if fate.writes == 0 {
      StoppedIsSound(Opening(w, s, at), fate);
    } else if fate.writes == 1 {
      StoppedIsSound(Opened(w, s, at), fate);
    } else {
      SameAttempts(Opened(w, s, at), AfterStart(w, s, at));
    }
  }

  lemma TaskIsSound(w: World, u: TaskUpdate, fate: Fate)
    requires Sound(w)
    ensures Sound(TaskUpTo(w, u, fate)) && TaskUpTo(w, u, fate).disk.attempts == w.disk.attempts
  {
  }

  lemma SpawnIsSound(w: World, task: string, at: nat, fate: Fate)
    requires Sound(w)
    ensures Sound(SpawnUpTo(w, task, at, fate)) && EndedKept(w.disk, SpawnUpTo(w, task, at, fate).disk)
  {
    var u := TaskUpdate(task, Running, None, None);
    TaskIsSound(w, u, WHOLE);
    TaskIsSound(w, u, fate);
    if fate.writes >= 2 {
      StartIsSound(AfterTask(w, u), TaskStep(task), at, Later(fate, 2));
    }
  }

  lemma EndIsSound(w: World, x: End, fate: Fate)
    requires Sound(w) && 1 <= x.attempt.id <= NextAttemptId(w.disk, x.step)
    ensures Sound(EndUpTo(w, x, fate))
  {
    WriteKeepsContiguous(w.disk, x.step, x.attempt.id, Written(x));
    WriteKeepsRange(w.disk, x.step, x.attempt.id, Written(x), w.active);
  }

  lemma EndBelongs(w: World, e: Event)
    requires EndOf(w, e).Some?
    ensures EndOf(w, e).value.attempt == ActiveFor(w.disk, w.active, EndOf(w, e).value.step, EndOf(w, e).value.at)
  {
  }

  lemma NotedIsSound(w: World, x: End)
    requires Sound(w) && 1 <= x.attempt.id <= NextAttemptId(w.disk, x.step)
    ensures Sound(Noted(w, x))
  {
  }

  lemma EndIsInRange(w: World, e: Event)
    requires Sound(w) && EndOf(w, e).Some?
    ensures var x := EndOf(w, e).value;
      && x.attempt == ActiveFor(w.disk, w.active, x.step, x.at)
      && 1 <= x.attempt.id <= NextAttemptId(w.disk, x.step) && Sound(Noted(w, x))
      && (x.step !in w.active ==> Writable(w.disk, x.step, x.attempt.id))
  {
    var x := EndOf(w, e).value;
    EndBelongs(w, e);
    ActiveIsInRange(w, x.step, x.at);
    NotedIsSound(w, x);
  }

  lemma EndEventIsSound(w: World, e: Event, fate: Fate)
    requires Sound(w) && EndOf(w, e).Some?
    ensures Sound(EndUpTo(Noted(w, EndOf(w, e).value), EndOf(w, e).value, fate))
  {
    EndIsInRange(w, e);
    EndIsSound(Noted(w, EndOf(w, e).value), EndOf(w, e).value, fate);
  }

  /** Attempt numbers have no gaps, wherever the processing of an event stops. */
  lemma ProcessedIsSound(w: World, e: Event, fate: Fate)
    requires Sound(w)
    ensures Sound(Processed(w, e, fate))
  {
    var u := UpdateOf(w, e);
    if EndOf(w, e).Some? {
      EndEventIsSound(w, e, fate);
    } else if u.Some? {
      TaskIsSound(w, u.value, fate);
    } else if e.SpawnStarted? {
      SpawnIsSound(w, e.task, e.at, fate);
    } else if StartsFinalizer(e) {
      StartIsSound(w, FinalizerStepId(e.phase, e.ofTask).value, e.at, fate);
    }
  }

  // ------------------------------------------------------------------ ended attempts

  /** The event ends an attempt that is remembered as open although it has ended, and ends it differently. */
  predicate Overwrites(w: World, e: Event) {
    var x := EndOf(w, e);
    x.Some? && x.value.step in w.active &&
    var attempts, id := AttemptsOf(w.disk, x.value.step), x.value.attempt.id;
    id in attempts && Ended(attempts[id]) && attempts[id] != Written(x.value)
  }

  lemma EndKeepsIff(w: World, x: End, fate: Fate)
    requires x.attempt.id in AttemptsOf(w.disk, x.step) ==> x.step in w.disk.attempts
    ensures EndedKept(w.disk, EndUpTo(w, x, fate).disk) <==>
      (fate.writes > 0 && x.attempt.id in AttemptsOf(w.disk, x.step) && Ended(AttemptsOf(w.disk, x.step)[x.attempt.id]) ==>
        AttemptsOf(w.disk, x.step)[x.attempt.id] == Written(x))
  {
    var before, after := w.disk, WriteAttempt(w.disk, x.step, x.attempt.id, Written(x));
    WriteShows(before, x.step, x.attempt.id, Written(x));
    assert after.attempts[x.step] == AttemptsOf(before, x.step)[x.attempt.id := Written(x)];
    if x.attempt.id in AttemptsOf(before, x.step) && EndedKept(before, after) {
      assert Kept(before.attempts[x.step], after.attempts[x.step]);
    }
  }

  lemma EndEventKeepsIff(w: World, e: Event, fate: Fate)
    requires Sound(w) && EndOf(w, e).Some?
    ensures EndedKept(w.disk, EndUpTo(Noted(w, EndOf(w, e).value), EndOf(w, e).value, fate).disk) <==>
      fate.writes == 0 || !Overwrites(w, e)
  {
    var x := EndOf(w, e).value;
    EndIsInRange(w, e);
    EndKeepsIff(Noted(w, x), x, fate);
  }

  /** Exactly when an event changes no ended attempt: unless it overwrites one and gets to its first write. */
  lemma KeepsEndedIff(w: World, e: Event, fate: Fate)
    requires Sound(w)
    ensures EndedKept(w.disk, Processed(w, e, fate).disk) <==> fate.writes == 0 || !Overwrites(w, e)
  {
    var u := UpdateOf(w, e);
    if EndOf(w, e).Some? {
      EndEventKeepsIff(w, e, fate);
    } else if u.Some? {
      TaskIsSound(w, u.value, fate);
    } else if e.SpawnStarted? {
      SpawnIsSound(w, e.task, e.at, fate);
    } else if StartsFinalizer(e) {
      StartIsSound(w, FinalizerStepId(e.phase, e.ofTask).value, e.at, fate);
    }
  }

  /** The end of a remembered attempt is written, its step is not, and the process goes on. */
  predicate LosesStep(w: World, e: Event, fate: Fate) {
    var x := EndOf(w, e);
    x.Some? && fate == Fate(1, false) && (x.value.step.TaskStep? || x.value.step in w.active)
  }

  lemma OpeningStaysWritable(w: World, s: StepId, at: nat)
    requires Sound(w) && AllWritable(w)
    ensures AllWritable(Opening(w, s, at))
  {
    NextIsNew(w.disk, s);
  }

  lemma OpenedStaysWritable(w: World, s: StepId, at: nat)
    requires Sound(w) && AllWritable(w)
    ensures AllWritable(Opened(w, s, at))
  {
    WriteShows(w.disk, s, NextAttemptId(w.disk, s), Attempt(at, None, None));
  }

  lemma StartStaysWritable(w: World, s: StepId, at: nat, fate: Fate)
    requires Sound(w) && AllWritable(w)
    ensures AllWritable(StartUpTo(w, s, at, fate))
  {
    OpeningStaysWritable(w, s, at);
    OpenedStaysWritable(w, s, at);
    SameAttempts(Opened(w, s, at), AfterStart(w, s, at));
  }

  lemma EndStaysWritable(w: World, x: End, fate: Fate)
    requires AllWritable(w) && (fate == Fate(1, false) ==> x.step !in w.active)
    ensures AllWritable(EndUpTo(w, x, fate))
  {
    WriteShows(w.disk, x.step, x.attempt.id, Written(x));
  }

  lemma TaskStaysWritable(w: World, u: TaskUpdate, fate: Fate)
    requires AllWritable(w)
    ensures AllWritable(TaskUpTo(w, u, fate))
  {
  }

  lemma SpawnStaysWritable(w: World, task: string, at: nat, fate: Fate)
    requires Sound(w) && AllWritable(w)
    ensures AllWritable(SpawnUpTo(w, task, at, fate))
  {
    var u := TaskUpdate(task, Running, None, None);
    TaskStaysWritable(w, u, WHOLE);
    TaskStaysWritable(w, u, fate);
    TaskIsSound(w, u, WHOLE);
    if fate.writes >= 2 {
      StartStaysWritable(AfterTask(w, u), TaskStep(task), at, Later(fate, 2));
    }
  }

  lemma EndEventStaysWritable(w: World, e: Event, fate: Fate)
    requires Sound(w) && AllWritable(w) && EndOf(w, e).Some? && !LosesStep(w, e, fate)
    ensures AllWritable(EndUpTo(Noted(w, EndOf(w, e).value), EndOf(w, e).value, fate))
  {
    var x := EndOf(w, e).value;
    EndIsInRange(w, e);
    EndStaysWritable(Noted(w, x), x, fate);
  }

  lemma StaysWritable(w: World, e: Event, fate: Fate)
    requires Sound(w) && AllWritable(w) && !LosesStep(w, e, fate)
    ensures AllWritable(Processed(w, e, fate))
  {
    var u := UpdateOf(w, e);
    if EndOf(w, e).Some? {
      EndEventStaysWritable(w, e, fate);
    } else if u.Some? {
      TaskStaysWritable(w, u.value, fate);
    } else if e.SpawnStarted? {
      SpawnStaysWritable(w, e.task, e.at, fate);
    } else if StartsFinalizer(e) {
      StartStaysWritable(w, FinalizerStepId(e.phase, e.ofTask).value, e.at, fate);
    }
  }

  lemma WritableIsNotOverwritten(w: World, e: Event)
    requires AllWritable(w)
    ensures !Overwrites(w, e)
  {
  }

  /** The same end, reported once more a little later. */
  function Again(e: Event): Event
    requires e.SpawnCompleted? || e.SpawnFailed? || e.Finalize? || e.FinalizationFailed?
  {
    e.(at := e.at + 1)
  }

  predicate SameEndLater(x: End, y: Option<End>) {
    y.Some? && y.value.step == x.step && y.value.attempt == x.attempt && y.value.at == x.at + 1
  }

  lemma AgainEndsWorker(w: World, e: Event, after: World)
    requires e.SpawnCompleted? || e.SpawnFailed?
    requires TaskStep(e.task) in after.active
    requires after.active[TaskStep(e.task)] == ActiveFor(w.disk, w.active, TaskStep(e.task), e.at)
    ensures SameEndLater(EndOf(w, e).value, EndOf(after, Again(e)))
  {
  }

  lemma AgainEndsFinalizer(w: World, e: Event, after: World)
    requires e.Finalize? && EndOf(w, e).Some? && EndOf(w, e).value.step in after.active
    requires after.active[EndOf(w, e).value.step] == EndOf(w, e).value.attempt
    ensures SameEndLater(EndOf(w, e).value, EndOf(after, Again(e)))
  {
  }

  lemma AgainEndsFailure(w: World, e: Event, s: StepId, after: World)
    requires ReportsFailure(e, s) && s in after.active && EndOf(w, e).Some?
    requires after.active[s] == EndOf(w, e).value.attempt
    ensures SameEndLater(EndOf(w, e).value, EndOf(after, Again(e)))
  {
    ReportEnds(w, e, s);
    FollowingEventEnds(after, Again(e), s);
  }

  lemma LostStepIsOverwritten(w: World, e: Event)
    requires Sound(w) && LosesStep(w, e, Fate(1, false))
    ensures Overwrites(Processed(w, e, Fate(1, false)), Again(e))
  {
    var x := EndOf(w, e).value;
    var after := AttemptEnded(Noted(w, x), x);
    EndIsInRange(w, e);
    assert Processed(w, e, Fate(1, false)) == after;
    assert AttemptsOf(after.disk, x.step)[x.attempt.id] == Written(x);
    if e.Finalize? {
      AgainEndsFinalizer(w, e, after);
    } else if e.FinalizationFailed? {
      AgainEndsFailure(w, e, x.step, after);
    } else {
      AgainEndsWorker(w, e, after);
    }
  }

  /** Exactly when an event and its fate put an ended attempt in danger, so that some later event overwrites
      it: if the attempt's end is written, its step's is not, the error is swallowed and the attempt stays
      remembered. Every other swallowed error is harmless. */
  lemma InDangerIff(w: World, e: Event, fate: Fate)
    requires Sound(w) && AllWritable(w)
    ensures (exists later :: Overwrites(Processed(w, e, fate), later)) <==> LosesStep(w, e, fate)
  {
    if LosesStep(w, e, fate) {
      LostStepIsOverwritten(w, e);
    } else {
      StaysWritable(w, e, fate);
      forall later ensures !Overwrites(Processed(w, e, fate), later) {
        WritableIsNotOverwritten(Processed(w, e, fate), later);
      }
    }
  }

  // ------------------------------------------------------------------ restarts

  /** What a projector remembers is what the files say: nothing was swallowed that left them behind. */
  ghost predicate InStep(w: World) {
    ActiveOpen(w.disk, w.active) && LatestIs(w.disk, w.active) && Agrees(w.disk, w.latest)
  }

  lemma RestartedIsInStep(w: World)
    ensures InStep(Restarted(w))
  {
  }

  lemma OpenedStaysOpen(w: World, s: StepId, at: nat)
    requires Sound(w) && ActiveOpen(w.disk, w.active)
    ensures ActiveOpen(AfterStart(w, s, at).disk, AfterStart(w, s, at).active)
  {
    NextIsNew(w.disk, s);
    WriteShows(w.disk, s, NextAttemptId(w.disk, s), Attempt(at, None, None));
    assert AfterStart(w, s, at).disk.attempts == Opened(w, s, at).disk.attempts;
  }

  lemma OpenedIsLatest(w: World, s: StepId, at: nat)
    requires Sound(w) && LatestIs(w.disk, w.active)
    ensures LatestIs(AfterStart(w, s, at).disk, AfterStart(w, s, at).active)
  {
    var d := AfterStart(w, s, at).disk;
    WriteShows(w.disk, s, NextAttemptId(w.disk, s), Attempt(at, None, None));
    assert d.attempts == Opened(w, s, at).disk.attempts;
    assert d.steps[s].latestAttempt == Some(NextAttemptId(w.disk, s));
    forall t | t in AfterStart(w, s, at).active && t != s ensures LatestIsFor(d, t, w.active[t]) {
      assert LatestIsFor(w.disk, t, w.active[t]);
      assert d.steps[t] == w.disk.steps[t];
    }
  }

  lemma OpenedStillAgrees(w: World, s: StepId, at: nat)
    requires Agrees(w.disk, w.latest)
    ensures Agrees(AfterStart(w, s, at).disk, w.latest)
  {
  }

  lemma StartStaysInStep(w: World, s: StepId, at: nat)
    requires Sound(w) && InStep(w)
    ensures InStep(AfterStart(w, s, at))
  {
    OpenedStaysOpen(w, s, at);
    OpenedIsLatest(w, s, at);
    OpenedStillAgrees(w, s, at);
  }

  lemma TaskStaysInStep(w: World, u: TaskUpdate)
    requires InStep(w)
    ensures InStep(AfterTask(w, u))
  {
  }

  lemma EndStaysInStep(w: World, x: End)
    requires InStep(w) && !x.step.TaskStep?
    ensures InStep(AfterEnd(w, x))
  {
    WriteShows(w.disk, x.step, x.attempt.id, Written(x));
  }

  lemma SpawnEndStaysInStep(w: World, x: End)
    requires InStep(w) && x.step.TaskStep?
    ensures InStep(AfterEnd(Noted(w, x), x))
  {
    WriteShows(w.disk, x.step, x.attempt.id, Written(x));
  }

  lemma EndEventStaysInStep(w: World, x: End, fate: Fate)
    requires InStep(w) && (Whole(fate) || fate.dies)
    ensures InStep(EndUpTo(Noted(w, x), x, fate))
  {
    if fate.writes >= 2 {
      if x.step.TaskStep? {
        SpawnEndStaysInStep(w, x);
      } else {
        EndStaysInStep(w, x);
      }
    }
  }

  lemma TaskEventStaysInStep(w: World, u: TaskUpdate, fate: Fate)
    requires InStep(w) && (Whole(fate) || fate.dies)
    ensures InStep(TaskUpTo(w, u, fate))
  {
    if fate.writes >= 1 {
      TaskStaysInStep(w, u);
    }
  }

  lemma StartEventStaysInStep(w: World, s: StepId, at: nat, fate: Fate)
    requires Sound(w) && InStep(w) && (fate.writes >= 2 || fate.dies)
    ensures InStep(StartUpTo(w, s, at, fate))
  {
    if fate.writes >= 2 {
      StartStaysInStep(w, s, at);
    }
  }

  lemma SpawnStaysInStep(w: World, task: string, at: nat, fate: Fate)
    requires Sound(w) && InStep(w) && (Whole(fate) || fate.dies)
    ensures InStep(SpawnUpTo(w, task, at, fate))
  {
    var u := TaskUpdate(task, Running, None, None);
    if fate.writes >= 2 {
      TaskStaysInStep(w, u);
      TaskIsSound(w, u, WHOLE);
      StartEventStaysInStep(AfterTask(w, u), TaskStep(task), at, Later(fate, 2));
    }
  }

  /** An event keeps memory and files in step if its writes succeed or its process ends. */
  lemma StaysInStep(w: World, e: Event, fate: Fate)
    requires Sound(w) && InStep(w) && (Whole(fate) || fate.dies)
    ensures InStep(Processed(w, e, fate))
  {
    var x, u := EndOf(w, e), UpdateOf(w, e);
    if x.Some? {
      EndEventStaysInStep(w, x.value, fate);
    } else if u.Some? {
      TaskEventStaysInStep(w, u.value, fate);
    } else if e.SpawnStarted? {
      SpawnStaysInStep(w, e.task, e.at, fate);
    } else if StartsFinalizer(e) {
      StartEventStaysInStep(w, FinalizerStepId(e.phase, e.ofTask).value, e.at, fate);
    }
  }

  /** The event does not depend on what the projector remembers: a worker's end if its start is not
      remembered, a blocked task if no unsuccessful result is remembered that it does not state. */
  predicate RestartSafe(w: World, e: Event) {
    match e
    case SpawnCompleted(task, _, _) => TaskStep(task) !in w.active
    case SpawnFailed(task, _, _) => TaskStep(task) !in w.active
    case TaskBlocked(task, progress, reason) =>
      task in w.latest && w.latest[task].outcome != Success ==>
        w.latest[task] == StepResult(if progress then Partial else Blocked, reason, [], [], WaitForHuman)
    case _ => true
  }

  lemma FinalizerActiveIsFound(w: World, s: StepId, at: nat)
    requires InStep(w) && !s.TaskStep?
    ensures ActiveFor(w.disk, w.active, s, at) == ActiveFor(w.disk, map[], s, at)
    ensures s in w.active ==> !RetryableFailure(w.disk, s)
  {
  }

  lemma FinalizerEndIsFound(w: World, e: Event)
    requires (e.Finalize? || e.FinalizationFailed?) && InStep(w)
    ensures EndOf(w, e) == EndOf(Restarted(w), e)
  {
    var id := FinalizerStepId(e.phase, e.ofTask);
    if id.Some? {
      FinalizerActiveIsFound(w, id.value, e.at);
    }
  }

  lemma EndsSurvive(w: World, e: Event)
    requires EndOf(w, e).Some? && EndOf(w, e) == EndOf(Restarted(w), e)
    ensures Projected(w, e).disk == Projected(Restarted(w), e).disk
  {
  }

  lemma NothingEnded(w: World, e: Event)
    requires (e.Finalize? || e.FinalizationFailed?) && EndOf(w, e).None? && EndOf(Restarted(w), e).None?
    ensures Projected(w, e).disk == Projected(Restarted(w), e).disk
  {
  }

  /** After a restart a finalizer's event finds the open attempt again. */
  lemma FinalizerEventsSurvive(w: World, e: Event)
    requires (e.Finalize? || e.FinalizationFailed?) && InStep(w)
    ensures Projected(w, e).disk == Projected(Restarted(w), e).disk
  {
    FinalizerEndIsFound(w, e);
    if EndOf(w, e).Some? {
      EndsSurvive(w, e);
    } else {
      NothingEnded(w, e);
    }
  }

  lemma UpdatesSurvive(w: World, e: Event)
    requires UpdateOf(w, e).Some? && UpdateOf(w, e) == UpdateOf(Restarted(w), e)
    ensures Projected(w, e).disk == Projected(Restarted(w), e).disk
  {
  }

  lemma DoneAndCommitSurvive(w: World, e: Event)
    requires (e.TaskDone? || e.CommitMade?) && Agrees(w.disk, w.latest)
    ensures Projected(w, e).disk == Projected(Restarted(w), e).disk
  {
    assert DoneResult(Get(w.latest, e.task), Stored(w.disk, e.task)) == DoneResult(None, Stored(w.disk, e.task));
    UpdatesSurvive(w, e);
  }

  lemma BlockedSurvivesIff(w: World, task: string, progress: bool, reason: string)
    ensures var e := TaskBlocked(task, progress, reason);
      Projected(w, e).disk == Projected(Restarted(w), e).disk <==> RestartSafe(w, e)
  {
    var e := TaskBlocked(task, progress, reason);
    assert Stored(Projected(w, e).disk, task) == Some(BlockedResult(Get(w.latest, task), progress, reason));
    assert Stored(Projected(Restarted(w), e).disk, task) == Some(BlockedResult(None, progress, reason));
  }

  lemma EndShows(w: World, e: Event)
    requires EndOf(w, e).Some?
    ensures var x := EndOf(w, e).value;
      AttemptsOf(Projected(w, e).disk, x.step) == AttemptsOf(w.disk, x.step)[x.attempt.id := Written(x)]
  {
    var x := EndOf(w, e).value;
    WriteShows(w.disk, x.step, x.attempt.id, Written(x));
    assert Projected(w, e).disk.attempts == AttemptEnded(w, x).disk.attempts;
  }

  lemma SpawnEndOf(w: World, e: Event)
    requires e.SpawnCompleted? || e.SpawnFailed?
    ensures EndOf(w, e).Some? && EndOf(w, e).value.step == TaskStep(e.task)
    ensures EndOf(w, e).value.attempt == ActiveFor(w.disk, w.active, TaskStep(e.task), e.at)
  {
  }

  lemma DifferentAttempts(before: map<nat, Attempt>, a: nat, x: Attempt, b: nat, y: Attempt)
    requires a in before && b !in before
    ensures before[a := x] != before[b := y]
  {
    assert b in before[b := y] && b !in before[a := x];
  }

  /** A worker's end after a restart goes to an attempt of its own. */
  lemma SpawnEndNeedsMemory(w: World, e: Event)
    requires (e.SpawnCompleted? || e.SpawnFailed?) && Sound(w) && InStep(w) && TaskStep(e.task) in w.active
    ensures Projected(w, e).disk != Projected(Restarted(w), e).disk
  {
    NextIsNew(w.disk, TaskStep(e.task));
    SpawnEndOf(w, e);
    SpawnEndOf(Restarted(w), e);
    EndShows(w, e);
    EndShows(Restarted(w), e);
    var x, y := EndOf(w, e).value, EndOf(Restarted(w), e).value;
    DifferentAttempts(AttemptsOf(w.disk, x.step), x.attempt.id, Written(x), y.attempt.id, Written(y));
  }

  lemma SpawnEndSurvivesIff(w: World, e: Event)
    requires (e.SpawnCompleted? || e.SpawnFailed?) && Sound(w) && InStep(w)
    ensures Projected(w, e).disk == Projected(Restarted(w), e).disk <==> TaskStep(e.task) !in w.active
  {
    if TaskStep(e.task) in w.active {
      SpawnEndNeedsMemory(w, e);
    } else {
      assert EndOf(w, e) == EndOf(Restarted(w), e);
      EndsSurvive(w, e);
    }
  }

  lemma OthersSurvive(w: World, e: Event)
    requires e.TaskStarted? || e.SpawnStarted? || e.PreflightFailed? || e.OtherEvent?
    ensures Projected(w, e).disk == Projected(Restarted(w), e).disk
  {
  }

  /** Exactly when an event leaves the same files whether or not the projector was restarted before it.
      Finalizer events, done tasks and commits always do. */
  lemma SurvivesRestartIff(w: World, e: Event)
    requires Sound(w) && InStep(w)
    ensures Projected(w, e).disk == Projected(Restarted(w), e).disk <==> RestartSafe(w, e)
  {
    if e.SpawnCompleted? || e.SpawnFailed? {
      SpawnEndSurvivesIff(w, e);
    } else if e.TaskBlocked? {
      BlockedSurvivesIff(w, e.task, e.progress, e.reason);
    } else if e.TaskDone? || e.CommitMade? {
      DoneAndCommitSurvive(w, e);
    } else if e.Finalize? || e.FinalizationFailed? {
      FinalizerEventsSurvive(w, e);
    } else {
      OthersSurvive(w, e);
    }
  }

  lemma UpdateIsStored(w: World, u: TaskUpdate, fate: Fate)
    requires u.result.Some? && fate.writes > 0
    ensures Stored(TaskUpTo(w, u, fate).disk, u.task) == u.result
  {
  }

  lemma DoneFromStored(w: World, task: string)
    requires Agrees(w.disk, w.latest)
    ensures DoneResult(Get(w.latest, task), Stored(w.disk, task)) == DoneResult(None, Stored(w.disk, task))
  {
  }

  lemma CommitUpdates(w: World, task: string, sha: string, subject: Option<string>)
    ensures EndOf(w, CommitMade(task, sha, subject)).None?
    ensures UpdateOf(w, CommitMade(task, sha, subject)) == Some(CommitUpdate(w, task, sha, subject))
  {
  }

  lemma CommitIsUpdate(w: World, task: string, sha: string, subject: Option<string>, fate: Fate)
    ensures Processed(w, CommitMade(task, sha, subject), fate) == TaskUpTo(w, CommitUpdate(w, task, sha, subject), fate)
  {
    CommitUpdates(w, task, sha, subject);
    ProcessedUpdate(w, CommitMade(task, sha, subject), CommitUpdate(w, task, sha, subject), fate);
  }

  lemma CommitIsStored(w: World, task: string, sha: string, subject: Option<string>, fate: Fate)
    requires Agrees(w.disk, w.latest) && fate.writes > 0
    ensures Stored(TaskUpTo(w, CommitUpdate(w, task, sha, subject), fate).disk, task) ==
            Some(WithCommit(DoneResult(None, Stored(w.disk, task)), sha, subject))
  {
    DoneFromStored(w, task);
    UpdateIsStored(w, CommitUpdate(w, task, sha, subject), fate);
  }

  // ------------------------------------------------------------------ the projector

  class Projector {
    var disk: Disk
    /** The open attempts. The source keeps those of tasks and of finalizers in two maps. */
    var active: map<StepId, Active>
    var latestResults: map<string, StepResult>

    /** The files and what this projector remembers. */
    function Now(): World
      reads this
    {
      World(disk, active, latestResults)
    }

    constructor (disk: Disk)
      ensures Now() == World(disk, map[], map[])
    {
      this.disk := disk;
      active, latestResults := map[], map[];
    }

    /** The process ends and another one takes over the files. */
    method Restart()
      modifies this`active, this`latestResults
      ensures Now() == Restarted(old(Now()))
    {
      active, latestResults := map[], map[];
    }

    /** A write fails. */
    method Fail(fate: Fate)
      modifies this`active, this`latestResults
      ensures Now() == Stopped(old(Now()), fate)
    {
      if fate.dies {
        Restart();
      }
    }

    /** Starts the next attempt of a step. */
    method StartAttempt(s: StepId, at: nat, fate: Fate)
      modifies this
      ensures Now() == StartUpTo(old(Now()), s, at, fate)
      ensures fate.writes >= 2 ==> var id := |AttemptsOf(old(disk), s)| + 1;
                && active == old(active)[s := Active(id, at)] && latestResults == old(latestResults)
                && AttemptsOf(disk, s) == AttemptsOf(old(disk), s)[id := Attempt(at, None, None)]
                && s in disk.steps && disk.steps[s].status == Running && disk.steps[s].latestAttempt == Some(id)
    {
      var id := NextAttemptId(disk, s);
      active := active[s := Active(id, at)];
      if fate.writes == 0 {
        Fail(fate);
        return;
      }
      disk := WriteAttempt(disk, s, id, Attempt(at, None, None));
      if fate.writes == 1 {
        Fail(fate);
        return;
      }
      disk := UpsertStep(disk, s, Updates(Some(Running), Some(id), None, None));
    }

    /** Ends an attempt of a step with a result. */
    method EndAttempt(x: End, fate: Fate)
      modifies this
      ensures Now() == EndUpTo(old(Now()), x, fate)
      ensures fate.writes >= 2 ==>
                && AttemptsOf(disk, x.step) ==
                   AttemptsOf(old(disk), x.step)[x.attempt.id := Attempt(x.attempt.startedAt, Some(x.at), Some(x.result))]
                && x.step in disk.steps && disk.steps[x.step] == Step(x.status, Some(x.attempt.id), x.result.artifacts, Some(x.result))
                && active == old(active) - {x.step} && latestResults == old(latestResults)
    {
      if fate.writes == 0 {
        Fail(fate);
        return;
      }
      disk := WriteAttempt(disk, x.step, x.attempt.id, Written(x));
      if fate.writes == 1 {
        Fail(fate);
        return;
      }
      disk := UpsertStep(disk, x.step, Updates(Some(x.status), Some(x.attempt.id), Some(x.result.artifacts), Some(x.result)));
      assert Forget(active, x.step) == active - {x.step};
      active := Forget(active, x.step);
    }

    /** Remembers a result for a task, if there is one, and brings its step up to date. */
    method UpdateTask(u: TaskUpdate, fate: Fate)
      modifies this
      ensures Now() == TaskUpTo(old(Now()), u, fate)
      ensures latestResults == old(latestResults) || (fate.writes == 0 && fate.dies) ||
              (u.result.Some? && latestResults == old(latestResults)[u.task := u.result.value])
      ensures fate.writes > 0 ==>
                && active == old(active) && TaskStep(u.task) in disk.steps && disk.steps[TaskStep(u.task)].status == u.status
                && (u.result.Some? ==> latestResults == old(latestResults)[u.task := u.result.value])
                && (u.result.Some? ==> disk.steps[TaskStep(u.task)].result == u.result)
    {
      if u.result.Some? {
        latestResults := latestResults[u.task := u.result.value];
      }
      if fate.writes == 0 {
        Fail(fate);
        return;
      }
      disk := UpsertStep(disk, TaskStep(u.task), Updates(Some(u.status), None, u.artifacts, u.result));
    }

    method RecordSpawnStarted(task: string, at: nat, fate: Fate)
      modifies this
      ensures Now() == SpawnUpTo(old(Now()), task, at, fate)
    {
      UpdateTask(TaskUpdate(task, Running, None, None), fate);
      if fate.writes < 2 {
        // The second write is that of a diagnostic.
        if fate.writes == 1 {
          Fail(fate);
        }
        return;
      }
      StartAttempt(TaskStep(task), at, Later(fate, 2));
    }

    method RecordSpawnEnd(task: string, at: nat, status: Status, report: Report, fate: Fate)
      modifies this
      ensures var x := SpawnEnd(old(Now()), task, at, status, report);
        Now() == EndUpTo(Noted(old(Now()), x), x, fate)
      ensures fate.writes >= 2 ==> TaskStep(task) in disk.steps && disk.steps[TaskStep(task)].status == status
      ensures fate.writes >= 2 ==>
                && disk.steps[TaskStep(task)].result.Some?
                && latestResults == old(latestResults)[task := disk.steps[TaskStep(task)].result.value]
      ensures fate.writes >= 2 ==> var result := disk.steps[TaskStep(task)].result.value;
                && result.outcome == report.outcome && result.summary == report.summary && result.commits == []
                && disk.steps[TaskStep(task)].latestAttempt.Some?
                && result.artifacts == [ReportArtifact(task, disk.steps[TaskStep(task)].latestAttempt.value)]
                && result.nextAction == (if report.outcome == Success then Continue else WaitForHuman)
    {
      var s := TaskStep(task);
      var a := ActiveFor(disk, active, s, at);
      var result := ReportResult(task, a.id, report);
      active := active[s := a];
      latestResults := latestResults[task := result];
      EndAttempt(End(s, a, at, status, result), fate);
    }

    /** The stored result stays, or becomes success if there was none. */
    method RecordTaskDone(task: string, fate: Fate)
      modifies this
      ensures Now() == Processed(old(Now()), TaskDone(task), fate)
      ensures fate.writes > 0 ==> TaskStep(task) in disk.steps && disk.steps[TaskStep(task)].status == Completed
      ensures Agrees(old(disk), old(latestResults)) && fate.writes > 0 ==>
        disk.steps[TaskStep(task)].result ==
          if Stored(old(disk), task).Some? then Stored(old(disk), task)
          else Some(StepResult(Success, "Drive task completed.", [], [], Continue))
    {
      var result := DoneResult(Get(latestResults, task), Stored(disk, task));
      UpdateTask(TaskUpdate(task, Completed, None, Some(result)), fate);
    }

    method RecordTaskBlocked(task: string, progress: bool, reason: string, fate: Fate)
      modifies this
      ensures Now() == Processed(old(Now()), TaskBlocked(task, progress, reason), fate)
      ensures fate.writes > 0 ==> TaskStep(task) in disk.steps
      // a failure that is remembered stays one, any other unsuccessful result stays too
      ensures fate.writes > 0 ==> (disk.steps[TaskStep(task)].status == FailedStep <==>
                                   task in old(latestResults) && old(latestResults)[task].outcome == Failed)
      ensures fate.writes > 0 ==> disk.steps[TaskStep(task)].status == FailedStep || disk.steps[TaskStep(task)].status == BlockedStep
      ensures fate.writes > 0 ==>
        disk.steps[TaskStep(task)].result ==
          if task in old(latestResults) && old(latestResults)[task].outcome != Success then Some(old(latestResults)[task])
          else Some(StepResult(if progress then Partial else Blocked, reason, [], [], WaitForHuman))
    {
      var result := BlockedResult(Get(latestResults, task), progress, reason);
      UpdateTask(TaskUpdate(task, if result.outcome == Failed then FailedStep else BlockedStep, None, Some(result)), fate);
    }

    /** The stored result stays, with the commit added. */
    method RecordCommitMade(task: string, sha: string, subject: Option<string>, fate: Fate)
      modifies this
      ensures Now() == Processed(old(Now()), CommitMade(task, sha, subject), fate)
      ensures Agrees(old(disk), old(latestResults)) && fate.writes > 0 ==>
        Stored(disk, task) == Some(WithCommit(DoneResult(None, Stored(old(disk), task)), sha, subject))
    {
      var result := WithCommit(DoneResult(Get(latestResults, task), Stored(disk, task)), sha, subject);
      var existing := Get(disk.steps, TaskStep(task));
      var artifacts := UniqueArtifacts((if existing.Some? then existing.value.artifacts else []) + [CommitArtifact(sha, subject)]);
      var u := TaskUpdate(task, if existing.Some? then existing.value.status else Running, Some(artifacts), Some(result));
      assert u == CommitUpdate(Now(), task, sha, subject);
      CommitIsUpdate(Now(), task, sha, subject, fate);
      if Agrees(disk, latestResults) && fate.writes > 0 {
        CommitIsStored(Now(), task, sha, subject, fate);
      }
      UpdateTask(u, fate);
    }

    method RecordFinalize(e: Event, fate: Fate)
      requires e.Finalize?
      modifies this
      ensures Now() == Processed(old(Now()), e, fate)
    {
      var id := FinalizerStepId(e.phase, e.ofTask);
      if id.None? {
        return;
      }
      if e.status == Started {
        ProcessedStart(Now(), e, id.value, fate);
        StartAttempt(id.value, e.at, fate);
      } else {
        ProcessedFinish(Now(), e, id.value, fate);
        var a := ActiveFor(disk, active, id.value, e.at);
        EndAttempt(End(id.value, a, e.at, EndStatus(e), FinalizerResult(e)), fate);
      }
    }

    /** A failure of a task's or the run's finalization. If the latest attempt has already ended with a
        failure that will be retried, this is the same failure and nothing is written. */
    method RecordRetryableFinalizerFailure(e: Event, fate: Fate)
      requires e.FinalizationFailed?
      modifies this
      ensures Now() == Processed(old(Now()), e, fate)
    {
      var id := FinalizerStepId(e.phase, e.ofTask);
      if id.None? {
        return;
      }
      if id.value !in active && RetryableFailure(disk, id.value) {
        return;
      }
      var a := ActiveFor(disk, active, id.value, e.at);
      EndAttempt(End(id.value, a, e.at, FailedStep, RetryableFailureResult(e)), fate);
    }

    method ProjectEvent(e: Event, fate: Fate)
      modifies this
      ensures Now() == Processed(old(Now()), e, fate)
    {
      match e
      case TaskStarted(task) => UpdateTask(TaskUpdate(task, Ready, None, None), fate);
      case SpawnStarted(task, at) => RecordSpawnStarted(task, at, fate);
      case SpawnCompleted(task, report, at) => RecordSpawnEnd(task, at, Running, report, fate);
      case SpawnFailed(task, error, at) => RecordSpawnEnd(task, at, FailedStep, Report(Failed, error), fate);
      case PreflightFailed(task, reason) =>
        UpdateTask(TaskUpdate(task, BlockedStep, None, Some(StepResult(Blocked, reason, [], [], WaitForHuman))), fate);
      case TaskDone(task) => RecordTaskDone(task, fate);
      case TaskBlocked(task, progress, reason) => RecordTaskBlocked(task, progress, reason, fate);
      case CommitMade(task, sha, subject) => RecordCommitMade(task, sha, subject, fate);
      case Finalize(_, _, _, _, _, _) => RecordFinalize(e, fate);
      case FinalizationFailed(_, _, _, _, _) => RecordRetryableFinalizerFailure(e, fate);
      case OtherEvent =>
    }

    /** One event, wherever its processing stops. The numbers of the attempts keep having no gaps, and an
        ended attempt changes exactly if the event overwrites it and gets to its first write. */
    method Project(e: Event, fate: Fate)
      requires Sound(Now())
      modifies this
      ensures Now() == Processed(old(Now()), e, fate) && Sound(Now())
      ensures EndedKept(old(disk), disk) <==> fate.writes == 0 || !Overwrites(old(Now()), e)
      ensures InStep(old(Now())) && (Whole(fate) || fate.dies) ==> InStep(Now())
    {
      ghost var before := Now();
      ProcessedIsSound(before, e, fate);
      KeepsEndedIff(before, e, fate);
      ProjectEvent(e, fate);
      if InStep(before) && (Whole(fate) || fate.dies) {
        StaysInStep(before, e, fate);
      }
    }
  }

  // ------------------------------------------------------------------ whole runs

  /** One event, how far its processing gets, and whether the process ends after it. */
  datatype Input = Input(event: Event, fate: Fate, restart: bool)

  function Next(w: World, i: Input): World {
    var v := Processed(w, i.event, i.fate);
    if i.restart then Restarted(v) else v
  }

  function After(w: World, inputs: seq<Input>): World {
    if inputs == [] then w else Next(After(w, inputs[..|inputs| - 1]), inputs[|inputs| - 1])
  }

  predicate Rewrites(w: World, i: Input) {
    i.fate.writes > 0 && Overwrites(w, i.event)
  }

  /** No event of the run rewrites an ended attempt. */
  predicate NeverRewrites(w: World, inputs: seq<Input>) {
    inputs == [] ||
    (NeverRewrites(w, inputs[..|inputs| - 1]) && !Rewrites(After(w, inputs[..|inputs| - 1]), inputs[|inputs| - 1]))
  }

  /** Every single event of the run leaves ended attempts alone. */
  ghost predicate AlwaysKept(w: World, inputs: seq<Input>) {
    inputs == [] ||
    (AlwaysKept(w, inputs[..|inputs| - 1]) && EndedKept(After(w, inputs[..|inputs| - 1]).disk, After(w, inputs).disk))
  }

  /** A process that has lost a step's write while the attempt's end was written does not go on. */
  predicate StopsAfterLoss(w: World, inputs: seq<Input>) {
    inputs == [] ||
    var n := |inputs| - 1;
    (StopsAfterLoss(w, inputs[..n]) &&
     (LosesStep(After(w, inputs[..n]), inputs[n].event, inputs[n].fate) ==> inputs[n].restart))
  }

  lemma NextIsSound(w: World, i: Input)
    requires Sound(w)
    ensures Sound(Next(w, i))
  {
    ProcessedIsSound(w, i.event, i.fate);
  }

  lemma {:induction false} AfterIsSound(w: World, inputs: seq<Input>)
    requires Sound(w)
    ensures Sound(After(w, inputs))
  {
    if inputs != [] {
      AfterIsSound(w, inputs[..|inputs| - 1]);
      NextIsSound(After(w, inputs[..|inputs| - 1]), inputs[|inputs| - 1]);
    }
  }

  lemma NextKeepsIff(w: World, i: Input)
    requires Sound(w)
    ensures EndedKept(w.disk, Next(w, i).disk) <==> !Rewrites(w, i)
  {
    KeepsEndedIff(w, i.event, i.fate);
  }

  /** Over every stream of events, with the process ending or swallowing errors anywhere: ended attempts
      stay as they are exactly if no event overwrites one. */
  lemma {:induction false} AlwaysKeptIff(w: World, inputs: seq<Input>)
    requires Sound(w)
    ensures AlwaysKept(w, inputs) <==> NeverRewrites(w, inputs)
  {
    if inputs != [] {
      var n := |inputs| - 1;
      AlwaysKeptIff(w, inputs[..n]);
      AfterIsSound(w, inputs[..n]);
      NextKeepsIff(After(w, inputs[..n]), inputs[n]);
    }
  }

  lemma EndedKeptTransitive(a: Disk, b: Disk, c: Disk)
    requires EndedKept(a, b) && EndedKept(b, c)
    ensures EndedKept(a, c)
  {
    forall s | s in a.attempts ensures s in c.attempts && Kept(a.attempts[s], c.attempts[s]) {
      assert s in b.attempts;
    }
  }

  lemma {:induction false} KeptThroughout(w: World, inputs: seq<Input>)
    requires AlwaysKept(w, inputs)
    ensures EndedKept(w.disk, After(w, inputs).disk)
  {
    if inputs != [] {
      KeptThroughout(w, inputs[..|inputs| - 1]);
      EndedKeptTransitive(w.disk, After(w, inputs[..|inputs| - 1]).disk, After(w, inputs).disk);
    }
  }

  lemma NextStaysWritable(w: World, i: Input)
    requires Sound(w) && AllWritable(w) && (LosesStep(w, i.event, i.fate) ==> i.restart)
    ensures AllWritable(Next(w, i)) && !Rewrites(w, i)
  {
    WritableIsNotOverwritten(w, i.event);
    if !i.restart {
      StaysWritable(w, i.event, i.fate);
    }
  }

  /** Swallowed errors do no harm to ended attempts as long as none of them loses the step of one. */
  lemma {:induction false} SafeUnlessStepLost(w: World, inputs: seq<Input>)
    requires Sound(w) && AllWritable(w) && StopsAfterLoss(w, inputs)
    ensures AllWritable(After(w, inputs)) && NeverRewrites(w, inputs)
  {
    if inputs != [] {
      var n := |inputs| - 1;
      SafeUnlessStepLost(w, inputs[..n]);
      AfterIsSound(w, inputs[..n]);
      NextStaysWritable(After(w, inputs[..n]), inputs[n]);
    }
  }

  predicate FailedFinalize(e: Event, s: StepId) {
    e.Finalize? && e.status == FinalizeFailed && FinalizerStepId(e.phase, e.ofTask) == Some(s)
  }

  predicate ReportsFailure(e: Event, s: StepId) {
    e.FinalizationFailed? && FinalizerStepId(e.phase, e.ofTask) == Some(s)
  }

  lemma FollowingEventEnds(w: World, e: Event, s: StepId)
    requires ReportsFailure(e, s) && s in w.active
    ensures EndOf(w, e) == Some(End(s, w.active[s], e.at, FailedStep, RetryableFailureResult(e)))
  {
  }

  lemma EndedIsOverwritten(w: World, x: End, again: Event)
    requires x.step in w.active && w.active[x.step] == x.attempt
    requires ReportsFailure(again, x.step) && again.at != x.at
    ensures Overwrites(AttemptEnded(w, x), again)
  {
    var between := AttemptEnded(w, x);
    assert AttemptsOf(between.disk, x.step)[x.attempt.id] == Written(x);
    FollowingEventEnds(between, again, x.step);
  }

  lemma LostStepIsRewritten(w: World, x: End, again: Event)
    requires Sound(AttemptEnded(w, x)) && x.step in w.active && w.active[x.step] == x.attempt
    requires ReportsFailure(again, x.step) && again.at != x.at
    ensures !EndedKept(AttemptEnded(w, x).disk, Projected(AttemptEnded(w, x), again).disk)
  {
    EndedIsOverwritten(w, x, again);
    KeepsEndedIff(AttemptEnded(w, x), again, WHOLE);
  }

  /** The condition of SafeUnlessStepLost cannot be dropped: the finalizer of an open attempt fails, writing
      its step throws and is swallowed, and the next event of the failed finalization rewrites the attempt. */
  lemma SwallowedErrorRewrites(w: World, s: StepId, failed: Event, again: Event)
    requires Sound(w) && s in w.active && FailedFinalize(failed, s)
    requires ReportsFailure(again, s) && again.at != failed.at
    ensures var between := Processed(w, failed, Fate(1, false));
      !EndedKept(between.disk, Projected(between, again).disk)
  {
    FinalizeEnds(w, failed, s);
    var x := EndOf(w, failed).value;
    ProcessedEnd(w, failed, x, Fate(1, false));
    assert Processed(w, failed, Fate(1, false)) == AttemptEnded(w, x);
    ProcessedIsSound(w, failed, Fate(1, false));
    LostStepIsRewritten(w, x, again);
  }

  lemma AfterTwo(w: World, inputs: seq<Input>)
    requires |inputs| >= 2
    ensures After(w, inputs[..2]) == Next(Next(w, inputs[0]), inputs[1])
  {
    assert inputs[..2][..1] == inputs[..1] && inputs[..1][..0] == [];
    assert After(w, inputs[..1]) == Next(w, inputs[0]);
  }

  lemma NotKeptLast(w: World, inputs: seq<Input>)
    requires inputs != [] && !EndedKept(After(w, inputs[..|inputs| - 1]).disk, After(w, inputs).disk)
    ensures !AlwaysKept(w, inputs)
  {
  }

  /** The whole run of that, from any state: a finalizer starts, fails while its step's file cannot be
      written, and the failure is reported once more. */
  lemma SwallowedErrorIsReached(w: World, inputs: seq<Input>, s: StepId)
    requires Sound(w) && |inputs| == 3
    requires StartsFinalizer(inputs[0].event) && FinalizerStepId(inputs[0].event.phase, inputs[0].event.ofTask) == Some(s)
    requires inputs[0].fate == WHOLE && !inputs[0].restart
    requires FailedFinalize(inputs[1].event, s) && inputs[1].fate == Fate(1, false) && !inputs[1].restart
    requires ReportsFailure(inputs[2].event, s) && inputs[2].fate == WHOLE && inputs[2].event.at != inputs[1].event.at
    ensures !AlwaysKept(w, inputs)
  {
    var w1 := Next(w, inputs[0]);
    assert s in w1.active by {
      ProcessedStart(w, inputs[0].event, s, WHOLE);
    }
    NextIsSound(w, inputs[0]);
    SwallowedErrorRewrites(w1, s, inputs[1].event, inputs[2].event);
    AfterTwo(w, inputs);
    NotKeptLast(w, inputs);
  }

  lemma AfterOneMore(w: World, inputs: seq<Input>, i: nat)
    requires i < |inputs|
    ensures After(w, inputs[..i + 1]) == Next(After(w, inputs[..i]), inputs[i])
  {
    assert inputs[..i + 1][..i] == inputs[..i];
  }

  lemma KeptIfSafe(w: World, inputs: seq<Input>)
    requires Sound(w) && AllWritable(w) && (NeverRewrites(w, inputs) || StopsAfterLoss(w, inputs))
    ensures EndedKept(w.disk, After(w, inputs).disk)
  {
    if StopsAfterLoss(w, inputs) {
      SafeUnlessStepLost(w, inputs);
    }
    AlwaysKeptIff(w, inputs);
    KeptThroughout(w, inputs);
  }

  // ------------------------------------------------------------------ one failure, several events

  predicate WillBeRetried(r: StepResult) {
    r.outcome == Failed && r.nextAction == Retry
  }

  lemma FailureWillBeRetried(failed: Event)
    requires failed.Finalize? && failed.status == FinalizeFailed
    ensures WillBeRetried(FinalizerResult(failed))
  {
  }

  lemma ReportIsRetryable(e: Event)
    requires e.FinalizationFailed?
    ensures WillBeRetried(RetryableFailureResult(e))
  {
  }

  lemma ReportEnds(w: World, e: Event, s: StepId)
    requires ReportsFailure(e, s) && (s in w.active || !RetryableFailure(w.disk, s))
    ensures EndOf(w, e) == Some(FailureEnd(w, e, s))
  {
  }

  lemma EndAdds(w: World, x: End)
    ensures EndedIds(AttemptEnded(w, x).disk, x.step) == EndedIds(w.disk, x.step) + {x.attempt.id}
  {
    assert AttemptsOf(AttemptEnded(w, x).disk, x.step) == AttemptsOf(w.disk, x.step)[x.attempt.id := Written(x)];
  }

  lemma EndIsRetryable(w: World, x: End)
    requires WillBeRetried(x.result)
    ensures RetryableFailure(AfterEnd(w, x).disk, x.step) && x.step !in AfterEnd(w, x).active
    ensures EndedIds(AfterEnd(w, x).disk, x.step) == EndedIds(w.disk, x.step) + {x.attempt.id}
  {
    EndAdds(w, x);
    assert AfterEnd(w, x).disk.attempts == AttemptEnded(w, x).disk.attempts;
  }

  lemma OpenIsNotEnded(w: World, s: StepId, at: nat)
    requires Sound(w) && AllWritable(w)
    ensures ActiveFor(w.disk, w.active, s, at).id !in EndedIds(w.disk, s)
  {
    ActiveIsInRange(w, s, at);
    NextIsNew(w.disk, s);
  }

  /** A failed finalization whose end is written ends one attempt, with a failure that will be retried. */
  lemma FailureEndsOne(w: World, failed: Event, fate: Fate, s: StepId)
    requires Sound(w) && AllWritable(w) && FailedFinalize(failed, s) && fate.writes >= 2
    ensures var w' := Processed(w, failed, fate);
      && s !in w'.active && RetryableFailure(w'.disk, s)
      && exists id :: id !in EndedIds(w.disk, s) && EndedIds(w'.disk, s) == EndedIds(w.disk, s) + {id}
  {
    FinalizeEnds(w, failed, s);
    FailureWillBeRetried(failed);
    var x := EndOf(w, failed).value;
    ProcessedEnd(w, failed, x, fate);
    EndIsRetryable(w, x);
    OpenIsNotEnded(w, s, failed.at);
    assert x.attempt.id !in EndedIds(w.disk, s);
  }

  /** The events that follow it do nothing, however far their processing gets. */
  lemma LaterAddsNothing(w: World, later: Event, fate: Fate, s: StepId)
    requires ReportsFailure(later, s) && s !in w.active && RetryableFailure(w.disk, s)
    ensures Processed(w, later, fate) == w
  {
  }

  lemma {:induction false} LaterRunAddsNothing(w: World, later: seq<Input>, s: StepId)
    requires s !in w.active && RetryableFailure(w.disk, s)
    requires forall i :: 0 <= i < |later| ==> ReportsFailure(later[i].event, s)
    ensures After(w, later) == w || After(w, later) == Restarted(w)
  {
    if later != [] {
      var n := |later| - 1;
      LaterRunAddsNothing(w, later[..n], s);
      LaterAddsNothing(After(w, later[..n]), later[n].event, later[n].fate, s);
    }
  }

  lemma LastOfRest<T>(s: seq<T>)
    requires |s| > 1
    ensures s[..|s| - 1][1..] == s[1..][..|s| - 2] && s[1..][|s| - 2] == s[|s| - 1] && s[..|s| - 1][0] == s[0]
  {
  }

  lemma {:induction false} AfterFirst(w: World, inputs: seq<Input>)
    requires inputs != []
    ensures After(w, inputs) == After(Next(w, inputs[0]), inputs[1..])
  {
    if |inputs| == 1 {
      assert inputs[..0] == [] && inputs[1..] == [];
      assert After(w, []) == w;
    } else {
      AfterFirst(w, inputs[..|inputs| - 1]);
      LastOfRest(inputs);
    }
  }

  /** One failed finalization is reported by up to three events: the failed `finalize`, the failure of the
      task and the failure of the run. If both writes of the first succeed, together they add exactly one
      ended attempt to the finalizer's step, whether or not its start was seen, wherever the later ones stop
      and wherever the process is replaced. */
  lemma FailureIsRecordedOnce(w: World, inputs: seq<Input>, s: StepId)
    requires Sound(w) && AllWritable(w)
    requires inputs != [] && FailedFinalize(inputs[0].event, s) && inputs[0].fate.writes >= 2
    requires forall i :: 1 <= i < |inputs| ==> ReportsFailure(inputs[i].event, s)
    ensures exists id :: id !in EndedIds(w.disk, s) &&
                         EndedIds(After(w, inputs).disk, s) == EndedIds(w.disk, s) + {id}
  {
    FailureEndsOne(w, inputs[0].event, inputs[0].fate, s);
    AfterFirst(w, inputs);
    LaterRunAddsNothing(Next(w, inputs[0]), inputs[1..], s);
    assert After(w, inputs).disk == Processed(w, inputs[0].event, inputs[0].fate).disk;
  }

  predicate Names(d: Disk, s: StepId, id: nat) {
    s in d.steps && d.steps[s].latestAttempt == Some(id)
  }

  lemma RetryableOnceEnded(w: World, x: End)
    requires WillBeRetried(x.result)
    ensures RetryableFailure(AttemptEnded(w, x).disk, x.step) <==>
      Names(w.disk, x.step, x.attempt.id) || RetryableFailure(w.disk, x.step)
  {
    WriteShows(w.disk, x.step, x.attempt.id, Written(x));
  }

  /** An event that reports a failure by itself: it adds an ended attempt unless the failure is on record. */
  lemma ReportAddsIff(w: World, later: Event, s: StepId)
    requires Sound(w) && ReportsFailure(later, s)
    ensures var w' := Projected(w, later);
      && s !in w'.active && RetryableFailure(w'.disk, s)
      && (EndedIds(w'.disk, s) == EndedIds(w.disk, s) <==>
          if s in w.active then w.active[s].id in EndedIds(w.disk, s) else RetryableFailure(w.disk, s))
  {
    if s !in w.active && RetryableFailure(w.disk, s) {
      LaterAddsNothing(w, later, WHOLE, s);
    } else {
      ReportEnds(w, later, s);
      ReportIsRetryable(later);
      var x := EndOf(w, later).value;
      ProcessedEnd(w, later, x, WHOLE);
      EndIsRetryable(w, x);
      ActiveIsInRange(w, s, later.at);
      NextIsNew(w.disk, s);
    }
  }

  /** The first event stops between its two writes: one attempt has ended. The next event adds nothing to
      that exactly if the attempt is still remembered, if its step names it already, as it does once its
      start is on record, or if the failure before it will be retried as well; otherwise a second attempt
      ends for the same failure. Whatever follows adds nothing (LaterRunAddsNothing). */
  lemma StoppedFailureIsRecordedOnceIff(w: World, failed: Event, dies: bool, later: Event, s: StepId)
    requires Sound(w) && AllWritable(w) && FailedFinalize(failed, s) && ReportsFailure(later, s)
    ensures var a := ActiveFor(w.disk, w.active, s, failed.at);
      var w1 := Processed(w, failed, Fate(1, dies));
      var w2 := Projected(w1, later);
      && a.id !in EndedIds(w.disk, s) && EndedIds(w1.disk, s) == EndedIds(w.disk, s) + {a.id}
      && (EndedIds(w2.disk, s) == EndedIds(w1.disk, s) <==>
          (!dies && s in w.active) || Names(w.disk, s, a.id) || RetryableFailure(w.disk, s))
      && s !in w2.active && RetryableFailure(w2.disk, s)
  {
    FinalizeEnds(w, failed, s);
    FailureWillBeRetried(failed);
    var x := EndOf(w, failed).value;
    var w1 := Processed(w, failed, Fate(1, dies));
    ProcessedEnd(w, failed, x, Fate(1, dies));
    OpenIsNotEnded(w, s, failed.at);
    EndAdds(w, x);
    ProcessedIsSound(w, failed, Fate(1, dies));
    RetryableOnceEnded(w, x);
    ReportAddsIff(w1, later, s);
  }
}
