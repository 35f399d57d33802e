/**
 The sequential task loop (lib/driver/run-run-loop.ts) and the graph runner
 (lib/driver/drive-graph-runner.ts with its two backends) as two implementations of one job.

 An `Oracle` fixes what the outside world answers for every task: the worker's final report,
 what the source commit finds, whether the closing task update succeeds, and whether the final
 state commit succeeds.  Both runners are executed against the same oracle.
 */
module LoopRefinement {
  import opened DriveGraph
  import opened GraphSchedule

  datatype Report = Success | Partial | Failure
  datatype CommitAnswer = Commits | NothingToCommit | CommitFails
  datatype Oracle = Oracle(report: nat -> Report, commit: nat -> CommitAnswer, updates: nat -> bool, stateCommit: bool)

  // ----- the sequential loop -----

  datatype TaskOutcome = Done | PartlyDone | BlockedTask | FinalizationFails | Throws

  /** Commit first, then transition the task (lib/driver/run-one-task.ts:196-253). */
  function RunOneTask(spec: Spec, oracle: Oracle, i: nat): TaskOutcome {
    var commits := spec.commitPolicy.DriverCommits?;
    var committed := commits && oracle.commit(i).Commits?;
    match oracle.report(i)
    case Success =>
      if commits && oracle.commit(i).CommitFails? then (if oracle.updates(i) then FinalizationFails else Throws)
      else if oracle.updates(i) then Done
      else if committed then FinalizationFails else Throws
    case Partial =>
      if commits && oracle.commit(i).CommitFails? then (if oracle.updates(i) then BlockedTask else Throws)
      else if oracle.updates(i) then PartlyDone
      else if committed then FinalizationFails else Throws
    case Failure =>
      if oracle.updates(i) then BlockedTask else Throws
  }

  datatype RunOutcome = Finished | BlockedRun | Aborted | FinalizationFailed | Threw
  datatype RunResult = RunResult(outcome: RunOutcome, tasksDone: nat, tasksBlocked: nat, tasksStarted: nat)

  /** The loop goes on after this task. */
  predicate Passes(spec: Spec, oracle: Oracle, i: nat) {
    RunOneTask(spec, oracle, i).Done? || (RunOneTask(spec, oracle, i).PartlyDone? && spec.partialContinue)
  }

  /** The first task at or after `i` that stops the loop, or the number of tasks. */
  function FirstStop(spec: Spec, oracle: Oracle, i: nat): (stop: nat)
    requires i <= |spec.taskIds|
    ensures i <= stop <= |spec.taskIds|
    ensures forall j | i <= j < stop :: Passes(spec, oracle, j)
    ensures stop < |spec.taskIds| ==> !Passes(spec, oracle, stop)
    decreases |spec.taskIds| - i
  {
    if i == |spec.taskIds| || !Passes(spec, oracle, i) then i else FirstStop(spec, oracle, i + 1)
  }

  function Count(oracle: Oracle, report: Report, n: nat): nat {
    if n == 0 then 0 else Count(oracle, report, n - 1) + (if oracle.report(n - 1) == report then 1 else 0)
  }

  lemma {:induction false} CountPositive(oracle: Oracle, report: Report, n: nat)
    ensures Count(oracle, report, n) > 0 <==> exists i | 0 <= i < n :: oracle.report(i) == report
  {
    if n > 0 {
      CountPositive(oracle, report, n - 1);
      if exists i | 0 <= i < n :: oracle.report(i) == report {
        var i :| 0 <= i < n && oracle.report(i) == report;
        assert i < n - 1 || oracle.report(n - 1) == report;
      } else {
        assert oracle.report(n - 1) != report;
      }
      if Count(oracle, report, n) > 0 && oracle.report(n - 1) == report {
        assert 0 <= n - 1 < n;
      }
    }
  }

  /** What the loop amounts to: a count up to the task that stops it. */
  function LoopResult(spec: Spec, oracle: Oracle): RunResult {
    var n := |spec.taskIds|;
    var stop := FirstStop(spec, oracle, 0);
    var done, partly := Count(oracle, Success, stop), Count(oracle, Partial, stop);
    if stop == n then
      RunResult(if partly == 0 && ResolveStateCommitPolicy(spec).FinalStateCommit? && !oracle.stateCommit
                then FinalizationFailed else Finished,
                done, partly, n)
    else match RunOneTask(spec, oracle, stop)
         case FinalizationFails => RunResult(FinalizationFailed, done, partly, stop + 1)
         case Throws => RunResult(Threw, done, partly, stop + 1)
         case BlockedTask => RunResult(BlockedRun, done, partly + 1, stop + 1)
         case _ => RunResult(Aborted, done, partly + 1, stop + 1)
  }

  method RunRunLoop(spec: Spec, oracle: Oracle) returns (result: RunResult)
    ensures result == LoopResult(spec, oracle)
  {
    var done, blocked := 0, 0;
    var outcome := Finished;
    var started := 0;
    while started < |spec.taskIds|
      invariant started <= |spec.taskIds|
      invariant forall j | 0 <= j < started :: Passes(spec, oracle, j)
      invariant FirstStop(spec, oracle, 0) == FirstStop(spec, oracle, started)
      invariant outcome.Finished?
      invariant done == Count(oracle, Success, started) && blocked == Count(oracle, Partial, started)
    {
      var i := started;
      var task := RunOneTask(spec, oracle, i);
      started := started + 1;
      if task.Throws? {
        return RunResult(Threw, done, blocked, started);
      }
      if task.Done? {
        done := done + 1;
        continue;
      }
      if task.FinalizationFails? {
        outcome := FinalizationFailed;
        break;
      }
      blocked := blocked + 1;
      if task.BlockedTask? {
        outcome := BlockedRun;
        break;
      }
      if !spec.partialContinue {
        outcome := Aborted;
        break;
      }
    }
    if outcome.Finished? && blocked == 0 && !ResolveStateCommitPolicy(spec).NoStateCommit? && !oracle.stateCommit {
      outcome := FinalizationFailed;
    }
    result := RunResult(outcome, done, blocked, started);
  }

  // ----- the graph runner -----

  datatype GraphState = GraphState(records: Records, partialMarks: set<nat>, started: seq<nat>, stopped: bool)

  function CloseTask(spec: Spec, oracle: Oracle, i: nat, closed: StepStatus): StepStatus {
    if oracle.updates(i) then closed
    else if spec.commitPolicy.DriverCommits? && oracle.commit(i).Commits? then Ready  // retryable: kept in the pending record
    else Failed
  }

  /** The status a step gets when it runs; `allDone` is what the state commit reads off the step records. */
  function Verdict(spec: Spec, oracle: Oracle, key: StepKey, allDone: bool): StepStatus {
    match key
    case Work(i) =>
      (match oracle.report(i)
       case Success => Completed
       case Partial => if !oracle.updates(i) then Failed else if spec.partialContinue then Completed else Blocked
       case Failure => if oracle.updates(i) then Blocked else Failed)
    case SourceCommit(i) =>
      (match oracle.report(i)
       case Success => if !oracle.commit(i).CommitFails? then Completed else if oracle.updates(i) then Ready else Failed
       case Partial => if !oracle.commit(i).CommitFails? then Completed else if oracle.updates(i) then Blocked else Failed
       case Failure => Completed)
    case TaskStatus(i) =>
      (match oracle.report(i)
       case Success => CloseTask(spec, oracle, i, Completed)
       case Partial => CloseTask(spec, oracle, i, if spec.partialContinue then Completed else Blocked)
       case Failure => CloseTask(spec, oracle, i, Blocked))
    case StateCommit =>
      if allDone && !oracle.stateCommit then Ready else Completed
  }

  predicate DoneStatusStep(spec: Spec, g: GraphState, i: nat)
    requires i < |spec.taskIds|
  {
    StatusOf(spec, g.records, TaskStatus(i)).Completed? && i !in g.partialMarks
  }

  predicate AllTaskStatusFinalizersDone(spec: Spec, g: GraphState) {
    forall i | 0 <= i < |spec.taskIds| :: DoneStatusStep(spec, g, i)
  }

  function Execute(spec: Spec, oracle: Oracle, g: GraphState, key: StepKey): GraphState
    requires ValidKey(spec, key)
  {
    var status := Verdict(spec, oracle, key, AllTaskStatusFinalizersDone(spec, g));
    GraphState(
      g.records[IdOf(spec, key) := status],
      if key.TaskStatus? && status.Completed? && oracle.report(key.task).Partial? then g.partialMarks + {key.task} else g.partialMarks,
      if key.Work? then g.started + [key.task] else g.started,
      status.Ready?)
  }

  ghost predicate GraphNext(spec: Spec, oracle: Oracle, g: GraphState, g': GraphState, key: StepKey) {
    !g.stopped && Runnable(spec, g.records, key) && g' == Execute(spec, oracle, g, key)
  }

  ghost predicate IsGraphRun(spec: Spec, oracle: Oracle, run: seq<GraphState>, keys: seq<StepKey>) {
    && |run| == |keys| + 1
    && Initial(spec, run[0].records) && run[0].partialMarks == {} && run[0].started == [] && !run[0].stopped
    && forall j | 0 <= j < |keys| :: GraphNext(spec, oracle, run[j], run[j + 1], keys[j])
  }

  /** The drained or interrupted end of a run (`shouldStop` and the stop policy). */
  ghost predicate Ended(spec: Spec, g: GraphState) {
    g.stopped || forall key :: !Runnable(spec, g.records, key)
  }

  function CountSteps(spec: Spec, g: GraphState, partly: bool, n: nat): nat
    requires n <= |spec.taskIds|
  {
    if n == 0 then 0
    else CountSteps(spec, g, partly, n - 1) +
         (if StatusOf(spec, g.records, TaskStatus(n - 1)).Completed? && (partly <==> n - 1 in g.partialMarks) then 1 else 0)
  }

  /** Source commits that are blocked do not count as blocked tasks. */
  function BlockedTasks(spec: Spec, g: GraphState): nat {
    var work := set i: nat | i < |spec.taskIds| && StatusOf(spec, g.records, Work(i)).Blocked?;
    if work != {} || exists i: nat | i < |spec.taskIds| :: StatusOf(spec, g.records, TaskStatus(i)).Blocked? then
      if |work| > 1 then |work| else 1
    else 0
  }

  function ToDriverResult(spec: Spec, g: GraphState): RunResult {
    var n := |spec.taskIds|;
    var done := CountSteps(spec, g, false, n);
    if g.stopped then
      RunResult(FinalizationFailed, done, 0, |g.started|)
    else if forall key | key in AllKeys(spec) :: StatusOf(spec, g.records, key).Completed? then
      RunResult(Finished, done, CountSteps(spec, g, true, n), |g.started|)
    else if exists key | key in AllKeys(spec) :: StatusOf(spec, g.records, key).Blocked? then
      RunResult(BlockedRun, done, BlockedTasks(spec, g), |g.started|)
    else
      RunResult(Aborted, done, 0, |g.started|)
  }

  // ----- the simulation -----

  /** The verdict of a step, computed from the oracle alone. */
  ghost function Fate(spec: Spec, oracle: Oracle, key: StepKey): StepStatus {
    Verdict(spec, oracle, key, forall i | 0 <= i < |spec.taskIds| :: oracle.report(i).Success?)
  }

  ghost predicate StatusesAreFates(spec: Spec, oracle: Oracle, s: Records) {
    forall key | ValidKey(spec, key) :: StatusOf(spec, s, key) in {Pending, Fate(spec, oracle, key)}
  }

  ghost predicate MarksArePartial(spec: Spec, oracle: Oracle, g: GraphState) {
    forall i :: i in g.partialMarks <==>
      0 <= i < |spec.taskIds| && StatusOf(spec, g.records, TaskStatus(i)).Completed? && oracle.report(i).Partial?
  }

  ghost predicate StoppedByRetry(spec: Spec, g: GraphState) {
    g.stopped <==> exists key :: ValidKey(spec, key) && StatusOf(spec, g.records, key).Ready?
  }

  ghost predicate StartedInOrder(spec: Spec, g: GraphState) {
    && |g.started| <= |spec.taskIds|
    && (forall i | 0 <= i < |g.started| :: g.started[i] == i)
    && (forall i | 0 <= i < |spec.taskIds| :: StatusOf(spec, g.records, Work(i)).Pending? <==> i >= |g.started|)
  }

  ghost predicate Invariant(spec: Spec, oracle: Oracle, g: GraphState) {
    && Closed(spec, g.records)
    && StatusesAreFates(spec, oracle, g.records)
    && MarksArePartial(spec, oracle, g)
    && StoppedByRetry(spec, g)
    && StartedInOrder(spec, g)
  }

  lemma FateWhenAllBelowCompleted(spec: Spec, oracle: Oracle, g: GraphState, key: StepKey)
    requires Invariant(spec, oracle, g) && Runnable(spec, g.records, key)
    ensures Verdict(spec, oracle, key, AllTaskStatusFinalizersDone(spec, g)) == Fate(spec, oracle, key)
  {
    if key.StateCommit? {
      forall i | 0 <= i < |spec.taskIds|
        ensures StatusOf(spec, g.records, TaskStatus(i)).Completed?
        ensures DoneStatusStep(spec, g, i) <==> oracle.report(i).Success?
      {
        ClosedIsLinear(spec, g.records, TaskStatus(i), key);
        ClosedIsLinear(spec, g.records, Work(i), key);
        assert Fate(spec, oracle, Work(i)).Completed?;
      }
    }
  }

  lemma NextTaskStarts(spec: Spec, oracle: Oracle, g: GraphState, key: StepKey)
    requires Invariant(spec, oracle, g) && !g.stopped && Runnable(spec, g.records, key)
    ensures StatusOf(spec, g.records, key).Pending?
    ensures key.Work? ==> key.task == |g.started|
  {
    if key.Work? && |g.started| < key.task {
      ClosedIsLinear(spec, g.records, Work(|g.started|), key);
    }
  }

  ghost predicate OnlyChanges(spec: Spec, s: Records, s': Records, key: StepKey) {
    forall other | ValidKey(spec, other) && other != key :: StatusOf(spec, s', other) == StatusOf(spec, s, other)
  }

  lemma StepKeepsMarks(spec: Spec, oracle: Oracle, g: GraphState, g': GraphState, key: StepKey)
    requires MarksArePartial(spec, oracle, g) && ValidKey(spec, key) && g' == Execute(spec, oracle, g, key)
    requires OnlyChanges(spec, g.records, g'.records, key) && StatusOf(spec, g.records, key).Pending?
    ensures MarksArePartial(spec, oracle, g')
  {
    forall i | 0 <= i < |spec.taskIds| && key != TaskStatus(i)
      ensures StatusOf(spec, g'.records, TaskStatus(i)) == StatusOf(spec, g.records, TaskStatus(i))
    {
    }
  }

  lemma StepKeepsStarted(spec: Spec, oracle: Oracle, g: GraphState, g': GraphState, key: StepKey)
    requires StartedInOrder(spec, g) && ValidKey(spec, key) && g' == Execute(spec, oracle, g, key)
    requires OnlyChanges(spec, g.records, g'.records, key) && (key.Work? ==> key.task == |g.started|)
    ensures StartedInOrder(spec, g')
  {
    forall i | 0 <= i < |spec.taskIds| && key != Work(i)
      ensures StatusOf(spec, g'.records, Work(i)) == StatusOf(spec, g.records, Work(i))
    {
    }
  }

  lemma StepKeepsInvariant(spec: Spec, oracle: Oracle, g: GraphState, g': GraphState, key: StepKey)
    requires UniqueIds(spec) && Invariant(spec, oracle, g) && GraphNext(spec, oracle, g, g', key)
    ensures Invariant(spec, oracle, g')
  {
    FateWhenAllBelowCompleted(spec, oracle, g, key);
    NextTaskStarts(spec, oracle, g, key);
    assert StatusOf(spec, g'.records, key) == Fate(spec, oracle, key);
    MoveKeepsClosed(spec, g.records, g'.records, key);
    StepKeepsMarks(spec, oracle, g, g', key);
    StepKeepsStarted(spec, oracle, g, g', key);
    assert StoppedByRetry(spec, g') by {
      if g'.stopped {
        assert ValidKey(spec, key) && StatusOf(spec, g'.records, key).Ready?;
      }
      forall other | ValidKey(spec, other) && other != key ensures !StatusOf(spec, g'.records, other).Ready? {
        assert !StatusOf(spec, g.records, other).Ready?;
      }
    }
  }

  lemma StartIsInvariant(spec: Spec, oracle: Oracle, g: GraphState)
    requires Initial(spec, g.records) && g.partialMarks == {} && g.started == [] && !g.stopped
    ensures Invariant(spec, oracle, g)
  {
    forall key | ValidKey(spec, key) ensures StatusOf(spec, g.records, key).Pending? {
    }
  }

  lemma StepOfRun(spec: Spec, oracle: Oracle, run: seq<GraphState>, keys: seq<StepKey>, j: nat)
    requires IsGraphRun(spec, oracle, run, keys) && 0 < j < |run|
    ensures GraphNext(spec, oracle, run[j - 1], run[j], keys[j - 1])
  {
    assert GraphNext(spec, oracle, run[j - 1], run[j - 1 + 1], keys[j - 1]);
  }

  lemma {:induction false} RunKeepsInvariant(spec: Spec, oracle: Oracle, run: seq<GraphState>, keys: seq<StepKey>, j: nat)
    requires UniqueIds(spec) && IsGraphRun(spec, oracle, run, keys) && j < |run|
    ensures Invariant(spec, oracle, run[j])
  {
    if j > 0 {
      RunKeepsInvariant(spec, oracle, run, keys, j - 1);
      StepOfRun(spec, oracle, run, keys, j);
      StepKeepsInvariant(spec, oracle, run[j - 1], run[j], keys[j - 1]);
    } else {
      StartIsInvariant(spec, oracle, run[0]);
    }
  }

  /** Everything below `key` completes, so the run gets as far as `key`. */
  ghost predicate Reached(spec: Spec, oracle: Oracle, key: StepKey) {
    forall low | ValidKey(spec, low) && Rank(spec, low) < Rank(spec, key) :: Fate(spec, oracle, low).Completed?
  }

  /** The end of every run is the same: each reached step has its fate, no other step was touched. */
  lemma {:induction false} EndIsDetermined(spec: Spec, oracle: Oracle, g: GraphState, key: StepKey)
    requires Invariant(spec, oracle, g) && Ended(spec, g) && ValidKey(spec, key)
    ensures StatusOf(spec, g.records, key) == if Reached(spec, oracle, key) then Fate(spec, oracle, key) else Pending
    decreases Rank(spec, key)
  {
    var s := g.records;
    DependenciesByKey(spec, s, key);
    DependenciesRankLower(spec, key);
    if Reached(spec, oracle, key) {
      forall d | d in DependsOn(spec, key) ensures StatusOf(spec, s, d).Completed? {
        EndIsDetermined(spec, oracle, g, d);
      }
      if StatusOf(spec, s, key).Pending? {
        assert Runnable(spec, s, key);
        var r :| ValidKey(spec, r) && StatusOf(spec, s, r).Ready?;
        if Rank(spec, key) < Rank(spec, r) {
          ClosedIsLinear(spec, s, key, r);
        } else if Rank(spec, key) == Rank(spec, r) {
          RankInjective(spec, key, r);
        }
      }
    } else if !StatusOf(spec, s, key).Pending? {
      forall low | ValidKey(spec, low) && Rank(spec, low) < Rank(spec, key) ensures Fate(spec, oracle, low).Completed? {
        ClosedIsLinear(spec, s, low, key);
      }
    }
  }

  /** The loop passes a task exactly when all its steps complete. */
  lemma PassesIff(spec: Spec, oracle: Oracle, i: nat)
    ensures Passes(spec, oracle, i) <==>
            && Fate(spec, oracle, Work(i)).Completed?
            && (spec.commitPolicy.DriverCommits? ==> Fate(spec, oracle, SourceCommit(i)).Completed?)
            && Fate(spec, oracle, TaskStatus(i)).Completed?
  {
  }

  lemma ReachedPasses(spec: Spec, oracle: Oracle, high: StepKey, j: nat)
    requires ValidKey(spec, high) && Reached(spec, oracle, high)
    requires j < |spec.taskIds| && Rank(spec, TaskStatus(j)) < Rank(spec, high)
    ensures Passes(spec, oracle, j)
  {
    assert ValidKey(spec, Work(j)) && ValidKey(spec, TaskStatus(j));
    assert ValidKey(spec, SourceCommit(j)) ==> Fate(spec, oracle, SourceCommit(j)).Completed?;
    PassesIff(spec, oracle, j);
  }

  lemma PassesReaches(spec: Spec, oracle: Oracle, i: nat)
    requires i < |spec.taskIds| && forall j | 0 <= j < i :: Passes(spec, oracle, j)
    ensures Reached(spec, oracle, Work(i))
  {
    forall low | ValidKey(spec, low) && Rank(spec, low) < Rank(spec, Work(i)) ensures Fate(spec, oracle, low).Completed? {
      PassesIff(spec, oracle, low.task);
    }
  }

  lemma ClosedIff(spec: Spec, oracle: Oracle, i: nat)
    requires i < |spec.taskIds|
    ensures Reached(spec, oracle, TaskStatus(i)) && Fate(spec, oracle, TaskStatus(i)).Completed?
            <==> Reached(spec, oracle, Work(i)) && Passes(spec, oracle, i)
  {
    PassesIff(spec, oracle, i);
    if Reached(spec, oracle, TaskStatus(i)) {
      assert ValidKey(spec, Work(i)) && Fate(spec, oracle, Work(i)).Completed?;
      assert ValidKey(spec, SourceCommit(i)) ==> Fate(spec, oracle, SourceCommit(i)).Completed?;
    }
    if Reached(spec, oracle, Work(i)) && Passes(spec, oracle, i) {
      forall low | ValidKey(spec, low) && Rank(spec, low) < Rank(spec, TaskStatus(i)) ensures Fate(spec, oracle, low).Completed? {
        if Rank(spec, low) >= Rank(spec, Work(i)) {
          assert low == Work(i) || low == SourceCommit(i);
        }
      }
    }
  }

  lemma ReachedIff(spec: Spec, oracle: Oracle, i: nat)
    requires i < |spec.taskIds|
    ensures Reached(spec, oracle, Work(i)) <==> forall j | 0 <= j < i :: Passes(spec, oracle, j)
    ensures Reached(spec, oracle, TaskStatus(i)) && Fate(spec, oracle, TaskStatus(i)).Completed?
            <==> forall j | 0 <= j < i + 1 :: Passes(spec, oracle, j)
  {
    if Reached(spec, oracle, Work(i)) {
      forall j | 0 <= j < i ensures Passes(spec, oracle, j) {
        ReachedPasses(spec, oracle, Work(i), j);
      }
    } else if forall j | 0 <= j < i :: Passes(spec, oracle, j) {
      PassesReaches(spec, oracle, i);
    }
    ClosedIff(spec, oracle, i);
  }

  lemma EndOfTask(spec: Spec, oracle: Oracle, g: GraphState, i: nat)
    requires Invariant(spec, oracle, g) && Ended(spec, g) && i < |spec.taskIds|
    ensures var stop := FirstStop(spec, oracle, 0);
      && (StatusOf(spec, g.records, TaskStatus(i)).Completed? <==> i < stop)
      && (StatusOf(spec, g.records, Work(i)).Pending? <==> i > stop)
      && (i < stop ==> oracle.report(i).Success? || oracle.report(i).Partial?)
  {
    EndIsDetermined(spec, oracle, g, Work(i));
    EndIsDetermined(spec, oracle, g, TaskStatus(i));
    ReachedIff(spec, oracle, i);
    assert i < FirstStop(spec, oracle, 0) ==> Passes(spec, oracle, i);
    assert !Fate(spec, oracle, Work(i)).Pending?;
  }

  /** What the records say about a task when the loop stops at `stop`. */
  ghost predicate TaskEnded(spec: Spec, oracle: Oracle, g: GraphState, stop: nat, i: nat)
    requires i < |spec.taskIds|
  {
    && (StatusOf(spec, g.records, TaskStatus(i)).Completed? <==> i < stop)
    && (i in g.partialMarks <==> i < stop && oracle.report(i).Partial?)
    && (i < stop ==> oracle.report(i).Success? || oracle.report(i).Partial?)
  }

  ghost predicate TasksEnded(spec: Spec, oracle: Oracle, g: GraphState, stop: nat) {
    forall i | 0 <= i < |spec.taskIds| :: TaskEnded(spec, oracle, g, stop, i)
  }

  /** What the step records of an ended run say about the tasks. */
  lemma EndOfTasks(spec: Spec, oracle: Oracle, g: GraphState)
    requires Invariant(spec, oracle, g) && Ended(spec, g)
    ensures TasksEnded(spec, oracle, g, FirstStop(spec, oracle, 0))
    ensures |g.started| == LoopResult(spec, oracle).tasksStarted
  {
    var n, stop := |spec.taskIds|, FirstStop(spec, oracle, 0);
    forall i | 0 <= i < n
      ensures StatusOf(spec, g.records, TaskStatus(i)).Completed? <==> i < stop
      ensures StatusOf(spec, g.records, Work(i)).Pending? <==> i > stop
      ensures i < stop ==> oracle.report(i).Success? || oracle.report(i).Partial?
    {
      EndOfTask(spec, oracle, g, i);
    }
    var started := |g.started|;
    if started < n {
      assert StatusOf(spec, g.records, Work(started)).Pending?;
    }
    if stop < n {
      assert !StatusOf(spec, g.records, Work(stop)).Pending?;
    }
    if stop + 1 < n {
      assert StatusOf(spec, g.records, Work(stop + 1)).Pending?;
    }
  }

  lemma {:induction false} CountsAgree(spec: Spec, oracle: Oracle, g: GraphState, partly: bool, stop: nat, n: nat)
    requires n <= |spec.taskIds|
    requires TasksEnded(spec, oracle, g, stop)
    ensures CountSteps(spec, g, partly, n) == Count(oracle, if partly then Partial else Success, if n <= stop then n else stop)
  {
    if n > 0 {
      CountsAgree(spec, oracle, g, partly, stop, n - 1);
      assert TaskEnded(spec, oracle, g, stop, n - 1);
    }
  }

  /** No task stops the loop exactly when no step of a task stops the graph. */
  lemma NoTaskStopsIff(spec: Spec, oracle: Oracle)
    ensures FirstStop(spec, oracle, 0) == |spec.taskIds| <==>
            forall key | ValidKey(spec, key) && !key.StateCommit? :: Fate(spec, oracle, key).Completed?
  {
    if FirstStop(spec, oracle, 0) == |spec.taskIds| {
      forall key | ValidKey(spec, key) && !key.StateCommit? ensures Fate(spec, oracle, key).Completed? {
        PassesIff(spec, oracle, key.task);
      }
    } else {
      var i := FirstStop(spec, oracle, 0);
      PassesIff(spec, oracle, i);
      assert ValidKey(spec, Work(i)) && ValidKey(spec, TaskStatus(i));
      assert spec.commitPolicy.DriverCommits? ==> ValidKey(spec, SourceCommit(i));
    }
  }

  /** The loop finishes exactly when every compiled step completes. */
  lemma FinishesIff(spec: Spec, oracle: Oracle)
    ensures LoopResult(spec, oracle).outcome.Finished? <==>
            forall key | ValidKey(spec, key) :: Fate(spec, oracle, key).Completed?
  {
    var n, stop := |spec.taskIds|, FirstStop(spec, oracle, 0);
    NoTaskStopsIff(spec, oracle);
    CountPositive(oracle, Partial, n);
    if stop == n {
      forall i | 0 <= i < n ensures oracle.report(i).Success? || oracle.report(i).Partial? {
        assert Passes(spec, oracle, i);
      }
      assert (forall i | 0 <= i < n :: oracle.report(i).Success?) <==> Count(oracle, Partial, n) == 0;
      assert ValidKey(spec, StateCommit) <==> ResolveStateCommitPolicy(spec).FinalStateCommit?;
    }
  }

  /** The loop stops at a task whose partial report could not be written to it. The graph never gets to
      that task's finalizers: its work step has failed already. */
  predicate StopsAtUnwrittenPartial(spec: Spec, oracle: Oracle) {
    var stop := FirstStop(spec, oracle, 0);
    stop < |spec.taskIds| && oracle.report(stop).Partial? && !oracle.updates(stop)
  }

  /**
   Every run of the compiled graph, under every scheduler, starts the same tasks in the same order
   as the loop, closes as many of them as Done, and finishes exactly when the loop finishes, then
   with the same counts; it stops for a failed finalization exactly when the loop does, unless that is
   for a partial report that could not be written.
   */
  lemma GraphRefinesLoop(spec: Spec, oracle: Oracle, run: seq<GraphState>, keys: seq<StepKey>)
    requires UniqueIds(spec) && IsGraphRun(spec, oracle, run, keys) && Ended(spec, run[|keys|])
    ensures var graph, loop := ToDriverResult(spec, run[|keys|]), LoopResult(spec, oracle);
            && run[|keys|].started == seq(loop.tasksStarted, i => i)
            && graph.tasksDone == loop.tasksDone
            && (loop.outcome.Finished? <==> graph.outcome.Finished?)
            && (loop.outcome.Finished? ==> graph == loop)
            && (graph.outcome.FinalizationFailed? <==> loop.outcome.FinalizationFailed? && !StopsAtUnwrittenPartial(spec, oracle))
  {
    RunKeepsInvariant(spec, oracle, run, keys, |keys|);
    EndAgrees(spec, oracle, run[|keys|]);
  }

  lemma EndAgrees(spec: Spec, oracle: Oracle, g: GraphState)
    requires Invariant(spec, oracle, g) && Ended(spec, g)
    ensures var graph, loop := ToDriverResult(spec, g), LoopResult(spec, oracle);
            && g.started == seq(loop.tasksStarted, i => i)
            && graph.tasksDone == loop.tasksDone
            && (loop.outcome.Finished? <==> graph.outcome.Finished?)
            && (loop.outcome.Finished? ==> graph == loop)
            && (graph.outcome.FinalizationFailed? <==> loop.outcome.FinalizationFailed? && !StopsAtUnwrittenPartial(spec, oracle))
  {
    StartsAndCounts(spec, oracle, g);
    AllCompletedIff(spec, oracle, g);
    StoppedIff(spec, oracle, g);
  }

  lemma StartsAndCounts(spec: Spec, oracle: Oracle, g: GraphState)
    requires Invariant(spec, oracle, g) && Ended(spec, g)
    ensures var loop := LoopResult(spec, oracle);
            && g.started == seq(loop.tasksStarted, i => i)
            && CountSteps(spec, g, false, |spec.taskIds|) == loop.tasksDone
            && (loop.outcome.Finished? ==> CountSteps(spec, g, true, |spec.taskIds|) == loop.tasksBlocked)
  {
    var n, stop := |spec.taskIds|, FirstStop(spec, oracle, 0);
    EndOfTasks(spec, oracle, g);
    CountsAgree(spec, oracle, g, false, stop, n);
    CountsAgree(spec, oracle, g, true, stop, n);
  }

  lemma StoppedMeansFinalizationFailed(spec: Spec, oracle: Oracle, g: GraphState)
    requires Invariant(spec, oracle, g) && g.stopped
    ensures LoopResult(spec, oracle).outcome.FinalizationFailed? && !StopsAtUnwrittenPartial(spec, oracle)
  {
    var r :| ValidKey(spec, r) && StatusOf(spec, g.records, r).Ready?;
    EndIsDetermined(spec, oracle, g, r);
    RetryMeansFinalizationFailed(spec, oracle, r);
  }

  lemma AllCompletedIff(spec: Spec, oracle: Oracle, g: GraphState)
    requires Invariant(spec, oracle, g) && Ended(spec, g)
    ensures (forall key | key in AllKeys(spec) :: StatusOf(spec, g.records, key).Completed?)
            <==> LoopResult(spec, oracle).outcome.Finished?
  {
    FinishesIff(spec, oracle);
    CompiledKeys(spec);
    forall key | ValidKey(spec, key) { EndIsDetermined(spec, oracle, g, key); }
    if forall key | ValidKey(spec, key) :: Fate(spec, oracle, key).Completed? {
      forall key | ValidKey(spec, key) ensures Reached(spec, oracle, key) {
      }
    }
  }

  lemma RetryMeansFinalizationFailed(spec: Spec, oracle: Oracle, r: StepKey)
    requires ValidKey(spec, r) && Reached(spec, oracle, r) && Fate(spec, oracle, r).Ready?
    ensures LoopResult(spec, oracle).outcome.FinalizationFailed? && !StopsAtUnwrittenPartial(spec, oracle)
  {
    var n, stop := |spec.taskIds|, FirstStop(spec, oracle, 0);
    forall low | ValidKey(spec, low) && Rank(spec, low) < Rank(spec, r) ensures Fate(spec, oracle, low).Completed? {
    }
    if r.StateCommit? {
      forall i | 0 <= i < n ensures Passes(spec, oracle, i) {
        PassesIff(spec, oracle, i);
        assert Rank(spec, Work(i)) < Rank(spec, r) && Rank(spec, TaskStatus(i)) < Rank(spec, r);
        assert ValidKey(spec, SourceCommit(i)) ==> Rank(spec, SourceCommit(i)) < Rank(spec, r);
      }
      CountPositive(oracle, Partial, stop);
    } else {
      var i := r.task;
      assert Reached(spec, oracle, Work(i));
      ReachedIff(spec, oracle, i);
      PassesIff(spec, oracle, i);
      assert r.TaskStatus? ==> Fate(spec, oracle, Work(i)).Completed?;
      assert r.TaskStatus? && spec.commitPolicy.DriverCommits? ==> Fate(spec, oracle, SourceCommit(i)).Completed?;
      assert stop == i;
    }
  }

  /** Everything below a finalizer of the task that stops the loop completes, if the steps before it do. */
  lemma ReachedFinalizer(spec: Spec, oracle: Oracle, i: nat, key: StepKey)
    requires ValidKey(spec, key) && (key == SourceCommit(i) || key == TaskStatus(i))
    requires forall j | 0 <= j < i :: Passes(spec, oracle, j)
    requires Fate(spec, oracle, Work(i)).Completed?
    requires key.TaskStatus? && spec.commitPolicy.DriverCommits? ==> Fate(spec, oracle, SourceCommit(i)).Completed?
    ensures Reached(spec, oracle, key)
  {
    ReachedIff(spec, oracle, i);
    forall low | ValidKey(spec, low) && Rank(spec, low) < Rank(spec, key) ensures Fate(spec, oracle, low).Completed? {
      if Rank(spec, low) >= Rank(spec, Work(i)) {
        assert low == Work(i) || low == SourceCommit(i);
      }
    }
  }

  /** If the loop fails to finalize, a step of the graph is reached that ends waiting for a retry. */
  lemma FinalizationFailedMeansRetry(spec: Spec, oracle: Oracle) returns (r: StepKey)
    requires LoopResult(spec, oracle).outcome.FinalizationFailed? && !StopsAtUnwrittenPartial(spec, oracle)
    ensures ValidKey(spec, r) && Reached(spec, oracle, r) && Fate(spec, oracle, r).Ready?
  {
    var n, stop := |spec.taskIds|, FirstStop(spec, oracle, 0);
    if stop == n {
      r := StateCommit;
      NoTaskStopsIff(spec, oracle);
      CountPositive(oracle, Partial, n);
      forall i | 0 <= i < n ensures oracle.report(i).Success? {
        assert Passes(spec, oracle, i);
      }
    } else {
      assert oracle.report(stop).Success? || (oracle.report(stop).Partial? && oracle.updates(stop));
      r := if oracle.commit(stop).CommitFails? then SourceCommit(stop) else TaskStatus(stop);
      ReachedFinalizer(spec, oracle, stop, r);
    }
  }

  /** Exactly when the graph stops for a retry. */
  lemma StoppedIff(spec: Spec, oracle: Oracle, g: GraphState)
    requires Invariant(spec, oracle, g) && Ended(spec, g)
    ensures g.stopped <==> LoopResult(spec, oracle).outcome.FinalizationFailed? && !StopsAtUnwrittenPartial(spec, oracle)
  {
    if g.stopped {
      StoppedMeansFinalizationFailed(spec, oracle, g);
    } else if LoopResult(spec, oracle).outcome.FinalizationFailed? && !StopsAtUnwrittenPartial(spec, oracle) {
      var r := FinalizationFailedMeansRetry(spec, oracle);
      EndIsDetermined(spec, oracle, g, r);
    }
  }

  function PendingKeys(spec: Spec, g: GraphState): set<StepKey> {
    set key | key in AllKeys(spec) && StatusOf(spec, g.records, key).Pending?
  }

  lemma PendingKeysShrink(spec: Spec, g: GraphState, g': GraphState, key: StepKey)
    requires ValidKey(spec, key) && OnlyChanges(spec, g.records, g'.records, key)
    requires StatusOf(spec, g.records, key).Pending? && !StatusOf(spec, g'.records, key).Pending?
    ensures PendingKeys(spec, g') < PendingKeys(spec, g)
  {
    CompiledKeys(spec);
    assert key in PendingKeys(spec, g);
    forall k | k in PendingKeys(spec, g') ensures k in PendingKeys(spec, g) {
      assert k != key;
    }
  }

  lemma StepUsesUpAKey(spec: Spec, oracle: Oracle, g: GraphState, g': GraphState, key: StepKey)
    requires UniqueIds(spec) && Invariant(spec, oracle, g) && GraphNext(spec, oracle, g, g', key)
    ensures PendingKeys(spec, g') < PendingKeys(spec, g)
  {
    NextTaskStarts(spec, oracle, g, key);
    MoveKeepsClosed(spec, g.records, g'.records, key);
    PendingKeysShrink(spec, g, g', key);
  }

  /** Drains the graph, taking any runnable step at each pass; it ends, and where the loop ends. */
  method RunDriveOnGraph(spec: Spec, oracle: Oracle) returns (result: RunResult)
    requires UniqueIds(spec)
    ensures var loop := LoopResult(spec, oracle);
            && result.tasksDone == loop.tasksDone && result.tasksStarted == loop.tasksStarted
            && (result.outcome.Finished? <==> loop.outcome.Finished?)
            && (loop.outcome.Finished? ==> result == loop)
            && (result.outcome.FinalizationFailed? <==> loop.outcome.FinalizationFailed? && !StopsAtUnwrittenPartial(spec, oracle))
            && var stop := FirstStop(spec, oracle, 0);
               result.outcome.BlockedRun? <==> stop < |spec.taskIds| && oracle.updates(stop) && !oracle.report(stop).Success?
  {
    var g := GraphState(map[], {}, [], false);
    StartIsInvariant(spec, oracle, g);
    CompiledKeys(spec);
    while !g.stopped && exists key | key in AllKeys(spec) :: Runnable(spec, g.records, key)
      invariant Invariant(spec, oracle, g)
      decreases PendingKeys(spec, g)
    {
      var key :| key in AllKeys(spec) && Runnable(spec, g.records, key);
      var next := Execute(spec, oracle, g, key);
      StepKeepsInvariant(spec, oracle, g, next, key);
      StepUsesUpAKey(spec, oracle, g, next, key);
      g := next;
    }
    EndAgrees(spec, oracle, g);
    GraphBlockedIff(spec, oracle, g);
    result := ToDriverResult(spec, g);
  }

  // ----- what the results mean, by the oracle alone -----

  /** The loop goes on after a task exactly if its update works, its commit is not refused, and it succeeded,
      or was partial in a batch that continues on partial results. */
  lemma PassesMeans(spec: Spec, oracle: Oracle, i: nat)
    ensures Passes(spec, oracle, i) <==>
      && oracle.updates(i) && !(spec.commitPolicy.DriverCommits? && oracle.commit(i).CommitFails?)
      && (oracle.report(i).Success? || (oracle.report(i).Partial? && spec.partialContinue))
  {
  }

  /** Exactly when the loop ends blocked, and when aborted: a worker's failure and a partial task whose commit
      is refused block the batch, any other partial task that stops it aborts it. */
  lemma BlockedOrAbortedIff(spec: Spec, oracle: Oracle)
    ensures var n, stop, loop := |spec.taskIds|, FirstStop(spec, oracle, 0), LoopResult(spec, oracle);
      var refused := spec.commitPolicy.DriverCommits? && oracle.commit(stop).CommitFails?;
      && (loop.outcome.BlockedRun? <==>
          stop < n && oracle.updates(stop) && (oracle.report(stop).Failure? || (oracle.report(stop).Partial? && refused)))
      && (loop.outcome.Aborted? <==> stop < n && oracle.updates(stop) && oracle.report(stop).Partial? && !refused)
  {
  }

  /** Exactly when the loop ends with a failed finalization, and when with an error. */
  lemma FinalizationFailedOrThrewIff(spec: Spec, oracle: Oracle)
    ensures var n, stop, loop := |spec.taskIds|, FirstStop(spec, oracle, 0), LoopResult(spec, oracle);
      var driver, commit := spec.commitPolicy.DriverCommits?, oracle.commit(stop);
      var pending := stop < n && driver && !oracle.report(stop).Failure? &&
                     if commit.CommitFails? then oracle.report(stop).Success? && oracle.updates(stop)
                     else commit.Commits? && !oracle.updates(stop);
      && (loop.outcome.FinalizationFailed? <==>
            pending || (stop == n && (forall i | 0 <= i < n :: oracle.report(i).Success?) &&
                        ResolveStateCommitPolicy(spec).FinalStateCommit? && !oracle.stateCommit))
      && (loop.outcome.Threw? <==> stop < n && !pending && !oracle.updates(stop))
  {
    var n, stop := |spec.taskIds|, FirstStop(spec, oracle, 0);
    CountPositive(oracle, Partial, stop);
    if stop == n {
      forall i | 0 <= i < n ensures oracle.report(i).Success? || oracle.report(i).Partial? {
        assert Passes(spec, oracle, i);
      }
    }
  }

  ghost function TasksWith(oracle: Oracle, report: Report, n: nat): set<nat> {
    set i: nat | i < n && oracle.report(i) == report
  }

  lemma {:induction false} CountIsCardinality(oracle: Oracle, report: Report, n: nat)
    ensures Count(oracle, report, n) == |TasksWith(oracle, report, n)|
  {
    if n > 0 {
      CountIsCardinality(oracle, report, n - 1);
      OneMoreTask(oracle, report, n - 1);
    }
  }

  lemma OneMoreTask(oracle: Oracle, report: Report, n: nat)
    ensures TasksWith(oracle, report, n + 1) == TasksWith(oracle, report, n) + (if oracle.report(n) == report then {n} else {})
  {
  }

  /** What the counters hold: the successful tasks before the one that stops the loop, the partial ones
      before it, and that one too if it ends blocked or aborts; it is also the last that was started. */
  lemma CountersMean(spec: Spec, oracle: Oracle)
    ensures var n, stop, loop := |spec.taskIds|, FirstStop(spec, oracle, 0), LoopResult(spec, oracle);
      && loop.tasksDone == |set i: nat | i < stop && oracle.report(i) == Success|
      && loop.tasksBlocked == |set i: nat | i < stop && oracle.report(i) == Partial| +
                              (if loop.outcome.BlockedRun? || loop.outcome.Aborted? then 1 else 0)
      && loop.tasksStarted == (if stop < n then stop + 1 else n)
      && (loop.outcome.BlockedRun? || loop.outcome.Aborted? ==> loop.tasksDone + loop.tasksBlocked == loop.tasksStarted)
      && (loop.outcome.Finished? ==> loop.tasksDone + loop.tasksBlocked == loop.tasksStarted == n)
  {
    var stop := FirstStop(spec, oracle, 0);
    CountIsCardinality(oracle, Success, stop);
    CountIsCardinality(oracle, Partial, stop);
    EveryTaskCounts(spec, oracle, stop);
  }

  lemma {:induction false} EveryTaskCounts(spec: Spec, oracle: Oracle, n: nat)
    requires forall i | 0 <= i < n :: Passes(spec, oracle, i)
    ensures Count(oracle, Success, n) + Count(oracle, Partial, n) == n
  {
    if n > 0 {
      EveryTaskCounts(spec, oracle, n - 1);
      assert Passes(spec, oracle, n - 1);
    }
  }

  /** Exactly when the graph ends blocked: at a task that did not succeed and whose update works. If none
      stops it, or none blocks it and no finalization failed, it ends finished or aborted. The blocked task
      counts as one, unless it is its source commit that is blocked. */
  lemma GraphBlockedIff(spec: Spec, oracle: Oracle, g: GraphState)
    requires Invariant(spec, oracle, g) && Ended(spec, g)
    ensures var n, stop, graph := |spec.taskIds|, FirstStop(spec, oracle, 0), ToDriverResult(spec, g);
      && (graph.outcome.BlockedRun? <==> stop < n && oracle.updates(stop) && !oracle.report(stop).Success?)
      && (graph.outcome.Finished? <==> LoopResult(spec, oracle).outcome.Finished?)
      && !graph.outcome.Threw?
      && (!graph.outcome.Finished? ==>
          graph.tasksBlocked == if graph.outcome.BlockedRun? && !(oracle.report(stop).Partial? && spec.partialContinue) then 1 else 0)
  {
    AllCompletedIff(spec, oracle, g);
    StoppedIff(spec, oracle, g);
    CompiledKeys(spec);
    SomeStepBlockedIff(spec, oracle, g);
    BlockedTasksIs(spec, oracle, g);
  }

  lemma BlockedTasksIs(spec: Spec, oracle: Oracle, g: GraphState)
    requires Invariant(spec, oracle, g) && Ended(spec, g)
    ensures var n, stop := |spec.taskIds|, FirstStop(spec, oracle, 0);
      BlockedTasks(spec, g) == if stop < n && oracle.updates(stop) && !oracle.report(stop).Success? &&
                                  !(oracle.report(stop).Partial? && spec.partialContinue) then 1 else 0
  {
    var n, stop := |spec.taskIds|, FirstStop(spec, oracle, 0);
    var blocked := stop < n && oracle.updates(stop) && !oracle.report(stop).Success? && !(oracle.report(stop).Partial? && spec.partialContinue);
    var work := set i: nat | i < n && StatusOf(spec, g.records, Work(i)).Blocked?;
    forall i: nat | i < n
      ensures StatusOf(spec, g.records, Work(i)).Blocked? <==> i == stop && blocked
      ensures !StatusOf(spec, g.records, TaskStatus(i)).Blocked?
    {
      BlockedTaskIs(spec, oracle, g, i);
    }
    if blocked {
      assert work == {stop};
    } else {
      assert work == {};
    }
  }

  lemma BlockedTaskIs(spec: Spec, oracle: Oracle, g: GraphState, i: nat)
    requires Invariant(spec, oracle, g) && Ended(spec, g) && i < |spec.taskIds|
    ensures StatusOf(spec, g.records, Work(i)).Blocked? <==>
      i == FirstStop(spec, oracle, 0) && oracle.updates(i) && !oracle.report(i).Success? && !(oracle.report(i).Partial? && spec.partialContinue)
    ensures !StatusOf(spec, g.records, TaskStatus(i)).Blocked?
  {
    EndIsDetermined(spec, oracle, g, Work(i));
    EndIsDetermined(spec, oracle, g, TaskStatus(i));
    ReachedIff(spec, oracle, i);
    PassesMeans(spec, oracle, i);
    if Reached(spec, oracle, Work(i)) && !Passes(spec, oracle, i) {
      FirstStopIs(spec, oracle, i);
    }
    if Reached(spec, oracle, TaskStatus(i)) {
      assert Rank(spec, Work(i)) < Rank(spec, TaskStatus(i));
      assert Fate(spec, oracle, Work(i)).Completed?;
    }
  }

  lemma SomeStepBlockedIff(spec: Spec, oracle: Oracle, g: GraphState)
    requires Invariant(spec, oracle, g) && Ended(spec, g)
    ensures var n, stop := |spec.taskIds|, FirstStop(spec, oracle, 0);
      (exists key | ValidKey(spec, key) :: StatusOf(spec, g.records, key).Blocked?) <==>
      stop < n && oracle.updates(stop) && !oracle.report(stop).Success?
  {
    var n, stop := |spec.taskIds|, FirstStop(spec, oracle, 0);
    if key :| ValidKey(spec, key) && StatusOf(spec, g.records, key).Blocked? {
      EndIsDetermined(spec, oracle, g, key);
      BlockedKeyStops(spec, oracle, key);
    }
    if stop < n && oracle.updates(stop) && !oracle.report(stop).Success? {
      var key := if oracle.report(stop).Partial? && spec.partialContinue then SourceCommit(stop) else Work(stop);
      PassesMeans(spec, oracle, stop);
      if key.Work? {
        PassesReaches(spec, oracle, stop);
      } else {
        ReachedFinalizer(spec, oracle, stop, key);
      }
      EndIsDetermined(spec, oracle, g, key);
    }
  }

  lemma BlockedKeyStops(spec: Spec, oracle: Oracle, key: StepKey)
    requires ValidKey(spec, key) && Reached(spec, oracle, key) && Fate(spec, oracle, key).Blocked?
    ensures var stop := FirstStop(spec, oracle, 0);
      stop < |spec.taskIds| && oracle.updates(stop) && !oracle.report(stop).Success?
  {
    var i := key.task;
    forall j | 0 <= j < i ensures Passes(spec, oracle, j) {
      ReachedPasses(spec, oracle, key, j);
    }
    PassesMeans(spec, oracle, i);
    FirstStopIs(spec, oracle, i);
  }

  lemma FirstStopIs(spec: Spec, oracle: Oracle, i: nat)
    requires i < |spec.taskIds| && (forall j | 0 <= j < i :: Passes(spec, oracle, j)) && !Passes(spec, oracle, i)
    ensures FirstStop(spec, oracle, 0) == i
  {
  }

  /** A worker's failure that reaches the task blocks the batch either way. */
  lemma FailureBlocksBoth(spec: Spec, oracle: Oracle, run: seq<GraphState>, keys: seq<StepKey>)
    requires UniqueIds(spec) && IsGraphRun(spec, oracle, run, keys) && Ended(spec, run[|keys|])
    requires var stop := FirstStop(spec, oracle, 0);
      stop < |spec.taskIds| && oracle.report(stop).Failure? && oracle.updates(stop)
    ensures LoopResult(spec, oracle).outcome.BlockedRun? && ToDriverResult(spec, run[|keys|]).outcome.BlockedRun?
  {
    RunKeepsInvariant(spec, oracle, run, keys, |keys|);
    GraphBlockedIff(spec, oracle, run[|keys|]);
  }
}
