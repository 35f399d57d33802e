/**
 Compilation of a Drive batch into a run graph (lib/driver/drive-graph-compiler.ts) and the
 schedules such a graph admits.

 A step is named by a `StepKey`; its textual id is what the run store and the scheduler see.
 `Rank` orders the keys: task, source commit, task status, next task, ..., state commit.
 */
module DriveGraph {
  import opened Wrappers

  datatype CommitPolicy = DriverCommits | BackendCommits | NoCommit
  datatype StateCommitPolicy = FinalStateCommit | NoStateCommit

  datatype Spec = Spec(
    taskIds: seq<string>,
    commitPolicy: CommitPolicy,
    stateCommitPolicy: Option<StateCommitPolicy>,
    partialContinue: bool)

  function ResolveStateCommitPolicy(spec: Spec): StateCommitPolicy {
    match spec.stateCommitPolicy
    case Some(policy) => policy
    case None => if spec.commitPolicy.DriverCommits? then FinalStateCommit else NoStateCommit
  }

  datatype StepKey = Work(task: nat) | SourceCommit(task: nat) | TaskStatus(task: nat) | StateCommit

  predicate ValidKey(spec: Spec, key: StepKey) {
    match key
    case Work(i) => i < |spec.taskIds|
    case SourceCommit(i) => i < |spec.taskIds| && spec.commitPolicy.DriverCommits?
    case TaskStatus(i) => i < |spec.taskIds|
    case StateCommit => ResolveStateCommitPolicy(spec).FinalStateCommit?
  }

  const FINALIZER := "finalizer-"
  const SOURCE_COMMIT := "finalizer-source-commit-"
  const TASK_STATUS := "finalizer-task-status-"
  const STATE_COMMIT := "finalizer-state-commit"

  function IdOf(spec: Spec, key: StepKey): string
    requires ValidKey(spec, key)
  {
    match key
    case Work(i) => spec.taskIds[i]
    case SourceCommit(i) => SOURCE_COMMIT + spec.taskIds[i]
    case TaskStatus(i) => TASK_STATUS + spec.taskIds[i]
    case StateCommit => STATE_COMMIT
  }

  function Rank(spec: Spec, key: StepKey): nat {
    match key
    case Work(i) => 3 * i
    case SourceCommit(i) => 3 * i + 1
    case TaskStatus(i) => 3 * i + 2
    case StateCommit => 3 * |spec.taskIds|
  }

  /** The keys a step waits for. */
  function DependsOn(spec: Spec, key: StepKey): seq<StepKey>
    requires ValidKey(spec, key)
  {
    match key
    case Work(i) => if i > 0 then [TaskStatus(i - 1)] else []
    case SourceCommit(i) => [Work(i)]
    case TaskStatus(i) => [if spec.commitPolicy.DriverCommits? then SourceCommit(i) else Work(i)]
    case StateCommit => seq(|spec.taskIds|, i requires 0 <= i => TaskStatus(i))
  }

  datatype Kind = Drive | CommitFinalizer | StatusFinalizer | StateFinalizer
  datatype GraphStep = GraphStep(id: string, kind: Kind, dependsOn: seq<string>)
  datatype Edge = Edge(from: string, to: string)
  datatype RunGraph = RunGraph(steps: seq<GraphStep>, edges: seq<Edge>)

  function KindOf(key: StepKey): Kind {
    match key
    case Work(_) => Drive
    case SourceCommit(_) => CommitFinalizer
    case TaskStatus(_) => StatusFinalizer
    case StateCommit => StateFinalizer
  }

  function StepOf(spec: Spec, key: StepKey): GraphStep
    requires ValidKey(spec, key)
  {
    var deps := DependsOn(spec, key);
    GraphStep(IdOf(spec, key), KindOf(key),
              seq(|deps|, i requires 0 <= i < |deps| => IdOf(spec, deps[i])))
  }

  /** Every step waits only for valid steps of lower rank: the graph is acyclic. */
  lemma DependenciesRankLower(spec: Spec, key: StepKey)
    requires ValidKey(spec, key)
    ensures forall d | d in DependsOn(spec, key) :: ValidKey(spec, d) && Rank(spec, d) < Rank(spec, key)
  {
  }

  /** Ranks tell valid steps apart. */
  lemma RankInjective(spec: Spec, a: StepKey, b: StepKey)
    requires ValidKey(spec, a) && ValidKey(spec, b) && Rank(spec, a) == Rank(spec, b)
    ensures a == b
  {
  }

  // ----- unique ids -----

  predicate Distinct(ids: seq<string>) {
    forall i, j | 0 <= i < j < |ids| :: ids[i] != ids[j]
  }

  ghost predicate UniqueIds(spec: Spec) {
    forall a, b | ValidKey(spec, a) && ValidKey(spec, b) && IdOf(spec, a) == IdOf(spec, b) :: a == b
  }

  /** No selected task carries the id of one of the finalizers compiled for this batch. */
  ghost predicate NoFinalizerNames(spec: Spec) {
    forall i, key | 0 <= i < |spec.taskIds| && ValidKey(spec, key) && !key.Work? :: spec.taskIds[i] != IdOf(spec, key)
  }

  lemma FinalizerIdsDiffer(spec: Spec, a: StepKey, b: StepKey)
    requires ValidKey(spec, a) && ValidKey(spec, b) && !a.Work? && !b.Work? && Distinct(spec.taskIds)
    requires IdOf(spec, a) == IdOf(spec, b)
    ensures a == b
  {
    var idA, idB := IdOf(spec, a), IdOf(spec, b);
    assert idA[10] == idB[10] && idA[11] == idB[11];
    if a.SourceCommit? {
      assert b.SourceCommit?;
      assert spec.taskIds[a.task] == idA[|SOURCE_COMMIT|..] == idB[|SOURCE_COMMIT|..] == spec.taskIds[b.task];
    } else if a.TaskStatus? {
      assert b.TaskStatus?;
      assert spec.taskIds[a.task] == idA[|TASK_STATUS|..] == idB[|TASK_STATUS|..] == spec.taskIds[b.task];
    }
  }

  /** Exactly when the compiled ids are unique. */
  lemma UniqueIdsIff(spec: Spec)
    ensures UniqueIds(spec) <==> Distinct(spec.taskIds) && NoFinalizerNames(spec)
  {
    if UniqueIds(spec) {
      forall i, j | 0 <= i < j < |spec.taskIds| ensures spec.taskIds[i] != spec.taskIds[j] {
        assert IdOf(spec, Work(i)) == spec.taskIds[i] && IdOf(spec, Work(j)) == spec.taskIds[j];
      }
      forall i, key | 0 <= i < |spec.taskIds| && ValidKey(spec, key) && !key.Work?
        ensures spec.taskIds[i] != IdOf(spec, key)
      {
        assert IdOf(spec, Work(i)) == spec.taskIds[i];
      }
    }
    if Distinct(spec.taskIds) && NoFinalizerNames(spec) {
      forall a, b | ValidKey(spec, a) && ValidKey(spec, b) && IdOf(spec, a) == IdOf(spec, b) ensures a == b {
        if !a.Work? && !b.Work? {
          FinalizerIdsDiffer(spec, a, b);
        }
      }
    }
  }

  /** The condition callers can check: no task id starts like a finalizer id. */
  lemma PlainTaskIdsAreUnique(spec: Spec)
    requires Distinct(spec.taskIds)
    requires forall id | id in spec.taskIds :: !(FINALIZER <= id)
    ensures UniqueIds(spec)
  {
    forall i, key | 0 <= i < |spec.taskIds| && ValidKey(spec, key) && !key.Work?
      ensures spec.taskIds[i] != IdOf(spec, key)
    {
      assert FINALIZER <= IdOf(spec, key) && spec.taskIds[i] in spec.taskIds;
    }
    UniqueIdsIff(spec);
  }

  // ----- compilation -----

  function FinalizersOf(spec: Spec, i: nat): seq<StepKey> {
    (if spec.commitPolicy.DriverCommits? then [SourceCommit(i)] else []) + [TaskStatus(i)]
  }

  /** The compiled keys in the order of the step arrays: all tasks, then all finalizers. */
  function FinalizerKeys(spec: Spec, n: nat): (keys: seq<StepKey>)
    requires n <= |spec.taskIds|
    ensures forall key | key in keys :: ValidKey(spec, key)
  {
    if n == 0 then [] else FinalizerKeys(spec, n - 1) + FinalizersOf(spec, n - 1)
  }

  function TaskKeys(n: nat): seq<StepKey> {
    seq(n, i requires 0 <= i => Work(i))
  }

  function AllKeys(spec: Spec): (keys: seq<StepKey>)
    ensures forall key | key in keys :: ValidKey(spec, key)
  {
    var n := |spec.taskIds|;
    TaskKeys(n) + FinalizerKeys(spec, n) +
    (if ResolveStateCommitPolicy(spec).FinalStateCommit? then [StateCommit] else [])
  }

  function StepsOf(spec: Spec, keys: seq<StepKey>): seq<GraphStep>
    requires forall key | key in keys :: ValidKey(spec, key)
  {
    seq(|keys|, i requires 0 <= i < |keys| => StepOf(spec, keys[i]))
  }

  lemma {:induction false} FinalizerKeysAre(spec: Spec, n: nat)
    requires n <= |spec.taskIds|
    ensures forall key :: key in FinalizerKeys(spec, n) <==>
              match key case Work(_) => false case StateCommit => false
                        case SourceCommit(i) => i < n && spec.commitPolicy.DriverCommits?
                        case TaskStatus(i) => i < n
    ensures forall i, j | 0 <= i < j < |FinalizerKeys(spec, n)| ::
              Rank(spec, FinalizerKeys(spec, n)[i]) < Rank(spec, FinalizerKeys(spec, n)[j])
    ensures forall key | key in FinalizerKeys(spec, n) :: Rank(spec, key) < 3 * n
  {
    if n > 0 {
      FinalizerKeysAre(spec, n - 1);
      var before := FinalizerKeys(spec, n - 1);
      forall i, j | 0 <= i < j < |FinalizerKeys(spec, n)|
        ensures Rank(spec, FinalizerKeys(spec, n)[i]) < Rank(spec, FinalizerKeys(spec, n)[j])
      {
        if i < |before| <= j {
          assert before[i] in before;
        }
      }
    }
  }

  /** The compiler emits every step of the batch, each exactly once, and nothing else. */
  lemma CompiledKeys(spec: Spec)
    ensures forall key :: key in AllKeys(spec) <==> ValidKey(spec, key)
    ensures forall i, j | 0 <= i < j < |AllKeys(spec)| :: AllKeys(spec)[i] != AllKeys(spec)[j]
  {
    var n := |spec.taskIds|;
    var tasks, finalizers := TaskKeys(n), FinalizerKeys(spec, n);
    FinalizerKeysAre(spec, n);
    forall key | ValidKey(spec, key) ensures key in AllKeys(spec) {
      if key.Work? {
        assert tasks[key.task] == key;
      }
    }
    forall i, j | 0 <= i < j < |AllKeys(spec)| ensures AllKeys(spec)[i] != AllKeys(spec)[j] {
      if n <= j < n + |finalizers| {
        assert AllKeys(spec)[j] == finalizers[j - n] && finalizers[j - n] in finalizers;
        if n <= i {
          assert AllKeys(spec)[i] == finalizers[i - n];
        }
      } else if n + |finalizers| <= j && n <= i {
        assert AllKeys(spec)[i] == finalizers[i - n] && finalizers[i - n] in finalizers;
      }
    }
  }

  lemma StepsOfAppend(spec: Spec, keys: seq<StepKey>, more: seq<StepKey>)
    requires forall key | key in keys + more :: ValidKey(spec, key)
    ensures forall key | key in keys :: ValidKey(spec, key)
    ensures forall key | key in more :: ValidKey(spec, key)
    ensures StepsOf(spec, keys + more) == StepsOf(spec, keys) + StepsOf(spec, more)
  {
    forall key | key in keys ensures ValidKey(spec, key) { assert key in keys + more; }
    forall key | key in more ensures ValidKey(spec, key) { assert key in keys + more; }
  }

  /** The step records the compiler writes out by hand are the steps of their keys. */
  lemma TaskStepsWritten(spec: Spec, i: nat)
    requires i < |spec.taskIds|
    ensures var id := spec.taskIds[i];
            && StepOf(spec, Work(i)) == GraphStep(id, Drive, if i > 0 then [TASK_STATUS + spec.taskIds[i - 1]] else [])
            && (spec.commitPolicy.DriverCommits? ==>
                  StepOf(spec, SourceCommit(i)) == GraphStep(SOURCE_COMMIT + id, CommitFinalizer, [id]))
            && StepOf(spec, TaskStatus(i)) == GraphStep(TASK_STATUS + id, StatusFinalizer,
                 [if spec.commitPolicy.DriverCommits? then SOURCE_COMMIT + id else id])
  {
    var id := spec.taskIds[i];
    assert StepOf(spec, Work(i)).dependsOn == if i > 0 then [TASK_STATUS + spec.taskIds[i - 1]] else [];
    if spec.commitPolicy.DriverCommits? {
      assert StepOf(spec, SourceCommit(i)).dependsOn == [id];
    }
    assert StepOf(spec, TaskStatus(i)).dependsOn == [if spec.commitPolicy.DriverCommits? then SOURCE_COMMIT + id else id];
  }

  /** What one round of the compiler's loop adds to its two step arrays. */
  lemma RoundAdds(spec: Spec, i: nat)
    requires i < |spec.taskIds|
    ensures var id := spec.taskIds[i];
            && StepsOf(spec, TaskKeys(i + 1)) == StepsOf(spec, TaskKeys(i)) +
                 [GraphStep(id, Drive, if i > 0 then [TASK_STATUS + spec.taskIds[i - 1]] else [])]
            && StepsOf(spec, FinalizerKeys(spec, i + 1)) == StepsOf(spec, FinalizerKeys(spec, i)) +
                 (if spec.commitPolicy.DriverCommits? then [GraphStep(SOURCE_COMMIT + id, CommitFinalizer, [id])] else []) +
                 [GraphStep(TASK_STATUS + id, StatusFinalizer,
                    [if spec.commitPolicy.DriverCommits? then SOURCE_COMMIT + id else id])]
  {
    TaskStepsWritten(spec, i);
    assert TaskKeys(i + 1) == TaskKeys(i) + [Work(i)];
    StepsOfAppend(spec, FinalizerKeys(spec, i), FinalizersOf(spec, i));
    assert StepsOf(spec, FinalizersOf(spec, i)) ==
           (if spec.commitPolicy.DriverCommits? then [StepOf(spec, SourceCommit(i))] else []) + [StepOf(spec, TaskStatus(i))];
  }

  /** The ids of the first `n` task statuses. */
  function StatusIds(spec: Spec, n: nat): seq<string>
    requires n <= |spec.taskIds|
  {
    seq(n, k requires 0 <= k < n => IdOf(spec, TaskStatus(k)))
  }

  lemma OneMoreStatusId(spec: Spec, n: nat)
    requires n < |spec.taskIds|
    ensures StatusIds(spec, n + 1) == StatusIds(spec, n) + [TASK_STATUS + spec.taskIds[n]]
    ensures n > 0 ==> |StatusIds(spec, n)| == n && StatusIds(spec, n)[n - 1] == TASK_STATUS + spec.taskIds[n - 1]
  {
  }

  lemma StateCommitAdds(spec: Spec, statusIds: seq<string>)
    requires statusIds == StatusIds(spec, |spec.taskIds|)
    ensures var n := |spec.taskIds|;
            StepsOf(spec, AllKeys(spec)) == StepsOf(spec, TaskKeys(n)) + (StepsOf(spec, FinalizerKeys(spec, n)) +
              (if ResolveStateCommitPolicy(spec).FinalStateCommit? then [GraphStep(STATE_COMMIT, StateFinalizer, statusIds)] else []))
  {
    var n := |spec.taskIds|;
    var tasks, finalizers := TaskKeys(n), FinalizerKeys(spec, n);
    if ResolveStateCommitPolicy(spec).FinalStateCommit? {
      assert StepOf(spec, StateCommit).dependsOn == statusIds;
      StepsOfAppend(spec, finalizers, [StateCommit]);
      assert AllKeys(spec) == tasks + (finalizers + [StateCommit]);
      StepsOfAppend(spec, tasks, finalizers + [StateCommit]);
    } else {
      assert AllKeys(spec) == tasks + finalizers;
      StepsOfAppend(spec, tasks, finalizers);
    }
  }

  lemma {:induction false} FinalizerKeysAt(spec: Spec, n: nat, i: nat)
    requires i < n <= |spec.taskIds|
    ensures var keys := FinalizerKeys(spec, n);
      if spec.commitPolicy.DriverCommits? then |keys| == 2 * n && keys[2 * i] == SourceCommit(i) && keys[2 * i + 1] == TaskStatus(i)
      else |keys| == n && keys[i] == TaskStatus(i)
  {
    FinalizerCount(spec, n - 1);
    if i < n - 1 {
      FinalizerKeysAt(spec, n - 1, i);
    }
  }

  lemma {:induction false} FinalizerCount(spec: Spec, n: nat)
    requires n <= |spec.taskIds|
    ensures |FinalizerKeys(spec, n)| == if spec.commitPolicy.DriverCommits? then 2 * n else n
  {
    if n > 0 {
      FinalizerCount(spec, n - 1);
    }
  }

  /** How many steps a batch is compiled into. */
  lemma CompiledCount(spec: Spec)
    ensures |StepsOf(spec, AllKeys(spec))| ==
      |spec.taskIds| + (if spec.commitPolicy == DriverCommits then 2 * |spec.taskIds| else |spec.taskIds|) +
      (if spec.stateCommitPolicy == Some(FinalStateCommit) || (spec.stateCommitPolicy.None? && spec.commitPolicy == DriverCommits)
       then 1 else 0)
  {
    FinalizerCount(spec, |spec.taskIds|);
  }

  /** The compiled steps of a task, by place: the task waits for the status of the one before, its source
      commit for the task, its status for the source commit if the driver commits and else for the task. */
  lemma CompiledTaskIs(spec: Spec, i: nat)
    requires i < |spec.taskIds|
    ensures var n, id, steps := |spec.taskIds|, spec.taskIds[i], StepsOf(spec, AllKeys(spec));
      && |steps| > i && steps[i] == GraphStep(id, Drive, if i > 0 then [TASK_STATUS + spec.taskIds[i - 1]] else [])
      && if spec.commitPolicy == DriverCommits then
           && |steps| > n + 2 * i + 1 && steps[n + 2 * i] == GraphStep(SOURCE_COMMIT + id, CommitFinalizer, [id])
           && steps[n + 2 * i + 1] == GraphStep(TASK_STATUS + id, StatusFinalizer, [SOURCE_COMMIT + id])
         else
           |steps| > n + i && steps[n + i] == GraphStep(TASK_STATUS + id, StatusFinalizer, [id])
  {
    var n := |spec.taskIds|;
    FinalizerKeysAt(spec, n, i);
    TaskStepsWritten(spec, i);
    var keys := AllKeys(spec);
    assert keys[i] == Work(i);
    if spec.commitPolicy == DriverCommits {
      assert keys[n + 2 * i] == SourceCommit(i) && keys[n + 2 * i + 1] == TaskStatus(i);
    } else {
      assert keys[n + i] == TaskStatus(i);
    }
  }

  /** The state commit comes last and waits for the status of every task. */
  lemma CompiledStateCommitIs(spec: Spec)
    requires spec.stateCommitPolicy == Some(FinalStateCommit) || (spec.stateCommitPolicy.None? && spec.commitPolicy == DriverCommits)
    ensures var steps := StepsOf(spec, AllKeys(spec));
      && |steps| > 0 && steps[|steps| - 1].id == STATE_COMMIT && steps[|steps| - 1].kind == StateFinalizer
      && |steps[|steps| - 1].dependsOn| == |spec.taskIds|
      && forall i :: 0 <= i < |spec.taskIds| ==> steps[|steps| - 1].dependsOn[i] == TASK_STATUS + spec.taskIds[i]
  {
    var keys := AllKeys(spec);
    assert keys[|keys| - 1] == StateCommit;
  }

  method CompileSteps(spec: Spec) returns (taskSteps: seq<GraphStep>, finalizerSteps: seq<GraphStep>)
    ensures taskSteps + finalizerSteps == StepsOf(spec, AllKeys(spec))
    ensures |taskSteps| == |spec.taskIds|
  {
    taskSteps, finalizerSteps := [], [];
    var taskStatusFinalizerIds: seq<string> := [];
    for i := 0 to |spec.taskIds|
      invariant taskSteps == StepsOf(spec, TaskKeys(i))
      invariant finalizerSteps == StepsOf(spec, FinalizerKeys(spec, i))
      invariant taskStatusFinalizerIds == StatusIds(spec, i)
    {
      RoundAdds(spec, i);
      OneMoreStatusId(spec, i);
      var taskId := spec.taskIds[i];
      taskSteps := taskSteps + [GraphStep(taskId, Drive,
        if i > 0 then [taskStatusFinalizerIds[|taskStatusFinalizerIds| - 1]] else [])];
      var sourceCommit := spec.commitPolicy.DriverCommits?;
      if sourceCommit {
        finalizerSteps := finalizerSteps + [GraphStep(SOURCE_COMMIT + taskId, CommitFinalizer, [taskId])];
      }
      var statusId := TASK_STATUS + taskId;
      finalizerSteps := finalizerSteps +
        [GraphStep(statusId, StatusFinalizer, [if sourceCommit then SOURCE_COMMIT + taskId else taskId])];
      taskStatusFinalizerIds := taskStatusFinalizerIds + [statusId];
    }
    StateCommitAdds(spec, taskStatusFinalizerIds);
    if ResolveStateCommitPolicy(spec).FinalStateCommit? {
      finalizerSteps := finalizerSteps + [GraphStep(STATE_COMMIT, StateFinalizer, taskStatusFinalizerIds)];
    }
  }

  function EdgesOf(steps: seq<GraphStep>): (edges: seq<Edge>)
    ensures forall e :: e in edges <==> exists s | s in steps :: s.id == e.to && e.from in s.dependsOn
  {
    if steps == [] then []
    else
      var s := steps[0];
      assert steps == [s] + steps[1..];
      var here := seq(|s.dependsOn|, i requires 0 <= i < |s.dependsOn| => Edge(s.dependsOn[i], s.id));
      assert forall d | d in s.dependsOn :: Edge(d, s.id) in here by {
        forall d | d in s.dependsOn ensures Edge(d, s.id) in here {
          var i :| 0 <= i < |s.dependsOn| && s.dependsOn[i] == d;
          assert here[i] == Edge(d, s.id);
        }
      }
      here + EdgesOf(steps[1..])
  }

  function ToRunGraph(steps: seq<GraphStep>): RunGraph {
    RunGraph(steps, EdgesOf(steps))
  }

  method CompileDriveRunStart(spec: Spec) returns (graph: RunGraph)
    ensures graph.steps == StepsOf(spec, AllKeys(spec))
    ensures forall e :: e in graph.edges <==> exists s | s in graph.steps :: s.id == e.to && e.from in s.dependsOn
  {
    var taskSteps, finalizerSteps := CompileSteps(spec);
    graph := ToRunGraph(taskSteps + finalizerSteps);
  }

  /** Every edge of a compiled graph leads from a step of lower rank to one of higher rank. */
  lemma EdgesRaiseRank(spec: Spec, e: Edge)
    requires e in EdgesOf(StepsOf(spec, AllKeys(spec)))
    ensures exists a, b | ValidKey(spec, a) && ValidKey(spec, b) ::
              e == Edge(IdOf(spec, a), IdOf(spec, b)) && a in DependsOn(spec, b) && Rank(spec, a) < Rank(spec, b)
  {
    var keys := AllKeys(spec);
    var steps := StepsOf(spec, keys);
    var s :| s in steps && s.id == e.to && e.from in s.dependsOn;
    var k :| 0 <= k < |keys| && steps[k] == s;
    var b := keys[k];
    assert b in keys;
    var i :| 0 <= i < |s.dependsOn| && s.dependsOn[i] == e.from;
    var a := DependsOn(spec, b)[i];
    assert a in DependsOn(spec, b);
    DependenciesRankLower(spec, b);
  }
}
