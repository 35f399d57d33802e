/**
 All schedules of a compiled Drive graph.  The scheduler is only assumed to respect
 dependencies (lib/durable-runtime/scheduler-state.ts:50-69, and the readiness test of
 lib/driver/drive-graph-runner.ts:897-908); which runnable step it picks and what becomes of the
 step is left open.
 */
module GraphSchedule {
  import opened DriveGraph

  datatype StepStatus = Pending | Ready | Running | Completed | Blocked | Failed | Cancelled | Stale {
    predicate Terminal() { Completed? || Blocked? || Failed? || Cancelled? || Stale? }
  }

  /** Persisted step records, by step id. */
  type Records = map<string, StepStatus>

  function StatusOf(spec: Spec, s: Records, key: StepKey): StepStatus
    requires ValidKey(spec, key)
  {
    var id := IdOf(spec, key);
    if id in s then s[id] else Pending
  }

  predicate DependenciesCompleted(spec: Spec, s: Records, key: StepKey)
    requires ValidKey(spec, key)
  {
    forall d | d in StepOf(spec, key).dependsOn :: d in s && s[d].Completed?
  }

  predicate Runnable(spec: Spec, s: Records, key: StepKey) {
    ValidKey(spec, key) && !StatusOf(spec, s, key).Terminal() && DependenciesCompleted(spec, s, key)
  }

  /** One scheduler action: some runnable step gets some new status. */
  predicate Move(spec: Spec, s: Records, s': Records, key: StepKey) {
    Runnable(spec, s, key) && var id := IdOf(spec, key); id in s' && s' == s[id := s'[id]]
  }

  ghost predicate Initial(spec: Spec, s: Records) {
    forall key | ValidKey(spec, key) :: StatusOf(spec, s, key).Pending?
  }

  /** `run[j + 1]` comes from `run[j]` by a move of the step `keys[j]`. */
  ghost predicate IsRun(spec: Spec, run: seq<Records>, keys: seq<StepKey>) {
    && |run| == |keys| + 1
    && Initial(spec, run[0])
    && forall j | 0 <= j < |keys| :: Move(spec, run[j], run[j + 1], keys[j])
  }

  /** Whatever has left `Pending` did so after its dependencies had completed. */
  ghost predicate Closed(spec: Spec, s: Records) {
    forall key, d | ValidKey(spec, key) && !StatusOf(spec, s, key).Pending? && d in DependsOn(spec, key) ::
      ValidKey(spec, d) && StatusOf(spec, s, d).Completed?
  }

  /** The shape of a linear schedule: only steps below the first uncompleted one have been touched. */
  ghost predicate Linear(spec: Spec, s: Records) {
    forall low, high | ValidKey(spec, low) && ValidKey(spec, high) && Rank(spec, low) < Rank(spec, high) ::
      !StatusOf(spec, s, high).Pending? ==> StatusOf(spec, s, low).Completed?
  }

  lemma DependenciesByKey(spec: Spec, s: Records, key: StepKey)
    requires ValidKey(spec, key)
    ensures DependenciesCompleted(spec, s, key) <==>
            forall d | d in DependsOn(spec, key) :: ValidKey(spec, d) && StatusOf(spec, s, d).Completed?
  {
    DependenciesRankLower(spec, key);
    var deps, ids := DependsOn(spec, key), StepOf(spec, key).dependsOn;
    if DependenciesCompleted(spec, s, key) {
      forall d | d in deps ensures StatusOf(spec, s, d).Completed? {
        var i :| 0 <= i < |deps| && deps[i] == d;
        assert ids[i] in ids;
      }
    }
    if forall d | d in deps :: StatusOf(spec, s, d).Completed? {
      forall id | id in ids ensures id in s && s[id].Completed? {
        var i :| 0 <= i < |ids| && ids[i] == id;
        assert deps[i] in deps;
      }
    }
  }

  /** The dependency just below `key`; every step but the first has one. */
  function Predecessor(spec: Spec, key: StepKey): StepKey
    requires ValidKey(spec, key) && Rank(spec, key) > 0
  {
    match key
    case Work(i) => TaskStatus(i - 1)
    case SourceCommit(i) => Work(i)
    case TaskStatus(i) => if spec.commitPolicy.DriverCommits? then SourceCommit(i) else Work(i)
    case StateCommit => TaskStatus(|spec.taskIds| - 1)
  }

  lemma PredecessorIsNext(spec: Spec, low: StepKey, key: StepKey)
    requires ValidKey(spec, low) && ValidKey(spec, key) && Rank(spec, low) < Rank(spec, key)
    ensures var p := Predecessor(spec, key);
            p in DependsOn(spec, key) && ValidKey(spec, p) && Rank(spec, p) < Rank(spec, key) &&
            (low == p || Rank(spec, low) < Rank(spec, p))
  {
    var p := Predecessor(spec, key);
    if key.StateCommit? {
      assert DependsOn(spec, key)[p.task] == p;
    }
    if Rank(spec, low) == Rank(spec, p) {
      RankInjective(spec, low, p);
    }
  }

  lemma {:induction false} ClosedIsLinear(spec: Spec, s: Records, low: StepKey, high: StepKey)
    requires Closed(spec, s)
    requires ValidKey(spec, low) && ValidKey(spec, high) && Rank(spec, low) < Rank(spec, high)
    requires !StatusOf(spec, s, high).Pending? || DependenciesCompleted(spec, s, high)
    ensures StatusOf(spec, s, low).Completed?
    decreases Rank(spec, high)
  {
    PredecessorIsNext(spec, low, high);
    DependenciesByKey(spec, s, high);
    var p := Predecessor(spec, high);
    if low != p {
      ClosedIsLinear(spec, s, low, p);
    }
  }

  /** Any new status keeps the state closed, as long as an uncompleted step with completed dependencies gets it. */
  lemma UpdateKeepsClosed(spec: Spec, s: Records, key: StepKey, status: StepStatus)
    requires UniqueIds(spec) && Closed(spec, s) && ValidKey(spec, key)
    requires !StatusOf(spec, s, key).Completed? && DependenciesCompleted(spec, s, key)
    ensures var s' := s[IdOf(spec, key) := status];
            && Closed(spec, s') && StatusOf(spec, s', key) == status
            && forall other | ValidKey(spec, other) && other != key :: StatusOf(spec, s', other) == StatusOf(spec, s, other)
  {
    var s' := s[IdOf(spec, key) := status];
    DependenciesByKey(spec, s, key);
    forall other | ValidKey(spec, other) && other != key
      ensures StatusOf(spec, s', other) == StatusOf(spec, s, other)
    {
      assert IdOf(spec, other) != IdOf(spec, key);
    }
    forall k | ValidKey(spec, k) { DependenciesRankLower(spec, k); }
  }

  lemma MoveKeepsClosed(spec: Spec, s: Records, s': Records, key: StepKey)
    requires UniqueIds(spec) && Closed(spec, s) && Move(spec, s, s', key)
    ensures Closed(spec, s')
    ensures forall other | ValidKey(spec, other) && other != key :: StatusOf(spec, s', other) == StatusOf(spec, s, other)
  {
    UpdateKeepsClosed(spec, s, key, s'[IdOf(spec, key)]);
  }

  /** While one step waits uncompleted with its dependencies met, no other step is runnable. */
  lemma OnlyRunnable(spec: Spec, s: Records, key: StepKey, other: StepKey)
    requires Closed(spec, s) && ValidKey(spec, key) && !StatusOf(spec, s, key).Completed? && DependenciesCompleted(spec, s, key)
    requires Runnable(spec, s, other)
    ensures other == key
  {
    if Rank(spec, key) < Rank(spec, other) {
      ClosedIsLinear(spec, s, key, other);
    } else if Rank(spec, other) < Rank(spec, key) {
      ClosedIsLinear(spec, s, other, key);
    } else {
      RankInjective(spec, key, other);
    }
  }

  lemma {:induction false} RunIsClosed(spec: Spec, run: seq<Records>, keys: seq<StepKey>, j: nat)
    requires UniqueIds(spec) && IsRun(spec, run, keys) && j < |run|
    ensures Closed(spec, run[j])
  {
    if j > 0 {
      RunIsClosed(spec, run, keys, j - 1);
      assert Move(spec, run[j - 1], run[j - 1 + 1], keys[j - 1]);
      MoveKeepsClosed(spec, run[j - 1], run[j], keys[j - 1]);
    }
  }

  /** In every reachable state of every scheduler at most one step is runnable. */
  lemma LinearSchedule(spec: Spec, run: seq<Records>, keys: seq<StepKey>, j: nat)
    requires UniqueIds(spec) && IsRun(spec, run, keys) && j < |run|
    ensures Linear(spec, run[j])
    ensures forall a, b | Runnable(spec, run[j], a) && Runnable(spec, run[j], b) :: a == b
  {
    var s := run[j];
    RunIsClosed(spec, run, keys, j);
    forall low, high | ValidKey(spec, low) && ValidKey(spec, high) && Rank(spec, low) < Rank(spec, high) &&
                       !StatusOf(spec, s, high).Pending?
      ensures StatusOf(spec, s, low).Completed?
    {
      ClosedIsLinear(spec, s, low, high);
    }
    forall a, b | Runnable(spec, s, a) && Runnable(spec, s, b) ensures a == b {
      OnlyRunnable(spec, s, b, a);
    }
  }

  lemma {:induction false} CompletedStays(spec: Spec, run: seq<Records>, keys: seq<StepKey>, i: nat, j: nat, key: StepKey)
    requires UniqueIds(spec) && IsRun(spec, run, keys) && i <= j < |run|
    requires ValidKey(spec, key) && StatusOf(spec, run[i], key).Completed?
    ensures StatusOf(spec, run[j], key).Completed?
  {
    if i < j {
      CompletedStays(spec, run, keys, i, j - 1, key);
      RunIsClosed(spec, run, keys, j - 1);
      assert Move(spec, run[j - 1], run[j - 1 + 1], keys[j - 1]);
      MoveKeepsClosed(spec, run[j - 1], run[j], keys[j - 1]);
    }
  }

  /** All schedules work through the steps in one fixed order: task, commit, status, next task, ..., state commit. */
  lemma MovesInRankOrder(spec: Spec, run: seq<Records>, keys: seq<StepKey>, i: nat, j: nat)
    requires UniqueIds(spec) && IsRun(spec, run, keys) && i < j < |keys|
    ensures Rank(spec, keys[i]) <= Rank(spec, keys[j])
  {
    assert Move(spec, run[i], run[i + 1], keys[i]);
    assert Move(spec, run[j], run[j + 1], keys[j]);
    if Rank(spec, keys[j]) < Rank(spec, keys[i]) {
      RunIsClosed(spec, run, keys, i);
      ClosedIsLinear(spec, run[i], keys[j], keys[i]);
      CompletedStays(spec, run, keys, i, j, keys[j]);
      assert false;
    }
  }

  /** A step that starts finds everything before it completed, so no step is ever skipped. */
  lemma NothingIsSkipped(spec: Spec, run: seq<Records>, keys: seq<StepKey>, j: nat, low: StepKey)
    requires UniqueIds(spec) && IsRun(spec, run, keys) && j < |keys|
    requires ValidKey(spec, low) && Rank(spec, low) < Rank(spec, keys[j])
    ensures StatusOf(spec, run[j], low).Completed?
    ensures low in keys[..j]
  {
    RunIsClosed(spec, run, keys, j);
    assert Move(spec, run[j], run[j + 1], keys[j]);
    ClosedIsLinear(spec, run[j], low, keys[j]);
    UntouchedStaysPending(spec, run, keys, j, low);
  }

  lemma {:induction false} UntouchedStaysPending(spec: Spec, run: seq<Records>, keys: seq<StepKey>, j: nat, key: StepKey)
    requires UniqueIds(spec) && IsRun(spec, run, keys) && j < |run| && ValidKey(spec, key)
    ensures key in keys[..j] || StatusOf(spec, run[j], key).Pending?
  {
    if j > 0 {
      UntouchedStaysPending(spec, run, keys, j - 1, key);
      RunIsClosed(spec, run, keys, j - 1);
      assert Move(spec, run[j - 1], run[j - 1 + 1], keys[j - 1]);
      MoveKeepsClosed(spec, run[j - 1], run[j], keys[j - 1]);
      assert keys[..j] == keys[..j - 1] + [keys[j - 1]];
    }
  }
}
