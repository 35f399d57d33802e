/**
 The order of step records when retries of a later process write them too
 (cli/drive/subcommand.ts:1231-1293): a retried source commit can fail after the task status that
 waits for it was touched, so the records are not closed under dependencies any more.
 */
module ResumedSchedule {
  import opened DriveGraph
  import opened GraphSchedule

  /** A task status may be ahead of its source commit if that will not run again. */
  ghost predicate Excused(spec: Spec, s: Records, key: StepKey, d: StepKey)
    requires ValidKey(spec, d)
  {
    key.TaskStatus? && d.SourceCommit? && StatusOf(spec, s, d).Terminal()
  }

  ghost predicate InOrder(spec: Spec, s: Records, key: StepKey, d: StepKey)
    requires ValidKey(spec, key) && ValidKey(spec, d)
  {
    StatusOf(spec, s, key).Pending? || StatusOf(spec, s, d).Completed? || Excused(spec, s, key, d)
  }

  /** Whatever has left `Pending` has its dependencies completed or is excused. */
  ghost predicate Ordered(spec: Spec, s: Records) {
    forall key, d | ValidKey(spec, key) && d in DependsOn(spec, key) :: ValidKey(spec, d) && InOrder(spec, s, key, d)
  }

  /** An uncompleted step whose dependencies have completed, and that nothing has overtaken. */
  ghost predicate Current(spec: Spec, s: Records, key: StepKey) {
    && ValidKey(spec, key) && !StatusOf(spec, s, key).Completed? && DependenciesCompleted(spec, s, key)
    && (key.SourceCommit? ==> StatusOf(spec, s, TaskStatus(key.task)).Pending?)
  }

  /** No step after the task's status has been touched. */
  ghost predicate Untouched(spec: Spec, s: Records, t: nat) {
    forall key | ValidKey(spec, key) && Rank(spec, key) > 3 * t + 2 :: StatusOf(spec, s, key).Pending?
  }

  /** Below a step that was touched or may start, everything is completed but for excused source commits. */
  lemma {:induction false} OrderedIsLinear(spec: Spec, s: Records, low: StepKey, high: StepKey)
    requires Ordered(spec, s)
    requires ValidKey(spec, low) && ValidKey(spec, high) && Rank(spec, low) < Rank(spec, high)
    requires !StatusOf(spec, s, high).Pending? || DependenciesCompleted(spec, s, high)
    ensures StatusOf(spec, s, low).Completed? || (low.SourceCommit? && StatusOf(spec, s, low).Terminal())
    decreases Rank(spec, high)
  {
    PredecessorIsNext(spec, low, high);
    DependenciesByKey(spec, s, high);
    var p := Predecessor(spec, high);
    if low != p {
      OrderedIsLinear(spec, s, low, p);
    }
  }

  lemma RunnableIsCurrent(spec: Spec, s: Records, key: StepKey)
    requires Ordered(spec, s) && Runnable(spec, s, key)
    ensures Current(spec, s, key)
  {
    if key.SourceCommit? {
      assert key in DependsOn(spec, TaskStatus(key.task));
    }
  }

  /** Any new status of a current step keeps the order. */
  lemma UpdateKeepsOrdered(spec: Spec, s: Records, key: StepKey, status: StepStatus)
    requires UniqueIds(spec) && Ordered(spec, s) && Current(spec, s, key)
    ensures var s' := s[IdOf(spec, key) := status];
            && Ordered(spec, s') && StatusOf(spec, s', key) == status
            && forall other | ValidKey(spec, other) && other != key :: StatusOf(spec, s', other) == StatusOf(spec, s, other)
  {
    var s' := s[IdOf(spec, key) := status];
    DependenciesByKey(spec, s, key);
    OthersStay(spec, s, key, status);
    forall k, d | ValidKey(spec, k) && d in DependsOn(spec, k)
      ensures ValidKey(spec, d) && InOrder(spec, s', k, d)
    {
      assert InOrder(spec, s, k, d);
      DependenciesRankLower(spec, k);
    }
  }

  lemma OthersStay(spec: Spec, s: Records, key: StepKey, status: StepStatus)
    requires UniqueIds(spec) && ValidKey(spec, key)
    ensures var s' := s[IdOf(spec, key) := status];
            && StatusOf(spec, s', key) == status
            && forall other | ValidKey(spec, other) && other != key :: StatusOf(spec, s', other) == StatusOf(spec, s, other)
  {
    var s' := s[IdOf(spec, key) := status];
    forall other | ValidKey(spec, other) && other != key
      ensures StatusOf(spec, s', other) == StatusOf(spec, s, other)
    {
      assert IdOf(spec, other) != IdOf(spec, key);
    }
  }

  /** A retry may end the source commit of a task again as long as nothing after the task was touched. */
  lemma RetriedCommitKeepsOrdered(spec: Spec, s: Records, t: nat, status: StepStatus)
    requires UniqueIds(spec) && Ordered(spec, s) && ValidKey(spec, SourceCommit(t))
    requires StatusOf(spec, s, Work(t)).Completed? && status.Terminal()
    ensures Ordered(spec, s[IdOf(spec, SourceCommit(t)) := status])
  {
    var s' := s[IdOf(spec, SourceCommit(t)) := status];
    OthersStay(spec, s, SourceCommit(t), status);
    forall k, d | ValidKey(spec, k) && d in DependsOn(spec, k)
      ensures ValidKey(spec, d) && InOrder(spec, s', k, d)
    {
      assert InOrder(spec, s, k, d);
      DependenciesRankLower(spec, k);
    }
  }

  /** A retry may end the status of a task again, after its source commit and before anything else. */
  lemma RetriedStatusKeepsOrdered(spec: Spec, s: Records, t: nat, status: StepStatus)
    requires UniqueIds(spec) && Ordered(spec, s) && ValidKey(spec, TaskStatus(t)) && ValidKey(spec, SourceCommit(t))
    requires StatusOf(spec, s, SourceCommit(t)).Terminal() && Untouched(spec, s, t)
    ensures Ordered(spec, s[IdOf(spec, TaskStatus(t)) := status])
  {
    var s' := s[IdOf(spec, TaskStatus(t)) := status];
    OthersStay(spec, s, TaskStatus(t), status);
    forall k, d | ValidKey(spec, k) && d in DependsOn(spec, k)
      ensures ValidKey(spec, d) && InOrder(spec, s', k, d)
    {
      assert InOrder(spec, s, k, d);
      DependenciesRankLower(spec, k);
    }
  }

  /** Nothing waits for the state commit. */
  lemma RetriedStateKeepsOrdered(spec: Spec, s: Records, status: StepStatus)
    requires UniqueIds(spec) && Ordered(spec, s) && ValidKey(spec, StateCommit) && DependenciesCompleted(spec, s, StateCommit)
    ensures Ordered(spec, s[IdOf(spec, StateCommit) := status])
  {
    var s' := s[IdOf(spec, StateCommit) := status];
    DependenciesByKey(spec, s, StateCommit);
    OthersStay(spec, s, StateCommit, status);
    forall k, d | ValidKey(spec, k) && d in DependsOn(spec, k)
      ensures ValidKey(spec, d) && InOrder(spec, s', k, d)
    {
      assert InOrder(spec, s, k, d);
      DependenciesRankLower(spec, k);
    }
  }

  /** While a current step waits, no other step is runnable. */
  lemma OnlyCurrentRuns(spec: Spec, s: Records, key: StepKey, other: StepKey)
    requires Ordered(spec, s) && Current(spec, s, key) && Runnable(spec, s, other)
    ensures other == key
  {
    if Rank(spec, key) < Rank(spec, other) {
      OrderedIsLinear(spec, s, key, other);
      if key.SourceCommit? {
        NothingAfterCurrentCommit(spec, s, key.task, other);
      }
    } else if Rank(spec, other) < Rank(spec, key) {
      OrderedIsLinear(spec, s, other, key);
    } else {
      RankInjective(spec, key, other);
    }
  }

  lemma NothingAfterCurrentCommit(spec: Spec, s: Records, t: nat, other: StepKey)
    requires Ordered(spec, s) && Current(spec, s, SourceCommit(t))
    requires ValidKey(spec, other) && Rank(spec, other) > 3 * t + 1
    ensures StatusOf(spec, s, other).Pending? && !DependenciesCompleted(spec, s, other)
  {
    assert SourceCommit(t) in DependsOn(spec, TaskStatus(t));
    DependenciesByKey(spec, s, other);
    if Rank(spec, other) == 3 * t + 2 {
      RankInjective(spec, TaskStatus(t), other);
    } else if !StatusOf(spec, s, other).Pending? || DependenciesCompleted(spec, s, other) {
      OrderedIsLinear(spec, s, TaskStatus(t), other);
    }
  }

  /** Nothing after a current step of a task has been touched. */
  lemma CurrentIsLast(spec: Spec, s: Records, t: nat, key: StepKey)
    requires Ordered(spec, s) && Current(spec, s, key) && (key == SourceCommit(t) || key == TaskStatus(t))
    ensures Untouched(spec, s, t) && StatusOf(spec, s, Work(t)).Completed?
  {
    OrderedIsLinear(spec, s, Work(t), key);
    forall high | ValidKey(spec, high) && Rank(spec, high) > 3 * t + 2 ensures StatusOf(spec, s, high).Pending? {
      if !StatusOf(spec, s, high).Pending? {
        if key == SourceCommit(t) {
          NothingAfterCurrentCommit(spec, s, t, high);
        } else {
          OrderedIsLinear(spec, s, key, high);
        }
      }
    }
  }
}
