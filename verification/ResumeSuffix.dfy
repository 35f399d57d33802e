/** Which tasks of an interrupted run are still to do (cli/drive/subcommand.ts).

    A resumed run recomputes them from the event log. When it then finalizes a task that was left
    pending, it shortens the list it already has instead of reading the log again. */
module ResumeSuffix {
  datatype EventKind = TaskDone | TaskBlocked | OtherEvent
  datatype Event = Event(kind: EventKind, task: string)

  predicate Settles(event: Event) {
    event.kind != OtherEvent
  }

  /** JavaScript's indexOf: the first position of a task, or -1. */
  function IndexOf(tasks: seq<string>, task: string): (index: int)
    ensures -1 <= index < |tasks|
    ensures index >= 0 ==> tasks[index] == task
    ensures index < 0 <==> task !in tasks
  {
    if tasks == [] then -1
    else if tasks[0] == task then 0
    else
      var rest := IndexOf(tasks[1..], task);
      assert forall i :: 0 < i < |tasks| ==> tasks[i] == tasks[1..][i - 1];
      if rest < 0 then -1 else rest + 1
  }

  /** `highest` is the largest position of a settled task. */
  ghost predicate IsHighest(tasks: seq<string>, events: seq<Event>, highest: int) {
    && -1 <= highest < |tasks|
    && (highest >= 0 ==> exists e :: e in events && Settles(e) && IndexOf(tasks, e.task) == highest)
    && (forall e :: e in events && Settles(e) ==> IndexOf(tasks, e.task) <= highest)
  }

  method FindHighestCompletedTaskIndex(tasks: seq<string>, events: seq<Event>) returns (highest: int)
    ensures IsHighest(tasks, events, highest)
  {
    highest := -1;
    var i := 0;
    while i < |events|
      invariant 0 <= i <= |events|
      invariant IsHighest(tasks, events[..i], highest)
    {
      assert events[..i + 1] == events[..i] + [events[i]];
      if Settles(events[i]) {
        var index := IndexOf(tasks, events[i].task);
        if index > highest {
          highest := index;
        }
      }
      i := i + 1;
    }
    assert events[..i] == events;
  }

  /** The tasks that are left, read from the log. */
  method RemainingTasks(tasks: seq<string>, events: seq<Event>) returns (remaining: seq<string>)
    ensures exists highest :: IsHighest(tasks, events, highest) && remaining == tasks[highest + 1..]
    // the rest of the selection after the furthest task that is done or blocked
    ensures exists n: nat :: n <= |tasks| && IsRest(tasks, events, remaining, n)
  {
    var completed := FindHighestCompletedTaskIndex(tasks, events);
    remaining := tasks[completed + 1..];
    HighestLeaves(tasks, events, completed);
  }

  /** `remaining` is what follows the first `n` tasks; no done or blocked task is first selected after them,
      and the last of them is one. */
  ghost predicate IsRest(tasks: seq<string>, events: seq<Event>, remaining: seq<string>, n: nat)
    requires n <= |tasks|
  {
    && remaining == tasks[n..]
    && (forall e :: e in events && (e.kind.TaskDone? || e.kind.TaskBlocked?) ==> IndexOf(tasks, e.task) < n)
    && (n > 0 ==> exists e :: e in events && (e.kind.TaskDone? || e.kind.TaskBlocked?) && IndexOf(tasks, e.task) == n - 1)
  }

  lemma HighestLeaves(tasks: seq<string>, events: seq<Event>, highest: int)
    requires IsHighest(tasks, events, highest)
    ensures IsRest(tasks, events, tasks[highest + 1..], highest + 1)
  {
    forall e | e in events && (e.kind.TaskDone? || e.kind.TaskBlocked?) ensures IndexOf(tasks, e.task) < highest + 1 {
      assert Settles(e);
    }
  }

  function TaskIdsAfterFinalizedTask(tasks: seq<string>, task: string): seq<string> {
    var index := IndexOf(tasks, task);
    if index < 0 then tasks else tasks[index + 1..]
  }

  predicate Distinct(tasks: seq<string>) {
    forall i, j :: 0 <= i < j < |tasks| ==> tasks[i] != tasks[j]
  }

  lemma {:induction false} IndexOfIsFirst(tasks: seq<string>, task: string, k: nat)
    requires k < |tasks| && tasks[k] == task
    ensures 0 <= IndexOf(tasks, task) <= k
  {
    if tasks[0] != task {
      assert tasks[1..][k - 1] == task;
      IndexOfIsFirst(tasks[1..], task, k - 1);
    }
  }

  /** Beyond `from` a task is found at its first position, if that is not before `from`. */
  lemma IndexOfSuffix(tasks: seq<string>, from: nat, task: string)
    requires from <= IndexOf(tasks, task)
    ensures IndexOf(tasks[from..], task) == IndexOf(tasks, task) - from
  {
    var i := IndexOf(tasks, task);
    assert tasks[from..][i - from] == task;
    IndexOfIsFirst(tasks[from..], task, i - from);
    IndexOfIsFirst(tasks, task, from + IndexOf(tasks[from..], task));
  }

  lemma HighestIsUnique(tasks: seq<string>, events: seq<Event>, a: int, b: int)
    requires IsHighest(tasks, events, a) && IsHighest(tasks, events, b)
    ensures a == b
  {
  }

  /** What one more settled task makes of the highest position. */
  lemma HighestGrows(tasks: seq<string>, events: seq<Event>, event: Event, before: int)
    requires IsHighest(tasks, events, before) && Settles(event)
    ensures var index := IndexOf(tasks, event.task);
      IsHighest(tasks, events + [event], if index > before then index else before)
  {
    var all, index := events + [event], IndexOf(tasks, event.task);
    assert all[|events|] == event;
    forall e | e in all && Settles(e) ensures e == event || IndexOf(tasks, e.task) <= before {
    }
    if index <= before && before >= 0 {
      var e :| e in events && Settles(e) && IndexOf(tasks, e.task) == before;
      assert e in all;
    }
  }

  /** The highest position after one more settled task. */
  function Raised(tasks: seq<string>, before: int, task: string): int {
    if IndexOf(tasks, task) > before then IndexOf(tasks, task) else before
  }

  lemma NewHighest(tasks: seq<string>, events: seq<Event>, event: Event, before: int, after: int)
    requires IsHighest(tasks, events, before) && Settles(event) && IsHighest(tasks, events + [event], after)
    ensures after == Raised(tasks, before, event.task)
  {
    HighestGrows(tasks, events, event, before);
    HighestIsUnique(tasks, events + [event], after, Raised(tasks, before, event.task));
  }

  lemma DropTwice(tasks: seq<string>, a: nat, b: nat)
    requires a + b <= |tasks|
    ensures tasks[a..][b..] == tasks[a + b..]
  {
  }

  lemma AfterTaskAt(tasks: seq<string>, task: string, k: nat)
    requires IndexOf(tasks, task) == k
    ensures TaskIdsAfterFinalizedTask(tasks, task) == tasks[k + 1..] && task in tasks
  {
  }

  lemma ShortenFirst(tasks: seq<string>, from: nat, task: string)
    requires from <= IndexOf(tasks, task)
    ensures TaskIdsAfterFinalizedTask(tasks[from..], task) == tasks[IndexOf(tasks, task) + 1..]
    ensures task in tasks[from..]
  {
    IndexOfSuffix(tasks, from, task);
    AfterTaskAt(tasks[from..], task, IndexOf(tasks, task) - from);
    DropTwice(tasks, from, IndexOf(tasks, task) - from + 1);
  }

  lemma ShortenAny(rest: seq<string>, task: string)
    ensures TaskIdsAfterFinalizedTask(rest, task) == rest <==> task !in rest
  {
    if task in rest {
      assert |TaskIdsAfterFinalizedTask(rest, task)| < |rest|;
    }
  }

  /** When shortening a list leaves what is beyond the raised position. */
  lemma ShorteningIff(tasks: seq<string>, before: int, task: string)
    requires -1 <= before < |tasks|
    ensures TaskIdsAfterFinalizedTask(tasks[before + 1..], task) == tasks[Raised(tasks, before, task) + 1..]
      <==> task !in tasks[before + 1..] || IndexOf(tasks, task) > before
  {
    if IndexOf(tasks, task) > before {
      ShortenFirst(tasks, before + 1, task);
    } else {
      ShortenAny(tasks[before + 1..], task);
    }
  }

  lemma DistinctMeetsCondition(tasks: seq<string>, before: int, task: string)
    requires Distinct(tasks) && -1 <= before < |tasks|
    ensures task !in tasks[before + 1..] || IndexOf(tasks, task) > before
  {
    var first := IndexOf(tasks, task);
    if 0 <= first <= before {
      NotRepeatedLater(tasks, before + 1, first);
    }
  }

  lemma DistinctShortens(tasks: seq<string>, before: int, after: int, task: string)
    requires Distinct(tasks) && -1 <= before < |tasks| && after == Raised(tasks, before, task)
    ensures TaskIdsAfterFinalizedTask(tasks[before + 1..], task) == tasks[after + 1..]
  {
    DistinctMeetsCondition(tasks, before, task);
    ShorteningIff(tasks, before, task);
    assert tasks[after + 1..] == tasks[Raised(tasks, before, task) + 1..];
  }

  /** Exactly when shortening the list gives what reading the log again would give after the task's
      `task_done` event, for any selection and log: if the task is not left, or is not selected before. */
  lemma {:induction false} IncrementalEqualsRecomputedIff(tasks: seq<string>, events: seq<Event>, task: string, before: int, after: int)
    requires IsHighest(tasks, events, before) && IsHighest(tasks, events + [Event(TaskDone, task)], after)
    ensures TaskIdsAfterFinalizedTask(tasks[before + 1..], task) == tasks[after + 1..]
      <==> task !in tasks[before + 1..] || IndexOf(tasks, task) > before
  {
    NewHighest(tasks, events, Event(TaskDone, task), before, after);
    ShorteningIff(tasks, before, task);
  }

  /** If the selected tasks are distinct it always does. */
  lemma {:induction false} IncrementalEqualsRecomputed(tasks: seq<string>, events: seq<Event>, task: string, before: int, after: int)
    requires Distinct(tasks)
    requires IsHighest(tasks, events, before) && IsHighest(tasks, events + [Event(TaskDone, task)], after)
    ensures TaskIdsAfterFinalizedTask(tasks[before + 1..], task) == tasks[after + 1..]
  {
    NewHighest(tasks, events, Event(TaskDone, task), before, after);
    DistinctShortens(tasks, before, after, task);
  }

  /** Shortening and reading again agree on this selection, whatever is on the log. */
  ghost predicate AlwaysAgree(tasks: seq<string>) {
    forall events, task, before, after ::
      IsHighest(tasks, events, before) && IsHighest(tasks, events + [Event(TaskDone, task)], after) ==>
        TaskIdsAfterFinalizedTask(tasks[before + 1..], task) == tasks[after + 1..]
  }

  /** No task that the log calls done or blocked is left of this selection, whatever else is on the log. */
  ghost predicate SettledNeverRemain(tasks: seq<string>) {
    forall events, highest, e ::
      IsHighest(tasks, events, highest) && e in events && Settles(e) ==> e.task !in tasks[highest + 1..]
  }

  /** The log of a task that is selected twice, and done once. */
  lemma DoneOnce(tasks: seq<string>, i: nat, j: nat) returns (events: seq<Event>, first: nat)
    requires i < j < |tasks| && tasks[i] == tasks[j]
    ensures events == [Event(TaskDone, tasks[i])] && first == IndexOf(tasks, tasks[i]) && first < j
    ensures IsHighest(tasks, events, first) && tasks[i] in tasks[first + 1..]
  {
    IndexOfIsFirst(tasks, tasks[i], i);
    events, first := [Event(TaskDone, tasks[i])], IndexOf(tasks, tasks[i]);
    assert events[0] in events;
    assert tasks[first + 1..][j - first - 1] == tasks[i];
  }

  lemma RepeatedRemains(tasks: seq<string>, i: nat, j: nat)
    requires i < j < |tasks| && tasks[i] == tasks[j]
    ensures !SettledNeverRemain(tasks) && !AlwaysAgree(tasks)
  {
    var events, first := DoneOnce(tasks, i, j);
    assert events[0] in events && Settles(events[0]);
    HighestGrows(tasks, events, Event(TaskDone, tasks[i]), first);
    IncrementalEqualsRecomputedIff(tasks, events, tasks[i], first, first);
  }

  /** The check a caller can make: both are safe for a selection exactly if it repeats no task. */
  lemma SafeSelectionIff(tasks: seq<string>)
    ensures AlwaysAgree(tasks) <==> Distinct(tasks)
    ensures SettledNeverRemain(tasks) <==> Distinct(tasks)
  {
    if Distinct(tasks) {
      forall events, task, before, after |
        IsHighest(tasks, events, before) && IsHighest(tasks, events + [Event(TaskDone, task)], after)
        ensures TaskIdsAfterFinalizedTask(tasks[before + 1..], task) == tasks[after + 1..]
      {
        IncrementalEqualsRecomputed(tasks, events, task, before, after);
      }
      forall events, highest, e | IsHighest(tasks, events, highest) && e in events && Settles(e)
        ensures e.task !in tasks[highest + 1..]
      {
        SettledTasksAreNotRemaining(tasks, events, highest, e, 0);
      }
    } else {
      var i, j :| 0 <= i < j < |tasks| && tasks[i] == tasks[j];
      RepeatedRemains(tasks, i, j);
    }
  }

  /** With a task selected twice the two can differ: the shortened list skips the second selection, the
      log only knows the first position. */
  lemma RepeatedTaskDiffers()
    ensures exists tasks, events, task, before, after ::
      IsHighest(tasks, events, before) && IsHighest(tasks, events + [Event(TaskDone, task)], after) &&
      TaskIdsAfterFinalizedTask(tasks[before + 1..], task) != tasks[after + 1..]
  {
    var tasks, events := ["A", "B", "A", "C"], [Event(TaskDone, "B")];
    assert tasks[0] != "B" && tasks[1] == "B";
    assert IndexOf(tasks, "B") == 1;
    assert IndexOf(tasks, "A") == 0;
    assert Event(TaskDone, "B") in events;
    assert IsHighest(tasks, events, 1);
    var all := events + [Event(TaskDone, "A")];
    assert all == [Event(TaskDone, "B"), Event(TaskDone, "A")];
    assert IsHighest(tasks, all, 1) by {
      assert Event(TaskDone, "B") in all;
    }
    assert tasks[2..] == ["A", "C"];
    assert IndexOf(["A", "C"], "A") == 0;
    assert TaskIdsAfterFinalizedTask(tasks[2..], "A") == ["C"];
  }

  lemma NotRepeatedLater(tasks: seq<string>, from: nat, i: nat)
    requires Distinct(tasks) && i < from <= |tasks|
    ensures tasks[i] !in tasks[from..]
  {
    assert forall j :: from <= j < |tasks| ==> tasks[j] != tasks[i];
  }

  lemma NotInTail(tasks: seq<string>, from: nat, task: string)
    requires from <= |tasks| && task !in tasks
    ensures task !in tasks[from..]
  {
  }

  /** No task that the log calls done or blocked is run again, and neither is any task before it. */
  lemma SettledTasksAreNotRemaining(tasks: seq<string>, events: seq<Event>, highest: int, e: Event, i: nat)
    requires Distinct(tasks) && IsHighest(tasks, events, highest) && e in events && Settles(e)
    ensures e.task !in tasks[highest + 1..]
    ensures i <= IndexOf(tasks, e.task) ==> tasks[i] !in tasks[highest + 1..]
  {
    var index := IndexOf(tasks, e.task);
    if index < 0 {
      NotInTail(tasks, highest + 1, e.task);
    } else {
      NotRepeatedLater(tasks, highest + 1, index);
      if i <= index {
        NotRepeatedLater(tasks, highest + 1, i);
      }
    }
  }
}
