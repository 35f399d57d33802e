/** The events of a Drive run (lib/driver/types.ts) and what the activity bus shows of them
    (lib/driver/event-stream.ts). */
module DriverEvents {
  import opened Wrappers

  datatype EventKind =
    | RunStarted | TaskStarted | Preflight(failed: bool) | SpawnStarted | DriverActivity
    | SpawnCompleted | SpawnFailed | Verify | CommitMade | Finalize(hasTask: bool)
    | TaskFinalizationFailed | TaskDone | TaskBlocked | LockWarning
    | DriverDiagnostic(episodeCapture: bool) | PlanCompletionCandidate
    | RunCompleted | RunAborted | RunFinalizationFailed(namesTask: bool)

  datatype Event = Event(kind: EventKind, runId: string, parentSessionId: string, body: string)

  datatype BusEvent = ActivityBusEvent(event: Event) | DriverBusEvent(event: Event)

  predicate ShouldBridge(event: Event, diagnostics: bool) {
    match event.kind
    case Preflight(failed) => failed
    case DriverDiagnostic(_) => diagnostics
    case _ =>
      event.kind.DriverActivity? || event.kind.TaskDone? || event.kind.TaskBlocked? || event.kind.CommitMade? ||
      event.kind.Finalize? || event.kind.TaskFinalizationFailed? || event.kind.LockWarning? ||
      event.kind.RunCompleted? || event.kind.RunAborted? || event.kind.RunFinalizationFailed? ||
      event.kind.PlanCompletionCandidate?
  }

  function ToBusEvent(event: Event, diagnostics: bool): Option<BusEvent> {
    if !ShouldBridge(event, diagnostics) then None
    else if event.kind.DriverActivity? then Some(ActivityBusEvent(event))
    else Some(DriverBusEvent(event))
  }

  predicate IsTerminal(event: Event) {
    event.kind.RunCompleted? || event.kind.RunAborted? || event.kind.RunFinalizationFailed?
  }

  /** What the bus shows of an event: nothing of the beginnings of a run and of a task, of a preflight that
      passed and of the steps of a spawn, and of a diagnostic only if that is asked for; the event itself
      otherwise, so every event that ends a run gets there. */
  lemma BusShows(event: Event, diagnostics: bool)
    ensures ToBusEvent(event, diagnostics).None? <==>
      || event.kind in {RunStarted, TaskStarted, Preflight(false), SpawnStarted, SpawnCompleted, SpawnFailed, Verify}
      || (event.kind.DriverDiagnostic? && !diagnostics)
    ensures ToBusEvent(event, diagnostics).Some? ==>
      ToBusEvent(event, diagnostics).value == if event.kind.DriverActivity? then ActivityBusEvent(event) else DriverBusEvent(event)
    ensures event.kind.RunCompleted? || event.kind.RunAborted? || event.kind.RunFinalizationFailed? ==>
      IsTerminal(event) && ToBusEvent(event, diagnostics) == Some(DriverBusEvent(event))
    ensures IsTerminal(event) ==> event.kind in {RunCompleted, RunAborted} || event.kind.RunFinalizationFailed?
  {
    if !ShouldBridge(event, diagnostics) && !event.kind.DriverDiagnostic? {
      assert event.kind.Preflight? ==> event.kind == Preflight(false);
    }
  }
}
