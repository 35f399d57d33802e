/**
 What Drive promises about finalization, as a property of the history of one run over all its
 processes: first attempts, crashes, and the retries of later resumes
 (lib/driver/drive-finalization.ts, lib/driver/run-state.ts, cli/drive/subcommand.ts:1231-1560).
 */
module FinalizationHistory {
  import opened Wrappers

  type Sha = nat
  datatype Report = Success | Partial | Failure

  /** The persisted `pending-finalization.json`. */
  datatype Pending =
    | CommitPhase(task: nat, headBefore: Sha)
    | StatusPhase(task: nat, sha: Sha)
    | StatePhase(headBefore: Sha)

  datatype Event =
    | Reported(task: nat, report: Report)  // the worker's outcome, persisted with its step
    | SourceFinalized(task: nat)           // its sources were committed, or there was nothing to commit
    | MarkedDone(task: nat)                // Drive set the task file to Done
    | Misfiled(task: nat)                  // a status failure of a task that had not succeeded was recorded
    | StateAttempted
    | StateLanded                          // the task files are committed
    | Recorded(pending: Pending)
    | Cleared(pending: Pending)

  type History = seq<Event>

  /** The pending record that is on disk after `h`. */
  function Outstanding(h: History): Option<Pending> {
    if h == [] then None
    else match h[|h| - 1]
         case Recorded(p) => Some(p)
         case Cleared(_) => None
         case _ => Outstanding(h[..|h| - 1])
  }

  /** What happened after the last pending record was written. */
  function SinceRecorded(h: History): set<Event> {
    if h == [] || h[|h| - 1].Recorded? then {} else SinceRecorded(h[..|h| - 1]) + {h[|h| - 1]}
  }

  /** May `e` follow `h` in a run over `n` tasks? `commits` is the driver-commits policy. */
  ghost predicate Allowed(n: nat, commits: bool, h: History, e: Event) {
    match e
    case MarkedDone(t) =>
      // never before the task's sources are settled, and only for reported success or a misfiled record
      && (commits ==> SourceFinalized(t) in h)
      && (Reported(t, Success) in h || Misfiled(t) in h)
    case Misfiled(t) =>
      // the record of a task that was committed without having succeeded
      commits && SourceFinalized(t) in h && Reported(t, Success) !in h
    case StateAttempted =>
      forall t | 0 <= t < n :: MarkedDone(t) in h
    case StateLanded =>
      StateAttempted in h
    case Recorded(_) =>
      // an outstanding record is never overwritten
      Outstanding(h).None?
    case Cleared(p) =>
      && Outstanding(h) == Some(p)
      && (match p
         case CommitPhase(t, _) => SourceFinalized(t) in SinceRecorded(h) && MarkedDone(t) in SinceRecorded(h)
         case StatusPhase(t, _) => SourceFinalized(t) in h && MarkedDone(t) in SinceRecorded(h)
         case StatePhase(_) => StateLanded in SinceRecorded(h))
    case _ => true
  }

  /** Every event of the history was allowed when it happened. */
  ghost predicate Safe(n: nat, commits: bool, h: History) {
    h == [] || (Safe(n, commits, h[..|h| - 1]) && Allowed(n, commits, h[..|h| - 1], h[|h| - 1]))
  }

  lemma SafeSnoc(n: nat, commits: bool, h: History, e: Event)
    requires Safe(n, commits, h) && Allowed(n, commits, h, e)
    ensures Safe(n, commits, h + [e])
    ensures Outstanding(h + [e]) == match e case Recorded(p) => Some(p) case Cleared(_) => None case _ => Outstanding(h)
    ensures SinceRecorded(h + [e]) == if e.Recorded? then {} else SinceRecorded(h) + {e}
    ensures forall x :: x in h + [e] <==> x in h || x == e
  {
    assert (h + [e])[..|h + [e]| - 1] == h;
  }

  /** In a safe history every allowed event was allowed by what came strictly before it. */
  lemma {:induction false} AllowedAt(n: nat, commits: bool, h: History, i: nat)
    requires Safe(n, commits, h) && i < |h|
    ensures Allowed(n, commits, h[..i], h[i])
    decreases |h|
  {
    if i < |h| - 1 {
      AllowedAt(n, commits, h[..|h| - 1], i);
      assert h[..|h| - 1][..i] == h[..i];
    }
  }

  /** Once the state commit was attempted, every task had been marked Done after its sources were settled. */
  lemma StateCommitComesLast(n: nat, commits: bool, h: History, i: nat, t: nat)
    requires Safe(n, commits, h) && i < |h| && h[i].StateAttempted? && t < n
    ensures exists j | 0 <= j < i :: h[j] == MarkedDone(t) && (commits ==> SourceFinalized(t) in h[..j])
  {
    AllowedAt(n, commits, h, i);
    var j :| 0 <= j < i && h[..i][j] == MarkedDone(t);
    AllowedAt(n, commits, h, j);
  }

  /** Between two records there is always a clearing of the first. */
  lemma RecordsAreClearedFirst(n: nat, commits: bool, h: History, i: nat, j: nat)
    requires Safe(n, commits, h) && i < j < |h| && h[i].Recorded? && h[j].Recorded?
    ensures exists k | i < k < j :: h[k].Cleared?
  {
    AllowedAt(n, commits, h, j);
    if forall k | i < k < j :: !h[k].Cleared? {
      StaysOutstanding(h, i, j);
    }
  }

  lemma {:induction false} StaysOutstanding(h: History, i: nat, j: nat)
    requires i < j <= |h| && h[i].Recorded? && forall k | i < k < j :: !h[k].Cleared?
    ensures Outstanding(h[..j]).Some?
  {
    assert h[..j][..|h[..j]| - 1] == h[..j - 1];
    if i < j - 1 {
      StaysOutstanding(h, i, j - 1);
    }
  }

  /** Without misfiled records, Done means that the worker reported success. */
  lemma DoneIsEarned(n: nat, commits: bool, h: History, i: nat)
    requires Safe(n, commits, h) && i < |h| && h[i].MarkedDone? && Misfiled(h[i].task) !in h
    ensures Reported(h[i].task, Success) in h[..i]
  {
    AllowedAt(n, commits, h, i);
  }
}
