/** The step and attempt records of a run, their results and their files (lib/driver/durable-steps.ts). */
module StepRecords {
  import opened Wrappers

  datatype Phase = CommitPhase | TaskStatusPhase | StateCommitPhase

  /** Task steps and finalizer steps have different ids (see DriveGraph). */
  datatype StepId = TaskStep(task: string) | CommitStep(task: string) | TaskStatusStep(task: string) | StateCommitStep

  datatype Outcome = Success | Partial | Failed | Blocked | Unknown
  datatype NextAction = Continue | Retry | WaitForHuman
  datatype Artifact =
    | ReportArtifact(task: string, attempt: nat)
    | CommitArtifact(sha: string, subject: Option<string>)
    | PendingFinalizationArtifact
  datatype Commit = Commit(sha: string, subject: Option<string>)
  datatype StepResult =
    StepResult(outcome: Outcome, summary: string, artifacts: seq<Artifact>, commits: seq<Commit>, nextAction: NextAction)

  datatype Status = Ready | Running | Completed | FailedStep | BlockedStep
  datatype Step = Step(status: Status, latestAttempt: Option<nat>, artifacts: seq<Artifact>, result: Option<StepResult>)
  datatype Attempt = Attempt(startedAt: nat, endedAt: Option<nat>, result: Option<StepResult>)
  datatype Active = Active(id: nat, startedAt: nat)

  datatype Report = Report(outcome: Outcome, summary: string)
  datatype FinalizeStatus = Started | Passed | Skipped | FinalizeFailed

  datatype Event =
    | TaskStarted(task: string)
    | SpawnStarted(task: string, at: nat)
    | SpawnCompleted(task: string, report: Report, at: nat)
    | SpawnFailed(task: string, error: string, at: nat)
    | PreflightFailed(task: string, reason: string)
    | TaskDone(task: string)
    | TaskBlocked(task: string, progress: bool, reason: string)
    | CommitMade(task: string, sha: string, subject: Option<string>)
    | Finalize(phase: Phase, ofTask: Option<string>, status: FinalizeStatus, summary: string, commit: Option<Commit>, at: nat)
    | FinalizationFailed(phase: Phase, ofTask: Option<string>, reason: string, commitSha: Option<string>, at: nat)
    | OtherEvent

  // ------------------------------------------------------------------ artifacts and results

  /** What tells artifacts apart: id and path, not the metadata. */
  function Key(a: Artifact): Artifact {
    if a.CommitArtifact? then a.(subject := None) else a
  }

  function KeysOf(artifacts: seq<Artifact>): set<Artifact> {
    if artifacts == [] then {} else KeysOf(artifacts[..|artifacts| - 1]) + {Key(artifacts[|artifacts| - 1])}
  }

  /** The artifacts without those that repeat an earlier one. */
  function Unique(artifacts: seq<Artifact>): seq<Artifact> {
    if artifacts == [] then []
    else
      var n := |artifacts| - 1;
      if Key(artifacts[n]) in KeysOf(artifacts[..n]) then Unique(artifacts[..n]) else Unique(artifacts[..n]) + [artifacts[n]]
  }

  method UniqueArtifacts(artifacts: seq<Artifact>) returns (unique: seq<Artifact>)
    ensures unique == Unique(artifacts)
  {
    var seen: set<Artifact> := {};
    unique := [];
    var i := 0;
    while i < |artifacts|
      invariant 0 <= i <= |artifacts|
      invariant seen == KeysOf(artifacts[..i])
      invariant unique == Unique(artifacts[..i])
    {
      assert artifacts[..i + 1][..i] == artifacts[..i];
      if Key(artifacts[i]) !in seen {
        seen := seen + {Key(artifacts[i])};
        unique := unique + [artifacts[i]];
      }
      i := i + 1;
    }
    assert artifacts[..i] == artifacts;
  }

  predicate NoRepeats(artifacts: seq<Artifact>) {
    artifacts == [] ||
    (NoRepeats(artifacts[..|artifacts| - 1]) && Key(artifacts[|artifacts| - 1]) !in KeysOf(artifacts[..|artifacts| - 1]))
  }

  /** Nothing is lost and nothing is left twice. */
  lemma {:induction false} UniqueKeeps(artifacts: seq<Artifact>)
    ensures KeysOf(Unique(artifacts)) == KeysOf(artifacts) && NoRepeats(Unique(artifacts))
  {
    if artifacts != [] {
      var n := |artifacts| - 1;
      UniqueKeeps(artifacts[..n]);
      var before := Unique(artifacts[..n]);
      assert (before + [artifacts[n]])[..|before|] == before;
    }
  }

  lemma {:induction false} UniqueAlready(artifacts: seq<Artifact>)
    requires NoRepeats(artifacts)
    ensures Unique(artifacts) == artifacts
  {
    if artifacts != [] {
      UniqueAlready(artifacts[..|artifacts| - 1]);
      assert artifacts == artifacts[..|artifacts| - 1] + [artifacts[|artifacts| - 1]];
    }
  }

  predicate FirstOfItsKind(artifacts: seq<Artifact>, j: nat)
    requires j < |artifacts|
  {
    forall i :: 0 <= i < j ==> Key(artifacts[i]) != Key(artifacts[j])
  }

  lemma {:induction false} KeysAre(artifacts: seq<Artifact>)
    ensures forall key :: key in KeysOf(artifacts) <==> exists i :: 0 <= i < |artifacts| && Key(artifacts[i]) == key
  {
    if artifacts != [] {
      var n := |artifacts| - 1;
      KeysAre(artifacts[..n]);
      assert forall i :: 0 <= i < n ==> artifacts[..n][i] == artifacts[i];
      assert forall key :: key in KeysOf(artifacts[..n]) ==> exists i :: 0 <= i < |artifacts| && Key(artifacts[i]) == key;
    }
  }

  /** Of artifacts that are the same the first one stays, */
  lemma {:induction false} FirstStays(artifacts: seq<Artifact>, j: nat)
    requires j < |artifacts| && FirstOfItsKind(artifacts, j)
    ensures artifacts[j] in Unique(artifacts)
  {
    var n := |artifacts| - 1;
    if j < n {
      FirstStays(artifacts[..n], j);
    } else {
      KeysAre(artifacts[..n]);
    }
  }

  /** and only the first one, */
  lemma {:induction false} OnlyFirstsStay(artifacts: seq<Artifact>, a: Artifact) returns (j: nat)
    requires a in Unique(artifacts)
    ensures j < |artifacts| && artifacts[j] == a && FirstOfItsKind(artifacts, j)
  {
    var n := |artifacts| - 1;
    if a in Unique(artifacts[..n]) {
      j := OnlyFirstsStay(artifacts[..n], a);
    } else {
      KeysAre(artifacts[..n]);
      j := n;
      forall i | 0 <= i < n ensures Key(artifacts[i]) != Key(artifacts[n]) {
        assert artifacts[..n][i] == artifacts[i];
      }
    }
  }

  /** and they stay in their order. */
  lemma LaterComesLater(artifacts: seq<Artifact>, more: Artifact)
    ensures Unique(artifacts) <= Unique(artifacts + [more])
  {
    assert (artifacts + [more])[..|artifacts|] == artifacts;
  }

  function OtherCommits(commits: seq<Commit>, sha: string): seq<Commit> {
    if commits == [] then []
    else
      var n := |commits| - 1;
      if commits[n].sha == sha then OtherCommits(commits[..n], sha) else OtherCommits(commits[..n], sha) + [commits[n]]
  }

  function WithCommit(r: StepResult, sha: string, subject: Option<string>): StepResult {
    r.(artifacts := Unique(r.artifacts + [CommitArtifact(sha, subject)]),
       commits := OtherCommits(r.commits, sha) + [Commit(sha, subject)])
  }

  lemma {:induction false} OtherCommitsAre(commits: seq<Commit>, sha: string)
    ensures forall c :: c in OtherCommits(commits, sha) <==> c in commits && c.sha != sha
  {
    if commits != [] {
      var n := |commits| - 1;
      OtherCommitsAre(commits[..n], sha);
      assert commits == commits[..n] + [commits[n]];
    }
  }

  /** Adding a commit puts it last in place of any other record of it and changes nothing else of the result. */
  lemma WithCommitMeans(r: StepResult, sha: string, subject: Option<string>)
    ensures var w := WithCommit(r, sha, subject);
      && w.outcome == r.outcome && w.summary == r.summary && w.nextAction == r.nextAction
      && w.commits != [] && w.commits[|w.commits| - 1] == Commit(sha, subject)
      && (forall c :: c in w.commits <==> c == Commit(sha, subject) || (c in r.commits && c.sha != sha))
      && KeysOf(w.artifacts) == KeysOf(r.artifacts) + {CommitArtifact(sha, None)}
  {
    OtherCommitsAre(r.commits, sha);
    var all := r.artifacts + [CommitArtifact(sha, subject)];
    UniqueKeeps(all);
    assert all[..|r.artifacts|] == r.artifacts;
  }

  lemma {:induction false} NoOtherCommits(commits: seq<Commit>, sha: string)
    ensures OtherCommits(OtherCommits(commits, sha), sha) == OtherCommits(commits, sha)
  {
    if commits != [] {
      var n := |commits| - 1;
      NoOtherCommits(commits[..n], sha);
      var o := OtherCommits(commits[..n], sha);
      assert (o + [commits[n]])[..|o|] == o;
    }
  }

  /** A commit that is reported twice is recorded once. */
  lemma WithCommitTwice(r: StepResult, sha: string, subject: Option<string>)
    ensures WithCommit(WithCommit(r, sha, subject), sha, subject) == WithCommit(r, sha, subject)
  {
    var c := CommitArtifact(sha, subject);
    var all := r.artifacts + [c];
    var u := Unique(all);
    UniqueKeeps(all);
    UniqueAlready(u);
    assert Key(c) in KeysOf(all);
    assert (u + [c])[..|u|] == u;
    NoOtherCommits(r.commits, sha);
    var o := OtherCommits(r.commits, sha);
    assert (o + [Commit(sha, subject)])[..|o|] == o;
  }

  function CompletedResult(): StepResult {
    StepResult(Success, "Drive task completed.", [], [], Continue)
  }

  function OrElse<T>(a: Option<T>, b: Option<T>): Option<T> {
    if a.Some? then a else b
  }

  function Get<K, V>(m: map<K, V>, k: K): Option<V> {
    if k in m then Some(m[k]) else None
  }

  /** The result a `task_done` event leaves behind, from what is remembered and what is stored. */
  function DoneResult(remembered: Option<StepResult>, stored: Option<StepResult>): StepResult {
    var known := OrElse(remembered, stored);
    if known.Some? then known.value else CompletedResult()
  }

  function BlockedResult(remembered: Option<StepResult>, progress: bool, reason: string): StepResult {
    if remembered.Some? && remembered.value.outcome != Success then remembered.value
    else StepResult(if progress then Partial else Blocked, reason, [], [], WaitForHuman)
  }

  function ReportResult(task: string, attempt: nat, report: Report): StepResult {
    StepResult(report.outcome, report.summary, [ReportArtifact(task, attempt)], [],
               if report.outcome == Success then Continue else WaitForHuman)
  }

  function FinalizerResult(e: Event): StepResult
    requires e.Finalize?
  {
    var failed := e.status == FinalizeFailed;
    var artifacts := if e.commit.Some? then [CommitArtifact(e.commit.value.sha, e.commit.value.subject)] else [];
    var base := StepResult(if failed then Failed else Success, e.summary,
                           if failed then Unique(artifacts + [PendingFinalizationArtifact]) else artifacts, [],
                           if failed then Retry else Continue);
    if e.commit.Some? then WithCommit(base, e.commit.value.sha, e.commit.value.subject) else base
  }

  lemma KeysOfTwo(a: Artifact, b: Artifact)
    ensures KeysOf([]) == {} && KeysOf([a]) == {Key(a)} && KeysOf([a, b]) == {Key(a), Key(b)}
  {
    assert [a, b][..1] == [a] && [a][..0] == [];
  }

  lemma WithFirstCommit(r: StepResult, sha: string, subject: Option<string>)
    requires r.commits == []
    ensures WithCommit(r, sha, subject).commits == [Commit(sha, subject)]
    ensures KeysOf(WithCommit(r, sha, subject).artifacts) == KeysOf(r.artifacts) + {CommitArtifact(sha, None)}
  {
    WithCommitMeans(r, sha, subject);
  }

  function CommitKeys(commit: Option<Commit>): set<Artifact> {
    if commit.Some? then {CommitArtifact(commit.value.sha, None)} else {}
  }

  lemma PendingWith(made: Artifact)
    ensures var pending := PendingFinalizationArtifact;
      && [pending] == [] + [pending] && KeysOf(Unique([] + [pending])) == {pending}
      && [made, pending] == [made] + [pending] && KeysOf(Unique([made] + [pending])) == {Key(made), pending}
  {
    var pending := PendingFinalizationArtifact;
    KeysOfTwo(pending, pending);
    KeysOfTwo(made, pending);
    UniqueKeeps([pending]);
    UniqueKeeps([made, pending]);
    assert [] + [pending] == [pending] && [made] + [pending] == [made, pending];
  }

  lemma PendingAndCommit(summary: string, sha: string, subject: Option<string>)
    ensures var made := CommitArtifact(sha, subject);
      var r := WithCommit(StepResult(Failed, summary, Unique([made] + [PendingFinalizationArtifact]), [], Retry), sha, subject);
      && r.outcome == Failed && r.nextAction == Retry && r.summary == summary && r.commits == [Commit(sha, subject)]
      && KeysOf(r.artifacts) == {PendingFinalizationArtifact, CommitArtifact(sha, None)}
  {
    var made := CommitArtifact(sha, subject);
    PendingWith(made);
    WithFirstCommit(StepResult(Failed, summary, Unique([made] + [PendingFinalizationArtifact]), [], Retry), sha, subject);
  }

  /** The result of a failed finalizer is a failure to be retried, with the pending finalization as artifact. */
  lemma FailedFinalizerResult(e: Event)
    requires e.Finalize? && e.status.FinalizeFailed?
    ensures var r := FinalizerResult(e);
      && r.outcome == Failed && r.nextAction == Retry && r.summary == e.summary
      && r.commits == (if e.commit.None? then [] else [e.commit.value])
      && KeysOf(r.artifacts) == {PendingFinalizationArtifact} + CommitKeys(e.commit)
  {
    if e.commit.None? {
      PendingWith(PendingFinalizationArtifact);
    } else {
      PendingAndCommit(e.summary, e.commit.value.sha, e.commit.value.subject);
    }
  }

  /** The result of any other is a success that lets the run go on. */
  lemma FinishedFinalizerResult(e: Event)
    requires e.Finalize? && !e.status.FinalizeFailed?
    ensures var r := FinalizerResult(e);
      && r.outcome == Success && r.nextAction == Continue && r.summary == e.summary
      && r.commits == (if e.commit.None? then [] else [e.commit.value])
      && KeysOf(r.artifacts) == CommitKeys(e.commit)
  {
    if e.commit.None? {
    } else {
      var made := CommitArtifact(e.commit.value.sha, e.commit.value.subject);
      KeysOfTwo(made, made);
      WithFirstCommit(StepResult(Success, e.summary, [made], [], Continue), e.commit.value.sha, e.commit.value.subject);
    }
  }

  /** The status of a finalizer's step after the event that ends its attempt. */
  function EndStatus(e: Event): Status
    requires e.Finalize?
  {
    if e.status == FinalizeFailed then FailedStep else Completed
  }

  function RetryableFailureResult(e: Event): StepResult
    requires e.FinalizationFailed?
  {
    var artifacts := if e.commitSha.Some? then [CommitArtifact(e.commitSha.value, None)] else [];
    var base := StepResult(Failed, e.reason, Unique(artifacts + [PendingFinalizationArtifact]), [], Retry);
    if e.commitSha.Some? then WithCommit(base, e.commitSha.value, None) else base
  }

  /** The result that the report of a failed finalization leaves behind is a failure to be retried too. */
  lemma RetryableFailureMeans(e: Event)
    requires e.FinalizationFailed?
    ensures var commit := if e.commitSha.Some? then Some(Commit(e.commitSha.value, None)) else None;
      var r := RetryableFailureResult(e);
      && r.outcome == Failed && r.nextAction == Retry && r.summary == e.reason
      && r.commits == (if commit.None? then [] else [commit.value])
      && KeysOf(r.artifacts) == {PendingFinalizationArtifact} + CommitKeys(commit)
  {
    var commit := if e.commitSha.Some? then Some(Commit(e.commitSha.value, None)) else None;
    var failed := Finalize(e.phase, e.ofTask, FinalizeFailed, e.reason, commit, e.at);
    assert RetryableFailureResult(e) == FinalizerResult(failed);
    FailedFinalizerResult(failed);
  }

  function FinalizerStepId(phase: Phase, task: Option<string>): Option<StepId> {
    match phase
    case CommitPhase => if task.Some? && task.value != "" then Some(CommitStep(task.value)) else None
    case TaskStatusPhase => if task.Some? && task.value != "" then Some(TaskStatusStep(task.value)) else None
    case StateCommitPhase => Some(StateCommitStep)
  }

  /** Every phase has steps of its own, one a task but for the state commit; without a task there is none. */
  lemma FinalizerStepMeans(phase: Phase, task: Option<string>)
    ensures FinalizerStepId(phase, task).None? <==> !phase.StateCommitPhase? && (task.None? || task.value == "")
    ensures FinalizerStepId(phase, task).Some? ==> var s := FinalizerStepId(phase, task).value;
      && (phase.CommitPhase? ==> s == CommitStep(task.value))
      && (phase.TaskStatusPhase? ==> s == TaskStatusStep(task.value))
      && (phase.StateCommitPhase? ==> s == StateCommitStep)
  {
  }

  // ------------------------------------------------------------------ the files

  datatype Disk = Disk(steps: map<StepId, Step>, attempts: map<StepId, map<nat, Attempt>>)

  function AttemptsOf(d: Disk, s: StepId): map<nat, Attempt> {
    if s in d.attempts then d.attempts[s] else map[]
  }

  /** Attempts are numbered 1, 2, 3, ... per step; the source pads the number to three digits. */
  function NextAttemptId(d: Disk, s: StepId): nat {
    |AttemptsOf(d, s)| + 1
  }

  function WriteAttempt(d: Disk, s: StepId, id: nat, a: Attempt): Disk {
    d.(attempts := d.attempts[s := AttemptsOf(d, s)[id := a]])
  }

  datatype Updates = Updates(status: Option<Status>, latestAttempt: Option<nat>,
                             artifacts: Option<seq<Artifact>>, result: Option<StepResult>)

  function UpsertStep(d: Disk, s: StepId, u: Updates): Disk {
    var existing := Get(d.steps, s);
    var step := match existing
      case Some(e) => Step(if u.status.Some? then u.status.value else e.status,
                           OrElse(u.latestAttempt, e.latestAttempt),
                           if u.artifacts.Some? then u.artifacts.value else e.artifacts,
                           OrElse(u.result, e.result))
      case None => Step(if u.status.Some? then u.status.value else Ready, u.latestAttempt,
                        if u.artifacts.Some? then u.artifacts.value else [], u.result);
    d.(steps := d.steps[s := step])
  }

  /** What an update does not mention stays in a step's record, and no other record changes. */
  lemma UpsertStepMeans(d: Disk, s: StepId, u: Updates)
    ensures var after := UpsertStep(d, s, u);
      && after.attempts == d.attempts && after.steps.Keys == d.steps.Keys + {s}
      && (forall t :: t in d.steps && t != s ==> after.steps[t] == d.steps[t])
      && (u.status.Some? ==> after.steps[s].status == u.status.value)
      && (u.latestAttempt.Some? ==> after.steps[s].latestAttempt == u.latestAttempt)
      && (u.artifacts.Some? ==> after.steps[s].artifacts == u.artifacts.value)
      && (u.result.Some? ==> after.steps[s].result == u.result)
      && (s in d.steps && u.status.None? ==> after.steps[s].status == d.steps[s].status)
      && (s in d.steps && u.latestAttempt.None? ==> after.steps[s].latestAttempt == d.steps[s].latestAttempt)
      && (s in d.steps && u.artifacts.None? ==> after.steps[s].artifacts == d.steps[s].artifacts)
      && (s in d.steps && u.result.None? ==> after.steps[s].result == d.steps[s].result)
  {
  }

  predicate Ended(a: Attempt) {
    a.endedAt.Some? || a.result.Some?
  }

  function OneTo(n: nat): (r: set<nat>)
    ensures forall k :: k in r <==> 1 <= k <= n
  {
    if n == 0 then {} else OneTo(n - 1) + {n}
  }

  predicate NumberedFromOne(attempts: map<nat, Attempt>) {
    attempts.Keys == OneTo(|attempts|)
  }

  /** The attempts of every step are numbered without gaps. */
  ghost predicate Contiguous(d: Disk) {
    forall s :: s in d.attempts ==> NumberedFromOne(d.attempts[s])
  }

  /** No attempt is removed, and no ended attempt is changed. */
  ghost predicate Kept(before: map<nat, Attempt>, after: map<nat, Attempt>) {
    forall k :: k in before ==> k in after && (Ended(before[k]) ==> after[k] == before[k])
  }

  ghost predicate EndedKept(before: Disk, after: Disk) {
    forall s :: s in before.attempts ==> s in after.attempts && Kept(before.attempts[s], after.attempts[s])
  }

  ghost function EndedIds(d: Disk, s: StepId): set<nat> {
    set k | k in AttemptsOf(d, s) && Ended(AttemptsOf(d, s)[k])
  }

  /** An attempt may be written to if it is not ended, and created if it is the next one. */
  predicate Writable(d: Disk, s: StepId, id: nat) {
    if id in AttemptsOf(d, s) then !Ended(AttemptsOf(d, s)[id]) else id == NextAttemptId(d, s)
  }

  /** Every attempt that is remembered as open is there and is open. */
  ghost predicate ActiveOpen(d: Disk, active: map<StepId, Active>) {
    forall s :: s in active ==> active[s].id in AttemptsOf(d, s) && !Ended(AttemptsOf(d, s)[active[s].id])
  }

  /** The attempt that is remembered for a step is the one its record names, and started when that says. */
  ghost predicate LatestIsFor(d: Disk, s: StepId, a: Active) {
    && s in d.steps && d.steps[s].latestAttempt == Some(a.id)
    && a.id in AttemptsOf(d, s) && AttemptsOf(d, s)[a.id].startedAt == a.startedAt
  }

  ghost predicate LatestIs(d: Disk, active: map<StepId, Active>) {
    forall s :: s in active ==> LatestIsFor(d, s, active[s])
  }

  /** Whatever result is remembered for a task is the stored one. */
  ghost predicate Agrees(d: Disk, latest: map<string, StepResult>) {
    forall t :: t in latest ==> TaskStep(t) in d.steps && d.steps[TaskStep(t)].result == Some(latest[t])
  }

  lemma PutKeepsNumbers(m: map<nat, Attempt>, id: nat, a: Attempt)
    requires NumberedFromOne(m) && 1 <= id <= |m| + 1
    ensures NumberedFromOne(m[id := a])
    ensures |m[id := a]| == if id <= |m| then |m| else |m| + 1
  {
    var after := m[id := a];
    assert |m| == |m.Keys| && |after| == |after.Keys|;
    assert after.Keys == m.Keys + {id};
    if id <= |m| {
      assert id in OneTo(|m|);
      assert after.Keys == m.Keys;
    } else {
      assert id !in OneTo(|m|);
      assert |after.Keys| == |m.Keys| + 1;
      assert OneTo(|m| + 1) == OneTo(|m|) + {id};
    }
  }

  lemma WriteKeepsContiguous(d: Disk, s: StepId, id: nat, a: Attempt)
    requires Contiguous(d) && 1 <= id <= NextAttemptId(d, s)
    ensures Contiguous(WriteAttempt(d, s, id, a))
    ensures Writable(d, s, id) ==> EndedKept(d, WriteAttempt(d, s, id, a))
  {
    PutKeepsNumbers(AttemptsOf(d, s), id, a);
  }

  function LatestAttempt(d: Disk, s: StepId): Option<Attempt> {
    if s in d.steps && d.steps[s].latestAttempt.Some? then Get(AttemptsOf(d, s), d.steps[s].latestAttempt.value) else None
  }

  /** The attempt a finalizer event without a remembered start belongs to: the latest one if it is open,
      else a new one. */
  function ExistingOrNew(d: Disk, s: StepId, at: nat): Active {
    var latest := LatestAttempt(d, s);
    if latest.Some? && !Ended(latest.value) then Active(d.steps[s].latestAttempt.value, latest.value.startedAt)
    else Active(NextAttemptId(d, s), at)
  }

  /** The latest attempt ended with a failure that will be retried. */
  predicate RetryableFailure(d: Disk, s: StepId) {
    var latest := LatestAttempt(d, s);
    latest.Some? && latest.value.result.Some? &&
    latest.value.result.value.outcome == Failed && latest.value.result.value.nextAction == Retry
  }

  function ActiveFor(d: Disk, active: map<StepId, Active>, s: StepId, at: nat): Active {
    if s in active then active[s] else if s.TaskStep? then Active(NextAttemptId(d, s), at) else ExistingOrNew(d, s, at)
  }

  function Stored(d: Disk, task: string): Option<StepResult> {
    if TaskStep(task) in d.steps then d.steps[TaskStep(task)].result else None
  }
}
