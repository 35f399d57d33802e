/** The link-based lock file of Drive runs (lib/driver/lock.ts), as interleaved steps of many callers.

    A lock is a file created by hard-linking a complete temporary file, so creating it and giving it
    its content is one step, and exactly one of several linkers succeeds. Everything else (reading the
    file, probing whether its owner runs, unlinking a dead owner's file, and the read and the unlink
    of a release) is a step of its own, and steps of different callers interleave freely. */
module LockProtocol {
  import opened Wrappers

  /** A process id. A process that died never comes back: pid reuse is not modelled. */
  type Process = nat
  /** One call of an acquire function, together with the handle it may return. */
  type Caller = nat

  datatype Kind = PlanLock | RepoCommitLock

  datatype Content = Content(runId: nat, pid: Process, startedAt: nat)

  /** The lock file, and which caller linked it. The program cannot see `creator`. */
  datatype LockFile = LockFile(content: Content, creator: Caller)

  datatype Phase =
    | Linking
    | Reading
    | Judging(seen: Content)
    | Breaking
    | Relinking
    | Refused
    | Holding
    | Comparing
    | Removing
    | Released

  datatype Agent = Agent(kind: Kind, content: Content, phase: Phase)

  datatype State = State(file: Option<LockFile>, agents: map<Caller, Agent>, dead: set<Process>)

  datatype Step =
    | Start(caller: Caller, kind: Kind, content: Content)
    | Link(caller: Caller, now: nat)
    | Read(caller: Caller)
    | Judge(caller: Caller)
    | Break(caller: Caller)
    | ReadAndBreak(caller: Caller)
    | Release(caller: Caller)
    | Compare(caller: Caller)
    | Remove(caller: Caller)
    | Crash(process: Process)

  const INITIAL := State(None, map[], {})

  predicate Live(s: State, a: Caller) {
    a in s.agents && s.agents[a].content.pid !in s.dead
  }

  /** Where an acquire function goes on after it found no file or removed a stale one: the plan lock
      tries once more and then gives up, the repository lock starts over. */
  function Again(kind: Kind): Phase {
    if kind == PlanLock then Relinking else Linking
  }

  predicate Enabled(s: State, step: Step) {
    match step
    case Start(a, _, content) => a !in s.agents && content.pid !in s.dead
    case Link(a, _) => Live(s, a) && (s.agents[a].phase == Linking || s.agents[a].phase == Relinking)
    case Read(a) => Live(s, a) && s.agents[a].phase == Reading
    case Judge(a) => Live(s, a) && s.agents[a].phase.Judging?
    case Break(a) => Live(s, a) && s.agents[a].phase == Breaking
    case ReadAndBreak(a) => Live(s, a) && s.agents[a].phase == Reading && s.file.Some? && s.file.value.content.pid in s.dead
    case Release(a) => Live(s, a) && s.agents[a].phase in {Holding, Comparing, Removing, Released}
    case Compare(a) => Live(s, a) && s.agents[a].phase == Comparing
    case Remove(a) => Live(s, a) && s.agents[a].phase == Removing
    case Crash(p) => true
  }

  function InPhase(s: State, a: Caller, phase: Phase): State
    requires a in s.agents
  {
    s.(agents := s.agents[a := s.agents[a].(phase := phase)])
  }

  function Apply(s: State, step: Step): State
    requires Enabled(s, step)
  {
    match step
    case Start(a, kind, content) =>
      s.(agents := s.agents[a := Agent(kind, content, Linking)])
    case Link(a, now) =>
      var me := s.agents[a];
      var content := if me.kind == RepoCommitLock then me.content.(startedAt := now) else me.content;
      var at := s.(agents := s.agents[a := me.(content := content)]);
      if s.file.None? then
        InPhase(at, a, Holding).(file := Some(LockFile(content, a)))
      else
        InPhase(at, a, if me.phase == Linking then Reading else Refused)
    case Read(a) =>
      InPhase(s, a, if s.file.None? then Again(s.agents[a].kind) else Judging(s.file.value.content))
    case Judge(a) =>
      if s.agents[a].phase.seen.pid in s.dead then
        InPhase(s, a, Breaking)
      else
        InPhase(s, a, if s.agents[a].kind == PlanLock then Refused else Linking)
    case Break(a) =>
      InPhase(s, a, Again(s.agents[a].kind)).(file := None)
    case ReadAndBreak(a) =>
      InPhase(s, a, Again(s.agents[a].kind)).(file := None)
    case Release(a) =>
      if s.agents[a].phase == Holding then InPhase(s, a, Comparing) else s
    case Compare(a) =>
      InPhase(s, a, if s.file.Some? && s.file.value.content == s.agents[a].content then Removing else Released)
    case Remove(a) =>
      InPhase(s, a, Released).(file := None)
    case Crash(p) =>
      s.(dead := s.dead + {p})
  }

  /** The state after the given steps from the state with no file and no callers, if each of them is
      enabled in its turn. Every prefix of a run is a run, so a fact about the state after any run is a
      fact about every reachable state. */
  function Run(steps: seq<Step>): Option<State> {
    if steps == [] then
      Some(INITIAL)
    else
      match Run(steps[..|steps| - 1])
      case None => None
      case Some(s) =>
        var step := steps[|steps| - 1];
        if Enabled(s, step) then Some(Apply(s, step)) else None
  }

  predicate IsRun(steps: seq<Step>) {
    Run(steps).Some?
  }

  function After(steps: seq<Step>): State
    requires IsRun(steps)
  {
    Run(steps).value
  }

  /** No process dies in this run. */
  ghost predicate CrashFree(steps: seq<Step>) {
    forall i :: 0 <= i < |steps| ==> !steps[i].Crash?
  }

  /** Whoever removes a dead owner's file has read that file in the same step. */
  ghost predicate BreaksAtOnce(steps: seq<Step>) {
    forall i :: 0 <= i < |steps| ==> !steps[i].Break?
  }

  /** The caller has a handle that has not given the lock up yet. */
  predicate Holds(s: State, a: Caller) {
    Live(s, a) && s.agents[a].phase in {Holding, Comparing, Removing}
  }

  ghost predicate Excludes(s: State) {
    forall a, b :: Holds(s, a) && Holds(s, b) ==> a == b
  }

  /** A live caller has a handle exactly when the file is the one it linked, and a file says truly who
      linked it. */
  ghost predicate OwnersMatch(s: State) {
    (forall a :: Holds(s, a) ==> s.file == Some(LockFile(s.agents[a].content, a))) &&
    (s.file.Some? ==>
      var a := s.file.value.creator;
      a in s.agents && s.file.value.content.pid == s.agents[a].content.pid && (Live(s, a) ==> Holds(s, a)))
  }

  lemma NobodyDeadIfCrashFree(steps: seq<Step>)
    requires IsRun(steps) && CrashFree(steps)
    ensures After(steps).dead == {}
    ensures forall a :: a in After(steps).agents ==> After(steps).agents[a].phase != Breaking
  {
    if steps != [] {
      NobodyDeadIfCrashFree(steps[..|steps| - 1]);
    }
  }

  lemma StepKeepsOwners(s: State, step: Step)
    requires Enabled(s, step) && !step.Break? && OwnersMatch(s)
    ensures OwnersMatch(Apply(s, step))
  {
    var t := Apply(s, step);
    forall a | Holds(t, a) ensures t.file == Some(LockFile(t.agents[a].content, a)) {
      if !Holds(s, a) {
        assert step.Link? && step.caller == a;
      } else if step.Remove? || step.ReadAndBreak? {
        assert s.file.value.creator == a;
      }
    }
    if t.file.Some? {
      var c := t.file.value.creator;
      if step.Link? && s.file.None? {
        assert c == step.caller;
      } else {
        assert t.file == s.file;
        assert Live(t, c) ==> Live(s, c);
        assert Live(t, c) ==> Holds(s, c);
        if step.Compare? && step.caller == c && Live(t, c) {
          assert s.file == Some(LockFile(s.agents[c].content, c));
        }
      }
    }
  }

  lemma {:induction false} OwnersAlwaysMatch(steps: seq<Step>)
    requires IsRun(steps) && (CrashFree(steps) || BreaksAtOnce(steps))
    ensures OwnersMatch(After(steps))
  {
    if steps != [] {
      var before, step := steps[..|steps| - 1], steps[|steps| - 1];
      OwnersAlwaysMatch(before);
      if step.Break? {
        NobodyDeadIfCrashFree(before);
        assert false;
      }
      StepKeepsOwners(After(before), step);
    }
  }

  /** Mutual exclusion: if no process dies, or if a stale file is read and removed in one step, then in
      every reachable state at most one live caller has the lock, whatever the number of processes and
      callers and however their steps interleave. */
  lemma MutualExclusion(steps: seq<Step>)
    requires IsRun(steps) && (CrashFree(steps) || BreaksAtOnce(steps))
    ensures Excludes(After(steps))
  {
    OwnersAlwaysMatch(steps);
  }

  /** A release finds the holder's own file when it compares, and removes no other file. */
  lemma ReleaseRemovesOwnFile(steps: seq<Step>, a: Caller)
    requires IsRun(steps) && (CrashFree(steps) || BreaksAtOnce(steps))
    requires Enabled(After(steps), Compare(a)) || Enabled(After(steps), Remove(a))
    ensures After(steps).file == Some(LockFile(After(steps).agents[a].content, a))
    ensures Enabled(After(steps), Compare(a)) ==> Apply(After(steps), Compare(a)).agents[a].phase == Removing
  {
    OwnersAlwaysMatch(steps);
    assert Holds(After(steps), a);
  }

  lemma Extend(steps: seq<Step>, step: Step)
    requires IsRun(steps) && Enabled(After(steps), step)
    ensures IsRun(steps + [step]) && After(steps + [step]) == Apply(After(steps), step)
  {
    assert (steps + [step])[..|steps + [step]| - 1] == steps;
  }

  // ------------------------------------------------------------------ who waits and who gives up

  /** How often a caller has tried to link. */
  function Links(steps: seq<Step>, a: Caller): nat {
    if steps == [] then 0
    else
      var last := steps[|steps| - 1];
      Links(steps[..|steps| - 1], a) + if last.Link? && last.caller == a then 1 else 0
  }

  /** What a caller does about an owner: it breaks the lock of a dead one; before a live one a caller of the
      plan lock gives up and a caller of the repository lock starts over. The file stays in any case. */
  lemma JudgeMeans(s: State, a: Caller)
    requires Enabled(s, Judge(a))
    ensures var t := Apply(s, Judge(a)); var owner := s.agents[a].phase.seen.pid;
      && t.file == s.file
      && t.agents[a].phase == if owner in s.dead then Breaking else if s.agents[a].kind == PlanLock then Refused else Linking
  {
  }

  /** The file that a caller links holds what it was started with; the time is that of linking for the
      repository lock alone. */
  lemma LinkMeans(s: State, a: Caller, now: nat)
    requires Enabled(s, Link(a, now))
    ensures var t := Apply(s, Link(a, now)); var mine := s.agents[a].content;
      if s.file.Some? then t.file == s.file && t.agents[a].phase in {Reading, Refused}
      else
        && t.agents[a].phase == Holding
        && t.file == Some(LockFile(Content(mine.runId, mine.pid, if s.agents[a].kind == PlanLock then mine.startedAt else now), a))
  {
  }

  /** A caller that reads no file any more links again, for the plan lock for the last time. */
  lemma ReadMeans(s: State, a: Caller)
    requires Enabled(s, Read(a))
    ensures var t := Apply(s, Read(a));
      && t.file == s.file
      && t.agents[a].phase == if s.file.Some? then Judging(s.file.value.content)
                              else if s.agents[a].kind == PlanLock then Relinking else Linking
  {
  }

  /** A release goes on to remove the file only if the file holds what its caller has linked, and does
      nothing the second time. */
  lemma CompareMeans(s: State, a: Caller)
    ensures Enabled(s, Compare(a)) ==>
      Apply(s, Compare(a)).file == s.file &&
      (Apply(s, Compare(a)).agents[a].phase == if s.file.Some? && s.file.value.content == s.agents[a].content then Removing else Released)
    ensures Enabled(s, Release(a)) && s.agents[a].phase != Holding ==> Apply(s, Release(a)) == s
  {
  }

  /** How far a caller has got tells how often it has tried. */
  ghost predicate TriesTell(me: Agent, links: nat) {
    && (me.phase == Refused || me.phase == Relinking ==> me.kind == PlanLock)
    && (me.kind == PlanLock ==> links <= 2)
    && (me.kind == PlanLock && me.phase == Linking ==> links == 0)
    && (me.kind == PlanLock && (me.phase in {Reading, Relinking, Breaking} || me.phase.Judging?) ==> links == 1)
    && (me.phase in {Holding, Comparing, Removing, Released} ==> links >= 1)
  }

  lemma {:induction false} TriesAlwaysTell(steps: seq<Step>, a: Caller)
    requires IsRun(steps)
    ensures if a in After(steps).agents then TriesTell(After(steps).agents[a], Links(steps, a)) else Links(steps, a) == 0
  {
    if steps != [] {
      TriesAlwaysTell(steps[..|steps| - 1], a);
    }
  }

  /** In every run a caller of the plan lock tries at most twice, and a caller of the repository lock is
      never refused. */
  lemma PlanLockTriesTwice(steps: seq<Step>, a: Caller)
    requires IsRun(steps) && a in After(steps).agents
    ensures After(steps).agents[a].kind == PlanLock ==> Links(steps, a) <= 2
    ensures After(steps).agents[a].kind == RepoCommitLock ==> After(steps).agents[a].phase != Refused
  {
    TriesAlwaysTell(steps, a);
  }

  /** The steps of one caller that meets nobody else: link; if the file is there, read it, remove it
      and link again. */
  function Alone(s: State, a: Caller, now: nat): seq<Step> {
    if s.file.None? then [Link(a, now)] else [Link(a, now), ReadAndBreak(a), Link(a, now)]
  }

  /** A lock never stays lost: whenever no live caller holds it, any live caller that is about to link
      gets it by its own steps alone, even if a dead process left the file behind. */
  lemma AbandonedLockIsTaken(steps: seq<Step>, a: Caller, now: nat)
    requires IsRun(steps) && (CrashFree(steps) || BreaksAtOnce(steps))
    requires Live(After(steps), a) && After(steps).agents[a].phase == Linking
    requires forall b :: !Holds(After(steps), b)
    ensures IsRun(steps + Alone(After(steps), a, now))
    ensures Holds(After(steps + Alone(After(steps), a, now)), a)
  {
    OwnersAlwaysMatch(steps);
    var s := After(steps);
    Extend(steps, Link(a, now));
    if s.file.Some? {
      var one := steps + [Link(a, now)];
      Extend(one, ReadAndBreak(a));
      var two := one + [ReadAndBreak(a)];
      Extend(two, Link(a, now));
      assert two + [Link(a, now)] == steps + Alone(s, a, now);
    }
  }

  /** Process 10 takes the lock and dies. */
  lemma LeaveStaleFile() returns (steps: seq<Step>)
    ensures |steps| == 3 && (forall i :: 0 <= i < 3 ==> (steps[i].Crash? <==> i == 2)) && IsRun(steps)
    ensures var me := Content(0, 10, 0);
      After(steps) == State(Some(LockFile(me, 0)), map[0 := Agent(PlanLock, me, Holding)], {10})
  {
    var me := Content(0, 10, 0);
    steps := [];
    Extend(steps, Start(0, PlanLock, me));
    steps := steps + [Start(0, PlanLock, me)];
    Extend(steps, Link(0, 0));
    steps := steps + [Link(0, 0)];
    Extend(steps, Crash(10));
    steps := steps + [Crash(10)];
    assert After(steps).agents == map[0 := Agent(PlanLock, me, Holding)];
  }

  /** A new caller finds a dead owner's file and gets ready to remove it. */
  lemma GetReadyToBreak(steps: seq<Step>, a: Caller, content: Content) returns (more: seq<Step>)
    requires IsRun(steps) && Enabled(After(steps), Start(a, PlanLock, content))
    requires After(steps).file.Some? && After(steps).file.value.content.pid in After(steps).dead
    ensures more == steps + [Start(a, PlanLock, content), Link(a, 0), Read(a), Judge(a)] && IsRun(more)
    ensures var s := After(steps);
      After(more) == s.(agents := s.agents[a := Agent(PlanLock, content, Breaking)])
  {
    var s := After(steps);
    Extend(steps, Start(a, PlanLock, content));
    var one := steps + [Start(a, PlanLock, content)];
    Extend(one, Link(a, 0));
    var two := one + [Link(a, 0)];
    Extend(two, Read(a));
    var three := two + [Read(a)];
    Extend(three, Judge(a));
    more := three + [Judge(a)];
    assert After(more).agents == s.agents[a := Agent(PlanLock, content, Breaking)];
  }

  /** A caller that is ready to remove a file removes whatever file is there and links its own. */
  lemma BreakAndLink(steps: seq<Step>, a: Caller) returns (more: seq<Step>)
    requires IsRun(steps) && Enabled(After(steps), Break(a)) && After(steps).agents[a].kind == PlanLock
    ensures more == steps + [Break(a), Link(a, 0)] && IsRun(more)
    ensures var s := After(steps); var me := s.agents[a];
      After(more) == State(Some(LockFile(me.content, a)), s.agents[a := me.(phase := Holding)], s.dead)
  {
    var s := After(steps);
    Extend(steps, Break(a));
    Extend(steps + [Break(a)], Link(a, 0));
    more := steps + [Break(a)] + [Link(a, 0)];
    assert After(more).agents == s.agents[a := s.agents[a].(phase := Holding)];
  }

  /** The limit of the protocol. With one crash, and with reading a stale file and removing it as
      separate steps, two callers can both judge the same file stale; the second removal then takes
      the file that the first one has just linked, and both hold the lock. */
  lemma SlowBreakerLosesExclusion() returns (steps: seq<Step>)
    ensures IsRun(steps) && !Excludes(After(steps))
    ensures |steps| > 2 && (forall i :: 0 <= i < |steps| ==> (steps[i].Crash? <==> i == 2))
  {
    steps := LeaveStaleFile();
    steps := GetReadyToBreak(steps, 1, Content(1, 11, 0));
    steps := GetReadyToBreak(steps, 2, Content(2, 12, 0));
    steps := BreakAndLink(steps, 1);
    steps := BreakAndLink(steps, 2);
    assert Holds(After(steps), 1) && Holds(After(steps), 2);
  }

  /** A run of the kind in which processes may die only if `crashes`, and stale files may be removed in
      a later step than they are read only if `slowBreaks`. */
  ghost predicate RunOfKind(steps: seq<Step>, crashes: bool, slowBreaks: bool) {
    IsRun(steps) && (crashes || CrashFree(steps)) && (slowBreaks || BreaksAtOnce(steps))
  }

  /** Exactly when the lock excludes: crashes are harmless if breaking is one step, slow breaking is
      harmless if nobody dies, and the two together are not. */
  lemma ExclusionIff(crashes: bool, slowBreaks: bool)
    ensures (forall steps :: RunOfKind(steps, crashes, slowBreaks) ==> Excludes(After(steps))) <==> !(crashes && slowBreaks)
  {
    if crashes && slowBreaks {
      var steps := SlowBreakerLosesExclusion();
      assert RunOfKind(steps, crashes, slowBreaks);
    } else {
      forall steps | RunOfKind(steps, crashes, slowBreaks) ensures Excludes(After(steps)) {
        MutualExclusion(steps);
      }
    }
  }

  /** In the same run a release goes wrong too: between the comparison and the removal of the fast
      caller's release, the slow caller replaces the file, and the release removes the slow caller's. */
  lemma SlowBreakerLosesItsFile() returns (steps: seq<Step>, victim: Caller)
    ensures IsRun(steps) && |steps| > 0 && steps[|steps| - 1].Remove?
    ensures victim != steps[|steps| - 1].caller
    ensures Holds(After(steps[..|steps| - 1]), victim) && Holds(After(steps), victim)
    ensures After(steps[..|steps| - 1]).file.Some? && After(steps[..|steps| - 1]).file.value.creator == victim
    ensures After(steps).file == None
  {
    var run := LeaveStaleFile();
    run := GetReadyToBreak(run, 1, Content(1, 11, 0));
    run := GetReadyToBreak(run, 2, Content(2, 12, 0));
    run := BreakAndLink(run, 1);
    Extend(run, Release(1));
    run := run + [Release(1)];
    Extend(run, Compare(1));
    run := run + [Compare(1)];
    run := BreakAndLink(run, 2);
    Extend(run, Remove(1));
    steps, victim := run + [Remove(1)], 2;
    assert steps[..|steps| - 1] == run;
  }

  /** The file that a release is about to compare or remove is the holder's own. */
  ghost predicate ReleasesOwn(s: State) {
    forall a :: Enabled(s, Compare(a)) || Enabled(s, Remove(a)) ==> s.file == Some(LockFile(s.agents[a].content, a))
  }

  /** Exactly when no release ever touches the file of another holder: for the same kinds of runs. */
  lemma ReleaseIff(crashes: bool, slowBreaks: bool)
    ensures (forall steps :: RunOfKind(steps, crashes, slowBreaks) ==> ReleasesOwn(After(steps))) <==> !(crashes && slowBreaks)
  {
    if crashes && slowBreaks {
      var steps, victim := SlowBreakerLosesItsFile();
      var before, release := steps[..|steps| - 1], steps[|steps| - 1];
      assert RunOfKind(before, crashes, slowBreaks);
      assert Enabled(After(before), Remove(release.caller));
      assert !ReleasesOwn(After(before));
    } else {
      forall steps | RunOfKind(steps, crashes, slowBreaks) ensures ReleasesOwn(After(steps)) {
        var s := After(steps);
        forall a | Enabled(s, Compare(a)) || Enabled(s, Remove(a)) ensures s.file == Some(LockFile(s.agents[a].content, a)) {
          ReleaseRemovesOwnFile(steps, a);
        }
      }
    }
  }
}
