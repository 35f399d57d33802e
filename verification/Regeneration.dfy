/** Generating the architecture map again from the files of the last time (lib/architecture-map/generator.ts).

    A file is its front matter, its body and its time stamps; encoding the front matter is not modelled.
    What the narratives' pages look like is in NarrativeText. */
module Regeneration {
  import opened Wrappers
  import opened NarrativeText
  import BundleStore
  import TextLines

  datatype NarrativeStatus = Generated | Reused | Pending

  datatype Narrative =
    Narrative(status: NarrativeStatus, oneLiner: Option<string>, text: Option<string>, pendingReason: Option<string>)

  /** `structure` stands for the rest of what was extracted from the sources. */
  datatype Skeleton =
    Skeleton(resource: string, dependencies: seq<string>, sourceHash: string, skeletonHash: string, structure: string)

  datatype Front =
    | IndexFront(projectHash: string, statFingerprint: string, moduleCount: nat, narrativeStatus: NarrativeStatus)
    | ModuleFront(resource: string, sourceHash: string, skeletonHash: string, narrativeStatus: NarrativeStatus)

  datatype Doc = Doc(front: Front, body: string, timestamp: Option<string>, generatedAt: Option<string>)

  datatype Answer = Answer(oneLiner: string, text: string) | Throws(message: string)

  /** What a pending page says for a module, and the reasons it gives. */
  datatype Wording = Wording(pendingFor: string -> string, disabled: string, noProvider: string, exhausted: string,
                             failed: string -> string)

  datatype Setup = Setup(enabled: bool, hasProvider: bool, maxModulesPerRun: nat, wording: Wording)

  /** How the parts of a page that are never read back are printed: what follows a page's file heading,
      and the body of the index. */
  datatype Layout = Layout(details: (Skeleton, set<string>) -> string, index: (seq<Skeleton>, seq<string>) -> string,
                           wording: Wording)

  datatype Project = Project(projectHash: string, statFingerprint: string)

  // ------------------------------------------------------------------ what was there before

  function ParsePriorNarrative(doc: Doc): Narrative {
    var oneLiner := OneLineOf(Lines(doc.body), NARRATIVE);
    var section := ExtractSection(doc.body, NARRATIVE, FILES);
    if doc.front.narrativeStatus == Pending then Narrative(Pending, oneLiner, None, section)
    else Narrative(doc.front.narrativeStatus, oneLiner, section, None)
  }

  /** A prior file, read. */
  datatype PriorRecord =
    PriorRecord(raw: Doc, sourceHash: Option<string>, skeletonHash: Option<string>, narrative: Narrative)

  function ReadPriorRecord(doc: Doc): PriorRecord {
    PriorRecord(doc,
                if doc.front.ModuleFront? then Some(doc.front.sourceHash) else None,
                if doc.front.ModuleFront? then Some(doc.front.skeletonHash) else None,
                ParsePriorNarrative(doc))
  }

  function ReadPriorRecords(files: map<string, Doc>): map<string, PriorRecord> {
    map path | path in files :: ReadPriorRecord(files[path])
  }

  function ShardPath(resource: string): string {
    "modules/" + (if resource == "." then "root" else resource) + ".md"
  }

  const INDEX := "index.md"

  // ------------------------------------------------------------------ narratives

  function PendingNarrative(w: Wording, resource: string, reason: string): Narrative {
    Narrative(Pending, Some(w.pendingFor(resource)), None, Some(reason))
  }

  datatype Decision = Keep(narrative: Narrative) | Ask

  /** The prior page of a module whose skeleton has not changed. */
  predicate Unchanged(s: Skeleton, priors: map<string, PriorRecord>) {
    var path := ShardPath(s.resource);
    path in priors && priors[path].skeletonHash == Some(s.skeletonHash)
  }

  /** That module has a narrative. */
  predicate Settled(s: Skeleton, priors: map<string, PriorRecord>) {
    Unchanged(s, priors) && priors[ShardPath(s.resource)].narrative.status != Pending
  }

  function Resolve(s: Skeleton, priors: map<string, PriorRecord>, setup: Setup, attempts: nat): Decision {
    var mayAsk := setup.enabled && setup.hasProvider && attempts < setup.maxModulesPerRun;
    if Settled(s, priors) then
      var prior := priors[ShardPath(s.resource)];
      Keep(if prior.sourceHash == Some(s.sourceHash) then prior.narrative else prior.narrative.(status := Reused))
    else if Unchanged(s, priors) && !mayAsk then Keep(priors[ShardPath(s.resource)].narrative)
    else if !setup.enabled then Keep(PendingNarrative(setup.wording, s.resource, setup.wording.disabled))
    else if !setup.hasProvider then Keep(PendingNarrative(setup.wording, s.resource, setup.wording.noProvider))
    else if attempts >= setup.maxModulesPerRun then
      Keep(PendingNarrative(setup.wording, s.resource, setup.wording.exhausted))
    else Ask
  }

  function Told(w: Wording, resource: string, answer: Answer): Narrative {
    match answer
    case Answer(oneLiner, text) => Narrative(Generated, Some(oneLiner), Some(text), None)
    case Throws(message) => PendingNarrative(w, resource, w.failed(message))
  }

  /** The positions of the modules that are sent to the provider. */
  function Asked(skeletons: seq<Skeleton>, priors: map<string, PriorRecord>, setup: Setup): seq<nat> {
    if skeletons == [] then []
    else
      var n := |skeletons| - 1;
      var before := Asked(skeletons[..n], priors, setup);
      if Resolve(skeletons[n], priors, setup, |before|).Ask? then before + [n] else before
  }

  /** The narratives of all modules, where the i-th question gets the i-th answer. */
  function Narratives(skeletons: seq<Skeleton>, priors: map<string, PriorRecord>, setup: Setup, answers: nat -> Answer): (r: seq<Narrative>)
    ensures |r| == |skeletons|
  {
    if skeletons == [] then []
    else
      var n := |skeletons| - 1;
      var attempts := |Asked(skeletons[..n], priors, setup)|;
      Narratives(skeletons[..n], priors, setup, answers) +
      [match Resolve(skeletons[n], priors, setup, attempts)
       case Keep(narrative) => narrative
       case Ask => Told(setup.wording, skeletons[n].resource, answers(attempts))]
  }

  lemma OneMoreModule(skeletons: seq<Skeleton>, priors: map<string, PriorRecord>, setup: Setup, answers: nat -> Answer, i: nat)
    requires i < |skeletons|
    ensures var attempts := |Asked(skeletons[..i], priors, setup)|;
      var resolved := Resolve(skeletons[i], priors, setup, attempts);
      && Narratives(skeletons[..i + 1], priors, setup, answers) == Narratives(skeletons[..i], priors, setup, answers) +
         [match resolved
          case Keep(narrative) => narrative
          case Ask => Told(setup.wording, skeletons[i].resource, answers(attempts))]
      && |Asked(skeletons[..i + 1], priors, setup)| == attempts + if resolved.Ask? then 1 else 0
  {
    assert skeletons[..i + 1][..i] == skeletons[..i];
  }

  method BuildModuleRecords(skeletons: seq<Skeleton>, priors: map<string, PriorRecord>, setup: Setup, answers: nat -> Answer)
    returns (narratives: seq<Narrative>, narrativeAttempts: nat)
    ensures narratives == Narratives(skeletons, priors, setup, answers)
    ensures narrativeAttempts == |Asked(skeletons, priors, setup)|
  {
    narratives, narrativeAttempts := [], 0;
    var i := 0;
    while i < |skeletons|
      invariant 0 <= i <= |skeletons|
      invariant narratives == Narratives(skeletons[..i], priors, setup, answers)
      invariant narrativeAttempts == |Asked(skeletons[..i], priors, setup)|
    {
      OneMoreModule(skeletons, priors, setup, answers, i);
      match Resolve(skeletons[i], priors, setup, narrativeAttempts) {
        case Keep(narrative) =>
          narratives := narratives + [narrative];
        case Ask =>
          narratives := narratives + [Told(setup.wording, skeletons[i].resource, answers(narrativeAttempts))];
          narrativeAttempts := narrativeAttempts + 1;
      }
      i := i + 1;
    }
    assert skeletons[..i] == skeletons;
  }

  /** The provider is never asked more often than the budget allows, never when it is switched off or
      missing, and never about a module that is unchanged and has a narrative. */
  lemma {:induction false} ProviderIsSpared(skeletons: seq<Skeleton>, priors: map<string, PriorRecord>, setup: Setup)
    ensures |Asked(skeletons, priors, setup)| <= setup.maxModulesPerRun
    ensures forall i :: i in Asked(skeletons, priors, setup) ==>
      setup.enabled && setup.hasProvider && i < |skeletons| && !Settled(skeletons[i], priors)
  {
    if skeletons != [] {
      var n := |skeletons| - 1;
      ProviderIsSpared(skeletons[..n], priors, setup);
      assert forall i: nat :: i < n ==> skeletons[..n][i] == skeletons[i];
    }
  }

  /** How many of the first `n` modules have no narrative that still counts. */
  ghost function Unsettled(skeletons: seq<Skeleton>, priors: map<string, PriorRecord>, n: nat): set<nat>
    requires n <= |skeletons|
  {
    set i: nat | i < n && !Settled(skeletons[i], priors)
  }

  lemma OneMoreUnsettled(skeletons: seq<Skeleton>, priors: map<string, PriorRecord>, n: nat)
    requires n < |skeletons|
    ensures |Unsettled(skeletons, priors, n + 1)| ==
      |Unsettled(skeletons, priors, n)| + if Settled(skeletons[n], priors) then 0 else 1
  {
    if Settled(skeletons[n], priors) {
      assert Unsettled(skeletons, priors, n + 1) == Unsettled(skeletons, priors, n);
    } else {
      assert Unsettled(skeletons, priors, n + 1) == Unsettled(skeletons, priors, n) + {n};
    }
  }

  lemma {:induction false} AskedCount(skeletons: seq<Skeleton>, priors: map<string, PriorRecord>, setup: Setup, n: nat)
    requires n <= |skeletons| && setup.enabled && setup.hasProvider
    ensures var unsettled := |Unsettled(skeletons, priors, n)|;
      |Asked(skeletons[..n], priors, setup)| == if unsettled < setup.maxModulesPerRun then unsettled else setup.maxModulesPerRun
  {
    if n == 0 {
      assert Unsettled(skeletons, priors, 0) == {};
    } else {
      AskedCount(skeletons, priors, setup, n - 1);
      OneMoreUnsettled(skeletons, priors, n - 1);
      assert skeletons[..n][..n - 1] == skeletons[..n - 1];
    }
  }

  lemma {:induction false} AskedAt(skeletons: seq<Skeleton>, priors: map<string, PriorRecord>, setup: Setup, n: nat, i: nat)
    requires i < n <= |skeletons|
    ensures var before := Asked(skeletons[..i], priors, setup);
      (i in Asked(skeletons[..n], priors, setup) <==> Resolve(skeletons[i], priors, setup, |before|).Ask?)
    ensures var before := Asked(skeletons[..i], priors, setup);
      Resolve(skeletons[i], priors, setup, |before|).Ask? ==> before + [i] <= Asked(skeletons[..n], priors, setup)
  {
    assert skeletons[..n][..n - 1] == skeletons[..n - 1];
    if i < n - 1 {
      AskedAt(skeletons, priors, setup, n - 1, i);
    } else {
      ProviderIsSpared(skeletons[..i], priors, setup);
    }
  }

  /** Exactly which modules the provider is asked about: the first ones that have no narrative that still
      counts, as many as the budget allows, in their order, each with the answer of its turn. */
  lemma AskedIff(skeletons: seq<Skeleton>, priors: map<string, PriorRecord>, setup: Setup, i: nat)
    requires i < |skeletons|
    ensures i in Asked(skeletons, priors, setup) <==>
      && setup.enabled && setup.hasProvider && !Settled(skeletons[i], priors)
      && |set j: nat | j < i && !Settled(skeletons[j], priors)| < setup.maxModulesPerRun
    ensures i in Asked(skeletons, priors, setup) ==>
      var turn := |set j: nat | j < i && !Settled(skeletons[j], priors)|;
      turn < |Asked(skeletons, priors, setup)| && Asked(skeletons, priors, setup)[turn] == i
  {
    assert skeletons[..|skeletons|] == skeletons;
    AskedAt(skeletons, priors, setup, |skeletons|, i);
    assert Unsettled(skeletons, priors, i) == set j: nat | j < i && !Settled(skeletons[j], priors);
    if setup.enabled && setup.hasProvider {
      AskedCount(skeletons, priors, setup, i);
    }
  }

  lemma {:induction false} NarrativeAt(skeletons: seq<Skeleton>, priors: map<string, PriorRecord>, setup: Setup,
                                       answers: nat -> Answer, i: nat)
    requires i < |skeletons|
    ensures var s, turn := skeletons[i], |Asked(skeletons[..i], priors, setup)|;
      Narratives(skeletons, priors, setup, answers)[i] ==
      match Resolve(s, priors, setup, turn)
      case Keep(narrative) => narrative
      case Ask => Told(setup.wording, s.resource, answers(turn))
  {
    var last := |skeletons| - 1;
    if i < last {
      NarrativeAt(skeletons[..last], priors, setup, answers, i);
      assert skeletons[..last][i] == skeletons[i] && skeletons[..last][..i] == skeletons[..i];
    }
  }

  /** What each module ends up with. If its page is of the same skeleton and has a narrative, it keeps that,
      marked as reused if the sources have changed. If it is asked about, it gets the answer of its turn: the
      summary and the text, or the failure as the reason for being pending. Otherwise it keeps the pending
      page of the same skeleton, or says why it is pending. */
  lemma NarrativeOfEach(skeletons: seq<Skeleton>, priors: map<string, PriorRecord>, setup: Setup, answers: nat -> Answer, i: nat)
    requires i < |skeletons|
    ensures var s, n, w := skeletons[i], Narratives(skeletons, priors, setup, answers)[i], setup.wording;
      var path := ShardPath(s.resource);
      var samePage := path in priors && priors[path].skeletonHash == Some(s.skeletonHash);
      if samePage && priors[path].narrative.status != Pending then
        var prior := priors[path].narrative;
        n == Narrative(if priors[path].sourceHash == Some(s.sourceHash) then prior.status else Reused,
                       prior.oneLiner, prior.text, prior.pendingReason)
      else if i in Asked(skeletons, priors, setup) then
        var answer := answers(|set j: nat | j < i && !Settled(skeletons[j], priors)|);
        n == if answer.Throws? then Narrative(Pending, Some(w.pendingFor(s.resource)), None, Some(w.failed(answer.message)))
             else Narrative(Generated, Some(answer.oneLiner), Some(answer.text), None)
      else if samePage then n == priors[path].narrative
      else n == Narrative(Pending, Some(w.pendingFor(s.resource)), None,
                          Some(if !setup.enabled then w.disabled else if !setup.hasProvider then w.noProvider else w.exhausted))
  {
    NarrativeAt(skeletons, priors, setup, answers, i);
    AskedIff(skeletons, priors, setup, i);
    assert skeletons[..|skeletons|] == skeletons;
    AskedAt(skeletons, priors, setup, |skeletons|, i);
    if setup.enabled && setup.hasProvider {
      AskedCount(skeletons, priors, setup, i);
      assert Unsettled(skeletons, priors, i) == set j: nat | j < i && !Settled(skeletons[j], priors);
    }
  }

  // ------------------------------------------------------------------ dependents

  ghost function DependentsOf(skeletons: seq<Skeleton>, resource: string): set<string> {
    set i | 0 <= i < |skeletons| && resource in skeletons[i].dependencies :: skeletons[i].resource
  }

  predicate Known(skeletons: seq<Skeleton>, resource: string) {
    exists i :: 0 <= i < |skeletons| && skeletons[i].resource == resource
  }

  /** Every known module gets exactly the modules that depend on it. The source sorts them. */
  method DeriveDependents(skeletons: seq<Skeleton>) returns (dependents: map<string, set<string>>)
    ensures forall r :: r in dependents <==> Known(skeletons, r) && DependentsOf(skeletons, r) != {}
    ensures forall r :: r in dependents ==> dependents[r] == DependentsOf(skeletons, r)
  {
    dependents := map[];
    var i := 0;
    while i < |skeletons|
      invariant 0 <= i <= |skeletons|
      invariant forall r :: r in dependents <==> Known(skeletons, r) && DependentsOf(skeletons[..i], r) != {}
      invariant forall r :: r in dependents ==> dependents[r] == DependentsOf(skeletons[..i], r)
    {
      dependents := AddDependent(skeletons, i, dependents);
      i := i + 1;
    }
    assert skeletons[..i] == skeletons;
  }

  lemma DependentsGrow(skeletons: seq<Skeleton>, i: nat, resource: string)
    requires i < |skeletons|
    ensures DependentsOf(skeletons[..i + 1], resource) ==
      DependentsOf(skeletons[..i], resource) + if resource in skeletons[i].dependencies then {skeletons[i].resource} else {}
  {
    var more := skeletons[..i + 1];
    assert more[i] == skeletons[i];
    forall x | x in DependentsOf(skeletons[..i], resource) ensures x in DependentsOf(more, resource) {
      var j :| 0 <= j < i && resource in skeletons[..i][j].dependencies && skeletons[..i][j].resource == x;
      assert more[j] == skeletons[..i][j];
    }
    forall x | x in DependentsOf(more, resource)
      ensures x in DependentsOf(skeletons[..i], resource) + if resource in skeletons[i].dependencies then {skeletons[i].resource} else {}
    {
      var j :| 0 <= j <= i && resource in more[j].dependencies && more[j].resource == x;
      if j < i {
        assert skeletons[..i][j] == more[j];
      }
    }
  }

  method AddDependent(skeletons: seq<Skeleton>, i: nat, dependents: map<string, set<string>>) returns (more: map<string, set<string>>)
    requires i < |skeletons|
    requires forall r :: r in dependents <==> Known(skeletons, r) && DependentsOf(skeletons[..i], r) != {}
    requires forall r :: r in dependents ==> dependents[r] == DependentsOf(skeletons[..i], r)
    ensures forall r :: r in more <==> Known(skeletons, r) && DependentsOf(skeletons[..i + 1], r) != {}
    ensures forall r :: r in more ==> more[r] == DependentsOf(skeletons[..i + 1], r)
  {
    more := dependents;
    var s := skeletons[i];
    var j := 0;
    while j < |s.dependencies|
      invariant 0 <= j <= |s.dependencies|
      invariant forall r :: r in more <==> Known(skeletons, r) && (DependentsOf(skeletons[..i], r) != {} || r in s.dependencies[..j])
      invariant forall r :: r in more ==>
        more[r] == DependentsOf(skeletons[..i], r) + if r in s.dependencies[..j] then {s.resource} else {}
    {
      var d := s.dependencies[j];
      assert s.dependencies[..j + 1] == s.dependencies[..j] + [d];
      if Known(skeletons, d) {
        more := more[d := (if d in more then more[d] else {}) + {s.resource}];
      }
      j := j + 1;
    }
    assert s.dependencies[..j] == s.dependencies;
    forall r ensures DependentsOf(skeletons[..i + 1], r) ==
      DependentsOf(skeletons[..i], r) + if r in s.dependencies then {s.resource} else {}
    {
      DependentsGrow(skeletons, i, r);
    }
  }

  // ------------------------------------------------------------------ rendering

  function EnsureTrailingNewline(body: string): string {
    if body != "" && body[|body| - 1] == '\n' then body else body + "\n"
  }

  /** The file for a page: its stamps stay if nothing else has changed since the prior file. */
  function StableRecord(front: Front, body: string, includeGeneratedAt: bool, prior: Option<Doc>, now: string): Doc {
    var text := EnsureTrailingNewline(body);
    var stamp := if prior.Some? && prior.value.timestamp.Some? then prior.value.timestamp.value else now;
    var generated := if prior.Some? && prior.value.generatedAt.Some? then prior.value.generatedAt.value else stamp;
    if prior.Some? && prior.value.front == front && prior.value.body == text then
      Doc(front, text, Some(stamp), if includeGeneratedAt then Some(generated) else None)
    else
      Doc(front, text, Some(now), if includeGeneratedAt then Some(now) else None)
  }

  /** The stamp of a page is new exactly if there was no such page, or none with a stamp, or if its front
      matter or its text has changed; otherwise it is the old one. */
  lemma StampTellsChange(front: Front, body: string, includeGeneratedAt: bool, prior: Option<Doc>, now: string)
    ensures var doc := StableRecord(front, body, includeGeneratedAt, prior, now);
      && doc.front == front && (doc.body == body || doc.body == body + "\n") && doc.body != "" && doc.body[|doc.body| - 1] == '\n'
      && (doc.generatedAt.Some? <==> includeGeneratedAt)
      && doc.timestamp ==
         if prior.Some? && prior.value.front == doc.front && prior.value.body == doc.body && prior.value.timestamp.Some?
         then prior.value.timestamp else Some(now)
  {
  }

  function OneLineNarrative(w: Wording, s: Skeleton, n: Narrative): string {
    if n.oneLiner.Some? then n.oneLiner.value else w.pendingFor(s.resource)
  }

  const NO_NARRATIVE := "Narrative pending."

  function Shown(n: Narrative): string {
    if n.text.Some? && n.text.value != "" then n.text.value
    else if n.pendingReason.Some? then n.pendingReason.value
    else NO_NARRATIVE
  }

  function ModuleBody(w: Wording, s: Skeleton, n: Narrative, details: string): string {
    RenderModuleBody(s.resource, OneLineNarrative(w, s, n), Shown(n), details)
  }

  function Lookup(priors: map<string, PriorRecord>, path: string): Option<Doc> {
    if path in priors then Some(priors[path].raw) else None
  }

  function CombinedNarrativeStatus(narratives: seq<Narrative>): NarrativeStatus {
    if exists i :: 0 <= i < |narratives| && narratives[i].status == Pending then Pending
    else if exists i :: 0 <= i < |narratives| && narratives[i].status == Reused then Reused
    else Generated
  }

  /** The status of the index: pending if one page is, else reused if one is, else generated. */
  lemma CombinedMeans(narratives: seq<Narrative>)
    ensures CombinedNarrativeStatus(narratives) == Generated <==> forall i :: 0 <= i < |narratives| ==> narratives[i].status == Generated
    ensures CombinedNarrativeStatus(narratives) == Pending <==> exists i :: 0 <= i < |narratives| && narratives[i].status == Pending
  {
  }

  function OneLiners(w: Wording, skeletons: seq<Skeleton>, narratives: seq<Narrative>): seq<string>
    requires |skeletons| == |narratives|
  {
    seq(|skeletons|, i requires 0 <= i < |skeletons| => OneLineNarrative(w, skeletons[i], narratives[i]))
  }

  function ModuleDoc(w: Wording, s: Skeleton, n: Narrative, details: string, priors: map<string, PriorRecord>, now: string): Doc {
    StableRecord(ModuleFront(s.resource, s.sourceHash, s.skeletonHash, n.status), ModuleBody(w, s, n, details), false,
                 Lookup(priors, ShardPath(s.resource)), now)
  }

  function IndexDoc(layout: Layout, project: Project, skeletons: seq<Skeleton>, narratives: seq<Narrative>,
                    priors: map<string, PriorRecord>, now: string): Doc
    requires |skeletons| == |narratives|
  {
    StableRecord(IndexFront(project.projectHash, project.statFingerprint, |skeletons|, CombinedNarrativeStatus(narratives)),
                 layout.index(skeletons, OneLiners(layout.wording, skeletons, narratives)), true, Lookup(priors, INDEX), now)
  }

  /** The files of the map: the index and one page a module. */
  ghost function PagePaths(skeletons: seq<Skeleton>): set<string> {
    set i | 0 <= i < |skeletons| :: ShardPath(skeletons[i].resource)
  }

  /** The file of the i-th module's page. */
  ghost function PageDoc(layout: Layout, skeletons: seq<Skeleton>, narratives: seq<Narrative>,
                         priors: map<string, PriorRecord>, now: string, i: nat): Doc
    requires |skeletons| == |narratives| && i < |skeletons|
  {
    ModuleDoc(layout.wording, skeletons[i], narratives[i],
              layout.details(skeletons[i], DependentsOf(skeletons, skeletons[i].resource)), priors, now)
  }

  ghost predicate IsBundle(files: map<string, Doc>, layout: Layout, project: Project, skeletons: seq<Skeleton>,
                           narratives: seq<Narrative>, priors: map<string, PriorRecord>, now: string)
    requires |skeletons| == |narratives|
  {
    && files.Keys == {INDEX} + PagePaths(skeletons)
    && files[INDEX] == IndexDoc(layout, project, skeletons, narratives, priors, now)
    && forall i :: 0 <= i < |skeletons| ==>
         files[ShardPath(skeletons[i].resource)] == PageDoc(layout, skeletons, narratives, priors, now, i)
  }

  // ------------------------------------------------------------------ the fixpoint

  /** A narrative as providers are asked to give it, or a reason why there is none. */
  predicate GoodNarrative(n: Narrative) {
    && n.oneLiner.Some? && GoodOneLiner(n.oneLiner.value, NARRATIVE)
    && if n.status == Pending then n.text.None? && n.pendingReason.Some? && GoodText(n.pendingReason.value, FILES)
       else n.text.Some? && n.pendingReason.None? && GoodText(n.text.value, FILES)
  }

  lemma RenderAppends(resource: string, oneLiner: string, shown: string, details: string)
    ensures RenderModuleBody(resource, oneLiner, shown, details) + "\n" == RenderModuleBody(resource, oneLiner, shown, details + "\n")
  {
  }

  /** A page's file holds a page, also where a newline was added at its end. */
  lemma PageInFile(resource: string, oneLiner: string, shown: string, details: string) returns (ended: string)
    ensures EnsureTrailingNewline(RenderModuleBody(resource, oneLiner, shown, details)) ==
            RenderModuleBody(resource, oneLiner, shown, ended)
  {
    var body := RenderModuleBody(resource, oneLiner, shown, details);
    if EnsureTrailingNewline(body) == body {
      ended := details;
    } else {
      RenderAppends(resource, oneLiner, shown, details);
      ended := details + "\n";
    }
  }

  /** The file of a good narrative gives the narrative back. */
  lemma GoodNarrativeReadsBack(w: Wording, s: Skeleton, n: Narrative, details: string, priors: map<string, PriorRecord>, now: string)
    requires GoodNarrative(n) && TextLines.OneLine(s.resource)
    ensures ParsePriorNarrative(ModuleDoc(w, s, n, details, priors, now)) == n
  {
    var ended := PageInFile(s.resource, OneLineNarrative(w, s, n), Shown(n), details);
    PageReadsBackIff(s.resource, OneLineNarrative(w, s, n), Shown(n), ended);
  }

  lemma StableRecordIsStable(front: Front, body: string, includeGeneratedAt: bool, prior: Option<Doc>, now: string, later: string)
    ensures var doc := StableRecord(front, body, includeGeneratedAt, prior, now);
      StableRecord(front, body, includeGeneratedAt, Some(doc), later) == doc
  {
  }

  /** No provider will be asked about a pending module. */
  predicate WillNotAsk(setup: Setup, narratives: seq<Narrative>) {
    !setup.enabled || !setup.hasProvider || setup.maxModulesPerRun == 0 ||
    forall i :: 0 <= i < |narratives| ==> narratives[i].status != Pending
  }

  /** A module's prior page is of the same sources and gives this narrative. */
  predicate ReadsBack(s: Skeleton, n: Narrative, priors: map<string, PriorRecord>) {
    var path := ShardPath(s.resource);
    Unchanged(s, priors) && priors[path].sourceHash == Some(s.sourceHash) && priors[path].narrative == n
  }

  lemma {:induction false} NarrativesAreKept(skeletons: seq<Skeleton>, narratives: seq<Narrative>, priors: map<string, PriorRecord>,
                                             setup: Setup, answers: nat -> Answer)
    requires |skeletons| == |narratives| && WillNotAsk(setup, narratives)
    requires forall i :: 0 <= i < |skeletons| ==> ReadsBack(skeletons[i], narratives[i], priors)
    ensures Narratives(skeletons, priors, setup, answers) == narratives && Asked(skeletons, priors, setup) == []
  {
    if skeletons != [] {
      var n := |skeletons| - 1;
      NarrativesAreKept(skeletons[..n], narratives[..n], priors, setup, answers);
      assert ReadsBack(skeletons[n], narratives[n], priors) && narratives == narratives[..n] + [narratives[n]];
    }
  }

  /** Generating again from the same sources changes no file: with good narratives on the pages, and no
      provider to ask about a pending one, the narratives are read back and every file, stamps included,
      comes out as it is. */
  lemma RegenerationIsFixpoint(layout: Layout, project: Project, skeletons: seq<Skeleton>, narratives: seq<Narrative>,
                               before: map<string, PriorRecord>, earlier: string, files: map<string, Doc>,
                               setup: Setup, answers: nat -> Answer, now: string, again: map<string, Doc>)
    requires |skeletons| == |narratives|
    requires forall i :: 0 <= i < |skeletons| ==> GoodNarrative(narratives[i]) && TextLines.OneLine(skeletons[i].resource)
    requires IsBundle(files, layout, project, skeletons, narratives, before, earlier)
    requires WillNotAsk(setup, narratives)
    requires IsBundle(again, layout, project, skeletons, Narratives(skeletons, ReadPriorRecords(files), setup, answers),
                      ReadPriorRecords(files), now)
    ensures again == files
  {
    forall i | 0 <= i < |skeletons| ensures ReadsBack(skeletons[i], narratives[i], ReadPriorRecords(files)) {
      PageReadsBack(layout, project, skeletons, narratives, before, earlier, files, i);
    }
    NarrativesAreKept(skeletons, narratives, ReadPriorRecords(files), setup, answers);
    AllFilesAreStable(layout, project, skeletons, narratives, before, earlier, files, now, again);
  }

  lemma PageReadsBack(layout: Layout, project: Project, skeletons: seq<Skeleton>, narratives: seq<Narrative>,
                      before: map<string, PriorRecord>, earlier: string, files: map<string, Doc>, i: nat)
    requires |skeletons| == |narratives| && i < |skeletons|
    requires GoodNarrative(narratives[i]) && TextLines.OneLine(skeletons[i].resource)
    requires IsBundle(files, layout, project, skeletons, narratives, before, earlier)
    ensures ReadsBack(skeletons[i], narratives[i], ReadPriorRecords(files))
  {
    var details := layout.details(skeletons[i], DependentsOf(skeletons, skeletons[i].resource));
    GoodNarrativeReadsBack(layout.wording, skeletons[i], narratives[i], details, before, earlier);
    assert ShardPath(skeletons[i].resource) in files;
  }

  lemma AllFilesAreStable(layout: Layout, project: Project, skeletons: seq<Skeleton>, narratives: seq<Narrative>,
                          before: map<string, PriorRecord>, earlier: string, files: map<string, Doc>, now: string, again: map<string, Doc>)
    requires |skeletons| == |narratives|
    requires IsBundle(files, layout, project, skeletons, narratives, before, earlier)
    requires IsBundle(again, layout, project, skeletons, narratives, ReadPriorRecords(files), now)
    ensures again == files
  {
    forall path | path in files ensures path in again && again[path] == files[path] {
      FileIsStable(layout, project, skeletons, narratives, before, earlier, files, now, again, path);
    }
    assert again.Keys == files.Keys;
  }

  lemma FileIsStable(layout: Layout, project: Project, skeletons: seq<Skeleton>, narratives: seq<Narrative>,
                     before: map<string, PriorRecord>, earlier: string, files: map<string, Doc>, now: string,
                     again: map<string, Doc>, path: string)
    requires |skeletons| == |narratives| && path in files
    requires IsBundle(files, layout, project, skeletons, narratives, before, earlier)
    requires IsBundle(again, layout, project, skeletons, narratives, ReadPriorRecords(files), now)
    ensures path in again && again[path] == files[path]
  {
    var priors := ReadPriorRecords(files);
    assert Lookup(priors, path) == Some(files[path]);
    if path == INDEX {
      IndexIsStable(layout, project, skeletons, narratives, before, earlier, priors, now);
    } else {
      PageFileIsStable(layout, project, skeletons, narratives, before, earlier, files, now, again, path);
    }
  }

  lemma PageOf(layout: Layout, project: Project, skeletons: seq<Skeleton>, narratives: seq<Narrative>,
               priors: map<string, PriorRecord>, now: string, files: map<string, Doc>, i: nat)
    requires |skeletons| == |narratives| && i < |skeletons|
    requires IsBundle(files, layout, project, skeletons, narratives, priors, now)
    ensures var path := ShardPath(skeletons[i].resource);
      path in files && files[path] == PageDoc(layout, skeletons, narratives, priors, now, i)
  {
  }

  lemma ModuleOf(skeletons: seq<Skeleton>, path: string) returns (i: nat)
    requires path in PagePaths(skeletons)
    ensures i < |skeletons| && ShardPath(skeletons[i].resource) == path
  {
    i :| 0 <= i < |skeletons| && ShardPath(skeletons[i].resource) == path;
  }

  lemma PageFileIsStable(layout: Layout, project: Project, skeletons: seq<Skeleton>, narratives: seq<Narrative>,
                         before: map<string, PriorRecord>, earlier: string, files: map<string, Doc>, now: string,
                         again: map<string, Doc>, path: string)
    requires |skeletons| == |narratives| && path in files && path != INDEX
    requires IsBundle(files, layout, project, skeletons, narratives, before, earlier)
    requires IsBundle(again, layout, project, skeletons, narratives, ReadPriorRecords(files), now)
    ensures path in again && again[path] == files[path]
  {
    var i := ModuleOf(skeletons, path);
    PageOf(layout, project, skeletons, narratives, before, earlier, files, i);
    PageOf(layout, project, skeletons, narratives, ReadPriorRecords(files), now, again, i);
    PageIsStable(layout.wording, skeletons[i], narratives[i],
      layout.details(skeletons[i], DependentsOf(skeletons, skeletons[i].resource)), before, earlier, ReadPriorRecords(files), now);
  }

  lemma IndexIsStable(layout: Layout, project: Project, skeletons: seq<Skeleton>, narratives: seq<Narrative>,
                      before: map<string, PriorRecord>, earlier: string, priors: map<string, PriorRecord>, now: string)
    requires |skeletons| == |narratives|
    requires Lookup(priors, INDEX) == Some(IndexDoc(layout, project, skeletons, narratives, before, earlier))
    ensures IndexDoc(layout, project, skeletons, narratives, priors, now) ==
            IndexDoc(layout, project, skeletons, narratives, before, earlier)
  {
    StableRecordIsStable(
      IndexFront(project.projectHash, project.statFingerprint, |skeletons|, CombinedNarrativeStatus(narratives)),
      layout.index(skeletons, OneLiners(layout.wording, skeletons, narratives)), true, Lookup(before, INDEX), earlier, now);
  }

  lemma PageIsStable(w: Wording, s: Skeleton, n: Narrative, details: string,
                     before: map<string, PriorRecord>, earlier: string, priors: map<string, PriorRecord>, now: string)
    requires Lookup(priors, ShardPath(s.resource)) == Some(ModuleDoc(w, s, n, details, before, earlier))
    ensures ModuleDoc(w, s, n, details, priors, now) == ModuleDoc(w, s, n, details, before, earlier)
  {
    StableRecordIsStable(ModuleFront(s.resource, s.sourceHash, s.skeletonHash, n.status),
      ModuleBody(w, s, n, details), false, Lookup(before, ShardPath(s.resource)), earlier, now);
  }

  /** What is read back from the page of a generated narrative. */
  function ReadFrom(body: string, status: NarrativeStatus): Narrative {
    Narrative(status, OneLineOf(Lines(body), NARRATIVE), ExtractSection(body, NARRATIVE, FILES), None)
  }

  lemma DefaultIsGood()
    ensures GoodText(NO_NARRATIVE, FILES)
  {
    assert |NO_NARRATIVE| == 18 && |FILES| == 8;
    assert NO_NARRATIVE[0] == 'N' && NO_NARRATIVE[17] == '.';
    GoodSingleLine(NO_NARRATIVE, FILES);
  }

  /** A page that comes out the same had a summary and a text to read. */
  lemma StablePageIsRead(w: Wording, s: Skeleton, body: string, status: NarrativeStatus, details: string)
    requires TextLines.OneLine(s.resource) && GoodOneLiner(w.pendingFor(s.resource), NARRATIVE)
    requires ModuleBody(w, s, ReadFrom(body, status), details) == body
    ensures OneLineOf(Lines(body), NARRATIVE).Some? && ExtractSection(body, NARRATIVE, FILES).Some?
  {
    var back := ReadFrom(body, status);
    var a, b := OneLineNarrative(w, s, back), Shown(back);
    OneLinerAloneIff(s.resource, a, b, details);
    PageReadsBackIff(s.resource, a, b, details);
    DefaultIsGood();
  }

  lemma SectionIsNotEmpty(body: string)
    ensures ExtractSection(body, NARRATIVE, FILES) != Some("")
  {
  }

  /** Exactly when the page of a generated narrative comes out the same from what is read back, whatever
      summary and text a provider gave: if the summary is one trimmed line and no heading and the text is a
      good one, or if the summary holds the heading of the narrative and reading it as such is good. */
  lemma PageIsStableIff(w: Wording, s: Skeleton, n: Narrative, details: string)
    requires TextLines.OneLine(s.resource) && GoodOneLiner(w.pendingFor(s.resource), NARRATIVE)
    requires n.status != Pending && n.oneLiner.Some? && n.text.Some? && n.text.value != ""
    ensures var body := ModuleBody(w, s, n, details);
      ModuleBody(w, s, ReadFrom(body, n.status), details) == body
      <==> GoodPage(n.oneLiner.value, n.text.value) || HidesHeading(n.oneLiner.value, n.text.value)
  {
    var body := ModuleBody(w, s, n, details);
    BodyIsStableIff(s.resource, n.oneLiner.value, n.text.value, details);
    SectionIsNotEmpty(body);
    if ModuleBody(w, s, ReadFrom(body, n.status), details) == body {
      StablePageIsRead(w, s, body, n.status, details);
    }
  }

  /** Two modules share a page only if one is the project's root module and the other is called root. */
  lemma ShardPathsDifferIff(a: string, b: string)
    ensures ShardPath(a) == ShardPath(b) <==> a == b || (a == "." && b == "root") || (a == "root" && b == ".")
  {
    var x, y := if a == "." then "root" else a, if b == "." then "root" else b;
    if ShardPath(a) == ShardPath(b) {
      Cancel("modules/", x, y, ".md");
    }
  }

  /** The bundle of a run: the index, then a page for each module. */
  predicate IsRendered(files: seq<BundleStore.BundleFile>, skeletons: seq<Skeleton>) {
    && |files| == |skeletons| + 1 && files[0].path == INDEX
    && forall i :: 0 <= i < |skeletons| ==> files[i + 1].path == ShardPath(skeletons[i].resource)
  }

  predicate DistinctResources(skeletons: seq<Skeleton>) {
    forall i, j :: 0 <= i < j < |skeletons| ==> skeletons[i].resource != skeletons[j].resource
  }

  predicate HasRootAndDot(skeletons: seq<Skeleton>) {
    Known(skeletons, ".") && Known(skeletons, "root")
  }

  lemma PagesAreNotTheIndex(resource: string)
    ensures ShardPath(resource) != INDEX
  {
    assert ShardPath(resource)[0] == 'm' && INDEX[0] == 'i';
  }

  /** The modules of a run share a page only through those two names, and then the bundle is refused before
      anything is written (BundleStore.StoreBundle). */
  lemma BundleIsRefusedIff(files: seq<BundleStore.BundleFile>, skeletons: seq<Skeleton>, safe: string -> bool)
    requires IsRendered(files, skeletons) && DistinctResources(skeletons)
    requires forall i :: 0 <= i < |files| ==> safe(files[i].path)
    ensures !BundleStore.ValidBundle(files, safe) <==> HasRootAndDot(skeletons)
  {
    assert files[0] in files;
    if HasRootAndDot(skeletons) {
      var i, j :| 0 <= i < |skeletons| && 0 <= j < |skeletons| && skeletons[i].resource == "." && skeletons[j].resource == "root";
      assert files[i + 1].path == files[j + 1].path;
    } else {
      forall i, j | 0 <= i < j < |files| ensures files[i].path != files[j].path {
        PathsDiffer(files, skeletons, i, j);
      }
    }
  }

  lemma PathsDiffer(files: seq<BundleStore.BundleFile>, skeletons: seq<Skeleton>, i: nat, j: nat)
    requires IsRendered(files, skeletons) && DistinctResources(skeletons) && !HasRootAndDot(skeletons)
    requires i < j < |files|
    ensures files[i].path != files[j].path
  {
    assert files[j].path == ShardPath(skeletons[j - 1].resource);
    if i == 0 {
      PagesAreNotTheIndex(skeletons[j - 1].resource);
    } else {
      assert files[i].path == ShardPath(skeletons[i - 1].resource);
      ShardPathsDifferIff(skeletons[i - 1].resource, skeletons[j - 1].resource);
    }
  }
}
