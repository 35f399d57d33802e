/** The two logs of a Drive run and the reader that must not tell them apart.

    Every driver event is written to the legacy log and then, as well as that goes, to the normalized
    event log of the durable runtime (lib/driver/event-stream.ts, lib/driver/durable-events.ts).
    `watch_events` reads the normalized log unless it may be incomplete
    (lib/driver/watch-events-compat.ts). The reference is `tailEvents`, which reads the legacy log. */
module CompatReader {
  import opened Wrappers
  import opened DriverEvents
  import TextLines

  datatype OrchestrationKind =
    | RunStartedEvent | StepReady | StepStarted | StepToolActivity | StepOutput | StepCompleted | StepBlocked
    | StepFailed | ArtifactWritten | RunCompletedEvent | RunFailedEvent | RunActivity(details: Details)

  datatype Details = LegacyDriverEvent(event: Event) | OtherDetails

  // ------------------------------------------------------------------ normalization

  /** The normalized events of a driver event, but for the last one. */
  function CanonicalEvents(event: Event): seq<OrchestrationKind> {
    match event.kind
    case RunStarted => [RunStartedEvent]
    case TaskStarted => [StepReady]
    case Preflight(failed) => if failed then [StepToolActivity, StepBlocked] else [StepToolActivity]
    case SpawnStarted => [StepStarted]
    case DriverActivity => [StepToolActivity]
    case SpawnCompleted => [StepToolActivity]
    case SpawnFailed => [StepToolActivity]
    case Verify => [StepToolActivity]
    case CommitMade => [ArtifactWritten]
    case Finalize(hasTask) => if hasTask then [StepToolActivity] else []
    case TaskFinalizationFailed => [StepToolActivity, StepFailed]
    case TaskDone => [StepCompleted]
    case TaskBlocked => [StepToolActivity, StepBlocked]
    case LockWarning => []
    case DriverDiagnostic(_) => []
    case PlanCompletionCandidate => []
    case RunCompleted => [RunCompletedEvent]
    case RunAborted => [RunFailedEvent]
    case RunFinalizationFailed(namesTask) => if namesTask then [StepToolActivity, RunFailedEvent] else [RunFailedEvent]
  }

  function DiagnosticCount(event: Event): nat {
    match event.kind
    case Finalize(hasTask) => if hasTask then 0 else 1
    case RunFinalizationFailed(namesTask) => if namesTask then 0 else 1
    case LockWarning => 1
    case DriverDiagnostic(_) => 1
    case PlanCompletionCandidate => 1
    case _ => 0
  }

  function Normalize(event: Event): seq<OrchestrationKind> {
    CanonicalEvents(event) + [RunActivity(LegacyDriverEvent(event))]
  }

  predicate IsGraphActivity(e: OrchestrationKind) {
    e.RunActivity? || e.StepToolActivity? || e.StepOutput? || e.ArtifactWritten?
  }

  /** What a driver event is called in the normalized log. A step is completed exactly by a done task,
      failed by a failed finalization, blocked by a blocked task or a failed preflight; the run starts,
      completes and fails exactly with the events of the driver that say so. */
  lemma CanonicalMeans(event: Event)
    ensures RunStartedEvent in CanonicalEvents(event) <==> event.kind.RunStarted?
    ensures RunCompletedEvent in CanonicalEvents(event) <==> event.kind.RunCompleted?
    ensures RunFailedEvent in CanonicalEvents(event) <==> event.kind.RunAborted? || event.kind.RunFinalizationFailed?
    ensures StepReady in CanonicalEvents(event) <==> event.kind.TaskStarted?
    ensures StepStarted in CanonicalEvents(event) <==> event.kind.SpawnStarted?
    ensures StepCompleted in CanonicalEvents(event) <==> event.kind.TaskDone?
    ensures StepBlocked in CanonicalEvents(event) <==> event.kind.TaskBlocked? || event.kind == Preflight(true)
    ensures StepFailed in CanonicalEvents(event) <==> event.kind.TaskFinalizationFailed?
    ensures ArtifactWritten in CanonicalEvents(event) <==> event.kind.CommitMade?
    ensures CanonicalEvents(event) == [] <==>
      event.kind in {LockWarning, PlanCompletionCandidate, Finalize(false)} || event.kind.DriverDiagnostic?
    ensures |CanonicalEvents(event)| == 2 <==>
      event.kind in {Preflight(true), TaskFinalizationFailed, TaskBlocked, RunFinalizationFailed(true)}
    ensures |CanonicalEvents(event)| == 2 ==> CanonicalEvents(event)[0] == StepToolActivity
    ensures |CanonicalEvents(event)| <= 2 && DiagnosticCount(event) <= 1
    ensures DiagnosticCount(event) == 1 <==>
      event.kind in {LockWarning, PlanCompletionCandidate, Finalize(false), RunFinalizationFailed(false)} ||
      event.kind.DriverDiagnostic?
  {
    match event.kind {
      case _ =>
    }
  }

  function GraphActivityOnly(events: seq<OrchestrationKind>): seq<OrchestrationKind> {
    if events == [] then []
    else (if IsGraphActivity(events[0]) then [events[0]] else []) + GraphActivityOnly(events[1..])
  }

  /** The second runner of a graph run appends the activity alone, in its order. */
  lemma GraphActivityIs(e: OrchestrationKind, events: seq<OrchestrationKind>)
    ensures GraphActivityOnly([]) == []
    ensures GraphActivityOnly([e] + events) ==
      (if e in {StepToolActivity, StepOutput, ArtifactWritten} || e.RunActivity? then [e] else []) + GraphActivityOnly(events)
  {
    assert ([e] + events)[1..] == events;
  }

  /** What a sink appends for an event. */
  function ToAppend(event: Event, graphActivityOnly: bool): seq<OrchestrationKind> {
    if graphActivityOnly then GraphActivityOnly(Normalize(event)) else Normalize(event)
  }

  function LegacyEventOf(e: OrchestrationKind): Option<Event> {
    if e.RunActivity? && e.details.LegacyDriverEvent? then Some(e.details.event) else None
  }

  /** The driver events that can be read back from the normalized log. */
  function Reconstructed(log: seq<OrchestrationKind>): seq<Event> {
    if log == [] then []
    else
      var before := Reconstructed(log[..|log| - 1]);
      match LegacyEventOf(log[|log| - 1])
      case None => before
      case Some(event) => before + [event]
  }

  lemma ReconstructedAppend(log: seq<OrchestrationKind>, e: OrchestrationKind)
    ensures Reconstructed(log + [e]) ==
            if LegacyEventOf(e).Some? then Reconstructed(log) + [LegacyEventOf(e).value] else Reconstructed(log)
  {
    assert (log + [e])[..|log|] == log;
  }

  /** The event comes last and is the only one that can be read back. */
  predicate ComesLast(event: Event, out: seq<OrchestrationKind>) {
    |out| > 0 && (forall i :: 0 <= i < |out| ==> LegacyEventOf(out[i]) == if i == |out| - 1 then Some(event) else None)
  }

  /** In either mode the event itself comes last and is the only one that can be read back. */
  lemma CarriesItself(event: Event, graphActivityOnly: bool)
    ensures var out := ToAppend(event, graphActivityOnly);
      |out| > 0 && (forall i :: 0 <= i < |out| ==> LegacyEventOf(out[i]) == if i == |out| - 1 then Some(event) else None)
    ensures ComesLast(event, ToAppend(event, graphActivityOnly))
  {
    if graphActivityOnly {
      FilterAppend(CanonicalEvents(event), [RunActivity(LegacyDriverEvent(event))]);
      FilterNone(CanonicalEvents(event));
    }
  }

  lemma {:induction false} FilterAppend(a: seq<OrchestrationKind>, b: seq<OrchestrationKind>)
    ensures GraphActivityOnly(a + b) == GraphActivityOnly(a) + GraphActivityOnly(b)
  {
    if a == [] {
      assert a + b == b;
    } else {
      FilterAppend(a[1..], b);
      assert (a + b)[0] == a[0] && (a + b)[1..] == a[1..] + b;
      var first := if IsGraphActivity(a[0]) then [a[0]] else [];
      assert first + (GraphActivityOnly(a[1..]) + GraphActivityOnly(b)) == first + GraphActivityOnly(a[1..]) + GraphActivityOnly(b);
    }
  }

  lemma {:induction false} FilterNone(a: seq<OrchestrationKind>)
    requires forall e :: e in a ==> LegacyEventOf(e) == None
    ensures forall e :: e in GraphActivityOnly(a) ==> LegacyEventOf(e) == None
  {
    if a != [] {
      FilterNone(a[1..]);
    }
  }

  // ------------------------------------------------------------------ subsequences

  /** `a` is `b` with some elements left out. */
  ghost predicate Subsequence<T(!new)>(a: seq<T>, b: seq<T>) {
    if a == [] then true
    else if b == [] then false
    else
      || (a[|a| - 1] == b[|b| - 1] && Subsequence(a[..|a| - 1], b[..|b| - 1]))
      || Subsequence(a, b[..|b| - 1])
  }

  lemma {:induction false} SubsequenceOfLonger<T(!new)>(a: seq<T>, b: seq<T>, x: T)
    requires Subsequence(a, b)
    ensures Subsequence(a, b + [x]) && Subsequence(a + [x], b + [x])
  {
    assert (b + [x])[..|b|] == b && (a + [x])[..|a|] == a;
  }

  lemma SubsequenceGrows<T(!new)>(a: seq<T>, longer: seq<T>, after: seq<T>)
    requires longer != [] && Subsequence(a, longer[..|longer| - 1])
    requires after == a || after == a + [longer[|longer| - 1]]
    ensures Subsequence(after, longer)
  {
    var n := |longer| - 1;
    SubsequenceOfLonger(a, longer[..n], longer[n]);
    assert longer[..n] + [longer[n]] == longer;
  }

  /** A subsequence is at most as long, and equal if it is as long. */
  lemma {:induction false} SubsequenceLength<T(!new)>(a: seq<T>, b: seq<T>)
    requires Subsequence(a, b)
    ensures |a| <= |b| && (|a| == |b| ==> a == b)
  {
    if a != [] {
      var a', b' := a[..|a| - 1], b[..|b| - 1];
      if a[|a| - 1] == b[|b| - 1] && Subsequence(a', b') {
        SubsequenceLength(a', b');
        assert a == a' + [a[|a| - 1]] && b == b' + [b[|b| - 1]];
      } else {
        SubsequenceLength(a, b');
      }
    }
  }

  // ------------------------------------------------------------------ reading the legacy log

  /** JSON of one event: a single line that parses back and does not end in a carriage return. */
  ghost predicate Faithful(serialize: Event -> string, parse: string -> Option<Event>) {
    forall e: Event ::
      var s := serialize(e);
      parse(s) == Some(e) && TextLines.OneLine(s) && s != "" && s[|s| - 1] != '\r'
  }

  function Serialized(serialize: Event -> string, events: seq<Event>): seq<string> {
    if events == [] then [] else Serialized(serialize, events[..|events| - 1]) + [serialize(events[|events| - 1])]
  }

  function WithoutReturns(lines: seq<string>): (r: seq<string>)
    ensures |r| == |lines|
  {
    if lines == [] then [] else [TextLines.WithoutReturn(lines[0])] + WithoutReturns(lines[1..])
  }

  function JsonLines(content: string): seq<string> {
    var pieces := TextLines.Split(content);
    WithoutReturns(if content != "" && content[|content| - 1] == '\n' then pieces[..|pieces| - 1] else pieces)
  }

  /** The readable ones among some lines. */
  function Parsed(parse: string -> Option<Event>, lines: seq<string>): seq<Event> {
    if lines == [] then []
    else
      var before := Parsed(parse, lines[..|lines| - 1]);
      match parse(lines[|lines| - 1])
      case None => before
      case Some(event) => before + [event]
  }

  lemma SliceInit<T>(s: seq<T>, a: nat, b: nat)
    requires a <= b < |s|
    ensures s[a..b + 1][..b - a] == s[a..b] && s[a..b + 1][b - a] == s[b] && |s[a..b + 1]| == b - a + 1
  {
  }

  lemma ParsedOneMore(parse: string -> Option<Event>, lines: seq<string>, a: nat, b: nat)
    requires a <= b < |lines|
    ensures Parsed(parse, lines[a..b + 1]) == Parsed(parse, lines[a..b]) + (match parse(lines[b]) case None => [] case Some(e) => [e])
  {
    SliceInit(lines, a, b);
  }

  datatype Page = Page(events: seq<Event>, cursor: int)

  function Max0(since: int): nat {
    if since < 0 then 0 else since
  }

  /** The legacy reader. */
  method TailEvents(parse: string -> Option<Event>, content: string, since: int) returns (page: Page)
    ensures var lines := JsonLines(content);
      page == if since >= |lines| then Page([], since) else Page(Parsed(parse, lines[Max0(since)..]), |lines|)
  {
    var lines := JsonLines(content);
    if since >= |lines| {
      return Page([], since);
    }
    var events := [];
    var start := Max0(since);
    var index := start;
    while index < |lines|
      invariant start <= index <= |lines|
      invariant events == Parsed(parse, lines[start..index])
    {
      ParsedOneMore(parse, lines, start, index);
      var event := parse(lines[index]);
      if event.Some? {
        events := events + [event.value];
      }
      index := index + 1;
    }
    assert lines[start..index] == lines[start..];
    page := Page(events, |lines|);
  }

  lemma {:induction false} SerializedAt(serialize: Event -> string, events: seq<Event>)
    ensures |Serialized(serialize, events)| == |events|
    ensures forall i :: 0 <= i < |events| ==> Serialized(serialize, events)[i] == serialize(events[i])
  {
    if events != [] {
      SerializedAt(serialize, events[..|events| - 1]);
    }
  }

  lemma {:induction false} NothingToStrip(lines: seq<string>)
    requires forall l :: l in lines ==> l == "" || l[|l| - 1] != '\r'
    ensures WithoutReturns(lines) == lines
  {
    if lines != [] {
      NothingToStrip(lines[1..]);
      assert lines[0] in lines;
    }
  }

  lemma {:induction false} TextEndsInNewline(lines: seq<string>)
    requires lines != []
    ensures var t := TextLines.Text(lines); t != "" && t[|t| - 1] == '\n'
  {
    if |lines| > 1 {
      TextEndsInNewline(lines[1..]);
    }
  }

  lemma TailOfInit<T>(s: seq<T>, from: nat)
    requires from < |s|
    ensures var n := |s| - 1;
      s[..n][from..] == s[from..n] && s[from..n + 1] == s[from..] && s[from..] == s[from..n] + [s[n]]
  {
  }

  lemma {:induction false} ParsedSerialized(serialize: Event -> string, parse: string -> Option<Event>, events: seq<Event>, from: nat)
    requires Faithful(serialize, parse) && from <= |events|
    ensures |Serialized(serialize, events)| == |events|
    ensures Parsed(parse, Serialized(serialize, events)[from..]) == events[from..]
  {
    SerializedAt(serialize, events);
    if from < |events| {
      var n := |events| - 1;
      ParsedSerialized(serialize, parse, events[..n], from);
      var lines := Serialized(serialize, events);
      assert lines[..n] == Serialized(serialize, events[..n]);
      TailOfInit(lines, from);
      TailOfInit(events, from);
      ParsedOneMore(parse, lines, from, n);
      assert parse(lines[n]) == Some(events[n]);
    }
  }

  /** The lines of a well-formed log are the serialized events. */
  lemma LinesOfLog(serialize: Event -> string, parse: string -> Option<Event>, events: seq<Event>)
    requires Faithful(serialize, parse) && events != []
    ensures JsonLines(TextLines.Text(Serialized(serialize, events))) == Serialized(serialize, events)
  {
    var lines := Serialized(serialize, events);
    SerializedAt(serialize, events);
    forall l | l in lines ensures TextLines.OneLine(l) && l != "" && l[|l| - 1] != '\r' {
      var i :| 0 <= i < |lines| && lines[i] == l;
      assert l == serialize(events[i]);
    }
    var text := TextLines.Text(lines);
    TextLines.SplitText(lines, "");
    assert text + "" == text;
    assert (lines + [""])[..|lines|] == lines;
    TextEndsInNewline(lines);
    NothingToStrip(lines);
  }

  lemma LogAppend(serialize: Event -> string, events: seq<Event>, event: Event)
    ensures TextLines.Text(Serialized(serialize, events + [event])) ==
            TextLines.Text(Serialized(serialize, events)) + (serialize(event) + "\n")
  {
    assert (events + [event])[..|events|] == events;
    TextLines.TextAppend(Serialized(serialize, events), [serialize(event)]);
    assert TextLines.Text([serialize(event)]) == serialize(event) + "\n";
  }

  /** What the legacy reader returns for a well-formed log. */
  function Expected(events: seq<Event>, since: int): Page {
    if since >= |events| then Page([], since) else Page(events[Max0(since)..], |events|)
  }

  // ------------------------------------------------------------------ the sink and the reader

  /** How a write ends: an error may be reported although the write took place. */
  datatype Write = Done | NotDone | DoneButThrew

  /** What goes wrong while one event is processed. `setup` is what becomes of the run record if it has
      to be created; `appends`, `markers` and `diagnostics` tell the fate of the i-th such write. */
  datatype Faults = Faults(legacy: Write, setup: Write, setupThrows: bool,
                           appends: nat -> Write, markers: nat -> bool, diagnostics: nat -> bool)

  /** The log after the first `n` appends. */
  function AfterAppends(log: seq<OrchestrationKind>, events: seq<OrchestrationKind>, faults: Faults, n: nat): seq<OrchestrationKind>
    requires n <= |events|
  {
    if n == 0 then log
    else
      var before := AfterAppends(log, events, faults, n - 1);
      if faults.appends(n - 1).NotDone? then before else before + [events[n - 1]]
  }

  lemma {:induction false} ReconstructedAfterAppends(log: seq<OrchestrationKind>, events: seq<OrchestrationKind>, event: Event,
                                                     faults: Faults, n: nat)
    requires n <= |events| && ComesLast(event, events)
    ensures Reconstructed(AfterAppends(log, events, faults, n)) ==
      if n == |events| && !faults.appends(n - 1).NotDone? then Reconstructed(log) + [event] else Reconstructed(log)
  {
    if n > 0 {
      ReconstructedAfterAppends(log, events, event, faults, n - 1);
      assert LegacyEventOf(events[n - 1]) == if n == |events| then Some(event) else None;
      ReconstructedAppend(AfterAppends(log, events, faults, n - 1), events[n - 1]);
    }
  }

  lemma {:induction false} AppendsKeepSubsequence(log: seq<OrchestrationKind>, events: seq<OrchestrationKind>, event: Event, faults: Faults,
                               written: seq<Event>)
    requires ComesLast(event, events) && written != [] && written[|written| - 1] == event
    requires Subsequence(Reconstructed(log), written[..|written| - 1])
    ensures Subsequence(Reconstructed(AfterAppends(log, events, faults, |events|)), written)
  {
    ReconstructedAfterAppends(log, events, event, faults, |events|);
    SubsequenceGrows(Reconstructed(log), written, Reconstructed(AfterAppends(log, events, faults, |events|)));
  }

  lemma {:induction false} CalmAppends(log: seq<OrchestrationKind>, events: seq<OrchestrationKind>, faults: Faults, n: nat)
    requires n <= |events| && Calm(faults)
    ensures AfterAppends(log, events, faults, n) == log + events[..n] && !Marked(faults, n)
  {
    if n > 0 {
      CalmAppends(log, events, faults, n - 1);
      assert events[..n] == events[..n - 1] + [events[n - 1]];
    }
  }

  /** Without faults the whole of an event is appended, nothing is marked, and the event reads back. */
  lemma CalmReadsBack(log: seq<OrchestrationKind>, events: seq<OrchestrationKind>, event: Event, faults: Faults)
    requires Calm(faults) && ComesLast(event, events)
    ensures AfterAppends(log, events, faults, |events|) == log + events && !Marked(faults, |events|)
    ensures Reconstructed(log + events) == Reconstructed(log) + [event]
  {
    CalmAppends(log, events, faults, |events|);
    assert events[..|events|] == events;
    ReconstructedAfterAppends(log, events, event, faults, |events|);
  }

  /** Nothing goes wrong in the durable part. */
  ghost predicate Calm(faults: Faults) {
    faults.setup.Done? && !faults.setupThrows && forall i :: faults.appends(i).Done? && faults.diagnostics(i)
  }

  /** One of the first `n` appends failed and could be marked. */
  predicate Marked(faults: Faults, n: nat) {
    n > 0 && (Marked(faults, n - 1) || (!faults.appends(n - 1).Done? && faults.markers(n)))
  }

  /** The run is marked exactly if some append failed whose mark could be written. */
  lemma {:induction false} MarkedIff(faults: Faults, n: nat)
    ensures Marked(faults, n) <==> exists i: nat :: i < n && !faults.appends(i).Done? && faults.markers(i + 1)
  {
    if n > 0 {
      MarkedIff(faults, n - 1);
      if i: nat :| i < n && !faults.appends(i).Done? && faults.markers(i + 1) {
        assert i < n - 1 ==> Marked(faults, n - 1);
      }
    }
  }

  /** Every event is appended whose append takes place, also after one that did not. */
  lemma {:induction false} EveryAppendIsTried(log: seq<OrchestrationKind>, events: seq<OrchestrationKind>, faults: Faults, n: nat, i: nat)
    requires i < n <= |events|
    ensures log <= AfterAppends(log, events, faults, n)
    ensures !faults.appends(i).NotDone? ==> events[i] in AfterAppends(log, events, faults, n)[|log|..]
    ensures |AfterAppends(log, events, faults, n)| <= |log| + n
    ensures faults.appends(i).NotDone? ==> |AfterAppends(log, events, faults, n)| < |log| + n
  {
    var m := n - 1;
    if m > 0 {
      EveryAppendIsTried(log, events, faults, m, if i < m then i else 0);
    }
    var before, after := AfterAppends(log, events, faults, m), AfterAppends(log, events, faults, n);
    if !faults.appends(m).NotDone? {
      assert after[|log|..] == before[|log|..] + [events[m]];
    }
  }

  datatype Source = FromNormalized | FromLegacy
  datatype ReadError = NoSuchFile | NoSuchRun

  class DriveLogs {
    const serialize: Event -> string
    const parse: string -> Option<Event>
    // on disk
    var legacy: Option<string>
    var record: bool
    var normalized: seq<OrchestrationKind>
    var marker: bool
    // in the memory of the sink
    var ready: bool
    var disabled: bool
    var graphActivityOnly: bool
    /** The events that reached the legacy log. */
    ghost var written: seq<Event>

    ghost predicate Valid()
      reads this
    {
      && Faithful(serialize, parse)
      && legacy == (if written == [] then None else Some(TextLines.Text(Serialized(serialize, written))))
      && Subsequence(Reconstructed(normalized), written)
      && (ready ==> record)
      && (normalized != [] ==> record)
    }

    constructor (serialize: Event -> string, parse: string -> Option<Event>)
      requires Faithful(serialize, parse)
      ensures Valid() && written == [] && this.serialize == serialize && this.parse == parse
      ensures InStep(this)
    {
      this.serialize, this.parse := serialize, parse;
      legacy, record, normalized, marker := None, false, [], false;
      ready, disabled, graphActivityOnly, written := false, false, false, [];
    }

    /** A new process, or the other kind of sink, goes on with the same files. */
    method OpenSink(graphActivityOnly: bool)
      requires Valid()
      modifies this
      ensures Valid() && written == old(written) && legacy == old(legacy)
      ensures normalized == old(normalized) && marker == old(marker) && record == old(record) && !disabled
    {
      ready, disabled := false, false;
      this.graphActivityOnly := graphActivityOnly;
    }

    /** The graph runner and the scheduler write to the normalized log too, and create the run. */
    method AppendByOthers(event: OrchestrationKind)
      requires Valid() && LegacyEventOf(event) == None
      modifies this
      ensures Valid() && written == old(written) && legacy == old(legacy) && marker == old(marker)
      ensures Reconstructed(normalized) == old(Reconstructed(normalized)) && record && disabled == old(disabled)
    {
      record := true;
      ReconstructedAppend(normalized, event);
      normalized := normalized + [event];
    }

    /** `false` if the write throws. The event is in the file unless the write was not done. */
    method WriteJsonLine(event: Event, outcome: Write) returns (ok: bool)
      requires Valid()
      modifies this`legacy, this`written
      ensures Valid() && ok == outcome.Done?
      ensures written == if outcome.NotDone? then old(written) else old(written) + [event]
    {
      if !outcome.NotDone? {
        var content := (match legacy case None => "" case Some(c) => c);
        LogAppend(serialize, written, event);
        legacy := Some(content + (serialize(event) + "\n"));
        SubsequenceOfLonger(Reconstructed(normalized), written, event);
        written := written + [event];
      }
      ok := outcome.Done?;
    }

    method WriteCompatDegradedMarker(ok: bool)
      modifies this`marker
      ensures marker == (old(marker) || ok)
    {
      if ok {
        marker := true;
      }
    }

    method EnsureDurableSinkReady(faults: Faults) returns (ok: bool)
      requires Valid() && !disabled
      modifies this`record, this`ready, this`disabled, this`marker
      ensures Valid() && (ok <==> ready) && (ok <==> !disabled)
      ensures ok <==> old(ready) || ((old(record) || !faults.setup.NotDone?) && !faults.setupThrows)
      ensures !ok ==> disabled && marker == (old(marker) || faults.markers(0))
      ensures ok ==> marker == old(marker)
    {
      if ready {
        return true;
      }
      if !record && !faults.setup.NotDone? {
        record := true;
      }
      if !record || faults.setupThrows {
        disabled := true;
        WriteCompatDegradedMarker(faults.markers(0));
        return false;
      }
      ready := true;
      ok := true;
    }

    /** Appends the normalized events one by one. The event they stand for is the last one written to the
        legacy log, and comes last among them. */
    method AppendDurableEvents(events: seq<OrchestrationKind>, ghost event: Event, faults: Faults)
      requires Valid() && ready && written != [] && written[|written| - 1] == event
      requires ComesLast(event, events)
      requires Subsequence(Reconstructed(normalized), written[..|written| - 1])
      modifies this`normalized, this`marker
      ensures Valid()
      ensures marker == (old(marker) || Marked(faults, |events|))
      ensures normalized == AfterAppends(old(normalized), events, faults, |events|)
    {
      ghost var before := normalized;
      var i := 0;
      while i < |events|
        invariant 0 <= i <= |events|
        invariant normalized == AfterAppends(before, events, faults, i)
        invariant marker == (old(marker) || Marked(faults, i))
      {
        var outcome := faults.appends(i);
        if !outcome.NotDone? {
          normalized := normalized + [events[i]];
        }
        if !outcome.Done? {
          WriteCompatDegradedMarker(faults.markers(i + 1));
        }
        i := i + 1;
      }
      AppendsKeepSubsequence(before, events, event, faults, written);
    }

    /** The durable part of a sink; false if it throws. */
    method ProcessDurableDriverEvent(event: Event, faults: Faults) returns (ok: bool)
      requires Valid() && written != [] && written[|written| - 1] == event
      requires Subsequence(Reconstructed(normalized), written[..|written| - 1])
      modifies this
      ensures Valid() && legacy == old(legacy) && written == old(written)
      ensures ok || event.kind == DriverDiagnostic(true)
      ensures old(disabled) ==> ok && disabled && normalized == old(normalized) && marker == old(marker)
      ensures !old(disabled) && Calm(faults) ==>
        ok && normalized == old(normalized) + ToAppend(event, graphActivityOnly) && marker == old(marker) && !disabled
        && Reconstructed(normalized) == Reconstructed(old(normalized)) + [event]
    {
      if disabled {
        return true;
      }
      var isReady := EnsureDurableSinkReady(faults);
      if !isReady {
        return true;
      }
      ok := RecordDiagnostics(event, faults);
      if ok {
        AppendDriverEvent(event, faults);
      }
    }

    /** What a driver event is normalized to, appended. */
    method AppendDriverEvent(event: Event, faults: Faults)
      requires Valid() && ready && written != [] && written[|written| - 1] == event
      requires Subsequence(Reconstructed(normalized), written[..|written| - 1])
      modifies this`normalized, this`marker
      ensures Valid()
      ensures Calm(faults) ==>
        && normalized == old(normalized) + ToAppend(event, graphActivityOnly) && marker == old(marker)
        && Reconstructed(normalized) == Reconstructed(old(normalized)) + [event]
    {
      var events := ToAppend(event, graphActivityOnly);
      CarriesItself(event, graphActivityOnly);
      if Calm(faults) {
        CalmReadsBack(normalized, events, event, faults);
      }
      AppendDurableEvents(events, event, faults);
    }

    /** The diagnostics of an event; false if writing the one of an episode capture throws. */
    method RecordDiagnostics(event: Event, faults: Faults) returns (ok: bool)
      ensures !ok <==> event.kind == DriverDiagnostic(true) && !faults.diagnostics(0)
    {
      var i := 0;
      while i < DiagnosticCount(event)
        invariant 0 <= i <= DiagnosticCount(event)
        invariant event.kind == DriverDiagnostic(true) ==> forall j :: 0 <= j < i ==> faults.diagnostics(j)
      {
        if !faults.diagnostics(i) && event.kind == DriverDiagnostic(true) {
          return false;
        }
        i := i + 1;
      }
      ok := true;
    }

    /** The event sink. */
    method Emit(event: Event, faults: Faults) returns (ok: bool)
      requires Valid()
      modifies this
      ensures Valid()
      ensures written == if faults.legacy.NotDone? then old(written) else old(written) + [event]
      ensures !ok ==> !faults.legacy.Done? || event.kind == DriverDiagnostic(true)
      ensures faults.legacy.Done? && !old(disabled) && Calm(faults) ==>
        ok && normalized == old(normalized) + ToAppend(event, graphActivityOnly) && marker == old(marker) && !disabled
        && Reconstructed(normalized) == Reconstructed(old(normalized)) + [event]
      ensures !faults.legacy.Done? ==> normalized == old(normalized) && marker == old(marker)
    {
      ghost var before := written;
      ok := WriteJsonLine(event, faults.legacy);
      if !ok {
        return;
      }
      assert written[..|written| - 1] == before;
      ok := ProcessDurableDriverEvent(event, faults);
    }

    /** The compatibility reader. It returns what the legacy reader returns for the events of the legacy
        log, whatever was written, whatever failed and whichever log it takes. Only where there is no
        legacy log does it differ: the legacy reader fails then, and this one fails only if there is no
        run record either. */
    method WatchDriverEventsCompat(since: int) returns (page: Result<Page, ReadError>, source: Source)
      requires Valid()
      ensures written != [] ==> page == Ok(Expected(written, since))
      ensures written == [] ==> page == (if !marker && record then Ok(Expected([], since)) else Err(NoSuchFile))
      ensures source.FromNormalized? <==> !marker && record && Reconstructed(normalized) == written
    {
      if written != [] {
        LinesOfLog(serialize, parse, written);
        ParsedSerialized(serialize, parse, written, if since < 0 then 0 else if since > |written| then |written| else since);
      }
      var legacyCount := match legacy case None => 0 case Some(content) => |JsonLines(content)|;
      if marker || (!record && legacy.Some?) {
        page := LegacyFallback(since);
        return page, FromLegacy;
      }
      if !record {
        return Err(NoSuchFile), FromLegacy;
      }
      var reconstructed := Reconstructed(normalized);
      SubsequenceLength(reconstructed, written);
      if legacy.Some? && |reconstructed| < legacyCount {
        page := LegacyFallback(since);
        return page, FromLegacy;
      }
      page := Ok(Page(
        if since >= |reconstructed| then [] else reconstructed[Max0(since)..],
        if since >= |reconstructed| then since else |reconstructed|));
      source := FromNormalized;
    }

    method LegacyFallback(since: int) returns (page: Result<Page, ReadError>)
      requires Valid()
      ensures written != [] ==> page == Ok(Expected(written, since))
      ensures written == [] ==> page == Err(NoSuchFile)
    {
      if legacy.None? {
        return Err(NoSuchFile);
      }
      LinesOfLog(serialize, parse, written);
      ParsedSerialized(serialize, parse, written, if since < 0 then 0 else if since > |written| then |written| else since);
      var tail := TailEvents(parse, legacy.value, since);
      page := Ok(tail);
    }
  }

  /** What can happen to the logs of a run before somebody reads them. */
  datatype Action = Emitted(event: Event, faults: Faults) | SinkOpened(graphActivityOnly: bool) | WrittenByOthers(other: OrchestrationKind)

  predicate Survives(action: Action) {
    action.Emitted? && !action.faults.legacy.NotDone?
  }

  /** The events that reach the legacy log. */
  function Survivors(actions: seq<Action>): seq<Event> {
    if actions == [] then []
    else
      var last := actions[|actions| - 1];
      Survivors(actions[..|actions| - 1]) + if Survives(last) then [last.event] else []
  }

  lemma OneMoreSurvivor(actions: seq<Action>, i: nat)
    requires i < |actions|
    ensures Survivors(actions[..i + 1]) == Survivors(actions[..i]) + if Survives(actions[i]) then [actions[i].event] else []
  {
    assert actions[..i + 1][..i] == actions[..i];
  }

  lemma SurvivorsAre(actions: seq<Action>, last: Action)
    ensures Survivors([]) == []
    ensures Survivors(actions + [last]) ==
      Survivors(actions) + if last.Emitted? && last.faults.legacy != NotDone then [last.event] else []
  {
    assert (actions + [last])[..|actions|] == actions;
  }

  /** Everything the action writes gets into both logs. */
  ghost predicate AllWritten(action: Action) {
    action.Emitted? ==> action.faults.legacy.Done? && Calm(action.faults)
  }

  /** Nothing has gone wrong so far. */
  ghost predicate InStep(logs: DriveLogs)
    reads logs
  {
    !logs.marker && !logs.disabled && Reconstructed(logs.normalized) == logs.written && (logs.written != [] ==> logs.record)
  }

  /** One action. */
  method Act(logs: DriveLogs, action: Action)
    requires logs.Valid() && (action.WrittenByOthers? ==> LegacyEventOf(action.other) == None)
    modifies logs
    ensures logs.Valid() && logs.written == old(logs.written) + if Survives(action) then [action.event] else []
    ensures old(InStep(logs)) && AllWritten(action) ==> InStep(logs)
  {
    match action {
      case Emitted(event, faults) => var _ := logs.Emit(event, faults);
      case SinkOpened(mode) => logs.OpenSink(mode);
      case WrittenByOthers(other) => logs.AppendByOthers(other);
    }
  }

  /** The main result: after any events, any faults and any number of sinks, a reader of the run sees
      exactly what the legacy log holds from its cursor on. If nothing failed, the normalized log is what
      it reads. */
  method WatchAfter(serialize: Event -> string, parse: string -> Option<Event>, actions: seq<Action>, since: int)
    returns (page: Result<Page, ReadError>, source: Source)
    requires Faithful(serialize, parse)
    requires forall i :: 0 <= i < |actions| && actions[i].WrittenByOthers? ==> LegacyEventOf(actions[i].other) == None
    ensures var events := Survivors(actions);
      events != [] ==> page == Ok(if since >= |events| then Page([], since)
                                  else Page(events[if since < 0 then 0 else since..], |events|))
    ensures Survivors(actions) != [] && (forall i :: 0 <= i < |actions| ==> AllWritten(actions[i])) ==> source.FromNormalized?
  {
    var logs := new DriveLogs(serialize, parse);
    var i := 0;
    while i < |actions|
      invariant 0 <= i <= |actions|
      invariant fresh(logs) && logs.Valid() && logs.written == Survivors(actions[..i])
      invariant (forall j :: 0 <= j < i ==> AllWritten(actions[j])) ==> InStep(logs)
    {
      OneMoreSurvivor(actions, i);
      Act(logs, actions[i]);
      i := i + 1;
    }
    assert actions[..i] == actions;
    page, source := logs.WatchDriverEventsCompat(since);
  }
}
