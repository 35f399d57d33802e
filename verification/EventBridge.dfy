/** The bridge that tails a driver event log and publishes its events on a bus
    (lib/driver/event-stream.ts).

    A poll reads the whole file, which another process is appending to, so it may end anywhere, also in
    the middle of a line or of a character. The bridge remembers how far it got and takes the complete
    lines after that. The reference is a reader that gets all complete lines at once. */
module EventBridge {
  import opened Wrappers
  import opened DriverEvents
  import opened TextLines

  /** What a read of the log shows once `lines` have been written completely: those lines, and then
      part of the next one at most. */
  predicate Shows(content: string, lines: seq<string>) {
    && (forall l :: l in lines ==> OneLine(l))
    && Text(lines) <= content
    && OneLine(content[|Text(lines)|..])
  }

  lemma SplitAfter(content: string, lines: seq<string>, done: nat)
    requires Shows(content, lines) && done <= |lines|
    ensures |Text(lines[..done])| <= |content|
    ensures |lines| > done ==> |Text(lines[..done])| < |content|
    ensures Split(content[|Text(lines[..done])|..]) == lines[done..] + [content[|Text(lines)|..]]
  {
    TextAppend(lines[..done], lines[done..]);
    assert lines[..done] + lines[done..] == lines;
    var tail := content[|Text(lines)|..];
    assert content == Text(lines) + tail;
    assert content[|Text(lines[..done])|..] == Text(lines[done..]) + tail;
    SplitText(lines[done..], tail);
  }

  /** What the bridge is set up with. `parse` is JSON parsing of one line: None for a line that is not
      JSON or holds no value to speak of. */
  datatype Config = Config(parse: string -> Option<Event>, runId: string, parentSessionId: string, diagnostics: bool)

  function ParseLine(c: Config, line: string): Option<Event> {
    c.parse(WithoutReturn(line))
  }

  predicate Ours(c: Config, event: Event) {
    event.runId == c.runId && event.parentSessionId == c.parentSessionId
  }

  /** The line ends what this bridge follows. */
  predicate Ends(c: Config, line: string) {
    var event := ParseLine(c, line);
    event.Some? && Ours(c, event.value) && IsTerminal(event.value)
  }

  /** What one line contributes to the bus. */
  function Contribution(c: Config, line: string): seq<BusEvent> {
    match ParseLine(c, line)
    case None => []
    case Some(event) =>
      if !Ours(c, event) then []
      else match ToBusEvent(event, c.diagnostics) case None => [] case Some(b) => [b]
  }

  /** The reference: every line's contribution, in order. */
  function Batch(c: Config, lines: seq<string>): seq<BusEvent> {
    if lines == [] then [] else Batch(c, lines[..|lines| - 1]) + Contribution(c, lines[|lines| - 1])
  }

  /** The reference, line by line: an event of this run under this parent, and only such a one, is shown,
      by itself, if the bus shows events of its kind at all. */
  lemma BatchMeans(c: Config, lines: seq<string>, line: string)
    ensures Batch(c, []) == []
    ensures Batch(c, lines + [line]) == Batch(c, lines) +
      match c.parse(WithoutReturn(line))
      case None => []
      case Some(event) =>
        if event.runId != c.runId || event.parentSessionId != c.parentSessionId
           || event.kind in {RunStarted, TaskStarted, Preflight(false), SpawnStarted, SpawnCompleted, SpawnFailed, Verify}
           || (event.kind.DriverDiagnostic? && !c.diagnostics) then []
        else if event.kind.DriverActivity? then [ActivityBusEvent(event)]
        else [DriverBusEvent(event)]
  {
    assert (lines + [line])[..|lines|] == lines;
    var event := c.parse(WithoutReturn(line));
    if event.Some? {
      BusShows(event.value, c.diagnostics);
    }
  }

  /** The first `n` lines are readable and, but for the last of them, do not end the stream. */
  ghost predicate Followed(c: Config, lines: seq<string>, n: nat) {
    && n <= |lines|
    && (forall i :: 0 <= i < n ==> ParseLine(c, lines[i]).Some?)
    && (forall i :: 0 <= i < n - 1 ==> !Ends(c, lines[i]))
  }

  /** `n` is where a reader of all the lines stops: after the first line that ends the stream, before
      the first unreadable line, or at the end. */
  ghost predicate IsCut(c: Config, lines: seq<string>, n: nat) {
    && Followed(c, lines, n)
    && (n == |lines| || ParseLine(c, lines[n]).None? || (n > 0 && Ends(c, lines[n - 1])))
  }

  /** No reader can follow the lines beyond such a place. */
  lemma CutIsLast(c: Config, lines: seq<string>, m: nat, n: nat)
    requires IsCut(c, lines, m) && Followed(c, lines, n)
    ensures n <= m
  {
  }

  /** There is only one such place. */
  lemma CutIsUnique(c: Config, lines: seq<string>, m: nat, n: nat)
    requires IsCut(c, lines, m) && IsCut(c, lines, n)
    ensures m == n
  {
    CutIsLast(c, lines, m, n);
    CutIsLast(c, lines, n, m);
  }

  /** A bridge in this state has taken exactly the first `n` lines, and had published `base` before. */
  ghost predicate HasTaken(c: Config, lines: seq<string>, n: nat, cursor: nat, stopped: bool,
                           base: seq<BusEvent>, published: seq<BusEvent>)
  {
    && Followed(c, lines, n)
    && cursor == |Text(lines[..n])|
    && published == base + Batch(c, lines[..n])
    && (stopped <==> n > 0 && Ends(c, lines[n - 1]))
  }

  /** That place. */
  function Cut(c: Config, lines: seq<string>): (n: nat)
    ensures n <= |lines|
  {
    if lines == [] || ParseLine(c, lines[0]).None? then 0
    else if Ends(c, lines[0]) then 1
    else 1 + Cut(c, lines[1..])
  }

  lemma {:induction false} CutIsCut(c: Config, lines: seq<string>)
    ensures IsCut(c, lines, Cut(c, lines))
  {
    if lines != [] && ParseLine(c, lines[0]).Some? && !Ends(c, lines[0]) {
      var rest, n := lines[1..], Cut(c, lines[1..]);
      CutIsCut(c, rest);
      assert forall i :: 0 < i < |lines| ==> lines[i] == rest[i - 1];
      assert n > 0 ==> lines[n] == rest[n - 1];
    }
  }

  /** Where a reader stops, in terms of what the lines hold. */
  lemma CutMeans(c: Config, lines: seq<string>)
    ensures forall i :: 0 <= i < Cut(c, lines) ==> c.parse(WithoutReturn(lines[i])).Some?
    ensures forall i :: 0 <= i < Cut(c, lines) - 1 ==>
      var event := c.parse(WithoutReturn(lines[i])).value;
      event.runId == c.runId && event.parentSessionId == c.parentSessionId ==>
        !event.kind.RunCompleted? && !event.kind.RunAborted? && !event.kind.RunFinalizationFailed?
    ensures Cut(c, lines) < |lines| && c.parse(WithoutReturn(lines[Cut(c, lines)])).Some? ==>
      && Cut(c, lines) > 0
      && var event := c.parse(WithoutReturn(lines[Cut(c, lines) - 1])).value;
      && event.runId == c.runId && event.parentSessionId == c.parentSessionId
      && (event.kind.RunCompleted? || event.kind.RunAborted? || event.kind.RunFinalizationFailed?)
  {
    CutIsCut(c, lines);
    forall i | 0 <= i < Cut(c, lines)
      ensures c.parse(WithoutReturn(lines[i])).Some?
      ensures i < Cut(c, lines) - 1 ==> !Ends(c, lines[i])
    {
      assert ParseLine(c, lines[i]).Some?;
    }
  }

  lemma TakeOne(c: Config, lines: seq<string>, n: nat, cursor: nat, base: seq<BusEvent>, published: seq<BusEvent>)
    requires HasTaken(c, lines, n, cursor, false, base, published) && n < |lines| && ParseLine(c, lines[n]).Some?
    ensures HasTaken(c, lines, n + 1, cursor + |lines[n]| + 1, Ends(c, lines[n]), base,
                     published + Contribution(c, lines[n]))
  {
    assert lines[..n + 1] == lines[..n] + [lines[n]];
    TextAppend(lines[..n], [lines[n]]);
    assert Text([lines[n]]) == lines[n] + "\n";
    assert lines[..n + 1][..n] == lines[..n];
  }

  lemma SeesMore(c: Config, before: seq<string>, lines: seq<string>, n: nat, cursor: nat, stopped: bool,
                 base: seq<BusEvent>, published: seq<BusEvent>)
    requires HasTaken(c, before, n, cursor, stopped, base, published) && before <= lines
    ensures HasTaken(c, lines, n, cursor, stopped, base, published)
  {
    assert before[..n] == lines[..n];
    assert forall i :: 0 <= i < n ==> before[i] == lines[i];
  }

  class Bridge {
    const config: Config
    var cursor: nat
    var stopped: bool
    var published: seq<BusEvent>
    /** How many lines of the present log the bridge has taken. */
    ghost var taken: nat
    /** What the bridge had published when it started on the present log. */
    ghost var base: seq<BusEvent>

    constructor (config: Config)
      ensures this.config == config && At([]) && !stopped && base == []
    {
      this.config := config;
      cursor, stopped, published, taken, base := 0, false, [], 0, [];
    }

    ghost predicate At(lines: seq<string>)
      reads this
    {
      HasTaken(config, lines, taken, cursor, stopped, base, published)
    }

    /** The body of the loop over the complete lines; false where the source returns from the loop. */
    method TakeLine(rawLine: string, ghost lines: seq<string>) returns (goOn: bool)
      requires At(lines) && !stopped && taken < |lines| && rawLine == lines[taken]
      modifies this
      ensures base == old(base) && old(published) <= published
      ensures At(lines) && goOn == (ParseLine(config, rawLine).Some? && !stopped)
      ensures taken == old(taken) + if ParseLine(config, rawLine).Some? then 1 else 0
    {
      var event := ParseLine(config, rawLine);
      if event.None? {
        return false;
      }
      TakeOne(config, lines, taken, cursor, base, published);
      cursor := cursor + |rawLine| + 1;
      taken := taken + 1;
      if !Ours(config, event.value) {
        assert published + Contribution(config, rawLine) == published;
        return true;
      }
      var busEvent := ToBusEvent(event.value, config.diagnostics);
      if busEvent.Some? {
        published := published + [busEvent.value];
      } else {
        assert published + Contribution(config, rawLine) == published;
      }
      if IsTerminal(event.value) {
        stopped := true;
        return false;
      }
      return true;
    }

    /** One reading of the file. `lines` are the complete lines it shows. If the file has become shorter
        than what was taken of it, it is another log, and the bridge follows it from its start. */
    method ProcessContent(content: string, ghost lines: seq<string>)
      requires !stopped && Shows(content, lines)
      requires cursor > |content| || At(lines)
      modifies this
      ensures At(lines) && IsCut(config, lines, taken) && old(published) <= published
      ensures if old(cursor) > |content| then base == old(published) else base == old(base) && taken >= old(taken)
    {
      if cursor > |content| {
        cursor := 0;
        taken, base := 0, published;
      }
      SplitAfter(content, lines, taken);
      var pending := content[cursor..];
      if |pending| == 0 {
        return;
      }
      var pieces := Split(pending);
      var parts := pieces[..|pieces| - 1];
      ghost var start, earlier := taken, base;
      assert parts == lines[start..];
      var i := 0;
      while i < |parts|
        invariant 0 <= i <= |parts|
        invariant taken == start + i && !stopped && base == earlier
        invariant At(lines) && old(published) <= published
      {
        var goOn := TakeLine(parts[i], lines);
        if !goOn {
          return;
        }
        i := i + 1;
      }
    }

    /** One poll: nothing happens once stopped, and nothing if the file cannot be read. */
    method Poll(read: Option<string>, ghost before: seq<string>, ghost lines: seq<string>)
      requires At(before) && before <= lines
      requires read.Some? ==> Shows(read.value, lines)
      modifies this
      ensures old(stopped) ==> published == old(published) && stopped
      ensures At(lines) && taken >= old(taken) && base == old(base) && old(published) <= published
      ensures read.Some? ==> IsCut(config, lines, taken)
    {
      SeesMore(config, before, lines, taken, cursor, stopped, base, published);
      if stopped {
        return;
      }
      if read.Some? {
        SplitAfter(read.value, lines, taken);
        ProcessContent(read.value, lines);
      }
    }
  }

  /** The log is only appended to. */
  predicate Growing(shown: seq<seq<string>>) {
    forall i, j :: 0 <= i < j < |shown| ==> shown[i] <= shown[j]
  }

  /** The complete lines before poll `i`. */
  function LinesBefore(shown: seq<seq<string>>, i: nat): seq<string>
    requires i <= |shown|
  {
    if i == 0 then [] else shown[i - 1]
  }

  lemma LinesGrow(shown: seq<seq<string>>, i: nat)
    requires Growing(shown) && i < |shown|
    ensures LinesBefore(shown, i) <= LinesBefore(shown, i + 1) == shown[i]
  {
  }

  /** Polling a growing log gives what one batch over its lines gives, cut where a batch reader would
      stop: nothing lost, nothing twice, nothing after the end, wherever the reads were cut off and
      whichever of them failed. `shown[i]` are the complete lines at the time of poll `i`. */
  method Tail(config: Config, polls: seq<Option<string>>, ghost shown: seq<seq<string>>)
    returns (published: seq<BusEvent>)
    requires |shown| == |polls| > 0
    requires forall i :: 0 <= i < |polls| && polls[i].Some? ==> Shows(polls[i].value, shown[i])
    requires Growing(shown) && polls[|polls| - 1].Some?
    ensures var lines := shown[|shown| - 1]; published == Batch(config, lines[..Cut(config, lines)])
  {
    var bridge := new Bridge(config);
    var i := 0;
    while i < |polls|
      invariant 0 <= i <= |polls|
      invariant fresh(bridge) && bridge.config == config && bridge.base == []
      invariant bridge.At(LinesBefore(shown, i))
      invariant i > 0 && polls[i - 1].Some? ==> IsCut(config, LinesBefore(shown, i), bridge.taken)
    {
      LinesGrow(shown, i);
      bridge.Poll(polls[i], LinesBefore(shown, i), shown[i]);
      i := i + 1;
    }
    published := bridge.published;
    WholeBatch(config, LinesBefore(shown, i), bridge.taken, bridge.cursor, bridge.stopped, published);
  }

  lemma WholeBatch(config: Config, lines: seq<string>, taken: nat, cursor: nat, stopped: bool, published: seq<BusEvent>)
    requires HasTaken(config, lines, taken, cursor, stopped, [], published) && IsCut(config, lines, taken)
    ensures published == Batch(config, lines[..Cut(config, lines)])
  {
    CutIsCut(config, lines);
    CutIsUnique(config, lines, taken, Cut(config, lines));
  }
}
