/** The normalized event log of a run and what is kept beside it (lib/durable-runtime/file-store.ts,
    lib/durable-runtime/status.ts, lib/durable-runtime/controller.ts).

    The store caches the latest sequence number and keeps a status in the run record. Both must equal
    what reading the whole log again would give. Readers page through the log with a cursor. */
module EventLog {
  import opened Wrappers

  datatype Status = Pending | Running | Completed | Blocked | Failed | Cancelled | Stale

  datatype Event =
    | RunStarted | RunCompleted | RunBlocked | RunFailed | RunCancelled | RunStale | OtherEvent(body: string)

  function StatusFromEvent(event: Event): Option<Status> {
    match event
    case RunStarted => Some(Running)
    case RunCompleted => Some(Completed)
    case RunBlocked => Some(Blocked)
    case RunFailed => Some(Failed)
    case RunCancelled => Some(Cancelled)
    case RunStale => Some(Stale)
    case OtherEvent(_) => None
  }

  predicate IsTerminalStatus(status: Status) {
    status.Completed? || status.Blocked? || status.Failed? || status.Cancelled? || status.Stale?
  }

  predicate IsTerminalEvent(event: Event) {
    StatusFromEvent(event).Some? && IsTerminalStatus(StatusFromEvent(event).value)
  }

  /** The events that say how the run ended. */
  predicate EndsRun(event: Event) {
    event.RunCompleted? || event.RunBlocked? || event.RunFailed? || event.RunCancelled? || event.RunStale?
  }

  datatype Stored = Stored(number: nat, event: Event)

  /** A line of the log, as reading classifies it. */
  datatype Line = EventLine(stored: Stored) | DiagnosticLine(text: string) | MalformedLine(text: string) | BlankLine

  function StoredEvents(lines: seq<Line>): seq<Stored> {
    if lines == [] then []
    else
      var last := lines[|lines| - 1];
      StoredEvents(lines[..|lines| - 1]) + if last.EventLine? then [last.stored] else []
  }

  /** The lines that are reported as diagnostics: recorded ones and unreadable ones. */
  function DiagnosticCount(lines: seq<Line>): nat {
    if lines == [] then 0
    else
      var last := lines[|lines| - 1];
      DiagnosticCount(lines[..|lines| - 1]) + if last.EventLine? || last.BlankLine? then 0 else 1
  }

  ghost function DiagnosticLines(lines: seq<Line>, n: nat): set<nat>
    requires n <= |lines|
  {
    set k: nat | k < n && (lines[k].DiagnosticLine? || lines[k].MalformedLine?)
  }

  lemma OneMoreLine(lines: seq<Line>, n: nat)
    requires n < |lines|
    ensures |DiagnosticLines(lines, n + 1)| ==
      |DiagnosticLines(lines, n)| + if lines[n].EventLine? || lines[n].BlankLine? then 0 else 1
  {
    if lines[n].EventLine? || lines[n].BlankLine? {
      assert DiagnosticLines(lines, n + 1) == DiagnosticLines(lines, n);
    } else {
      assert DiagnosticLines(lines, n + 1) == DiagnosticLines(lines, n) + {n};
    }
  }

  lemma {:induction false} DiagnosticsUpTo(lines: seq<Line>, n: nat)
    requires n <= |lines|
    ensures DiagnosticCount(lines[..n]) == |DiagnosticLines(lines, n)|
  {
    if n == 0 {
      assert DiagnosticLines(lines, 0) == {};
    } else {
      DiagnosticsUpTo(lines, n - 1);
      OneMoreLine(lines, n - 1);
      assert lines[..n][..n - 1] == lines[..n - 1];
    }
  }

  lemma DiagnosticsAreCounted(lines: seq<Line>)
    ensures DiagnosticCount(lines) == |set k: nat | k < |lines| && (lines[k].DiagnosticLine? || lines[k].MalformedLine?)|
  {
    DiagnosticsUpTo(lines, |lines|);
    assert lines[..|lines|] == lines;
  }

  function Max(a: nat, b: nat): nat {
    if a < b then b else a
  }

  /** The largest sequence number, 0 if there is none. */
  function Latest(events: seq<Stored>): nat {
    if events == [] then 0 else Max(Latest(events[..|events| - 1]), events[|events| - 1].number)
  }

  lemma {:induction false} LatestIsMaximum(events: seq<Stored>)
    ensures forall i :: 0 <= i < |events| ==> events[i].number <= Latest(events)
    ensures Latest(events) == 0 || exists i :: 0 <= i < |events| && events[i].number == Latest(events)
  {
    if events != [] {
      LatestIsMaximum(events[..|events| - 1]);
    }
  }

  /** Every event has a larger number than all events before it, and a positive one. */
  predicate Increasing(events: seq<Stored>) {
    events == [] ||
    (Increasing(events[..|events| - 1]) && events[|events| - 1].number > Latest(events[..|events| - 1]))
  }

  lemma {:induction false} InOrder(events: seq<Stored>)
    requires Increasing(events)
    ensures forall i :: 0 <= i < |events| ==> events[i].number > 0
    ensures forall i, j :: 0 <= i < j < |events| ==> events[i].number < events[j].number
  {
    if events != [] {
      var n := |events| - 1;
      InOrder(events[..n]);
      LatestIsMaximum(events[..n]);
      assert forall i :: 0 <= i < n ==> events[..n][i] == events[i];
    }
  }

  lemma {:induction false} PrefixIncreasing(events: seq<Stored>, more: seq<Stored>)
    requires Increasing(events + more)
    ensures Increasing(events)
  {
    if more == [] {
      assert events + more == events;
    } else {
      assert (events + more)[..|events + more| - 1] == events + more[..|more| - 1];
      PrefixIncreasing(events, more[..|more| - 1]);
    }
  }

  lemma {:induction false} SuffixIncreasing(events: seq<Stored>, more: seq<Stored>)
    requires Increasing(events + more)
    ensures Increasing(more) && Latest(more) <= Latest(events + more)
  {
    if more != [] {
      assert (events + more)[..|events + more| - 1] == events + more[..|more| - 1];
      SuffixIncreasing(events, more[..|more| - 1]);
    }
  }

  lemma LatestIsLast(events: seq<Stored>)
    requires Increasing(events) && events != []
    ensures Latest(events) == events[|events| - 1].number
  {
  }

  // ------------------------------------------------------------------ sorting

  function Insert(s: Stored, sorted: seq<Stored>): seq<Stored> {
    if sorted == [] || sorted[|sorted| - 1].number <= s.number then sorted + [s]
    else Insert(s, sorted[..|sorted| - 1]) + [sorted[|sorted| - 1]]
  }

  /** A stable sort by sequence number. */
  function SortBySeq(events: seq<Stored>): seq<Stored> {
    if events == [] then [] else Insert(events[|events| - 1], SortBySeq(events[..|events| - 1]))
  }

  /** The numbers do not fall. */
  predicate Ordered(events: seq<Stored>) {
    forall i, j :: 0 <= i < j < |events| ==> events[i].number <= events[j].number
  }

  predicate UpTo(events: seq<Stored>, bound: nat) {
    forall i :: 0 <= i < |events| ==> events[i].number <= bound
  }

  lemma OrderedAppend(events: seq<Stored>, s: Stored)
    requires Ordered(events) && UpTo(events, s.number)
    ensures Ordered(events + [s])
  {
  }

  lemma {:induction false} InsertLosesNothing(s: Stored, sorted: seq<Stored>)
    ensures multiset(Insert(s, sorted)) == multiset(sorted) + multiset{s}
  {
    if sorted != [] && sorted[|sorted| - 1].number > s.number {
      InsertLosesNothing(s, sorted[..|sorted| - 1]);
      assert sorted == sorted[..|sorted| - 1] + [sorted[|sorted| - 1]];
    }
  }

  lemma {:induction false} InsertStaysUpTo(s: Stored, sorted: seq<Stored>, bound: nat)
    requires UpTo(sorted, bound) && s.number <= bound
    ensures UpTo(Insert(s, sorted), bound)
  {
    if sorted != [] && sorted[|sorted| - 1].number > s.number {
      InsertStaysUpTo(s, sorted[..|sorted| - 1], bound);
    }
  }

  lemma {:induction false} InsertKeepsOrder(s: Stored, sorted: seq<Stored>)
    requires Ordered(sorted)
    ensures Ordered(Insert(s, sorted))
  {
    if sorted == [] || sorted[|sorted| - 1].number <= s.number {
      OrderedAppend(sorted, s);
    } else {
      var n := |sorted| - 1;
      InsertKeepsOrder(s, sorted[..n]);
      InsertStaysUpTo(s, sorted[..n], sorted[n].number);
      OrderedAppend(Insert(s, sorted[..n]), sorted[n]);
    }
  }

  lemma {:induction false} SortLosesNothing(events: seq<Stored>)
    ensures multiset(SortBySeq(events)) == multiset(events)
  {
    if events != [] {
      var n := |events| - 1;
      SortLosesNothing(events[..n]);
      InsertLosesNothing(events[n], SortBySeq(events[..n]));
      assert multiset(events) == multiset(events[..n]) + multiset{events[n]} by {
        assert events == events[..n] + [events[n]];
      }
    }
  }

  lemma {:induction false} SortOrders(events: seq<Stored>)
    ensures Ordered(SortBySeq(events))
  {
    if events != [] {
      var n := |events| - 1;
      SortOrders(events[..n]);
      InsertKeepsOrder(events[n], SortBySeq(events[..n]));
    }
  }

  /** Sorting loses nothing and leaves the numbers in order. */
  lemma SortSorts(events: seq<Stored>)
    ensures multiset(SortBySeq(events)) == multiset(events)
    ensures forall i, j :: 0 <= i < j < |SortBySeq(events)| ==> SortBySeq(events)[i].number <= SortBySeq(events)[j].number
  {
    SortLosesNothing(events);
    SortOrders(events);
  }

  lemma {:induction false} SortedAlready(events: seq<Stored>)
    requires Increasing(events)
    ensures SortBySeq(events) == events
  {
    if events != [] {
      SortedAlready(events[..|events| - 1]);
      assert events == events[..|events| - 1] + [events[|events| - 1]];
    }
  }

  // ------------------------------------------------------------------ pages

  datatype Page = Page(events: seq<Stored>, cursor: int)

  function After(events: seq<Stored>, since: int): seq<Stored> {
    if events == [] then []
    else
      var last := events[|events| - 1];
      After(events[..|events| - 1], since) + if last.number > since then [last] else []
  }

  function CutPage(filtered: seq<Stored>, since: int, limit: Option<nat>, latest: nat): Page {
    var limited := if limit.None? || limit.value >= |filtered| then filtered else filtered[..limit.value];
    Page(limited,
         if |limited| < |filtered| then (if limited == [] then since else limited[|limited| - 1].number) else latest)
  }

  /** `readEvents`: what follows the cursor, in order, at most `limit` of it. */
  function PageOf(events: seq<Stored>, since: int, limit: Option<nat>): Page {
    CutPage(SortBySeq(After(events, since)), since, limit, Latest(events))
  }

  /** How many events a reader with this cursor is past. */
  function Position(events: seq<Stored>, cursor: int): (p: nat)
    ensures p <= |events|
  {
    if events == [] then 0
    else Position(events[..|events| - 1], cursor) + if events[|events| - 1].number <= cursor then 1 else 0
  }

  lemma {:induction false} PositionSplits(events: seq<Stored>, cursor: int)
    requires Increasing(events)
    ensures forall i :: 0 <= i < |events| ==> (events[i].number <= cursor <==> i < Position(events, cursor))
  {
    if events != [] {
      PositionSplits(events[..|events| - 1], cursor);
      var n := |events| - 1;
      var p := Position(events[..n], cursor);
      if p < n {
        assert events[..n][p].number > cursor;
      }
      forall i | 0 <= i < n ensures events[i].number <= cursor <==> i < p {
        assert events[..n][i] == events[i];
      }
    }
  }

  lemma LastOfSlice(events: seq<Stored>, p: nat)
    requires p < |events|
    ensures events[p..] == events[..|events| - 1][p..] + [events[|events| - 1]]
  {
  }

  lemma {:induction false} AfterIsRest(events: seq<Stored>, since: int)
    requires Increasing(events)
    ensures After(events, since) == events[Position(events, since)..]
  {
    if events != [] {
      var n := |events| - 1;
      AfterIsRest(events[..n], since);
      var p := Position(events[..n], since);
      InOrder(events);
      PositionSplits(events[..n], since);
      assert p < n ==> events[..n][p].number > since && events[..n][p] == events[p];
      if events[n].number > since {
        LastOfSlice(events, p);
      }
    }
  }

  lemma PositionAt(events: seq<Stored>, k: nat, cursor: int)
    requires Increasing(events) && k <= |events|
    requires k > 0 ==> events[k - 1].number <= cursor
    requires k < |events| ==> cursor < events[k].number
    ensures Position(events, cursor) == k
  {
    PositionSplits(events, cursor);
  }

  lemma PositionOfLatest(events: seq<Stored>)
    requires Increasing(events)
    ensures Position(events, Latest(events)) == |events|
  {
    if events != [] {
      LatestIsLast(events);
      PositionAt(events, |events|, Latest(events));
    }
  }

  /** Where a page ends. */
  function PageEnd(events: seq<Stored>, since: int, limit: Option<nat>): (k: nat)
    ensures Position(events, since) <= k <= |events|
  {
    var p := Position(events, since);
    if limit.None? || p + limit.value >= |events| then |events| else p + limit.value
  }

  lemma FilteredIsRest(events: seq<Stored>, since: int)
    requires Increasing(events)
    ensures SortBySeq(After(events, since)) == events[Position(events, since)..]
  {
    AfterIsRest(events, since);
    var p := Position(events, since);
    assert events[..p] + events[p..] == events;
    SuffixIncreasing(events[..p], events[p..]);
    SortedAlready(events[p..]);
  }

  lemma PageIsCut(events: seq<Stored>, since: int, limit: Option<nat>)
    requires Increasing(events)
    ensures PageOf(events, since, limit) == CutPage(events[Position(events, since)..], since, limit, Latest(events))
  {
    FilteredIsRest(events, since);
  }

  lemma PageShape(events: seq<Stored>, since: int, limit: Option<nat>)
    requires Increasing(events)
    ensures var p, k := Position(events, since), PageEnd(events, since, limit);
      PageOf(events, since, limit) ==
      Page(events[p..k], if k == |events| then Latest(events) else if k == p then since else events[k - 1].number)
  {
    PageIsCut(events, since, limit);
    CutShape(events, Position(events, since), since, limit, Latest(events));
  }

  lemma CutShape(events: seq<Stored>, p: nat, since: int, limit: Option<nat>, latest: nat)
    requires p <= |events|
    ensures var k := if limit.None? || p + limit.value >= |events| then |events| else p + limit.value;
      CutPage(events[p..], since, limit, latest) ==
      Page(events[p..k], if k == |events| then latest else if k == p then since else events[k - 1].number)
  {
    var k := if limit.None? || p + limit.value >= |events| then |events| else p + limit.value;
    assert events[p..][..k - p] == events[p..k];
  }

  /** A page with a positive limit, or without one, holds exactly the events between the cursor it was
      asked with and the cursor it returns, is empty only if there are none left, and ends at the end
      of the log if it is not full. A limit of 0 makes no progress. */
  lemma PageIsExact(events: seq<Stored>, since: int, limit: Option<nat>)
    requires Increasing(events)
    ensures var page := PageOf(events, since, limit); var p := Position(events, since);
      && Position(events, page.cursor) >= p
      && page.events == events[p..Position(events, page.cursor)]
      && (limit == Some(0) && p < |events| ==> page == Page([], since))
      && (limit != Some(0) ==> page.cursor <= Latest(events) && (page.events == [] ==> p == |events|))
      && (limit.None? || |page.events| < limit.value ==> Position(events, page.cursor) == |events|)
      && (limit.Some? ==> |page.events| == if limit.value < |events| - p then limit.value else |events| - p)
  {
    PageShape(events, since, limit);
    var p, k := Position(events, since), PageEnd(events, since, limit);
    if k == |events| {
      PositionOfLatest(events);
    } else if k > p {
      InOrder(events);
      PositionAt(events, k, events[k - 1].number);
      LatestIsMaximum(events);
    }
  }

  /** A reader's cursor stays where it is while the log grows. */
  lemma PositionKeeps(events: seq<Stored>, more: seq<Stored>, cursor: int)
    requires Increasing(events + more) && cursor <= Latest(events)
    ensures Position(events + more, cursor) == Position(events, cursor)
  {
    PrefixIncreasing(events, more);
    InOrder(events + more);
    PositionSplits(events, cursor);
    var q := Position(events, cursor);
    assert q > 0 ==> (events + more)[q - 1] == events[q - 1];
    if q < |events| {
      assert (events + more)[q] == events[q];
    } else if events != [] && more != [] {
      LatestIsLast(events);
      assert (events + more)[q - 1].number < (events + more)[q].number;
    }
    PositionAt(events + more, q, cursor);
  }

  /** What a reader gets by asking for pages of the growing log, each from the cursor of the one before. */
  function ReadPages(logs: seq<seq<Stored>>, since: int, limits: seq<Option<nat>>): (r: Page)
    requires |logs| == |limits|
  {
    if logs == [] then Page([], since)
    else
      var n := |logs| - 1;
      var before := ReadPages(logs[..n], since, limits[..n]);
      var page := PageOf(logs[n], before.cursor, limits[n]);
      Page(before.events + page.events, page.cursor)
  }

  lemma JoinSlices<T>(older: seq<T>, newer: seq<T>, from: nat, mid: nat, end: nat)
    requires older <= newer && from <= mid <= |older| && mid <= end <= |newer|
    ensures older[from..mid] + newer[mid..end] == newer[from..end]
  {
  }

  lemma OneMorePage(older: seq<Stored>, newer: seq<Stored>, from: nat, before: Page, limit: Option<nat>)
    requires Increasing(newer) && older <= newer && limit != Some(0)
    requires from <= Position(older, before.cursor) && before.cursor <= Latest(older)
    requires before.events == older[from..Position(older, before.cursor)]
    ensures var page := PageOf(newer, before.cursor, limit);
      && Position(newer, page.cursor) >= from && page.cursor <= Latest(newer)
      && before.events + page.events == newer[from..Position(newer, page.cursor)]
  {
    var more := newer[|older|..];
    assert older + more == newer;
    PositionKeeps(older, more, before.cursor);
    PageIsExact(newer, before.cursor, limit);
    var page := PageOf(newer, before.cursor, limit);
    JoinSlices(older, newer, from, Position(older, before.cursor), Position(newer, page.cursor));
  }

  /** Paging delivers every event after the first cursor exactly once and in order, whatever the positive
      limits are and however the log grows between the pages. */
  lemma {:induction false} PagingIsExact(logs: seq<seq<Stored>>, since: int, limits: seq<Option<nat>>)
    requires |logs| == |limits| > 0
    requires forall i :: 0 <= i < |logs| ==> Increasing(logs[i]) && limits[i] != Some(0)
    requires forall i :: 0 < i < |logs| ==> logs[i - 1] <= logs[i]
    ensures var r := ReadPages(logs, since, limits); var last := logs[|logs| - 1];
      && Position(logs[0], since) <= Position(last, r.cursor)
      && r.events == last[Position(logs[0], since)..Position(last, r.cursor)]
      && r.cursor <= Latest(last)
  {
    var n := |logs| - 1;
    var before := ReadPages(logs[..n], since, limits[..n]);
    PageIsExact(logs[n], before.cursor, limits[n]);
    if n > 0 {
      PagingIsExact(logs[..n], since, limits[..n]);
      assert logs[..n][n - 1] == logs[n - 1] && logs[..n][0] == logs[0];
      OneMorePage(logs[n - 1], logs[n], Position(logs[0], since), before, limits[n]);
    }
  }

  /** The events of the page that was read last. */
  function LastPage(logs: seq<seq<Stored>>, since: int, limits: seq<Option<nat>>): seq<Stored>
    requires |logs| == |limits| > 0
  {
    var n := |logs| - 1;
    PageOf(logs[n], ReadPages(logs[..n], since, limits[..n]).cursor, limits[n]).events
  }

  lemma EmptyPageIsEnd(events: seq<Stored>, since: int, limit: Option<nat>)
    requires Increasing(events) && limit != Some(0) && PageOf(events, since, limit).events == []
    ensures Position(events, PageOf(events, since, limit).cursor) == |events|
  {
    PageIsExact(events, since, limit);
  }

  lemma BeforeAll(events: seq<Stored>, since: int)
    requires Increasing(events) && forall e :: e in events ==> e.number > since
    ensures Position(events, since) == 0
  {
    PositionSplits(events, since);
    assert events != [] ==> events[0] in events;
  }

  /** Paging until a page is empty delivers the whole log, each event once and in order, whatever the
      positive limits are and however the log has grown meanwhile. */
  lemma PagingUntilEmptyDeliversAll(logs: seq<seq<Stored>>, since: int, limits: seq<Option<nat>>)
    requires |logs| == |limits| > 0
    requires forall i :: 0 <= i < |logs| ==> Increasing(logs[i]) && limits[i] != Some(0)
    requires forall i :: 0 < i < |logs| ==> logs[i - 1] <= logs[i]
    requires LastPage(logs, since, limits) == []
    ensures var last := logs[|logs| - 1];
      && Position(logs[0], since) <= |last|
      && ReadPages(logs, since, limits).events == last[Position(logs[0], since)..]
      && ((forall e :: e in logs[0] ==> e.number > since) ==> ReadPages(logs, since, limits).events == last)
  {
    var n := |logs| - 1;
    PagingIsExact(logs, since, limits);
    EmptyPageIsEnd(logs[n], ReadPages(logs[..n], since, limits[..n]).cursor, limits[n]);
    if forall e :: e in logs[0] ==> e.number > since {
      BeforeAll(logs[0], since);
    }
  }

  // ------------------------------------------------------------------ status

  /** The status of the latest terminal event. */
  function LatestTerminal(events: seq<Stored>): Option<Status> {
    if events == [] then None
    else if IsTerminalEvent(events[|events| - 1].event) then StatusFromEvent(events[|events| - 1].event)
    else LatestTerminal(events[..|events| - 1])
  }

  /** `summarizeRunStatus`: a terminal event counts more than the record. */
  function SummarizeRunStatus(record: Status, events: seq<Stored>): Status {
    match LatestTerminal(SortBySeq(events))
    case Some(status) => status
    case None => record
  }

  // ------------------------------------------------------------------ the store

  datatype AppendFault =
    | NoFault
    | AppendThrows        // nothing is appended
    | RecordThrows        // the event is appended, the record is not updated
    | DiesAfterAppend     // the same, and the process is gone

  /** The store is up to date with the log, but for the record if it lags behind. */
  ghost predicate UpToDate(events: seq<Stored>, record: Status, cache: Option<nat>, lagging: bool) {
    && Increasing(events)
    && (cache.Some? ==> cache.value == Latest(events))
    && (!lagging ==> record == SummaryWithoutSorting(record, events))
  }

  lemma AppendLineEvents(lines: seq<Line>, line: Line)
    ensures StoredEvents(lines + [line]) == if line.EventLine? then StoredEvents(lines) + [line.stored] else StoredEvents(lines)
  {
    assert (lines + [line])[..|lines|] == lines;
  }

  /** What an event does to the reported status: a terminal event sets it, nothing else changes a
      terminal one, and a start sets any other if it reaches the record. */
  function NextStatus(was: Status, event: Event, written: bool): Status {
    if IsTerminalEvent(event) then StatusFromEvent(event).value
    else if !IsTerminalStatus(was) && event.RunStarted? && written then Running
    else was
  }

  predicate UpdatesRecord(record: Status, event: Event) {
    var status := StatusFromEvent(event);
    status.Some? && (!IsTerminalStatus(record) || IsTerminalStatus(status.value))
  }

  function SummaryWithoutSorting(record: Status, events: seq<Stored>): Status {
    match LatestTerminal(events)
    case Some(status) => status
    case None => record
  }

  /** On a log in order the summary needs no sorting. */
  lemma SummaryInOrder(record: Status, events: seq<Stored>)
    requires Increasing(events)
    ensures SummarizeRunStatus(record, events) == SummaryWithoutSorting(record, events)
  {
    SortedAlready(events);
  }

  function NewRecord(record: Status, event: Event, written: bool): Status {
    if written && UpdatesRecord(record, event) then StatusFromEvent(event).value else record
  }

  function NewLagging(lagging: bool, event: Event, written: bool): bool {
    if IsTerminalEvent(event) then !written else lagging
  }

  /** What an append does to the record and to its lag, event by event. */
  lemma RecordedAs(record: Status, lagging: bool, event: Event, written: bool)
    ensures EndsRun(event) ==> UpdatesRecord(record, event) && (NewLagging(lagging, event, written) <==> !written)
    ensures !EndsRun(event) ==> NewLagging(lagging, event, written) == lagging
    ensures written && event.RunCompleted? ==> NewRecord(record, event, written).Completed?
    ensures written && event.RunBlocked? ==> NewRecord(record, event, written).Blocked?
    ensures written && event.RunFailed? ==> NewRecord(record, event, written).Failed?
    ensures written && event.RunCancelled? ==> NewRecord(record, event, written).Cancelled?
    ensures written && event.RunStale? ==> NewRecord(record, event, written).Stale?
    ensures written && event.RunStarted? && (record.Pending? || record.Running?) ==> NewRecord(record, event, written).Running?
    ensures !written || event.OtherEvent? ==> NewRecord(record, event, written) == record
  {
  }

  lemma NextSummary(events: seq<Stored>, stored: Stored, record: Status, written: bool)
    ensures SummaryWithoutSorting(NewRecord(record, stored.event, written), events + [stored]) ==
            NextStatus(SummaryWithoutSorting(record, events), stored.event, written)
  {
    AppendTerminal(events, stored);
    TerminalIsTerminal(events);
  }

  /** Appending moves the reported status as the event says, whether the record is updated or not. */
  lemma AppendIsReported(events: seq<Stored>, stored: Stored, record: Status, written: bool)
    requires Increasing(events) && stored.number == Latest(events) + 1
    ensures SummarizeRunStatus(NewRecord(record, stored.event, written), events + [stored]) ==
            NextStatus(SummarizeRunStatus(record, events), stored.event, written)
  {
    AppendIncreasing(events, stored);
    NextSummary(events, stored, record, written);
    SummaryInOrder(record, events);
    SummaryInOrder(NewRecord(record, stored.event, written), events + [stored]);
  }

  /** Appending keeps the record equal to the reported status unless a terminal update is lost. */
  lemma AppendStaysUpToDate(events: seq<Stored>, stored: Stored, record: Status, cache: Option<nat>, lagging: bool, written: bool)
    requires UpToDate(events, record, cache, lagging) && stored.number == Latest(events) + 1
    ensures UpToDate(events + [stored], NewRecord(record, stored.event, written), Some(stored.number),
                     NewLagging(lagging, stored.event, written))
  {
    AppendIncreasing(events, stored);
    NextSummary(events, stored, record, written);
    if !IsTerminalEvent(stored.event) || written {
      NextIsNew(record, stored.event, written);
    }
  }

  /** The same with the lines of the file, for a process that lives on and for one that dies. */
  lemma AppendedState(lines: seq<Line>, events: seq<Stored>, stored: Stored, record: Status, cache: Option<nat>, lagging: bool,
                      written: bool, dies: bool)
    requires events == StoredEvents(lines) && UpToDate(events, record, cache, lagging) && stored.number == Latest(events) + 1
    ensures StoredEvents(lines + [EventLine(stored)]) == events + [stored]
    ensures UpToDate(events + [stored], NewRecord(record, stored.event, written),
                     if dies then None else Some(stored.number), NewLagging(lagging, stored.event, written))
  {
    AppendLineEvents(lines, EventLine(stored));
    AppendStaysUpToDate(events, stored, record, cache, lagging, written);
  }

  lemma NextIsNew(record: Status, event: Event, written: bool)
    requires !IsTerminalEvent(event) || written
    ensures NextStatus(record, event, written) == NewRecord(record, event, written)
  {
  }

  lemma {:induction false} TerminalIsTerminal(events: seq<Stored>)
    ensures LatestTerminal(events).Some? ==> IsTerminalStatus(LatestTerminal(events).value)
  {
    if events != [] {
      TerminalIsTerminal(events[..|events| - 1]);
    }
  }

  lemma {:induction false} LastEndDecides(events: seq<Stored>)
    ensures forall k :: 0 <= k < |events| && EndsRun(events[k].event) && (forall j :: k < j < |events| ==> !EndsRun(events[j].event)) ==>
      LatestTerminal(events) == Some(match events[k].event case RunCompleted => Completed case RunBlocked => Blocked
                                     case RunFailed => Failed case RunCancelled => Cancelled case _ => Stale)
    ensures (forall k :: 0 <= k < |events| ==> !EndsRun(events[k].event)) ==> LatestTerminal(events).None?
  {
    if events != [] {
      var n := |events| - 1;
      if !EndsRun(events[n].event) {
        LastEndDecides(events[..n]);
      }
    }
  }

  class FileRunStore {
    // on disk
    var lines: seq<Line>
    var record: Status
    // in the memory of the store
    var latestSeqCache: Option<nat>
    /** The events among the lines. */
    ghost var events: seq<Stored>
    /** The latest terminal event did not reach the record. */
    ghost var lagging: bool

    ghost predicate Valid()
      reads this
    {
      events == StoredEvents(lines) && UpToDate(events, record, latestSeqCache, lagging)
    }

    constructor ()
      ensures Valid() && events == [] && record == Pending && !lagging
    {
      lines, record, latestSeqCache, events, lagging := [], Pending, None, [], false;
    }

    /** Reading the whole log: numbers need not be in order for this. */
    method ReadEventFile() returns (found: seq<Stored>, diagnostics: nat, latestSeq: nat)
      ensures found == SortBySeq(StoredEvents(lines)) && latestSeq == Latest(StoredEvents(lines))
      ensures diagnostics == DiagnosticCount(lines)
      ensures diagnostics == |set k: nat | k < |lines| && (lines[k].DiagnosticLine? || lines[k].MalformedLine?)|
    {
      DiagnosticsAreCounted(lines);
      found, diagnostics, latestSeq := [], 0, 0;
      var i := 0;
      while i < |lines|
        invariant 0 <= i <= |lines|
        invariant found == StoredEvents(lines[..i]) && latestSeq == Latest(found) && diagnostics == DiagnosticCount(lines[..i])
      {
        assert lines[..i + 1] == lines[..i] + [lines[i]];
        AppendLineEvents(lines[..i], lines[i]);
        if lines[i].EventLine? {
          assert (found + [lines[i].stored])[..|found|] == found;
          found := found + [lines[i].stored];
          latestSeq := Max(latestSeq, lines[i].stored.number);
        } else if !lines[i].BlankLine? {
          diagnostics := diagnostics + 1;
        }
        i := i + 1;
      }
      assert lines[..i] == lines;
      found := SortBySeq(found);
    }

    method LatestSeq() returns (latest: nat)
      requires Valid()
      modifies this`latestSeqCache
      ensures Valid() && latest == Latest(events) && latestSeqCache == Some(latest)
    {
      if latestSeqCache.Some? {
        return latestSeqCache.value;
      }
      var found, diagnostics;
      found, diagnostics, latest := ReadEventFile();
      latestSeqCache := Some(latest);
    }

    /** Appends an event under the next number and brings the record up to date. The reported status is
        that of the latest terminal event at every point, also if the update is lost. */
    method AppendEvent(event: Event, fault: AppendFault) returns (ok: bool, stored: Stored)
      requires Valid()
      modifies this
      ensures Valid() && ok == (fault.NoFault? || (fault.RecordThrows? && !UpdatesRecord(old(record), event)))
      ensures stored == Stored(Latest(old(events)) + 1, event)
      ensures fault.AppendThrows? ==> events == old(events) && record == old(record) && lagging == old(lagging)
      ensures !fault.AppendThrows? ==>
        && events == old(events) + [stored]
        && record == NewRecord(old(record), event, fault.NoFault?)
        && lagging == NewLagging(old(lagging), event, fault.NoFault?)
      ensures fault.AppendThrows? || fault.DiesAfterAppend? ==> !ok
    {
      var latest := LatestSeq();
      stored := Stored(latest + 1, event);
      if fault.AppendThrows? {
        return false, stored;
      }
      AppendStored(stored, fault.NoFault?, fault.DiesAfterAppend?);
      var upToDate := UpdateFromEvent(event, fault.NoFault?);
      ok := upToDate && !fault.DiesAfterAppend?;
    }

    /** The line in the file, and the sequence number in the memory of a process that lives on. */
    method AppendStored(stored: Stored, ghost written: bool, dies: bool)
      requires Valid() && stored.number == Latest(events) + 1
      modifies this`lines, this`events, this`latestSeqCache, this`lagging
      ensures events == old(events) + [stored] == StoredEvents(lines) && lagging == NewLagging(old(lagging), stored.event, written)
      ensures UpToDate(events, NewRecord(record, stored.event, written), latestSeqCache, lagging)
    {
      AppendedState(lines, events, stored, record, latestSeqCache, lagging, written, dies);
      lines := lines + [EventLine(stored)];
      events := events + [stored];
      lagging := NewLagging(lagging, stored.event, written);
      latestSeqCache := if dies then None else Some(stored.number);
    }

    /** The event's status, if it has one that the run can take. */
    method UpdateFromEvent(event: Event, writes: bool) returns (ok: bool)
      modifies this`record
      ensures record == NewRecord(old(record), event, writes) && ok == (writes || !UpdatesRecord(old(record), event))
    {
      ok := true;
      if UpdatesRecord(record, event) {
        ok := UpdateRun(StatusFromEvent(event).value, writes);
      }
    }

    /** Writes the status; a terminal run does not go back to a status that is not terminal. */
    method UpdateRun(status: Status, writes: bool) returns (ok: bool)
      modifies this`record
      ensures ok == (writes && !(IsTerminalStatus(old(record)) && !IsTerminalStatus(status)))
      ensures record == if ok then status else old(record)
      ensures writes ==> (ok <==> status.Completed? || status.Blocked? || status.Failed? || status.Cancelled? || status.Stale? ||
                                  old(record).Pending? || old(record).Running?)
    {
      if IsTerminalStatus(record) && !IsTerminalStatus(status) {
        return false;
      }
      if writes {
        record := status;
      }
      ok := writes;
    }

    /** A diagnostic, or a line that somebody else left in the file. */
    method AppendLine(line: Line)
      requires Valid() && !line.EventLine?
      modifies this`lines
      ensures Valid() && lines == old(lines) + [line]
    {
      AppendLineEvents(lines, line);
      lines := lines + [line];
    }

    /** A new process opens the store. */
    method Reopen()
      requires Valid()
      modifies this`latestSeqCache
      ensures Valid() && latestSeqCache == None
    {
      latestSeqCache := None;
    }

    /** An append in the life of the log. */
    method PerformAppend(event: Event, fault: AppendFault, ghost survivors: seq<Event>)
      requires Valid() && events == Numbered(survivors)
      modifies this
      ensures Valid()
      ensures events == Numbered(if fault.AppendThrows? then survivors else survivors + [event])
      ensures var was, now := SummarizeRunStatus(old(record), old(events)), SummarizeRunStatus(record, events);
        now == if fault.AppendThrows? then was else NextStatus(was, event, fault.NoFault?)
    {
      AppendTells(survivors, event, record, fault.NoFault?);
      var ok, stored := AppendEvent(event, fault);
    }

    /** One action in the life of the log. */
    method Perform(action: Action, ghost survivors: seq<Event>)
      requires Valid() && events == Numbered(survivors) && (action.Stray? ==> !action.line.EventLine?)
      modifies this
      ensures Valid()
      ensures events == Numbered(if Survives(action) then survivors + [action.event] else survivors)
      ensures var was, now := SummarizeRunStatus(old(record), old(events)), SummarizeRunStatus(record, events);
        now == if Survives(action) then NextStatus(was, action.event, action.fault.NoFault?) else was
    {
      match action {
        case Appended(event, fault) => PerformAppend(event, fault, survivors);
        case Stray(line) => AppendLine(line);
        case Reopened => Reopen();
      }
    }

    method ReadEvents(since: int, limit: Option<nat>) returns (page: Page)
      requires Valid()
      ensures page == PageOf(events, since, limit)
    {
      var found, diagnostics, latestSeq := ReadEventFile();
      SortedAlready(events);
      page := PageOf(found, since, limit);
    }

    /** What is reported for the run. */
    method GetRunStatus() returns (status: Status)
      requires Valid()
      ensures status == SummarizeRunStatus(record, events)
      ensures !lagging ==> status == record
      // the last event that ends the run decides
      ensures forall k :: 0 <= k < |events| && EndsRun(events[k].event) && (forall j :: k < j < |events| ==> !EndsRun(events[j].event)) ==>
                status == match events[k].event case RunCompleted => Completed case RunBlocked => Blocked case RunFailed => Failed
                                                case RunCancelled => Cancelled case _ => Stale
      ensures (forall k :: 0 <= k < |events| ==> !EndsRun(events[k].event)) ==> status == record
    {
      SummaryInOrder(record, events);
      LastEndDecides(events);
      var found, diagnostics, latestSeq := ReadEventFile();
      SortedAlready(events);
      status := SummarizeRunStatus(record, found);
    }
  }

  lemma AppendIncreasing(events: seq<Stored>, stored: Stored)
    requires Increasing(events) && stored.number == Latest(events) + 1
    ensures Increasing(events + [stored]) && Latest(events + [stored]) == stored.number
  {
    assert (events + [stored])[..|events|] == events;
  }

  lemma AppendTerminal(events: seq<Stored>, stored: Stored)
    ensures LatestTerminal(events + [stored]) ==
      if IsTerminalEvent(stored.event) then StatusFromEvent(stored.event) else LatestTerminal(events)
  {
    assert (events + [stored])[..|events|] == events;
  }

  // ------------------------------------------------------------------ whole lives of a log

  datatype Action = Appended(event: Event, fault: AppendFault) | Stray(line: Line) | Reopened

  predicate Survives(action: Action) {
    action.Appended? && !action.fault.AppendThrows?
  }

  /** The events that get into the log. */
  function Survivors(actions: seq<Action>): seq<Event> {
    if actions == [] then []
    else
      var last, before := actions[|actions| - 1], Survivors(actions[..|actions| - 1]);
      if Survives(last) then before + [last.event] else before
  }

  /** The status such a life should lead to. */
  function StatusAfter(actions: seq<Action>): Status {
    if actions == [] then Pending
    else
      var last, before := actions[|actions| - 1], StatusAfter(actions[..|actions| - 1]);
      if Survives(last) then NextStatus(before, last.event, last.fault.NoFault?) else before
  }

  function Numbered(events: seq<Event>): seq<Stored> {
    if events == [] then []
    else Numbered(events[..|events| - 1]) + [Stored(|events|, events[|events| - 1])]
  }

  lemma {:induction false} NumberedLatest(events: seq<Event>)
    ensures |Numbered(events)| == Latest(Numbered(events)) == |events|
    ensures forall i :: 0 <= i < |events| ==> Numbered(events)[i] == Stored(i + 1, events[i])
  {
    if events != [] {
      NumberedLatest(events[..|events| - 1]);
      assert Numbered(events)[..|events| - 1] == Numbered(events[..|events| - 1]);
    }
  }

  lemma NumberedAppend(events: seq<Event>, event: Event)
    ensures Numbered(events + [event]) == Numbered(events) + [Stored(Latest(Numbered(events)) + 1, event)]
  {
    NumberedLatest(events);
    assert (events + [event])[..|events|] == events;
  }

  /** One more event in a log: the numbers, and the status that is reported. */
  lemma AppendTells(survivors: seq<Event>, event: Event, record: Status, updates: bool)
    requires Increasing(Numbered(survivors))
    ensures var before := Numbered(survivors);
      var after := before + [Stored(Latest(before) + 1, event)];
      && after == Numbered(survivors + [event])
      && SummarizeRunStatus(NewRecord(record, event, updates), after) ==
         NextStatus(SummarizeRunStatus(record, before), event, updates)
  {
    var before := Numbered(survivors);
    NumberedAppend(survivors, event);
    AppendIsReported(before, Stored(Latest(before) + 1, event), record, updates);
  }

  lemma WholeLog(events: seq<Stored>)
    requires Increasing(events)
    ensures PageOf(events, 0, None) == Page(events, Latest(events))
  {
    InOrder(events);
    PositionAt(events, 0, 0);
    PageShape(events, 0, None);
  }

  /** The log gets an event exactly if its append does not throw. */
  lemma SurvivorsAre(actions: seq<Action>, last: Action)
    ensures Survivors([]) == []
    ensures Survivors(actions + [last]) == Survivors(actions) + if last.Appended? && last.fault != AppendThrows then [last.event] else []
  {
    assert (actions + [last])[..|actions|] == actions;
  }

  /** An event that ends the run gets into the log. */
  predicate Ending(action: Action) {
    action.Appended? && action.fault != AppendThrows && EndsRun(action.event)
  }

  /** A start reaches the record. */
  predicate Starting(action: Action) {
    action == Appended(RunStarted, NoFault)
  }

  /** The status of a life in which the run ends: that of the last end that gets into the log. */
  lemma {:induction false} StatusOfLastEnd(actions: seq<Action>, i: nat)
    requires i < |actions| && Ending(actions[i]) && forall j :: i < j < |actions| ==> !Ending(actions[j])
    ensures StatusAfter(actions) == match actions[i].event case RunCompleted => Completed case RunBlocked => Blocked
                                    case RunFailed => Failed case RunCancelled => Cancelled case _ => Stale
  {
    var n := |actions| - 1;
    if i < n {
      StatusOfLastEnd(actions[..n], i);
    }
  }

  /** If it does not end it is running as soon as a start has reached the record. */
  lemma {:induction false} StatusWithoutEnd(actions: seq<Action>)
    requires forall i :: 0 <= i < |actions| ==> !Ending(actions[i])
    ensures StatusAfter(actions) == if exists i :: 0 <= i < |actions| && Starting(actions[i]) then Running else Pending
  {
    if actions != [] {
      var n := |actions| - 1;
      StatusWithoutEnd(actions[..n]);
    }
  }

  /** After any appends, failures, crashes, stray lines and new processes, a reader finds exactly the
      appended events, numbered 1, 2, 3, ..., and the reported status is the one they lead to. */
  method LifeOfALog(actions: seq<Action>) returns (page: Page, status: Status)
    requires forall i :: 0 <= i < |actions| && actions[i].Stray? ==> !actions[i].line.EventLine?
    ensures page == Page(Numbered(Survivors(actions)), |Survivors(actions)|)
    ensures status == StatusAfter(actions)
  {
    var store := new FileRunStore();
    var i := 0;
    while i < |actions|
      invariant 0 <= i <= |actions|
      invariant fresh(store) && store.Valid() && store.events == Numbered(Survivors(actions[..i]))
      invariant SummarizeRunStatus(store.record, store.events) == StatusAfter(actions[..i])
    {
      assert actions[..i + 1][..i] == actions[..i];
      store.Perform(actions[i], Survivors(actions[..i]));
      i := i + 1;
    }
    assert actions[..i] == actions;
    NumberedLatest(Survivors(actions));
    WholeLog(store.events);
    page := store.ReadEvents(0, None);
    status := store.GetRunStatus();
  }
}
