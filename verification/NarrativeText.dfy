/** The text of a module's page in the architecture map: printing its narrative and reading it back
    (lib/architecture-map/generator.ts). The page is kept as text; only its front matter is a value. */
module NarrativeText {
  import opened Wrappers
  import opened TextLines

  // ------------------------------------------------------------------ trimming

  /** The characters that JavaScript's trim removes. */
  predicate IsSpace(c: char) {
    var n := c as int;
    9 <= n <= 13 || n == 0x20 || n == 0xa0 || n == 0x1680 || 0x2000 <= n <= 0x200a ||
    n == 0x2028 || n == 0x2029 || n == 0x202f || n == 0x205f || n == 0x3000 || n == 0xfeff
  }

  function TrimStart(s: string): string {
    if s != "" && IsSpace(s[0]) then TrimStart(s[1..]) else s
  }

  function TrimEnd(s: string): string {
    if s != "" && IsSpace(s[|s| - 1]) then TrimEnd(s[..|s| - 1]) else s
  }

  function Trim(s: string): string {
    TrimEnd(TrimStart(s))
  }

  predicate Trimmed(s: string) {
    s == "" || (!IsSpace(s[0]) && !IsSpace(s[|s| - 1]))
  }

  lemma {:induction false} TrimStartShortens(s: string)
    ensures |TrimStart(s)| <= |s|
    ensures TrimStart(s) == "" || !IsSpace(TrimStart(s)[0])
    ensures forall c :: c in TrimStart(s) ==> c in s
  {
    if s != "" && IsSpace(s[0]) {
      TrimStartShortens(s[1..]);
    }
  }

  lemma {:induction false} TrimEndShortens(s: string)
    ensures TrimEnd(s) <= s
    ensures TrimEnd(s) == "" || !IsSpace(TrimEnd(s)[|TrimEnd(s)| - 1])
  {
    if s != "" && IsSpace(s[|s| - 1]) {
      TrimEndShortens(s[..|s| - 1]);
    }
  }

  /** Trimming shortens exactly the texts that are not trimmed. */
  lemma TrimShortensIff(s: string)
    ensures |Trim(s)| <= |s| && (Trim(s) == s <==> Trimmed(s)) && (|Trim(s)| == |s| ==> Trim(s) == s)
    ensures Trimmed(Trim(s)) && forall c :: c in Trim(s) ==> c in s
  {
    TrimStartShortens(s);
    TrimEndShortens(TrimStart(s));
    if |TrimStart(s)| == |s| {
      TrimStartSame(s);
    }
    if Trim(s) != "" {
      assert Trim(s)[0] == TrimStart(s)[0];
    }
  }

  lemma {:induction false} TrimStartCuts(s: string) returns (a: nat)
    ensures a <= |s| && TrimStart(s) == s[a..] && forall i :: 0 <= i < a ==> IsSpace(s[i])
  {
    a := 0;
    if s != "" && IsSpace(s[0]) {
      var rest := TrimStartCuts(s[1..]);
      a := rest + 1;
      assert forall i :: 0 < i < a ==> s[i] == s[1..][i - 1];
    }
  }

  lemma {:induction false} TrimEndCuts(s: string) returns (b: nat)
    ensures b <= |s| && TrimEnd(s) == s[..b] && forall i :: b <= i < |s| ==> IsSpace(s[i])
  {
    b := |s|;
    if s != "" && IsSpace(s[|s| - 1]) {
      b := TrimEndCuts(s[..|s| - 1]);
      assert forall i :: b <= i < |s| - 1 ==> s[i] == s[..|s| - 1][i];
    }
  }

  /** Trimming takes exactly the spaces off both ends. */
  lemma TrimCuts(s: string) returns (a: nat, b: nat)
    ensures a <= b <= |s| && Trim(s) == s[a..b]
    ensures forall i :: 0 <= i < a || b <= i < |s| ==> IsSpace(s[i])
    ensures a < b ==> !IsSpace(s[a]) && !IsSpace(s[b - 1])
  {
    TrimShortensIff(s);
    a := TrimStartCuts(s);
    var end := TrimEndCuts(TrimStart(s));
    b := a + end;
    assert forall i :: b <= i < |s| ==> s[i] == TrimStart(s)[i - a];
  }

  lemma TrimStartSame(s: string)
    requires |TrimStart(s)| == |s|
    ensures TrimStart(s) == s
  {
    if s != "" && IsSpace(s[0]) {
      TrimStartShortens(s[1..]);
    }
  }

  lemma {:induction false} TrimIgnoresNewline(s: string)
    ensures Trim(s + "\n") == Trim(s)
  {
    if s != "" && IsSpace(s[0]) {
      assert (s + "\n")[1..] == s[1..] + "\n";
      TrimIgnoresNewline(s[1..]);
    } else if s == "" {
      assert s + "\n" == "\n" && "\n"[1..] == "";
      assert TrimStart("\n") == TrimStart("") == "";
    } else {
      assert (s + "\n")[..|s|] == s;
    }
  }

  // ------------------------------------------------------------------ lines

  /** JavaScript's join with newlines. */
  function Join(lines: seq<string>): string {
    if lines == [] then "" else if |lines| == 1 then lines[0] else lines[0] + "\n" + Join(lines[1..])
  }

  lemma {:induction false} JoinCons(line: string, lines: seq<string>)
    requires lines != []
    ensures Join([line] + lines) == line + "\n" + Join(lines)
  {
    assert ([line] + lines)[1..] == lines;
  }

  /** Joining undoes splitting. */
  lemma {:induction false} JoinSplit(s: string)
    ensures Join(Split(s)) == s
  {
    if s != "" {
      var rest := Split(s[1..]);
      JoinSplit(s[1..]);
      if s[0] == '\n' {
        JoinCons("", rest);
      } else if |rest| > 1 {
        assert ([[s[0]] + rest[0]] + rest[1..])[1..] == rest[1..];
        assert Join(rest) == rest[0] + "\n" + Join(rest[1..]);
      }
      assert [s[0]] + s[1..] == s;
    }
  }

  lemma {:induction false} SplitPieces(s: string)
    ensures forall i :: 0 <= i < |Split(s)| ==> OneLine(Split(s)[i])
  {
    if s != "" {
      SplitPieces(s[1..]);
      assert OneLine(Split(s[1..])[0]);
    }
  }

  function StripAll(pieces: seq<string>): (r: seq<string>)
    ensures |r| == |pieces|
  {
    seq(|pieces|, i requires 0 <= i < |pieces| => WithoutReturn(pieces[i]))
  }

  /** Splitting at `\r?\n`: a carriage return before a newline goes with it. */
  function Lines(s: string): (lines: seq<string>)
    ensures lines != []
  {
    var pieces := Split(s);
    StripAll(pieces[..|pieces| - 1]) + [pieces[|pieces| - 1]]
  }

  /** The lines of a text that is followed by a newline. */
  function FullLines(s: string): (lines: seq<string>)
    ensures lines != []
  {
    StripAll(Split(s))
  }

  lemma ButLastOfSum(p: seq<string>, q: seq<string>)
    requires q != []
    ensures (p + q)[..|p + q| - 1] == p + q[..|q| - 1] && (p + q)[|p + q| - 1] == q[|q| - 1]
  {
  }

  lemma StripSum(p: seq<string>, q: seq<string>)
    ensures StripAll(p + q) == StripAll(p) + StripAll(q)
  {
  }

  lemma LinesAppend(a: string, b: string)
    ensures Lines(a + "\n" + b) == FullLines(a) + Lines(b)
  {
    SplitAppend(a, b);
    ButLastOfSum(Split(a), Split(b));
    StripSum(Split(a), Split(b)[..|Split(b)| - 1]);
  }

  lemma {:induction false} JoinStripped(pieces: seq<string>)
    ensures |Join(StripAll(pieces))| <= |Join(pieces)|
    ensures |Join(StripAll(pieces))| == |Join(pieces)| ==> StripAll(pieces) == pieces
  {
    if |pieces| > 1 {
      JoinStripped(pieces[1..]);
      assert StripAll(pieces)[1..] == StripAll(pieces[1..]);
      assert pieces == [pieces[0]] + pieces[1..];
    }
  }

  lemma {:induction false} JoinPrefix(lines: seq<string>, k: nat)
    requires k < |lines|
    ensures |Join(lines[..k])| <= |Join(lines)|
    ensures k > 0 ==> |Join(lines[..k])| < |Join(lines)|
  {
    if k > 0 {
      JoinPrefix(lines[1..], k - 1);
      assert lines[..k][1..] == lines[1..][..k - 1];
    }
  }

  lemma {:induction false} JoinBlank(lines: seq<string>)
    requires lines != []
    ensures Join(lines + [""]) == Join(lines) + "\n"
  {
    if |lines| == 1 {
      JoinCons(lines[0], [""]);
      assert lines + [""] == [lines[0]] + [""];
    } else {
      JoinBlank(lines[1..]);
      assert (lines + [""])[1..] == lines[1..] + [""];
    }
  }

  // ------------------------------------------------------------------ the page

  const NARRATIVE := "## Narrative"
  const FILES := "## Files"

  /** The page of a module: `shown` is the text of the narrative, or why there is none. `details` is what
      follows the heading of the file list. */
  function RenderModuleBody(resource: string, oneLiner: string, shown: string, details: string): string {
    "# " + resource + "\n" + ("" + "\n" + (oneLiner + "\n" + ("" + "\n" + (NARRATIVE + "\n" +
    (shown + "\n" + ("" + "\n" + (FILES + "\n" + details)))))))
  }

  /** JavaScript's indexOf from a start: the first position of a line, or -1. */
  function FindLine(lines: seq<string>, from: nat, line: string): (index: int)
    ensures index == -1 || from <= index < |lines|
    ensures index >= 0 ==> lines[index] == line && forall i :: from <= i < index ==> lines[i] != line
    ensures index == -1 ==> forall i :: from <= i < |lines| ==> lines[i] != line
    decreases |lines| - from
  {
    if from >= |lines| then -1
    else if lines[from] == line then from
    else FindLine(lines, from + 1, line)
  }

  function FirstNonBlank(lines: seq<string>): Option<string> {
    if lines == [] then None
    else if Trim(lines[0]) != "" then Some(Trim(lines[0]))
    else FirstNonBlank(lines[1..])
  }

  /** The heading comes later than this line, or not at all. */
  predicate IsBefore(lines: seq<string>, i: nat, heading: string) {
    forall j :: 0 <= j <= i && j < |lines| ==> lines[j] != heading
  }

  /** The source's loop from the second line to the heading. */
  method ExtractOneLineNarrative(content: string) returns (found: Option<string>)
    ensures found == OneLineOf(Lines(content), NARRATIVE)
    // the first line after the title that is not blank, unless the heading comes first
    ensures IsFirstLine(Lines(content), NARRATIVE, found)
  {
    var lines := Lines(content);
    var heading := FindLine(lines, 0, NARRATIVE);
    var searchEnd := if heading == -1 then |lines| else heading;
    var index := 1;
    ghost var start := if searchEnd < 1 then searchEnd else 1;
    while index < searchEnd
      invariant 1 <= index && (index <= searchEnd || index == 1)
      invariant index <= searchEnd ==>
        FirstNonBlank(lines[start..searchEnd]) == FirstNonBlank(lines[index..searchEnd])
    {
      var line := Trim(lines[index]);
      assert lines[index..searchEnd][1..] == lines[index + 1..searchEnd];
      if line != "" {
        found := Some(line);
        FirstLineMeans(lines, NARRATIVE);
        return;
      }
      index := index + 1;
    }
    found := None;
    FirstLineMeans(lines, NARRATIVE);
  }

  /** `found` is the first line after the title that is not blank, trimmed, if it comes before the heading. */
  ghost predicate IsFirstLine(lines: seq<string>, heading: string, found: Option<string>) {
    match found
    case Some(line) =>
      exists i :: 1 <= i < |lines| && IsBefore(lines, i, heading) && line == Trim(lines[i]) != "" && BlankUpTo(lines, i)
    case None =>
      forall i :: 1 <= i < |lines| && IsBefore(lines, i, heading) ==> Trim(lines[i]) == ""
  }

  predicate BlankUpTo(lines: seq<string>, i: nat) {
    forall j :: 1 <= j < i && j < |lines| ==> Trim(lines[j]) == ""
  }

  lemma {:induction false} FirstNonBlankIs(lines: seq<string>, from: nat, end: nat)
    requires from <= end <= |lines|
    ensures var found := FirstNonBlank(lines[from..end]);
      if found.None? then forall i :: from <= i < end ==> Trim(lines[i]) == ""
      else exists i :: from <= i < end && found.value == Trim(lines[i]) != "" && forall j :: from <= j < i ==> Trim(lines[j]) == ""
    decreases end - from
  {
    if from < end {
      assert lines[from..end][1..] == lines[from + 1..end];
      if Trim(lines[from]) == "" {
        FirstNonBlankIs(lines, from + 1, end);
      }
    }
  }

  lemma BeforeIff(lines: seq<string>, i: nat, heading: string)
    requires i < |lines|
    ensures IsBefore(lines, i, heading) <==> FindLine(lines, 0, heading) == -1 || i < FindLine(lines, 0, heading)
  {
  }

  lemma FirstLineMeans(lines: seq<string>, heading: string)
    requires lines != []
    ensures IsFirstLine(lines, heading, OneLineOf(lines, heading))
  {
    var at := FindLine(lines, 0, heading);
    var end := if at == -1 then |lines| else at;
    if end >= 1 {
      FirstNonBlankIs(lines, 1, end);
    }
    forall i | 1 <= i < |lines| ensures IsBefore(lines, i, heading) <==> i < end {
      BeforeIff(lines, i, heading);
    }
    var found := OneLineOf(lines, heading);
    if found.Some? {
      var i :| 1 <= i < end && found.value == Trim(lines[i]) != "" && forall j :: 1 <= j < i ==> Trim(lines[j]) == "";
      assert BlankUpTo(lines, i);
    }
  }

  function OneLineOf(lines: seq<string>, narrative: string): Option<string> {
    var heading := FindLine(lines, 0, narrative);
    var searchEnd := if heading == -1 then |lines| else heading;
    FirstNonBlank(lines[if searchEnd < 1 then searchEnd else 1..searchEnd])
  }

  function SectionOf(lines: seq<string>, startHeading: string, endHeading: string): Option<string> {
    var start := FindLine(lines, 0, startHeading);
    if start == -1 then None
    else
      var end := FindLine(lines, start + 1, endHeading);
      var body := Trim(Join(lines[start + 1..if end == -1 then |lines| else end]));
      if body != "" then Some(body) else None
  }

  function ExtractSection(content: string, startHeading: string, endHeading: string): Option<string> {
    SectionOf(Lines(content), startHeading, endHeading)
  }

  // ------------------------------------------------------------------ reading back what was printed

  /** One line, trimmed, not empty, and not the heading that ends the search. */
  predicate GoodOneLiner(s: string, narrative: string) {
    s != "" && Trimmed(s) && OneLine(s) && s != narrative
  }

  /** Trimmed, not empty, no line that is the next heading, no carriage return before a newline. */
  predicate GoodText(s: string, files: string) {
    s != "" && Trimmed(s) && FullLines(s) == Split(s) && files !in Split(s)
  }

  lemma SingleLine(s: string)
    requires PlainLine(s)
    ensures FullLines(s) == [s]
  {
    SplitOneLine(s);
  }

  /** A plain line of its own is a good text. */
  lemma GoodSingleLine(s: string, files: string)
    requires PlainLine(s) && s != "" && Trimmed(s) && s != files
    ensures GoodText(s, files)
  {
    SingleLine(s);
    SplitOneLine(s);
  }

  predicate PlainLine(s: string) {
    OneLine(s) && (s == "" || s[|s| - 1] != '\r')
  }

  lemma LinesOfSection(heading: string, shown: string, next: string, details: string)
    requires PlainLine(heading) && PlainLine(next)
    ensures Lines(heading + "\n" + (shown + "\n" + ("" + "\n" + (next + "\n" + details)))) ==
      [heading] + (FullLines(shown) + ([""] + ([next] + Lines(details))))
  {
    var h := next + "\n" + details;
    var g := "" + "\n" + h;
    LinesAppend(heading, shown + "\n" + g);
    LinesAppend(shown, g);
    LinesAppend("", h);
    LinesAppend(next, details);
    SingleLine(heading);
    SingleLine(next);
    SingleLine("");
  }

  lemma HeadingsArePlain()
    ensures PlainLine(NARRATIVE) && PlainLine(FILES)
  {
  }

  lemma LinesAfterBlank(rest: string)
    ensures Lines("" + "\n" + rest) == [""] + Lines(rest)
  {
    LinesAppend("", rest);
    SingleLine("");
  }

  /** The lines of a text after a blank line and a summary. */
  lemma LinesOfSummary(first: string, oneLiner: string, rest: string)
    requires OneLine(first)
    ensures Lines(first + "\n" + ("" + "\n" + (oneLiner + "\n" + ("" + "\n" + rest)))) ==
      [WithoutReturn(first)] + ([""] + (FullLines(oneLiner) + ([""] + Lines(rest))))
  {
    var d := "" + "\n" + rest;
    LinesAfterBlank(rest);
    LinesAfterBlank(oneLiner + "\n" + d);
    LinesAppend(oneLiner, d);
    LinesAppend(first, "" + "\n" + (oneLiner + "\n" + d));
    SplitOneLine(first);
  }

  /** The lines of a page. */
  lemma LinesOfBody(resource: string, oneLiner: string, shown: string, details: string)
    requires OneLine(resource)
    ensures Lines(RenderModuleBody(resource, oneLiner, shown, details)) ==
      [WithoutReturn("# " + resource)] + ([""] + (FullLines(oneLiner) + ([""] + ([NARRATIVE] +
      (FullLines(shown) + ([""] + ([FILES] + Lines(details))))))))
  {
    HeadingsArePlain();
    LinesOfSection(NARRATIVE, shown, FILES, details);
    LinesOfSummary("# " + resource, oneLiner, NARRATIVE + "\n" + (shown + "\n" + ("" + "\n" + (FILES + "\n" + details))));
  }

  lemma FoundAt(lines: seq<string>, from: nat, line: string, at: nat)
    requires from <= at < |lines| && lines[at] == line && forall i :: from <= i < at ==> lines[i] != line
    ensures FindLine(lines, from, line) == at
  {
  }

  lemma TitleIsNoHeading(resource: string)
    ensures WithoutReturn("# " + resource) != NARRATIVE
  {
    var title := "# " + resource;
    assert title[1] == ' ' && NARRATIVE[1] == '#';
  }

  lemma {:induction false} FirstNonBlankIsGood(lines: seq<string>)
    requires forall l :: l in lines ==> OneLine(l)
    ensures var r := FirstNonBlank(lines); r.Some? ==> r.value != "" && Trimmed(r.value) && OneLine(r.value)
  {
    if lines != [] {
      TrimShortensIff(lines[0]);
      assert OneLine(lines[0]);
      FirstNonBlankIsGood(lines[1..]);
    }
  }

  lemma FullLinesAreLines(s: string)
    ensures forall l :: l in FullLines(s) ==> OneLine(l)
  {
    SplitPieces(s);
  }

  /** The lines of a page between its title and the rest after the narrative's heading. */
  function Head(title: string, oneLiner: string): seq<string> {
    [title] + ([""] + (FullLines(oneLiner) + [""]))
  }

  lemma GoodOneLinerReadsBack(title: string, narrative: string, oneLiner: string, rest: seq<string>)
    requires title != narrative && narrative != "" && GoodOneLiner(oneLiner, narrative)
    ensures OneLineOf(Head(title, oneLiner) + ([narrative] + rest), narrative) == Some(oneLiner)
  {
    var lines := Head(title, oneLiner) + ([narrative] + rest);
    SingleLine(oneLiner);
    assert lines[0] == title && lines[1] == "" && lines[2] == oneLiner && lines[3] == "" && lines[4] == narrative;
    FoundAt(lines, 0, narrative, 4);
    TrimShortensIff(oneLiner);
    assert Trim("") == "";
    assert lines[1..4][0] == "" && lines[1..4][1..] == lines[2..4];
    assert lines[2..4][0] == oneLiner;
    assert FirstNonBlank(lines[2..4]) == Some(oneLiner);
  }

  lemma HeadingIsNoOneLiner(title: string, narrative: string, rest: seq<string>)
    requires title != narrative && PlainLine(narrative) && narrative != ""
    ensures OneLineOf(Head(title, narrative) + ([narrative] + rest), narrative) == None
  {
    var lines := Head(title, narrative) + ([narrative] + rest);
    SingleLine(narrative);
    assert lines[0] == title && lines[1] == "" && lines[2] == narrative;
    FoundAt(lines, 0, narrative, 2);
    assert FirstNonBlank([""]) == None by {
      assert Trim("") == "" && [""][1..] == [];
    }
    assert lines[1..2] == [""];
  }

  lemma OneLinerReadsBack(title: string, narrative: string, oneLiner: string, rest: seq<string>)
    requires title != narrative && PlainLine(narrative) && narrative != ""
    requires OneLineOf(Head(title, oneLiner) + ([narrative] + rest), narrative) == Some(oneLiner)
    ensures GoodOneLiner(oneLiner, narrative)
  {
    var o, head := FullLines(oneLiner), Head(title, oneLiner);
    var lines := head + ([narrative] + rest);
    var heading := FindLine(lines, 0, narrative);
    assert lines[|head|] == narrative;
    assert lines[0] == title && lines[1] == "";
    assert 2 <= heading <= |head|;
    var searched := lines[1..heading];
    forall l | l in searched ensures OneLine(l) {
      var i :| 1 <= i < heading && lines[i] == l;
      assert head[i] == l;
      assert l == "" || l in o;
      FullLinesAreLines(oneLiner);
    }
    FirstNonBlankIsGood(searched);
    HeadingIsNoOneLiner(title, narrative, rest);
  }

  function NotEmpty(s: string): Option<string> {
    if s != "" then Some(s) else None
  }

  lemma SectionWhole(head: seq<string>, narrative: string, text: seq<string>, files: string, details: seq<string>)
    requires narrative !in head && files !in text && files != ""
    ensures var lines := head + ([narrative] + (text + ([""] + ([files] + details))));
      SectionOf(lines, narrative, files) == NotEmpty(Trim(Join(text + [""])))
  {
    var lines := head + ([narrative] + (text + ([""] + ([files] + details))));
    var start, end := |head|, |head| + 1 + |text| + 1;
    forall i | 0 <= i < start ensures lines[i] != narrative {
      assert lines[i] == head[i];
    }
    FoundAt(lines, 0, narrative, start);
    forall i | start + 1 <= i < end ensures lines[i] != files {
      assert lines[i] == (text + [""])[i - start - 1];
    }
    assert lines[end] == files;
    FoundAt(lines, start + 1, files, end);
    assert lines[start + 1..end] == text + [""];
  }

  lemma SectionCut(head: seq<string>, narrative: string, text: seq<string>, files: string, rest: seq<string>, k: nat)
    requires narrative !in head && k < |text| && text[k] == files && files !in text[..k]
    ensures SectionOf(head + ([narrative] + (text + rest)), narrative, files) == NotEmpty(Trim(Join(text[..k])))
  {
    var lines := head + ([narrative] + (text + rest));
    var start := |head|;
    forall i | 0 <= i < start ensures lines[i] != narrative {
      assert lines[i] == head[i];
    }
    FoundAt(lines, 0, narrative, start);
    forall i | start + 1 <= i < start + 1 + k ensures lines[i] != files {
      assert lines[i] == text[..k][i - start - 1];
    }
    assert lines[start + 1 + k] == text[k];
    FoundAt(lines, start + 1, files, start + 1 + k);
    assert lines[start + 1..start + 1 + k] == text[..k];
  }

  /** The text comes back from its section exactly if it is a good text. */
  lemma TextReadsBackIff(head: seq<string>, narrative: string, shown: string, files: string, details: seq<string>)
    requires narrative !in head && files != ""
    ensures SectionOf(head + ([narrative] + (FullLines(shown) + ([""] + ([files] + details)))), narrative, files) == Some(shown)
      <==> GoodText(shown, files)
  {
    var pieces, text := Split(shown), FullLines(shown);
    JoinSplit(shown);
    JoinStripped(pieces);
    TrimShortensIff(shown);
    var k := FindLine(text, 0, files);
    if k == -1 {
      SectionWhole(head, narrative, text, files, details);
      JoinBlank(text);
      TrimIgnoresNewline(Join(text));
      TrimShortensIff(Join(text));
    } else {
      SectionCut(head, narrative, text, files, [""] + ([files] + details), k);
      TrimShortensIff(Join(text[..k]));
      JoinPrefix(text, k);
      assert text[k] == files;
      assert k == 0 ==> Join(text[..k]) == "";
    }
  }

  /** Printing and reading back: a page gives back its one-line summary and its text exactly if the
      summary is a good one-liner and the text is a good text. */
  lemma PageReadsBackIff(resource: string, oneLiner: string, shown: string, details: string)
    requires OneLine(resource)
    ensures var content := RenderModuleBody(resource, oneLiner, shown, details);
      OneLineOf(Lines(content), NARRATIVE) == Some(oneLiner) && ExtractSection(content, NARRATIVE, FILES) == Some(shown)
      <==> GoodOneLiner(oneLiner, NARRATIVE) && GoodText(shown, FILES)
  {
    HeadingsArePlain();
    TitleIsNoHeading(resource);
    LinesOfBody(resource, oneLiner, shown, details);
    LinesReadBackIff(WithoutReturn("# " + resource), oneLiner, NARRATIVE, shown, FILES, Lines(details));
  }

  lemma LinesReadBackIff(title: string, oneLiner: string, narrative: string, shown: string, files: string, details: seq<string>)
    requires title != narrative && PlainLine(narrative) && narrative != "" && files != ""
    ensures var lines := [title] + ([""] + (FullLines(oneLiner) + ([""] + ([narrative] +
        (FullLines(shown) + ([""] + ([files] + details)))))));
      OneLineOf(lines, narrative) == Some(oneLiner) && SectionOf(lines, narrative, files) == Some(shown)
      <==> GoodOneLiner(oneLiner, narrative) && GoodText(shown, files)
  {
    var head := Head(title, oneLiner);
    var rest := FullLines(shown) + ([""] + ([files] + details));
    var lines := [title] + ([""] + (FullLines(oneLiner) + ([""] + ([narrative] + rest))));
    assert lines == head + ([narrative] + rest);
    if OneLineOf(lines, narrative) == Some(oneLiner) {
      OneLinerReadsBack(title, narrative, oneLiner, rest);
    }
    if GoodOneLiner(oneLiner, narrative) {
      GoodOneLinerReadsBack(title, narrative, oneLiner, rest);
      SingleLine(oneLiner);
      assert head == [title, "", oneLiner, ""];
      TextReadsBackIff(head, narrative, shown, files, details);
    }
  }

  /** Which summaries come back, whatever the text is. */
  lemma OneLinerAloneIff(resource: string, oneLiner: string, shown: string, details: string)
    requires OneLine(resource)
    ensures OneLineOf(Lines(RenderModuleBody(resource, oneLiner, shown, details)), NARRATIVE) == Some(oneLiner)
      <==> GoodOneLiner(oneLiner, NARRATIVE)
  {
    HeadingsArePlain();
    TitleIsNoHeading(resource);
    LinesOfBody(resource, oneLiner, shown, details);
    OneLinerInPageIff(WithoutReturn("# " + resource), oneLiner, NARRATIVE, shown, FILES, Lines(details));
  }

  lemma OneLinerInPageIff(title: string, oneLiner: string, narrative: string, shown: string, files: string, details: seq<string>)
    requires title != narrative && PlainLine(narrative) && narrative != ""
    ensures OneLineOf([title] + ([""] + (FullLines(oneLiner) + ([""] + ([narrative] +
      (FullLines(shown) + ([""] + ([files] + details))))))), narrative) == Some(oneLiner)
      <==> GoodOneLiner(oneLiner, narrative)
  {
    var rest := FullLines(shown) + ([""] + ([files] + details));
    var lines := Head(title, oneLiner) + ([narrative] + rest);
    assert [title] + ([""] + (FullLines(oneLiner) + ([""] + ([narrative] + rest)))) == lines;
    if GoodOneLiner(oneLiner, narrative) {
      GoodOneLinerReadsBack(title, narrative, oneLiner, rest);
    } else if OneLineOf(lines, narrative) == Some(oneLiner) {
      OneLinerReadsBack(title, narrative, oneLiner, rest);
    }
  }

  // ------------------------------------------------------------------ pages that come out the same

  /** What is printed between a summary and a text. */
  function Middle(heading: string): string {
    "\n\n" + heading + "\n"
  }

  predicate GoodPage(oneLiner: string, shown: string) {
    GoodOneLiner(oneLiner, NARRATIVE) && GoodText(shown, FILES)
  }

  /** The summary holds the heading of the narrative itself, at `i`, and with everything after that as the
      text the page would be good. */
  predicate HeadingAt(oneLiner: string, shown: string, i: nat) {
    var n := |Middle(NARRATIVE)|;
    && i + n <= |oneLiner| && oneLiner[i..i + n] == Middle(NARRATIVE)
    && GoodPage(oneLiner[..i], oneLiner[i + n..] + Middle(NARRATIVE) + shown)
  }

  predicate HidesHeading(oneLiner: string, shown: string) {
    exists i: nat | i < |oneLiner| :: HeadingAt(oneLiner, shown, i)
  }

  lemma Cancel(front: string, a: string, b: string, back: string)
    requires front + a + back == front + b + back
    ensures a == b
  {
    assert |front + a + back| == |front + b + back|;
    assert a == (front + a + back)[|front|..|front| + |a|];
    assert b == (front + b + back)[|front|..|front| + |b|];
  }

  lemma RenderIsSandwich(resource: string, oneLiner: string, shown: string, details: string)
    ensures RenderModuleBody(resource, oneLiner, shown, details) ==
      ("# " + resource + "\n\n") + (oneLiner + Middle(NARRATIVE) + shown) + ("\n\n" + FILES + "\n" + details)
  {
  }

  lemma SameBody(resource: string, a: string, b: string, o: string, t: string, details: string)
    ensures RenderModuleBody(resource, a, b, details) == RenderModuleBody(resource, o, t, details)
      <==> a + Middle(NARRATIVE) + b == o + Middle(NARRATIVE) + t
  {
    RenderIsSandwich(resource, a, b, details);
    RenderIsSandwich(resource, o, t, details);
    if RenderModuleBody(resource, a, b, details) == RenderModuleBody(resource, o, t, details) {
      Cancel("# " + resource + "\n\n", a + Middle(NARRATIVE) + b, o + Middle(NARRATIVE) + t, "\n\n" + FILES + "\n" + details);
    }
  }

  lemma MiddleChars(h: string)
    requires OneLine(h)
    ensures var m := Middle(h); |m| == |h| + 3 && m[0] == '\n' && m[1] == '\n' && m[|h| + 2] == '\n'
    ensures forall k :: 2 <= k < |h| + 2 ==> Middle(h)[k] != '\n'
  {
    forall k | 2 <= k < |h| + 2 ensures Middle(h)[k] != '\n' {
      assert Middle(h)[k] == h[k - 2];
    }
  }

  /** The separator does not overlap itself where a good summary ends and a good text begins. */
  lemma NoOverlap(all: string, a: nat, o: nat, h: string)
    requires OneLine(h) && h != "" && a < o < a + |Middle(h)| < |all| && o + |Middle(h)| <= |all|
    requires all[a..a + |Middle(h)|] == Middle(h) && all[o..o + |Middle(h)|] == Middle(h)
    ensures all[a + |Middle(h)|] == '\n'
  {
    var m, k := Middle(h), o - a;
    MiddleChars(h);
    assert all[o] == m[0] && all[o] == m[k];
    assert all[o + 1] == m[1] && all[a + 2] == m[2];
  }

  lemma Pieces(a: string, m: string, b: string)
    ensures var all := a + m + b;
      && |all| == |a| + |m| + |b| && all[..|a|] == a && all[|a|..|a| + |m|] == m && all[|a| + |m|..] == b
  {
  }

  /** Where a text with the separator in it can be cut: the pieces with a one-line summary and a text that
      does not start with a newline. */
  lemma CutAgain(a: string, b: string, o: string, t: string, h: string)
    requires OneLine(a) && OneLine(h) && h != "" && b != "" && b[0] != '\n'
    requires a + Middle(h) + b == o + Middle(h) + t
    ensures (a == o && b == t) ||
      (var n := |a| + |Middle(h)|; n <= |o| && a == o[..|a|] && o[|a|..n] == Middle(h) && b == o[n..] + Middle(h) + t)
  {
    var m := Middle(h);
    var all := a + m + b;
    Pieces(a, m, b);
    Pieces(o, m, t);
    MiddleChars(h);
    assert all[|o|] == m[0] && all[|a| + |m|] == b[0];
    if |o| < |a| {
      assert false;
    } else if |a| < |o| < |a| + |m| {
      NoOverlap(all, |a|, |o|, h);
      assert false;
    } else if |a| < |o| {
      CutLater(all, a, o, m, t);
    }
  }

  lemma CutLater(all: string, a: string, o: string, m: string, t: string)
    requires all == o + m + t && |a| + |m| <= |o| && all[..|a|] == a && all[|a|..|a| + |m|] == m
    ensures a == o[..|a|] && o[|a|..|a| + |m|] == m && all[|a| + |m|..] == o[|a| + |m|..] + m + t
  {
    assert all[..|a|] == o[..|a|];
    assert all[|a|..|a| + |m|] == o[|a|..|a| + |m|];
  }

  /** A page that is printed like a good one, but from other pieces. */
  lemma PrintedLikeGood(a: string, b: string, o: string, t: string)
    requires GoodPage(a, b) && a + Middle(NARRATIVE) + b == o + Middle(NARRATIVE) + t
    ensures GoodPage(o, t) || HidesHeading(o, t)
  {
    HeadingsArePlain();
    CutAgain(a, b, o, t, NARRATIVE);
    if !(a == o && b == t) {
      assert HeadingAt(o, t, |a|);
    }
  }

  lemma FourLines(a: string, h: string, c: string)
    requires OneLine(a) && OneLine(h) && OneLine(c)
    ensures Split(a + Middle(h) + c) == [a, "", h, c]
  {
    assert a + Middle(h) + c == a + "\n" + ("" + "\n" + (h + "\n" + c));
    SplitAppend(a, "" + "\n" + (h + "\n" + c));
    SplitAppend("", h + "\n" + c);
    SplitAppend(h, c);
    SplitOneLine(a);
    SplitOneLine(h);
    SplitOneLine(c);
  }

  /** There are such pages: the summary is printed over several lines, with the heading among them. */
  lemma SomePagesHideHeading(a: string, b: string, c: string)
    requires GoodOneLiner(a, NARRATIVE) && PlainLine(b) && b != "" && Trimmed(b) && b != FILES
    requires PlainLine(c) && c != "" && Trimmed(c) && c != FILES
    ensures var o := a + Middle(NARRATIVE) + b;
      HidesHeading(o, c) && !GoodPage(o, c)
  {
    var o, m, t := a + Middle(NARRATIVE) + b, Middle(NARRATIVE), b + Middle(NARRATIVE) + c;
    HeadingsArePlain();
    FourLines(b, NARRATIVE, c);
    assert NARRATIVE != FILES;
    Pieces(a, m, b);
    assert t[0] == b[0] && t[|t| - 1] == c[|c| - 1];
    assert GoodText(t, FILES);
    assert HeadingAt(o, c, |a|);
    assert o[|a|] == m[0];
  }

  lemma HiddenIsPrintedLikeGood(o: string, t: string, i: nat)
    requires HeadingAt(o, t, i)
    ensures var m := Middle(NARRATIVE); o[..i] + m + (o[i + |m|..] + m + t) == o + m + t
  {
    var m := Middle(NARRATIVE);
    assert o == o[..i] + m + o[i + |m|..];
  }

  /** What is read back from a page is printed like the page exactly if it is good, or its summary hides
      the heading. */
  lemma BodyIsStableIff(resource: string, o: string, t: string, details: string)
    requires OneLine(resource)
    ensures var body := RenderModuleBody(resource, o, t, details);
      var a, b := OneLineOf(Lines(body), NARRATIVE), ExtractSection(body, NARRATIVE, FILES);
      a.Some? && b.Some? && RenderModuleBody(resource, a.value, b.value, details) == body
      <==> GoodPage(o, t) || HidesHeading(o, t)
  {
    var body := RenderModuleBody(resource, o, t, details);
    var a, b := OneLineOf(Lines(body), NARRATIVE), ExtractSection(body, NARRATIVE, FILES);
    if a.Some? && b.Some? && RenderModuleBody(resource, a.value, b.value, details) == body {
      PageReadsBackIff(resource, a.value, b.value, details);
      SameBody(resource, a.value, b.value, o, t, details);
      PrintedLikeGood(a.value, b.value, o, t);
    }
    if GoodPage(o, t) {
      PageReadsBackIff(resource, o, t, details);
    } else if HidesHeading(o, t) {
      var i: nat :| i < |o| && HeadingAt(o, t, i);
      var n := i + |Middle(NARRATIVE)|;
      HiddenIsPrintedLikeGood(o, t, i);
      SameBody(resource, o[..i], o[n..] + Middle(NARRATIVE) + t, o, t, details);
      PageReadsBackIff(resource, o[..i], o[n..] + Middle(NARRATIVE) + t, details);
    }
  }
}
