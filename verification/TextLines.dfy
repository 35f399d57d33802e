/** Text as lines: joining them, and splitting a text at its newlines. */
module TextLines {
  predicate OneLine(s: string) {
    '\n' !in s
  }

  /** The text of a log that consists of the given complete lines. */
  function Text(lines: seq<string>): string {
    if lines == [] then "" else lines[0] + "\n" + Text(lines[1..])
  }

  /** One more character in front of some pieces. */
  function Prepend(c: char, pieces: seq<string>): (r: seq<string>)
    requires pieces != []
    ensures r != []
  {
    if c == '\n' then [""] + pieces else [[c] + pieces[0]] + pieces[1..]
  }

  /** The pieces of `s` between newlines; there is one more piece than there are newlines. */
  function Split(s: string): (pieces: seq<string>)
    ensures |pieces| > 0
  {
    if s == "" then [""] else Prepend(s[0], Split(s[1..]))
  }

  lemma PrependAppend(c: char, p: seq<string>, q: seq<string>)
    requires p != []
    ensures Prepend(c, p + q) == Prepend(c, p) + q
  {
    if c != '\n' {
      assert (p + q)[0] == p[0] && (p + q)[1..] == p[1..] + q;
    }
  }

  lemma SplitCons(c: char, s: string)
    ensures Split([c] + s) == Prepend(c, Split(s))
  {
    assert ([c] + s)[1..] == s;
  }

  lemma {:induction false} SplitAppend(a: string, b: string)
    ensures Split(a + "\n" + b) == Split(a) + Split(b)
  {
    if a == "" {
      assert a + "\n" + b == ['\n'] + b;
      SplitCons('\n', b);
    } else {
      SplitAppend(a[1..], b);
      SplitCons(a[0], a[1..] + "\n" + b);
      PrependAppend(a[0], Split(a[1..]), Split(b));
      assert a + "\n" + b == [a[0]] + (a[1..] + "\n" + b);
    }
  }

  lemma {:induction false} SplitOneLine(s: string)
    requires OneLine(s)
    ensures Split(s) == [s]
  {
    if s != "" {
      SplitOneLine(s[1..]);
      assert [s[0]] + s[1..] == s;
    }
  }

  /** Splitting undoes joining: a text of complete lines and an incomplete last one splits into them. */
  lemma {:induction false} SplitText(lines: seq<string>, tail: string)
    requires (forall l :: l in lines ==> OneLine(l)) && OneLine(tail)
    ensures Split(Text(lines) + tail) == lines + [tail]
  {
    if lines == [] {
      SplitOneLine(tail);
      assert Text(lines) + tail == tail;
    } else {
      SplitText(lines[1..], tail);
      SplitOneLine(lines[0]);
      SplitAppend(lines[0], Text(lines[1..]) + tail);
      assert Text(lines) + tail == lines[0] + "\n" + (Text(lines[1..]) + tail);
    }
  }

  lemma {:induction false} TextAppend(a: seq<string>, b: seq<string>)
    ensures Text(a + b) == Text(a) + Text(b)
  {
    if a == [] {
      assert a + b == b;
    } else {
      TextAppend(a[1..], b);
      assert (a + b)[1..] == a[1..] + b;
    }
  }

  /** A line without the carriage return that a Windows line end leaves behind. */
  function WithoutReturn(line: string): string {
    if line != "" && line[|line| - 1] == '\r' then line[..|line| - 1] else line
  }

  /** Exactly one carriage return goes, and nothing else. */
  lemma ReturnIsStripped(line: string)
    ensures WithoutReturn(line + "\r") == line
    ensures line == "" || line[|line| - 1] != '\r' ==> WithoutReturn(line) == line
  {
    assert (line + "\r")[..|line|] == line;
  }
}
