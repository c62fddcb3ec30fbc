/**
 * The lines of xdelta3's message buffer, as `std::getline` with delimiter
 * '\n' yields them: a final line break does not start another line, and an
 * empty buffer has no lines.
 */
module Messages {
  import opened LineEnds

  /** The lines still to come, with `cur` already read of the current one. */
  function LinesFrom(cur: string, s: string): seq<string>
    decreases |s|
  {
    if s == [] then (if cur == [] then [] else [cur])
    else if s[0] == LF then [cur] + LinesFrom([], s[1..])
    else LinesFrom(cur + [s[0]], s[1..])
  }

  /** The lines `SplitMessageByLine` returns for `s`. */
  function Lines(s: string): seq<string> {
    LinesFrom([], s)
  }

  /** Lines joined back with line breaks between them. */
  function Join(lines: seq<string>): string {
    if |lines| == 0 then []
    else if |lines| == 1 then lines[0]
    else lines[0] + [LF] + Join(lines[1..])
  }

  /** The line break that a final line break leaves out of `Join(Lines(s))`. */
  function TrailingBreak(s: string): string {
    if s != [] && s[|s| - 1] == LF then [LF] else []
  }

  /** Where the first line of `s` ends: at its first line break, or at its end. */
  function LineEnd(s: string): (k: nat)
    ensures k <= |s|
    ensures LF !in s[..k]
    ensures k < |s| ==> s[k] == LF
  {
    if s == [] || s[0] == LF then 0
    else
      var k := LineEnd(s[1..]);
      assert s[..k + 1] == [s[0]] + s[1..][..k];
      k + 1
  }

  /** What `Process` reports as the message: the first line, or the whole buffer when it has no lines. */
  function FirstLine(messages: string): string {
    var lines := Lines(messages);
    if |lines| > 0 then lines[0] else messages
  }

  lemma {:induction false} LinesFromHaveNoBreak(cur: string, s: string)
    requires LF !in cur
    ensures forall i :: 0 <= i < |LinesFrom(cur, s)| ==> LF !in LinesFrom(cur, s)[i]
    decreases |s|
  {
    if s != [] {
      if s[0] == LF {
        LinesFromHaveNoBreak([], s[1..]);
      } else {
        LinesFromHaveNoBreak(cur + [s[0]], s[1..]);
      }
    }
  }

  /** No line holds a line break. */
  lemma LinesHaveNoBreak(s: string)
    ensures forall i :: 0 <= i < |Lines(s)| ==> LF !in Lines(s)[i]
  {
    LinesFromHaveNoBreak([], s);
  }

  lemma {:induction false} LinesFromNonEmpty(cur: string, s: string)
    requires s != [] || cur != []
    ensures |LinesFrom(cur, s)| > 0
    decreases |s|
  {
    if s != [] && s[0] != LF {
      LinesFromNonEmpty(cur + [s[0]], s[1..]);
    }
  }

  /** Joining two or more lines puts a line break after the first. */
  lemma JoinCons(first: string, rest: seq<string>)
    requires |rest| > 0
    ensures Join([first] + rest) == first + [LF] + Join(rest)
  {
    assert ([first] + rest)[1..] == rest;
  }

  /** A line break followed by more text ends the current line. */
  lemma JoinBreakStep(cur: string, s: string)
    requires |s| >= 2 && s[0] == LF
    requires Join(LinesFrom([], s[1..])) + TrailingBreak(s[1..]) == s[1..]
    ensures Join(LinesFrom(cur, s)) + TrailingBreak(s) == cur + s
  {
    var rest := s[1..];
    var later := LinesFrom([], rest);
    LinesFromNonEmpty([], rest);
    assert LinesFrom(cur, s) == [cur] + later;
    JoinCons(cur, later);
    assert TrailingBreak(s) == TrailingBreak(rest);
    assert s == [LF] + rest;
  }

  /** Any other character extends the current line. */
  lemma JoinCharStep(cur: string, s: string)
    requires s != [] && s[0] != LF
    requires Join(LinesFrom(cur + [s[0]], s[1..])) + TrailingBreak(s[1..]) == cur + [s[0]] + s[1..]
    ensures Join(LinesFrom(cur, s)) + TrailingBreak(s) == cur + s
  {
    assert LinesFrom(cur, s) == LinesFrom(cur + [s[0]], s[1..]);
    assert TrailingBreak(s) == TrailingBreak(s[1..]) by {
      assert s[|s| - 1] != LF || |s| > 1;
      if |s| > 1 {
        assert s[1..][|s| - 2] == s[|s| - 1];
      }
    }
    HeadThenTail(cur, s);
  }

  lemma HeadThenTail(cur: string, s: string)
    requires s != []
    ensures cur + [s[0]] + s[1..] == cur + s
  {
    assert [s[0]] + s[1..] == s;
  }

  lemma {:induction false} JoinLinesFrom(cur: string, s: string)
    ensures Join(LinesFrom(cur, s)) + TrailingBreak(s) == cur + s
    decreases |s|
  {
    if s != [] {
      if s[0] == LF {
        if |s| == 1 {
          assert LinesFrom(cur, s) == [cur];
        } else {
          JoinLinesFrom([], s[1..]);
          JoinBreakStep(cur, s);
        }
      } else {
        JoinLinesFrom(cur + [s[0]], s[1..]);
        JoinCharStep(cur, s);
      }
    }
  }

  /** Joining the lines with line breaks gives the buffer back, up to a final line break. */
  lemma JoinLines(s: string)
    ensures Join(Lines(s)) + TrailingBreak(s) == s
  {
    JoinLinesFrom([], s);
  }

  lemma {:induction false} FirstOfLinesFrom(cur: string, s: string)
    requires |LinesFrom(cur, s)| > 0
    ensures LinesFrom(cur, s)[0] == cur + s[..LineEnd(s)]
    decreases |s|
  {
    if s != [] && s[0] != LF {
      FirstOfLinesFrom(cur + [s[0]], s[1..]);
      assert s[..LineEnd(s)] == [s[0]] + s[1..][..LineEnd(s[1..])];
    }
  }

  /** The message `Process` reports is the buffer up to its first line break. */
  lemma FirstLineIsPrefix(messages: string)
    ensures FirstLine(messages) == messages[..LineEnd(messages)]
  {
    if |Lines(messages)| > 0 {
      FirstOfLinesFrom([], messages);
    } else if messages != [] {
      LinesFromNonEmpty([], messages);
    }
  }
}
