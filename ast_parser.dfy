/** `FileLines` (astexplorer/ast_parser.py): the table of (start, end)
    offsets of the lines of a source text, and the lookup that turns a
    1-based line number and a column into offsets. */
module AstParser {
  /** The offsets of the line feeds of `s`, in order. */
  function Breaks(s: string): (r: seq<nat>)
    ensures forall t | 0 <= t < |r| :: r[t] < |s| && s[r[t]] == '\n'
    ensures forall u, v | 0 <= u < v < |r| :: r[u] < r[v]
  {
    if s == [] then []
    else Breaks(s[..|s| - 1]) + (if s[|s| - 1] == '\n' then [|s| - 1] else [])
  }

  /** The number of carriage returns in `s`. */
  function CrCount(s: string): (r: nat)
    ensures r <= |s|
  {
    if s == [] then 0 else CrCount(s[..|s| - 1]) + (if s[|s| - 1] == '\r' then 1 else 0)
  }

  /** Where the line after the last line feed of `s` begins. */
  function RawStart(s: string): (r: nat)
    ensures r <= |s|
  {
    var nl := Breaks(s);
    if nl == [] then 0 else nl[|nl| - 1] + 1
  }

  /** The line from `raw` to `end`: its start moves one place past every
      carriage return on the way. */
  function LineOf(s: string, raw: nat, end: nat): (nat, nat)
    requires raw <= end <= |s|
  {
    (raw + CrCount(s[raw..end]), end)
  }

  /** The start of the line under way once all of `s` has been read. */
  function Start(s: string): nat
  {
    RawStart(s) + CrCount(s[RawStart(s)..])
  }

  /** The line closed by the line feed number `t` of `s`: it runs from just
      after the previous line feed, or from the beginning, up to this one. */
  function LineAt(s: string, t: nat): (nat, nat)
    requires t < |Breaks(s)|
  {
    var nl := Breaks(s);
    LineOf(s, if t == 0 then 0 else nl[t - 1] + 1, nl[t])
  }

  /** The lines closed by the line feeds of `s`. */
  function Closed(s: string): seq<(nat, nat)>
  {
    seq(|Breaks(s)|, t requires 0 <= t < |Breaks(s)| => LineAt(s, t))
  }

  /** The lines of `s`: those its line feeds close, then the rest of the
      text when anything remains after skipping carriage returns. */
  function SplitLines(s: string): seq<(nat, nat)>
  {
    Closed(s) + (if Start(s) < |s| then [(Start(s), |s|)] else [])
  }

  class FileLines {
    var lines: seq<(nat, nat)>

    /** `FileLines(file_data)`: the table of the lines of the text. */
    constructor (data: string)
      ensures lines == SplitLines(data)
    {
      lines := [];
      new;
      GetFileLines(data);
    }

    /** `get_file_lines(data)`: reads the text character by character; a
        line feed at offset i closes the line (start, i) and starts the next
        one at i + 1, a carriage return moves the start one place on; the
        rest of the text is a last line when it is not empty. The lines are
        appended to those already in the table. */
    method GetFileLines(data: string)
      modifies this
      ensures lines == old(lines) + SplitLines(data)
    {
      var start, i := 0, -1;
      while i < |data| - 1
        invariant -1 <= i < |data|
        invariant lines == old(lines) + Closed(data[..i + 1]) && start == Start(data[..i + 1])
      {
        i := i + 1;
        start := ReadChar(data, i, start, old(lines));
      }
      assert data[..i + 1] == data;
      if start < |data| {
        lines := lines + [(start, |data|)];
      }
    }

    /** The body of the loop of `get_file_lines` for the character at
        offset `i`. */
    method ReadChar(data: string, i: nat, start: nat, ghost base: seq<(nat, nat)>) returns (start': nat)
      requires i < |data| && lines == base + Closed(data[..i]) && start == Start(data[..i])
      modifies this
      ensures lines == base + Closed(data[..i + 1]) && start' == Start(data[..i + 1])
    {
      var c := data[i];
      Step(data[..i], c);
      assert data[..i + 1] == data[..i] + [c];
      start' := start;
      if c == '\n' {
        lines := lines + [(start, i)];
        start' := i + 1;
      } else if c == '\r' {
        start' := start + 1;
      }
    }

    /** `get_line_start_end(line_num, col_offset)`: the line numbered from
        1, its start moved by the column. */
    function GetLineStartEnd(lineNum: int, colOffset: int): (int, int)
      requires 1 <= lineNum <= |lines|
      reads this
    {
      (lines[lineNum - 1].0 + colOffset, lines[lineNum - 1].1)
    }
  }

  /** Reading one more character: a line feed closes the line under way and
      starts a new one just after it, a carriage return moves the start on,
      anything else changes nothing. */
  lemma Step(s: string, c: char)
    ensures Closed(s + [c]) == Closed(s) + (if c == '\n' then [(Start(s), |s|)] else [])
    ensures Start(s + [c]) == if c == '\n' then |s| + 1 else if c == '\r' then Start(s) + 1 else Start(s)
  {
    ClosedAppend(s, c);
    StartAppend(s, c);
  }

  lemma BreaksAppend(s: string, c: char)
    ensures Breaks(s + [c]) == Breaks(s) + (if c == '\n' then [|s|] else [])
  {
    assert (s + [c])[..|s|] == s;
  }

  lemma CrCountAppend(s: string, c: char)
    ensures CrCount(s + [c]) == CrCount(s) + (if c == '\r' then 1 else 0)
  {
    assert (s + [c])[..|s|] == s;
  }

  lemma StartAppend(s: string, c: char)
    ensures Start(s + [c]) == if c == '\n' then |s| + 1 else if c == '\r' then Start(s) + 1 else Start(s)
  {
    var s' := s + [c];
    BreaksAppend(s, c);
    if c == '\n' {
      assert RawStart(s') == |s'|;
    } else {
      var r := RawStart(s);
      assert RawStart(s') == r;
      assert s'[r..] == s[r..] + [c];
      CrCountAppend(s[r..], c);
    }
  }

  lemma LineOfAppend(s: string, c: char, raw: nat, end: nat)
    requires raw <= end <= |s|
    ensures LineOf(s + [c], raw, end) == LineOf(s, raw, end)
  {
    assert (s + [c])[raw..end] == s[raw..end];
  }

  lemma LineAtAppend(s: string, c: char, t: nat)
    requires t < |Breaks(s)|
    ensures t < |Breaks(s + [c])| && LineAt(s + [c], t) == LineAt(s, t)
  {
    BreaksAppend(s, c);
    var nl, nl' := Breaks(s), Breaks(s + [c]);
    assert nl'[t] == nl[t];
    if t > 0 {
      assert nl'[t - 1] == nl[t - 1];
    }
    LineOfAppend(s, c, if t == 0 then 0 else nl[t - 1] + 1, nl[t]);
  }

  /** The line a line feed appended to `s` closes. */
  lemma LineAtLast(s: string)
    ensures |Breaks(s + ['\n'])| == |Breaks(s)| + 1
    ensures LineAt(s + ['\n'], |Breaks(s)|) == (Start(s), |s|)
  {
    BreaksAppend(s, '\n');
    var nl, nl' := Breaks(s), Breaks(s + ['\n']);
    var raw := RawStart(s);
    assert nl'[|nl|] == |s|;
    assert raw == if |nl| == 0 then 0 else nl'[|nl| - 1] + 1;
    LineOfAppend(s, '\n', raw, |s|);
    assert s[raw..|s|] == s[raw..];
  }

  lemma ClosedAppend(s: string, c: char)
    ensures Closed(s + [c]) == Closed(s) + (if c == '\n' then [(Start(s), |s|)] else [])
  {
    var s' := s + [c];
    BreaksAppend(s, c);
    var closed, closed' := Closed(s), Closed(s');
    forall t | 0 <= t < |closed| ensures closed'[t] == closed[t] {
      LineAtAppend(s, c, t);
    }
    if c == '\n' {
      LineAtLast(s);
      assert closed' == closed + [(Start(s), |s|)];
    } else {
      assert closed' == closed;
    }
  }

  /** Every line feed of `s` is listed by `Breaks`. */
  lemma {:induction false} BreaksComplete(s: string)
    ensures forall p | 0 <= p < |s| && s[p] == '\n' :: p in Breaks(s)
  {
    if s != [] {
      var s0 := s[..|s| - 1];
      BreaksComplete(s0);
      forall p | 0 <= p < |s| && s[p] == '\n' ensures p in Breaks(s) {
        if p < |s| - 1 {
          assert s0[p] == s[p];
          assert p in Breaks(s0);
        } else {
          assert Breaks(s)[|Breaks(s)| - 1] == p;
        }
      }
    }
  }

  /** A text without carriage returns has none in any part. */
  lemma {:induction false} NoCr(s: string)
    requires '\r' !in s
    ensures CrCount(s) == 0
  {
    if s != [] {
      assert forall c | c in s[..|s| - 1] :: c in s;
      NoCr(s[..|s| - 1]);
    }
  }

  /** The line after the last line feed is empty exactly when the text is
      empty or ends with a line feed. */
  lemma RawStartAtEnd(s: string)
    ensures RawStart(s) == |s| <==> s == [] || s[|s| - 1] == '\n'
  {
    if s != [] && s[|s| - 1] != '\n' {
      var s0 := s[..|s| - 1];
      assert Breaks(s) == Breaks(s0);
      assert RawStart(s) == RawStart(s0);
    }
  }

  /** Line `t` of the table is the one closed by line feed `t`, or the
      last line. */
  lemma SplitLinesAt(s: string, t: nat)
    requires t < |SplitLines(s)|
    ensures t < |Breaks(s)| ==> SplitLines(s)[t] == LineAt(s, t)
    ensures t >= |Breaks(s)| ==> t == |Breaks(s)| && SplitLines(s)[t] == (Start(s), |s|) && Start(s) < |s|
  {
  }

  /** Without carriage returns, a line closed by a line feed at offset i
      began just after the previous line feed, or at 0, and ends at i. */
  lemma LineAtNoCr(s: string, t: nat)
    requires '\r' !in s && t < |Breaks(s)|
    ensures var nl := Breaks(s); LineAt(s, t) == (if t == 0 then 0 else nl[t - 1] + 1, nl[t])
  {
    var nl := Breaks(s);
    var raw := if t == 0 then 0 else nl[t - 1] + 1;
    assert forall c | c in s[raw..nl[t]] :: c in s;
    NoCr(s[raw..nl[t]]);
  }

  /** Without carriage returns, the last line starts just after the last
      line feed. */
  lemma StartNoCr(s: string)
    requires '\r' !in s
    ensures Start(s) == RawStart(s)
  {
    assert forall c | c in s[RawStart(s)..] :: c in s;
    NoCr(s[RawStart(s)..]);
  }

  /** For a text without carriage returns: a line feed at offset i closes
      the line that began just after the previous one, or at 0, and ends at
      i; the last line, when there is one, runs from just after the last
      line feed to the end. */
  lemma SplitLinesNoCr(s: string)
    requires '\r' !in s
    ensures var nl, ls := Breaks(s), SplitLines(s);
      |nl| <= |ls| &&
      (forall t | 0 <= t < |nl| :: ls[t] == (if t == 0 then 0 else nl[t - 1] + 1, nl[t])) &&
      (|ls| > |nl| ==> ls[|nl|] == (RawStart(s), |s|))
  {
    var nl, ls := Breaks(s), SplitLines(s);
    forall t | 0 <= t < |nl| ensures ls[t] == (if t == 0 then 0 else nl[t - 1] + 1, nl[t]) {
      SplitLinesAt(s, t);
      LineAtNoCr(s, t);
    }
    StartNoCr(s);
  }

  /** For a text without carriage returns, the number of lines is the number
      of line feeds, plus one when the text does not end with a line feed. */
  lemma LineCount(s: string)
    requires '\r' !in s
    ensures |SplitLines(s)| == |Breaks(s)| + (if s != [] && s[|s| - 1] != '\n' then 1 else 0)
  {
    StartNoCr(s);
    RawStartAtEnd(s);
  }

  /** No line feed lies strictly between two consecutive ones. */
  lemma NoBreakBetween(s: string, lo: nat, hi: nat, t: nat)
    requires t < |Breaks(s)| && hi <= Breaks(s)[t]
    requires t == 0 || Breaks(s)[t - 1] < lo
    ensures forall p | lo <= p < hi && p < |s| :: s[p] != '\n'
  {
    BreaksComplete(s);
    forall p | lo <= p < hi && p < |s| ensures s[p] != '\n' {
      if s[p] == '\n' {
        assert false;
      }
    }
  }

  /** No line feed follows the last one. */
  lemma LastLineClear(s: string)
    ensures forall p | RawStart(s) <= p < |s| :: s[p] != '\n'
  {
    BreaksComplete(s);
    forall p | RawStart(s) <= p < |s| ensures s[p] != '\n' {
      if s[p] == '\n' {
        assert false;
      }
    }
  }

  /** Line `t` lies within the text, starts no later than it ends and holds
      no line feed. */
  lemma LineClear(s: string, t: nat)
    requires t < |SplitLines(s)|
    ensures var l := SplitLines(s)[t]; l.0 <= l.1 <= |s| && '\n' !in s[l.0..l.1]
  {
    var nl := Breaks(s);
    SplitLinesAt(s, t);
    if t < |nl| {
      NoBreakBetween(s, if t == 0 then 0 else nl[t - 1] + 1, nl[t], t);
    } else {
      LastLineClear(s);
    }
  }

  /** Line `t - 1` ends before line `t` starts. */
  lemma {:induction false} LinesApart(s: string, t: nat)
    requires 0 < t < |SplitLines(s)|
    ensures SplitLines(s)[t - 1].1 < SplitLines(s)[t].0
  {
    SplitLinesAt(s, t);
    SplitLinesAt(s, t - 1);
  }

  /** Every line lies within the text, starts no later than it ends and
      holds no line feed; each ends before the next starts. */
  lemma LinesOrdered(s: string)
    ensures var ls := SplitLines(s);
      (forall t | 0 <= t < |ls| :: ls[t].0 <= ls[t].1 <= |s| && '\n' !in s[ls[t].0..ls[t].1]) &&
      (forall t | 0 < t < |ls| :: ls[t - 1].1 < ls[t].0)
  {
    var ls := SplitLines(s);
    forall t | 0 <= t < |ls| ensures ls[t].0 <= ls[t].1 <= |s| && '\n' !in s[ls[t].0..ls[t].1] {
      LineClear(s, t);
    }
    forall t | 0 < t < |ls| ensures ls[t - 1].1 < ls[t].0 {
      LinesApart(s, t);
    }
  }

  /** `get_line_start_end` on the table of a text: the line numbered
      `lineNum`, less the column, lies within the text and holds no line
      feed. */
  lemma LineLookup(f: FileLines, data: string, lineNum: int, colOffset: int)
    requires f.lines == SplitLines(data) && 1 <= lineNum <= |f.lines|
    ensures var r := f.GetLineStartEnd(lineNum, colOffset);
      0 <= r.0 - colOffset <= r.1 <= |data| && '\n' !in data[r.0 - colOffset..r.1]
  {
    LinesOrdered(data);
    assert f.lines[lineNum - 1] in f.lines;
  }
}
