/** Splitting a file into lines and joining them again. */
module TextLines {
  import opened Base

  /** Line boundaries of `str.splitlines`; CR LF is one boundary. */
  predicate IsBreakChar(c: char) {
    || c == '\n' || c == '\r' || c == '\U{000B}' || c == '\U{000C}' || '\U{001C}' <= c <= '\U{001E}'
    || c == '\U{0085}' || c == '\U{2028}' || c == '\U{2029}'
  }

  function LineLen(s: string): (n: nat)
    ensures n <= |s| && (n < |s| ==> IsBreakChar(s[n])) && forall i :: 0 <= i < n ==> !IsBreakChar(s[i])
  {
    if s == "" || IsBreakChar(s[0]) then 0 else 1 + LineLen(s[1..])
  }

  /** The boundary `s` starts with. */
  function BreakOf(s: string): (b: string)
    requires s != "" && IsBreakChar(s[0])
    ensures 0 < |b| <= |s| && b == s[..|b|]
  {
    if |s| > 1 && s[0] == '\r' && s[1] == '\n' then s[..2] else s[..1]
  }

  predicate Broken(s: string) { LineLen(s) < |s| }

  function BreakAt(s: string): (b: string)
    requires Broken(s)
    ensures 0 < |b| <= |s| - LineLen(s)
  {
    BreakOf(s[LineLen(s)..])
  }

  function AfterLine(s: string): (x: string)
    requires Broken(s)
    ensures |x| < |s|
  {
    s[LineLen(s)..][|BreakAt(s)|..]
  }

  function SplitLines(s: string): seq<string>
    decreases |s|
  {
    if s == "" then [] else if !Broken(s) then [s] else [s[..LineLen(s)]] + SplitLines(AfterLine(s))
  }

  /** `eol.join(lines)` */
  function Join(lines: seq<string>, eol: string): string {
    if lines == [] then "" else if |lines| == 1 then lines[0] else lines[0] + (eol + Join(lines[1..], eol))
  }

  function Render(lines: seq<string>, eol: string): string { Join(lines, eol) + eol }

  predicate HasCrLf(s: string) { exists i :: 0 <= i < |s| - 1 && s[i] == '\r' && s[i + 1] == '\n' }

  /** Line ending the editor writes back. */
  function Eol(s: string): string { if HasCrLf(s) then "\r\n" else "\n" }

  /** The text as edited: with a final newline. */
  function Terminated(s: string): string { if s != "" && s[|s| - 1] == '\n' then s else s + ['\n'] }

  /** Every line boundary of `s` is `eol`, and `s` ends with one. */
  predicate Uniform(s: string, eol: string)
    decreases |s|
  {
    s != "" ==> Broken(s) && BreakAt(s) == eol && Uniform(AfterLine(s), eol)
  }

  // What splitting is -----------------------------------------------------------------------

  const BREAKS := "\n\r\U{000B}\U{000C}\U{001C}\U{001D}\U{001E}\U{0085}\U{2028}\U{2029}"

  lemma BreakChars(c: char)
    ensures IsBreakChar(c) <==> c in BREAKS
  {
  }

  ghost predicate OneLine(row: string) { forall c :: c in row ==> !IsBreakChar(c) }

  lemma {:induction false} LineLenOf(a: string, x: string)
    requires OneLine(a) && (x != "" ==> IsBreakChar(x[0]))
    ensures LineLen(a + x) == |a|
  {
    if a == "" {
      assert a + x == x;
    } else {
      assert (a + x)[0] == a[0] && a[0] in a && (a + x)[1..] == a[1..] + x;
      LineLenOf(a[1..], x);
    }
  }

  lemma LineCut(a: string, b: string, x: string)
    requires OneLine(a) && b != "" && IsBreakChar(b[0]) && b == BreakOf(b + x)
    ensures SplitLines(a + (b + x)) == [a] + SplitLines(x)
  {
    var s := a + (b + x);
    assert b + x != "" && (b + x)[0] == b[0];
    LineLenOf(a, b + x);
    assert s[..|a|] == a && s[|a|..] == b + x && (b + x)[|b|..] == x;
  }

  /** A line ends at its first boundary; CR LF is one boundary, and an unended text is a line. */
  lemma LineEnds(a: string, c: char, x: string)
    requires (forall d :: d in a ==> d !in BREAKS) && c in BREAKS
    ensures !(c == '\r' && x != "" && x[0] == '\n') ==> SplitLines(a + ([c] + x)) == [a] + SplitLines(x)
    ensures SplitLines(a + (['\r', '\n'] + x)) == [a] + SplitLines(x)
    ensures a != "" ==> SplitLines(a) == [a]
  {
    forall d | d in a ensures !IsBreakChar(d) { BreakChars(d); }
    BreakChars(c);
    assert !(c == '\r' && x != "" && x[0] == '\n') ==> BreakOf([c] + x) == [c];
    if !(c == '\r' && x != "" && x[0] == '\n') { LineCut(a, [c], x); }
    assert BreakOf(['\r', '\n'] + x) == ['\r', '\n'];
    LineCut(a, ['\r', '\n'], x);
    LineLenOf(a, "");
    assert a + "" == a;
  }

  lemma RenderCons(line: string, lines: seq<string>, eol: string)
    requires lines != []
    ensures Render([line] + lines, eol) == line + (eol + Render(lines, eol))
  {
    assert ([line] + lines)[1..] == lines;
    var j := Join(lines, eol);
    assert line + (eol + j) + eol == line + (eol + (j + eol));
  }

  lemma SplitSome(s: string)
    requires s != ""
    ensures SplitLines(s) != []
  {
  }

  /** One line's boundary is rendered as it was read, or the texts differ at it. */
  lemma SameBreak(line: string, b: string, eol: string, x: string, y: string)
    requires eol == "\n" || eol == "\r\n"
    requires b != "" && IsBreakChar(b[0]) && b == BreakOf(b + x)
    ensures line + (eol + y) == line + (b + x) <==> b == eol && y == x
  {
    if line + (eol + y) == line + (b + x) {
      var s, t := eol + y, b + x;
      assert s == (line + s)[|line|..] && t == (line + t)[|line|..];
      assert s[0] == eol[0] && t[0] == b[0];
      if eol == "\r\n" { assert s[1] == '\n'; }
      assert b == eol;
      assert y == s[|eol|..] && x == t[|b|..];
    }
  }

  /** First line, its boundary and the rest. */
  lemma FirstLine(s: string, eol: string) returns (line: string, b: string, x: string)
    requires s != "" && s[|s| - 1] == '\n'
    ensures s == line + (b + x) && b != "" && IsBreakChar(b[0]) && b == BreakOf(b + x)
    ensures SplitLines(s) == [line] + SplitLines(x) && |x| < |s| && (x != "" ==> x[|x| - 1] == '\n')
    ensures Uniform(s, eol) <==> b == eol && Uniform(x, eol)
  {
    LineParts(s);
    line, b, x := s[..LineLen(s)], BreakAt(s), AfterLine(s);
    if x != "" { assert x[|x| - 1] == s[|s| - 1]; }
  }

  lemma LineParts(s: string)
    requires s != "" && s[|s| - 1] == '\n'
    ensures Broken(s) && s == s[..LineLen(s)] + (BreakAt(s) + AfterLine(s)) && BreakAt(s) == BreakOf(BreakAt(s) + AfterLine(s))
  {
    assert Broken(s);
    Halves(s, LineLen(s));
    Halves(s[LineLen(s)..], |BreakAt(s)|);
  }

  lemma Halves(s: string, n: nat)
    requires n <= |s|
    ensures s == s[..n] + s[n..]
  {
  }

  /** Writing a text's lines back gives the text exactly when its line endings are uniform. */
  lemma {:induction false} RenderRestores(s: string, eol: string)
    requires s != "" && s[|s| - 1] == '\n' && (eol == "\n" || eol == "\r\n")
    ensures Render(SplitLines(s), eol) == s <==> Uniform(s, eol)
    decreases |s|
  {
    var line, b, x := FirstLine(s, eol);
    if x == "" {
      assert SplitLines(s) == [line];
      SameBreak(line, b, eol, "", "");
      assert eol + "" == eol && line + eol == line + (eol + "");
    } else {
      RenderRestores(x, eol);
      SplitSome(x);
      RenderCons(line, SplitLines(x), eol);
      SameBreak(line, b, eol, x, Render(SplitLines(x), eol));
    }
  }

  lemma BreakOfEol(eol: string, x: string)
    requires eol == "\n" || eol == "\r\n"
    ensures IsBreakChar((eol + x)[0]) && BreakOf(eol + x) == eol && (eol + x)[|eol|..] == x
  {
  }

  /** Written lines read back as themselves. */
  lemma {:induction false} SplitRendered(lines: seq<string>, eol: string)
    requires lines != [] && (forall row :: row in lines ==> OneLine(row)) && (eol == "\n" || eol == "\r\n")
    ensures SplitLines(Render(lines, eol)) == lines
  {
    var row := lines[0];
    assert row in lines;
    var rest := if |lines| == 1 then "" else Render(lines[1..], eol);
    if |lines| == 1 {
      assert Render(lines, eol) == row + (eol + "");
    } else {
      SplitRendered(lines[1..], eol);
      RenderCons(row, lines[1..], eol);
      assert lines == [row] + lines[1..];
    }
    SplitFront(row, eol, rest);
  }

  lemma SplitFront(row: string, eol: string, rest: string)
    requires OneLine(row) && (eol == "\n" || eol == "\r\n")
    ensures SplitLines(row + (eol + rest)) == [row] + SplitLines(rest)
  {
    BreakOfEol(eol, rest);
    LineCut(row, eol, rest);
  }
}
