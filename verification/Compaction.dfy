/** Compaction of pretty-printed JSON: expanded arrays of scalars return to one line, meaning intact. */
module Compaction {
  import opened Base
  import opened Text
  import opened JsonText
  import opened JsonParse

  const WIDTH := 80

  // The pattern -----------------------------------------------------------------------------

  predicate IsDecimal(s: string) {
    var t := if s != "" && s[0] == '-' then s[1..] else s;
    var n := DigitsLen(t);
    n > 0 && (n == |t| || (t[n] == '.' && |t| > n + 1 && DigitsLen(t[n + 1..]) == |t| - n - 1))
  }

  /** The scalar alternative; between quotes it forbids only quotes and knows no escapes. */
  predicate IsScalar(s: string) {
    || (|s| >= 2 && s[0] == '"' && s[|s| - 1] == '"' && '"' !in s[1..|s| - 1])
    || IsDecimal(s) || s == "true" || s == "false" || s == "null"
  }

  /** One item and the blank space before it. */
  datatype Piece = Piece(lead: string, scalar: string)

  /** A match of the pattern, by what its parts took. */
  datatype Match = Match(pieces: seq<Piece>, tail: string)

  ghost predicate IsLead(s: string) { s != "" && forall c :: c in s ==> IsSpace(c) }

  ghost predicate WellFormed(m: Match) {
    m.pieces != [] && IsLead(m.tail) && forall p :: p in m.pieces ==> IsLead(p.lead) && IsScalar(p.scalar)
  }

  /** Text of the items, the closing bracket and `rest`. */
  function ItemsText(ps: seq<Piece>, tail: string, rest: string): string
    requires ps != []
    decreases |ps|, 1
  {
    ps[0].lead + (ps[0].scalar + AfterScalar(ps, tail, rest))
  }

  function AfterScalar(ps: seq<Piece>, tail: string, rest: string): string
    requires ps != []
    decreases |ps|, 0
  {
    if |ps| == 1 then ['\n'] + (tail + ([']'] + rest)) else [',', '\n'] + ItemsText(ps[1..], tail, rest)
  }

  function MatchText(m: Match, rest: string): string
    requires m.pieces != []
  {
    ['[', '\n'] + ItemsText(m.pieces, m.tail, rest)
  }

  ghost predicate Matches(m: Match, rest: string, s: string) { WellFormed(m) && s == MatchText(m, rest) }

  // The replacement -------------------------------------------------------------------------

  /** The captured group: items with their separators, without the first item's lead. */
  function Group(ps: seq<Piece>): string
    requires ps != []
  {
    ps[0].scalar + if |ps| == 1 then "" else [',', '\n'] + (ps[1].lead + Group(ps[1..]))
  }

  function Split(s: string): (parts: seq<string>)
    ensures parts != []
  {
    if |s| < 2 then [s]
    else if s[0] == ',' && s[1] == '\n' then [""] + Split(s[2..])
    else var r := Split(s[1..]); [[s[0]] + r[0]] + r[1..]
  }

  /** Stripped parts joined by `, `. */
  function Join(parts: seq<string>): string
    requires parts != []
  {
    Strip(parts[0]) + if |parts| == 1 then "" else [',', ' '] + Join(parts[1..])
  }

  function Collapse(m: Match): string
    requires m.pieces != []
  {
    ['['] + (Join(Split(Group(m.pieces))) + [']'])
  }

  /** Column after `s`, from column `col`. */
  function Column(col: nat, s: string): nat
    decreases |s|
  {
    if s == "" then col else Column(if s[0] == '\n' then 0 else col + 1, s[1..])
  }

  datatype Segment = Copied(c: char) | Kept(m: Match) | Collapsed(m: Match)

  ghost predicate Sound(g: Segment) { !g.Copied? ==> WellFormed(g.m) }

  function Output(g: Segment): string
    requires !g.Copied? ==> g.m.pieces != []
  {
    match g case Copied(c) => [c] case Kept(m) => MatchText(m, "") case Collapsed(m) => Collapse(m)
  }

  /** Left-to-right substitution over `s`, which starts at column `col` of the original text. */
  ghost function Segments(s: string, col: nat): (out: seq<Segment>)
    ensures forall g :: g in out ==> Sound(g)
    ensures s == "" <==> out == []
    decreases |s|
  {
    if s == "" then []
    else if exists m, rest :: Matches(m, rest, s) then
      var m, rest :| Matches(m, rest, s);
      MatchShrinks(m, rest);
      [if col + |Collapse(m)| > WIDTH then Kept(m) else Collapsed(m)] + Segments(rest, Column(col, MatchText(m, "")))
    else [Copied(s[0])] + Segments(s[1..], Column(col, [s[0]]))
  }

  lemma {:induction false} ItemsShrink(ps: seq<Piece>, tail: string, rest: string)
    requires ps != []
    ensures |ItemsText(ps, tail, rest)| > |rest|
  {
    if |ps| > 1 { ItemsShrink(ps[1..], tail, rest); }
  }

  lemma MatchShrinks(m: Match, rest: string)
    requires m.pieces != []
    ensures |MatchText(m, rest)| > |rest|
  {
    ItemsShrink(m.pieces, m.tail, rest);
  }

  // A match is unique -----------------------------------------------------------------------

  lemma WordScalar(s: string)
    requires IsScalar(s) && s[0] != '"'
    ensures s != "" && forall c :: c in s ==> IsWordChar(c)
  {
    if IsDecimal(s) {
      var k := if s[0] == '-' then 1 else 0;
      var t := s[k..];
      var n := DigitsLen(t);
      if n < |t| { TailWords(t[n..], 1); }
      TailWords(t, n);
      TailWords(s, k);
    }
  }

  lemma ScalarEnds(s: string)
    requires IsScalar(s)
    ensures s != "" && !IsSpace(s[0]) && !IsSpace(s[|s| - 1])
  {
    if s[0] != '"' {
      WordScalar(s);
      assert s[0] in s && s[|s| - 1] in s;
    }
  }

  predicate Separates(x: string) { x != "" && (x[0] == ',' || x[0] == '\n') }

  lemma SameScalar(a: string, x: string, b: string, y: string)
    requires IsScalar(a) && IsScalar(b) && Separates(x) && Separates(y) && a + x == b + y
    ensures a == b && x == y
  {
    ScalarShorter(a, x, b, y);
    ScalarShorter(b, y, a, x);
    assert a == (a + x)[..|a|] && b == (b + y)[..|b|];
    assert x == (a + x)[|a|..] && y == (b + y)[|b|..];
  }

  lemma ScalarShorter(a: string, x: string, b: string, y: string)
    requires IsScalar(a) && IsScalar(b) && Separates(x) && Separates(y) && a + x == b + y
    ensures |a| >= |b|
  {
    assert (a + x)[0] == a[0] && (b + y)[0] == b[0];
    if |a| < |b| {
      NextOf(a, x, b, y);
      if a[0] == '"' { QuoteInside(b, |a| - 1); } else { WordScalar(b); }
    }
  }

  lemma QuoteInside(b: string, i: nat)
    requires IsScalar(b) && b[0] == '"' && 0 < i < |b| - 1
    ensures b[i] != '"'
  {
    assert b[i] == b[1..|b| - 1][i - 1];
    assert b[i] in b[1..|b| - 1];
  }

  lemma SameLead(a: string, x: string, b: string, y: string)
    requires (forall c :: c in a ==> IsSpace(c)) && (forall c :: c in b ==> IsSpace(c))
    requires x != "" && y != "" && !IsSpace(x[0]) && !IsSpace(y[0]) && a + x == b + y
    ensures a == b && x == y
  {
    SpaceReaches(a, x, b, y);
    SpaceReaches(b, y, a, x);
    assert a == (a + x)[..|a|] && b == (b + y)[..|b|];
    assert x == (a + x)[|a|..] && y == (b + y)[|b|..];
  }

  lemma SpaceReaches(a: string, x: string, b: string, y: string)
    requires (forall c :: c in b ==> IsSpace(c)) && x != "" && !IsSpace(x[0]) && a + x == b + y
    ensures |a| >= |b|
  {
    if |a| < |b| { NextOf(a, x, b, y); }
  }

  lemma NextOf(a: string, x: string, b: string, y: string)
    requires x != "" && a + x == b + y && |a| < |b|
    ensures x[0] == b[|a|] && b[|a|] in b && (a != "" ==> a[|a| - 1] == b[|a| - 1])
  {
    var s := a + x;
    assert s[|a|] == x[0] && s[|a|] == b[|a|] && (a != "" ==> s[|a| - 1] == a[|a| - 1]);
  }

  ghost predicate Items(ps: seq<Piece>, tail: string) {
    ps != [] && IsLead(tail) && forall p :: p in ps ==> IsLead(p.lead) && IsScalar(p.scalar)
  }

  lemma ItemsTail(ps: seq<Piece>, tail: string)
    requires Items(ps, tail) && |ps| > 1
    ensures Items(ps[1..], tail)
  {
  }

  lemma SamePiece(ps: seq<Piece>, tail: string, r: string, qs: seq<Piece>, end: string, q: string)
    requires Items(ps, tail) && Items(qs, end) && ItemsText(ps, tail, r) == ItemsText(qs, end, q)
    ensures ps[0] == qs[0] && AfterScalar(ps, tail, r) == AfterScalar(qs, end, q)
  {
    assert ps[0] in ps && qs[0] in qs;
    var x, y := AfterScalar(ps, tail, r), AfterScalar(qs, end, q);
    ScalarEnds(ps[0].scalar);
    ScalarEnds(qs[0].scalar);
    SameLead(ps[0].lead, ps[0].scalar + x, qs[0].lead, qs[0].scalar + y);
    SameScalar(ps[0].scalar, x, qs[0].scalar, y);
  }

  lemma SameClose(tail: string, r: string, end: string, q: string)
    requires IsLead(tail) && IsLead(end) && ['\n'] + (tail + ([']'] + r)) == ['\n'] + (end + ([']'] + q))
    ensures tail == end && r == q
  {
    var a, b := tail + ([']'] + r), end + ([']'] + q);
    assert a == (['\n'] + a)[1..] && b == (['\n'] + b)[1..];
    SameLead(tail, [']'] + r, end, [']'] + q);
    assert r == ([']'] + r)[1..] && q == ([']'] + q)[1..];
  }

  lemma SameComma(a: string, b: string)
    requires [',', '\n'] + a == [',', '\n'] + b
    ensures a == b
  {
    assert a == ([',', '\n'] + a)[2..] && b == ([',', '\n'] + b)[2..];
  }

  lemma {:induction false} SameItems(ps: seq<Piece>, tail: string, r: string, qs: seq<Piece>, end: string, q: string)
    requires Items(ps, tail) && Items(qs, end) && ItemsText(ps, tail, r) == ItemsText(qs, end, q)
    ensures ps == qs && tail == end && r == q
  {
    SamePiece(ps, tail, r, qs, end, q);
    var x, y := AfterScalar(ps, tail, r), AfterScalar(qs, end, q);
    assert |ps| == 1 <==> x[0] == '\n';
    assert |qs| == 1 <==> y[0] == '\n';
    if |ps| == 1 {
      SameClose(tail, r, end, q);
    } else {
      ItemsTail(ps, tail);
      ItemsTail(qs, end);
      SameComma(ItemsText(ps[1..], tail, r), ItemsText(qs[1..], end, q));
      SameItems(ps[1..], tail, r, qs[1..], end, q);
      assert ps == [ps[0]] + ps[1..] && qs == [qs[0]] + qs[1..];
    }
  }

  /** At one place the pattern matches in at most one way, so backtracking order is immaterial. */
  lemma MatchUnique(m: Match, r: string, k: Match, q: string, s: string)
    requires Matches(m, r, s) && Matches(k, q, s)
    ensures m == k && r == q
  {
    var x, y := ItemsText(m.pieces, m.tail, r), ItemsText(k.pieces, k.tail, q);
    assert x == (['[', '\n'] + x)[2..] && y == (['[', '\n'] + y)[2..];
    SameItems(m.pieces, m.tail, r, k.pieces, k.tail, q);
  }

  // Scalars in a text that lexes ------------------------------------------------------------

  predicate IsClean(s: string)
    requires s != ""
  {
    if s[0] == '"' then |s| >= 2 && s[|s| - 1] == '"' && IsBody(s[1..|s| - 1]) else forall c :: c in s ==> IsWordChar(c)
  }

  function ScalarToken(s: string): Token
    requires s != "" && IsClean(s)
  {
    if s[0] == '"' then Quoted(s[1..|s| - 1]) else Word(s)
  }

  lemma LexScalar(s: string, x: string)
    requires s != "" && IsClean(s) && Delimits(x)
    ensures Lex(s + x) == Push(ScalarToken(s), Lex(x))
  {
    if s[0] == '"' {
      var b := s[1..|s| - 1];
      assert s == Quote(b);
      LexQuoted(b, x);
    } else {
      LexWord(s, x);
    }
  }

  /** The next line break: where a pretty-printed item ends. */
  predicate LineBreak(x: string) { x == "" || x[0] == '\n' || (|x| > 1 && x[0] == ',' && x[1] == '\n') }

  lemma NoBodyAcross(x: string)
    requires x != "" && LineBreak(x)
    ensures BodyLen(x).None?
  {
    if x[0] == ',' { assert BodyLen(x[1..]).None?; }
  }

  /** After a backslash the quote is escaped, and the string runs into the line break. */
  lemma EscapeRunsOn(x: string)
    requires x != "" && LineBreak(x)
    ensures BodyLen(['\\'] + (['"'] + x)).None?
  {
    NoBodyAcross(x);
    assert (['\\'] + (['"'] + x))[2..] == x;
  }

  /**
   * The pattern ends a string at the first quote. In a text that lexes this quote is never an
   * escaped one, for then the string would run into the line break.
   */
  lemma {:induction false} PatternBody(b: string, x: string)
    requires '"' !in b && x != "" && LineBreak(x) && BodyLen(b + (['"'] + x)).Some?
    ensures IsBody(b)
    decreases |b|
  {
    var s := b + (['"'] + x);
    EscapeRunsOn(x);
    if b != "" {
      assert s[0] == b[0] && b[0] in b;
      assert |b| == 1 ==> b == [b[0]];
      if b[0] == '\\' {
        assert s[1] == b[1] && s[2..] == b[2..] + (['"'] + x);
        PatternBody(b[2..], x);
      } else {
        assert s[1..] == b[1..] + (['"'] + x);
        PatternBody(b[1..], x);
      }
    }
  }

  lemma LexOpens(t: string)
    requires Lex(['"'] + t).Some?
    ensures BodyLen(t).Some?
  {
    assert (['"'] + t)[1..] == t;
  }

  lemma QuotedText(s: string, x: string)
    requires |s| >= 2 && s[0] == '"' && s[|s| - 1] == '"'
    ensures s + x == ['"'] + (s[1..|s| - 1] + (['"'] + x))
  {
  }

  lemma PatternScalar(s: string, x: string)
    requires IsScalar(s) && x != "" && LineBreak(x) && Lex(s + x).Some?
    ensures s != "" && IsClean(s)
  {
    if s[0] == '"' {
      var b := s[1..|s| - 1];
      QuotedText(s, x);
      LexOpens(b + (['"'] + x));
      PatternBody(b, x);
    } else {
      WordScalar(s);
    }
  }

  lemma {:induction false} CleanBody(b: string)
    requires IsBody(b)
    ensures '\n' !in b
    decreases |b|
  {
    if b != "" {
      var k := if b[0] == '\\' then 2 else 1;
      CleanBody(b[k..]);
      assert b == b[..k] + b[k..];
      assert forall c :: c in b[..k] ==> c >= ' ';
    }
  }

  lemma CleanScalar(s: string)
    requires s != "" && IsClean(s)
    ensures '\n' !in s
  {
    if s[0] == '"' {
      var b := s[1..|s| - 1];
      CleanBody(b);
      assert s == Quote(b);
    }
  }

  /** Blank space of the pattern in a text that lexes is JSON blank space. */
  lemma {:induction false} PatternLead(lead: string, x: string)
    requires (forall c :: c in lead ==> IsSpace(c)) && Lex(lead + x).Some?
    ensures Lex(x).Some? && forall c :: c in lead ==> IsWs(c)
  {
    if lead == "" {
      assert lead + x == x;
    } else {
      assert lead[0] in lead && (lead + x)[0] == lead[0] && (lead + x)[1..] == lead[1..] + x;
      PatternLead(lead[1..], x);
      assert lead == [lead[0]] + lead[1..];
    }
  }

  // One array -------------------------------------------------------------------------------

  /** The items on one line. */
  function Inline(ps: seq<Piece>, rest: string): string
    requires ps != []
  {
    ps[0].scalar + if |ps| == 1 then [']'] + rest else [',', ' '] + Inline(ps[1..], rest)
  }

  ghost predicate AllClean(ps: seq<Piece>) { forall p :: p in ps ==> p.scalar != "" && IsClean(p.scalar) }

  /** The separator of a pretty-printed array and the one-line separator lex alike. */
  lemma LexSeparator(x: string)
    ensures Lex([',', '\n'] + x) == Push(Punct(','), Lex(x)) == Lex([',', ' '] + x)
  {
    LexBlank(['\n'], x);
    LexBlank([' '], x);
    LexPunct(',', ['\n'] + x);
    LexPunct(',', [' '] + x);
    assert [','] + (['\n'] + x) == [',', '\n'] + x && [','] + ([' '] + x) == [',', ' '] + x;
  }

  lemma LexClose(tail: string, rest: string)
    requires IsLead(tail)
    ensures Lex(['\n'] + (tail + ([']'] + rest))).Some? ==> Lex(rest).Some?
    ensures Lex(['\n'] + (tail + ([']'] + rest))).Some? ==> Lex(['\n'] + (tail + ([']'] + rest))) == Lex([']'] + rest)
  {
    var x := tail + ([']'] + rest);
    LexBlank(['\n'], x);
    if Lex(x).Some? {
      PatternLead(tail, [']'] + rest);
      LexBlank(tail, [']'] + rest);
      LexPunct(']', rest);
    }
  }

  /** In a text that lexes, an item of a match is clean and lexes alone. */
  lemma LexItem(p: Piece, x: string)
    requires IsLead(p.lead) && IsScalar(p.scalar) && x != "" && LineBreak(x) && Lex(p.lead + (p.scalar + x)).Some?
    ensures p.scalar != "" && IsClean(p.scalar) && (forall c :: c in p.lead ==> IsWs(c)) && Lex(x).Some?
    ensures Lex(p.lead + (p.scalar + x)) == Push(ScalarToken(p.scalar), Lex(x))
  {
    PatternLead(p.lead, p.scalar + x);
    LexBlank(p.lead, p.scalar + x);
    PatternScalar(p.scalar, x);
    LexScalar(p.scalar, x);
  }

  lemma AfterBreaks(ps: seq<Piece>, tail: string, rest: string)
    requires ps != []
    ensures AfterScalar(ps, tail, rest) != "" && LineBreak(AfterScalar(ps, tail, rest))
  {
  }

  /** What the items of a lexable array followed by a lexable text are. */
  lemma {:induction false} ItemsClean(ps: seq<Piece>, tail: string, rest: string)
    requires Items(ps, tail) && Lex(ItemsText(ps, tail, rest)).Some?
    ensures Lex(rest).Some? && AllClean(ps)
  {
    assert ps[0] in ps;
    var x := AfterScalar(ps, tail, rest);
    AfterBreaks(ps, tail, rest);
    LexItem(ps[0], x);
    if |ps| == 1 {
      LexClose(tail, rest);
    } else {
      ItemsTail(ps, tail);
      LexSeparator(ItemsText(ps[1..], tail, rest));
      ItemsClean(ps[1..], tail, rest);
      assert ps == [ps[0]] + ps[1..];
    }
  }

  /** The one-line form has the same tokens, whatever equivalent text follows. */
  lemma {:induction false} InlineLexes(ps: seq<Piece>, tail: string, rest: string, out: string)
    requires Items(ps, tail) && Lex(ItemsText(ps, tail, rest)).Some? && Lex(out) == Lex(rest)
    ensures Lex(Inline(ps, out)) == Lex(ItemsText(ps, tail, rest))
  {
    assert ps[0] in ps;
    var x := AfterScalar(ps, tail, rest);
    AfterBreaks(ps, tail, rest);
    LexItem(ps[0], x);
    if |ps| == 1 {
      LexClose(tail, rest);
      LexPunct(']', rest);
      LexPunct(']', out);
      LexScalar(ps[0].scalar, [']'] + out);
    } else {
      ItemsTail(ps, tail);
      LexSeparator(ItemsText(ps[1..], tail, rest));
      InlineLexes(ps[1..], tail, rest, out);
      LexSeparator(Inline(ps[1..], out));
      LexScalar(ps[0].scalar, [',', ' '] + Inline(ps[1..], out));
    }
  }

  /** An array left as it was, before a changed rest. */
  lemma {:induction false} KeptLexes(ps: seq<Piece>, tail: string, rest: string, out: string)
    requires Items(ps, tail) && Lex(ItemsText(ps, tail, rest)).Some? && Lex(out) == Lex(rest)
    ensures Lex(ItemsText(ps, tail, out)) == Lex(ItemsText(ps, tail, rest))
  {
    assert ps[0] in ps;
    var x, y := AfterScalar(ps, tail, rest), AfterScalar(ps, tail, out);
    AfterBreaks(ps, tail, rest);
    LexItem(ps[0], x);
    if |ps| == 1 {
      KeptClose(tail, rest, out);
    } else {
      ItemsTail(ps, tail);
      LexSeparator(ItemsText(ps[1..], tail, rest));
      KeptLexes(ps[1..], tail, rest, out);
      LexSeparator(ItemsText(ps[1..], tail, out));
    }
    LexBlank(ps[0].lead, ps[0].scalar + y);
    LexScalar(ps[0].scalar, y);
  }

  lemma KeptClose(tail: string, rest: string, out: string)
    requires IsLead(tail) && Lex(['\n'] + (tail + ([']'] + rest))).Some? && Lex(out) == Lex(rest)
    ensures Lex(['\n'] + (tail + ([']'] + out))) == Lex(['\n'] + (tail + ([']'] + rest)))
  {
    LexClose(tail, rest);
    LexBlank(['\n'], tail + ([']'] + rest));
    LexBlank(['\n'], tail + ([']'] + out));
    PatternLead(tail, [']'] + rest);
    LexBlank(tail, [']'] + out);
    LexPunct(']', rest);
    LexPunct(']', out);
  }

  // The replacement text --------------------------------------------------------------------

  /** Text without the separator inside it. */
  predicate Whole(a: string) { forall i :: 0 <= i < |a| - 1 ==> !(a[i] == ',' && a[i + 1] == '\n') }

  lemma WholeRest(a: string)
    requires Whole(a) && a != ""
    ensures Whole(a[1..])
  {
    forall i | 0 <= i < |a[1..]| - 1 ensures !(a[1..][i] == ',' && a[1..][i + 1] == '\n') {
      assert !(a[i + 1] == ',' && a[i + 2] == '\n');
    }
  }

  lemma WholeItem(lead: string, s: string)
    requires (forall c :: c in lead ==> IsSpace(c)) && '\n' !in s
    ensures Whole(lead + s)
  {
    var a := lead + s;
    forall i | 0 <= i < |a| - 1 ensures !(a[i] == ',' && a[i + 1] == '\n') {
      if i < |lead| {
        assert a[i] in lead;
      } else {
        assert a[i + 1] == s[i + 1 - |lead|] && a[i + 1] in s;
      }
    }
  }

  lemma {:induction false} SplitAt(a: string, b: string)
    requires Whole(a)
    ensures Split(a + ([',', '\n'] + b)) == [a] + Split(b)
  {
    var s := a + ([',', '\n'] + b);
    if a == "" {
      assert s[2..] == b;
    } else {
      assert s[0] == a[0] && s[1..] == a[1..] + ([',', '\n'] + b);
      WholeRest(a);
      SplitAt(a[1..], b);
      if |a| > 1 { assert s[1] == a[1] && !(a[0] == ',' && a[0 + 1] == '\n'); } else { assert s[1] == ','; }
      assert [a[0]] + a[1..] == a;
    }
  }

  lemma {:induction false} SplitNone(a: string)
    requires Whole(a)
    ensures Split(a) == [a]
  {
    if |a| >= 2 {
      assert !(a[0] == ',' && a[0 + 1] == '\n');
      WholeRest(a);
      SplitNone(a[1..]);
      assert [a[0]] + a[1..] == a;
    }
  }

  lemma {:induction false} StripLeftLead(lead: string, s: string)
    requires (forall c :: c in lead ==> IsSpace(c)) && s != "" && !IsSpace(s[0])
    ensures StripLeft(lead + s) == s
  {
    if lead == "" {
      assert lead + s == s;
    } else {
      assert (lead + s)[0] == lead[0] && lead[0] in lead && (lead + s)[1..] == lead[1..] + s;
      StripLeftLead(lead[1..], s);
    }
  }

  lemma StripItem(lead: string, s: string)
    requires (forall c :: c in lead ==> IsSpace(c)) && IsScalar(s)
    ensures Strip(lead + s) == s
  {
    ScalarEnds(s);
    StripLeftLead(lead, s);
  }

  lemma JoinStep(part: string, more: string)
    requires Whole(part)
    ensures Join(Split(part + ([',', '\n'] + more))) == Strip(part) + ([',', ' '] + Join(Split(more)))
  {
    SplitAt(part, more);
    assert ([part] + Split(more))[1..] == Split(more);
  }

  lemma GroupStep(lead: string, ps: seq<Piece>)
    requires |ps| > 1
    ensures lead + Group(ps) == (lead + ps[0].scalar) + ([',', '\n'] + (ps[1].lead + Group(ps[1..])))
  {
  }

  lemma CleanItem(lead: string, s: string)
    requires (forall c :: c in lead ==> IsSpace(c)) && IsScalar(s) && s != "" && IsClean(s)
    ensures Strip(lead + s) == s && Whole(lead + s)
  {
    StripItem(lead, s);
    CleanScalar(s);
    WholeItem(lead, s);
  }

  /** The group from an item on, with the blank space the previous separator left before it. */
  lemma {:induction false} JoinGroup(lead: string, ps: seq<Piece>, tail: string, rest: string)
    requires (forall c :: c in lead ==> IsSpace(c)) && Items(ps, tail) && AllClean(ps)
    ensures Join(Split(lead + Group(ps))) + ([']'] + rest) == Inline(ps, rest)
    decreases |ps|
  {
    assert ps[0] in ps;
    var s := ps[0].scalar;
    CleanItem(lead, s);
    if |ps| == 1 {
      assert s + "" == s;
      SplitNone(lead + s);
    } else {
      assert ps[1] in ps;
      ItemsTail(ps, tail);
      JoinGroup(ps[1].lead, ps[1..], tail, rest);
      GroupStep(lead, ps);
      JoinStep(lead + s, ps[1].lead + Group(ps[1..]));
      Regroup(s, Join(Split(ps[1].lead + Group(ps[1..]))), [']'] + rest);
    }
  }

  lemma Regroup(s: string, joined: string, rest: string)
    ensures s + ([',', ' '] + joined) + rest == s + ([',', ' '] + (joined + rest))
  {
  }

  // The whole text --------------------------------------------------------------------------

  /** Text of the segments in order. */
  ghost function Out(gs: seq<Segment>): string
    requires forall g :: g in gs ==> Sound(g)
  {
    if gs == [] then "" else
      assert Sound(gs[0]);
      Output(gs[0]) + Out(gs[1..])
  }

  ghost function Compact(s: string, col: nat): string { Out(Segments(s, col)) }

  ghost predicate NoMatch(s: string) { forall m, rest :: !Matches(m, rest, s) }

  lemma PlainStep(s: string, col: nat)
    requires s != "" && NoMatch(s)
    ensures Compact(s, col) == [s[0]] + Compact(s[1..], Column(col, [s[0]]))
  {
    var more := Segments(s[1..], Column(col, [s[0]]));
    assert ([Copied(s[0])] + more)[1..] == more;
  }

  function Replacement(m: Match, col: nat): Segment
    requires m.pieces != []
  {
    if col + |Collapse(m)| > WIDTH then Kept(m) else Collapsed(m)
  }

  lemma MatchSegments(m: Match, rest: string, s: string, col: nat)
    requires Matches(m, rest, s)
    ensures s != "" && Segments(s, col) == [Replacement(m, col)] + Segments(rest, Column(col, MatchText(m, "")))
  {
    assert s[0] == '[';
    forall k, q | Matches(k, q, s) ensures k == m && q == rest { MatchUnique(m, rest, k, q, s); }
  }

  lemma MatchStep(m: Match, rest: string, s: string, col: nat)
    requires Matches(m, rest, s)
    ensures Compact(s, col) == Output(Replacement(m, col)) + Compact(rest, Column(col, MatchText(m, "")))
  {
    MatchSegments(m, rest, s, col);
    var more := Segments(rest, Column(col, MatchText(m, "")));
    assert ([Replacement(m, col)] + more)[1..] == more;
  }

  lemma MatchStarts(m: Match, rest: string, s: string)
    requires Matches(m, rest, s)
    ensures |s| >= 2 && s[0] == '[' && s[1] == '\n'
  {
  }

  /** A match starts at a bracket that ends its line. */
  lemma MatchHead(s: string)
    requires s == "" || s[0] != '[' || |s| < 2 || s[1] != '\n'
    ensures NoMatch(s)
  {
    forall m, rest ensures !Matches(m, rest, s) {
      if Matches(m, rest, s) { MatchStarts(m, rest, s); }
    }
  }

  /** No match starts among the first `k` characters. */
  predicate Plain(s: string, k: nat)
    requires k <= |s|
  {
    forall i :: 0 <= i < k && s[i] == '[' ==> i + 1 < |s| && s[i + 1] != '\n'
  }

  lemma PlainRest(s: string, k: nat)
    requires 0 < k <= |s| && Plain(s, k)
    ensures Plain(s[1..], k - 1) && NoMatch(s)
  {
    MatchHead(s);
    forall i | 0 <= i < k - 1 && s[1..][i] == '[' ensures i + 1 < |s[1..]| && s[1..][i + 1] != '\n' {
      assert s[i + 1] == '[';
    }
  }

  lemma Shift(s: string, k: nat)
    requires 0 < k <= |s|
    ensures s[1..][k - 1..] == s[k..]
  {
  }

  lemma Glue(s: string, k: nat, out: string)
    requires 0 < k <= |s|
    ensures [s[0]] + (s[1..][..k - 1] + out) == s[..k] + out
  {
  }

  lemma ColumnStep(s: string, k: nat, col: nat)
    requires 0 < k <= |s|
    ensures Column(Column(col, [s[0]]), s[1..][..k - 1]) == Column(col, s[..k])
  {
    assert s[..k][1..] == s[1..][..k - 1];
  }

  lemma {:induction false} CopyRun(s: string, k: nat, col: nat)
    requires k <= |s| && Plain(s, k)
    ensures Compact(s, col) == s[..k] + Compact(s[k..], Column(col, s[..k]))
  {
    if k > 0 {
      PlainRest(s, k);
      PlainStep(s, col);
      CopyRun(s[1..], k - 1, Column(col, [s[0]]));
      ColumnStep(s, k, col);
      Shift(s, k);
      Glue(s, k, Compact(s[k..], Column(col, s[..k])));
    } else {
      assert s[0..] == s && s[..0] + Compact(s, col) == Compact(s, col);
    }
  }

  /** Compaction keeps the first character, so words end where they ended. */
  lemma FirstKept(s: string, col: nat)
    ensures Delimits(s) ==> Delimits(Compact(s, col))
  {
    if s != "" {
      if m, rest :| Matches(m, rest, s) {
        MatchStep(m, rest, s, col);
      } else {
        PlainStep(s, col);
      }
    }
  }

  lemma {:induction false} ItemsAppend(ps: seq<Piece>, tail: string, out: string)
    requires ps != []
    ensures ItemsText(ps, tail, "") + out == ItemsText(ps, tail, out)
  {
    if |ps| == 1 {
      assert AfterScalar(ps, tail, "") + out == AfterScalar(ps, tail, out);
    } else {
      ItemsAppend(ps[1..], tail, out);
      assert AfterScalar(ps, tail, "") + out == AfterScalar(ps, tail, out);
    }
  }

  lemma MatchAppend(m: Match, out: string)
    requires m.pieces != []
    ensures MatchText(m, "") + out == MatchText(m, out)
  {
    ItemsAppend(m.pieces, m.tail, out);
    assert ['[', '\n'] + ItemsText(m.pieces, m.tail, "") + out == ['[', '\n'] + (ItemsText(m.pieces, m.tail, "") + out);
  }

  lemma LexOpen(x: string)
    ensures Lex(['[', '\n'] + x) == Push(Punct('['), Lex(x)) == Lex(['['] + x)
  {
    LexBlank(['\n'], x);
    LexPunct('[', ['\n'] + x);
    LexPunct('[', x);
    assert ['['] + (['\n'] + x) == ['[', '\n'] + x;
  }

  lemma CollapseText(m: Match, out: string)
    requires WellFormed(m) && AllClean(m.pieces)
    ensures Collapse(m) + out == ['['] + Inline(m.pieces, out)
  {
    JoinGroup("", m.pieces, m.tail, out);
    assert "" + Group(m.pieces) == Group(m.pieces);
    var j := Join(Split(Group(m.pieces)));
    assert ['['] + (j + [']']) + out == ['['] + (j + ([']'] + out));
  }

  /** Replacing or keeping one match changes no token. */
  lemma ReplacementLexes(m: Match, rest: string, out: string, col: nat)
    requires WellFormed(m) && Lex(MatchText(m, rest)).Some? && Lex(out) == Lex(rest)
    ensures Lex(Output(Replacement(m, col)) + out) == Lex(MatchText(m, rest))
  {
    LexOpen(ItemsText(m.pieces, m.tail, rest));
    ItemsClean(m.pieces, m.tail, rest);
    if Replacement(m, col).Kept? {
      MatchAppend(m, out);
      KeptLexes(m.pieces, m.tail, rest, out);
      LexOpen(ItemsText(m.pieces, m.tail, out));
    } else {
      CollapseText(m, out);
      InlineLexes(m.pieces, m.tail, rest, out);
      LexOpen(Inline(m.pieces, out));
    }
  }

  lemma LexPlainHead(s: string, out: string)
    requires s != "" && (IsWs(s[0]) || IsPunct(s[0])) && Lex(s).Some? && Lex(out) == Lex(s[1..])
    ensures Lex([s[0]] + out) == Lex(s) && Lex(s[1..]).Some?
  {
    assert ([s[0]] + out)[1..] == out;
  }

  lemma StringRun(s: string, n: nat, col: nat)
    requires |s| > n + 1 && s[0] == '"' && BodyLen(s[1..]) == Some(n)
    ensures Compact(s, col) == s[..n + 2] + Compact(s[n + 2..], Column(col, s[..n + 2]))
  {
    forall i | 0 <= i < n + 2 && s[i] == '[' ensures i + 1 < |s| && s[i + 1] != '\n' {
      assert s[1..][n] == '"';
      if i > 0 { assert s[i] == s[1..][i - 1]; }
      assert s[i + 1] == s[1..][i];
    }
    CopyRun(s, n + 2, col);
  }

  lemma WordRun(s: string, col: nat)
    ensures var n := WordLen(s); Compact(s, col) == s[..n] + Compact(s[n..], Column(col, s[..n]))
  {
    CopyRun(s, WordLen(s), col);
  }

  lemma {:induction false} BodyOfLen(s: string, n: nat)
    requires BodyLen(s) == Some(n)
    ensures n < |s| && s[n] == '"' && IsBody(s[..n])
    decreases |s|
  {
    if n > 0 {
      var k := if s[0] == '\\' then 2 else 1;
      BodyOfLen(s[k..], n - k);
      assert s[..n][k..] == s[k..][..n - k];
    }
  }

  /** The string token at the front of `s`. */
  lemma StringFront(s: string, n: nat)
    requires |s| > n + 1 && s[0] == '"' && BodyLen(s[1..]) == Some(n)
    ensures IsBody(s[1..n + 1]) && s[..n + 2] == Quote(s[1..n + 1]) && s == s[..n + 2] + s[n + 2..]
  {
    BodyOfLen(s[1..], n);
    assert s[1..][..n] == s[1..n + 1];
    assert s[n + 1] == s[1..][n];
  }

  lemma StringToken(s: string, n: nat, out: string)
    requires |s| > n + 1 && s[0] == '"' && BodyLen(s[1..]) == Some(n) && Lex(out) == Lex(s[n + 2..])
    ensures Lex(s[..n + 2] + out) == Lex(s)
  {
    StringFront(s, n);
    LexQuoted(s[1..n + 1], out);
    LexQuoted(s[1..n + 1], s[n + 2..]);
  }

  lemma WordToken(s: string, out: string)
    requires s != "" && IsWordChar(s[0]) && Lex(out) == Lex(s[WordLen(s)..]) && Delimits(out)
    ensures Lex(s[..WordLen(s)] + out) == Lex(s)
  {
    LexWord(s[..WordLen(s)], out);
  }

  /** Compaction changes no token of any text that lexes. */
  lemma {:induction false} CompactKeepsTokens(s: string, col: nat)
    requires Lex(s).Some?
    ensures Lex(Compact(s, col)) == Lex(s)
    decreases |s|
  {
    if s != "" {
      if m, rest :| Matches(m, rest, s) {
        var next := Column(col, MatchText(m, ""));
        MatchShrinks(m, rest);
        LexOpen(ItemsText(m.pieces, m.tail, rest));
        ItemsClean(m.pieces, m.tail, rest);
        CompactKeepsTokens(rest, next);
        ReplacementLexes(m, rest, Compact(rest, next), col);
        MatchStep(m, rest, s, col);
      } else if IsWs(s[0]) || IsPunct(s[0]) {
        var next := Column(col, [s[0]]);
        CompactKeepsTokens(s[1..], next);
        PlainStep(s, col);
        LexPlainHead(s, Compact(s[1..], next));
      } else if s[0] == '"' {
        var n := BodyLen(s[1..]).value;
        StringRun(s, n, col);
        var next := Column(col, s[..n + 2]);
        CompactKeepsTokens(s[n + 2..], next);
        StringToken(s, n, Compact(s[n + 2..], next));
      } else {
        var n := WordLen(s);
        var next := Column(col, s[..n]);
        WordRun(s, col);
        CompactKeepsTokens(s[n..], next);
        FirstKept(s[n..], next);
        WordToken(s, Compact(s[n..], next));
      }
    }
  }

  /** `serialize_config`, before encoding: the trailing newline is added in both forms. */
  ghost function Serialize(v: Json, compact: bool): string {
    (if compact then Compact(Dump(v, 0, ""), 0) else Dump(v, 0, "")) + ['\n']
  }

  lemma Cut(s: string, n: nat)
    requires n <= |s|
    ensures s + ['\n'] == s[..n] + (s[n..] + ['\n'])
    ensures n == 1 ==> s[..1] == [s[0]]
  {
  }

  lemma {:induction false} TrailingNewline(s: string)
    requires Lex(s).Some?
    ensures Lex(s + ['\n']) == Lex(s)
    decreases |s|
  {
    if s == "" {
      LexBlank(['\n'], "");
    } else if IsWs(s[0]) || IsPunct(s[0]) {
      TrailingNewline(s[1..]);
      LexPlainHead(s, s[1..] + ['\n']);
      Cut(s, 1);
    } else if s[0] == '"' {
      var n := BodyLen(s[1..]).value;
      TrailingNewline(s[n + 2..]);
      Cut(s, n + 2);
      StringToken(s, n, s[n + 2..] + ['\n']);
    } else {
      var n := WordLen(s);
      TrailingNewline(s[n..]);
      Cut(s, n);
      WordToken(s, s[n..] + ['\n']);
    }
  }

  /** Whatever the form, the written file parses to the rendered value. */
  lemma SerializeParses(v: Json, compact: bool)
    requires Printable(v)
    ensures Parse(Serialize(v, compact)) == Some(v)
  {
    PrintedParses(v, "");
    CompactKeepsTokens(Dump(v, 0, ""), 0);
    TrailingNewline(Dump(v, 0, ""));
    TrailingNewline(Compact(Dump(v, 0, ""), 0));
  }
}
