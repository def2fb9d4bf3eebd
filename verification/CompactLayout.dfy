/** Layout of compacted files: which arrays collapse, and that those which do fit the line. */
module CompactLayout {
  import opened Base
  import opened Text
  import opened JsonText
  import opened JsonParse
  import opened Compaction

  // Closing brackets end their line ---------------------------------------------------------

  /** After blank space, a closing bracket is followed by a line break. */
  predicate ClosesLine(x: string) {
    x != "" ==> if IsSpace(x[0]) then ClosesLine(x[1..]) else x[0] == ']' ==> LineBreak(x[1..])
  }

  /** Every bracket that is first on its line is last on it, but for a comma. */
  predicate Tidy(s: string) {
    s != "" ==> Tidy(s[1..]) && (s[0] == '\n' ==> ClosesLine(s[1..]))
  }

  lemma {:induction false} TidyRun(w: string, x: string)
    requires '\n' !in w && Tidy(x)
    ensures Tidy(w + x)
  {
    if w == "" {
      assert w + x == x;
    } else {
      assert (w + x)[0] == w[0] && (w + x)[1..] == w[1..] + x;
      TidyRun(w[1..], x);
    }
  }

  lemma {:induction false} BlankCloses(w: string, x: string)
    requires forall c :: c in w ==> IsSpace(c)
    ensures ClosesLine(w + x) == ClosesLine(x)
  {
    if w == "" {
      assert w + x == x;
    } else {
      assert (w + x)[0] == w[0] && w[0] in w && (w + x)[1..] == w[1..] + x;
      BlankCloses(w[1..], x);
    }
  }

  lemma TidyBreak(d: nat, x: string)
    requires Tidy(x) && ClosesLine(x)
    ensures Tidy(Break(d) + x)
  {
    var w := Spaces(2 * d);
    TidyRun(w, x);
    BlankCloses(w, x);
    BreakText(d, x);
    TidyLine(w + x);
  }

  lemma TidyLine(x: string)
    requires Tidy(x) && ClosesLine(x)
    ensures Tidy(['\n'] + x)
  {
    assert (['\n'] + x)[1..] == x;
  }

  lemma TidyChar(c: char, x: string)
    requires c != '\n' && Tidy(x)
    ensures Tidy([c] + x)
  {
    TidyRun([c], x);
  }

  lemma {:induction false} TidyRest(a: string, x: string)
    requires Tidy(a + x)
    ensures Tidy(x)
  {
    if a == "" {
      assert a + x == x;
    } else {
      assert (a + x)[1..] == a[1..] + x;
      TidyRest(a[1..], x);
    }
  }

  // Printed values are tidy -----------------------------------------------------------------

  lemma FirstChar(v: Json, d: nat, rest: string)
    requires Printable(v)
    ensures var x := Dump(v, d, rest); x != "" && ClosesLine(x)
  {
    if v.Null? || v.Bool? || v.Num? {
      LiteralWord(v);
      assert Literal(v)[0] in Literal(v);
    }
  }

  lemma QuotedHasNoBreak(s: string)
    ensures '\n' !in Quote(Escape(s))
  {
    EscapedIsBody(s);
    CleanBody(Escape(s));
  }

  lemma TidyClose(c: char, d: nat, rest: string)
    requires (c == ']' || c == '}') && Tidy(rest) && LineBreak(rest)
    ensures Tidy([c] + rest) && Tidy(Break(d) + ([c] + rest)) && LineBreak(Break(d) + ([c] + rest))
  {
    TidyChar(c, rest);
    assert ([c] + rest)[1..] == rest;
    TidyBreak(d, [c] + rest);
  }

  lemma TidyComma(d: nat, x: string)
    requires Tidy(x) && ClosesLine(x)
    ensures Tidy([','] + (Break(d) + x)) && LineBreak([','] + (Break(d) + x))
  {
    TidyBreak(d, x);
    TidyChar(',', Break(d) + x);
  }

  lemma {:induction false} TidyDump(v: Json, d: nat, rest: string)
    requires Printable(v) && Tidy(rest) && LineBreak(rest)
    ensures Tidy(Dump(v, d, rest))
    decreases v, 0
  {
    match v
    case Str(s) =>
      QuotedHasNoBreak(s);
      TidyRun(Quote(Escape(s)), rest);
    case Arr(items) =>
      TidyClose(']', d, rest);
      var body := if items == [] then [']'] + rest else DumpItems(items, d + 1, Break(d) + ([']'] + rest));
      if items != [] {
        TidyItems(items, d + 1, Break(d) + ([']'] + rest));
        TidyBreak(d + 1, body);
        TidyChar('[', Break(d + 1) + body);
      } else {
        TidyChar('[', body);
      }
    case Obj(ms) =>
      TidyClose('}', d, rest);
      var body := if ms == [] then ['}'] + rest else DumpMembers(ms, d + 1, Break(d) + (['}'] + rest));
      if ms != [] {
        TidyMembers(ms, d + 1, Break(d) + (['}'] + rest));
        TidyBreak(d + 1, body);
        TidyChar('{', Break(d + 1) + body);
      } else {
        TidyChar('{', body);
      }
    case _ =>
      LiteralWord(v);
      TidyRun(Literal(v), rest);
  }

  lemma {:induction false} TidyItems(items: seq<Json>, d: nat, rest: string)
    requires items != [] && (forall x :: x in items ==> Printable(x)) && Tidy(rest) && LineBreak(rest)
    ensures Tidy(DumpItems(items, d, rest)) && ClosesLine(DumpItems(items, d, rest))
    decreases items, 0
  {
    var after := rest;
    if |items| > 1 {
      TidyItems(items[1..], d, rest);
      TidyComma(d, DumpItems(items[1..], d, rest));
      after := [','] + (Break(d) + DumpItems(items[1..], d, rest));
    }
    FirstChar(items[0], d, after);
    TidyDump(items[0], d, after);
  }

  lemma {:induction false} TidyMembers(ms: seq<Member>, d: nat, rest: string)
    requires ms != [] && (forall m :: m in ms ==> Printable(m.value)) && Tidy(rest) && LineBreak(rest)
    ensures Tidy(DumpMembers(ms, d, rest)) && ClosesLine(DumpMembers(ms, d, rest))
    decreases ms, 0
  {
    var after := rest;
    if |ms| > 1 {
      TidyMembers(ms[1..], d, rest);
      TidyComma(d, DumpMembers(ms[1..], d, rest));
      after := [','] + (Break(d) + DumpMembers(ms[1..], d, rest));
    }
    TidyDump(ms[0].value, d, after);
    var value := Dump(ms[0].value, d, after);
    TidyRun([':', ' '], value);
    QuotedHasNoBreak(ms[0].key);
    TidyRun(Quote(Escape(ms[0].key)), [':', ' '] + value);
  }

  // Collapsed arrays fit --------------------------------------------------------------------

  lemma {:induction false} TidyItemsEnd(ps: seq<Piece>, tail: string, rest: string)
    requires Items(ps, tail) && Tidy(ItemsText(ps, tail, rest))
    ensures Tidy(rest) && LineBreak(rest)
  {
    var x := AfterScalar(ps, tail, rest);
    TidyRest(ps[0].lead, ps[0].scalar + x);
    TidyRest(ps[0].scalar, x);
    if |ps| == 1 {
      assert x[1..] == tail + ([']'] + rest);
      TidyRest(tail, [']'] + rest);
      BlankCloses(tail, [']'] + rest);
      assert ([']'] + rest)[1..] == rest;
    } else {
      TidyRest([',', '\n'], ItemsText(ps[1..], tail, rest));
      ItemsTail(ps, tail);
      TidyItemsEnd(ps[1..], tail, rest);
    }
  }

  lemma TidyMatch(m: Match, rest: string, s: string)
    requires Matches(m, rest, s) && Tidy(s)
    ensures Tidy(rest) && LineBreak(rest)
  {
    TidyRest(['[', '\n'], ItemsText(m.pieces, m.tail, rest));
    TidyItemsEnd(m.pieces, m.tail, rest);
  }

  /** In text laid out from column `col`, every collapsed array ends by column 80. */
  ghost predicate Fits(gs: seq<Segment>, col: nat)
    requires forall g :: g in gs ==> Sound(g)
  {
    gs != [] ==>
      assert Sound(gs[0]);
      && (gs[0].Collapsed? ==> col + |Output(gs[0])| <= WIDTH)
      && Fits(gs[1..], Column(col, Output(gs[0])))
  }

  lemma FitsCons(g: Segment, gs: seq<Segment>, col: nat)
    requires Sound(g) && (forall x :: x in gs ==> Sound(x)) && Fits(gs, Column(col, Output(g)))
    requires g.Collapsed? ==> col + |Output(g)| <= WIDTH
    ensures Fits([g] + gs, col)
  {
    assert ([g] + gs)[1..] == gs;
  }

  lemma ColumnOne(col: nat, c: char)
    ensures Column(col, [c]) == if c == '\n' then 0 else col + 1
  {
    assert [c][1..] == "";
  }

  /** `out` is the column after compaction; it may lag only while the original line is ending. */
  lemma {:induction false} ColumnsFit(s: string, col: nat, out: nat)
    requires Tidy(s) && (out == col || LineBreak(s))
    ensures Fits(Segments(s, col), out)
    decreases |s|
  {
    if s != "" {
      if m, rest :| Matches(m, rest, s) {
        MatchSegments(m, rest, s, col);
        MatchStarts(m, rest, s);
        TidyMatch(m, rest, s);
        MatchShrinks(m, rest);
        var g := Replacement(m, col);
        ColumnsFit(rest, Column(col, MatchText(m, "")), Column(out, Output(g)));
        FitsCons(g, Segments(rest, Column(col, MatchText(m, ""))), out);
      } else {
        ColumnOne(col, s[0]);
        ColumnOne(out, s[0]);
        ColumnsFit(s[1..], Column(col, [s[0]]), Column(out, [s[0]]));
        FitsCons(Copied(s[0]), Segments(s[1..], Column(col, [s[0]])), out);
      }
    }
  }

  /** In every compacted file each collapsed array ends within column 80 of its new line. */
  lemma CollapsedArraysFit(v: Json)
    requires Printable(v)
    ensures Fits(Segments(Dump(v, 0, ""), 0), 0)
  {
    TidyDump(v, 0, "");
    ColumnsFit(Dump(v, 0, ""), 0, 0);
  }

  // Which arrays collapse -------------------------------------------------------------------

  /** Items the pattern knows: no exponents, no quote inside a string, nothing nested. */
  predicate IsSimple(v: Json) {
    match v
    case Null => true
    case Bool(_) => true
    case Num(literal) => IsDecimal(literal)
    case Str(s) => '"' !in s
    case _ => false
  }

  function ScalarText(v: Json): string
    requires IsSimple(v)
  {
    if v.Str? then Quote(Escape(v.s)) else Literal(v)
  }

  function Pieces(items: seq<Json>, d: nat): (ps: seq<Piece>)
    requires forall x :: x in items ==> IsSimple(x)
    ensures |ps| == |items| && forall i :: 0 <= i < |items| ==> ps[i] == Piece(Spaces(2 * d), ScalarText(items[i]))
  {
    seq(|items|, i requires 0 <= i < |items| => assert items[i] in items; Piece(Spaces(2 * d), ScalarText(items[i])))
  }

  lemma {:induction false} EscapeAddsNoQuote(s: string)
    requires '"' !in s
    ensures '"' !in Escape(s)
  {
    if s != "" {
      assert s == [s[0]] + s[1..];
      EscapeAddsNoQuote(s[1..]);
    }
  }

  lemma SimpleIsScalar(v: Json)
    requires IsSimple(v)
    ensures IsScalar(ScalarText(v))
  {
    if v.Str? {
      EscapeAddsNoQuote(v.s);
      assert Quote(Escape(v.s))[1..|Quote(Escape(v.s))| - 1] == Escape(v.s);
    }
  }

  lemma BreakText(d: nat, more: string)
    ensures Break(d) + more == ['\n'] + (Spaces(2 * d) + more)
    ensures [','] + (Break(d) + more) == [',', '\n'] + (Spaces(2 * d) + more)
  {
  }

  lemma {:induction false} ItemsAreItems(items: seq<Json>, d: nat, tail: nat, rest: string)
    requires items != [] && forall x :: x in items ==> IsSimple(x)
    ensures Spaces(2 * d) + DumpItems(items, d, Break(tail) + ([']'] + rest)) ==
            ItemsText(Pieces(items, d), Spaces(2 * tail), rest)
  {
    var ps := Pieces(items, d);
    var close := Break(tail) + ([']'] + rest);
    assert items[0] in items;
    if |items| == 1 {
      BreakText(tail, [']'] + rest);
    } else {
      ItemsAreItems(items[1..], d, tail, rest);
      assert ps[1..] == Pieces(items[1..], d);
      BreakText(d, DumpItems(items[1..], d, close));
    }
  }

  lemma SimplePieces(items: seq<Json>, d: nat, tail: nat)
    requires items != [] && d > 0 && tail > 0 && forall x :: x in items ==> IsSimple(x)
    ensures WellFormed(Match(Pieces(items, d), Spaces(2 * tail)))
  {
    var ps := Pieces(items, d);
    forall p | p in ps ensures IsLead(p.lead) && IsScalar(p.scalar) {
      var i :| 0 <= i < |items| && ps[i] == p;
      assert items[i] in items;
      SimpleIsScalar(items[i]);
    }
  }

  lemma OpenBreak(d: nat, body: string)
    ensures ['['] + (Break(d) + body) == ['[', '\n'] + (Spaces(2 * d) + body)
  {
  }

  /** An array of simple items, anywhere but at the top level, is one match of the pattern. */
  lemma SimpleArrayMatches(items: seq<Json>, d: nat, rest: string)
    requires items != [] && d > 0 && forall x :: x in items ==> IsSimple(x)
    ensures Matches(Match(Pieces(items, d + 1), Spaces(2 * d)), rest, Dump(Arr(items), d, rest))
  {
    SimplePieces(items, d + 1, d);
    ItemsAreItems(items, d + 1, d, rest);
    OpenBreak(d + 1, DumpItems(items, d + 1, Break(d) + ([']'] + rest)));
  }

  /** So it is written on one line exactly when that line ends by column 80. */
  lemma SimpleArrayCollapses(items: seq<Json>, d: nat, rest: string, col: nat)
    requires items != [] && d > 0 && forall x :: x in items ==> IsSimple(x) && Printable(x)
    ensures var ps := Pieces(items, d + 1);
            && Inline(ps, "") != ""
            && Compact(Dump(Arr(items), d, rest), col) ==
               (if col + 1 + |Inline(ps, "")| <= WIDTH then ['['] + Inline(ps, "") else Dump(Arr(items), d, ""))
               + Compact(rest, Column(col, Dump(Arr(items), d, "")))
  {
    var m := Match(Pieces(items, d + 1), Spaces(2 * d));
    SimpleArrayMatches(items, d, rest);
    SimpleArrayMatches(items, d, "");
    MatchStep(m, rest, Dump(Arr(items), d, rest), col);
    LexDump(Arr(items), d, "");
    LexOpen(ItemsText(m.pieces, m.tail, ""));
    ItemsClean(m.pieces, m.tail, "");
    CollapseText(m, "");
    assert Collapse(m) + "" == Collapse(m);
  }
}
