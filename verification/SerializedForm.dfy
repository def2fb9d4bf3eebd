/** The text `serialize_config` writes, in both forms, as one recursive printer. */
module SerializedForm {
  import opened Base
  import opened Text
  import opened JsonText
  import opened Compaction
  import opened CompactLayout

  // The printer -----------------------------------------------------------------------------

  predicate AllSimple(items: seq<Json>) { forall x :: x in items ==> IsSimple(x) }

  /** Simple items on one line, the closing bracket and `out`. */
  function Listing(items: seq<Json>, out: string): string
    requires items != [] && AllSimple(items)
  {
    assert items[0] in items;
    ScalarText(items[0]) + if |items| == 1 then [']'] + out else [',', ' '] + Listing(items[1..], out)
  }

  function OneLine(items: seq<Json>, out: string): string
    requires items != [] && AllSimple(items)
  {
    ['['] + Listing(items, out)
  }

  /** Arrays that one line of `width` columns holds from column `col` on; never the whole value. */
  predicate FitsLine(items: seq<Json>, d: nat, col: nat, width: nat) {
    items != [] && AllSimple(items) && d > 0 && col + |OneLine(items, "")| <= width
  }

  /** Text of `v`, at depth `d` and column `col`, before `out`. */
  function Laid(v: Json, d: nat, col: nat, width: nat, out: string): string
    decreases v, 0
  {
    match v
    case Arr(items) =>
      if items == [] then ['['] + ([']'] + out)
      else if FitsLine(items, d, col, width) then OneLine(items, out)
      else ['['] + (Break(d + 1) + LaidItems(items, d + 1, width, Break(d) + ([']'] + out)))
    case Obj(ms) =>
      if ms == [] then ['{'] + (['}'] + out)
      else ['{'] + (Break(d + 1) + LaidMembers(ms, d + 1, width, Break(d) + (['}'] + out)))
    case _ => Dump(v, d, out)
  }

  function LaidItems(items: seq<Json>, d: nat, width: nat, out: string): string
    requires items != []
    decreases items, 0
  {
    Laid(items[0], d, 2 * d, width,
         if |items| == 1 then out else [','] + (Break(d) + LaidItems(items[1..], d, width, out)))
  }

  function LaidMembers(ms: seq<Member>, d: nat, width: nat, out: string): string
    requires ms != []
    decreases ms, 0
  {
    var key := Quote(Escape(ms[0].key));
    key + ([':', ' '] + Laid(ms[0].value, d, 2 * d + |key| + 2, width,
      if |ms| == 1 then out else [','] + (Break(d) + LaidMembers(ms[1..], d, width, out))))
  }

  // Without compaction ----------------------------------------------------------------------

  /** On lines of no width nothing fits: the plain printer. */
  lemma {:induction false} NarrowIsDump(v: Json, d: nat, col: nat, out: string)
    ensures Laid(v, d, col, 0, out) == Dump(v, d, out)
    decreases v, 0
  {
    match v
    case Arr(items) => if items != [] { NarrowItems(items, d + 1, Break(d) + ([']'] + out)); }
    case Obj(ms) => if ms != [] { NarrowMembers(ms, d + 1, Break(d) + (['}'] + out)); }
    case _ =>
  }

  lemma {:induction false} NarrowItems(items: seq<Json>, d: nat, out: string)
    requires items != []
    ensures LaidItems(items, d, 0, out) == DumpItems(items, d, out)
    decreases items, 0
  {
    if |items| > 1 { NarrowItems(items[1..], d, out); }
    NarrowIsDump(items[0], d, 2 * d, if |items| == 1 then out else [','] + (Break(d) + LaidItems(items[1..], d, 0, out)));
  }

  lemma {:induction false} NarrowMembers(ms: seq<Member>, d: nat, out: string)
    requires ms != []
    ensures LaidMembers(ms, d, 0, out) == DumpMembers(ms, d, out)
    decreases ms, 0
  {
    if |ms| > 1 { NarrowMembers(ms[1..], d, out); }
    NarrowIsDump(ms[0].value, d, 2 * d + |Quote(Escape(ms[0].key))| + 2,
      if |ms| == 1 then out else [','] + (Break(d) + LaidMembers(ms[1..], d, 0, out)));
  }

  // What compaction copies ------------------------------------------------------------------

  lemma {:induction false} ColumnRun(col: nat, w: string)
    requires '\n' !in w
    ensures Column(col, w) == col + |w|
    decreases |w|
  {
    if w != "" {
      assert w[0] in w;
      ColumnRun(col + 1, w[1..]);
    }
  }

  lemma CopyText(w: string, x: string, col: nat)
    requires '[' !in w
    ensures Compact(w + x, col) == w + Compact(x, Column(col, w))
  {
    var s := w + x;
    assert forall i :: 0 <= i < |w| ==> s[i] == w[i] && w[i] in w;
    CopyRun(s, |w|, col);
    assert s[..|w|] == w && s[|w|..] == x;
  }

  lemma CopyBreak(d: nat, x: string, col: nat)
    ensures Compact(Break(d) + x, col) == Break(d) + Compact(x, 2 * d)
  {
    var w := Spaces(2 * d);
    assert Break(d)[1..] == w;
    ColumnRun(0, w);
    CopyText(Break(d), x, col);
  }

  lemma CopyComma(d: nat, x: string, col: nat)
    ensures Compact([','] + (Break(d) + x), col) == [','] + (Break(d) + Compact(x, 2 * d))
  {
    ColumnOne(col, ',');
    CopyText([','], Break(d) + x, col);
    CopyBreak(d, x, col + 1);
  }

  lemma QuotedCut(b: string, x: string)
    requires IsBody(b)
    ensures var s := Quote(b) + x;
            && |s| > |b| + 1 && s[0] == '"' && BodyLen(s[1..]) == Some(|b|)
            && s[..|b| + 2] == Quote(b) && s[|b| + 2..] == x
  {
    BodyLenOf(b, x);
    assert (Quote(b) + x)[1..] == b + ['"'] + x;
  }

  lemma QuotedColumn(b: string, col: nat)
    requires IsBody(b)
    ensures Column(col, Quote(b)) == col + |Quote(b)|
  {
    CleanBody(b);
    ColumnRun(col, Quote(b));
  }

  lemma CopyQuoted(b: string, x: string, col: nat)
    requires IsBody(b)
    ensures Compact(Quote(b) + x, col) == Quote(b) + Compact(x, col + |Quote(b)|)
  {
    QuotedCut(b, x);
    StringRun(Quote(b) + x, |b|, col);
    QuotedColumn(b, col);
  }

  lemma CopyColon(x: string, col: nat)
    ensures Compact([':', ' '] + x, col) == [':', ' '] + Compact(x, col + 2)
  {
    ColumnRun(col, [':', ' ']);
    CopyText([':', ' '], x, col);
  }

  lemma CopyKey(b: string, x: string, col: nat)
    requires IsBody(b)
    ensures Compact(Quote(b) + ([':', ' '] + x), col) == Quote(b) + ([':', ' '] + Compact(x, col + |Quote(b)| + 2))
  {
    CopyQuoted(b, [':', ' '] + x, col);
    CopyColon(x, col + |Quote(b)|);
  }

  /** A text that starts by ending its line, and what it becomes from any column. */
  ghost predicate Becomes(rest: string, out: string) {
    LineBreak(rest) && forall col: nat :: Compact(rest, col) == out
  }

  lemma EmptyBecomes()
    ensures Becomes("", "")
  {
  }

  lemma CloseBecomes(c: char, d: nat, rest: string, out: string)
    requires (c == ']' || c == '}') && Becomes(rest, out)
    ensures Becomes(Break(d) + ([c] + rest), Break(d) + ([c] + out))
  {
    forall col: nat ensures Compact(Break(d) + ([c] + rest), col) == Break(d) + ([c] + out) {
      CopyBreak(d, [c] + rest, col);
      CopyText([c], rest, 2 * d);
    }
  }

  lemma CommaBecomes(d: nat, x: string, out: string)
    requires Compact(x, 2 * d) == out
    ensures Becomes([','] + (Break(d) + x), [','] + (Break(d) + out))
  {
    forall col: nat ensures Compact([','] + (Break(d) + x), col) == [','] + (Break(d) + out) { CopyComma(d, x, col); }
  }

  // Arrays the pattern does not know --------------------------------------------------------

  lemma {:induction false} EscapeKeepsQuote(s: string)
    requires '"' in s
    ensures '"' in Escape(s)
  {
    assert s == [s[0]] + s[1..];
    if s[0] != '"' { EscapeKeepsQuote(s[1..]); } else { assert EscapeChar(s[0])[1] == '"'; }
  }

  lemma SameBody(b: string, x: string, e: string, y: string)
    requires '"' !in b && x != "" && LineBreak(x) && IsBody(e) && b + (['"'] + x) == e + ['"'] + y
    ensures b == e && x == y
  {
    BodyLenOf(e, y);
    PatternBody(b, x);
    BodyLenOf(b, x);
    assert b + ['"'] + x == b + (['"'] + x);
    assert b == (b + ['"'] + x)[..|b|] && e == (e + ['"'] + y)[..|e|];
    assert x == (b + ['"'] + x)[|b| + 1..] && y == (e + ['"'] + y)[|e| + 1..];
  }

  lemma SameQuoted(b: string, x: string, e: string, y: string)
    requires '"' !in b && x != "" && LineBreak(x) && IsBody(e) && Quote(b) + x == Quote(e) + y
    ensures b == e && x == y
  {
    assert b + (['"'] + x) == (Quote(b) + x)[1..];
    assert e + ['"'] + y == (Quote(e) + y)[1..];
    SameBody(b, x, e, y);
  }

  lemma QuotedScalar(a: string)
    requires IsScalar(a) && a[0] == '"'
    ensures exists b :: '"' !in b && a == Quote(b)
  {
    if IsDecimal(a) || a == "true" || a == "false" || a == "null" {
    } else {
      assert a == Quote(a[1..|a| - 1]);
    }
  }

  lemma FirstOfBoth(a: string, x: string, w: string, y: string)
    requires a != "" && w != "" && a + x == w + y
    ensures a[0] == w[0]
  {
    assert (a + x)[0] == a[0] && (w + y)[0] == w[0];
  }

  lemma MatchedString(a: string, x: string, s: string, y: string)
    requires IsScalar(a) && x != "" && LineBreak(x) && a + x == Quote(Escape(s)) + y
    ensures '"' !in s && x == y
  {
    ScalarEnds(a);
    FirstOfBoth(a, x, Quote(Escape(s)), y);
    QuotedScalar(a);
    var b :| '"' !in b && a == Quote(b);
    EscapedIsBody(s);
    SameQuoted(b, x, Escape(s), y);
    if '"' in s { EscapeKeepsQuote(s); }
  }

  lemma SameWord(a: string, x: string, w: string, y: string)
    requires (forall c :: c in a ==> IsWordChar(c)) && (forall c :: c in w ==> IsWordChar(c))
    requires Delimits(x) && Delimits(y) && a + x == w + y
    ensures a == w && x == y
  {
    WordLenOf(a, x);
    WordLenOf(w, y);
    assert a == (a + x)[..|a|] && w == (w + y)[..|w|] && x == (a + x)[|a|..] && y == (w + y)[|w|..];
  }

  lemma MatchedWord(a: string, x: string, v: Json, y: string)
    requires IsScalar(a) && x != "" && LineBreak(x) && LineBreak(y)
    requires Printable(v) && (v.Null? || v.Bool? || v.Num?) && a + x == Literal(v) + y
    ensures IsSimple(v) && x == y
  {
    LiteralWord(v);
    assert (a + x)[0] == a[0] && (Literal(v) + y)[0] == Literal(v)[0] && Literal(v)[0] in Literal(v);
    WordScalar(a);
    SameWord(a, x, Literal(v), y);
  }

  lemma ScalarFirst(a: string)
    requires IsScalar(a)
    ensures a != "" && (a[0] == '"' || IsWordChar(a[0]))
  {
    if a[0] != '"' {
      WordScalar(a);
      assert a[0] in a;
    }
  }

  /** What a matched scalar can be: a simple value, whole. */
  lemma MatchedValue(a: string, x: string, v: Json, d: nat, y: string)
    requires IsScalar(a) && x != "" && LineBreak(x) && Printable(v) && LineBreak(y) && a + x == Dump(v, d, y)
    ensures IsSimple(v) && x == y
  {
    ScalarFirst(a);
    assert (a + x)[0] == a[0];
    match v
    case Str(s) => MatchedString(a, x, s, y);
    case Arr(_) =>
    case Obj(_) =>
    case _ => MatchedWord(a, x, v, y);
  }

  /** Text behind an item: a comma and the next one, or the bracket on its own line. */
  function Behind(items: seq<Json>, d: nat, close: string): string
    requires items != []
  {
    if |items| == 1 then close else [','] + (Break(d) + DumpItems(items[1..], d, close))
  }

  lemma SameFirst(ps: seq<Piece>, tail: string, r: string, items: seq<Json>, d: nat, t: nat, rest: string)
    requires Items(ps, tail) && items != [] && forall x :: x in items ==> Printable(x)
    requires ItemsText(ps, tail, r) == Spaces(2 * d) + DumpItems(items, d, Break(t) + ([']'] + rest))
    ensures IsSimple(items[0]) && AfterScalar(ps, tail, r) == Behind(items, d, Break(t) + ([']'] + rest))
  {
    assert ps[0] in ps && items[0] in items;
    var x, y := AfterScalar(ps, tail, r), Behind(items, d, Break(t) + ([']'] + rest));
    AfterBreaks(ps, tail, r);
    ScalarEnds(ps[0].scalar);
    FirstSolid(items[0], d, y);
    SameLead(ps[0].lead, ps[0].scalar + x, Spaces(2 * d), Dump(items[0], d, y));
    MatchedValue(ps[0].scalar, x, items[0], d, y);
  }

  lemma FirstSolid(v: Json, d: nat, y: string)
    requires Printable(v)
    ensures var s := Dump(v, d, y); s != "" && !IsSpace(s[0])
  {
    if v.Null? || v.Bool? || v.Num? {
      LiteralWord(v);
      assert Literal(v)[0] in Literal(v);
    }
  }

  lemma ClosedAt(tail: string, r: string, t: nat, rest: string)
    requires IsLead(tail) && ['\n'] + (tail + ([']'] + r)) == Break(t) + ([']'] + rest)
    ensures t > 0
  {
    BreakText(t, [']'] + rest);
    var x, y := tail + ([']'] + r), Spaces(2 * t) + ([']'] + rest);
    assert x == (['\n'] + x)[1..] && y == (['\n'] + y)[1..];
    SameLead(tail, [']'] + r, Spaces(2 * t), [']'] + rest);
  }

  lemma NextItem(x: string, d: nat, y: string)
    requires [',', '\n'] + x == [','] + (Break(d) + y)
    ensures x == Spaces(2 * d) + y
  {
    BreakText(d, y);
    SameComma(x, Spaces(2 * d) + y);
  }

  /** The pattern matches a printed array only if its items are simple and it is not the whole value. */
  lemma {:induction false} MatchedItems(ps: seq<Piece>, tail: string, r: string, items: seq<Json>, d: nat, t: nat, rest: string)
    requires Items(ps, tail) && items != [] && forall x :: x in items ==> Printable(x)
    requires ItemsText(ps, tail, r) == Spaces(2 * d) + DumpItems(items, d, Break(t) + ([']'] + rest))
    ensures AllSimple(items) && t > 0
    decreases |ps|
  {
    SameFirst(ps, tail, r, items, d, t, rest);
    var x, y := AfterScalar(ps, tail, r), Behind(items, d, Break(t) + ([']'] + rest));
    assert |ps| == 1 <==> x[0] == '\n';
    assert |items| == 1 <==> y[0] == '\n';
    if |ps| == 1 {
      ClosedAt(tail, r, t, rest);
    } else {
      ItemsTail(ps, tail);
      NextItem(ItemsText(ps[1..], tail, r), d, DumpItems(items[1..], d, Break(t) + ([']'] + rest)));
      MatchedItems(ps[1..], tail, r, items[1..], d, t, rest);
      assert items == [items[0]] + items[1..];
    }
  }

  lemma SpreadArray(items: seq<Json>, d: nat, rest: string)
    requires items != [] && (forall x :: x in items ==> Printable(x)) && !(AllSimple(items) && d > 0)
    ensures NoMatch(Dump(Arr(items), d, rest))
  {
    var s := Dump(Arr(items), d, rest);
    var body := DumpItems(items, d + 1, Break(d) + ([']'] + rest));
    forall m, r ensures !Matches(m, r, s) {
      if Matches(m, r, s) {
        OpenBreak(d + 1, body);
        var x, y := ItemsText(m.pieces, m.tail, r), Spaces(2 * (d + 1)) + body;
        assert x == (['[', '\n'] + x)[2..] && y == (['[', '\n'] + y)[2..];
        MatchedItems(m.pieces, m.tail, r, items, d + 1, d, rest);
      }
    }
  }

  // With compaction -------------------------------------------------------------------------

  lemma {:induction false} InlineListing(items: seq<Json>, d: nat, out: string)
    requires items != [] && AllSimple(items)
    ensures Inline(Pieces(items, d), out) == Listing(items, out)
  {
    assert items[0] in items;
    if |items| > 1 {
      assert Pieces(items, d)[1..] == Pieces(items[1..], d);
      InlineListing(items[1..], d, out);
    }
  }

  lemma {:induction false} ListingAppend(items: seq<Json>, out: string)
    requires items != [] && AllSimple(items)
    ensures Listing(items, "") + out == Listing(items, out)
  {
    assert items[0] in items;
    var a := ScalarText(items[0]);
    if |items| > 1 {
      ListingAppend(items[1..], out);
      Compaction.Regroup(a, Listing(items[1..], ""), out);
    } else {
      assert a + ([']'] + "") + out == a + ([']'] + out);
    }
  }

  lemma OpenAppend(items: seq<Json>, out: string)
    requires items != [] && AllSimple(items)
    ensures ['['] + Listing(items, "") + out == OneLine(items, out)
  {
    ListingAppend(items, out);
    assert ['['] + Listing(items, "") + out == ['['] + (Listing(items, "") + out);
  }

  lemma {:induction false} SimpleItemsLaid(items: seq<Json>, d: nat, width: nat, out: string)
    requires items != [] && AllSimple(items)
    ensures LaidItems(items, d, width, out) == DumpItems(items, d, out)
  {
    assert items[0] in items;
    if |items| > 1 { SimpleItemsLaid(items[1..], d, width, out); }
  }

  lemma DumpAppend(items: seq<Json>, d: nat, out: string)
    requires items != [] && d > 0 && AllSimple(items)
    ensures Dump(Arr(items), d, "") + out == Dump(Arr(items), d, out)
  {
    SimpleArrayMatches(items, d, "");
    SimpleArrayMatches(items, d, out);
    MatchAppend(Match(Pieces(items, d + 1), Spaces(2 * d)), out);
  }

  lemma ColumnedArray(items: seq<Json>, d: nat, col: nat, rest: string, out: string)
    requires items != [] && d > 0 && AllSimple(items) && Printable(Arr(items)) && Becomes(rest, out)
    ensures Compact(Dump(Arr(items), d, rest), col) == Laid(Arr(items), d, col, 80, out)
  {
    SimpleArrayCollapses(items, d, rest, col);
    InlineListing(items, d + 1, "");
    if col + |OneLine(items, "")| <= 80 {
      OpenAppend(items, out);
    } else {
      DumpAppend(items, d, out);
      SimpleItemsLaid(items, d + 1, 80, Break(d) + ([']'] + out));
    }
  }

  lemma CopyOpen(c: char, d: nat, x: string, col: nat)
    requires c == '{' || (c == '[' && NoMatch([c] + (Break(d) + x)))
    ensures Compact([c] + (Break(d) + x), col) == [c] + (Break(d) + Compact(x, 2 * d))
  {
    var s := [c] + (Break(d) + x);
    if c == '{' { MatchHead(s); }
    PlainStep(s, col);
    assert s[1..] == Break(d) + x;
    CopyBreak(d, x, Column(col, [c]));
  }

  lemma CopyPair(a: char, b: char, rest: string, out: string, col: nat)
    requires a != '\n' && b != '\n' && b != '[' && Becomes(rest, out)
    ensures Compact([a] + ([b] + rest), col) == [a] + ([b] + out)
  {
    var s := [a] + ([b] + rest);
    MatchHead(s);
    PlainStep(s, col);
    assert s[1..] == [b] + rest;
    CopyText([b], rest, Column(col, [a]));
  }

  lemma CopyWord(v: Json, rest: string, out: string, col: nat)
    requires Printable(v) && (v.Null? || v.Bool? || v.Num?) && Becomes(rest, out)
    ensures Compact(Literal(v) + rest, col) == Literal(v) + out
  {
    LiteralWord(v);
    CopyText(Literal(v), rest, col);
  }

  lemma CopyString(s: string, rest: string, out: string, col: nat)
    requires Becomes(rest, out)
    ensures Compact(Quote(Escape(s)) + rest, col) == Quote(Escape(s)) + out
  {
    EscapedIsBody(s);
    CopyQuoted(Escape(s), rest, col);
  }

  /** Compaction of the plain print is the printer on lines of 80 columns. */
  lemma {:induction false} CompactIsLaid(v: Json, d: nat, col: nat, rest: string, out: string)
    requires Printable(v) && Becomes(rest, out)
    ensures Compact(Dump(v, d, rest), col) == Laid(v, d, col, 80, out)
    decreases v, 0
  {
    match v
    case Str(s) => CopyString(s, rest, out, col);
    case Arr(items) =>
      if items == [] {
        CopyPair('[', ']', rest, out, col);
      } else if d > 0 && AllSimple(items) {
        ColumnedArray(items, d, col, rest, out);
      } else {
        SpreadArray(items, d, rest);
        CloseBecomes(']', d, rest, out);
        CompactItems(items, d + 1, Break(d) + ([']'] + rest), Break(d) + ([']'] + out));
        CopyOpen('[', d + 1, DumpItems(items, d + 1, Break(d) + ([']'] + rest)), col);
      }
    case Obj(ms) =>
      if ms == [] {
        CopyPair('{', '}', rest, out, col);
      } else {
        CloseBecomes('}', d, rest, out);
        CompactMembers(ms, d + 1, Break(d) + (['}'] + rest), Break(d) + (['}'] + out));
        CopyOpen('{', d + 1, DumpMembers(ms, d + 1, Break(d) + (['}'] + rest)), col);
      }
    case _ => CopyWord(v, rest, out, col);
  }

  lemma {:induction false} CompactItems(items: seq<Json>, d: nat, rest: string, out: string)
    requires items != [] && (forall x :: x in items ==> Printable(x)) && Becomes(rest, out)
    ensures Compact(DumpItems(items, d, rest), 2 * d) == LaidItems(items, d, 80, out)
    decreases items, 0
  {
    if |items| == 1 {
      CompactIsLaid(items[0], d, 2 * d, rest, out);
    } else {
      var more, laid := DumpItems(items[1..], d, rest), LaidItems(items[1..], d, 80, out);
      CompactItems(items[1..], d, rest, out);
      CommaBecomes(d, more, laid);
      CompactIsLaid(items[0], d, 2 * d, [','] + (Break(d) + more), [','] + (Break(d) + laid));
    }
  }

  lemma CompactMember(m: Member, d: nat, rest: string, out: string)
    requires Compact(Dump(m.value, d, rest), 2 * d + |Quote(Escape(m.key))| + 2) == out
    ensures Compact(Quote(Escape(m.key)) + ([':', ' '] + Dump(m.value, d, rest)), 2 * d)
            == Quote(Escape(m.key)) + ([':', ' '] + out)
  {
    EscapedIsBody(m.key);
    CopyKey(Escape(m.key), Dump(m.value, d, rest), 2 * d);
  }

  lemma {:induction false} CompactMembers(ms: seq<Member>, d: nat, rest: string, out: string)
    requires ms != [] && (forall m :: m in ms ==> Printable(m.value)) && Becomes(rest, out)
    ensures Compact(DumpMembers(ms, d, rest), 2 * d) == LaidMembers(ms, d, 80, out)
    decreases ms, 0
  {
    var after, laid := rest, out;
    if |ms| > 1 {
      CompactMembers(ms[1..], d, rest, out);
      CommaBecomes(d, DumpMembers(ms[1..], d, rest), LaidMembers(ms[1..], d, 80, out));
      after := [','] + (Break(d) + DumpMembers(ms[1..], d, rest));
      laid := [','] + (Break(d) + LaidMembers(ms[1..], d, 80, out));
    }
    var col := 2 * d + |Quote(Escape(ms[0].key))| + 2;
    CompactIsLaid(ms[0].value, d, col, after, laid);
    CompactMember(ms[0], d, after, Laid(ms[0].value, d, col, 80, laid));
  }

  /** Both forms are that printer's: with compaction on lines of 80 columns, without on none. */
  lemma SerializeIsLaid(v: Json, compact: bool)
    requires Printable(v)
    ensures Serialize(v, compact) == Laid(v, 0, 0, if compact then 80 else 0, "") + ['\n']
  {
    if compact {
      EmptyBecomes();
      CompactIsLaid(v, 0, 0, "", "");
    } else {
      NarrowIsDump(v, 0, 0, "");
    }
  }

  // Appending to the text -------------------------------------------------------------------

  lemma {:induction false} DumpScalarAppend(v: Json, d: nat, a: string, b: string)
    requires !v.Arr? && !v.Obj?
    ensures Dump(v, d, a + b) == Dump(v, d, a) + b
  {
    var w := if v.Str? then Quote(Escape(v.s)) else Literal(v);
    Base.Regroup(w, a, b);
  }

  lemma CloseAppend(c: char, d: nat, a: string, b: string)
    ensures Break(d) + ([c] + (a + b)) == Break(d) + ([c] + a) + b
    ensures [c] + (a + b) == [c] + a + b
  {
    Base.Regroup([c], a, b);
    Base.Regroup(Break(d), [c] + a, b);
  }

  lemma OpenedAppend(c: char, x: string, y: string, b: string)
    ensures [c] + (x + (y + b)) == [c] + (x + y) + b
  {
    Base.Regroup(x, y, b);
    Base.Regroup([c], x + y, b);
  }

  lemma {:induction false} LaidAppend(v: Json, d: nat, col: nat, width: nat, a: string, b: string)
    ensures Laid(v, d, col, width, a + b) == Laid(v, d, col, width, a) + b
    decreases v, 0
  {
    match v
    case Arr(items) =>
      CloseAppend(']', d, a, b);
      if items == [] {
        Base.Regroup(['['], [']'] + a, b);
      } else if FitsLine(items, d, col, width) {
        OneLineAppend(items, a, b);
      } else {
        LaidItemsAppend(items, d + 1, width, Break(d) + ([']'] + a), b);
        OpenedAppend('[', Break(d + 1), LaidItems(items, d + 1, width, Break(d) + ([']'] + a)), b);
      }
    case Obj(ms) =>
      CloseAppend('}', d, a, b);
      if ms == [] {
        Base.Regroup(['{'], ['}'] + a, b);
      } else {
        LaidMembersAppend(ms, d + 1, width, Break(d) + (['}'] + a), b);
        OpenedAppend('{', Break(d + 1), LaidMembers(ms, d + 1, width, Break(d) + (['}'] + a)), b);
      }
    case _ => DumpScalarAppend(v, d, a, b);
  }

  lemma OneLineAppend(items: seq<Json>, a: string, b: string)
    requires items != [] && AllSimple(items)
    ensures OneLine(items, a + b) == OneLine(items, a) + b
  {
    OpenAppend(items, a);
    OpenAppend(items, a + b);
    Base.Regroup(['['] + Listing(items, ""), a, b);
  }

  lemma {:induction false} LaidItemsAppend(items: seq<Json>, d: nat, width: nat, a: string, b: string)
    requires items != []
    ensures LaidItems(items, d, width, a + b) == LaidItems(items, d, width, a) + b
    decreases items, 0
  {
    if |items| == 1 {
      LaidAppend(items[0], d, 2 * d, width, a, b);
    } else {
      var more := LaidItems(items[1..], d, width, a);
      LaidItemsAppend(items[1..], d, width, a, b);
      OpenedAppend(',', Break(d), more, b);
      LaidAppend(items[0], d, 2 * d, width, [','] + (Break(d) + more), b);
    }
  }

  lemma KeyAppend(key: string, x: string, b: string)
    ensures key + ([':', ' '] + (x + b)) == key + ([':', ' '] + x) + b
  {
    Base.Regroup([':', ' '], x, b);
    Base.Regroup(key, [':', ' '] + x, b);
  }

  lemma {:induction false} LaidMembersAppend(ms: seq<Member>, d: nat, width: nat, a: string, b: string)
    requires ms != []
    ensures LaidMembers(ms, d, width, a + b) == LaidMembers(ms, d, width, a) + b
    decreases ms, 0
  {
    var key := Quote(Escape(ms[0].key));
    var col := 2 * d + |key| + 2;
    var after := a;
    if |ms| > 1 {
      var more := LaidMembers(ms[1..], d, width, a);
      LaidMembersAppend(ms[1..], d, width, a, b);
      OpenedAppend(',', Break(d), more, b);
      after := [','] + (Break(d) + more);
    }
    LaidAppend(ms[0].value, d, col, width, after, b);
    KeyAppend(key, Laid(ms[0].value, d, col, width, after), b);
  }

  // Where a value stands --------------------------------------------------------------------

  /**
   * `x` is `v`, which stands at depth `d` behind `head` on its line, or stands inside it. Its own
   * depth is `e`, and `at` is what its line holds before it: the indentation, and the key it belongs to.
   */
  ghost predicate Reaches(v: Json, d: nat, head: string, x: Json, e: nat, at: string)
    decreases v, 1
  {
    (v == x && d == e && head == at) || Stands(v, d, x, e, at)
  }

  /** `x` stands inside `v`. */
  ghost predicate Stands(v: Json, d: nat, x: Json, e: nat, at: string)
    decreases v, 0
  {
    match v
    case Arr(items) => exists i | 0 <= i < |items| :: Reaches(items[i], d + 1, Spaces(2 * (d + 1)), x, e, at)
    case Obj(ms) => exists i | 0 <= i < |ms| :: Reaches(ms[i].value, d + 1, Opening(ms[i].key, d + 1), x, e, at)
    case _ => false
  }

  /** Start of a member's line. */
  function Opening(key: string, d: nat): string { Spaces(2 * d) + (Quote(Escape(key)) + [':', ' ']) }

  /** `t` starts a line of `s` and is followed by a line break, or by a comma and one. */
  ghost predicate OnLine(s: string, t: string) {
    exists before, after :: LineBreak(after) && s == before + (['\n'] + t + after)
  }

  lemma OnLineBehind(a: string, s: string, t: string)
    requires OnLine(s, t)
    ensures OnLine(a + s, t)
  {
    var before, after :| LineBreak(after) && s == before + (['\n'] + t + after);
    Base.Regroup(a, before, ['\n'] + t + after);
    assert a + s == (a + before) + (['\n'] + t + after);
  }

  lemma OnLineHere(t: string, after: string)
    requires LineBreak(after)
    ensures OnLine(['\n'] + t + after, t)
  {
    assert ['\n'] + t + after == "" + (['\n'] + t + after);
  }

  lemma BreakLine(d: nat, text: string, after: string)
    ensures Break(d) + (text + after) == ['\n'] + (Spaces(2 * d) + text) + after
  {
    BreakText(d, text + after);
    Base.Regroup(Spaces(2 * d), text, after);
    Base.Regroup(['\n'], Spaces(2 * d) + text, after);
  }

  lemma KeyLine(key: string, d: nat, text: string, after: string)
    ensures Break(d) + (Quote(Escape(key)) + ([':', ' '] + (text + after))) == ['\n'] + (Opening(key, d) + text) + after
    ensures |Opening(key, d)| == 2 * d + |Quote(Escape(key))| + 2
  {
    var k := Quote(Escape(key));
    KeyAppend(k, text, after);
    BreakLine(d, k + ([':', ' '] + text), after);
    Base.Regroup(k, [':', ' '], text);
    Base.Regroup(Spaces(2 * d), k + [':', ' '], text);
  }

  lemma InlineItems(items: seq<Json>, i: nat, d: nat, col: nat, width: nat, head: string, x: Json, e: nat, at: string)
    requires i < |items| && Reaches(items[i], d + 1, head, x, e, at) && (width == 0 || !IsSimple(x))
    ensures !FitsLine(items, d, col, width)
  {
    assert items[i] in items;
  }

  lemma LaidBefore(v: Json, d: nat, col: nat, width: nat, after: string)
    ensures Laid(v, d, col, width, after) == Laid(v, d, col, width, "") + after
  {
    LaidAppend(v, d, col, width, "", after);
    assert "" + after == after;
  }

  /** Every value that is no item of a one-line array starts behind its own line's opening, and ends that line. */
  lemma {:induction false} Place(v: Json, d: nat, col: nat, width: nat, out: string, x: Json, e: nat, at: string)
    requires Stands(v, d, x, e, at) && (width == 0 || !IsSimple(x)) && LineBreak(out)
    ensures OnLine(Laid(v, d, col, width, out), at + Laid(x, e, |at|, width, ""))
    decreases v, 0
  {
    var goal := at + Laid(x, e, |at|, width, "");
    match v
    case Arr(items) =>
      var i :| 0 <= i < |items| && Reaches(items[i], d + 1, Spaces(2 * (d + 1)), x, e, at);
      InlineItems(items, i, d, col, width, Spaces(2 * (d + 1)), x, e, at);
      PlaceItem(items, i, d + 1, width, Break(d) + ([']'] + out), x, e, at);
      OnLineBehind(['['], Break(d + 1) + LaidItems(items, d + 1, width, Break(d) + ([']'] + out)), goal);
    case Obj(ms) =>
      var i :| 0 <= i < |ms| && Reaches(ms[i].value, d + 1, Opening(ms[i].key, d + 1), x, e, at);
      PlaceMember(ms, i, d + 1, width, Break(d) + (['}'] + out), x, e, at);
      OnLineBehind(['{'], Break(d + 1) + LaidMembers(ms, d + 1, width, Break(d) + (['}'] + out)), goal);
    case _ =>
  }

  lemma {:induction false} PlaceItem(items: seq<Json>, i: nat, d: nat, width: nat, out: string, x: Json, e: nat, at: string)
    requires i < |items| && Reaches(items[i], d, Spaces(2 * d), x, e, at)
    requires (width == 0 || !IsSimple(x)) && LineBreak(out)
    ensures OnLine(Break(d) + LaidItems(items, d, width, out), at + Laid(x, e, |at|, width, ""))
    decreases items, 0
  {
    var goal := at + Laid(x, e, |at|, width, "");
    var more := if |items| == 1 then "" else Break(d) + LaidItems(items[1..], d, width, out);
    var after := if |items| == 1 then out else [','] + more;
    if i > 0 {
      PlaceItem(items[1..], i - 1, d, width, out, x, e, at);
      OnLineBehind([','], more, goal);
      LaidBefore(items[0], d, 2 * d, width, after);
      OnLineBehind(Laid(items[0], d, 2 * d, width, ""), after, goal);
      OnLineBehind(Break(d), LaidItems(items, d, width, out), goal);
    } else if Stands(items[0], d, x, e, at) {
      Place(items[0], d, 2 * d, width, after, x, e, at);
      OnLineBehind(Break(d), LaidItems(items, d, width, out), goal);
    } else {
      LaidBefore(x, d, 2 * d, width, after);
      BreakLine(d, Laid(x, d, 2 * d, width, ""), after);
      OnLineHere(goal, after);
    }
  }

  lemma {:induction false} PlaceMember(ms: seq<Member>, i: nat, d: nat, width: nat, out: string, x: Json, e: nat, at: string)
    requires i < |ms| && Reaches(ms[i].value, d, Opening(ms[i].key, d), x, e, at)
    requires (width == 0 || !IsSimple(x)) && LineBreak(out)
    ensures OnLine(Break(d) + LaidMembers(ms, d, width, out), at + Laid(x, e, |at|, width, ""))
    decreases ms, 0
  {
    FromHead(ms, d, width, out);
    if i > 0 {
      PlaceMember(ms[1..], i - 1, d, width, out, x, e, at);
      BehindMember(ms[0], d, width, Break(d) + LaidMembers(ms[1..], d, width, out), at + Laid(x, e, |at|, width, ""));
    } else {
      PlaceHead(ms[0], d, width, AfterMember(ms, d, width, out), x, e, at);
    }
  }

  function AfterMember(ms: seq<Member>, d: nat, width: nat, out: string): string
    requires ms != []
  {
    if |ms| == 1 then out else [','] + (Break(d) + LaidMembers(ms[1..], d, width, out))
  }

  lemma FromHead(ms: seq<Member>, d: nat, width: nat, out: string)
    requires ms != [] && LineBreak(out)
    ensures Break(d) + LaidMembers(ms, d, width, out) == MemberText(ms[0], d, width, AfterMember(ms, d, width, out))
    ensures LineBreak(AfterMember(ms, d, width, out))
  {
  }

  lemma {:induction false} PlaceHead(m: Member, d: nat, width: nat, after: string, x: Json, e: nat, at: string)
    requires Reaches(m.value, d, Opening(m.key, d), x, e, at) && (width == 0 || !IsSimple(x)) && LineBreak(after)
    ensures OnLine(MemberText(m, d, width, after), at + Laid(x, e, |at|, width, ""))
    decreases m, 0
  {
    if Stands(m.value, d, x, e, at) {
      var col := 2 * d + |Quote(Escape(m.key))| + 2;
      Place(m.value, d, col, width, after, x, e, at);
      BehindKey(Quote(Escape(m.key)), d, Laid(m.value, d, col, width, after), at + Laid(x, e, |at|, width, ""));
    } else {
      MemberHere(m, d, width, after);
    }
  }

  /** Text of a member from its own line on. */
  function MemberText(m: Member, d: nat, width: nat, after: string): string {
    Break(d) + (Quote(Escape(m.key)) + ([':', ' '] + Laid(m.value, d, 2 * d + |Quote(Escape(m.key))| + 2, width, after)))
  }

  lemma BehindMember(m: Member, d: nat, width: nat, more: string, goal: string)
    requires OnLine(more, goal)
    ensures OnLine(MemberText(m, d, width, [','] + more), goal)
  {
    var col := 2 * d + |Quote(Escape(m.key))| + 2;
    OnLineBehind([','], more, goal);
    LaidBefore(m.value, d, col, width, [','] + more);
    OnLineBehind(Laid(m.value, d, col, width, ""), [','] + more, goal);
    BehindKey(Quote(Escape(m.key)), d, Laid(m.value, d, col, width, [','] + more), goal);
  }

  lemma MemberHere(m: Member, d: nat, width: nat, after: string)
    requires LineBreak(after)
    ensures var at := Opening(m.key, d); OnLine(MemberText(m, d, width, after), at + Laid(m.value, d, |at|, width, ""))
  {
    var at := Opening(m.key, d);
    LaidBefore(m.value, d, |at|, width, after);
    KeyLine(m.key, d, Laid(m.value, d, |at|, width, ""), after);
    OnLineHere(at + Laid(m.value, d, |at|, width, ""), after);
  }

  lemma BehindKey(key: string, d: nat, value: string, goal: string)
    requires OnLine(value, goal)
    ensures OnLine(Break(d) + (key + ([':', ' '] + value)), goal)
  {
    OnLineBehind([':', ' '], value, goal);
    OnLineBehind(key, [':', ' '] + value, goal);
    OnLineBehind(Break(d), key + ([':', ' '] + value), goal);
  }

  // What the two forms look like ------------------------------------------------------------

  /** Simple items on a line each. */
  function ItemLines(items: seq<Json>, d: nat): string
    requires items != [] && AllSimple(items)
  {
    assert items[0] in items;
    ['\n'] + (Spaces(2 * d) + ScalarText(items[0])) + if |items| == 1 then "" else [','] + ItemLines(items[1..], d)
  }

  /** The array behind them, its bracket on a line of its own. */
  function Spread(items: seq<Json>, d: nat): string
    requires items != [] && AllSimple(items)
  {
    ['['] + (ItemLines(items, d + 1) + (['\n'] + (Spaces(2 * d) + [']'])))
  }

  lemma {:induction false} ItemLinesDump(items: seq<Json>, d: nat, close: string)
    requires items != [] && AllSimple(items)
    ensures Break(d) + DumpItems(items, d, close) == ItemLines(items, d) + close
  {
    assert items[0] in items;
    var a := ScalarText(items[0]);
    if |items| == 1 {
      BreakLine(d, a, close);
      assert ItemLines(items, d) == ['\n'] + (Spaces(2 * d) + a);
    } else {
      ItemLinesDump(items[1..], d, close);
      var more := ItemLines(items[1..], d);
      BreakLine(d, a, [','] + (more + close));
      Base.Regroup([','], more, close);
      Base.Regroup(['\n'] + (Spaces(2 * d) + a), [','] + more, close);
    }
  }

  lemma SpreadIsLaid(items: seq<Json>, d: nat, col: nat, width: nat)
    requires items != [] && AllSimple(items) && !FitsLine(items, d, col, width)
    ensures Laid(Arr(items), d, col, width, "") == Spread(items, d)
  {
    var close := Break(d) + ([']'] + "");
    SimpleItemsLaid(items, d + 1, width, close);
    ItemLinesDump(items, d + 1, close);
    BreakText(d, [']']);
    assert [']'] + "" == [']'];
  }

  lemma OnLineEnded(s: string, t: string)
    requires OnLine(s, t)
    ensures OnLine(s + ['\n'], t)
  {
    var before, after :| LineBreak(after) && s == before + (['\n'] + t + after);
    Base.Regroup(before, ['\n'] + t + after, ['\n']);
    Base.Regroup(['\n'] + t, after, ['\n']);
    assert s + ['\n'] == before + (['\n'] + t + (after + ['\n']));
    assert LineBreak(after + ['\n']);
  }

  /**
   * A non-empty array of simple items below the top level: with compaction it stands on one line
   * exactly when that line ends by column 80, and in every other case it takes a line per item.
   */
  lemma ArrayLines(v: Json, compact: bool, items: seq<Json>, d: nat, at: string)
    requires Printable(v) && Stands(v, 0, Arr(items), d, at) && items != [] && AllSimple(items)
    ensures OnLine(Serialize(v, compact),
                   at + if compact && |at| + |OneLine(items, "")| <= 80 then OneLine(items, "") else Spread(items, d))
  {
    var width := if compact then 80 else 0;
    StandsBelow(v, 0, Arr(items), d, at);
    SerializeIsLaid(v, compact);
    Place(v, 0, 0, width, "", Arr(items), d, at);
    if !FitsLine(items, d, |at|, width) { SpreadIsLaid(items, d, |at|, width); }
    OnLineEnded(Laid(v, 0, 0, width, ""), at + Laid(Arr(items), d, |at|, width, ""));
  }

  lemma {:induction false} StandsBelow(v: Json, d: nat, x: Json, e: nat, at: string)
    requires Stands(v, d, x, e, at)
    ensures e > d
    decreases v
  {
    match v
    case Arr(items) =>
      var i :| 0 <= i < |items| && Reaches(items[i], d + 1, Spaces(2 * (d + 1)), x, e, at);
      if Stands(items[i], d + 1, x, e, at) { StandsBelow(items[i], d + 1, x, e, at); }
    case Obj(ms) =>
      var i :| 0 <= i < |ms| && Reaches(ms[i].value, d + 1, Opening(ms[i].key, d + 1), x, e, at);
      if Stands(ms[i].value, d + 1, x, e, at) { StandsBelow(ms[i].value, d + 1, x, e, at); }
    case _ =>
  }

  /** Without compaction every value inside stands on lines of its own: an array takes a line per item. */
  lemma PlainLines(v: Json, x: Json, d: nat, at: string)
    requires Printable(v) && Stands(v, 0, x, d, at)
    ensures OnLine(Serialize(v, false), at + Dump(x, d, ""))
  {
    SerializeIsLaid(v, false);
    Place(v, 0, 0, 0, "", x, d, at);
    NarrowIsDump(x, d, |at|, "");
    OnLineEnded(Laid(v, 0, 0, 0, ""), at + Dump(x, d, ""));
  }

  // The last line break ---------------------------------------------------------------------

  /** A text that does not end in a line break. */
  predicate Solid(s: string) { s != "" && s[|s| - 1] != '\n' }

  lemma SolidBehind(a: string, s: string)
    requires Solid(s)
    ensures Solid(a + s)
  {
  }

  lemma {:induction false} ListingSolid(items: seq<Json>)
    requires items != [] && AllSimple(items)
    ensures Solid(Listing(items, ""))
  {
    assert items[0] in items;
    if |items| > 1 {
      ListingSolid(items[1..]);
      SolidBehind([',', ' '], Listing(items[1..], ""));
      SolidBehind(ScalarText(items[0]), [',', ' '] + Listing(items[1..], ""));
    } else {
      SolidBehind(ScalarText(items[0]), [']'] + "");
    }
  }

  lemma ScalarSolid(v: Json, d: nat)
    requires Printable(v) && !v.Arr? && !v.Obj?
    ensures Solid(Dump(v, d, ""))
  {
    if !v.Str? {
      LiteralWord(v);
      var w := Literal(v);
      assert w + "" == w && w[|w| - 1] in w;
    }
  }

  lemma LaidSolid(v: Json, d: nat, col: nat, width: nat)
    requires Printable(v)
    ensures Solid(Laid(v, d, col, width, ""))
  {
    match v
    case Arr(items) =>
      var close := Break(d) + ([']'] + "");
      if items != [] && FitsLine(items, d, col, width) {
        ListingSolid(items);
        SolidBehind(['['], Listing(items, ""));
      } else if items != [] {
        LaidItemsAppend(items, d + 1, width, "", close);
        SolidBehind(LaidItems(items, d + 1, width, ""), close);
        assert "" + close == close;
        SolidBehind(Break(d + 1), LaidItems(items, d + 1, width, close));
        SolidBehind(['['], Break(d + 1) + LaidItems(items, d + 1, width, close));
      }
    case Obj(ms) =>
      var close := Break(d) + (['}'] + "");
      if ms != [] {
        LaidMembersAppend(ms, d + 1, width, "", close);
        SolidBehind(LaidMembers(ms, d + 1, width, ""), close);
        assert "" + close == close;
        SolidBehind(Break(d + 1), LaidMembers(ms, d + 1, width, close));
        SolidBehind(['{'], Break(d + 1) + LaidMembers(ms, d + 1, width, close));
      }
    case _ => ScalarSolid(v, d);
  }

  /** Both forms end in exactly one line break. */
  lemma OneFinalBreak(v: Json, compact: bool)
    requires Printable(v)
    ensures var s := Serialize(v, compact); |s| > 1 && s[|s| - 1] == '\n' && s[|s| - 2] != '\n'
  {
    SerializeIsLaid(v, compact);
    LaidSolid(v, 0, 0, if compact then 80 else 0);
  }

  // Which items are simple ------------------------------------------------------------------

  predicate HasExponent(s: string) { 'e' in s || 'E' in s }

  lemma DigitsHaveNone(s: string, n: nat)
    requires n <= DigitsLen(s)
    ensures !HasExponent(s[..n])
  {
    assert forall c :: c in s[..n] ==> '0' <= c <= '9';
  }

  lemma ExponentSplit(s: string, n: nat)
    requires n <= |s|
    ensures HasExponent(s) <==> HasExponent(s[..n]) || HasExponent(s[n..])
  {
    assert s == s[..n] + s[n..];
  }

  lemma FractionExponent(u: string)
    requires IsFraction(u)
    ensures !HasExponent(u) <==> u == "" || (u[0] == '.' && |u| > 1 && DigitsLen(u[1..]) == |u| - 1)
  {
    if u != "" && u[0] == '.' {
      var n := DigitsLen(u[1..]);
      ExponentSplit(u, 1);
      ExponentSplit(u[1..], n);
      DigitsHaveNone(u[1..], n);
      assert u[1..][n..] == u[1 + n..];
    }
  }

  lemma NumberExponent(s: string)
    requires IsNumber(s)
    ensures IsDecimal(s) <==> !HasExponent(s)
  {
    var k := if s[0] == '-' then 1 else 0;
    var t := s[k..];
    var n := DigitsLen(t);
    ExponentSplit(s, k);
    ExponentSplit(t, n);
    DigitsHaveNone(t, n);
    FractionExponent(t[n..]);
    if n < |t| { assert t[n..][1..] == t[n + 1..]; }
  }

  /** The items that may share a line: no exponent in a number, no quote inside a string, nothing nested. */
  lemma SimpleIs(v: Json)
    requires Printable(v)
    ensures IsSimple(v) <==>
            match v
            case Num(literal) => 'e' !in literal && 'E' !in literal
            case Str(s) => '"' !in s
            case Arr(_) => false
            case Obj(_) => false
            case _ => true
  {
    if v.Num? { NumberExponent(v.literal); }
  }
}
