/** JSON values, their pretty-printed text and a lexer for JSON texts (RFC 8259, sections 2 and 7). */
module JsonText {
  import opened Base

  datatype Json =
    | Null
    | Bool(b: bool)
    | Num(literal: string)
    | Str(s: string)
    | Arr(items: seq<Json>)
    | Obj(members: seq<Member>)

  datatype Member = Member(key: string, value: Json)

  // Lexer -----------------------------------------------------------------------------------

  /** String tokens keep their escapes; a word is a number or a literal name. */
  datatype Token = Punct(c: char) | Quoted(raw: string) | Word(w: string)

  predicate IsWs(c: char) { c == ' ' || c == '\t' || c == '\n' || c == '\r' }

  predicate IsPunct(c: char) { c == '[' || c == ']' || c == '{' || c == '}' || c == ',' || c == ':' }

  predicate IsWordChar(c: char) {
    'a' <= c <= 'z' || 'A' <= c <= 'Z' || '0' <= c <= '9' || c == '-' || c == '+' || c == '.'
  }

  /** Length of the string body that the first unescaped quote ends. */
  function BodyLen(s: string): (n: Option<nat>)
    ensures n.Some? ==> n.value < |s| && s[n.value] == '"' && forall i :: 0 <= i < n.value ==> s[i] != '\n'
  {
    if s == "" || s[0] < ' ' then None
    else if s[0] == '"' then Some(0)
    else if s[0] == '\\' then
      if |s| < 2 || s[1] < ' ' then None
      else
        var n := BodyLen(s[2..]);
        if n.None? then None else Some(n.value + 2)
    else
      var n := BodyLen(s[1..]);
      if n.None? then None else Some(n.value + 1)
  }

  function WordLen(s: string): (n: nat)
    ensures n <= |s| && forall i :: 0 <= i < n ==> IsWordChar(s[i])
    ensures n < |s| ==> !IsWordChar(s[n])
  {
    if s == "" || !IsWordChar(s[0]) then 0 else 1 + WordLen(s[1..])
  }

  function Push(t: Token, rest: Option<seq<Token>>): Option<seq<Token>> {
    if rest.None? then None else Some([t] + rest.value)
  }

  function Lex(s: string): Option<seq<Token>>
    decreases |s|
  {
    if s == "" then Some([])
    else if IsWs(s[0]) then Lex(s[1..])
    else if IsPunct(s[0]) then Push(Punct(s[0]), Lex(s[1..]))
    else if s[0] == '"' then
      var n := BodyLen(s[1..]);
      if n.None? then None else Push(Quoted(s[1..1 + n.value]), Lex(s[2 + n.value..]))
    else if IsWordChar(s[0]) then Push(Word(s[..WordLen(s)]), Lex(s[WordLen(s)..]))
    else None
  }

  /** Where a word may end. */
  predicate Delimits(s: string) { s == "" || !IsWordChar(s[0]) }

  lemma {:induction false} LexBlank(ws: string, x: string)
    requires forall c :: c in ws ==> IsWs(c)
    ensures Lex(ws + x) == Lex(x)
  {
    if ws == "" {
      assert ws + x == x;
    } else {
      assert ws[0] in ws && (ws + x)[1..] == ws[1..] + x;
      LexBlank(ws[1..], x);
    }
  }

  lemma {:induction false} WordLenOf(w: string, x: string)
    requires (forall c :: c in w ==> IsWordChar(c)) && Delimits(x)
    ensures WordLen(w + x) == |w|
  {
    if w == "" {
      assert w + x == x;
    } else {
      assert w[0] in w && (w + x)[1..] == w[1..] + x;
      WordLenOf(w[1..], x);
    }
  }

  lemma LexWord(w: string, x: string)
    requires w != "" && (forall c :: c in w ==> IsWordChar(c)) && Delimits(x)
    ensures Lex(w + x) == Push(Word(w), Lex(x))
  {
    WordLenOf(w, x);
    assert w[0] in w && (w + x)[..|w|] == w && (w + x)[|w|..] == x;
  }

  /** A complete string body: escapes are pairs, and no raw quote or control character occurs. */
  predicate IsBody(b: string) {
    b == "" ||
    (b[0] >= ' ' && b[0] != '"' &&
     if b[0] == '\\' then |b| >= 2 && b[1] >= ' ' && IsBody(b[2..]) else IsBody(b[1..]))
  }

  lemma {:induction false} BodyLenOf(b: string, x: string)
    requires IsBody(b)
    ensures BodyLen(b + ['"'] + x) == Some(|b|)
    decreases |b|
  {
    var s := b + ['"'] + x;
    if b != "" {
      var k := if b[0] == '\\' then 2 else 1;
      assert s[0] == b[0] && (k == 2 ==> s[1] == b[1]) && s[k..] == b[k..] + ['"'] + x;
      BodyLenOf(b[k..], x);
    }
  }

  function Quote(b: string): string { ['"'] + b + ['"'] }

  lemma LexQuoted(b: string, x: string)
    requires IsBody(b)
    ensures Lex(Quote(b) + x) == Push(Quoted(b), Lex(x))
  {
    var s := Quote(b) + x;
    BodyLenOf(b, x);
    assert s[0] == '"' && s[1..] == b + ['"'] + x;
    assert s[1..1 + |b|] == b && s[2 + |b|..] == x;
  }

  // Strings ---------------------------------------------------------------------------------

  function HexDigit(n: nat): char
    requires n < 16
  {
    if n < 10 then '0' + n as char else 'a' + (n - 10) as char
  }

  function HexValue(c: char): (v: Option<nat>)
    ensures v.Some? ==> v.value < 16
  {
    if '0' <= c <= '9' then Some((c - '0') as nat)
    else if 'a' <= c <= 'f' then Some((c - 'a') as nat + 10)
    else if 'A' <= c <= 'F' then Some((c - 'A') as nat + 10)
    else None
  }

  /** Escapes of `json.dumps(ensure_ascii=False)`: the quote, the backslash and control characters. */
  function EscapeChar(c: char): string {
    if c == '"' then "\\\"" else if c == '\\' then "\\\\"
    else if c == '\n' then "\\n" else if c == '\r' then "\\r" else if c == '\t' then "\\t"
    else if c == '\U{000C}' then "\\f" else if c == '\U{0008}' then "\\b"
    else if c < ' ' then "\\u00" + [HexDigit(c as nat / 16), HexDigit(c as nat % 16)]
    else [c]
  }

  function Escape(s: string): string {
    if s == "" then "" else EscapeChar(s[0]) + Escape(s[1..])
  }

  /** Character a short escape stands for. */
  function ShortEscape(c: char): Option<char> {
    match c
    case '"' => Some('"') case '\\' => Some('\\') case '/' => Some('/')
    case 'n' => Some('\n') case 'r' => Some('\r') case 't' => Some('\t')
    case 'f' => Some('\U{000C}') case 'b' => Some('\U{0008}')
    case _ => None
  }

  /** Four hex digits of the basic plane below the surrogates. */
  function HexChar(s: string): Option<char>
    requires |s| == 4
  {
    var a, b, c, d := HexValue(s[0]), HexValue(s[1]), HexValue(s[2]), HexValue(s[3]);
    if a.None? || b.None? || c.None? || d.None? then None
    else
      var code := ((a.value * 16 + b.value) * 16 + c.value) * 16 + d.value;
      if code < 0xD800 then Some(code as char) else None
  }

  /** One character of a string body and how much text it takes. */
  function DecodeChar(b: string): Option<(char, nat)>
    requires b != ""
  {
    if b[0] != '\\' then Some((b[0], 1))
    else if |b| < 2 then None
    else if b[1] == 'u' then
      if |b| < 6 then None else
        var c := HexChar(b[2..6]);
        if c.None? then None else Some((c.value, 6))
    else
      var c := ShortEscape(b[1]);
      if c.None? then None else Some((c.value, 2))
  }

  /** Decoded string body. */
  function Unescape(b: string): Option<string>
    decreases |b|
  {
    if b == "" then Some("")
    else
      match DecodeChar(b)
      case None => None
      case Some((c, n)) =>
        if n > |b| || n == 0 then None else
        var rest := Unescape(b[n..]);
        if rest.None? then None else Some([c] + rest.value)
  }

  lemma HexPair(c: char)
    requires c < ' '
    ensures HexChar("00" + [HexDigit(c as nat / 16), HexDigit(c as nat % 16)]) == Some(c)
  {
    assert c as nat < 32;
    assert c as nat / 16 == 0 || c as nat / 16 == 1;
  }

  lemma DecodeEscaped(c: char, b: string)
    ensures DecodeChar(EscapeChar(c) + b) == Some((c, |EscapeChar(c)|))
  {
    var e := EscapeChar(c);
    assert forall i :: 0 <= i < |e| ==> (e + b)[i] == e[i];
    if |e| == 6 {
      assert (e + b)[2..6] == "00" + [HexDigit(c as nat / 16), HexDigit(c as nat % 16)];
      HexPair(c);
    }
  }

  lemma {:induction false} UnescapeEscape(s: string)
    ensures Unescape(Escape(s)) == Some(s)
  {
    if s != "" {
      var e := EscapeChar(s[0]);
      DecodeEscaped(s[0], Escape(s[1..]));
      assert (e + Escape(s[1..]))[|e|..] == Escape(s[1..]);
      UnescapeEscape(s[1..]);
      assert s == [s[0]] + s[1..];
    }
  }

  lemma PlainCharBody(c: char, b: string)
    requires IsBody(b) && c >= ' ' && c != '"' && c != '\\'
    ensures IsBody([c] + b)
  {
    assert ([c] + b)[1..] == b;
  }

  lemma EscapedCharBody(c: char, b: string)
    requires IsBody(b)
    ensures IsBody(EscapeChar(c) + b)
  {
    var e := EscapeChar(c);
    if |e| == 6 {
      var x, y := HexDigit(c as nat / 16), HexDigit(c as nat % 16);
      PlainCharBody(y, b);
      PlainCharBody(x, [y] + b);
      PlainCharBody('0', [x] + ([y] + b));
      PlainCharBody('0', ['0'] + ([x] + ([y] + b)));
      assert (e + b)[2..] == ['0'] + (['0'] + ([x] + ([y] + b)));
    } else {
      assert (e + b)[|e|..] == b;
    }
  }

  lemma {:induction false} EscapedIsBody(s: string)
    ensures IsBody(Escape(s))
  {
    if s != "" {
      EscapedIsBody(s[1..]);
      EscapedCharBody(s[0], Escape(s[1..]));
    }
  }

  // Pretty printing -------------------------------------------------------------------------

  function Spaces(n: nat): (s: string)
    ensures |s| == n && forall c :: c in s ==> c == ' '
  {
    if n == 0 then "" else [' '] + Spaces(n - 1)
  }

  /** Line break and the indentation of depth `d`. */
  function Break(d: nat): string { ['\n'] + Spaces(2 * d) }

  function Literal(v: Json): string
    requires v.Null? || v.Bool? || v.Num?
  {
    match v case Null => "null" case Bool(b) => if b then "true" else "false" case Num(literal) => literal
  }

  /** Text of `v` at depth `d` as `json.dumps(indent=2)` writes it, followed by `rest`. */
  function Dump(v: Json, d: nat, rest: string): string
    decreases v, 0
  {
    match v
    case Str(s) => Quote(Escape(s)) + rest
    case Arr(items) =>
      ['['] + if items == [] then [']'] + rest else Break(d + 1) + DumpItems(items, d + 1, Break(d) + ([']'] + rest))
    case Obj(members) =>
      ['{'] + if members == [] then ['}'] + rest else Break(d + 1) + DumpMembers(members, d + 1, Break(d) + (['}'] + rest))
    case _ => Literal(v) + rest
  }

  function DumpItems(items: seq<Json>, d: nat, rest: string): string
    requires items != []
    decreases items, 0
  {
    Dump(items[0], d, if |items| == 1 then rest else [','] + (Break(d) + DumpItems(items[1..], d, rest)))
  }

  function DumpMembers(ms: seq<Member>, d: nat, rest: string): string
    requires ms != []
    decreases ms, 0
  {
    Quote(Escape(ms[0].key))
    + ([':', ' '] + Dump(ms[0].value, d, if |ms| == 1 then rest else [','] + (Break(d) + DumpMembers(ms[1..], d, rest))))
  }

  /** Token sequence of `v` followed by `rest`. */
  function Tokens(v: Json, rest: seq<Token>): seq<Token>
    decreases v, 0
  {
    match v
    case Str(s) => [Quoted(Escape(s))] + rest
    case Arr(items) => [Punct('[')] + if items == [] then [Punct(']')] + rest else ItemTokens(items, [Punct(']')] + rest)
    case Obj(ms) => [Punct('{')] + if ms == [] then [Punct('}')] + rest else MemberTokens(ms, [Punct('}')] + rest)
    case _ => [Word(Literal(v))] + rest
  }

  function ItemTokens(items: seq<Json>, rest: seq<Token>): seq<Token>
    requires items != []
    decreases items, 0
  {
    Tokens(items[0], if |items| == 1 then rest else [Punct(',')] + ItemTokens(items[1..], rest))
  }

  function MemberTokens(ms: seq<Member>, rest: seq<Token>): seq<Token>
    requires ms != []
    decreases ms, 0
  {
    [Quoted(Escape(ms[0].key)), Punct(':')]
    + Tokens(ms[0].value, if |ms| == 1 then rest else [Punct(',')] + MemberTokens(ms[1..], rest))
  }

  // Number literals follow section 6 of RFC 8259.

  function DigitsLen(s: string): (n: nat)
    ensures n <= |s| && forall i :: 0 <= i < n ==> '0' <= s[i] <= '9'
  {
    if s == "" || !('0' <= s[0] <= '9') then 0 else 1 + DigitsLen(s[1..])
  }

  predicate IsExponent(s: string) {
    s == "" || (
      (s[0] == 'e' || s[0] == 'E') &&
      var t := if |s| > 1 && (s[1] == '+' || s[1] == '-') then s[2..] else s[1..];
      t != "" && DigitsLen(t) == |t|)
  }

  predicate IsFraction(s: string) {
    if s != "" && s[0] == '.' then DigitsLen(s[1..]) > 0 && IsExponent(s[1 + DigitsLen(s[1..])..]) else IsExponent(s)
  }

  predicate IsNumber(s: string) {
    var t := if s != "" && s[0] == '-' then s[1..] else s;
    var n := DigitsLen(t);
    n > 0 && (t[0] == '0' ==> n == 1) && IsFraction(t[n..])
  }

  ghost predicate Printable(v: Json) {
    match v
    case Num(literal) => IsNumber(literal)
    case Arr(items) => forall x :: x in items ==> Printable(x)
    case Obj(ms) => forall m :: m in ms ==> Printable(m.value)
    case _ => true
  }

  lemma TailWords(s: string, n: nat)
    requires n <= |s| && (forall c :: c in s[..n] ==> IsWordChar(c)) && forall c :: c in s[n..] ==> IsWordChar(c)
    ensures forall c :: c in s ==> IsWordChar(c)
  {
    assert s == s[..n] + s[n..];
  }

  lemma ExponentWord(s: string)
    requires IsExponent(s)
    ensures forall c :: c in s ==> IsWordChar(c)
  {
    if s != "" { TailWords(s, if |s| > 1 && (s[1] == '+' || s[1] == '-') then 2 else 1); }
  }

  lemma FractionWord(s: string)
    requires IsFraction(s)
    ensures forall c :: c in s ==> IsWordChar(c)
  {
    if s != "" && s[0] == '.' {
      var n := DigitsLen(s[1..]);
      assert s[1..][n..] == s[1 + n..];
      ExponentWord(s[1 + n..]);
      TailWords(s[1..], n);
      TailWords(s, 1);
    } else {
      ExponentWord(s);
    }
  }

  lemma NumberWord(s: string)
    requires IsNumber(s)
    ensures s != "" && forall c :: c in s ==> IsWordChar(c)
  {
    var k := if s[0] == '-' then 1 else 0;
    var t := s[k..];
    FractionWord(t[DigitsLen(t)..]);
    TailWords(t, DigitsLen(t));
    TailWords(s, k);
  }

  lemma LiteralWord(v: Json)
    requires Printable(v) && (v.Null? || v.Bool? || v.Num?)
    ensures Literal(v) != "" && forall c :: c in Literal(v) ==> IsWordChar(c)
  {
    if v.Num? { NumberWord(v.literal); }
  }

  // Lexing what was printed -----------------------------------------------------------------

  lemma LexPunct(c: char, x: string)
    requires IsPunct(c)
    ensures Lex([c] + x) == Push(Punct(c), Lex(x))
  {
    assert ([c] + x)[1..] == x;
  }

  lemma LexBreak(d: nat, x: string)
    ensures Lex(Break(d) + x) == Lex(x)
  {
    LexBlank(Break(d), x);
  }

  /** The printed text lexes to the tokens of the value. */
  lemma {:induction false} LexDump(v: Json, d: nat, rest: string)
    requires Printable(v) && Delimits(rest) && Lex(rest).Some?
    ensures Lex(Dump(v, d, rest)) == Some(Tokens(v, Lex(rest).value))
    decreases v, 0
  {
    match v
    case Str(s) =>
      EscapedIsBody(s);
      LexQuoted(Escape(s), rest);
    case Arr(items) =>
      var close := [']'] + rest;
      LexPunct(']', rest);
      if items == [] {
        LexPunct('[', close);
      } else {
        LexBreak(d, close);
        LexItems(items, d + 1, Break(d) + close);
        var body := DumpItems(items, d + 1, Break(d) + close);
        LexBreak(d + 1, body);
        LexPunct('[', Break(d + 1) + body);
      }
    case Obj(ms) =>
      var close := ['}'] + rest;
      LexPunct('}', rest);
      if ms == [] {
        LexPunct('{', close);
      } else {
        LexBreak(d, close);
        LexMembers(ms, d + 1, Break(d) + close);
        var body := DumpMembers(ms, d + 1, Break(d) + close);
        LexBreak(d + 1, body);
        LexPunct('{', Break(d + 1) + body);
      }
    case _ =>
      LiteralWord(v);
      LexWord(Literal(v), rest);
  }

  lemma {:induction false} LexItems(items: seq<Json>, d: nat, rest: string)
    requires items != [] && (forall x :: x in items ==> Printable(x)) && Delimits(rest) && Lex(rest).Some?
    ensures Lex(DumpItems(items, d, rest)) == Some(ItemTokens(items, Lex(rest).value))
    decreases items, 0
  {
    if |items| == 1 {
      LexDump(items[0], d, rest);
    } else {
      var more := DumpItems(items[1..], d, rest);
      LexItems(items[1..], d, rest);
      LexBreak(d, more);
      LexPunct(',', Break(d) + more);
      LexDump(items[0], d, [','] + (Break(d) + more));
    }
  }

  lemma LexColon(value: string)
    ensures Lex([':', ' '] + value) == Push(Punct(':'), Lex(value))
  {
    LexBlank([' '], value);
    LexPunct(':', [' '] + value);
    assert [':', ' '] + value == [':'] + ([' '] + value);
  }

  lemma PushTwo(a: Token, b: Token, ts: seq<Token>)
    ensures Push(a, Push(b, Some(ts))) == Some([a, b] + ts)
  {
    assert [a] + ([b] + ts) == [a, b] + ts;
  }

  lemma LexKey(body: string, value: string)
    requires IsBody(body) && Lex(value).Some?
    ensures Lex(Quote(body) + ([':', ' '] + value)) == Some([Quoted(body), Punct(':')] + Lex(value).value)
  {
    LexColon(value);
    LexQuoted(body, [':', ' '] + value);
    PushTwo(Quoted(body), Punct(':'), Lex(value).value);
  }

  lemma {:induction false} LexMembers(ms: seq<Member>, d: nat, rest: string)
    requires ms != [] && (forall m :: m in ms ==> Printable(m.value)) && Delimits(rest) && Lex(rest).Some?
    ensures Lex(DumpMembers(ms, d, rest)) == Some(MemberTokens(ms, Lex(rest).value))
    decreases ms, 0
  {
    var after := rest;
    if |ms| > 1 {
      var more := DumpMembers(ms[1..], d, rest);
      LexMembers(ms[1..], d, rest);
      LexBreak(d, more);
      LexPunct(',', Break(d) + more);
      after := [','] + (Break(d) + more);
    }
    LexDump(ms[0].value, d, after);
    EscapedIsBody(ms[0].key);
    LexKey(Escape(ms[0].key), Dump(ms[0].value, d, after));
  }
}
