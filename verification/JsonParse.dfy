/** Reference parser: the value a token sequence denotes, and that printing is undone by it. */
module JsonParse {
  import opened Base
  import opened JsonText

  function WordValue(w: string): Option<Json> {
    if w == "null" then Some(Null)
    else if w == "true" then Some(Bool(true))
    else if w == "false" then Some(Bool(false))
    else if IsNumber(w) then Some(Num(w))
    else None
  }

  /** Value at the front of `ts` and the tokens after it. */
  function ParseValue(ts: seq<Token>): (out: Option<(Json, seq<Token>)>)
    ensures out.Some? ==> |out.value.1| < |ts|
    decreases |ts|, 0
  {
    if ts == [] then None
    else
      match ts[0]
      case Quoted(raw) =>
        var s := Unescape(raw);
        if s.None? then None else Some((Str(s.value), ts[1..]))
      case Word(w) =>
        var v := WordValue(w);
        if v.None? then None else Some((v.value, ts[1..]))
      case Punct(c) =>
        if c == '[' then
          if |ts| > 1 && ts[1] == Punct(']') then Some((Arr([]), ts[2..]))
          else
            var xs := ParseItems(ts[1..]);
            if xs.None? then None else Some((Arr(xs.value.0), xs.value.1))
        else if c == '{' then
          if |ts| > 1 && ts[1] == Punct('}') then Some((Obj([]), ts[2..]))
          else
            var ms := ParseMembers(ts[1..]);
            if ms.None? then None else Some((Obj(ms.value.0), ms.value.1))
        else None
  }

  function ParseItems(ts: seq<Token>): (out: Option<(seq<Json>, seq<Token>)>)
    ensures out.Some? ==> |out.value.1| < |ts|
    decreases |ts|, 1
  {
    var v := ParseValue(ts);
    if v.None? || v.value.1 == [] then None
    else
      var (x, r) := v.value;
      if r[0] == Punct(']') then Some(([x], r[1..]))
      else if r[0] == Punct(',') then
        var xs := ParseItems(r[1..]);
        if xs.None? then None else Some(([x] + xs.value.0, xs.value.1))
      else None
  }

  function ParseMembers(ts: seq<Token>): (out: Option<(seq<Member>, seq<Token>)>)
    ensures out.Some? ==> |out.value.1| < |ts|
    decreases |ts|, 1
  {
    if |ts| < 2 || !ts[0].Quoted? || ts[1] != Punct(':') then None
    else
      var key, v := Unescape(ts[0].raw), ParseValue(ts[2..]);
      if key.None? || v.None? || v.value.1 == [] then None
      else
        var m, r := Member(key.value, v.value.0), v.value.1;
        if r[0] == Punct('}') then Some(([m], r[1..]))
        else if r[0] == Punct(',') then
          var ms := ParseMembers(r[1..]);
          if ms.None? then None else Some(([m] + ms.value.0, ms.value.1))
        else None
  }

  /** A text with exactly one value. */
  function Parse(text: string): Option<Json> {
    var ts := Lex(text);
    if ts.None? then None
    else
      var v := ParseValue(ts.value);
      if v.Some? && v.value.1 == [] then Some(v.value.0) else None
  }

  lemma LiteralValue(v: Json)
    requires Printable(v) && (v.Null? || v.Bool? || v.Num?)
    ensures WordValue(Literal(v)) == Some(v)
  {
    if v.Num? {
      var w := v.literal;
      assert w[0] == '-' || '0' <= w[0] <= '9';
    }
  }

  lemma FirstToken(v: Json, rest: seq<Token>)
    ensures Tokens(v, rest) != [] && Tokens(v, rest)[0] != Punct(']') && Tokens(v, rest)[0] != Punct('}')
  {
  }

  /** The parser reads back exactly the value, and leaves what follows it. */
  lemma {:induction false} ParseTokens(v: Json, rest: seq<Token>)
    requires Printable(v)
    ensures ParseValue(Tokens(v, rest)) == Some((v, rest))
    decreases v, 0
  {
    var ts := Tokens(v, rest);
    match v
    case Str(s) =>
      UnescapeEscape(s);
      assert ts[1..] == rest;
    case Arr(items) =>
      if items == [] {
        assert ts[2..] == rest;
      } else {
        var body := ItemTokens(items, [Punct(']')] + rest);
        assert ts[1..] == body;
        ParseItemTokens(items, rest);
        FirstToken(items[0], if |items| == 1 then [Punct(']')] + rest else [Punct(',')] + ItemTokens(items[1..], [Punct(']')] + rest));
      }
    case Obj(ms) =>
      if ms == [] {
        assert ts[2..] == rest;
      } else {
        var body := MemberTokens(ms, [Punct('}')] + rest);
        assert ts[1..] == body;
        ParseMemberTokens(ms, rest);
      }
    case _ =>
      LiteralValue(v);
      assert ts[1..] == rest;
  }

  lemma {:induction false} ParseItemTokens(items: seq<Json>, rest: seq<Token>)
    requires items != [] && forall x :: x in items ==> Printable(x)
    ensures ParseItems(ItemTokens(items, [Punct(']')] + rest)) == Some((items, rest))
    decreases items, 0
  {
    var close := [Punct(']')] + rest;
    if |items| == 1 {
      ParseTokens(items[0], close);
      assert close[1..] == rest && items == [items[0]];
    } else {
      var more := ItemTokens(items[1..], close);
      ParseItemTokens(items[1..], rest);
      ParseTokens(items[0], [Punct(',')] + more);
      assert ([Punct(',')] + more)[1..] == more && items == [items[0]] + items[1..];
    }
  }

  lemma ParseOneMember(m: Member, after: seq<Token>)
    requires Printable(m.value) && after != []
    ensures var ts := [Quoted(Escape(m.key)), Punct(':')] + Tokens(m.value, after);
            Unescape(ts[0].raw) == Some(m.key) && ParseValue(ts[2..]) == Some((m.value, after))
  {
    UnescapeEscape(m.key);
    ParseTokens(m.value, after);
    assert ([Quoted(Escape(m.key)), Punct(':')] + Tokens(m.value, after))[2..] == Tokens(m.value, after);
  }

  lemma Behind<T>(x: T, rest: seq<T>)
    ensures ([x] + rest)[0] == x && ([x] + rest)[1..] == rest
  {
  }

  lemma {:induction false} ParseMemberTokens(ms: seq<Member>, rest: seq<Token>)
    requires ms != [] && forall m :: m in ms ==> Printable(m.value)
    ensures ParseMembers(MemberTokens(ms, [Punct('}')] + rest)) == Some((ms, rest))
    decreases ms, 0
  {
    var close := [Punct('}')] + rest;
    if |ms| == 1 {
      ParseOneMember(ms[0], close);
      Behind(Punct('}'), rest);
      assert ms == [ms[0]];
    } else {
      var more := MemberTokens(ms[1..], close);
      ParseMemberTokens(ms[1..], rest);
      ParseOneMember(ms[0], [Punct(',')] + more);
      Behind(Punct(','), more);
      assert ms == [ms[0]] + ms[1..];
    }
  }

  /** Printing then parsing gives the value back; `tail` is trailing blank space. */
  lemma PrintedParses(v: Json, tail: string)
    requires Printable(v) && forall c :: c in tail ==> IsWs(c)
    ensures Lex(Dump(v, 0, tail)).Some? && Parse(Dump(v, 0, tail)) == Some(v)
  {
    LexBlank(tail, "");
    assert tail + "" == tail;
    if tail != "" { assert tail[0] in tail; }
    LexDump(v, 0, tail);
    ParseTokens(v, []);
  }
}
