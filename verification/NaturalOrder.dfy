/** Natural order of node ids: digit runs compare as numbers, the text between them as text. */
module NaturalOrder {
  import opened Base
  import opened Names

  datatype Part = Chars(s: string) | Number(n: nat)

  type Key = seq<Part>

  function Run(s: string, digits: bool): (n: nat)
    ensures n <= |s| && forall i :: 0 <= i < n ==> IsDigit(s[i]) == digits
    ensures n < |s| ==> IsDigit(s[n]) != digits
  {
    if s == "" || IsDigit(s[0]) != digits then 0 else 1 + Run(s[1..], digits)
  }

  function AfterText(s: string): (t: string)
    ensures |t| <= |s| && (t != "" ==> IsDigit(t[0]))
  {
    s[Run(s, false)..]
  }

  function AfterDigits(t: string): (rest: string)
    requires t != "" && IsDigit(t[0])
    ensures |rest| < |t|
  {
    t[Run(t, true)..]
  }

  /** Number the leading digits of `t` spell. */
  function LeadingNumber(t: string): nat {
    assert forall c :: c in t[..Run(t, true)] ==> IsDigit(c);
    Value(t[..Run(t, true)])
  }

  /** Text, number, text, …: split at digit runs, so it starts and ends with text, maybe empty. */
  function NaturalKey(s: string): Key
    decreases |s|
  {
    var t := AfterText(s);
    if t == "" then [Chars(s)]
    else [Chars(s[..Run(s, false)])] + ([Number(LeadingNumber(t))] + NaturalKey(AfterDigits(t)))
  }

  /** Parts alternate; `text` says which kind comes first. */
  predicate Alternates(k: Key, text: bool) {
    k != [] ==> k[0].Chars? == text && Alternates(k[1..], !text)
  }

  lemma Prepend(a: Part, b: Part, k: Key)
    requires Alternates(k, true) && a.Chars? && b.Number?
    ensures Alternates([a] + ([b] + k), true)
  {
    assert ([b] + k)[1..] == k;
    assert Alternates([b] + k, false);
    assert ([a] + ([b] + k))[1..] == [b] + k;
  }

  lemma AloneAlternates(s: string)
    ensures Alternates([Chars(s)], true)
  {
    assert [Chars(s)][1..] == [];
  }

  lemma {:induction false} KeyAlternates(s: string)
    ensures Alternates(NaturalKey(s), true)
    decreases |s|
  {
    var t := AfterText(s);
    if t == "" {
      AloneAlternates(s);
    } else {
      var k := NaturalKey(AfterDigits(t));
      KeyAlternates(AfterDigits(t));
      Prepend(Chars(s[..Run(s, false)]), Number(LeadingNumber(t)), k);
    }
  }

  predicate StrLess(a: string, b: string) {
    b != "" && (a == "" || a[0] < b[0] || (a[0] == b[0] && StrLess(a[1..], b[1..])))
  }

  datatype Mixed = Mixed(a: Part, b: Part)

  /** `a < b` on lists: the first differing parts decide, and mixed kinds are a type error. */
  function Compare(a: Key, b: Key): Result<bool, Mixed> {
    if b == [] then Ok(false)
    else if a == [] then Ok(true)
    else if a[0] == b[0] then Compare(a[1..], b[1..])
    else match (a[0], b[0])
      case (Chars(s), Chars(t)) => Ok(StrLess(s, t))
      case (Number(m), Number(n)) => Ok(m < n)
      case _ => Err(Mixed(a[0], b[0]))
  }

  predicate Less(a: Key, b: Key) { Compare(a, b) == Ok(true) }

  /** `x` comes before `y` in natural order. */
  predicate Before(x: string, y: string) { Less(NaturalKey(x), NaturalKey(y)) }

  lemma {:induction false} AlternatingCompare(a: Key, b: Key, text: bool)
    requires Alternates(a, text) && Alternates(b, text)
    ensures Compare(a, b).Ok?
  {
    if a != [] && b != [] && a[0] == b[0] { AlternatingCompare(a[1..], b[1..], !text); }
  }

  /** Comparing two ids never mixes text with numbers. */
  lemma NeverMixes(x: string, y: string)
    ensures Compare(NaturalKey(x), NaturalKey(y)).Ok?
  {
    KeyAlternates(x);
    KeyAlternates(y);
    AlternatingCompare(NaturalKey(x), NaturalKey(y), true);
  }

  lemma {:induction false} StrTrichotomy(a: string, b: string)
    ensures StrLess(a, b) ==> !StrLess(b, a) && a != b
    ensures !StrLess(a, b) && !StrLess(b, a) ==> a == b
  {
    if a != "" && b != "" && a[0] == b[0] {
      StrTrichotomy(a[1..], b[1..]);
      assert a == [a[0]] + a[1..] && b == [b[0]] + b[1..];
    }
  }

  lemma {:induction false} StrTransitive(a: string, b: string, c: string)
    requires StrLess(a, b) && StrLess(b, c)
    ensures StrLess(a, c)
  {
    if a != "" && a[0] == b[0] == c[0] { StrTransitive(a[1..], b[1..], c[1..]); }
  }

  lemma {:induction false} KeyTrichotomy(a: Key, b: Key, text: bool)
    requires Alternates(a, text) && Alternates(b, text)
    ensures Less(a, b) ==> !Less(b, a) && a != b
    ensures !Less(a, b) && !Less(b, a) ==> a == b
  {
    if a != [] && b != [] {
      if a[0] == b[0] {
        KeyTrichotomy(a[1..], b[1..], !text);
        assert a == [a[0]] + a[1..] && b == [b[0]] + b[1..];
      } else if a[0].Chars? {
        StrTrichotomy(a[0].s, b[0].s);
      }
    }
  }

  lemma {:induction false} KeyTransitive(a: Key, b: Key, c: Key, text: bool)
    requires Alternates(a, text) && Alternates(b, text) && Alternates(c, text) && Less(a, b) && Less(b, c)
    ensures Less(a, c)
  {
    if a != [] {
      if a[0] == b[0] && b[0] == c[0] {
        KeyTransitive(a[1..], b[1..], c[1..], !text);
      } else if a[0].Chars? && a[0] != b[0] && b[0] != c[0] {
        StrTransitive(a[0].s, b[0].s, c[0].s);
        StrTrichotomy(a[0].s, c[0].s);
      }
    }
  }

  lemma BeforeIrreflexive(x: string)
    ensures !Before(x, x)
  {
    KeyAlternates(x);
    KeyTrichotomy(NaturalKey(x), NaturalKey(x), true);
  }

  lemma BeforeTransitive(x: string, y: string, z: string)
    requires Before(x, y) && Before(y, z)
    ensures Before(x, z)
  {
    KeyAlternates(x);
    KeyAlternates(y);
    KeyAlternates(z);
    KeyTransitive(NaturalKey(x), NaturalKey(y), NaturalKey(z), true);
  }

  /** Ids tie exactly when their keys are equal, as `a1` and `a01` are. */
  lemma TiesAreEqualKeys(x: string, y: string)
    ensures Before(x, y) ==> !Before(y, x)
    ensures !Before(x, y) && !Before(y, x) <==> NaturalKey(x) == NaturalKey(y)
  {
    KeyAlternates(x);
    KeyAlternates(y);
    KeyTrichotomy(NaturalKey(x), NaturalKey(y), true);
  }

  /** Natural order is a strict weak order: a total preorder of ids. */
  lemma NaturalPreorder(x: string, y: string, z: string)
    requires !Before(x, y) && !Before(y, z)
    ensures !Before(x, z)
  {
    TiesAreEqualKeys(x, y);
    TiesAreEqualKeys(y, z);
    if Before(x, z) {
      if Before(y, x) { BeforeTransitive(y, x, z); }
    }
  }

  // Which way the order goes ----------------------------------------------------------------

  predicate AllDigits(s: string) { forall c :: c in s ==> IsDigit(c) }

  predicate NoDigits(s: string) { forall c :: c in s ==> !IsDigit(c) }

  predicate StartsText(s: string) { s == "" || !IsDigit(s[0]) }

  predicate EndsText(s: string) { s == "" || !IsDigit(s[|s| - 1]) }

  lemma {:induction false} RunPast(u: string, v: string, digits: bool)
    requires forall c :: c in u ==> IsDigit(c) == digits
    ensures Run(u + v, digits) == |u| + Run(v, digits)
  {
    if u == "" {
      assert u + v == v;
    } else {
      assert (u + v)[0] == u[0] && u[0] in u && (u + v)[1..] == u[1..] + v;
      RunPast(u[1..], v, digits);
    }
  }

  lemma Tail(u: string, v: string)
    ensures (u + v)[..|u|] == u && (u + v)[|u|..] == v
  {
  }

  /** Text, digits and what follows them: the first two parts of a key. */
  lemma KeyOf(u: string, d: string, v: string)
    requires NoDigits(u) && d != "" && AllDigits(d) && StartsText(v)
    ensures NaturalKey(u + (d + v)) == [Chars(u)] + ([Number(Value(d))] + NaturalKey(v))
  {
    RunPast(u, d + v, false);
    RunPast(d, v, true);
    assert d[0] in d && (d + v)[0] == d[0];
    Tail(u, d + v);
    Tail(d, v);
  }

  /** The first part of a key that begins with text. */
  lemma KeyText(u: string, v: string)
    requires NoDigits(u)
    ensures NaturalKey(u + v) != [] && NaturalKey(u + v)[0] == Chars(u + v[..Run(v, false)])
  {
    RunPast(u, v, false);
    assert (u + v)[..|u| + Run(v, false)] == u + v[..Run(v, false)];
  }

  /** A text with a digit, cut after its first number. */
  lemma FirstNumber(a: string) returns (u: string, d: string, v: string)
    requires !NoDigits(a)
    ensures a == u + (d + v) && NoDigits(u) && d != "" && AllDigits(d) && StartsText(v)
    ensures EndsText(a) ==> v != "" && EndsText(v)
    ensures v != "" ==> EndsText(v) == EndsText(a)
  {
    var t;
    u, t := TextFront(a);
    d, v := DigitFront(t);
    LastCharacter(u, d, v);
  }

  lemma TextFront(a: string) returns (u: string, t: string)
    requires !NoDigits(a)
    ensures a == u + t && NoDigits(u) && t != "" && IsDigit(t[0])
  {
    var n := Run(a, false);
    assert n == |a| ==> NoDigits(a);
    u, t := a[..n], a[n..];
  }

  lemma DigitFront(t: string) returns (d: string, v: string)
    requires t != "" && IsDigit(t[0])
    ensures t == d + v && d != "" && AllDigits(d) && StartsText(v)
  {
    var n := Run(t, true);
    d, v := t[..n], t[n..];
  }

  lemma LastCharacter(u: string, d: string, v: string)
    requires d != "" && AllDigits(d)
    ensures var a := u + (d + v);
            (v == "" ==> IsDigit(a[|a| - 1])) && (v != "" ==> a[|a| - 1] == v[|v| - 1])
  {
    if v == "" { assert d[|d| - 1] in d && (u + (d + v))[|u| + |d| - 1] == d[|d| - 1]; }
  }

  lemma SameHead(p: Part, q: Part, k: Key, l: Key)
    ensures Less([p] + ([q] + k), [p] + ([q] + l)) == Less(k, l)
  {
    SamePart(q, k, l);
    SamePart(p, [q] + k, [q] + l);
  }

  lemma SamePart(p: Part, k: Key, l: Key)
    ensures Less([p] + k, [p] + l) == Less(k, l)
  {
    assert ([p] + k)[1..] == k && ([p] + l)[1..] == l;
  }

  /** Two ids that agree up to the end of a number are ordered by what follows. */
  lemma SameStart(u: string, d: string, x: string, y: string)
    requires NoDigits(u) && d != "" && AllDigits(d) && StartsText(x) && StartsText(y)
    ensures Before(u + (d + x), u + (d + y)) == Before(x, y)
  {
    KeyOf(u, d, x);
    KeyOf(u, d, y);
    SameHead(Chars(u), Number(Value(d)), NaturalKey(x), NaturalKey(y));
  }

  lemma Cut3(u: string, d: string, v: string, x: string)
    ensures (u + (d + v)) + x == u + (d + (v + x))
  {
  }

  /** Where two ids first differ in a number, the numbers decide; equal numbers leave it to the rest. */
  lemma {:induction false} NumbersDecide(a: string, d: string, e: string, x: string, y: string)
    requires EndsText(a) && d != "" && AllDigits(d) && e != "" && AllDigits(e) && StartsText(x) && StartsText(y)
    ensures Before(a + (d + x), a + (e + y)) <==> Value(d) < Value(e) || (Value(d) == Value(e) && Before(x, y))
    decreases |a|
  {
    if NoDigits(a) {
      KeyOf(a, d, x);
      KeyOf(a, e, y);
      NumberParts(a, Value(d), Value(e), NaturalKey(x), NaturalKey(y));
    } else {
      var u, f, v := FirstNumber(a);
      Cut3(u, f, v, d + x);
      Cut3(u, f, v, e + y);
      SameStart(u, f, v + (d + x), v + (e + y));
      NumbersDecide(v, d, e, x, y);
    }
  }

  lemma NumberParts(s: string, m: nat, n: nat, k: Key, l: Key)
    ensures Less([Chars(s)] + ([Number(m)] + k), [Chars(s)] + ([Number(n)] + l)) <==> m < n || (m == n && Less(k, l))
  {
    SamePart(Chars(s), [Number(m)] + k, [Number(n)] + l);
    if m == n { SamePart(Number(m), k, l); }
  }

  /** Ids that differ in one decimal number are ordered by it. */
  lemma NumberedOrder(a: string, m: nat, n: nat, b: string)
    requires EndsText(a) && StartsText(b)
    ensures Before(a + (Dec(m) + b), a + (Dec(n) + b)) <==> m < n
  {
    DecRoundTrip(m);
    DecRoundTrip(n);
    NumbersDecide(a, Dec(m), Dec(n), b, b);
    BeforeIrreflexive(b);
  }

  lemma {:induction false} TextDiffers(a: string, c: char, d: char, x: string, y: string)
    requires c < d
    ensures StrLess((a + [c]) + x, (a + [d]) + y)
  {
    var s, t := (a + [c]) + x, (a + [d]) + y;
    if a != "" {
      assert s[1..] == (a[1..] + [c]) + x && t[1..] == (a[1..] + [d]) + y;
      TextDiffers(a[1..], c, d, x, y);
    }
  }

  lemma FirstParts(k: Key, l: Key)
    requires k != [] && l != [] && k[0].Chars? && l[0].Chars? && StrLess(k[0].s, l[0].s)
    ensures Less(k, l)
  {
    StrTrichotomy(k[0].s, l[0].s);
  }

  /** Where two ids first differ in text, the smaller character decides. */
  lemma {:induction false} TextDecides(a: string, c: char, d: char, x: string, y: string)
    requires c < d && !IsDigit(c) && !IsDigit(d)
    ensures Before((a + [c]) + x, (a + [d]) + y)
    decreases |a|
  {
    if NoDigits(a) {
      KeyText(a + [c], x);
      KeyText(a + [d], y);
      TextDiffers(a, c, d, x[..Run(x, false)], y[..Run(y, false)]);
      FirstParts(NaturalKey((a + [c]) + x), NaturalKey((a + [d]) + y));
    } else {
      var u, f, v := FirstNumber(a);
      assert (a + [c]) + x == u + (f + ((v + [c]) + x)) && (a + [d]) + y == u + (f + ((v + [d]) + y));
      SameStart(u, f, (v + [c]) + x, (v + [d]) + y);
      TextDecides(v, c, d, x, y);
    }
  }

  lemma {:induction false} Longer(s: string, x: string)
    requires x != ""
    ensures StrLess(s, s + x)
  {
    if s != "" {
      assert (s + x)[1..] == s[1..] + x;
      Longer(s[1..], x);
    }
  }

  lemma LongerBy(s: string, c: char, x: string)
    ensures StrLess(s, (s + [c]) + x)
  {
    Longer(s, [c] + x);
    assert s + ([c] + x) == (s + [c]) + x;
  }

  lemma KeyAlone(u: string)
    requires NoDigits(u)
    ensures NaturalKey(u) == [Chars(u)]
  {
    RunPast(u, "", false);
    assert u + "" == u;
  }

  /** An id comes before its extensions, unless they only lengthen its last number. */
  lemma {:induction false} ShorterFirst(a: string, x: string)
    requires x != "" && (EndsText(a) || StartsText(x))
    ensures Before(a, a + x)
    decreases |a|
  {
    if NoDigits(a) {
      KeyAlone(a);
      KeyText(a, x);
      if IsDigit(x[0]) {
        assert x[..Run(x, false)] == "" && a + "" == a;
        MoreParts(a, a + x);
      } else {
        Longer(a, x[..Run(x, false)]);
        FirstParts(NaturalKey(a), NaturalKey(a + x));
      }
    } else {
      var u, f, v := FirstNumber(a);
      assert v == "" ==> v + x == x;
      Cut3(u, f, v, x);
      SameStart(u, f, v, v + x);
      ShorterFirst(v, x);
    }
  }

  lemma MoreParts(a: string, b: string)
    requires NoDigits(a) && |b| > |a| && b[..|a|] == a && IsDigit(b[|a|])
    ensures Before(a, b)
  {
    KeyAlone(a);
    assert b == a + b[|a|..];
    RunPast(a, b[|a|..], false);
    assert [Chars(a)][1..] == [];
  }

  /** Where one id goes on with a number and the other with text, the number comes first. */
  lemma {:induction false} NumberBeforeText(a: string, d: char, c: char, x: string, y: string)
    requires EndsText(a) && IsDigit(d) && !IsDigit(c)
    ensures Before(a + ([d] + x), (a + [c]) + y)
    decreases |a|
  {
    if NoDigits(a) {
      KeyText(a, [d] + x);
      assert ([d] + x)[..0] == "" && a + "" == a;
      KeyText(a + [c], y);
      LongerBy(a, c, y[..Run(y, false)]);
      FirstParts(NaturalKey(a + ([d] + x)), NaturalKey((a + [c]) + y));
    } else {
      var u, f, v := FirstNumber(a);
      Cut3(u, f, v, [d] + x);
      assert (a + [c]) + y == u + (f + ((v + [c]) + y));
      SameStart(u, f, v + ([d] + x), (v + [c]) + y);
      NumberBeforeText(v, d, c, x, y);
    }
  }

  // Insertion -------------------------------------------------------------------------------

  ghost predicate Sorted(ids: seq<string>) { forall i, j :: 0 <= i < j < |ids| ==> !Before(ids[j], ids[i]) }

  /** One past the last element that satisfies `f`. */
  function AfterLast<T>(xs: seq<T>, f: T -> bool): (p: nat)
    ensures p <= |xs| && (p > 0 ==> f(xs[p - 1])) && forall i :: p <= i < |xs| ==> !f(xs[i])
  {
    if xs == [] then 0 else if f(xs[|xs| - 1]) then |xs| else AfterLast(xs[..|xs| - 1], f)
  }

  function BeforeId(x: string): string -> bool { (y: string) => Before(y, x) }

  /** One past the last id that comes before `x`. */
  function InsertionPoint(ids: seq<string>, x: string): nat { AfterLast(ids, BeforeId(x)) }

  lemma NotAfter(ids: seq<string>, x: string, p: nat, i: nat)
    requires Sorted(ids) && i < p <= |ids| && Before(ids[p - 1], x)
    ensures !Before(x, ids[i])
  {
    if Before(x, ids[i]) {
      BeforeTransitive(ids[p - 1], x, ids[i]);
      if i == p - 1 { BeforeIrreflexive(ids[i]); }
    }
  }

  lemma InsertPairs<T>(xs: seq<T>, x: T, p: nat, less: (T, T) -> bool)
    requires p <= |xs| && forall i, j :: 0 <= i < j < |xs| ==> !less(xs[j], xs[i])
    requires forall i :: 0 <= i < p ==> !less(x, xs[i])
    requires forall i :: p <= i < |xs| ==> !less(xs[i], x)
    ensures var out := xs[..p] + [x] + xs[p..]; forall i, j :: 0 <= i < j < |out| ==> !less(out[j], out[i])
  {
  }

  /** Inserting after the last smaller sibling keeps a sorted list sorted. */
  lemma InsertKeepsSorted(ids: seq<string>, x: string)
    requires Sorted(ids)
    ensures var p := InsertionPoint(ids, x); p <= |ids| && Sorted(ids[..p] + [x] + ids[p..])
  {
    var p := InsertionPoint(ids, x);
    forall i | 0 <= i < p ensures !Before(x, ids[i]) { NotAfter(ids, x, p, i); }
    forall i | p <= i < |ids| ensures !Before(ids[i], x) { assert !BeforeId(x)(ids[i]); }
    InsertPairs(ids, x, p, Before);
  }
}
