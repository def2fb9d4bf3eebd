/** Names derived from ids: outbound and inbound tags, identity emails, decimal ports. */
module Names {
  import opened Base

  // Character sets -------------------------------------------------------------------------

  predicate IsDigit(c: char) { '0' <= c <= '9' }

  predicate IsIdentChar(c: char) {
    'A' <= c <= 'Z' || 'a' <= c <= 'z' || IsDigit(c) || c == '_' || c == '-'
  }

  /** Safe identifier of ids, usernames and guest labels. */
  predicate IsIdent(s: string) { s != [] && forall c :: c in s ==> IsIdentChar(c) }

  /** DNS name charset, the namespace's. */
  predicate IsDnsName(s: string) { s != [] && forall c :: c in s ==> IsIdentChar(c) || c == '.' }

  // Decimal numerals -----------------------------------------------------------------------

  function Digit(n: nat): char
    requires n < 10
  {
    '0' + n as char
  }

  function Dec(n: nat): (s: string)
    ensures s != [] && forall c :: c in s ==> IsDigit(c)
  {
    if n < 10 then [Digit(n)] else Dec(n / 10) + [Digit(n % 10)]
  }

  /** Value of a digit string, the inverse of `Dec`. */
  function Value(s: string): nat
    requires forall c :: c in s ==> IsDigit(c)
  {
    if s == [] then 0 else
      assert IsDigit(s[|s| - 1]);
      10 * Value(s[..|s| - 1]) + (s[|s| - 1] - '0') as nat
  }

  lemma {:induction false} DecRoundTrip(n: nat)
    ensures Value(Dec(n)) == n
  {
    if n >= 10 {
      DecRoundTrip(n / 10);
      assert Dec(n)[..|Dec(n)| - 1] == Dec(n / 10);
    } else {
      assert Dec(n)[..0] == [];
    }
  }

  // Concatenation --------------------------------------------------------------------------

  lemma SameSuffix(a: string, b: string, tail: string)
    requires a + tail == b + tail
    ensures a == b
  {
    assert |a| == |b|;
    assert a == (a + tail)[..|a|] && b == (b + tail)[..|b|];
  }

  lemma SamePrefix(head: string, a: string, b: string, t: string)
    requires head + a + b == head + t
    ensures a + b == t
  {
    assert a + b == (head + a + b)[|head|..] && t == (head + t)[|head|..];
  }

  // Tags -----------------------------------------------------------------------------------

  const DIRECT := "direct"
  const BLOCKED := "blocked"
  const WARP := "warp"
  const BACKUP_PREFIX := "backup-"
  const WARP_PREFIX := "warp-"
  const LB_PREFIX := "lb-"
  const LB_WARP_PREFIX := "lb-warp-"
  const PORTAL_SUFFIX := "-portal"
  const PUBLISH_SUFFIX := "-publish"

  predicate IsSpecial(s: string) { s == DIRECT || s == BLOCKED || s == WARP }

  function PortalTag(id: string): string { id + PORTAL_SUFFIX }

  function PublishTag(id: string, port: nat): string { (id + PUBLISH_SUFFIX + "-") + Dec(port) }

  lemma PortalTagInjective(a: string, b: string)
    ensures PortalTag(a) == PortalTag(b) <==> a == b
  {
    if PortalTag(a) == PortalTag(b) {
      SameSuffix(a, b, PORTAL_SUFFIX);
    }
  }

  /** Two splits of one string into "text ending in `-`" and "digits" coincide. */
  lemma DigitTailUnique(a: string, d: string, b: string, e: string)
    requires a + ['-'] + d == b + ['-'] + e
    requires forall c :: c in d ==> IsDigit(c)
    requires forall c :: c in e ==> IsDigit(c)
    ensures a == b && d == e
  {
    var s := a + ['-'] + d;
    assert s[|a|] == '-' && s[|b|] == '-';
    assert forall k :: |a| < k < |s| ==> s[k] == d[k - |a| - 1] && s[k] in d;
    assert forall k :: |b| < k < |s| ==> s[k] == e[k - |b| - 1] && s[k] in e;
    assert !IsDigit('-');
    assert |a| == |b|;
    assert a == s[..|a|] && b == s[..|b|];
    assert s[|a| + 1..] == d && s[|b| + 1..] == e;
  }

  /** Portal ids may contain `-` and even `-publish-1`; the tag still determines both parts. */
  lemma PublishTagInjective(a: string, p: nat, b: string, q: nat)
    ensures PublishTag(a, p) == PublishTag(b, q) <==> a == b && p == q
  {
    if PublishTag(a, p) == PublishTag(b, q) {
      DigitTailUnique(a + PUBLISH_SUFFIX, Dec(p), b + PUBLISH_SUFFIX, Dec(q));
      SameSuffix(a, b, PUBLISH_SUFFIX);
      DecRoundTrip(p);
      DecRoundTrip(q);
    }
  }

  /** A publish tag ends in a digit, which no built-in inbound tag and no portal tag does. */
  lemma PublishTagEndsInDigit(a: string, p: nat)
    ensures var t := PublishTag(a, p); t != [] && IsDigit(t[|t| - 1])
  {
    var t := PublishTag(a, p);
    assert t[|t| - 1] == Dec(p)[|Dec(p)| - 1];
  }

  // Emails ---------------------------------------------------------------------------------

  const SERVER_SUFFIX := "-server"
  const PORTAL_DOMAIN := "portal."

  function At(local: string, domain: string): string { local + ['@'] + domain }

  function UserEmail(ns: string, username: string): string { At(username, ns) }
  function ServerEmail(username: string): string { At(username + SERVER_SUFFIX, username) }
  function GuestEmail(guest: string, username: string): string { At(guest, username) }
  function PortalEmail(ns: string, portal: string): string { At(portal, PORTAL_DOMAIN + ns) }

  lemma AtInjective(l: string, d: string, m: string, e: string)
    requires '@' !in l && '@' !in m
    ensures At(l, d) == At(m, e) <==> l == m && d == e
  {
    if At(l, d) == At(m, e) {
      var s := At(l, d);
      assert s[|l|] == '@' && s[|m|] == '@';
      assert forall k :: 0 <= k < |l| ==> s[k] == l[k] && s[k] in l;
      assert forall k :: 0 <= k < |m| ==> s[k] == m[k] && s[k] in m;
      assert |l| == |m|;
      assert l == s[..|l|] && m == s[..|m|];
      assert d == s[|l| + 1..] && e == s[|m| + 1..];
    }
  }

  lemma IdentHasNoAt(s: string)
    requires IsIdent(s) || IsDnsName(s)
    ensures '@' !in s && '@' !in s + SERVER_SUFFIX
  {
  }
}
