/** Routing rules, the packets they are matched against, and first-match semantics. */
module Rules {
  import opened Base
  import opened Names

  datatype Target = Outbound(tag: string) | Balancer(tag: string)

  /** One rule; an empty list or `None` is an absent matcher, and a rule without matchers takes all. */
  datatype Rule = Rule(
    inbound: Option<string>, source: seq<string>, domain: seq<string>, ip: seq<string>, port: Option<nat>,
    user: seq<string>, vlessRoute: Option<nat>, target: Target)

  function Bare(target: Target): Rule { Rule(None, [], [], [], None, [], None, target) }

  /**
   * A connection as the router sees it: its inbound tag, the identity that opened it, its port and
   * vlessRoute, and which source, domain and ip matchers hit it.
   */
  datatype Packet = Packet(
    inbound: string, user: string, port: nat, vlessRoute: Option<nat>,
    sources: set<string>, domains: set<string>, ips: set<string>)

  predicate Any(list: seq<string>, hits: set<string>) { exists m :: m in list && m in hits }

  predicate Hits(r: Rule, p: Packet) {
    && (r.inbound.Some? ==> r.inbound.value == p.inbound)
    && (r.source != [] ==> Any(r.source, p.sources))
    && (r.domain != [] ==> Any(r.domain, p.domains))
    && (r.ip != [] ==> Any(r.ip, p.ips))
    && (r.port.Some? ==> r.port.value == p.port)
    && (r.user != [] ==> p.user in r.user)
    && (r.vlessRoute.Some? ==> r.vlessRoute == p.vlessRoute)
  }

  /** Target of the first rule that hits. */
  function FirstMatch(rules: seq<Rule>, p: Packet): Option<Target> {
    if rules == [] then None
    else Or(FirstMatch(rules[..|rules| - 1], p),
            if Hits(rules[|rules| - 1], p) then Some(rules[|rules| - 1].target) else None)
  }

  lemma {:induction false} FirstMatchConcat(a: seq<Rule>, b: seq<Rule>, p: Packet)
    ensures FirstMatch(a + b, p) == Or(FirstMatch(a, p), FirstMatch(b, p))
  {
    if b == [] {
      assert a + b == a;
    } else {
      FirstMatchConcat(a, b[..|b| - 1], p);
      ConcatFront(a, b);
    }
  }

  lemma FirstMatchOne(r: Rule, p: Packet)
    ensures FirstMatch([r], p) == if Hits(r, p) then Some(r.target) else None
  {
    assert [r][..0] == [];
  }

  /** The first match over rules emitted item by item is the first item that answers. */
  lemma {:induction false} FirstMatchFlatMap<A>(f: A -> seq<Rule>, g: A -> Option<Target>, xs: seq<A>, p: Packet)
    requires forall x :: x in xs ==> FirstMatch(f(x), p) == g(x)
    ensures FirstMatch(FlatMap(f, xs), p) == FirstSome(g, xs)
  {
    if xs != [] {
      FirstMatchFlatMap(f, g, xs[..|xs| - 1], p);
      FirstMatchConcat(FlatMap(f, xs[..|xs| - 1]), f(xs[|xs| - 1]), p);
    }
  }

  /** The first rule that hits. */
  ghost predicate FirstHit(rules: seq<Rule>, p: Packet, i: nat) {
    i < |rules| && Hits(rules[i], p) && forall j :: 0 <= j < i ==> !Hits(rules[j], p)
  }

  lemma {:induction false} NoMatch(rules: seq<Rule>, p: Packet)
    ensures FirstMatch(rules, p).None? <==> forall i :: 0 <= i < |rules| ==> !Hits(rules[i], p)
  {
    if rules != [] {
      var front, n := rules[..|rules| - 1], |rules| - 1;
      NoMatch(front, p);
      assert forall j :: 0 <= j < n ==> front[j] == rules[j];
    }
  }

  lemma {:induction false} MatchFound(rules: seq<Rule>, p: Packet) returns (i: nat)
    requires FirstMatch(rules, p).Some?
    ensures FirstHit(rules, p, i) && FirstMatch(rules, p) == Some(rules[i].target)
  {
    var front, n := rules[..|rules| - 1], |rules| - 1;
    NoMatch(front, p);
    assert forall j :: 0 <= j < n ==> front[j] == rules[j];
    i := n;
    if FirstMatch(front, p).Some? { i := MatchFound(front, p); }
  }

  lemma OneFirstHit(rules: seq<Rule>, p: Packet, i: nat, j: nat)
    requires FirstHit(rules, p, i) && FirstHit(rules, p, j)
    ensures i == j
  {
  }

  /** First match is positional: some rule hits, none before it does, and its target is the answer. */
  lemma FirstMatchMeaning(rules: seq<Rule>, p: Packet, t: Target)
    ensures FirstMatch(rules, p).None? <==> forall r :: r in rules ==> !Hits(r, p)
    ensures FirstMatch(rules, p) == Some(t) <==>
            exists i :: 0 <= i < |rules| && Hits(rules[i], p) && rules[i].target == t
                        && forall j :: 0 <= j < i ==> !Hits(rules[j], p)
  {
    NoMatch(rules, p);
    if FirstMatch(rules, p).Some? {
      var k := MatchFound(rules, p);
      assert rules[k] in rules;
      forall i: nat | FirstHit(rules, p, i) ensures i == k { OneFirstHit(rules, p, i, k); }
      if i :| 0 <= i < |rules| && Hits(rules[i], p) && rules[i].target == t && forall j :: 0 <= j < i ==> !Hits(rules[j], p) {
        assert FirstHit(rules, p, i);
      }
    }
  }
}
