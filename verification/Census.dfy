/** Counting rules: no route is lost, and each vlessRoute value selects a single rule. */
module Census {
  import opened Base
  import opened Names
  import opened Schema
  import opened Acceptance
  import opened Rules
  import opened Routing
  import opened HubBuilder

  // Hub routes ------------------------------------------------------------------------------

  function Destination(c: Config, h: HubRoute): Option<Target> {
    if h.destination == BLOCKED || h.destination == DIRECT then Some(Outbound(h.destination))
    else RouteTarget(Exits(c.regions), h.destination)
  }

  function MatcherKinds(h: HubRoute): nat {
    (if h.domains != [] then 1 else 0) + (if h.ips != [] then 1 else 0) + (if h.domains == [] && h.ips == [] then 1 else 0)
  }

  lemma RouteRulesCount(ns: string, h: HubRoute, t: Target)
    requires h.domains != [] || h.ips != [] || UserFilter(ns, h) != []
    ensures |RouteRules(ns, h, t, true)| == MatcherKinds(h)
    ensures forall r :: r in RouteRules(ns, h, t, true) ==> r.target == t
  {
  }

  lemma PostponedIpRule(ns: string, h: HubRoute)
    requires h.destination == BLOCKED
    ensures RouteRules(ns, h, Outbound(BLOCKED), false) + BlockedIpRules(ns)(h) == RouteRules(ns, h, Outbound(BLOCKED), true)
  {
  }

  /** All rules of a route towards its destination, whichever phases emit them. */
  function FullRules(c: Config): HubRoute -> seq<Rule> {
    (h: HubRoute) => if Destination(c, h).None? then [] else RouteRules(c.namespace, h, Destination(c, h).value, true)
  }

  lemma RoutedKinds(c: Config, h: HubRoute)
    requires Destination(c, h).Some? && h.destination != BLOCKED
    ensures BlockedRules(c.namespace)(h) == [] && BlockedIpRules(c.namespace)(h) == []
    ensures multiset(SteeredRules(c.namespace, Exits(c.regions))(h)) + multiset(DirectRules(c.namespace)(h)) == multiset(FullRules(c)(h))
  {
  }

  /** The four phases that read hub routes emit a route's rules between them. */
  lemma PhasesOfRoute(c: Config, h: HubRoute)
    requires Destination(c, h).Some?
    ensures multiset(BlockedRules(c.namespace)(h)) + multiset(SteeredRules(c.namespace, Exits(c.regions))(h))
            + multiset(DirectRules(c.namespace)(h)) + multiset(BlockedIpRules(c.namespace)(h)) == multiset(FullRules(c)(h))
  {
    if h.destination == BLOCKED {
      PostponedIpRule(c.namespace, h);
    } else {
      RoutedKinds(c, h);
    }
  }

  /** Four groups of rules, each emitted route by route. */
  lemma {:induction false} PhasesOfRoutes(c: Config, hs: seq<HubRoute>)
    requires forall h :: h in hs ==> Destination(c, h).Some?
    ensures multiset(FlatMap(BlockedRules(c.namespace), hs)) + multiset(FlatMap(SteeredRules(c.namespace, Exits(c.regions)), hs))
            + multiset(FlatMap(DirectRules(c.namespace), hs)) + multiset(FlatMap(BlockedIpRules(c.namespace), hs))
            == multiset(FlatMap(FullRules(c), hs))
  {
    if hs != [] {
      var front, h := hs[..|hs| - 1], hs[|hs| - 1];
      PhasesOfRoutes(c, front);
      PhasesOfRoute(c, h);
      SumSnoc(BlockedRules(c.namespace), hs);
      SumSnoc(SteeredRules(c.namespace, Exits(c.regions)), hs);
      SumSnoc(DirectRules(c.namespace), hs);
      SumSnoc(BlockedIpRules(c.namespace), hs);
      SumSnoc(FullRules(c), hs);
    }
  }

  lemma SumSnoc<A>(f: A -> seq<Rule>, xs: seq<A>)
    requires xs != []
    ensures multiset(FlatMap(f, xs)) == multiset(FlatMap(f, xs[..|xs| - 1])) + multiset(f(xs[|xs| - 1]))
  {
  }

  /** Rules of the list that no hub route asks for. */
  function OtherRules(c: Config, published: seq<PublishedPort>): seq<Rule> {
    EarlyRules(c, published) + FlatMap(PortalRules(c.namespace), c.portals)
    + (if DefaultTarget(c).Some? then [Bare(DefaultTarget(c).value)] else [])
  }

  lemma HubRulesSum(c: Config, published: seq<PublishedPort>)
    ensures multiset(HubRules(c, published)) ==
            multiset(OtherRules(c, published))
            + (multiset(FlatMap(BlockedRules(c.namespace), c.hubRoutes))
               + multiset(FlatMap(SteeredRules(c.namespace, Exits(c.regions)), c.hubRoutes))
               + multiset(FlatMap(DirectRules(c.namespace), c.hubRoutes))
               + multiset(FlatMap(BlockedIpRules(c.namespace), c.hubRoutes)))
  {
  }

  /**
   * The emitted list is the rules no route asks for and, for every hub route, exactly its rules
   * towards its destination: nothing is lost, doubled or steered elsewhere.
   */
  lemma NoRouteLost(c: Config, published: seq<PublishedPort>)
    requires Accepted(c)
    ensures multiset(HubRules(c, published)) == multiset(OtherRules(c, published)) + multiset(FlatMap(FullRules(c), c.hubRoutes))
  {
    forall h | h in c.hubRoutes ensures Destination(c, h).Some? { HasDestination(c, h); }
    PhasesOfRoutes(c, c.hubRoutes);
    HubRulesSum(c, published);
  }

  lemma HasDestination(c: Config, h: HubRoute)
    requires Accepted(c) && h in c.hubRoutes
    ensures Destination(c, h).Some?
  {
    if h.destination != BLOCKED && h.destination != DIRECT { RouteResolves(c, h); }
  }

  lemma {:induction false} WithinSum<A>(f: A -> seq<Rule>, xs: seq<A>, x: A)
    requires x in xs
    ensures multiset(f(x)) <= multiset(FlatMap(f, xs))
  {
    SumSnoc(f, xs);
    if x in xs[..|xs| - 1] { WithinSum(f, xs[..|xs| - 1], x); }
  }

  /**
   * Each accepted route has one rule per matcher kind in the emitted list, all towards its
   * destination; a `blocked` route's ip rule is postponed, not lost.
   */
  lemma RouteContributes(c: Config, published: seq<PublishedPort>, h: HubRoute)
    requires Accepted(c) && FieldsValid(c) && h in c.hubRoutes
    ensures Destination(c, h).Some?
    ensures multiset(FullRules(c)(h)) <= multiset(HubRules(c, published))
    ensures |FullRules(c)(h)| == MatcherKinds(h) && forall r :: r in FullRules(c)(h) ==> r.target == Destination(c, h).value
  {
    HasDestination(c, h);
    NoRouteLost(c, published);
    WithinSum(FullRules(c), c.hubRoutes, h);
    assert |UserFilter(c.namespace, h)| == |h.users| + |h.proxyUsers|;
    RouteRulesCount(c.namespace, h, Destination(c, h).value);
  }

  // vlessRoute values -----------------------------------------------------------------------

  /** Rules keyed by vlessRoute value `v`. */
  function Selecting(rules: seq<Rule>, v: nat): seq<Rule> {
    if rules == [] then [] else
      Selecting(rules[..|rules| - 1], v) + (if rules[|rules| - 1].vlessRoute == Some(v) then [rules[|rules| - 1]] else [])
  }

  lemma {:induction false} SelectingConcat(a: seq<Rule>, b: seq<Rule>, v: nat)
    ensures Selecting(a + b, v) == Selecting(a, v) + Selecting(b, v)
  {
    if b == [] {
      assert a + b == a;
    } else {
      SelectingConcat(a, b[..|b| - 1], v);
      assert (a + b)[..|a + b| - 1] == a + b[..|b| - 1];
    }
  }

  lemma {:induction false} SelectingNone(rules: seq<Rule>, v: nat)
    requires forall r :: r in rules ==> r.vlessRoute != Some(v)
    ensures Selecting(rules, v) == []
  {
    if rules != [] { SelectingNone(rules[..|rules| - 1], v); }
  }

  lemma {:induction false} SelectingFlatMapNone<A>(f: A -> seq<Rule>, xs: seq<A>, v: nat)
    requires forall x, r :: x in xs && r in f(x) ==> r.vlessRoute != Some(v)
    ensures Selecting(FlatMap(f, xs), v) == []
  {
    forall r | r in FlatMap(f, xs) ensures r.vlessRoute != Some(v) {
      FlatMapMember(f, xs, r);
    }
    SelectingNone(FlatMap(f, xs), v);
  }

  lemma VlessMember(rs: seq<Region>, r: Region, v: nat)
    requires r in rs && v in RegionVless(r)
    ensures v in VlessRoutes(rs)
  {
    FlatMapMember(VlessOf(), rs, v);
    assert v in VlessOf()(r);
  }

  function PlainGroup(rs: seq<Region>): seq<Rule> { FlatMap(RegionVlessRules(), Rendered(rs)) }
  function WarpGroup(rs: seq<Region>): seq<Rule> { FlatMap(WarpVlessRules(), Rendered(rs)) }

  lemma UnusedSelectsNone(rs: seq<Region>, v: nat)
    requires v !in VlessRoutes(rs)
    ensures Selecting(PlainGroup(rs), v) == [] && Selecting(WarpGroup(rs), v) == []
  {
    forall r | r in Rendered(rs) ensures r.vlessRoute != Some(v) && r.warp != Some(v) {
      if v in RegionVless(r) { VlessMember(rs, r, v); }
    }
    SelectingFlatMapNone(RegionVlessRules(), Rendered(rs), v);
    SelectingFlatMapNone(WarpVlessRules(), Rendered(rs), v);
  }

  lemma SelectingOne(rule: Rule, v: nat)
    ensures Selecting([rule], v) == if rule.vlessRoute == Some(v) then [rule] else []
  {
    assert [rule][..0] == [];
  }

  lemma GroupsSnoc(rs: seq<Region>)
    requires rs != []
    ensures var front, last := rs[..|rs| - 1], rs[|rs| - 1];
            && VlessRoutes(rs) == VlessRoutes(front) + RegionVless(last)
            && PlainGroup(rs) == PlainGroup(front) + RegionVlessRules()(last)
            && WarpGroup(rs) == WarpGroup(front) + WarpVlessRules()(last)
  {
    var front, last := rs[..|rs| - 1], rs[|rs| - 1];
    assert Rendered(rs) == Rendered(front) + (if last.ExitRegion? && last.nodes != [] then [last] else []);
    if last.ExitRegion? && last.nodes != [] {
      assert (Rendered(front) + [last])[..|Rendered(front)|] == Rendered(front);
    } else {
      assert Rendered(front) + [] == Rendered(front);
    }
  }

  /** What region `r` emits itself, when its two values differ. */
  lemma OwnRules(r: Region)
    requires r.ExitRegion? && r.nodes != [] && r.vlessRoute.Some? && NoDup(RegionVless(r))
    ensures var v := r.vlessRoute.value;
            Selecting(RegionVlessRules()(r), v) == [VlessRule(v, RegionTarget(r))] && Selecting(WarpVlessRules()(r), v) == []
    ensures r.warp.Some? ==>
              var w := r.warp.value;
              Selecting(RegionVlessRules()(r), w) == [] && Selecting(WarpVlessRules()(r), w) == [VlessRule(w, RegionWarpTarget(r))]
  {
    var v := r.vlessRoute.value;
    SelectingOne(VlessRule(v, RegionTarget(r)), v);
    if r.warp.Some? {
      assert RegionVless(r)[0] == v && RegionVless(r)[1] == r.warp.value;
      SelectingOne(VlessRule(v, RegionTarget(r)), r.warp.value);
      SelectingOne(VlessRule(r.warp.value, RegionWarpTarget(r)), v);
      SelectingOne(VlessRule(r.warp.value, RegionWarpTarget(r)), r.warp.value);
    }
  }

  ghost predicate Selects(rs: seq<Region>, v: nat, plain: seq<Rule>, warp: seq<Rule>) {
    Selecting(PlainGroup(rs), v) == plain && Selecting(WarpGroup(rs), v) == warp
  }

  lemma SelectsSnoc(rs: seq<Region>, v: nat, plain: seq<Rule>, warp: seq<Rule>)
    requires rs != []
    requires var last := rs[|rs| - 1];
             || (Selects(rs[..|rs| - 1], v, plain, warp) && v !in RegionVless(last))
             || (v !in VlessRoutes(rs[..|rs| - 1])
                 && Selecting(RegionVlessRules()(last), v) == plain && Selecting(WarpVlessRules()(last), v) == warp)
    ensures Selects(rs, v, plain, warp)
  {
    var front, last := rs[..|rs| - 1], rs[|rs| - 1];
    GroupsSnoc(rs);
    SelectingConcat(PlainGroup(front), RegionVlessRules()(last), v);
    SelectingConcat(WarpGroup(front), WarpVlessRules()(last), v);
    if v !in VlessRoutes(front) { UnusedSelectsNone(front, v); }
    if v !in RegionVless(last) { Silent(last, v); }
  }

  lemma {:induction false} OneRuleEach(rs: seq<Region>, r: Region)
    requires NoDup(VlessRoutes(rs)) && r in Rendered(rs)
    requires r.vlessRoute.Some?
    ensures Selects(rs, r.vlessRoute.value, [VlessRule(r.vlessRoute.value, RegionTarget(r))], [])
    ensures r.warp.Some? ==> Selects(rs, r.warp.value, [], [VlessRule(r.warp.value, RegionWarpTarget(r))])
  {
    var front, last := rs[..|rs| - 1], rs[|rs| - 1];
    GroupsSnoc(rs);
    NoDupConcat(VlessRoutes(front), RegionVless(last));
    assert r.vlessRoute.value in RegionVless(r);
    if r in front {
      OneRuleEach(front, r);
      VlessMember(front, r, r.vlessRoute.value);
    } else {
      assert rs == front + [last];
      OwnRules(r);
    }
    SelectsSnoc(rs, r.vlessRoute.value, [VlessRule(r.vlessRoute.value, RegionTarget(r))], []);
    if r.warp.Some? {
      assert r.warp.value in RegionVless(r);
      if r in front { VlessMember(front, r, r.warp.value); }
      SelectsSnoc(rs, r.warp.value, [], [VlessRule(r.warp.value, RegionWarpTarget(r))]);
    }
  }

  lemma Silent(r: Region, v: nat)
    requires v !in RegionVless(r)
    ensures Selecting(RegionVlessRules()(r), v) == [] && Selecting(WarpVlessRules()(r), v) == []
  {
    SelectingNone(RegionVlessRules()(r), v);
    SelectingNone(WarpVlessRules()(r), v);
  }

  lemma PrefaceIgnoresVless(c: Config, published: seq<PublishedPort>, v: nat)
    ensures Selecting(FlatMap(PublishRules(), published) + [DnsRule(c)], v) == []
  {
    forall pub: PublishedPort ensures forall r :: r in PublishRules()(pub) ==> r.vlessRoute != Some(v) {
      assert PublishRule(pub).vlessRoute.None? && DenyRule(pub).vlessRoute.None?;
    }
    SelectingFlatMapNone(PublishRules(), published, v);
    assert DnsRule(c).vlessRoute.None?;
    SelectingOne(DnsRule(c), v);
    SelectingConcat(FlatMap(PublishRules(), published), [DnsRule(c)], v);
  }

  lemma RouteRulesIgnoreVless(ns: string, h: HubRoute, t: Target, includeIps: bool)
    ensures forall r :: r in RouteRules(ns, h, t, includeIps) ==> r.vlessRoute.None?
  {
  }

  lemma RoutesIgnoreVless(c: Config, h: HubRoute, v: nat)
    ensures forall r :: r in BlockedRules(c.namespace)(h) ==> r.vlessRoute != Some(v)
    ensures forall r :: r in SteeredRules(c.namespace, Exits(c.regions))(h) ==> r.vlessRoute != Some(v)
    ensures forall r :: r in DirectRules(c.namespace)(h) ==> r.vlessRoute != Some(v)
  {
    RouteRulesIgnoreVless(c.namespace, h, Outbound(BLOCKED), false);
    RouteRulesIgnoreVless(c.namespace, h, Outbound(DIRECT), true);
    var t := RouteTarget(Exits(c.regions), h.destination);
    if t.Some? { RouteRulesIgnoreVless(c.namespace, h, t.value, true); }
  }

  lemma MiddleIgnoresVless(c: Config, v: nat)
    ensures Selecting(MiddleRules(c), v) == []
  {
    var a, b, d := FlatMap(BlockedRules(c.namespace), c.hubRoutes), FlatMap(PortalRules(c.namespace), c.portals),
      FlatMap(SteeredRules(c.namespace, Exits(c.regions)), c.hubRoutes);
    forall h: HubRoute
      ensures forall r :: r in BlockedRules(c.namespace)(h) ==> r.vlessRoute != Some(v)
      ensures forall r :: r in SteeredRules(c.namespace, Exits(c.regions))(h) ==> r.vlessRoute != Some(v)
    {
      RoutesIgnoreVless(c, h, v);
    }
    SelectingFlatMapNone(BlockedRules(c.namespace), c.hubRoutes, v);
    SelectingFlatMapNone(PortalRules(c.namespace), c.portals, v);
    SelectingFlatMapNone(SteeredRules(c.namespace, Exits(c.regions)), c.hubRoutes, v);
    var ab := a + b;
    SelectingConcat(a, b, v);
    SelectingConcat(ab, d, v);
  }

  lemma LateIgnoresVless(c: Config, v: nat)
    ensures Selecting(LateRules(c), v) == []
  {
    var e, f := FlatMap(DirectRules(c.namespace), c.hubRoutes), FlatMap(BlockedIpRules(c.namespace), c.hubRoutes);
    var g := if DefaultTarget(c).Some? then [Bare(DefaultTarget(c).value)] else [];
    forall h: HubRoute ensures forall r :: r in DirectRules(c.namespace)(h) ==> r.vlessRoute != Some(v) {
      RoutesIgnoreVless(c, h, v);
    }
    SelectingFlatMapNone(DirectRules(c.namespace), c.hubRoutes, v);
    SelectingFlatMapNone(BlockedIpRules(c.namespace), c.hubRoutes, v);
    SelectingNone(g, v);
    var ef := e + f;
    SelectingConcat(e, f, v);
    SelectingConcat(ef, g, v);
  }

  lemma SelectingEarly(c: Config, published: seq<PublishedPort>, v: nat)
    ensures Selecting(EarlyRules(c, published), v) == Selecting(PlainGroup(c.regions), v) + Selecting(WarpGroup(c.regions), v)
  {
    PrefaceIgnoresVless(c, published, v);
    var pre := FlatMap(PublishRules(), published) + [DnsRule(c)];
    SelectingConcat(pre, PlainGroup(c.regions), v);
    SelectingConcat(pre + PlainGroup(c.regions), WarpGroup(c.regions), v);
  }

  lemma SelectingHub(c: Config, published: seq<PublishedPort>, v: nat)
    ensures Selecting(HubRules(c, published), v) == Selecting(PlainGroup(c.regions), v) + Selecting(WarpGroup(c.regions), v)
  {
    SelectingEarly(c, published, v);
    MiddleIgnoresVless(c, v);
    LateIgnoresVless(c, v);
    SelectingConcat(EarlyRules(c, published), MiddleRules(c), v);
    SelectingConcat(EarlyRules(c, published) + MiddleRules(c), LateRules(c), v);
  }

  /** A region's vlessRoute value, and its warp value, each select exactly one rule: the region's own. */
  lemma VlessSelectsOne(c: Config, published: seq<PublishedPort>, r: Region)
    requires Accepted(c) && r in Rendered(c.regions)
    ensures r.vlessRoute.Some?
    ensures Selecting(HubRules(c, published), r.vlessRoute.value) == [VlessRule(r.vlessRoute.value, RegionTarget(r))]
    ensures r.warp.Some? ==>
              Selecting(HubRules(c, published), r.warp.value) == [VlessRule(r.warp.value, RegionWarpTarget(r))]
  {
    ExitHasVless(c, r);
    OneRuleEach(c.regions, r);
    SelectingHub(c, published, r.vlessRoute.value);
    if r.warp.Some? { SelectingHub(c, published, r.warp.value); }
  }
}
