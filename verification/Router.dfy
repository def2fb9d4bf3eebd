/**
 * The hub router as a priority list of questions about a packet, and the theorem that a hub's
 * rule list, read by first match, answers them.
 */
module Router {
  import opened Base
  import opened Names
  import opened Schema
  import opened Acceptance
  import opened Rules
  import opened Routing
  import opened HubBuilder

  // The questions ---------------------------------------------------------------------------

  predicate SourceAllowed(pub: PublishedPort, p: Packet) { pub.allow == [] || Any(pub.allow, p.sources) }

  /** Answer of one published port: its portal when the source is allowed, else the blackhole. */
  function PublishHit(p: Packet): PublishedPort -> Option<Target> {
    (pub: PublishedPort) =>
      if pub.tag != p.inbound then None
      else Some(Outbound(if SourceAllowed(pub, p) then pub.reverseTag else BLOCKED))
  }

  predicate IsDns(c: Config, p: Packet) {
    p.port == c.dnsPort && ("127.0.0.1" in p.ips || "::1" in p.ips || c.dnsAddress in p.ips)
  }

  function VlessHit(p: Packet): Region -> Option<Target> {
    (r: Region) =>
      if r.ExitRegion? && r.nodes != [] && r.vlessRoute.Some? && p.vlessRoute == r.vlessRoute then Some(RegionTarget(r)) else None
  }

  function WarpHit(p: Packet): Region -> Option<Target> {
    (r: Region) =>
      if r.ExitRegion? && r.nodes != [] && r.warp.Some? && p.vlessRoute == r.warp then Some(RegionWarpTarget(r)) else None
  }

  predicate ForUser(ns: string, h: HubRoute, p: Packet) {
    || (h.users == [] && h.proxyUsers == [])
    || (exists u :: u in h.users && p.user == UserEmail(ns, u))
    || p.user in h.proxyUsers
  }

  predicate DomainHit(h: HubRoute, p: Packet) { h.domains != [] && Any(h.domains, p.domains) }
  predicate IpHit(h: HubRoute, p: Packet) { h.ips != [] && Any(h.ips, p.ips) }
  predicate UserOnly(h: HubRoute) { h.domains == [] && h.ips == [] && (h.users != [] || h.proxyUsers != []) }

  /** The route takes the packet: its user filter agrees and some matcher hits, or it has none. */
  predicate RouteHit(ns: string, h: HubRoute, p: Packet) {
    ForUser(ns, h, p) && (DomainHit(h, p) || IpHit(h, p) || UserOnly(h))
  }

  /** `blocked` routes act on domains and users early, on ips last. */
  predicate BlocksEarly(ns: string, h: HubRoute, p: Packet) {
    h.destination == BLOCKED && ForUser(ns, h, p) && (DomainHit(h, p) || UserOnly(h))
  }

  predicate BlocksIp(ns: string, h: HubRoute, p: Packet) {
    h.destination == BLOCKED && ForUser(ns, h, p) && IpHit(h, p)
  }

  predicate IsMember(ns: string, portal: Portal, p: Packet) { exists u :: u in portal.users && p.user == UserEmail(ns, u) }

  predicate PortalMatches(portal: Portal, p: Packet) {
    (portal.domains != [] && Any(portal.domains, p.domains)) || (portal.ips != [] && Any(portal.ips, p.ips))
  }

  function PortalHit(ns: string, p: Packet): Portal -> Option<Target> {
    (portal: Portal) =>
      if IsMember(ns, portal, p) && PortalMatches(portal, p) then Some(Outbound(PortalTag(portal.id))) else None
  }

  function SteerHit(c: Config, p: Packet): HubRoute -> Option<Target> {
    (h: HubRoute) =>
      if h.destination != BLOCKED && h.destination != DIRECT && RouteHit(c.namespace, h, p)
      then RouteTarget(Exits(c.regions), h.destination) else None
  }

  ghost function EarlyRoute(c: Config, published: seq<PublishedPort>, p: Packet): Option<Target> {
    var pub := FirstSome(PublishHit(p), published);
    var vless := FirstSome(VlessHit(p), Rendered(c.regions));
    if pub.Some? then pub
    else if IsDns(c, p) then Some(Outbound(DIRECT))
    else if vless.Some? then vless
    else FirstSome(WarpHit(p), Rendered(c.regions))
  }

  ghost function MiddleRoute(c: Config, p: Packet): Option<Target> {
    var portal := FirstSome(PortalHit(c.namespace, p), c.portals);
    if exists h :: h in c.hubRoutes && BlocksEarly(c.namespace, h, p) then Some(Outbound(BLOCKED))
    else if portal.Some? then portal
    else FirstSome(SteerHit(c, p), c.hubRoutes)
  }

  ghost function LateRoute(c: Config, p: Packet): Option<Target> {
    if exists h :: h in c.hubRoutes && h.destination == DIRECT && RouteHit(c.namespace, h, p) then Some(Outbound(DIRECT))
    else if exists h :: h in c.hubRoutes && BlocksIp(c.namespace, h, p) then Some(Outbound(BLOCKED))
    else DefaultTarget(c)
  }

  /**
   * The priority router: the first question that answers decides. In order: published ports, the
   * resolver, vlessRoute values, warp vlessRoute values; early blocks, portals, hub routes to
   * regions, nodes and warp; direct routes, blocked ips, the default.
   */
  ghost function Route(c: Config, published: seq<PublishedPort>, p: Packet): Option<Target> {
    Or(EarlyRoute(c, published, p), Or(MiddleRoute(c, p), LateRoute(c, p)))
  }

  // One rule group at a time ----------------------------------------------------------------

  lemma PublishGroup(pub: PublishedPort, p: Packet)
    ensures FirstMatch(PublishRules()(pub), p) == PublishHit(p)(pub)
  {
    FirstMatchOne(PublishRule(pub), p);
    if pub.allow != [] {
      FirstMatchConcat([PublishRule(pub)], [DenyRule(pub)], p);
      FirstMatchOne(DenyRule(pub), p);
      assert [PublishRule(pub)] + [DenyRule(pub)] == PublishRules()(pub);
    }
  }

  lemma DnsGroup(c: Config, p: Packet)
    ensures FirstMatch([DnsRule(c)], p) == if IsDns(c, p) then Some(Outbound(DIRECT)) else None
  {
    FirstMatchOne(DnsRule(c), p);
    var r := DnsRule(c);
    assert r.ip[0] == "127.0.0.1" && r.ip[1] == "::1";
    assert c.dnsAddress in r.ip;
    assert forall x :: x in r.ip ==> x == "127.0.0.1" || x == "::1" || x == c.dnsAddress;
  }

  lemma VlessGroup(r: Region, p: Packet)
    ensures FirstMatch(RegionVlessRules()(r), p) == VlessHit(p)(r)
    ensures FirstMatch(WarpVlessRules()(r), p) == WarpHit(p)(r)
  {
    if r.ExitRegion? && r.nodes != [] {
      if r.vlessRoute.Some? { FirstMatchOne(VlessRule(r.vlessRoute.value, RegionTarget(r)), p); }
      if r.warp.Some? { FirstMatchOne(VlessRule(r.warp.value, RegionWarpTarget(r)), p); }
    }
  }

  lemma EmailsMember(ns: string, users: seq<string>, email: string)
    ensures email in Emails(ns, users) <==> exists u :: u in users && email == UserEmail(ns, u)
  {
    if email in Emails(ns, users) {
      var k :| 0 <= k < |users| && Emails(ns, users)[k] == email;
      assert users[k] in users;
    }
    if u :| u in users && email == UserEmail(ns, u) {
      var k :| 0 <= k < |users| && users[k] == u;
      assert Emails(ns, users)[k] == email;
    }
  }

  lemma FilterMeaning(ns: string, h: HubRoute, p: Packet)
    ensures UserFilter(ns, h) == [] || p.user in UserFilter(ns, h) <==> ForUser(ns, h, p)
    ensures UserFilter(ns, h) == [] <==> h.users == [] && h.proxyUsers == []
  {
    EmailsMember(ns, h.users, p.user);
  }

  lemma Optional(b: bool, r: Rule, p: Packet)
    ensures FirstMatch(if b then [r] else [], p) == if b && Hits(r, p) then Some(r.target) else None
  {
    FirstMatchOne(r, p);
  }

  lemma RouteGroup(ns: string, h: HubRoute, t: Target, includeIps: bool, p: Packet)
    ensures FirstMatch(RouteRules(ns, h, t, includeIps), p) ==
            if ForUser(ns, h, p) && (DomainHit(h, p) || (includeIps && IpHit(h, p)) || UserOnly(h)) then Some(t) else None
  {
    var users := UserFilter(ns, h);
    FilterMeaning(ns, h, p);
    var d, i, u := DomainRule(h.domains, users, t), IpRule(h.ips, users, t), Bare(t).(user := users);
    var db, ib, ub := h.domains != [], includeIps && h.ips != [], h.domains == [] && h.ips == [] && users != [];
    Optional(db, d, p);
    Optional(ib, i, p);
    Optional(ub, u, p);
    FirstMatchConcat(if db then [d] else [], if ib then [i] else [], p);
    FirstMatchConcat((if db then [d] else []) + (if ib then [i] else []), if ub then [u] else [], p);
  }

  lemma PortalGroup(ns: string, portal: Portal, p: Packet)
    requires portal.users != []
    ensures FirstMatch(PortalRules(ns)(portal), p) == PortalHit(ns, p)(portal)
  {
    var users, t := Emails(ns, portal.users), Outbound(PortalTag(portal.id));
    EmailsMember(ns, portal.users, p.user);
    var d, i := DomainRule(portal.domains, users, t), IpRule(portal.ips, users, t);
    Optional(portal.domains != [], d, p);
    Optional(portal.ips != [], i, p);
    FirstMatchConcat(if portal.domains != [] then [d] else [], if portal.ips != [] then [i] else [], p);
  }

  lemma BlockedIpGroup(ns: string, h: HubRoute, p: Packet)
    ensures FirstMatch(BlockedIpRules(ns)(h), p) == if BlocksIp(ns, h, p) then Some(Outbound(BLOCKED)) else None
  {
    FilterMeaning(ns, h, p);
    Optional(h.destination == BLOCKED && h.ips != [], IpRule(h.ips, UserFilter(ns, h), Outbound(BLOCKED)), p);
  }

  // Groups of uniform target ----------------------------------------------------------------

  function Uniform(hit: HubRoute -> bool, t: Target): HubRoute -> Option<Target> {
    (h: HubRoute) => if hit(h) then Some(t) else None
  }

  lemma UniformMeaning(hit: HubRoute -> bool, t: Target, hs: seq<HubRoute>)
    ensures FirstSome(Uniform(hit, t), hs) == if exists h :: h in hs && hit(h) then Some(t) else None
  {
    FirstSomeMeaning(Uniform(hit, t), hs, t);
  }

  lemma BlockedPhase(c: Config, p: Packet)
    ensures FirstMatch(FlatMap(BlockedRules(c.namespace), c.hubRoutes), p) ==
            if exists h :: h in c.hubRoutes && BlocksEarly(c.namespace, h, p) then Some(Outbound(BLOCKED)) else None
  {
    var hit := (h: HubRoute) => BlocksEarly(c.namespace, h, p);
    forall h | h in c.hubRoutes
      ensures FirstMatch(BlockedRules(c.namespace)(h), p) == Uniform(hit, Outbound(BLOCKED))(h)
    {
      RouteGroup(c.namespace, h, Outbound(BLOCKED), false, p);
    }
    FirstMatchFlatMap(BlockedRules(c.namespace), Uniform(hit, Outbound(BLOCKED)), c.hubRoutes, p);
    UniformMeaning(hit, Outbound(BLOCKED), c.hubRoutes);
  }

  lemma DirectPhase(c: Config, p: Packet)
    ensures FirstMatch(FlatMap(DirectRules(c.namespace), c.hubRoutes), p) ==
            if exists h :: h in c.hubRoutes && h.destination == DIRECT && RouteHit(c.namespace, h, p)
            then Some(Outbound(DIRECT)) else None
  {
    var hit := (h: HubRoute) => h.destination == DIRECT && RouteHit(c.namespace, h, p);
    forall h | h in c.hubRoutes
      ensures FirstMatch(DirectRules(c.namespace)(h), p) == Uniform(hit, Outbound(DIRECT))(h)
    {
      RouteGroup(c.namespace, h, Outbound(DIRECT), true, p);
    }
    FirstMatchFlatMap(DirectRules(c.namespace), Uniform(hit, Outbound(DIRECT)), c.hubRoutes, p);
    UniformMeaning(hit, Outbound(DIRECT), c.hubRoutes);
  }

  lemma BlockedIpPhase(c: Config, p: Packet)
    ensures FirstMatch(FlatMap(BlockedIpRules(c.namespace), c.hubRoutes), p) ==
            if exists h :: h in c.hubRoutes && BlocksIp(c.namespace, h, p) then Some(Outbound(BLOCKED)) else None
  {
    var hit := (h: HubRoute) => BlocksIp(c.namespace, h, p);
    forall h | h in c.hubRoutes
      ensures FirstMatch(BlockedIpRules(c.namespace)(h), p) == Uniform(hit, Outbound(BLOCKED))(h)
    {
      BlockedIpGroup(c.namespace, h, p);
    }
    FirstMatchFlatMap(BlockedIpRules(c.namespace), Uniform(hit, Outbound(BLOCKED)), c.hubRoutes, p);
    UniformMeaning(hit, Outbound(BLOCKED), c.hubRoutes);
  }

  lemma PublishPhase(published: seq<PublishedPort>, p: Packet)
    ensures FirstMatch(FlatMap(PublishRules(), published), p) == FirstSome(PublishHit(p), published)
  {
    forall pub | pub in published ensures FirstMatch(PublishRules()(pub), p) == PublishHit(p)(pub) { PublishGroup(pub, p); }
    FirstMatchFlatMap(PublishRules(), PublishHit(p), published, p);
  }

  lemma VlessPhase(rs: seq<Region>, p: Packet)
    ensures FirstMatch(FlatMap(RegionVlessRules(), rs), p) == FirstSome(VlessHit(p), rs)
    ensures FirstMatch(FlatMap(WarpVlessRules(), rs), p) == FirstSome(WarpHit(p), rs)
  {
    forall r
      ensures FirstMatch(RegionVlessRules()(r), p) == VlessHit(p)(r)
      ensures FirstMatch(WarpVlessRules()(r), p) == WarpHit(p)(r)
    {
      VlessGroup(r, p);
    }
    FirstMatchFlatMap(RegionVlessRules(), VlessHit(p), rs, p);
    FirstMatchFlatMap(WarpVlessRules(), WarpHit(p), rs, p);
  }

  lemma PortalPhase(c: Config, p: Packet)
    requires forall portal :: portal in c.portals ==> portal.users != []
    ensures FirstMatch(FlatMap(PortalRules(c.namespace), c.portals), p) == FirstSome(PortalHit(c.namespace, p), c.portals)
  {
    forall portal | portal in c.portals
      ensures FirstMatch(PortalRules(c.namespace)(portal), p) == PortalHit(c.namespace, p)(portal)
    {
      PortalGroup(c.namespace, portal, p);
    }
    FirstMatchFlatMap(PortalRules(c.namespace), PortalHit(c.namespace, p), c.portals, p);
  }

  lemma SteerPhase(c: Config, p: Packet)
    ensures FirstMatch(FlatMap(SteeredRules(c.namespace, Exits(c.regions)), c.hubRoutes), p) ==
            FirstSome(SteerHit(c, p), c.hubRoutes)
  {
    var exits := Exits(c.regions);
    forall h | h in c.hubRoutes
      ensures FirstMatch(SteeredRules(c.namespace, exits)(h), p) == SteerHit(c, p)(h)
    {
      var t := RouteTarget(exits, h.destination);
      if t.Some? { RouteGroup(c.namespace, h, t.value, true, p); }
    }
    FirstMatchFlatMap(SteeredRules(c.namespace, exits), SteerHit(c, p), c.hubRoutes, p);
  }

  // The theorem -----------------------------------------------------------------------------

  lemma Chain3(a: seq<Rule>, b: seq<Rule>, c: seq<Rule>, p: Packet)
    ensures FirstMatch(a + b + c, p) == Or(FirstMatch(a, p), Or(FirstMatch(b, p), FirstMatch(c, p)))
  {
    var ab := a + b;
    FirstMatchConcat(a, b, p);
    FirstMatchConcat(ab, c, p);
  }

  lemma EarlyPhase(c: Config, published: seq<PublishedPort>, p: Packet)
    ensures FirstMatch(EarlyRules(c, published), p) == EarlyRoute(c, published, p)
  {
    var exits := Rendered(c.regions);
    var ab := FlatMap(PublishRules(), published) + [DnsRule(c)];
    Chain3(ab, FlatMap(RegionVlessRules(), exits), FlatMap(WarpVlessRules(), exits), p);
    FirstMatchConcat(FlatMap(PublishRules(), published), [DnsRule(c)], p);
    PublishPhase(published, p);
    DnsGroup(c, p);
    VlessPhase(exits, p);
  }

  lemma MiddlePhase(c: Config, p: Packet)
    requires FieldsValid(c)
    ensures FirstMatch(MiddleRules(c), p) == MiddleRoute(c, p)
  {
    Chain3(FlatMap(BlockedRules(c.namespace), c.hubRoutes), FlatMap(PortalRules(c.namespace), c.portals),
           FlatMap(SteeredRules(c.namespace, Exits(c.regions)), c.hubRoutes), p);
    BlockedPhase(c, p);
    PortalPhase(c, p);
    SteerPhase(c, p);
  }

  lemma LatePhase(c: Config, p: Packet)
    ensures FirstMatch(LateRules(c), p) == LateRoute(c, p)
  {
    var last := if DefaultTarget(c).Some? then [Bare(DefaultTarget(c).value)] else [];
    if DefaultTarget(c).Some? { FirstMatchOne(Bare(DefaultTarget(c).value), p); }
    Chain3(FlatMap(DirectRules(c.namespace), c.hubRoutes), FlatMap(BlockedIpRules(c.namespace), c.hubRoutes), last, p);
    DirectPhase(c, p);
    BlockedIpPhase(c, p);
  }

  /** First match over the emitted rules is the priority router, for every packet. */
  lemma RulesImplementRouter(c: Config, published: seq<PublishedPort>, p: Packet)
    requires FieldsValid(c)
    ensures FirstMatch(HubRules(c, published), p) == Route(c, published, p)
  {
    Chain3(EarlyRules(c, published), MiddleRules(c), LateRules(c), p);
    EarlyPhase(c, published, p);
    MiddlePhase(c, p);
    LatePhase(c, p);
  }

  /** On accepted configs every packet is routed. */
  lemma EveryPacketRouted(c: Config, published: seq<PublishedPort>, p: Packet)
    requires Accepted(c) && FieldsValid(c)
    ensures FirstMatch(HubRules(c, published), p).Some?
  {
    RulesImplementRouter(c, published, p);
    DefaultResolves(c);
  }
}
