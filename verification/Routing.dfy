/** Hub routing: balancers, published ports and the ordered rule list of a hub node. */
module Routing {
  import opened Base
  import opened Names
  import opened Schema
  import opened Rules

  datatype RenderError = EmptyRegion(id: string) | MissingRegion(id: string)

  // Published ports -------------------------------------------------------------------------

  datatype PublishedPort = PublishedPort(
    tag: string, reverseTag: string, port: nat, host: Host, targetPort: nat, network: set<Transport>, allow: seq<string>)

  function ResolveEntry(portal: Portal, e: Publish): PublishedPort {
    PublishedPort(PublishTag(portal.id, e.port), PortalTag(portal.id), e.port, e.host, e.targetPort, e.network, e.allow)
  }

  predicate BindsOn(e: Publish, node: string) { e.nodes == [] || node in e.nodes }

  function EntryPort(portal: Portal, node: string): Publish -> seq<PublishedPort> {
    (e: Publish) => if BindsOn(e, node) then [ResolveEntry(portal, e)] else []
  }

  function PortalPorts(node: string): Portal -> seq<PublishedPort> {
    (portal: Portal) => FlatMap(EntryPort(portal, node), portal.publish)
  }

  /** Ports hub node `node` publishes, in portal then declaration order. */
  function NodePublishes(portals: seq<Portal>, node: string): seq<PublishedPort> {
    FlatMap(PortalPorts(node), portals)
  }

  method ResolveNodePublishes(c: Config, node: string) returns (resolved: seq<PublishedPort>)
    ensures resolved == NodePublishes(c.portals, node)
  {
    resolved := [];
    for i := 0 to |c.portals|
      invariant resolved == NodePublishes(c.portals[..i], node)
    {
      var portal := c.portals[i];
      ghost var base := resolved;
      for j := 0 to |portal.publish|
        invariant resolved == base + FlatMap(EntryPort(portal, node), portal.publish[..j])
      {
        var e := portal.publish[j];
        FlatMapTake(EntryPort(portal, node), portal.publish, j);
        if e.nodes != [] && node !in e.nodes { continue; }
        resolved := resolved + [ResolveEntry(portal, e)];
      }
      assert portal.publish[..|portal.publish|] == portal.publish;
      FlatMapTake(PortalPorts(node), c.portals, i);
    }
    assert c.portals[..|c.portals|] == c.portals;
  }

  function PublishRule(pub: PublishedPort): Rule {
    Rule(Some(pub.tag), pub.allow, [], [], None, [], None, Outbound(pub.reverseTag))
  }

  function DenyRule(pub: PublishedPort): Rule {
    Bare(Outbound(BLOCKED)).(inbound := Some(pub.tag))
  }

  function PublishRules(): PublishedPort -> seq<Rule> {
    (pub: PublishedPort) => if pub.allow != [] then [PublishRule(pub), DenyRule(pub)] else [PublishRule(pub)]
  }

  method BuildPublishRules(published: seq<PublishedPort>) returns (rules: seq<Rule>)
    ensures rules == FlatMap(PublishRules(), published)
  {
    rules := [];
    for i := 0 to |published|
      invariant rules == FlatMap(PublishRules(), published[..i])
    {
      FlatMapTake(PublishRules(), published, i);
      rules := rules + [PublishRule(published[i])];
      if published[i].allow != [] {
        rules := rules + [DenyRule(published[i])];
      }
    }
    assert published[..|published|] == published;
  }

  // Regions ---------------------------------------------------------------------------------

  predicate Balanced(r: Region)
    requires r.ExitRegion?
  {
    r.lbStrategy.Some? && |r.nodes| > 1
  }

  function FirstPrimary(ns: seq<Node>): Option<Node> {
    if ns == [] then None else if !ns[0].backup then Some(ns[0]) else FirstPrimary(ns[1..])
  }

  /** Node a region stands for when nothing else names one: its first primary, else its first. */
  function LeadNode(r: Region): Node
    requires r.nodes != []
  {
    if FirstPrimary(r.nodes).Some? then FirstPrimary(r.nodes).value else r.nodes[0]
  }

  function FindNode(ns: seq<Node>, id: string): Option<Node> {
    if ns == [] then None else if ns[0].id == id then Some(ns[0]) else FindNode(ns[1..], id)
  }

  function FallbackTag(r: Region): string
    requires r.ExitRegion? && r.nodes != []
  {
    if r.lbFallback.None? then LeadNode(r).id
    else
      var n := FindNode(r.nodes, r.lbFallback.value);
      if n.Some? && n.value.backup then BACKUP_PREFIX + r.lbFallback.value else r.lbFallback.value
  }

  function RegionTarget(r: Region): Target
    requires r.ExitRegion? && r.nodes != []
  {
    if Balanced(r) then Balancer(LB_PREFIX + r.id) else Outbound(LeadNode(r).id)
  }

  function RegionWarpTarget(r: Region): Target
    requires r.ExitRegion? && r.nodes != []
  {
    if Balanced(r) then Balancer(LB_WARP_PREFIX + r.id) else Outbound(WARP_PREFIX + LeadNode(r).id)
  }

  /** `region_outbound_tag` with its failure on a region without nodes. */
  function TryRegionTarget(r: Region): (out: Result<Target, RenderError>)
    requires r.ExitRegion?
    ensures out.Ok? <==> r.nodes != []
    ensures out.Ok? ==> out.value == RegionTarget(r)
  {
    if Balanced(r) then Ok(Balancer(LB_PREFIX + r.id))
    else if r.nodes == [] then Err(EmptyRegion(r.id))
    else Ok(Outbound(LeadNode(r).id))
  }

  datatype BalancerDef = BalancerDef(tag: string, selector: string, fallbackTag: string, strategy: string)

  function RegionBalancers(): Region -> seq<BalancerDef> {
    (r: Region) =>
      if r.ExitRegion? && r.nodes != [] && Balanced(r) then
        [BalancerDef(LB_PREFIX + r.id, r.id, FallbackTag(r), r.lbStrategy.value)]
        + (if r.warp.Some?
           then [BalancerDef(LB_WARP_PREFIX + r.id, WARP_PREFIX + r.id, WARP_PREFIX + FallbackTag(r), r.lbStrategy.value)]
           else [])
      else []
  }

  method BuildBalancers(exits: seq<Region>) returns (balancers: seq<BalancerDef>)
    requires forall r :: r in exits ==> r.ExitRegion?
    ensures balancers == FlatMap(RegionBalancers(), exits)
  {
    balancers := [];
    for i := 0 to |exits|
      invariant balancers == FlatMap(RegionBalancers(), exits[..i])
    {
      var r := exits[i];
      FlatMapTake(RegionBalancers(), exits, i);
      if !Balanced(r) { continue; }
      var fb := FallbackTag(r);
      balancers := balancers + [BalancerDef(LB_PREFIX + r.id, r.id, fb, r.lbStrategy.value)];
      if r.warp.Some? {
        balancers := balancers
          + [BalancerDef(LB_WARP_PREFIX + r.id, WARP_PREFIX + r.id, WARP_PREFIX + fb, r.lbStrategy.value)];
      }
    }
    assert exits[..|exits|] == exits;
  }

  // Hub routes ------------------------------------------------------------------------------

  function Emails(ns: string, users: seq<string>): (out: seq<string>)
    ensures |out| == |users| && forall i :: 0 <= i < |out| ==> out[i] == UserEmail(ns, users[i])
  {
    seq(|users|, i requires 0 <= i < |users| => UserEmail(ns, users[i]))
  }

  function UserFilter(ns: string, h: HubRoute): seq<string> { Emails(ns, h.users) + h.proxyUsers }

  function DomainRule(domains: seq<string>, users: seq<string>, t: Target): Rule {
    Bare(t).(domain := domains, user := users)
  }

  function IpRule(ips: seq<string>, users: seq<string>, t: Target): Rule {
    Bare(t).(ip := ips, user := users)
  }

  /** A route's domain, ip and bare user-filter rules towards one target. */
  function RouteRules(ns: string, h: HubRoute, t: Target, includeIps: bool): seq<Rule> {
    var users := UserFilter(ns, h);
    (if h.domains != [] then [DomainRule(h.domains, users, t)] else [])
    + (if includeIps && h.ips != [] then [IpRule(h.ips, users, t)] else [])
    + (if h.domains == [] && h.ips == [] && users != [] then [Bare(t).(user := users)] else [])
  }

  method AppendRouteRules(rules: seq<Rule>, ns: string, h: HubRoute, t: Target, includeIps: bool) returns (out: seq<Rule>)
    ensures out == rules + RouteRules(ns, h, t, includeIps)
  {
    var users := UserFilter(ns, h);
    out := rules;
    if h.domains != [] { out := out + [DomainRule(h.domains, users, t)]; }
    if includeIps && h.ips != [] { out := out + [IpRule(h.ips, users, t)]; }
    if h.domains == [] && h.ips == [] && users != [] { out := out + [Bare(t).(user := users)]; }
  }

  // The rule list ---------------------------------------------------------------------------

  function DnsRule(c: Config): Rule {
    var ips := ["127.0.0.1", "::1"];
    Bare(Outbound(DIRECT)).(ip := if c.dnsAddress !in ips then ips + [c.dnsAddress] else ips, port := Some(c.dnsPort))
  }

  function VlessRule(v: nat, t: Target): Rule { Bare(t).(vlessRoute := Some(v)) }

  function RegionVlessRules(): Region -> seq<Rule> {
    (r: Region) => if r.ExitRegion? && r.nodes != [] && r.vlessRoute.Some? then [VlessRule(r.vlessRoute.value, RegionTarget(r))] else []
  }

  function WarpVlessRules(): Region -> seq<Rule> {
    (r: Region) => if r.ExitRegion? && r.nodes != [] && r.warp.Some? then [VlessRule(r.warp.value, RegionWarpTarget(r))] else []
  }

  function BlockedRules(ns: string): HubRoute -> seq<Rule> {
    (h: HubRoute) => if h.destination == BLOCKED then RouteRules(ns, h, Outbound(BLOCKED), false) else []
  }

  function PortalRules(ns: string): Portal -> seq<Rule> {
    (p: Portal) =>
      (if p.domains != [] then [DomainRule(p.domains, Emails(ns, p.users), Outbound(PortalTag(p.id)))] else [])
      + (if p.ips != [] then [IpRule(p.ips, Emails(ns, p.users), Outbound(PortalTag(p.id)))] else [])
  }

  /** Exit regions by id; a repeated id keeps its last region. */
  function RegionMap(rs: seq<Region>): map<string, Region> {
    if rs == [] then map[] else RegionMap(rs[..|rs| - 1])[rs[|rs| - 1].id := rs[|rs| - 1]]
  }

  /** Where a hub route other than `blocked` and `direct` leads; `None` skips the route. */
  function RouteTarget(exits: seq<Region>, dest: string): Option<Target> {
    if dest == WARP then Some(Outbound(WARP))
    else if dest in RegionMap(exits) then
      var r := RegionMap(exits)[dest];
      if r.ExitRegion? && r.nodes != [] then Some(RegionTarget(r)) else None
    else if dest in NodeIds(NodesOf(exits)) then Some(Outbound(dest))
    else None
  }

  function SteeredRules(ns: string, exits: seq<Region>): HubRoute -> seq<Rule> {
    (h: HubRoute) =>
      if h.destination == BLOCKED || h.destination == DIRECT || RouteTarget(exits, h.destination).None? then []
      else RouteRules(ns, h, RouteTarget(exits, h.destination).value, true)
  }

  function DirectRules(ns: string): HubRoute -> seq<Rule> {
    (h: HubRoute) => if h.destination == DIRECT then RouteRules(ns, h, Outbound(DIRECT), true) else []
  }

  function BlockedIpRules(ns: string): HubRoute -> seq<Rule> {
    (h: HubRoute) => if h.destination == BLOCKED && h.ips != [] then [IpRule(h.ips, UserFilter(ns, h), Outbound(BLOCKED))] else []
  }

  function DefaultTarget(c: Config): Option<Target> {
    var exits := Exits(c.regions);
    if IsSpecial(c.hubDefault) then Some(Outbound(c.hubDefault))
    else if c.hubDefault in RegionMap(exits) && RegionMap(exits)[c.hubDefault].ExitRegion?
            && RegionMap(exits)[c.hubDefault].nodes != []
    then Some(RegionTarget(RegionMap(exits)[c.hubDefault]))
    else None
  }

  /** Published ports, the resolver and vlessRoute values: what outranks user routing. */
  function EarlyRules(c: Config, published: seq<PublishedPort>): seq<Rule> {
    FlatMap(PublishRules(), published) + [DnsRule(c)]
    + FlatMap(RegionVlessRules(), Rendered(c.regions)) + FlatMap(WarpVlessRules(), Rendered(c.regions))
  }

  /** Blocked domains and users, portals, and routes to regions, nodes and warp. */
  function MiddleRules(c: Config): seq<Rule> {
    FlatMap(BlockedRules(c.namespace), c.hubRoutes) + FlatMap(PortalRules(c.namespace), c.portals)
    + FlatMap(SteeredRules(c.namespace, Exits(c.regions)), c.hubRoutes)
  }

  /** Direct routes, blocked ips and the default. */
  function LateRules(c: Config): seq<Rule> {
    FlatMap(DirectRules(c.namespace), c.hubRoutes) + FlatMap(BlockedIpRules(c.namespace), c.hubRoutes)
    + (if DefaultTarget(c).Some? then [Bare(DefaultTarget(c).value)] else [])
  }

  /** The ordered rule list of a hub that publishes `published`. */
  function HubRules(c: Config, published: seq<PublishedPort>): seq<Rule> {
    EarlyRules(c, published) + MiddleRules(c) + LateRules(c)
  }
}
