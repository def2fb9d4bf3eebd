/** Every tag a hub's rules and balancers name exists in the same hub's config. */
module Closure {
  import opened Base
  import opened Names
  import opened Schema
  import opened Acceptance
  import opened Rules
  import opened Routing
  import opened HubBuilder
  import opened Router
  import opened Reachability
  import Confinement

  // Outbounds -------------------------------------------------------------------------------

  /** One hub-to-exit outbound: its tag, the node it dials and whether it is the warp variant. */
  datatype Link = Link(tag: string, region: string, node: string, warp: bool)

  function RolePrefix(n: Node): string { if n.backup then BACKUP_PREFIX else "" }

  function NodeLink(region: string): Node -> seq<Link> {
    (n: Node) => [Link(RolePrefix(n) + n.id, region, n.id, false)]
  }

  function NodeWarpLink(region: string): Node -> seq<Link> {
    (n: Node) => [Link(WARP_PREFIX + RolePrefix(n) + n.id, region, n.id, true)]
  }

  function RegionLinks(): Region -> seq<Link> { (r: Region) => FlatMap(NodeLink(r.id), r.nodes) }

  function RegionWarpLinks(): Region -> seq<Link> {
    (r: Region) => if r.ExitRegion? && r.warp.Some? then FlatMap(NodeWarpLink(r.id), r.nodes) else []
  }

  function Links(c: Config): seq<Link> {
    FlatMap(RegionLinks(), Rendered(c.regions)) + FlatMap(RegionWarpLinks(), Rendered(c.regions))
  }

  method AppendRegionLinks(r: Region, plain0: seq<Link>, warped0: seq<Link>) returns (plain: seq<Link>, warped: seq<Link>)
    requires r.ExitRegion?
    ensures plain == plain0 + RegionLinks()(r) && warped == warped0 + RegionWarpLinks()(r)
  {
    plain, warped := plain0, warped0;
    for j := 0 to |r.nodes|
      invariant plain == plain0 + FlatMap(NodeLink(r.id), r.nodes[..j])
      invariant warped == warped0 + (if r.warp.Some? then FlatMap(NodeWarpLink(r.id), r.nodes[..j]) else [])
    {
      var n := r.nodes[j];
      FlatMapGrow(plain0, NodeLink(r.id), r.nodes, j);
      FlatMapGrow(warped0, NodeWarpLink(r.id), r.nodes, j);
      plain := plain + [Link(RolePrefix(n) + n.id, r.id, n.id, false)];
      if r.warp.Some? {
        warped := warped + [Link(WARP_PREFIX + RolePrefix(n) + n.id, r.id, n.id, true)];
      }
    }
    assert r.nodes[..|r.nodes|] == r.nodes;
  }

  /** Outbound assembly of a hub: plain links first, warp variants after them. */
  method BuildLinks(c: Config) returns (links: seq<Link>)
    ensures links == Links(c)
  {
    var plain: seq<Link>, warped: seq<Link> := [], [];
    var exits := Rendered(c.regions);
    for i := 0 to |exits|
      invariant plain == FlatMap(RegionLinks(), exits[..i])
      invariant warped == FlatMap(RegionWarpLinks(), exits[..i])
    {
      plain, warped := AppendRegionLinks(exits[i], plain, warped);
      FlatMapTake(RegionLinks(), exits, i);
      FlatMapTake(RegionWarpLinks(), exits, i);
    }
    assert exits[..|exits|] == exits;
    return plain + warped;
  }

  lemma LinkMember(c: Config, l: Link)
    ensures l in Links(c) <==>
            exists r, n :: r in Rendered(c.regions) && n in r.nodes &&
                           (l == Link(RolePrefix(n) + n.id, r.id, n.id, false)
                            || (r.warp.Some? && l == Link(WARP_PREFIX + RolePrefix(n) + n.id, r.id, n.id, true)))
  {
    var exits := Rendered(c.regions);
    FlatMapMember(RegionLinks(), exits, l);
    FlatMapMember(RegionWarpLinks(), exits, l);
    forall r | r in exits
      ensures l in RegionLinks()(r) <==> exists n :: n in r.nodes && l == Link(RolePrefix(n) + n.id, r.id, n.id, false)
      ensures l in RegionWarpLinks()(r) <==>
              r.warp.Some? && exists n :: n in r.nodes && l == Link(WARP_PREFIX + RolePrefix(n) + n.id, r.id, n.id, true)
    {
      FlatMapMember(NodeLink(r.id), r.nodes, l);
      FlatMapMember(NodeWarpLink(r.id), r.nodes, l);
    }
  }

  ghost predicate OutboundExists(c: Config, tag: string) {
    || IsSpecial(tag)
    || (exists l :: l in Links(c) && l.tag == tag)
    || (exists p :: p in c.portals && tag == PortalTag(p.id))
  }

  function Balancers(c: Config): seq<BalancerDef> { FlatMap(RegionBalancers(), Rendered(c.regions)) }

  ghost predicate TargetExists(c: Config, t: Target) {
    match t
    case Outbound(tag) => OutboundExists(c, tag)
    case Balancer(tag) => exists b :: b in Balancers(c) && b.tag == tag
  }

  /** No rule and no balancer of the hub names a tag the hub lacks. */
  ghost predicate Closed(c: Config, published: seq<PublishedPort>) {
    && (forall r :: r in HubRules(c, published) ==> TargetExists(c, r.target))
    && (forall b :: b in Balancers(c) ==> OutboundExists(c, b.fallbackTag))
  }

  // When it holds ---------------------------------------------------------------------------

  /** The region's lead node is named somewhere: as its target or as its balancer's fallback. */
  predicate LeadNamed(r: Region)
    requires r.ExitRegion?
  {
    !Balanced(r) || r.lbFallback.None?
  }

  predicate HasPrimary(r: Region) { exists n :: n in r.nodes && !n.backup }

  ghost predicate LeadsPrimary(c: Config) {
    forall r :: r in Rendered(c.regions) && LeadNamed(r) ==> HasPrimary(r)
  }

  /** The route names a node, not a region or special destination. */
  predicate ToNode(c: Config, h: HubRoute) {
    !IsSpecial(h.destination) && h.destination !in RegionMap(Exits(c.regions))
  }

  ghost predicate RoutesAvoidBackups(c: Config) {
    forall h, r, n :: h in c.hubRoutes && ToNode(c, h) && r in Exits(c.regions) && n in r.nodes && n.id == h.destination ==>
                        !n.backup
  }

  /** `q` renders and `m` is one of its nodes. */
  ghost predicate Dialled(c: Config, q: Region, m: Node) { q in Rendered(c.regions) && m in q.nodes }

  /** The bare id `id` happens to be an outbound's tag: a special one, a backup's or a warp variant's. */
  ghost predicate Spelled(c: Config, id: string) {
    || IsSpecial(id)
    || (exists q, m :: Dialled(c, q, m) && m.backup && id == BACKUP_PREFIX + m.id)
    || (exists q, m :: Dialled(c, q, m) && q.warp.Some? && id == WARP_PREFIX + RolePrefix(m) + m.id)
  }

  /** So does `warp-` before it: as the warp variant of a backup `backup-x` is called, or a primary. */
  ghost predicate WarpSpelled(c: Config, id: string) {
    || (exists q, m :: Dialled(c, q, m) && q.warp.Some? && m.backup && id == BACKUP_PREFIX + m.id)
    || (exists q, m :: Dialled(c, q, m) && !m.backup && m.id == WARP_PREFIX + id)
  }

  /** The region's lead is a primary, or other outbounds happen to carry the tags it is named by. */
  ghost predicate LeadFound(c: Config, r: Region)
    requires r.ExitRegion? && r.nodes != []
  {
    || HasPrimary(r)
    || (Spelled(c, LeadNode(r).id) && (r.warp.Some? ==> WarpSpelled(c, LeadNode(r).id)))
  }

  ghost predicate LeadsFound(c: Config) {
    forall r :: r in Rendered(c.regions) && LeadNamed(r) ==> LeadFound(c, r)
  }

  ghost predicate RoutesFound(c: Config) {
    forall h, r, n :: h in c.hubRoutes && ToNode(c, h) && r in Exits(c.regions) && n in r.nodes && n.id == h.destination ==>
                        !n.backup || Spelled(c, n.id)
  }

  /** No node id looks like a special destination or a prefixed tag. */
  ghost predicate PlainNodeIds(c: Config) {
    forall r, n :: r in c.regions && n in r.nodes ==>
                     !IsSpecial(n.id) && !(BACKUP_PREFIX <= n.id) && !(WARP_PREFIX <= n.id)
  }

  lemma LinkExists(c: Config, r: Region, n: Node)
    requires r in Rendered(c.regions) && n in r.nodes
    ensures OutboundExists(c, RolePrefix(n) + n.id)
  {
    LinkMember(c, Link(RolePrefix(n) + n.id, r.id, n.id, false));
  }

  lemma WarpLinkExists(c: Config, r: Region, n: Node)
    requires r in Rendered(c.regions) && n in r.nodes && r.warp.Some?
    ensures OutboundExists(c, WARP_PREFIX + RolePrefix(n) + n.id) && OutboundExists(c, WARP_PREFIX + (RolePrefix(n) + n.id))
  {
    LinkMember(c, Link(WARP_PREFIX + RolePrefix(n) + n.id, r.id, n.id, true));
    Regroup(WARP_PREFIX, RolePrefix(n), n.id);
  }

  lemma LeadIsPrimary(r: Region)
    requires r.nodes != []
    ensures LeadNode(r) in r.nodes
    ensures HasPrimary(r) <==> !LeadNode(r).backup
  {
    FirstPrimaryIn(r.nodes);
  }

  lemma BackupTagExists(c: Config, q: Region, m: Node)
    requires Dialled(c, q, m) && m.backup
    ensures OutboundExists(c, BACKUP_PREFIX + m.id)
  {
    LinkExists(c, q, m);
  }

  lemma SpelledExists(c: Config, id: string)
    requires Spelled(c, id)
    ensures OutboundExists(c, id)
  {
    if q, m :| Dialled(c, q, m) && m.backup && id == BACKUP_PREFIX + m.id {
      BackupTagExists(c, q, m);
    } else if q, m :| Dialled(c, q, m) && q.warp.Some? && id == WARP_PREFIX + RolePrefix(m) + m.id {
      WarpLinkExists(c, q, m);
    }
  }

  lemma WarpSpelledExists(c: Config, id: string)
    requires WarpSpelled(c, id)
    ensures OutboundExists(c, WARP_PREFIX + id)
  {
    if q, m :| Dialled(c, q, m) && q.warp.Some? && m.backup && id == BACKUP_PREFIX + m.id {
      WarpLinkExists(c, q, m);
    } else {
      var q, m :| Dialled(c, q, m) && !m.backup && m.id == WARP_PREFIX + id;
      LinkExists(c, q, m);
      assert "" + m.id == m.id;
    }
  }

  lemma LeadLink(c: Config, r: Region)
    requires r in Rendered(c.regions) && LeadFound(c, r)
    ensures OutboundExists(c, LeadNode(r).id)
    ensures r.warp.Some? ==> OutboundExists(c, WARP_PREFIX + LeadNode(r).id)
  {
    if HasPrimary(r) {
      LeadIsPrimary(r);
      LinkExists(c, r, LeadNode(r));
      if r.warp.Some? { WarpLinkExists(c, r, LeadNode(r)); }
      assert "" + LeadNode(r).id == LeadNode(r).id;
    } else {
      SpelledExists(c, LeadNode(r).id);
      if r.warp.Some? { WarpSpelledExists(c, LeadNode(r).id); }
    }
  }

  lemma BalancerIn(c: Config, r: Region, b: BalancerDef)
    requires r in Rendered(c.regions) && b in RegionBalancers()(r)
    ensures b in Balancers(c)
  {
    FlatMapMember(RegionBalancers(), Rendered(c.regions), b);
  }

  lemma RegionTargetExists(c: Config, r: Region)
    requires r in Rendered(c.regions) && (LeadNamed(r) ==> LeadFound(c, r))
    ensures TargetExists(c, RegionTarget(r))
    ensures r.warp.Some? ==> TargetExists(c, RegionWarpTarget(r))
  {
    if Balanced(r) {
      var b := BalancerDef(LB_PREFIX + r.id, r.id, FallbackTag(r), r.lbStrategy.value);
      assert b == RegionBalancers()(r)[0];
      BalancerIn(c, r, b);
      if r.warp.Some? {
        var w := BalancerDef(LB_WARP_PREFIX + r.id, WARP_PREFIX + r.id, WARP_PREFIX + FallbackTag(r), r.lbStrategy.value);
        assert w == RegionBalancers()(r)[1];
        BalancerIn(c, r, w);
      }
    } else {
      LeadLink(c, r);
    }
  }

  lemma FallbackExists(c: Config, r: Region)
    requires Accepted(c) && r in Rendered(c.regions) && (LeadNamed(r) ==> LeadFound(c, r))
    ensures OutboundExists(c, FallbackTag(r))
    ensures r.warp.Some? ==> OutboundExists(c, WARP_PREFIX + FallbackTag(r))
  {
    if r.lbFallback.None? {
      LeadLink(c, r);
    } else {
      var n := FallbackNode(c, r);
      assert "" + n.id == n.id;
      assert FallbackTag(r) == RolePrefix(n) + n.id;
      LinkExists(c, r, n);
      if r.warp.Some? { WarpLinkExists(c, r, n); }
    }
  }

  // Where rules come from -------------------------------------------------------------------

  lemma EarlyOrigin(c: Config, published: seq<PublishedPort>, rule: Rule)
    requires rule in EarlyRules(c, published)
    ensures || (exists pub :: pub in published && rule in PublishRules()(pub))
            || rule == DnsRule(c)
            || (exists r :: r in Rendered(c.regions) && (rule in RegionVlessRules()(r) || rule in WarpVlessRules()(r)))
  {
    FlatMapMember(PublishRules(), published, rule);
    FlatMapMember(RegionVlessRules(), Rendered(c.regions), rule);
    FlatMapMember(WarpVlessRules(), Rendered(c.regions), rule);
  }

  lemma UserOrigin(c: Config, rule: Rule)
    requires rule in MiddleRules(c) + LateRules(c)
    ensures || (exists h :: h in c.hubRoutes &&
                            (rule in BlockedRules(c.namespace)(h) || rule in SteeredRules(c.namespace, Exits(c.regions))(h)
                             || rule in DirectRules(c.namespace)(h) || rule in BlockedIpRules(c.namespace)(h)))
            || (exists p :: p in c.portals && rule in PortalRules(c.namespace)(p))
            || (DefaultTarget(c).Some? && rule == Bare(DefaultTarget(c).value))
  {
    FlatMapMember(BlockedRules(c.namespace), c.hubRoutes, rule);
    FlatMapMember(PortalRules(c.namespace), c.portals, rule);
    FlatMapMember(SteeredRules(c.namespace, Exits(c.regions)), c.hubRoutes, rule);
    FlatMapMember(DirectRules(c.namespace), c.hubRoutes, rule);
    FlatMapMember(BlockedIpRules(c.namespace), c.hubRoutes, rule);
  }

  lemma RouteRulesTarget(ns: string, h: HubRoute, t: Target, includeIps: bool, rule: Rule)
    requires rule in RouteRules(ns, h, t, includeIps)
    ensures rule.target == t
  {
  }

  lemma SteeredExists(c: Config, h: HubRoute)
    requires Accepted(c) && LeadsFound(c) && RoutesFound(c)
    requires h in c.hubRoutes && h.destination != BLOCKED && h.destination != DIRECT
    requires RouteTarget(Exits(c.regions), h.destination).Some?
    ensures TargetExists(c, RouteTarget(Exits(c.regions), h.destination).value)
  {
    var exits, d := Exits(c.regions), h.destination;
    if d != WARP {
      if d in RegionMap(exits) {
        RegionMapMeaning(exits, d);
        RegionTargetExists(c, RegionMap(exits)[d]);
      } else {
        var r, n := NodeIdOwner(exits, d);
        assert ToNode(c, h);
        if n.backup {
          SpelledExists(c, d);
        } else {
          LinkExists(c, r, n);
          assert "" + d == d;
        }
      }
    }
  }

  lemma DefaultExists(c: Config)
    requires Accepted(c) && LeadsFound(c)
    ensures DefaultTarget(c).Some? && TargetExists(c, DefaultTarget(c).value)
  {
    DefaultResolves(c);
    if !IsSpecial(c.hubDefault) {
      RegionMapMeaning(Exits(c.regions), c.hubDefault);
      RegionTargetExists(c, RegionMap(Exits(c.regions))[c.hubDefault]);
    }
  }

  lemma PublishTargetExists(c: Config, node: string, pub: PublishedPort, rule: Rule)
    requires pub in NodePublishes(c.portals, node) && rule in PublishRules()(pub)
    ensures TargetExists(c, rule.target)
  {
    Confinement.PublishesMember(c.portals, node, pub);
    assert rule.target == Outbound(pub.reverseTag) || rule.target == Outbound(BLOCKED);
  }

  lemma EarlyTargetExists(c: Config, node: string, rule: Rule)
    requires LeadsFound(c) && rule in EarlyRules(c, NodePublishes(c.portals, node))
    ensures TargetExists(c, rule.target)
  {
    var published := NodePublishes(c.portals, node);
    EarlyOrigin(c, published, rule);
    if pub :| pub in published && rule in PublishRules()(pub) {
      PublishTargetExists(c, node, pub, rule);
    } else if r :| r in Rendered(c.regions) && (rule in RegionVlessRules()(r) || rule in WarpVlessRules()(r)) {
      RegionTargetExists(c, r);
    }
  }

  lemma RouteTargetExists(c: Config, h: HubRoute, rule: Rule)
    requires Accepted(c) && LeadsFound(c) && RoutesFound(c) && h in c.hubRoutes
    requires || rule in BlockedRules(c.namespace)(h) || rule in SteeredRules(c.namespace, Exits(c.regions))(h)
             || rule in DirectRules(c.namespace)(h) || rule in BlockedIpRules(c.namespace)(h)
    ensures TargetExists(c, rule.target)
  {
    if rule in SteeredRules(c.namespace, Exits(c.regions))(h) {
      RouteRulesTarget(c.namespace, h, RouteTarget(Exits(c.regions), h.destination).value, true, rule);
      SteeredExists(c, h);
    } else if rule in BlockedRules(c.namespace)(h) {
      RouteRulesTarget(c.namespace, h, Outbound(BLOCKED), false, rule);
    } else if rule in DirectRules(c.namespace)(h) {
      RouteRulesTarget(c.namespace, h, Outbound(DIRECT), true, rule);
    }
  }

  lemma PortalTargetExists(c: Config, p: Portal, rule: Rule)
    requires p in c.portals && rule in PortalRules(c.namespace)(p)
    ensures TargetExists(c, rule.target)
  {
    assert rule.target == Outbound(PortalTag(p.id));
  }

  lemma UserTargetExists(c: Config, rule: Rule)
    requires Accepted(c) && LeadsFound(c) && RoutesFound(c) && rule in MiddleRules(c) + LateRules(c)
    ensures TargetExists(c, rule.target)
  {
    UserOrigin(c, rule);
    if h :| h in c.hubRoutes &&
            (rule in BlockedRules(c.namespace)(h) || rule in SteeredRules(c.namespace, Exits(c.regions))(h)
             || rule in DirectRules(c.namespace)(h) || rule in BlockedIpRules(c.namespace)(h))
    {
      RouteTargetExists(c, h, rule);
    } else if p :| p in c.portals && rule in PortalRules(c.namespace)(p) {
      PortalTargetExists(c, p, rule);
    } else {
      DefaultExists(c);
    }
  }

  lemma FoundClose(c: Config, node: string)
    requires Accepted(c) && LeadsFound(c) && RoutesFound(c)
    ensures Closed(c, NodePublishes(c.portals, node))
  {
    var published := NodePublishes(c.portals, node);
    forall rule | rule in HubRules(c, published) ensures TargetExists(c, rule.target) {
      if rule in EarlyRules(c, published) {
        EarlyTargetExists(c, node, rule);
      } else {
        UserTargetExists(c, rule);
      }
    }
    forall b | b in Balancers(c) ensures OutboundExists(c, b.fallbackTag) {
      FlatMapMember(RegionBalancers(), Rendered(c.regions), b);
      var r :| r in Rendered(c.regions) && b in RegionBalancers()(r);
      BalancerShape(r, b);
      FallbackExists(c, r);
    }
  }

  /** With a primary behind every named lead and no route to a backup node, every tag exists. */
  lemma PrimariesClose(c: Config, node: string)
    requires Accepted(c) && LeadsPrimary(c) && RoutesAvoidBackups(c)
    ensures Closed(c, NodePublishes(c.portals, node))
  {
    FoundClose(c, node);
  }

  /** A portal's tag is its own: no special outbound, link, balancer or other portal has it. */
  lemma PortalTagOwn(c: Config, portal: Portal)
    requires Accepted(c) && portal in c.portals
    ensures var t := PortalTag(portal.id);
            && !IsSpecial(t) && (forall l :: l in Links(c) ==> l.tag != t) && (forall b :: b in Balancers(c) ==> b.tag != t)
            && forall q :: q in c.portals && PortalTag(q.id) == t ==> q == portal
  {
    var t := PortalTag(portal.id);
    SpecialsAvoidPortal(c, portal);
    forall l | l in Links(c) ensures l.tag != t { LinkNotPortal(c, portal, l); }
    forall b | b in Balancers(c) ensures b.tag != t { BalancerNotPortal(c, portal, b); }
    forall q | q in c.portals && PortalTag(q.id) == t ensures q == portal {
      PortalTagInjective(q.id, portal.id);
      SamePortal(c.portals, q, portal);
    }
  }

  lemma LinkNotPortal(c: Config, portal: Portal, l: Link)
    requires Accepted(c) && portal in c.portals && l in Links(c)
    ensures l.tag != PortalTag(portal.id)
  {
    var q, m := LinkTag(c, l);
    PortalTagFresh(c, portal, q, m);
    assert "" + m.id == m.id && WARP_PREFIX + "" == WARP_PREFIX;
  }

  lemma BalancerNotPortal(c: Config, portal: Portal, b: BalancerDef)
    requires Accepted(c) && portal in c.portals && b in Balancers(c)
    ensures b.tag != PortalTag(portal.id)
  {
    FlatMapMember(RegionBalancers(), Rendered(c.regions), b);
    var r :| r in Rendered(c.regions) && b in RegionBalancers()(r);
    BalancerShape(r, b);
    assert !IsDerivedTag(c.regions, PortalTag(portal.id)) by { assert PortalOk(c, portal); }
  }

  // When it fails ---------------------------------------------------------------------------

  lemma LinkTag(c: Config, l: Link) returns (q: Region, m: Node)
    requires l in Links(c)
    ensures Dialled(c, q, m) && (l.warp ==> q.warp.Some?)
    ensures l == if l.warp then Link(WARP_PREFIX + RolePrefix(m) + m.id, q.id, m.id, true) else Link(RolePrefix(m) + m.id, q.id, m.id, false)
  {
    LinkMember(c, l);
    q, m :| q in Rendered(c.regions) && m in q.nodes &&
            (l == Link(RolePrefix(m) + m.id, q.id, m.id, false)
             || (q.warp.Some? && l == Link(WARP_PREFIX + RolePrefix(m) + m.id, q.id, m.id, true)));
  }

  /** A link tagged with a backup node's bare id is not that node's own. */
  lemma LinkSpells(c: Config, r: Region, n: Node, l: Link)
    requires RegionsOk(c) && r in c.regions && n in r.nodes && n.backup && l in Links(c) && l.tag == n.id
    ensures Spelled(c, n.id)
  {
    var q, m := LinkTag(c, l);
    if !l.warp && !m.backup {
      assert "" + m.id == m.id;
      SameOwner(c.regions, r, n, q, m);
    }
  }

  /** A backup node's bare id is no outbound, unless it happens to be spelled like another one's tag. */
  lemma BackupIdDangles(c: Config, r: Region, n: Node)
    requires Accepted(c) && r in c.regions && n in r.nodes && n.backup
    ensures OutboundExists(c, n.id) <==> Spelled(c, n.id)
  {
    if Spelled(c, n.id) { SpelledExists(c, n.id); }
    if l :| l in Links(c) && l.tag == n.id { LinkSpells(c, r, n, l); }
    forall p | p in c.portals ensures n.id != PortalTag(p.id) { PortalTagFresh(c, p, r, n); }
  }

  lemma WarpVariantSpells(c: Config, r: Region, n: Node, q: Region, m: Node)
    requires RegionsOk(c) && r in c.regions && n in r.nodes && n.backup
    requires Dialled(c, q, m) && q.warp.Some? && RolePrefix(m) + m.id == n.id
    ensures WarpSpelled(c, n.id)
  {
    if !m.backup {
      assert "" + m.id == m.id;
      SameOwner(c.regions, r, n, q, m);
    }
  }

  lemma PlainLinkSpells(c: Config, id: string, q: Region, m: Node)
    requires Dialled(c, q, m) && RolePrefix(m) + m.id == WARP_PREFIX + id
    ensures WarpSpelled(c, id)
  {
    PrefixesDiffer(m.id, id);
    assert "" + m.id == m.id;
  }

  lemma WarpLinkSpells(c: Config, r: Region, n: Node, l: Link)
    requires RegionsOk(c) && r in c.regions && n in r.nodes && n.backup && l in Links(c) && l.tag == WARP_PREFIX + n.id
    ensures WarpSpelled(c, n.id)
  {
    var q, m := LinkTag(c, l);
    if l.warp {
      SamePrefix(WARP_PREFIX, RolePrefix(m), m.id, n.id);
      WarpVariantSpells(c, r, n, q, m);
    } else {
      PlainLinkSpells(c, n.id, q, m);
    }
  }

  lemma PrefixesDiffer(a: string, b: string)
    ensures BACKUP_PREFIX + a != WARP_PREFIX + b && !IsSpecial(WARP_PREFIX + b)
  {
    assert (BACKUP_PREFIX + a)[0] == 'b' && (WARP_PREFIX + b)[0] == 'w' && (WARP_PREFIX + b)[4] == '-';
  }

  /** So is the warp variant such a region's lead would have. */
  lemma BackupWarpDangles(c: Config, r: Region, n: Node)
    requires Accepted(c) && r in c.regions && n in r.nodes && n.backup
    ensures OutboundExists(c, WARP_PREFIX + n.id) <==> WarpSpelled(c, n.id)
  {
    if WarpSpelled(c, n.id) { WarpSpelledExists(c, n.id); }
    if l :| l in Links(c) && l.tag == WARP_PREFIX + n.id { WarpLinkSpells(c, r, n, l); }
    PrefixesDiffer("", n.id);
    forall p | p in c.portals ensures WARP_PREFIX + n.id != PortalTag(p.id) { PortalTagFresh(c, p, r, n); }
  }

  lemma VlessRuleIn(c: Config, published: seq<PublishedPort>, r: Region)
    requires Accepted(c) && r in Rendered(c.regions)
    ensures r.vlessRoute.Some? && VlessRule(r.vlessRoute.value, RegionTarget(r)) in HubRules(c, published)
  {
    ExitHasVless(c, r);
    var rule := VlessRule(r.vlessRoute.value, RegionTarget(r));
    FlatMapMember(RegionVlessRules(), Rendered(c.regions), rule);
    assert rule in RegionVlessRules()(r);
    assert rule in EarlyRules(c, published);
  }

  lemma WarpVlessRuleIn(c: Config, published: seq<PublishedPort>, r: Region)
    requires r in Rendered(c.regions) && r.warp.Some?
    ensures VlessRule(r.warp.value, RegionWarpTarget(r)) in HubRules(c, published)
  {
    var rule := VlessRule(r.warp.value, RegionWarpTarget(r));
    FlatMapMember(WarpVlessRules(), Rendered(c.regions), rule);
    assert rule in WarpVlessRules()(r);
    assert rule in EarlyRules(c, published);
  }

  /** A named lead's own tags are among those a closed config has. */
  lemma LeadNeeded(c: Config, published: seq<PublishedPort>, r: Region)
    requires Accepted(c) && Closed(c, published) && r in Rendered(c.regions) && LeadNamed(r)
    ensures OutboundExists(c, LeadNode(r).id)
    ensures r.warp.Some? ==> OutboundExists(c, WARP_PREFIX + LeadNode(r).id)
  {
    if Balanced(r) {
      var b := BalancerDef(LB_PREFIX + r.id, r.id, FallbackTag(r), r.lbStrategy.value);
      assert b == RegionBalancers()(r)[0];
      BalancerIn(c, r, b);
      if r.warp.Some? {
        var w := BalancerDef(LB_WARP_PREFIX + r.id, WARP_PREFIX + r.id, WARP_PREFIX + FallbackTag(r), r.lbStrategy.value);
        assert w == RegionBalancers()(r)[1];
        BalancerIn(c, r, w);
      }
    } else {
      VlessRuleIn(c, published, r);
      if r.warp.Some? { WarpVlessRuleIn(c, published, r); }
    }
  }

  lemma ClosedNeedsLeads(c: Config, published: seq<PublishedPort>)
    requires Accepted(c) && Closed(c, published)
    ensures LeadsFound(c)
  {
    forall r | r in Rendered(c.regions) && LeadNamed(r) ensures LeadFound(c, r) {
      LeadIsPrimary(r);
      if LeadNode(r).backup {
        LeadNeeded(c, published, r);
        BackupIdDangles(c, r, LeadNode(r));
        BackupWarpDangles(c, r, LeadNode(r));
      }
    }
  }

  lemma SteeredRuleIn(c: Config, published: seq<PublishedPort>, h: HubRoute) returns (rule: Rule)
    requires FieldsValid(c) && h in c.hubRoutes && h.destination != BLOCKED && h.destination != DIRECT
    requires RouteTarget(Exits(c.regions), h.destination).Some?
    ensures rule in HubRules(c, published) && rule.target == RouteTarget(Exits(c.regions), h.destination).value
  {
    var t := RouteTarget(Exits(c.regions), h.destination).value;
    var emitted := RouteRules(c.namespace, h, t, true);
    assert |UserFilter(c.namespace, h)| == |h.users| + |h.proxyUsers|;
    assert emitted != [];
    rule := emitted[0];
    RouteRulesTarget(c.namespace, h, t, true, rule);
    assert rule in SteeredRules(c.namespace, Exits(c.regions))(h);
    FlatMapMember(SteeredRules(c.namespace, Exits(c.regions)), c.hubRoutes, rule);
    assert rule in MiddleRules(c);
  }

  lemma ClosedNeedsRoutes(c: Config, published: seq<PublishedPort>)
    requires Accepted(c) && FieldsValid(c) && Closed(c, published)
    ensures RoutesFound(c)
  {
    forall h, r, n | h in c.hubRoutes && ToNode(c, h) && r in Exits(c.regions) && n in r.nodes && n.id == h.destination
      ensures !n.backup || Spelled(c, n.id)
    {
      NodeIdKnown(Exits(c.regions), r, n);
      var rule := SteeredRuleIn(c, published, h);
      assert OutboundExists(c, n.id);
      if n.backup { BackupIdDangles(c, r, n); }
    }
  }

  /**
   * A hub's config is closed exactly when named leads are primary and no route names a backup node,
   * but for ids that happen to be spelled like another outbound's tag.
   */
  lemma ClosedIff(c: Config, node: string)
    requires Accepted(c) && FieldsValid(c)
    ensures Closed(c, NodePublishes(c.portals, node)) <==> LeadsFound(c) && RoutesFound(c)
  {
    var published := NodePublishes(c.portals, node);
    if LeadsFound(c) && RoutesFound(c) { FoundClose(c, node); }
    if Closed(c, published) {
      ClosedNeedsLeads(c, published);
      ClosedNeedsRoutes(c, published);
    }
  }

  lemma PlainUnspelled(c: Config, r: Region, n: Node)
    requires PlainNodeIds(c) && r in c.regions && n in r.nodes
    ensures !Spelled(c, n.id)
  {
    forall q, m | Dialled(c, q, m)
      ensures BACKUP_PREFIX <= BACKUP_PREFIX + m.id && WARP_PREFIX <= WARP_PREFIX + RolePrefix(m) + m.id
    {
      assert WARP_PREFIX + RolePrefix(m) + m.id == WARP_PREFIX + (RolePrefix(m) + m.id);
    }
  }

  /** With plain node ids nothing is spelled by chance: primaries and primary routes are all there is. */
  lemma PlainClosedIff(c: Config, node: string)
    requires Accepted(c) && FieldsValid(c) && PlainNodeIds(c)
    ensures Closed(c, NodePublishes(c.portals, node)) <==> LeadsPrimary(c) && RoutesAvoidBackups(c)
  {
    ClosedIff(c, node);
    forall r | r in Rendered(c.regions) ensures LeadFound(c, r) <==> HasPrimary(r) {
      LeadIsPrimary(r);
      PlainUnspelled(c, r, LeadNode(r));
    }
    forall r, n | r in Exits(c.regions) && n in r.nodes ensures !Spelled(c, n.id) { PlainUnspelled(c, r, n); }
  }
}
