/** Who reaches a portal's reverse tunnel: exactly its published ports and its members' matches. */
module Reachability {
  import opened Base
  import opened Names
  import opened Schema
  import opened Acceptance
  import opened Rules
  import opened Routing
  import opened HubBuilder
  import opened Router
  import opened Confinement

  // The portal tag is nobody else's ---------------------------------------------------------

  lemma PortalTagFresh(c: Config, portal: Portal, r: Region, n: Node)
    requires Accepted(c) && portal in c.portals && r in c.regions && n in r.nodes
    ensures var t := PortalTag(portal.id);
            t != n.id && t != BACKUP_PREFIX + n.id && t != WARP_PREFIX + n.id && t != WARP_PREFIX + BACKUP_PREFIX + n.id
    ensures !IsSpecial(PortalTag(portal.id))
  {
    NodesOfContains(c.regions, r, n);
    assert !IsDerivedTag(c.regions, PortalTag(portal.id)) by { assert PortalOk(c, portal); }
  }

  lemma {:induction false} FirstPrimaryIn(ns: seq<Node>)
    ensures FirstPrimary(ns).None? <==> forall n :: n in ns ==> n.backup
    ensures FirstPrimary(ns).Some? ==> FirstPrimary(ns).value in ns && !FirstPrimary(ns).value.backup
  {
    if ns != [] { FirstPrimaryIn(ns[1..]); }
  }

  lemma LeadNodeIn(r: Region)
    requires r.nodes != []
    ensures LeadNode(r) in r.nodes
  {
    FirstPrimaryIn(r.nodes);
  }

  /** No region, node, special destination or default is routed to a portal's tag. */
  lemma OthersAvoidPortal(c: Config, portal: Portal, r: Region)
    requires Accepted(c) && portal in c.portals && r in c.regions && r.ExitRegion? && r.nodes != []
    ensures RegionTarget(r) != Outbound(PortalTag(portal.id))
    ensures RegionWarpTarget(r) != Outbound(PortalTag(portal.id))
  {
    LeadNodeIn(r);
    PortalTagFresh(c, portal, r, LeadNode(r));
  }

  lemma SpecialsAvoidPortal(c: Config, portal: Portal)
    requires Accepted(c) && portal in c.portals
    ensures !IsSpecial(PortalTag(portal.id))
  {
    assert !IsDerivedTag(c.regions, PortalTag(portal.id)) by { assert PortalOk(c, portal); }
  }

  lemma RoutesAvoidPortal(c: Config, portal: Portal, d: string)
    requires Accepted(c) && portal in c.portals
    ensures RouteTarget(Exits(c.regions), d) != Some(Outbound(PortalTag(portal.id)))
  {
    SpecialsAvoidPortal(c, portal);
    var exits := Exits(c.regions);
    if d != WARP {
      if d in RegionMap(exits) {
        RegionMapMeaning(exits, d);
        var r := RegionMap(exits)[d];
        if r.nodes != [] { OthersAvoidPortal(c, portal, r); }
      } else if d in NodeIds(NodesOf(exits)) {
        var r, n := NodeIdOwner(exits, d);
        PortalTagFresh(c, portal, r, n);
      }
    }
  }

  lemma DefaultAvoidsPortal(c: Config, portal: Portal)
    requires Accepted(c) && portal in c.portals
    ensures DefaultTarget(c) != Some(Outbound(PortalTag(portal.id)))
  {
    SpecialsAvoidPortal(c, portal);
    if !IsSpecial(c.hubDefault) {
      DefaultResolves(c);
      RegionMapMeaning(Exits(c.regions), c.hubDefault);
      OthersAvoidPortal(c, portal, RegionMap(Exits(c.regions))[c.hubDefault]);
    }
  }

  lemma FirstSomeFrom<A>(g: A -> Option<Target>, xs: seq<A>, t: Target)
    requires forall x :: x in xs ==> g(x) != Some(t)
    ensures FirstSome(g, xs) != Some(t)
  {
    FirstSomeMeaning(g, xs, t);
    forall i | 0 <= i < |xs| ensures g(xs[i]) != Some(t) { assert xs[i] in xs; }
  }

  lemma VlessAvoidsPortal(c: Config, portal: Portal, p: Packet)
    requires Accepted(c) && portal in c.portals
    ensures FirstSome(VlessHit(p), Rendered(c.regions)) != Some(Outbound(PortalTag(portal.id)))
    ensures FirstSome(WarpHit(p), Rendered(c.regions)) != Some(Outbound(PortalTag(portal.id)))
  {
    forall r | r in Rendered(c.regions)
      ensures VlessHit(p)(r) != Some(Outbound(PortalTag(portal.id)))
      ensures WarpHit(p)(r) != Some(Outbound(PortalTag(portal.id)))
    {
      OthersAvoidPortal(c, portal, r);
    }
    FirstSomeFrom(VlessHit(p), Rendered(c.regions), Outbound(PortalTag(portal.id)));
    FirstSomeFrom(WarpHit(p), Rendered(c.regions), Outbound(PortalTag(portal.id)));
  }

  lemma SteerAvoidsPortal(c: Config, portal: Portal, p: Packet)
    requires Accepted(c) && portal in c.portals
    ensures FirstSome(SteerHit(c, p), c.hubRoutes) != Some(Outbound(PortalTag(portal.id)))
  {
    forall h | h in c.hubRoutes ensures SteerHit(c, p)(h) != Some(Outbound(PortalTag(portal.id))) {
      RoutesAvoidPortal(c, portal, h.destination);
    }
    FirstSomeFrom(SteerHit(c, p), c.hubRoutes, Outbound(PortalTag(portal.id)));
  }

  // The three phases ------------------------------------------------------------------------

  /** The connection arrives on a port the portal publishes on this node, from an allowed source. */
  ghost predicate Published(node: string, portal: Portal, p: Packet) {
    exists e :: e in portal.publish && BindsOn(e, node) && p.inbound == PublishTag(portal.id, e.port)
                && (e.allow == [] || Any(e.allow, p.sources))
  }

  /** No question asked before the portals has an answer. */
  ghost predicate NothingEarlier(c: Config, published: seq<PublishedPort>, p: Packet) {
    && (forall pub :: pub in published ==> pub.tag != p.inbound)
    && !IsDns(c, p)
    && (forall r :: r in Rendered(c.regions) ==> VlessHit(p)(r).None? && WarpHit(p)(r).None?)
    && (forall h :: h in c.hubRoutes ==> !BlocksEarly(c.namespace, h, p))
  }

  /** The portal is the first whose member and matcher hit. */
  ghost predicate FirstPortal(c: Config, portal: Portal, p: Packet) {
    exists i :: 0 <= i < |c.portals| && c.portals[i] == portal
                && IsMember(c.namespace, portal, p) && PortalMatches(portal, p)
                && forall j :: 0 <= j < i ==> !(IsMember(c.namespace, c.portals[j], p) && PortalMatches(c.portals[j], p))
  }

  lemma ReachedIsPublished(c: Config, node: string, portal: Portal, pub: PublishedPort, p: Packet)
    requires PortalsOk(c) && portal in c.portals && pub in NodePublishes(c.portals, node)
    requires PublishHit(p)(pub) == Some(Outbound(PortalTag(portal.id))) && PortalTag(portal.id) != BLOCKED
    ensures Published(node, portal, p)
  {
    PublishesMember(c.portals, node, pub);
    var b, f :| b in c.portals && f in b.publish && BindsOn(f, node) && pub == ResolveEntry(b, f);
    PortalTagInjective(b.id, portal.id);
    SamePortal(c.portals, b, portal);
  }

  lemma PublishReach(c: Config, node: string, portal: Portal, p: Packet)
    requires Accepted(c) && portal in c.portals && node in HubNodeIds(c)
    ensures FirstSome(PublishHit(p), NodePublishes(c.portals, node)) == Some(Outbound(PortalTag(portal.id)))
            <==> Published(node, portal, p)
  {
    var pubs, t := NodePublishes(c.portals, node), Outbound(PortalTag(portal.id));
    SpecialsAvoidPortal(c, portal);
    if Published(node, portal, p) {
      var e :| e in portal.publish && BindsOn(e, node) && p.inbound == PublishTag(portal.id, e.port)
               && (e.allow == [] || Any(e.allow, p.sources));
      PublishAnswer(c, node, portal, e, p);
    }
    if FirstSome(PublishHit(p), pubs) == Some(t) {
      FirstSomeMeaning(PublishHit(p), pubs, t);
      var i :| 0 <= i < |pubs| && PublishHit(p)(pubs[i]) == Some(t);
      ReachedIsPublished(c, node, portal, pubs[i], p);
    }
  }

  lemma PortalAnswers(c: Config, portal: Portal, p: Packet, q: Portal)
    requires Accepted(c) && portal in c.portals && q in c.portals
    ensures PortalHit(c.namespace, p)(q) == Some(Outbound(PortalTag(portal.id)))
            <==> q == portal && IsMember(c.namespace, portal, p) && PortalMatches(portal, p)
  {
    PortalTagInjective(q.id, portal.id);
    if q.id == portal.id { SamePortal(c.portals, q, portal); }
  }

  lemma PortalGroupReach(c: Config, portal: Portal, p: Packet)
    requires Accepted(c) && portal in c.portals
    ensures FirstSome(PortalHit(c.namespace, p), c.portals) == Some(Outbound(PortalTag(portal.id)))
            <==> FirstPortal(c, portal, p)
  {
    var g, t := PortalHit(c.namespace, p), Outbound(PortalTag(portal.id));
    FirstSomeMeaning(g, c.portals, t);
    forall i | 0 <= i < |c.portals|
      ensures g(c.portals[i]) == Some(t) <==>
              c.portals[i] == portal && IsMember(c.namespace, portal, p) && PortalMatches(portal, p)
      ensures g(c.portals[i]).None? <==> !(IsMember(c.namespace, c.portals[i], p) && PortalMatches(c.portals[i], p))
    {
      PortalAnswers(c, portal, p, c.portals[i]);
    }
  }

  lemma EarlySilent(c: Config, published: seq<PublishedPort>, p: Packet)
    ensures NothingEarlier(c, published, p) <==>
            EarlyRoute(c, published, p).None? && !exists h :: h in c.hubRoutes && BlocksEarly(c.namespace, h, p)
  {
    FirstSomeMeaning(PublishHit(p), published, Outbound(""));
    FirstSomeMeaning(VlessHit(p), Rendered(c.regions), Outbound(""));
    FirstSomeMeaning(WarpHit(p), Rendered(c.regions), Outbound(""));
  }

  lemma LateAvoidsPortal(c: Config, portal: Portal, p: Packet)
    requires Accepted(c) && portal in c.portals
    ensures LateRoute(c, p) != Some(Outbound(PortalTag(portal.id)))
  {
    SpecialsAvoidPortal(c, portal);
    DefaultAvoidsPortal(c, portal);
  }

  /**
   * Traffic on a hub reaches a portal's reverse tag exactly when it is an allowed connection on a
   * port the portal publishes there, or nothing earlier answers and the portal is the first whose
   * member opened the connection and whose matcher hits.
   */
  lemma PortalReached(c: Config, node: string, portal: Portal, p: Packet)
    requires Accepted(c) && FieldsValid(c) && portal in c.portals && node in HubNodeIds(c)
    ensures FirstMatch(HubRules(c, NodePublishes(c.portals, node)), p) == Some(Outbound(PortalTag(portal.id))) <==>
            || Published(node, portal, p)
            || (NothingEarlier(c, NodePublishes(c.portals, node), p) && FirstPortal(c, portal, p))
  {
    var pubs, t := NodePublishes(c.portals, node), Outbound(PortalTag(portal.id));
    RulesImplementRouter(c, pubs, p);
    PublishReach(c, node, portal, p);
    VlessAvoidsPortal(c, portal, p);
    SpecialsAvoidPortal(c, portal);
    SteerAvoidsPortal(c, portal, p);
    PortalGroupReach(c, portal, p);
    EarlySilent(c, pubs, p);
    LateAvoidsPortal(c, portal, p);
  }

  // Balancers -------------------------------------------------------------------------------

  lemma {:induction false} FindNodeMeaning(ns: seq<Node>, id: string)
    ensures FindNode(ns, id).Some? <==> id in NodeIds(ns)
    ensures FindNode(ns, id).Some? ==> FindNode(ns, id).value in ns && FindNode(ns, id).value.id == id
  {
    if ns != [] {
      FindNodeMeaning(ns[1..], id);
      assert NodeIds(ns) == [ns[0].id] + NodeIds(ns[1..]);
    }
  }

  lemma LeadAvoidsPortal(c: Config, portal: Portal, r: Region)
    requires Accepted(c) && portal in c.portals && r in c.regions && r.nodes != []
    ensures LeadNode(r).id != PortalTag(portal.id) && WARP_PREFIX + LeadNode(r).id != PortalTag(portal.id)
  {
    LeadNodeIn(r);
    PortalTagFresh(c, portal, r, LeadNode(r));
  }

  lemma FallbackNode(c: Config, r: Region) returns (n: Node)
    requires Accepted(c) && r in c.regions && r.ExitRegion? && r.lbFallback.Some?
    ensures n in r.nodes && n.id == r.lbFallback.value && FindNode(r.nodes, r.lbFallback.value) == Some(n)
  {
    assert RegionOk(c, r);
    FindNodeMeaning(r.nodes, r.lbFallback.value);
    n := FindNode(r.nodes, r.lbFallback.value).value;
  }

  lemma FallbackAvoidsPortal(c: Config, portal: Portal, r: Region)
    requires Accepted(c) && portal in c.portals && r in c.regions && r.ExitRegion? && r.nodes != []
    ensures FallbackTag(r) != PortalTag(portal.id) && WARP_PREFIX + FallbackTag(r) != PortalTag(portal.id)
  {
    if r.lbFallback.None? {
      LeadAvoidsPortal(c, portal, r);
    } else {
      var n := FallbackNode(c, r);
      PortalTagFresh(c, portal, r, n);
      Regroup(WARP_PREFIX, BACKUP_PREFIX, n.id);
    }
  }

  lemma SelectorMisses(c: Config, portal: Portal, r: Region)
    requires Accepted(c) && portal in c.portals && r in c.regions && r.ExitRegion?
    ensures !(r.id <= PortalTag(portal.id)) && !(WARP_PREFIX + r.id <= PortalTag(portal.id))
  {
    assert PortalOk(c, portal);
  }

  lemma BalancerShape(r: Region, b: BalancerDef)
    requires b in RegionBalancers()(r)
    ensures r.ExitRegion? && r.nodes != [] && Balanced(r)
    ensures || b == BalancerDef(LB_PREFIX + r.id, r.id, FallbackTag(r), r.lbStrategy.value)
            || (r.warp.Some? && b == BalancerDef(LB_WARP_PREFIX + r.id, WARP_PREFIX + r.id, WARP_PREFIX + FallbackTag(r), r.lbStrategy.value))
  {
  }

  /** No balancer can pick a portal: its selector is no prefix of the tag and its fallback is not the tag. */
  lemma BalancersAvoidPortals(c: Config, portal: Portal, b: BalancerDef)
    requires Accepted(c) && portal in c.portals && b in FlatMap(RegionBalancers(), Rendered(c.regions))
    ensures !(b.selector <= PortalTag(portal.id)) && b.fallbackTag != PortalTag(portal.id)
  {
    FlatMapMember(RegionBalancers(), Rendered(c.regions), b);
    var r :| r in Rendered(c.regions) && b in RegionBalancers()(r);
    BalancerShape(r, b);
    SelectorMisses(c, portal, r);
    FallbackAvoidsPortal(c, portal, r);
  }
}
