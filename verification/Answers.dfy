/**
 * Where a hub sends a packet, spelled out on the config's own fields and the tags as they appear in
 * the file: the emitted rules give exactly these answers.
 */
module Answers {
  import opened Base
  import opened Names
  import opened Schema
  import opened Acceptance
  import opened Rules
  import opened Routing
  import opened HubBuilder
  import opened Router
  import opened Reachability
  import Confinement

  // Where a region leads --------------------------------------------------------------------

  /** Node `i` is the region's first primary, or its first node when none is primary. */
  ghost predicate Leads(r: Region, i: nat) {
    && i < |r.nodes|
    && if forall n :: n in r.nodes ==> n.backup then i == 0
       else !r.nodes[i].backup && forall j :: 0 <= j < i ==> r.nodes[j].backup
  }

  ghost predicate TowardsRegion(r: Region, t: Target)
    requires r.ExitRegion?
  {
    if r.lbStrategy.Some? && |r.nodes| > 1 then t == Balancer("lb-" + r.id)
    else exists i: nat :: Leads(r, i) && t == Outbound(r.nodes[i].id)
  }

  ghost predicate TowardsWarp(r: Region, t: Target)
    requires r.ExitRegion?
  {
    if r.lbStrategy.Some? && |r.nodes| > 1 then t == Balancer("lb-warp-" + r.id)
    else exists i: nat :: Leads(r, i) && t == Outbound("warp-" + r.nodes[i].id)
  }

  /** Where `destination` names: `warp`, else a region, else a node. */
  ghost predicate Towards(c: Config, destination: string, t: Target) {
    if destination == "warp" then t == Outbound("warp")
    else if IsExit(c, destination) then exists r :: r in c.regions && r.ExitRegion? && r.id == destination && TowardsRegion(r, t)
    else t == Outbound(destination)
  }

  ghost predicate IsExit(c: Config, id: string) { exists r :: r in c.regions && r.ExitRegion? && r.id == id }

  // The questions ---------------------------------------------------------------------------

  /** The connection comes in on the port that entry `e` publishes on `node`. */
  ghost predicate ComesIn(c: Config, node: string, b: Portal, e: Publish, p: Packet) {
    b in c.portals && e in b.publish && (e.nodes == [] || node in e.nodes) && p.inbound == (b.id + "-publish" + "-") + Dec(e.port)
  }

  /** To the portal when the source is allowed. */
  ghost predicate PublishedWay(b: Portal, e: Publish, p: Packet, t: Target) {
    t == Outbound(if e.allow == [] || Any(e.allow, p.sources) then b.id + "-portal" else "blocked")
  }

  ghost predicate AsksResolver(c: Config, p: Packet) {
    p.port == c.dnsPort && ("127.0.0.1" in p.ips || "::1" in p.ips || c.dnsAddress in p.ips)
  }

  ghost predicate Keyed(r: Region, p: Packet) {
    r.ExitRegion? && r.nodes != [] && p.vlessRoute.Some? && r.vlessRoute == p.vlessRoute
  }

  ghost predicate KeyedWarp(r: Region, p: Packet) {
    r.ExitRegion? && r.nodes != [] && p.vlessRoute.Some? && r.warp == p.vlessRoute
  }

  ghost predicate FirstKeyed(c: Config, i: nat, p: Packet) {
    i < |c.regions| && Keyed(c.regions[i], p) && forall j :: 0 <= j < i ==> !Keyed(c.regions[j], p)
  }

  ghost predicate FirstKeyedWarp(c: Config, i: nat, p: Packet) {
    i < |c.regions| && KeyedWarp(c.regions[i], p) && forall j :: 0 <= j < i ==> !KeyedWarp(c.regions[j], p)
  }

  /** One of the users, by name in the config's namespace, opened the connection. */
  ghost predicate OpenedBy(c: Config, users: seq<string>, p: Packet) {
    exists u :: u in users && p.user == u + ['@'] + c.namespace
  }

  ghost predicate Concerns(c: Config, h: HubRoute, p: Packet) {
    (h.users == [] && h.proxyUsers == []) || OpenedBy(c, h.users, p) || p.user in h.proxyUsers
  }

  ghost predicate HasDomain(h: HubRoute, p: Packet) { Any(h.domains, p.domains) }
  ghost predicate HasIp(h: HubRoute, p: Packet) { Any(h.ips, p.ips) }
  ghost predicate OnlyUsers(h: HubRoute) { h.domains == [] && h.ips == [] && h.users + h.proxyUsers != [] }

  ghost predicate BlockedEarly(c: Config, p: Packet) {
    exists h :: h in c.hubRoutes && h.destination == "blocked" && Concerns(c, h, p) && (HasDomain(h, p) || OnlyUsers(h))
  }

  ghost predicate BlockedLate(c: Config, p: Packet) {
    exists h :: h in c.hubRoutes && h.destination == "blocked" && Concerns(c, h, p) && HasIp(h, p)
  }

  ghost predicate SentDirect(c: Config, p: Packet) {
    exists h :: h in c.hubRoutes && h.destination == "direct" && Concerns(c, h, p) && (HasDomain(h, p) || HasIp(h, p) || OnlyUsers(h))
  }

  ghost predicate PortalTakes(c: Config, b: Portal, p: Packet) {
    OpenedBy(c, b.users, p) && (Any(b.domains, p.domains) || Any(b.ips, p.ips))
  }

  ghost predicate FirstPortalAt(c: Config, i: nat, p: Packet) {
    i < |c.portals| && PortalTakes(c, c.portals[i], p) && forall j :: 0 <= j < i ==> !PortalTakes(c, c.portals[j], p)
  }

  /** The route leads to a region, a node or warp, and takes the packet. */
  ghost predicate Steers(c: Config, h: HubRoute, p: Packet) {
    && h.destination != "blocked" && h.destination != "direct"
    && Concerns(c, h, p) && (HasDomain(h, p) || HasIp(h, p) || OnlyUsers(h))
  }

  ghost predicate FirstSteering(c: Config, i: nat, p: Packet) {
    i < |c.hubRoutes| && Steers(c, c.hubRoutes[i], p) && forall j :: 0 <= j < i ==> !Steers(c, c.hubRoutes[j], p)
  }

  // The answer ------------------------------------------------------------------------------

  /** Published ports, the resolver and vlessRoute values come before everything else. */
  ghost predicate EarlyAnswer(c: Config, node: string, p: Packet, t: Target) {
    if exists b, e :: ComesIn(c, node, b, e, p) then
      exists b, e :: ComesIn(c, node, b, e, p) && PublishedWay(b, e, p, t)
    else if AsksResolver(c, p) then t == Outbound("direct")
    else KeyedAnswer(c, p, t)
  }

  ghost predicate SomethingKeyed(c: Config, p: Packet) {
    (exists i: nat :: FirstKeyed(c, i, p)) || (exists i: nat :: FirstKeyedWarp(c, i, p))
  }

  ghost predicate KeyedAnswer(c: Config, p: Packet, t: Target) {
    if exists i: nat :: FirstKeyed(c, i, p) then exists i: nat :: FirstKeyed(c, i, p) && TowardsRegion(c.regions[i], t)
    else exists i: nat :: FirstKeyedWarp(c, i, p) && TowardsWarp(c.regions[i], t)
  }

  ghost predicate SomethingEarly(c: Config, node: string, p: Packet) {
    (exists b, e :: ComesIn(c, node, b, e, p)) || AsksResolver(c, p) || SomethingKeyed(c, p)
  }

  /** Then blocks by domain or user, portals, and routes to regions, nodes and warp. */
  ghost predicate MiddleAnswer(c: Config, p: Packet, t: Target) {
    if BlockedEarly(c, p) then t == Outbound("blocked")
    else if exists i: nat :: FirstPortalAt(c, i, p) then exists i: nat :: FirstPortalAt(c, i, p) && t == Outbound(c.portals[i].id + "-portal")
    else exists i: nat :: FirstSteering(c, i, p) && Towards(c, c.hubRoutes[i].destination, t)
  }

  ghost predicate SomethingMiddle(c: Config, p: Packet) {
    BlockedEarly(c, p) || (exists i: nat :: FirstPortalAt(c, i, p)) || (exists i: nat :: FirstSteering(c, i, p))
  }

  /** Last direct routes, blocks by ip, and the default. */
  ghost predicate LateAnswer(c: Config, p: Packet, t: Target) {
    if SentDirect(c, p) then t == Outbound("direct")
    else if BlockedLate(c, p) then t == Outbound("blocked")
    else if c.hubDefault in ["direct", "blocked", "warp"] then t == Outbound(c.hubDefault)
    else Towards(c, c.hubDefault, t)
  }

  ghost predicate Answer(c: Config, node: string, p: Packet, t: Target) {
    if SomethingEarly(c, node, p) then EarlyAnswer(c, node, p, t)
    else if SomethingMiddle(c, p) then MiddleAnswer(c, p, t)
    else LateAnswer(c, p, t)
  }

  // Regions ---------------------------------------------------------------------------------

  lemma {:induction false} FirstPrimaryAt(ns: seq<Node>, i: nat)
    requires i < |ns| && !ns[i].backup && forall j :: 0 <= j < i ==> ns[j].backup
    ensures FirstPrimary(ns) == Some(ns[i])
  {
    if i > 0 { FirstPrimaryAt(ns[1..], i - 1); }
  }

  lemma {:induction false} PrimaryIndex(ns: seq<Node>) returns (i: nat)
    requires exists n :: n in ns && !n.backup
    ensures i < |ns| && !ns[i].backup && forall j :: 0 <= j < i ==> ns[j].backup
  {
    if !ns[0].backup { return 0; }
    assert ns == [ns[0]] + ns[1..];
    i := PrimaryIndex(ns[1..]);
    i := i + 1;
  }

  lemma LeadAt(r: Region, i: nat)
    requires Leads(r, i)
    ensures r.nodes != [] && LeadNode(r) == r.nodes[i]
  {
    FirstPrimaryIn(r.nodes);
    if exists n :: n in r.nodes && !n.backup { FirstPrimaryAt(r.nodes, i); }
  }

  lemma LeadIndex(r: Region) returns (i: nat)
    requires r.nodes != []
    ensures Leads(r, i)
  {
    i := 0;
    if exists n :: n in r.nodes && !n.backup { i := PrimaryIndex(r.nodes); }
  }

  lemma RegionWay(r: Region, t: Target)
    requires r.ExitRegion? && r.nodes != []
    ensures TowardsRegion(r, t) <==> t == RegionTarget(r)
    ensures TowardsWarp(r, t) <==> t == RegionWarpTarget(r)
  {
    var k := LeadIndex(r);
    LeadAt(r, k);
    forall i: nat | Leads(r, i) ensures r.nodes[i] == LeadNode(r) { LeadAt(r, i); }
  }

  // Early -----------------------------------------------------------------------------------

  lemma SameTags(id: string, port: nat)
    ensures PublishTag(id, port) == (id + "-publish" + "-") + Dec(port) && PortalTag(id) == id + "-portal"
  {
  }

  lemma PublishedFirst(c: Config, node: string, b: Portal, e: Publish, p: Packet)
    requires Accepted(c) && node in HubNodeIds(c) && ComesIn(c, node, b, e, p)
    ensures FirstSome(PublishHit(p), NodePublishes(c.portals, node)) ==
            Some(Outbound(if e.allow == [] || Any(e.allow, p.sources) then b.id + "-portal" else "blocked"))
  {
    SameTags(b.id, e.port);
    Confinement.PublishAnswer(c, node, b, e, p);
  }

  lemma PublishAnswers(c: Config, node: string, p: Packet, t: Target)
    requires Accepted(c) && node in HubNodeIds(c)
    ensures FirstSome(PublishHit(p), NodePublishes(c.portals, node)).Some? <==> exists b, e :: ComesIn(c, node, b, e, p)
    ensures FirstSome(PublishHit(p), NodePublishes(c.portals, node)) == Some(t) <==>
            exists b, e :: ComesIn(c, node, b, e, p) && PublishedWay(b, e, p, t)
  {
    if b, e :| ComesIn(c, node, b, e, p) {
      PublishedFirst(c, node, b, e, p);
      forall d, f | ComesIn(c, node, d, f, p) && PublishedWay(d, f, p, t)
        ensures FirstSome(PublishHit(p), NodePublishes(c.portals, node)) == Some(t)
      {
        PublishedFirst(c, node, d, f, p);
      }
    } else {
      NothingComesIn(c, node, p);
    }
  }

  lemma NothingComesIn(c: Config, node: string, p: Packet)
    requires forall b, e :: !ComesIn(c, node, b, e, p)
    ensures FirstSome(PublishHit(p), NodePublishes(c.portals, node)).None?
  {
    var pubs := NodePublishes(c.portals, node);
    forall pub | pub in pubs ensures PublishHit(p)(pub).None? {
      Confinement.PublishesMember(c.portals, node, pub);
      var b, e :| b in c.portals && e in b.publish && BindsOn(e, node) && pub == ResolveEntry(b, e);
      SameTags(b.id, e.port);
      assert !ComesIn(c, node, b, e, p);
    }
    FirstSomeMeaning(PublishHit(p), pubs, Outbound(""));
  }

  lemma {:induction false} RenderedOnly(g: Region -> Option<Target>, rs: seq<Region>)
    requires forall r: Region :: !(r.ExitRegion? && r.nodes != []) ==> g(r).None?
    ensures FirstSome(g, Rendered(rs)) == FirstSome(g, rs)
  {
    if rs != [] { RenderedOnly(g, rs[..|rs| - 1]); }
  }

  /** The first element that answers. */
  ghost predicate AnswersFirst<A>(g: A -> Option<Target>, xs: seq<A>, i: nat) {
    i < |xs| && g(xs[i]).Some? && forall j :: 0 <= j < i ==> g(xs[j]).None?
  }

  lemma FirstAnswer<A>(g: A -> Option<Target>, xs: seq<A>, t: Target)
    ensures FirstSome(g, xs).Some? <==> exists i: nat :: AnswersFirst(g, xs, i)
    ensures FirstSome(g, xs) == Some(t) <==> exists i: nat :: AnswersFirst(g, xs, i) && g(xs[i]) == Some(t)
  {
    FirstSomeMeaning(g, xs, t);
    if FirstSome(g, xs).Some? {
      FirstSomeMeaning(g, xs, FirstSome(g, xs).value);
      var k: nat :| k < |xs| && g(xs[k]) == FirstSome(g, xs) && forall j :: 0 <= j < k ==> g(xs[j]).None?;
      assert AnswersFirst(g, xs, k);
    }
  }

  lemma KeyedAnswers(p: Packet, r: Region, t: Target)
    ensures VlessHit(p)(r).Some? <==> Keyed(r, p)
    ensures WarpHit(p)(r).Some? <==> KeyedWarp(r, p)
    ensures VlessHit(p)(r) == Some(t) <==> Keyed(r, p) && TowardsRegion(r, t)
    ensures WarpHit(p)(r) == Some(t) <==> KeyedWarp(r, p) && TowardsWarp(r, t)
  {
    if r.ExitRegion? && r.nodes != [] { RegionWay(r, t); }
  }

  lemma KeyedFirst(c: Config, p: Packet, i: nat, t: Target)
    ensures FirstKeyed(c, i, p) <==> AnswersFirst(VlessHit(p), c.regions, i)
    ensures FirstKeyedWarp(c, i, p) <==> AnswersFirst(WarpHit(p), c.regions, i)
    ensures FirstKeyed(c, i, p) ==> (VlessHit(p)(c.regions[i]) == Some(t) <==> TowardsRegion(c.regions[i], t))
    ensures FirstKeyedWarp(c, i, p) ==> (WarpHit(p)(c.regions[i]) == Some(t) <==> TowardsWarp(c.regions[i], t))
  {
    forall j | 0 <= j < |c.regions|
      ensures VlessHit(p)(c.regions[j]).Some? <==> Keyed(c.regions[j], p)
      ensures WarpHit(p)(c.regions[j]).Some? <==> KeyedWarp(c.regions[j], p)
    {
      KeyedAnswers(p, c.regions[j], t);
    }
    if i < |c.regions| { KeyedAnswers(p, c.regions[i], t); }
  }

  lemma VlessFirst(c: Config, p: Packet, t: Target)
    ensures FirstSome(VlessHit(p), Rendered(c.regions)).Some? <==> exists i: nat :: FirstKeyed(c, i, p)
    ensures FirstSome(VlessHit(p), Rendered(c.regions)) == Some(t) <==>
            exists i: nat :: FirstKeyed(c, i, p) && TowardsRegion(c.regions[i], t)
  {
    RenderedOnly(VlessHit(p), c.regions);
    FirstAnswer(VlessHit(p), c.regions, t);
    forall i: nat
      ensures FirstKeyed(c, i, p) <==> AnswersFirst(VlessHit(p), c.regions, i)
      ensures FirstKeyed(c, i, p) ==> (VlessHit(p)(c.regions[i]) == Some(t) <==> TowardsRegion(c.regions[i], t))
    {
      KeyedFirst(c, p, i, t);
    }
  }

  lemma WarpFirst(c: Config, p: Packet, t: Target)
    ensures FirstSome(WarpHit(p), Rendered(c.regions)).Some? <==> exists i: nat :: FirstKeyedWarp(c, i, p)
    ensures FirstSome(WarpHit(p), Rendered(c.regions)) == Some(t) <==>
            exists i: nat :: FirstKeyedWarp(c, i, p) && TowardsWarp(c.regions[i], t)
  {
    RenderedOnly(WarpHit(p), c.regions);
    FirstAnswer(WarpHit(p), c.regions, t);
    forall i: nat
      ensures FirstKeyedWarp(c, i, p) <==> AnswersFirst(WarpHit(p), c.regions, i)
      ensures FirstKeyedWarp(c, i, p) ==> (WarpHit(p)(c.regions[i]) == Some(t) <==> TowardsWarp(c.regions[i], t))
    {
      KeyedFirst(c, p, i, t);
    }
  }

  lemma EarlyAnswers(c: Config, node: string, p: Packet, t: Target)
    requires Accepted(c) && node in HubNodeIds(c)
    ensures EarlyRoute(c, NodePublishes(c.portals, node), p).Some? <==> SomethingEarly(c, node, p)
    ensures EarlyRoute(c, NodePublishes(c.portals, node), p) == Some(t) <==> SomethingEarly(c, node, p) && EarlyAnswer(c, node, p, t)
  {
    PublishAnswers(c, node, p, t);
    KeyedAnswersAre(c, p, t);
  }

  lemma KeyedAnswersAre(c: Config, p: Packet, t: Target)
    ensures var g := Or(FirstSome(VlessHit(p), Rendered(c.regions)), FirstSome(WarpHit(p), Rendered(c.regions)));
            (g.Some? <==> SomethingKeyed(c, p)) && (g == Some(t) <==> SomethingKeyed(c, p) && KeyedAnswer(c, p, t))
  {
    VlessFirst(c, p, t);
    WarpFirst(c, p, t);
  }

  // Middle ----------------------------------------------------------------------------------

  lemma SameQuestions(c: Config, h: HubRoute, p: Packet)
    ensures ForUser(c.namespace, h, p) <==> Concerns(c, h, p)
    ensures DomainHit(h, p) <==> HasDomain(h, p)
    ensures IpHit(h, p) <==> HasIp(h, p)
    ensures UserOnly(h) <==> OnlyUsers(h)
  {
  }

  lemma SamePortalQuestion(c: Config, b: Portal, p: Packet)
    ensures IsMember(c.namespace, b, p) && PortalMatches(b, p) <==> PortalTakes(c, b, p)
  {
  }

  lemma BlockedEarlyIs(c: Config, p: Packet)
    ensures BlockedEarly(c, p) <==> exists h :: h in c.hubRoutes && BlocksEarly(c.namespace, h, p)
    ensures BlockedLate(c, p) <==> exists h :: h in c.hubRoutes && BlocksIp(c.namespace, h, p)
    ensures SentDirect(c, p) <==> exists h :: h in c.hubRoutes && h.destination == DIRECT && RouteHit(c.namespace, h, p)
  {
    forall h: HubRoute
      ensures ForUser(c.namespace, h, p) <==> Concerns(c, h, p)
      ensures DomainHit(h, p) <==> HasDomain(h, p)
      ensures IpHit(h, p) <==> HasIp(h, p)
      ensures UserOnly(h) <==> OnlyUsers(h)
    {
      SameQuestions(c, h, p);
    }
  }

  lemma PortalFirst(c: Config, p: Packet, t: Target)
    ensures FirstSome(PortalHit(c.namespace, p), c.portals).Some? <==> exists i: nat :: FirstPortalAt(c, i, p)
    ensures FirstSome(PortalHit(c.namespace, p), c.portals) == Some(t) <==>
            exists i: nat :: FirstPortalAt(c, i, p) && t == Outbound(c.portals[i].id + "-portal")
  {
    var g := PortalHit(c.namespace, p);
    FirstAnswer(g, c.portals, t);
    forall b: Portal ensures g(b) == if PortalTakes(c, b, p) then Some(Outbound(b.id + "-portal")) else None {
      SamePortalQuestion(c, b, p);
      SameTags(b.id, 0);
    }
    forall i: nat ensures FirstPortalAt(c, i, p) <==> AnswersFirst(g, c.portals, i) {}
  }

  /** Where an accepted destination other than `blocked` and `direct` leads. */
  lemma RouteWay(c: Config, d: string, t: Target)
    requires RouteTarget(Exits(c.regions), d).Some? && NoDup(RegionIds(c.regions))
    requires d != WARP && d in RegionMap(Exits(c.regions)) ==> var r := RegionMap(Exits(c.regions))[d]; r.ExitRegion? && r.nodes != []
    ensures RouteTarget(Exits(c.regions), d) == Some(t) <==> Towards(c, d, t)
  {
    var exits := Exits(c.regions);
    RegionMapMeaning(exits, d);
    if d != WARP && IsExit(c, d) {
      var q :| q in c.regions && q.ExitRegion? && q.id == d;
      assert q in exits;
      var r := RegionMap(exits)[d];
      RegionWay(r, t);
      forall s | s in c.regions && s.ExitRegion? && s.id == d ensures s == r { SameRegion(c.regions, s, r); }
    }
  }

  lemma SteerAnswers(c: Config, h: HubRoute, p: Packet, t: Target)
    requires Accepted(c) && h in c.hubRoutes
    ensures SteerHit(c, p)(h).Some? <==> Steers(c, h, p)
    ensures SteerHit(c, p)(h) == Some(t) <==> Steers(c, h, p) && Towards(c, h.destination, t)
  {
    SameQuestions(c, h, p);
    if h.destination != BLOCKED && h.destination != DIRECT {
      RouteResolves(c, h);
      RouteWay(c, h.destination, t);
    }
  }

  lemma SteeringFirst(c: Config, p: Packet, t: Target)
    requires Accepted(c)
    ensures FirstSome(SteerHit(c, p), c.hubRoutes).Some? <==> exists i: nat :: FirstSteering(c, i, p)
    ensures FirstSome(SteerHit(c, p), c.hubRoutes) == Some(t) <==>
            exists i: nat :: FirstSteering(c, i, p) && Towards(c, c.hubRoutes[i].destination, t)
  {
    var g := SteerHit(c, p);
    FirstAnswer(g, c.hubRoutes, t);
    forall j | 0 <= j < |c.hubRoutes|
      ensures g(c.hubRoutes[j]).Some? <==> Steers(c, c.hubRoutes[j], p)
      ensures g(c.hubRoutes[j]) == Some(t) <==> Steers(c, c.hubRoutes[j], p) && Towards(c, c.hubRoutes[j].destination, t)
    {
      SteerAnswers(c, c.hubRoutes[j], p, t);
    }
    forall i: nat ensures FirstSteering(c, i, p) <==> AnswersFirst(g, c.hubRoutes, i) {}
  }

  lemma MiddleAnswers(c: Config, p: Packet, t: Target)
    requires Accepted(c)
    ensures MiddleRoute(c, p).Some? <==> SomethingMiddle(c, p)
    ensures MiddleRoute(c, p) == Some(t) <==> SomethingMiddle(c, p) && MiddleAnswer(c, p, t)
  {
    BlockedEarlyIs(c, p);
    PortalFirst(c, p, t);
    SteeringFirst(c, p, t);
  }

  // Late ------------------------------------------------------------------------------------

  lemma DefaultWay(c: Config, t: Target)
    requires Accepted(c)
    ensures DefaultTarget(c) == Some(t) <==>
            if c.hubDefault in ["direct", "blocked", "warp"] then t == Outbound(c.hubDefault) else Towards(c, c.hubDefault, t)
  {
    DefaultResolves(c);
    var d := c.hubDefault;
    if !IsSpecial(d) {
      assert d != "warp";
      RouteWay(c, d, t);
    }
  }

  lemma LateAnswers(c: Config, p: Packet, t: Target)
    requires Accepted(c)
    ensures LateRoute(c, p) == Some(t) <==> LateAnswer(c, p, t)
  {
    BlockedEarlyIs(c, p);
    DefaultWay(c, t);
  }

  /** On every hub node of an accepted config the emitted rules send every packet exactly where the config's own words say. */
  lemma RulesAnswer(c: Config, node: string, p: Packet, t: Target)
    requires Accepted(c) && FieldsValid(c) && node in HubNodeIds(c)
    ensures FirstMatch(HubRules(c, NodePublishes(c.portals, node)), p) == Some(t) <==> Answer(c, node, p, t)
  {
    RulesImplementRouter(c, NodePublishes(c.portals, node), p);
    EarlyAnswers(c, node, p, t);
    MiddleAnswers(c, p, t);
    LateAnswers(c, p, t);
  }

  // Balancers -------------------------------------------------------------------------------

  /** The tag a balanced region falls back to: of the node it names, else of the node it leads with. */
  ghost predicate FallsBackTo(r: Region, f: string)
    requires r.ExitRegion?
  {
    if r.lbFallback.None? then exists i: nat :: Leads(r, i) && f == r.nodes[i].id
    else exists n :: n in r.nodes && n.id == r.lbFallback.value && f == if n.backup then "backup-" + n.id else n.id
  }

  /** Over its nodes, for traffic to the region and for traffic to its warp variant. */
  ghost predicate BalancesOver(r: Region, b: BalancerDef)
    requires r.ExitRegion? && r.lbStrategy.Some?
  {
    exists f :: FallsBackTo(r, f)
                && (b == BalancerDef("lb-" + r.id, r.id, f, r.lbStrategy.value)
                    || (r.warp.Some? && b == BalancerDef("lb-warp-" + r.id, "warp-" + r.id, "warp-" + f, r.lbStrategy.value)))
  }

  lemma FallbackIs(c: Config, r: Region, f: string)
    requires Accepted(c) && r in c.regions && r.ExitRegion? && r.nodes != []
    ensures FallsBackTo(r, f) <==> f == FallbackTag(r)
  {
    if r.lbFallback.None? {
      var k := LeadIndex(r);
      LeadAt(r, k);
      forall i: nat | Leads(r, i) ensures r.nodes[i] == LeadNode(r) { LeadAt(r, i); }
    } else {
      var n := FallbackNode(c, r);
      forall m | m in r.nodes && m.id == n.id ensures m == n { SameOwner(c.regions, r, m, r, n); }
    }
  }

  /** The balancers of an accepted config are exactly these. */
  lemma BalancersAre(c: Config, b: BalancerDef)
    requires Accepted(c)
    ensures b in FlatMap(RegionBalancers(), Rendered(c.regions)) <==>
            exists r :: r in c.regions && r.ExitRegion? && r.lbStrategy.Some? && |r.nodes| > 1 && BalancesOver(r, b)
  {
    FlatMapMember(RegionBalancers(), Rendered(c.regions), b);
    forall r | r in c.regions && r.ExitRegion? && r.lbStrategy.Some? && |r.nodes| > 1
      ensures b in RegionBalancers()(r) <==> BalancesOver(r, b)
    {
      RegionBalancersAre(c, r, b);
    }
  }

  lemma RegionBalancersAre(c: Config, r: Region, b: BalancerDef)
    requires Accepted(c) && r in c.regions && r.ExitRegion? && r.lbStrategy.Some? && |r.nodes| > 1
    ensures b in RegionBalancers()(r) <==> BalancesOver(r, b)
  {
    FallbackIs(c, r, FallbackTag(r));
    forall f | FallsBackTo(r, f) ensures f == FallbackTag(r) { FallbackIs(c, r, f); }
  }
}
