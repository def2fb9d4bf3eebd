/** The loops that emit a hub's rule list, for configs the validator accepted. */
module HubBuilder {
  import opened Base
  import opened Names
  import opened Schema
  import opened Acceptance
  import opened Rules
  import opened Routing

  // What acceptance buys the builder --------------------------------------------------------

  lemma {:induction false} RegionMapMeaning(rs: seq<Region>, id: string)
    ensures id in RegionMap(rs) <==> exists r :: r in rs && r.id == id
    ensures id in RegionMap(rs) ==> RegionMap(rs)[id] in rs && RegionMap(rs)[id].id == id
  {
    if rs != [] {
      var front, last := rs[..|rs| - 1], rs[|rs| - 1];
      RegionMapMeaning(front, id);
      assert rs == front + [last];
      assert forall r :: r in rs <==> r in front || r == last;
    }
  }

  /** An id of a region hubs may dial stands for an exit region with nodes. */
  lemma DialableRegion(c: Config, id: string)
    requires IsRegion(c, id) && !IsHubRegion(c, id) && !IsEmptyRegion(c, id)
    ensures id in RegionMap(Exits(c.regions))
    ensures var r := RegionMap(Exits(c.regions))[id]; r in c.regions && r.id == id && r.ExitRegion? && r.nodes != []
  {
    RegionMapMeaning(Exits(c.regions), id);
    var r :| r in c.regions && r.id == id;
    assert r.ExitRegion? && r in Exits(c.regions);
  }

  lemma NodeOfExit(c: Config, id: string)
    requires IsNode(c, id) && id !in HubNodeIds(c)
    ensures id in NodeIds(NodesOf(Exits(c.regions)))
  {
    var r, n := NodeIdOwner(c.regions, id);
    if r.HubRegion? {
      NodeIdKnown(Hubs(c.regions), r, n);
      assert false;
    }
    NodeIdKnown(Exits(c.regions), r, n);
  }

  /** The builder's last `continue` is dead: every accepted destination resolves. */
  lemma RouteResolves(c: Config, h: HubRoute)
    requires Accepted(c) && h in c.hubRoutes && h.destination != BLOCKED && h.destination != DIRECT
    ensures RouteTarget(Exits(c.regions), h.destination).Some?
    ensures h.destination != WARP && h.destination in RegionMap(Exits(c.regions)) ==>
              var r := RegionMap(Exits(c.regions))[h.destination]; r.ExitRegion? && r.nodes != []
  {
    var d := h.destination;
    assert DestinationOk(c, d) by { assert HubRouteOk(c, h); }
    if d != WARP {
      if IsRegion(c, d) {
        DialableRegion(c, d);
      } else {
        NodeOfExit(c, d);
        RegionMapMeaning(Exits(c.regions), d);
      }
    }
  }

  lemma DefaultResolves(c: Config)
    requires Accepted(c)
    ensures DefaultTarget(c).Some?
    ensures !IsSpecial(c.hubDefault) ==>
              && c.hubDefault in RegionMap(Exits(c.regions))
              && var r := RegionMap(Exits(c.regions))[c.hubDefault]; r.ExitRegion? && r.nodes != []
  {
    if !IsSpecial(c.hubDefault) {
      DialableRegion(c, c.hubDefault);
    }
  }

  lemma ExitHasVless(c: Config, r: Region)
    requires Accepted(c) && r in c.regions && r.ExitRegion?
    ensures r.vlessRoute.Some?
  {
    assert RegionOk(c, r);
  }

  // The loops -------------------------------------------------------------------------------

  method BuildRegionMap(exits: seq<Region>) returns (m: map<string, Region>)
    ensures m == RegionMap(exits)
  {
    m := map[];
    for i := 0 to |exits|
      invariant m == RegionMap(exits[..i])
    {
      assert exits[..i + 1][..i] == exits[..i];
      m := m[exits[i].id := exits[i]];
    }
    assert exits[..|exits|] == exits;
  }

  method AppendVlessRules(exits: seq<Region>, rules: seq<Rule>) returns (out: seq<Rule>)
    requires forall r :: r in exits ==> r.ExitRegion? && r.nodes != [] && r.vlessRoute.Some?
    ensures out == rules + FlatMap(RegionVlessRules(), exits)
  {
    out := rules;
    for i := 0 to |exits|
      invariant out == rules + FlatMap(RegionVlessRules(), exits[..i])
    {
      FlatMapGrow(rules, RegionVlessRules(), exits, i);
      out := out + [VlessRule(exits[i].vlessRoute.value, RegionTarget(exits[i]))];
    }
    assert exits[..|exits|] == exits;
  }

  method AppendWarpRules(exits: seq<Region>, rules: seq<Rule>) returns (out: seq<Rule>)
    requires forall r :: r in exits ==> r.ExitRegion? && r.nodes != []
    ensures out == rules + FlatMap(WarpVlessRules(), exits)
  {
    out := rules;
    for i := 0 to |exits|
      invariant out == rules + FlatMap(WarpVlessRules(), exits[..i])
    {
      FlatMapGrow(rules, WarpVlessRules(), exits, i);
      if exits[i].warp.None? { continue; }
      out := out + [VlessRule(exits[i].warp.value, RegionWarpTarget(exits[i]))];
    }
    assert exits[..|exits|] == exits;
  }

  method AppendBlockedRules(c: Config, rules: seq<Rule>) returns (out: seq<Rule>)
    ensures out == rules + FlatMap(BlockedRules(c.namespace), c.hubRoutes)
  {
    out := rules;
    var hs := c.hubRoutes;
    for i := 0 to |hs|
      invariant out == rules + FlatMap(BlockedRules(c.namespace), hs[..i])
    {
      FlatMapGrow(rules, BlockedRules(c.namespace), hs, i);
      if hs[i].destination != BLOCKED { continue; }
      out := AppendRouteRules(out, c.namespace, hs[i], Outbound(BLOCKED), false);
    }
    assert hs[..|hs|] == hs;
  }

  method AppendPortalRules(c: Config, rules: seq<Rule>) returns (out: seq<Rule>)
    ensures out == rules + FlatMap(PortalRules(c.namespace), c.portals)
  {
    out := rules;
    var ps := c.portals;
    for i := 0 to |ps|
      invariant out == rules + FlatMap(PortalRules(c.namespace), ps[..i])
    {
      FlatMapGrow(rules, PortalRules(c.namespace), ps, i);
      var users := Emails(c.namespace, ps[i].users);
      var t := Outbound(PortalTag(ps[i].id));
      if ps[i].domains != [] { out := out + [DomainRule(ps[i].domains, users, t)]; }
      if ps[i].ips != [] { out := out + [IpRule(ps[i].ips, users, t)]; }
    }
    assert ps[..|ps|] == ps;
  }

  /** Every route the steering loop keeps has somewhere to go. */
  ghost predicate Routed(exits: seq<Region>, hs: seq<HubRoute>) {
    forall h :: h in hs && h.destination != BLOCKED && h.destination != DIRECT ==>
                  RouteTarget(exits, h.destination).Some?
  }

  method Steer(exits: seq<Region>, regionMap: map<string, Region>, nodeIds: seq<string>, dest: string)
    returns (target: Result<Option<Target>, RenderError>)
    requires forall r :: r in exits ==> r.ExitRegion?
    requires regionMap == RegionMap(exits) && nodeIds == NodeIds(NodesOf(exits))
    ensures RouteTarget(exits, dest).Some? ==> target == Ok(RouteTarget(exits, dest))
  {
    if dest == WARP { return Ok(Some(Outbound(WARP))); }
    if dest in regionMap {
      RegionMapMeaning(exits, dest);
      var t := TryRegionTarget(regionMap[dest]);
      if t.Err? { return Err(t.error); }
      return Ok(Some(t.value));
    }
    if dest in nodeIds { return Ok(Some(Outbound(dest))); }
    return Ok(None);
  }

  method AppendSteeredRules(ns: string, exits: seq<Region>, hs: seq<HubRoute>, rules: seq<Rule>)
    returns (out: Result<seq<Rule>, RenderError>)
    requires forall r :: r in exits ==> r.ExitRegion?
    requires Routed(exits, hs)
    ensures out == Ok(rules + FlatMap(SteeredRules(ns, exits), hs))
  {
    var regionMap := BuildRegionMap(exits);
    var nodeIds := NodeIds(NodesOf(exits));
    var acc := rules;
    for i := 0 to |hs|
      invariant acc == rules + FlatMap(SteeredRules(ns, exits), hs[..i])
    {
      var dest := hs[i].destination;
      FlatMapGrow(rules, SteeredRules(ns, exits), hs, i);
      if dest == BLOCKED || dest == DIRECT { continue; }
      var target := Steer(exits, regionMap, nodeIds, dest);
      assert hs[i] in hs;
      match target {
        case Err(e) => return Err(e);
        case Ok(None) => continue;
        case Ok(Some(t)) => acc := AppendRouteRules(acc, ns, hs[i], t, true);
      }
    }
    assert hs[..|hs|] == hs;
    return Ok(acc);
  }

  method AppendDirectRules(c: Config, rules: seq<Rule>) returns (out: seq<Rule>)
    ensures out == rules + FlatMap(DirectRules(c.namespace), c.hubRoutes)
  {
    out := rules;
    var hs := c.hubRoutes;
    for i := 0 to |hs|
      invariant out == rules + FlatMap(DirectRules(c.namespace), hs[..i])
    {
      FlatMapGrow(rules, DirectRules(c.namespace), hs, i);
      if hs[i].destination != DIRECT { continue; }
      out := AppendRouteRules(out, c.namespace, hs[i], Outbound(DIRECT), true);
    }
    assert hs[..|hs|] == hs;
  }

  method AppendBlockedIpRules(c: Config, rules: seq<Rule>) returns (out: seq<Rule>)
    ensures out == rules + FlatMap(BlockedIpRules(c.namespace), c.hubRoutes)
  {
    out := rules;
    var hs := c.hubRoutes;
    for i := 0 to |hs|
      invariant out == rules + FlatMap(BlockedIpRules(c.namespace), hs[..i])
    {
      FlatMapGrow(rules, BlockedIpRules(c.namespace), hs, i);
      if hs[i].destination != BLOCKED || hs[i].ips == [] { continue; }
      out := out + [IpRule(hs[i].ips, UserFilter(c.namespace, hs[i]), Outbound(BLOCKED))];
    }
    assert hs[..|hs|] == hs;
  }

  method DefaultRule(c: Config) returns (out: Result<Rule, RenderError>)
    requires Accepted(c)
    ensures DefaultTarget(c).Some? && out == Ok(Bare(DefaultTarget(c).value))
  {
    DefaultResolves(c);
    if IsSpecial(c.hubDefault) { return Ok(Bare(Outbound(c.hubDefault))); }
    var regionMap := BuildRegionMap(Exits(c.regions));
    if c.hubDefault !in regionMap { return Err(MissingRegion(c.hubDefault)); }
    match TryRegionTarget(regionMap[c.hubDefault]) {
      case Err(e) => return Err(e);
      case Ok(t) => return Ok(Bare(t));
    }
  }

  /** What the loops below need of an accepted config. */
  lemma AcceptedForLoops(c: Config)
    requires Accepted(c)
    ensures forall r :: r in Rendered(c.regions) ==> r.vlessRoute.Some?
    ensures Routed(Exits(c.regions), c.hubRoutes)
  {
    forall r | r in Rendered(c.regions) ensures r.vlessRoute.Some? { ExitHasVless(c, r); }
    forall h | h in c.hubRoutes && h.destination != BLOCKED && h.destination != DIRECT
      ensures RouteTarget(Exits(c.regions), h.destination).Some?
    {
      RouteResolves(c, h);
    }
  }

  lemma Assemble(early: seq<Rule>, a: seq<Rule>, b: seq<Rule>, c: seq<Rule>, d: seq<Rule>, e: seq<Rule>, f: seq<Rule>)
    ensures early + a + b + c + d + e + f == early + (a + b + c) + (d + e + f)
  {
  }

  /** Building is total on accepted configs and emits exactly `HubRules`. */
  method BuildHubRoutingRules(c: Config, published: seq<PublishedPort>) returns (out: Result<seq<Rule>, RenderError>)
    requires Accepted(c)
    ensures out == Ok(HubRules(c, published))
  {
    AcceptedForLoops(c);
    var rules := BuildPublishRules(published);
    rules := rules + [DnsRule(c)];
    rules := AppendVlessRules(Rendered(c.regions), rules);
    rules := AppendWarpRules(Rendered(c.regions), rules);
    out := AppendUserRules(c, rules);
  }

  /** Everything after the vlessRoute rules. */
  method AppendUserRules(c: Config, early: seq<Rule>) returns (out: Result<seq<Rule>, RenderError>)
    requires Accepted(c) && Routed(Exits(c.regions), c.hubRoutes)
    ensures out == Ok(early + MiddleRules(c) + LateRules(c))
  {
    var rules := AppendBlockedRules(c, early);
    rules := AppendPortalRules(c, rules);
    var steered := AppendSteeredRules(c.namespace, Exits(c.regions), c.hubRoutes, rules);
    if steered.Err? { return steered; }
    rules := AppendDirectRules(c, steered.value);
    rules := AppendBlockedIpRules(c, rules);
    Assemble(early, FlatMap(BlockedRules(c.namespace), c.hubRoutes), FlatMap(PortalRules(c.namespace), c.portals),
             FlatMap(SteeredRules(c.namespace, Exits(c.regions)), c.hubRoutes), FlatMap(DirectRules(c.namespace), c.hubRoutes),
             FlatMap(BlockedIpRules(c.namespace), c.hubRoutes),
             if DefaultTarget(c).Some? then [Bare(DefaultTarget(c).value)] else []);
    var last := DefaultRule(c);
    match last {
      case Err(e) => return Err(e);
      case Ok(rule) => return Ok(rules + [rule]);
    }
  }
}
