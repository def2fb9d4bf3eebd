/** The portal's own config: what leaves its tunnel, and the dials that open it. */
module PortalSide {
  import opened Base
  import opened Names
  import opened Schema
  import opened Resolve
  import opened Acceptance
  import opened Rules
  import opened Routing
  import opened HubBuilder
  import opened Confinement
  import opened Identity
  import opened Inbounds
  import opened Shares

  // Tunnel rules ----------------------------------------------------------------------------

  const FULL := "full:"

  function FromTunnel(reverse: string, target: string): Rule { Bare(Outbound(target)).(inbound := Some(reverse)) }

  function TargetRule(reverse: string): Publish -> seq<Rule> {
    (e: Publish) =>
      var rule := FromTunnel(reverse, DIRECT).(port := Some(e.targetPort));
      match e.host
      case Ip(ip) => [rule.(ip := [ip])]
      case Name(name) => [rule.(domain := [FULL + name])]
  }

  function MatcherRules(portal: Portal, reverse: string): seq<Rule> {
    (if portal.domains != [] then [FromTunnel(reverse, DIRECT).(domain := portal.domains)] else [])
    + (if portal.ips != [] then [FromTunnel(reverse, DIRECT).(ip := portal.ips)] else [])
  }

  function PortalRules(portal: Portal, reverse: string): seq<Rule> {
    if !portal.strict then [FromTunnel(reverse, DIRECT)]
    else MatcherRules(portal, reverse) + FlatMap(TargetRule(reverse), portal.publish) + [FromTunnel(reverse, BLOCKED)]
  }

  method BuildPortalRules(portal: Portal, reverse: string) returns (rules: seq<Rule>)
    ensures rules == PortalRules(portal, reverse)
  {
    if !portal.strict { return [FromTunnel(reverse, DIRECT)]; }
    rules := [];
    if portal.domains != [] { rules := rules + [FromTunnel(reverse, DIRECT).(domain := portal.domains)]; }
    if portal.ips != [] { rules := rules + [FromTunnel(reverse, DIRECT).(ip := portal.ips)]; }
    for i := 0 to |portal.publish|
      invariant rules == MatcherRules(portal, reverse) + FlatMap(TargetRule(reverse), portal.publish[..i])
    {
      FlatMapGrow(MatcherRules(portal, reverse), TargetRule(reverse), portal.publish, i);
      rules := rules + TargetRule(reverse)(portal.publish[i]);
    }
    assert portal.publish[..|portal.publish|] == portal.publish;
    rules := rules + [FromTunnel(reverse, BLOCKED)];
  }

  /** The rule list with its final pin: nothing unmatched may fall to the first outbound, a hub dial. */
  function ConfigRules(portal: Portal): seq<Rule> {
    PortalRules(portal, PortalTag(portal.id)) + [Bare(Outbound(DIRECT))]
  }

  // What egresses ---------------------------------------------------------------------------

  predicate HitsTarget(e: Publish, p: Packet) {
    p.port == e.targetPort && match e.host case Ip(ip) => ip in p.ips case Name(name) => "full:" + name in p.domains
  }

  predicate Egresses(portal: Portal, p: Packet) {
    || Any(portal.domains, p.domains)
    || Any(portal.ips, p.ips)
    || exists e :: e in portal.publish && HitsTarget(e, p)
  }

  function TargetHit(reverse: string, p: Packet): Publish -> Option<Target> {
    (e: Publish) => if p.inbound == reverse && HitsTarget(e, p) then Some(Outbound(DIRECT)) else None
  }

  lemma TargetRuleMatch(reverse: string, e: Publish, p: Packet)
    ensures FirstMatch(TargetRule(reverse)(e), p) == TargetHit(reverse, p)(e)
  {
    var rule := TargetRule(reverse)(e)[0];
    assert TargetRule(reverse)(e) == [rule];
    FirstMatchOne(rule, p);
    match e.host {
      case Ip(ip) =>
        assert Any([ip], p.ips) <==> ip in p.ips by { assert ip in [ip]; }
      case Name(name) =>
        assert Any([FULL + name], p.domains) <==> FULL + name in p.domains by { assert FULL + name in [FULL + name]; }
    }
  }

  lemma MatcherRulesMatch(portal: Portal, reverse: string, p: Packet)
    ensures FirstMatch(MatcherRules(portal, reverse), p) ==
            if p.inbound == reverse && (Any(portal.domains, p.domains) || Any(portal.ips, p.ips)) then Some(Outbound(DIRECT)) else None
  {
    var d, i := FromTunnel(reverse, DIRECT).(domain := portal.domains), FromTunnel(reverse, DIRECT).(ip := portal.ips);
    FirstMatchOne(d, p);
    FirstMatchOne(i, p);
    FirstMatchConcat(if portal.domains != [] then [d] else [], if portal.ips != [] then [i] else [], p);
  }

  lemma TargetsMatch(portal: Portal, reverse: string, p: Packet)
    ensures FirstMatch(FlatMap(TargetRule(reverse), portal.publish), p) ==
            if p.inbound == reverse && exists e :: e in portal.publish && HitsTarget(e, p) then Some(Outbound(DIRECT)) else None
  {
    forall e: Publish ensures FirstMatch(TargetRule(reverse)(e), p) == TargetHit(reverse, p)(e) { TargetRuleMatch(reverse, e, p); }
    FirstMatchFlatMap(TargetRule(reverse), TargetHit(reverse, p), portal.publish, p);
    var hit := FirstSome(TargetHit(reverse, p), portal.publish);
    FirstSomeMeaning(TargetHit(reverse, p), portal.publish, Outbound(DIRECT));
    if hit.Some? { FirstSomeMeaning(TargetHit(reverse, p), portal.publish, hit.value); }
  }

  /** What a portal does with any connection: strict tunnels egress by declaration only. */
  lemma PortalDecides(portal: Portal, p: Packet)
    ensures FirstMatch(ConfigRules(portal), p) ==
            Some(Outbound(if portal.strict && p.inbound == PortalTag(portal.id) && !Egresses(portal, p) then BLOCKED else DIRECT))
  {
    var reverse := PortalTag(portal.id);
    FirstMatchOne(Bare(Outbound(DIRECT)), p);
    FirstMatchOne(FromTunnel(reverse, DIRECT), p);
    FirstMatchOne(FromTunnel(reverse, BLOCKED), p);
    FirstMatchConcat(PortalRules(portal, reverse), [Bare(Outbound(DIRECT))], p);
    if portal.strict {
      MatcherRulesMatch(portal, reverse, p);
      TargetsMatch(portal, reverse, p);
      var a, b := MatcherRules(portal, reverse), FlatMap(TargetRule(reverse), portal.publish);
      FirstMatchConcat(a, b, p);
      FirstMatchConcat(a + b, [FromTunnel(reverse, BLOCKED)], p);
    }
  }

  // End to end ------------------------------------------------------------------------------

  /** A connection leaving the tunnel carries the fixed target of the published port it came in on. */
  ghost predicate Forwarded(pub: PublishedPort, q: Packet) {
    && q.inbound == pub.reverseTag && q.port == pub.targetPort
    && match pub.host case Ip(ip) => ip in q.ips case Name(name) => FULL + name in q.domains
  }

  /**
   * A connection on a published port whose source is allowed goes through the hub to the portal's
   * tunnel, and the portal lets it out; one whose source is not allowed never enters the tunnel.
   */
  lemma PublishedEndToEnd(c: Config, node: string, portal: Portal, e: Publish, p: Packet, q: Packet)
    requires Accepted(c) && FieldsValid(c) && node in HubNodeIds(c)
    requires portal in c.portals && e in portal.publish && BindsOn(e, node)
    requires p.inbound == PublishTag(portal.id, e.port) && Forwarded(ResolveEntry(portal, e), q)
    ensures FirstMatch(HubRules(c, NodePublishes(c.portals, node)), p) == Some(Outbound(q.inbound)) <==>
            e.allow == [] || Any(e.allow, p.sources)
    ensures FirstMatch(ConfigRules(portal), q) == Some(Outbound(DIRECT))
  {
    PublishedPortConfined(c, node, portal, e, p);
    PortalTagIsNotBlocked(portal.id);
    PortalDecides(portal, q);
    assert HitsTarget(e, q);
  }

  lemma PortalTagIsNotBlocked(id: string)
    ensures PortalTag(id) != BLOCKED
  {
    var t := PortalTag(id);
    assert t[|t| - 1] == 'l' && BLOCKED[|BLOCKED| - 1] == 'd';
  }

  // Outbounds -------------------------------------------------------------------------------

  const DIAL_PREFIX := "portal-"

  datatype PortalOutbound = Dial(tag: string, url: Url, reverseTag: string, sniffing: bool) | Egress | Blackhole

  datatype PortalError = PortalMissing(id: string) | NoKeys(node: string) | Unbuildable(problem: Problem)

  function FindPortal(ps: seq<Portal>, id: string): (out: Option<Portal>)
    ensures out.Some? ==> out.value in ps && out.value.id == id
    ensures out.None? ==> forall p :: p in ps ==> p.id != id
  {
    if ps == [] then None else if ps[0].id == id then Some(ps[0]) else FindPortal(ps[1..], id)
  }

  /** Connection parameters a portal uses against a hub node's direct inbound. */
  function DialUrl(ns: Namespace, portal: Portal, n: Node, inbound: Direct, keys: NodeKeys): Url {
    match inbound
    case TlsInbound(_, host, path, _) =>
      VlessUrl(ns.PortalUuid(portal), n.hostname, "", n.hostname, path, host, "", keys.encryption, ClientFlow(keys))
    case RealityInbound(_, host, path, _, _, serverNames, _, _) =>
      VlessUrl(ns.PortalUuid(portal), n.hostname, ns.PortalShortId(portal.id), if serverNames == [] then "" else serverNames[0],
               path, host, keys.publicKey, keys.encryption, ClientFlow(keys))
  }

  function DialNode(c: Config, ns: Namespace, portal: Portal, keys: map<string, NodeKeys>, r: Region, n: Node): Result<PortalOutbound, PortalError>
    requires r.HubRegion?
  {
    if n.id !in keys then Err(NoKeys(n.id))
    else
      match HubDirect(c, ns, r, n, keys[n.id])
      case Err(problem) => Err(Unbuildable(problem))
      case Ok(inbound) =>
        Ok(Dial(DIAL_PREFIX + n.id, DialUrl(ns, portal, n, inbound, keys[n.id]), PortalTag(portal.id), !portal.strict))
  }

  function NodeDials(c: Config, ns: Namespace, portal: Portal, keys: map<string, NodeKeys>, r: Region): Node -> seq<PortalOutbound>
    requires r.HubRegion?
  {
    (n: Node) => match DialNode(c, ns, portal, keys, r, n) case Ok(dial) => [dial] case Err(_) => []
  }

  function RegionDials(c: Config, ns: Namespace, portal: Portal, keys: map<string, NodeKeys>): Region -> seq<PortalOutbound> {
    (r: Region) => if r.HubRegion? then FlatMap(NodeDials(c, ns, portal, keys, r), r.nodes) else []
  }

  ghost predicate AllDial(c: Config, ns: Namespace, portal: Portal, keys: map<string, NodeKeys>, r: Region, nodes: seq<Node>)
    requires r.HubRegion?
  {
    forall n :: n in nodes ==> DialNode(c, ns, portal, keys, r, n).Ok?
  }

  lemma DialTake(c: Config, ns: Namespace, portal: Portal, keys: map<string, NodeKeys>, r: Region, j: nat)
    requires r.HubRegion? && j < |r.nodes| && AllDial(c, ns, portal, keys, r, r.nodes[..j])
    ensures var d := DialNode(c, ns, portal, keys, r, r.nodes[j]);
            if d.Ok? then
              && AllDial(c, ns, portal, keys, r, r.nodes[..j + 1])
              && FlatMap(NodeDials(c, ns, portal, keys, r), r.nodes[..j + 1]) ==
                 FlatMap(NodeDials(c, ns, portal, keys, r), r.nodes[..j]) + [d.value]
            else !AllDial(c, ns, portal, keys, r, r.nodes)
  {
    assert r.nodes[..j + 1] == r.nodes[..j] + [r.nodes[j]] && r.nodes[j] in r.nodes;
    FlatMapTake(NodeDials(c, ns, portal, keys, r), r.nodes, j);
  }

  method DialRegion(c: Config, ns: Namespace, portal: Portal, keys: map<string, NodeKeys>, r: Region)
    returns (out: Result<seq<PortalOutbound>, PortalError>)
    requires r.HubRegion?
    ensures out.Ok? <==> AllDial(c, ns, portal, keys, r, r.nodes)
    ensures out.Ok? ==> out.value == FlatMap(NodeDials(c, ns, portal, keys, r), r.nodes)
  {
    var dials: seq<PortalOutbound> := [];
    for j := 0 to |r.nodes|
      invariant AllDial(c, ns, portal, keys, r, r.nodes[..j])
      invariant dials == FlatMap(NodeDials(c, ns, portal, keys, r), r.nodes[..j])
    {
      DialTake(c, ns, portal, keys, r, j);
      var dial := DialNode(c, ns, portal, keys, r, r.nodes[j]);
      if dial.Err? { return Err(dial.error); }
      dials := dials + [dial.value];
    }
    assert r.nodes[..|r.nodes|] == r.nodes;
    return Ok(dials);
  }

  function Tail(portal: Portal): seq<PortalOutbound> { if portal.strict then [Egress, Blackhole] else [Egress] }

  ghost predicate AllHubsDial(c: Config, ns: Namespace, portal: Portal, keys: map<string, NodeKeys>, hubs: seq<Region>) {
    forall r :: r in hubs && r.HubRegion? ==> AllDial(c, ns, portal, keys, r, r.nodes)
  }

  lemma HubTake(c: Config, ns: Namespace, portal: Portal, keys: map<string, NodeKeys>, hubs: seq<Region>, i: nat)
    requires i < |hubs| && hubs[i].HubRegion? && AllHubsDial(c, ns, portal, keys, hubs[..i])
    ensures if AllDial(c, ns, portal, keys, hubs[i], hubs[i].nodes) then AllHubsDial(c, ns, portal, keys, hubs[..i + 1])
            else !AllHubsDial(c, ns, portal, keys, hubs)
    ensures FlatMap(RegionDials(c, ns, portal, keys), hubs[..i + 1]) ==
            FlatMap(RegionDials(c, ns, portal, keys), hubs[..i]) + FlatMap(NodeDials(c, ns, portal, keys, hubs[i]), hubs[i].nodes)
  {
    assert hubs[..i + 1] == hubs[..i] + [hubs[i]] && hubs[i] in hubs;
    FlatMapTake(RegionDials(c, ns, portal, keys), hubs, i);
  }

  method DialHubs(c: Config, ns: Namespace, portal: Portal, keys: map<string, NodeKeys>)
    returns (out: Result<seq<PortalOutbound>, PortalError>)
    ensures out.Ok? <==> AllHubsDial(c, ns, portal, keys, Hubs(c.regions))
    ensures out.Ok? ==> out.value == FlatMap(RegionDials(c, ns, portal, keys), Hubs(c.regions))
  {
    var outbounds, hubs: seq<Region> := [], Hubs(c.regions);
    for i := 0 to |hubs|
      invariant AllHubsDial(c, ns, portal, keys, hubs[..i])
      invariant outbounds == FlatMap(RegionDials(c, ns, portal, keys), hubs[..i])
    {
      assert hubs[i] in hubs;
      HubTake(c, ns, portal, keys, hubs, i);
      var more := DialRegion(c, ns, portal, keys, hubs[i]);
      if more.Err? { return Err(more.error); }
      outbounds := outbounds + more.value;
    }
    assert hubs[..|hubs|] == hubs;
    return Ok(outbounds);
  }

  method BuildPortalConfig(c: Config, ns: Namespace, id: string, keys: map<string, NodeKeys>)
    returns (out: Result<(seq<PortalOutbound>, seq<Rule>), PortalError>)
    ensures out.Ok? <==> FindPortal(c.portals, id).Some? && AllHubsDial(c, ns, FindPortal(c.portals, id).value, keys, Hubs(c.regions))
    ensures out.Ok? ==> var portal := FindPortal(c.portals, id).value;
                        && out.value.0 == FlatMap(RegionDials(c, ns, portal, keys), Hubs(c.regions)) + Tail(portal)
                        && out.value.1 == ConfigRules(portal)
  {
    var found := FindPortal(c.portals, id);
    if found.None? { return Err(PortalMissing(id)); }
    var dials := DialHubs(c, ns, found.value, keys);
    if dials.Err? { return Err(dials.error); }
    var rules := BuildPortalRules(found.value, PortalTag(found.value.id));
    return Ok((dials.value + Tail(found.value), rules + [Bare(Outbound(DIRECT))]));
  }

  // Dials are admitted ----------------------------------------------------------------------

  lemma PortalListed(c: Config, ns: Namespace, flow: string, clients: seq<Client>, portal: Portal)
    requires portal in c.portals
    ensures ListsClient(clients + Clients(ns, flow, PortalClientIds(c.portals)), ns.PortalUuid(portal))
  {
    FlatMapMember(PortalId(), c.portals, OfPortal(portal));
    assert OfPortal(portal) in PortalId()(portal);
    ListedById(ns, flow, PortalClientIds(c.portals), OfPortal(portal));
    ListedInConcat(clients, Clients(ns, flow, PortalClientIds(c.portals)), ns.PortalUuid(portal));
  }

  lemma PortalSidListed(c: Config, ns: Namespace, portal: Portal)
    requires portal in c.portals
    ensures ns.PortalShortId(portal.id) in HubShortIds(c, ns)
  {
    var k :| 0 <= k < |c.portals| && c.portals[k] == portal;
    assert PortalSids(ns, c.portals)[k] == ns.PortalShortId(portal.id);
  }

  /** Every dial is admitted by the direct inbound of the hub node it names. */
  lemma DialAdmitted(c: Config, ns: Namespace, portal: Portal, keys: map<string, NodeKeys>, r: Region, n: Node)
    requires portal in c.portals && r.HubRegion? && n.id in keys && HubDirect(c, ns, r, n, keys[n.id]).Ok?
    ensures DialNode(c, ns, portal, keys, r, n).Ok?
    ensures Admits(DirectAt(HubDirect(c, ns, r, n, keys[n.id]).value, keys[n.id]), DialNode(c, ns, portal, keys, r, n).value.url)
  {
    var flow := Flow(keys[n.id]);
    PortalListed(c, ns, flow, Clients(ns, flow, FlatMap(AccessIds(Access.Tls, true), c.users)), portal);
    PortalListed(c, ns, flow, Clients(ns, flow, FlatMap(VlessIds(), c.users)), portal);
    PortalSidListed(c, ns, portal);
    var url := DialNode(c, ns, portal, keys, r, n).value.url;
    ClientsMeet(ns, keys[n.id], FlatMap(AccessIds(Access.Tls, true), c.users), url, keys[n.id]);
    ClientsMeet(ns, keys[n.id], FlatMap(VlessIds(), c.users), url, keys[n.id]);
    ClientsMeet(ns, keys[n.id], PortalClientIds(c.portals), url, keys[n.id]);
  }

  /** The portal's own short id, where the inbound is Reality. */
  function TunnelSid(c: Config, ns: Namespace, portal: Portal, r: Region): string
    requires r.HubRegion?
  {
    var tls := RegionTls(r, c.hubDefaults);
    if tls.Ok? && tls.value.Some? then "" else ns.h.shortId(portal.id + ".portal." + ns.name)
  }

  lemma DialOpens(c: Config, ns: Namespace, portal: Portal, keys: map<string, NodeKeys>, r: Region, n: Node)
    requires r.HubRegion? && n.id in keys && HubDirect(c, ns, r, n, keys[n.id]).Ok?
    ensures var d := DialNode(c, ns, portal, keys, r, n);
            && d.Ok? && d.value.Dial? && d.value.tag == DIAL_PREFIX + n.id
            && d.value.reverseTag == PortalTag(portal.id) && d.value.sniffing == !portal.strict
            && DialsDirect(c, r, n, keys[n.id], d.value.url) && d.value.url.uuid == ns.PortalUuid(portal)
            && d.value.url.shortId == TunnelSid(c, ns, portal, r)
  {
  }

  lemma DialSource(c: Config, ns: Namespace, portal: Portal, keys: map<string, NodeKeys>, ob: PortalOutbound)
    returns (r: Region, n: Node)
    requires ob in FlatMap(RegionDials(c, ns, portal, keys), Hubs(c.regions))
    ensures r in c.regions && r.HubRegion? && n in r.nodes && n.id in keys && HubDirect(c, ns, r, n, keys[n.id]).Ok?
    ensures DialNode(c, ns, portal, keys, r, n) == Ok(ob)
  {
    FlatMapMember(RegionDials(c, ns, portal, keys), Hubs(c.regions), ob);
    r :| r in Hubs(c.regions) && ob in RegionDials(c, ns, portal, keys)(r);
    FlatMapMember(NodeDials(c, ns, portal, keys, r), r.nodes, ob);
    n :| n in r.nodes && ob in NodeDials(c, ns, portal, keys, r)(n);
  }

  /** Each dial of a built config names a hub node, opens the portal's own tunnel and is admitted there. */
  lemma DialsAreAdmitted(c: Config, ns: Namespace, portal: Portal, keys: map<string, NodeKeys>, ob: PortalOutbound)
    returns (r: Region, n: Node)
    requires portal in c.portals && ob in FlatMap(RegionDials(c, ns, portal, keys), Hubs(c.regions))
    ensures r in c.regions && r.HubRegion? && n in r.nodes && n.id in keys && HubDirect(c, ns, r, n, keys[n.id]).Ok?
    ensures ob.Dial? && ob.tag == "portal-" + n.id && ob.reverseTag == PortalTag(portal.id) && ob.sniffing == !portal.strict
    ensures DialsDirect(c, r, n, keys[n.id], ob.url) && ob.url.uuid == ns.PortalUuid(portal)
    ensures ob.url.shortId == TunnelSid(c, ns, portal, r)
    ensures Admits(DirectAt(HubDirect(c, ns, r, n, keys[n.id]).value, keys[n.id]), ob.url)
  {
    r, n := DialSource(c, ns, portal, keys, ob);
    DialAdmitted(c, ns, portal, keys, r, n);
    DialOpens(c, ns, portal, keys, r, n);
  }

  /** No connection is ever routed into a hub dial, and every chosen outbound exists. */
  lemma NeverLoopsBack(c: Config, ns: Namespace, portal: Portal, keys: map<string, NodeKeys>, p: Packet, ob: PortalOutbound)
    requires portal in c.portals && ob.Dial? && ob in FlatMap(RegionDials(c, ns, portal, keys), Hubs(c.regions))
    ensures FirstMatch(ConfigRules(portal), p) != Some(Outbound(ob.tag))
    ensures FirstMatch(ConfigRules(portal), p) == Some(Outbound(DIRECT))
            || (FirstMatch(ConfigRules(portal), p) == Some(Outbound(BLOCKED)) && Blackhole in Tail(portal))
  {
    PortalDecides(portal, p);
    var r, n := DialsAreAdmitted(c, ns, portal, keys, ob);
    assert ob.tag[0] == 'p';
  }
}
