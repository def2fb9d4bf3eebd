/** What the root validator accepts, stated condition by condition over the whole config. */
module Acceptance {
  import opened Base
  import opened Names
  import opened Schema
  import opened Resolve

  datatype Socket = Socket(port: nat, transport: Transport)

  const RoutableAccess: set<Access> := {Xhttp, Tls, Cdn, Xdns, Wireguard, Hysteria}

  // Regions and nodes -----------------------------------------------------------------------

  ghost predicate HysteriaOk(h: HysteriaConfig) {
    && (h.congestion == Brutal ==> h.up.Some? && h.down.Some?)
    && (h.certificate.Some? ==> h.sni.Some?)
  }

  ghost predicate NodeOk(c: Config, r: Region, n: Node) {
    && (c.cdn.Some? && r.cdnPath.Some? ==> NodeHaproxy(n, r, c))
    && (NodeHysteria(n, r, c).Some? ==> HysteriaOk(NodeHysteria(n, r, c).value))
  }

  ghost predicate EnabledUnset(h: Option<HysteriaOverride>) { h.Some? ==> h.value.enabled.None? }

  ghost predicate ExitNodeOk(n: Node) { n.reality.Some? && EnabledUnset(n.hysteria) }

  ghost predicate ExitOk(r: Region)
    requires r.ExitRegion?
  {
    && (forall n :: n in r.nodes ==> ExitNodeOk(n))
    && r.vlessRoute.Some?
    && (forall x :: x in r.routes ==> IsSpecial(x.destination))
    && EnabledUnset(r.hysteria)
    && (r.lbFallback.Some? ==> r.lbFallback.value in NodeIds(r.nodes))
  }

  ghost predicate HubNodeOk(c: Config, r: Region, n: Node)
    requires r.HubRegion? && RegionTls(r, c.hubDefaults).Ok?
  {
    RegionTls(r, c.hubDefaults).value.Some? ==> n.reality.None? && NodeHysteria(n, r, c).None?
  }

  ghost predicate HubOk(c: Config, r: Region)
    requires r.HubRegion?
  {
    RegionTls(r, c.hubDefaults).Ok? && forall n :: n in r.nodes ==> HubNodeOk(c, r, n)
  }

  ghost predicate RegionOk(c: Config, r: Region) {
    && (forall n :: n in r.nodes ==> NodeOk(c, r, n))
    && (if r.ExitRegion? then ExitOk(r) else HubOk(c, r))
    && (forall n :: n in r.nodes ==> NodeXhttp(n, r, c).Ok?)
  }

  function Single(v: Option<nat>): seq<nat> { if v.Some? then [v.value] else [] }

  /** vlessRoute values of one region: its own, then its warp variant's. */
  function RegionVless(r: Region): seq<nat> {
    if r.ExitRegion? then Single(r.vlessRoute) + Single(r.warp) else []
  }

  function VlessOf(): Region -> seq<nat> { r => RegionVless(r) }

  function VlessRoutes(rs: seq<Region>): seq<nat> { FlatMap(VlessOf(), rs) }

  // Sockets ---------------------------------------------------------------------------------

  predicate AnyUser(us: seq<User>, a: Access) { exists u :: u in us && a in u.access }

  function When(b: bool, s: Socket): seq<Socket> { if b then [s] else [] }

  function HubReserved(c: Config, r: Region, n: Node): seq<Socket> {
    var x, w, h := NodeXdns(n, c.hubDefaults), WireguardPort(n, c.hubDefaults), NodeHysteria(n, r, c);
    When(ProxyInbound(n, c.hubDefaults), Socket(80, Tcp))
    + (if x.Some? then When(AnyUser(c.users, Access.Xdns), Socket(x.value.port, Udp)) else [])
    + (if w.Some? then When(AnyUser(c.users, Access.Wireguard), Socket(w.value, Udp)) else [])
    + (if h.Some? then When(AnyUser(c.users, Access.Hysteria), Socket(h.value.port, Udp)) else [])
  }

  function ExitReserved(c: Config, r: Region, n: Node): seq<Socket> {
    var h := NodeHysteria(n, r, c);
    if h.Some? then [Socket(h.value.port, Udp)] else []
  }

  /** Sockets a node binds besides published ports, in the order they are claimed. */
  function Reserved(c: Config, r: Region, n: Node): seq<Socket> {
    var m := NodeMetrics(n, r, c);
    [Socket(443, Tcp)]
    + (if r.HubRegion? then HubReserved(c, r, n) else ExitReserved(c, r, n))
    + When(m.enabled, Socket(m.port, Tcp))
  }

  // Portals ---------------------------------------------------------------------------------

  function HubRendered(c: Config, r: Region, n: Node): set<Access>
    requires r.HubRegion?
  {
    var tls := RegionTls(r, c.hubDefaults);
    {if tls.Ok? && tls.value.Some? then Access.Tls else Access.Xhttp}
    + (if c.cdn.Some? && r.cdnPath.Some? then {Access.Cdn} else {})
    + (if NodeXdns(n, c.hubDefaults).Some? then {Access.Xdns} else {})
    + (if WireguardPort(n, c.hubDefaults).Some? then {Access.Wireguard} else {})
    + (if NodeHysteria(n, r, c).Some? then {Access.Hysteria} else {})
  }

  ghost predicate IsRendered(c: Config, a: Access) {
    exists r, n :: r in c.regions && r.HubRegion? && n in r.nodes && a in HubRendered(c, r, n)
  }

  ghost predicate Routable(c: Config, u: User) {
    exists a :: a in u.access && a in RoutableAccess && IsRendered(c, a)
  }

  ghost predicate IsDerivedTag(rs: seq<Region>, t: string) {
    || IsSpecial(t)
    || (exists n :: n in NodesOf(rs) &&
                    (t == n.id || t == BACKUP_PREFIX + n.id || t == WARP_PREFIX + n.id
                     || t == WARP_PREFIX + BACKUP_PREFIX + n.id))
    || (exists r :: r in rs && (t == LB_PREFIX + r.id || t == LB_WARP_PREFIX + r.id))
  }

  function HubNodeIds(c: Config): seq<string> { NodeIds(NodesOf(Hubs(c.regions))) }

  /** Hub nodes binding a published port. */
  function Scope(c: Config, e: Publish): seq<string> { if e.nodes != [] then e.nodes else HubNodeIds(c) }

  function EntryClaims(c: Config, e: Publish): (out: seq<(string, nat)>)
    ensures |out| == |Scope(c, e)| && forall i :: 0 <= i < |out| ==> out[i] == (Scope(c, e)[i], e.port)
  {
    seq(|Scope(c, e)|, i requires 0 <= i < |Scope(c, e)| => (Scope(c, e)[i], e.port))
  }

  function PublishClaims(c: Config, es: seq<Publish>): seq<(string, nat)> {
    if es == [] then [] else PublishClaims(c, es[..|es| - 1]) + EntryClaims(c, es[|es| - 1])
  }

  /** Every (hub node, port) pair claimed by a published port. */
  function Claims(c: Config, ps: seq<Portal>): seq<(string, nat)> {
    if ps == [] then [] else Claims(c, ps[..|ps| - 1]) + PublishClaims(c, ps[|ps| - 1].publish)
  }

  /** `id` names no node that already binds the entry's port. */
  ghost predicate PortFree(c: Config, id: string, e: Publish) {
    forall r, n, t :: r in c.regions && n in r.nodes && n.id == id && t in e.network ==>
                        Socket(e.port, t) !in Reserved(c, r, n)
  }

  ghost predicate EntryOk(c: Config, e: Publish) {
    && (forall id :: id in e.nodes ==> id in HubNodeIds(c))
    && (forall id :: id in Scope(c, e) ==> PortFree(c, id, e))
  }

  ghost predicate MemberOk(c: Config, username: string) {
    && username in Usernames(c.users)
    && forall u :: u in c.users && u.username == username ==> Routable(c, u)
  }

  ghost predicate PortalOk(c: Config, p: Portal) {
    && p.id !in NodeIds(NodesOf(c.regions)) && p.id !in RegionIds(c.regions) && !IsSpecial(p.id)
    && !IsDerivedTag(c.regions, PortalTag(p.id))
    && (forall r :: r in c.regions && r.ExitRegion? ==>
          !(r.id <= PortalTag(p.id)) && !(WARP_PREFIX + r.id <= PortalTag(p.id)))
    && (forall u :: u in p.users ==> MemberOk(c, u))
    && (forall e :: e in p.publish ==> EntryOk(c, e))
  }

  // Routing ---------------------------------------------------------------------------------

  ghost predicate IsRegion(c: Config, id: string) { exists r :: r in c.regions && r.id == id }
  ghost predicate IsHubRegion(c: Config, id: string) { exists r :: r in c.regions && r.HubRegion? && r.id == id }
  ghost predicate IsEmptyRegion(c: Config, id: string) { exists r :: r in c.regions && r.nodes == [] && r.id == id }
  ghost predicate IsNode(c: Config, id: string) { id in NodeIds(NodesOf(c.regions)) }

  ghost predicate DefaultOk(c: Config) {
    && !IsHubRegion(c, c.hubDefault)
    && (IsRegion(c, c.hubDefault) || IsSpecial(c.hubDefault))
    && !IsEmptyRegion(c, c.hubDefault)
  }

  ghost predicate DestinationOk(c: Config, d: string) {
    && !IsHubRegion(c, d) && d !in HubNodeIds(c)
    && (IsSpecial(d) || IsRegion(c, d) || IsNode(c, d))
    && !IsEmptyRegion(c, d)
  }

  ghost predicate HubRouteOk(c: Config, h: HubRoute) {
    && DestinationOk(c, h.destination)
    && (forall u :: u in h.users ==> u in Usernames(c.users))
    && (forall u :: u in h.proxyUsers ==> u in Usernames(c.users))
  }

  // The whole -------------------------------------------------------------------------------

  ghost predicate RegionsOk(c: Config) {
    && NoDup(RegionIds(c.regions))
    && NoDup(NodeIds(NodesOf(c.regions)))
    && (forall r :: r in c.regions ==> RegionOk(c, r))
    && NoDup(VlessRoutes(c.regions))
  }

  ghost predicate PeopleOk(c: Config) {
    && NoDup(GroupIds(c.groups))
    && NoDup(Usernames(c.users))
    && forall u :: u in c.users ==> u.group in GroupIds(c.groups)
  }

  ghost predicate SocketsOk(c: Config) {
    forall r, n :: r in c.regions && n in r.nodes ==> NoDup(Reserved(c, r, n))
  }

  ghost predicate PortalsOk(c: Config) {
    && (c.portals != [] ==> HubNodeIds(c) != [])
    && NoDup(PortalIds(c.portals))
    && (forall p :: p in c.portals ==> PortalOk(c, p))
    && NoDup(Claims(c, c.portals))
  }

  ghost predicate RoutingOk(c: Config) {
    && DefaultOk(c)
    && (forall x :: x in c.exitRoutesGlobal ==> IsSpecial(x.destination))
    && (forall h :: h in c.hubRoutes ==> HubRouteOk(c, h))
  }

  ghost predicate Accepted(c: Config) {
    RegionsOk(c) && PeopleOk(c) && SocketsOk(c) && PortalsOk(c) && RoutingOk(c)
  }
}
