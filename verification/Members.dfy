/** Who a hub's inbounds list: what the validator counts as rendered is what the builders build. */
module Members {
  import opened Base
  import opened Names
  import opened Schema
  import opened Resolve
  import opened Acceptance
  import opened Identity
  import opened Inbounds
  import opened WireguardPeers
  import opened Shares
  import opened Admission
  import opened ShareRequests
  import opened Derivation

  // Inbounds that list the user -------------------------------------------------------------

  ghost predicate OnReality(e: Env, r: Region, n: Node, k: NodeKeys)
    requires r.HubRegion?
  {
    var d := HubDirect(e.c, e.ns, r, n, k);
    d.Ok? && d.value.RealityInbound? && ListsClient(d.value.clients, e.ns.UserUuid(e.u))
  }

  ghost predicate OnTls(e: Env, r: Region, n: Node, k: NodeKeys)
    requires r.HubRegion?
  {
    var d := HubDirect(e.c, e.ns, r, n, k);
    d.Ok? && d.value.TlsInbound? && ListsClient(d.value.clients, e.ns.UserUuid(e.u))
  }

  ghost predicate OnCdn(e: Env, r: Region, k: NodeKeys) {
    HubCdn(e, r, k).Some? && ListsClient(HubCdn(e, r, k).value.clients, e.ns.UserUuid(e.u))
  }

  ghost predicate OnHysteria(e: Env, r: Region, n: Node, k: NodeKeys)
    requires r.HubRegion?
  {
    var h := HubHysteria(e.c, e.ns, e.derive, r, n, k);
    h.Ok? && h.value.Some? && ListsClient(h.value.value.users, e.ns.UserUuid(e.u))
  }

  ghost predicate OnXdns(e: Env, n: Node) {
    && NodeXdns(n, e.c.hubDefaults).Some?
    && ListsClient(Clients(e.ns, "", FlatMap(AccessIds(Access.Xdns, false), e.c.users)), e.ns.UserUuid(e.u))
  }

  ghost predicate OnWireguard(e: Env, n: Node) {
    var w := NodeWireguard(n, e.c.hubDefaults);
    w.Ok? && w.value.Some? && OfUser(e.u) in Requests(e.c.users)
  }

  /** Some inbound of the node, built with keys `k`, lists the user. */
  ghost predicate Listed(e: Env, r: Region, n: Node, k: NodeKeys)
    requires r.HubRegion?
  {
    OnReality(e, r, n, k) || OnTls(e, r, n, k) || OnCdn(e, r, k) || OnHysteria(e, r, n, k) || OnXdns(e, n) || OnWireguard(e, n)
  }

  // Lists and identities --------------------------------------------------------------------

  ghost predicate Apart(e: Env) { NoDup(Uuids(e.ns, HubIdentities(e.c))) && e.u in e.c.users }

  lemma SameUuid(e: Env, a: Id, b: Id)
    requires Apart(e) && a in HubIdentities(e.c) && b in HubIdentities(e.c) && a.Uuid(e.ns) == b.Uuid(e.ns)
    ensures a == b
  {
    var ids := HubIdentities(e.c);
    var i :| 0 <= i < |ids| && ids[i] == a;
    var j :| 0 <= j < |ids| && ids[j] == b;
    assert Uuids(e.ns, ids)[i] == Uuids(e.ns, ids)[j];
  }

  lemma UserKnown(e: Env)
    requires e.u in e.c.users
    ensures OfUser(e.u) in HubIdentities(e.c)
  {
    IdentityMember(e.c, OfUser(e.u));
  }

  /** With distinct UUIDs a list of identities lists the user exactly when the user is one of them. */
  lemma ListsUser(e: Env, flow: string, ids: seq<Id>)
    requires Apart(e) && forall id :: id in ids ==> id in HubIdentities(e.c)
    ensures ListsClient(Clients(e.ns, flow, ids), e.ns.UserUuid(e.u)) <==> OfUser(e.u) in ids
  {
    UserKnown(e);
    var clients := Clients(e.ns, flow, ids);
    if OfUser(e.u) in ids { ListedById(e.ns, flow, ids, OfUser(e.u)); }
    if cl :| cl in clients && cl.id == e.ns.UserUuid(e.u) {
      var i :| 0 <= i < |clients| && clients[i] == cl;
      SameUuid(e, ids[i], OfUser(e.u));
    }
  }

  lemma ListsAccess(e: Env, flow: string, access: Access, server: bool)
    requires Apart(e)
    ensures ListsClient(Clients(e.ns, flow, FlatMap(AccessIds(access, server), e.c.users)), e.ns.UserUuid(e.u))
            <==> access in e.u.access
  {
    var ids := FlatMap(AccessIds(access, server), e.c.users);
    forall id | id in ids ensures id in HubIdentities(e.c) {
      AccessIdMember(e.c.users, access, server, id);
      IdentityMember(e.c, id);
    }
    AccessIdMember(e.c.users, access, server, OfUser(e.u));
    ListsUser(e, flow, ids);
  }

  lemma ListsVless(e: Env, flow: string)
    requires Apart(e)
    ensures ListsClient(Clients(e.ns, flow, FlatMap(VlessIds(), e.c.users)), e.ns.UserUuid(e.u)) <==> Access.Xhttp in e.u.access
  {
    var ids := FlatMap(VlessIds(), e.c.users);
    forall id | id in ids ensures id in HubIdentities(e.c) {
      VlessIdMember(e.c.users, id);
      IdentityMember(e.c, id);
    }
    VlessIdMember(e.c.users, OfUser(e.u));
    ListsUser(e, flow, ids);
  }

  lemma PortalsList(e: Env, flow: string)
    requires Apart(e)
    ensures !ListsClient(Clients(e.ns, flow, PortalClientIds(e.c.portals)), e.ns.UserUuid(e.u))
  {
    var ids := PortalClientIds(e.c.portals);
    forall id | id in ids ensures id in HubIdentities(e.c) && id != OfUser(e.u) {
      FlatMapMember(PortalId(), e.c.portals, id);
      IdentityMember(e.c, id);
    }
    ListsUser(e, flow, ids);
  }

  // Access by access ------------------------------------------------------------------------

  lemma DirectServes(e: Env, r: Region, n: Node, k: NodeKeys)
    requires Apart(e) && r.HubRegion? && HubDirect(e.c, e.ns, r, n, k).Ok?
    ensures OnTls(e, r, n, k) <==> RegionTls(r, e.c.hubDefaults).value.Some? && Access.Tls in e.u.access
    ensures OnReality(e, r, n, k) <==> RegionTls(r, e.c.hubDefaults).value.None? && Access.Xhttp in e.u.access
  {
    var flow, id := Flow(k), e.ns.UserUuid(e.u);
    PortalsList(e, flow);
    ListsAccess(e, flow, Access.Tls, true);
    ListsVless(e, flow);
    var portals := Clients(e.ns, flow, PortalClientIds(e.c.portals));
    ListedInConcat(Clients(e.ns, flow, FlatMap(AccessIds(Access.Tls, true), e.c.users)), portals, id);
    ListedInConcat(Clients(e.ns, flow, FlatMap(VlessIds(), e.c.users)), portals, id);
  }

  lemma CdnServes(e: Env, r: Region, k: NodeKeys)
    requires Apart(e)
    ensures OnCdn(e, r, k) <==> e.c.cdn.Some? && r.cdnPath.Some? && Access.Cdn in e.u.access
  {
    ListsAccess(e, Flow(k), Access.Cdn, true);
  }

  lemma HysteriaServes(e: Env, r: Region, n: Node, k: NodeKeys)
    requires Apart(e) && r.HubRegion? && HubHysteria(e.c, e.ns, e.derive, r, n, k).Ok?
    ensures OnHysteria(e, r, n, k) <==> NodeHysteria(n, r, e.c).Some? && Access.Hysteria in e.u.access
  {
    ListsAccess(e, "", Access.Hysteria, true);
  }

  lemma XdnsServes(e: Env, n: Node)
    requires Apart(e)
    ensures OnXdns(e, n) <==> NodeXdns(n, e.c.hubDefaults).Some? && Access.Xdns in e.u.access
  {
    ListsAccess(e, "", Access.Xdns, false);
  }

  lemma WireguardServes(e: Env, n: Node)
    requires Apart(e) && NodeWireguard(n, e.c.hubDefaults).Ok?
    ensures OnWireguard(e, n) <==> WireguardPort(n, e.c.hubDefaults).Some? && Access.Wireguard in e.u.access
  {
    WireguardPortAgrees(n, e.c.hubDefaults);
    AccessIdMember(e.c.users, Access.Wireguard, true, OfUser(e.u));
  }

  // The validator's view --------------------------------------------------------------------

  /** What the node renders, in the validator's count and in the words of its settings. */
  lemma RenderedAre(c: Config, r: Region, n: Node)
    requires r.HubRegion? && RegionTls(r, c.hubDefaults).Ok?
    ensures var out := HubRendered(c, r, n);
            && (Access.Tls in out <==> RegionTls(r, c.hubDefaults).value.Some?)
            && (Access.Xhttp in out <==> RegionTls(r, c.hubDefaults).value.None?)
            && (Access.Cdn in out <==> c.cdn.Some? && r.cdnPath.Some?)
            && (Access.Xdns in out <==> NodeXdns(n, c.hubDefaults).Some?)
            && (Access.Wireguard in out <==> WireguardPort(n, c.hubDefaults).Some?)
            && (Access.Hysteria in out <==> NodeHysteria(n, r, c).Some?)
            && out <= {Access.Tls, Access.Xhttp, Access.Cdn, Access.Xdns, Access.Wireguard, Access.Hysteria}
  {
  }

  /** The user's access is one the validator counts as rendered on the node. */
  ghost predicate Counted(e: Env, r: Region, n: Node, a: Access)
    requires r.HubRegion?
  {
    a in e.u.access && a in HubRendered(e.c, r, n)
  }

  lemma CountedAre(e: Env, r: Region, n: Node)
    requires r.HubRegion? && RegionTls(r, e.c.hubDefaults).Ok?
    ensures (exists a :: Counted(e, r, n, a)) <==>
            || Counted(e, r, n, Access.Tls) || Counted(e, r, n, Access.Xhttp) || Counted(e, r, n, Access.Cdn)
            || Counted(e, r, n, Access.Xdns) || Counted(e, r, n, Access.Wireguard) || Counted(e, r, n, Access.Hysteria)
  {
    RenderedAre(e.c, r, n);
  }

  lemma EachServes(e: Env, r: Region, n: Node, k: NodeKeys)
    requires Apart(e) && r.HubRegion? && RegionTls(r, e.c.hubDefaults).Ok? && NodeWireguard(n, e.c.hubDefaults).Ok?
    requires HubDirect(e.c, e.ns, r, n, k).Ok? && HubHysteria(e.c, e.ns, e.derive, r, n, k).Ok?
    ensures OnTls(e, r, n, k) <==> Counted(e, r, n, Access.Tls)
    ensures OnReality(e, r, n, k) <==> Counted(e, r, n, Access.Xhttp)
    ensures OnCdn(e, r, k) <==> Counted(e, r, n, Access.Cdn)
    ensures OnXdns(e, n) <==> Counted(e, r, n, Access.Xdns)
    ensures OnWireguard(e, n) <==> Counted(e, r, n, Access.Wireguard)
    ensures OnHysteria(e, r, n, k) <==> Counted(e, r, n, Access.Hysteria)
  {
    RenderedAre(e.c, r, n);
    DirectServes(e, r, n, k);
    CdnServes(e, r, k);
    XdnsServes(e, n);
    WireguardServes(e, n);
    HysteriaServes(e, r, n, k);
  }

  /** A user holds an access that the validator counts as rendered on the node exactly when an inbound there lists the user. */
  lemma RenderedIsListed(e: Env, r: Region, n: Node, k: NodeKeys)
    requires Accepted(e.c) && OneSecurity(e.c) && Apart(e) && r in e.c.regions && r.HubRegion? && n in r.nodes
    requires NodeWireguard(n, e.c.hubDefaults).Ok?
    ensures (exists a :: Counted(e, r, n, a)) <==> Listed(e, r, n, k)
  {
    ListenersBuild(e.c, e.ns, e.derive, r, n, k);
    HubResolves(e.c, r, n);
    EachServes(e, r, n, k);
    CountedAre(e, r, n);
  }

  ghost predicate HubNode(c: Config, r: Region, n: Node) { r in c.regions && r.HubRegion? && n in r.nodes }

  ghost predicate AllResolve(c: Config) {
    forall r, n :: HubNode(c, r, n) ==> NodeWireguard(n, c.hubDefaults).Ok?
  }

  /** The validator calls a user routable exactly when some hub node's inbound lists the user. */
  lemma RoutableIsListed(e: Env, k: NodeKeys)
    requires Accepted(e.c) && OneSecurity(e.c) && Apart(e) && AllResolve(e.c)
    ensures Routable(e.c, e.u) <==> exists r, n :: HubNode(e.c, r, n) && Listed(e, r, n, k)
  {
    if Routable(e.c, e.u) {
      var a :| a in e.u.access && a in RoutableAccess && IsRendered(e.c, a);
      var r, n :| r in e.c.regions && r.HubRegion? && n in r.nodes && a in HubRendered(e.c, r, n);
      assert HubNode(e.c, r, n) && Counted(e, r, n, a);
      RenderedIsListed(e, r, n, k);
    }
    if r, n :| HubNode(e.c, r, n) && Listed(e, r, n, k) {
      RenderedIsListed(e, r, n, k);
      var a :| Counted(e, r, n, a);
      HubResolves(e.c, r, n);
      RenderedAre(e.c, r, n);
      assert a in RoutableAccess && IsRendered(e.c, a);
    }
  }

  /** So every member of a portal of an accepted config is listed by an inbound of some hub node. */
  lemma MembersServed(e: Env, p: Portal, k: NodeKeys)
    requires Accepted(e.c) && OneSecurity(e.c) && Apart(e) && AllResolve(e.c)
    requires p in e.c.portals && e.u.username in p.users
    ensures exists r, n :: HubNode(e.c, r, n) && Listed(e, r, n, k)
  {
    assert PortalOk(e.c, p) && MemberOk(e.c, e.u.username);
    RoutableIsListed(e, k);
  }
}
