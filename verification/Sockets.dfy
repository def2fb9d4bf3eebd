/** Socket exclusivity: the listeners a node renders never compete for a port. */
module Sockets {
  import opened Base
  import opened Names
  import opened Schema
  import opened Resolve
  import opened Acceptance
  import opened Routing
  import opened Identity
  import opened Inbounds
  import opened WireguardPeers
  import opened Confinement

  // What the inbound builders render --------------------------------------------------------

  /** The access-gated inbound lists nobody exactly when no user has the access. */
  lemma ListedIffAnyUser(us: seq<User>, access: Access, server: bool)
    ensures FlatMap(AccessIds(access, server), us) != [] <==> AnyUser(us, access)
  {
    var ids := FlatMap(AccessIds(access, server), us);
    if ids != [] {
      AccessIdMember(us, access, server, ids[0]);
    }
    if AnyUser(us, access) {
      var u :| u in us && access in u.access;
      AccessIdMember(us, access, server, OfUser(u));
    }
  }

  function XdnsSocket(c: Config, n: Node): seq<Socket> {
    var x := NodeXdns(n, c.hubDefaults);
    if x.Some? && FlatMap(AccessIds(Access.Xdns, false), c.users) != [] then [Socket(x.value.port, Udp)] else []
  }

  function WireguardSocket(c: Config, n: Node): seq<Socket> {
    var w := NodeWireguard(n, c.hubDefaults);
    if w.Ok? && w.value.Some? && Requests(c.users) != [] then [Socket(w.value.value.port, Udp)] else []
  }

  function HysteriaSocket(c: Config, r: Region, n: Node): seq<Socket> {
    var h := NodeHysteria(n, r, c);
    var admits := if r.HubRegion? then FlatMap(AccessIds(Access.Hysteria, true), c.users) != [] else HubNodeIds(c) != [];
    if h.Some? && admits then [Socket(h.value.port, Udp)] else []
  }

  function TransportSockets(): PublishedPort -> seq<Socket> {
    (pub: PublishedPort) => When(Tcp in pub.network, Socket(pub.port, Tcp)) + When(Udp in pub.network, Socket(pub.port, Udp))
  }

  function OwnSockets(c: Config, r: Region, n: Node): seq<Socket> {
    var m := NodeMetrics(n, r, c);
    [Socket(443, Tcp)]
    + (if r.HubRegion?
       then When(ProxyInbound(n, c.hubDefaults), Socket(80, Tcp)) + XdnsSocket(c, n) + WireguardSocket(c, n) + HysteriaSocket(c, r, n)
       else HysteriaSocket(c, r, n))
    + When(m.enabled, Socket(m.port, Tcp))
  }

  function PublishedSockets(c: Config, r: Region, n: Node): seq<Socket> {
    if r.HubRegion? then FlatMap(TransportSockets(), NodePublishes(c.portals, n.id)) else []
  }

  /** Every (port, transport) a node's Xray, HAProxy and metrics API listen on. */
  function ListenSockets(c: Config, r: Region, n: Node): seq<Socket> {
    OwnSockets(c, r, n) + PublishedSockets(c, r, n)
  }

  // The reservation covers what is rendered -------------------------------------------------

  lemma HubReservationExact(c: Config, r: Region, n: Node)
    requires r.HubRegion? && NodeWireguard(n, c.hubDefaults).Ok?
    ensures OwnSockets(c, r, n) == Reserved(c, r, n)
  {
    ListedIffAnyUser(c.users, Access.Xdns, false);
    ListedIffAnyUser(c.users, Access.Wireguard, true);
    ListedIffAnyUser(c.users, Access.Hysteria, true);
    WireguardPortAgrees(n, c.hubDefaults);
    var x, w, h := NodeXdns(n, c.hubDefaults), WireguardPort(n, c.hubDefaults), NodeHysteria(n, r, c);
    assert XdnsSocket(c, n) == if x.Some? then When(AnyUser(c.users, Access.Xdns), Socket(x.value.port, Udp)) else [];
    assert WireguardSocket(c, n) == if w.Some? then When(AnyUser(c.users, Access.Wireguard), Socket(w.value, Udp)) else [];
    assert HysteriaSocket(c, r, n) == if h.Some? then When(AnyUser(c.users, Access.Hysteria), Socket(h.value.port, Udp)) else [];
  }

  lemma OwnWithinReserved(c: Config, r: Region, n: Node)
    requires r.HubRegion? ==> NodeWireguard(n, c.hubDefaults).Ok?
    requires NoDup(Reserved(c, r, n))
    ensures NoDup(OwnSockets(c, r, n)) && forall s :: s in OwnSockets(c, r, n) ==> s in Reserved(c, r, n)
  {
    if r.HubRegion? {
      HubReservationExact(c, r, n);
    } else {
      ExitWithinReserved(c, r, n);
    }
  }

  lemma ExitWithinReserved(c: Config, r: Region, n: Node)
    requires r.ExitRegion? && NoDup(Reserved(c, r, n))
    ensures NoDup(OwnSockets(c, r, n)) && forall s :: s in OwnSockets(c, r, n) ==> s in Reserved(c, r, n)
  {
    var own, all, m := OwnSockets(c, r, n), Reserved(c, r, n), NodeMetrics(n, r, c);
    var api := When(m.enabled, Socket(m.port, Tcp));
    if HysteriaSocket(c, r, n) == ExitReserved(c, r, n) {
      assert own == all;
    } else {
      assert own == [Socket(443, Tcp)] + api;
      assert all == [Socket(443, Tcp)] + ExitReserved(c, r, n) + api;
      assert m.enabled ==> all[|all| - 1] == Socket(m.port, Tcp) && all[0] == Socket(443, Tcp);
    }
  }

  // Published ports -------------------------------------------------------------------------

  function Ports(pubs: seq<PublishedPort>): (out: seq<nat>)
    ensures |out| == |pubs| && forall i :: 0 <= i < |out| ==> out[i] == pubs[i].port
  {
    seq(|pubs|, i requires 0 <= i < |pubs| => pubs[i].port)
  }

  lemma PortsConcat(a: seq<PublishedPort>, b: seq<PublishedPort>)
    ensures Ports(a + b) == Ports(a) + Ports(b)
  {
  }

  lemma PortsMember(pubs: seq<PublishedPort>, port: nat) returns (pub: PublishedPort)
    requires port in Ports(pubs)
    ensures pub in pubs && pub.port == port
  {
    var k :| 0 <= k < |pubs| && Ports(pubs)[k] == port;
    pub := pubs[k];
  }

  lemma EntryPortMember(portal: Portal, node: string, es: seq<Publish>, pub: PublishedPort) returns (e: Publish)
    requires pub in FlatMap(EntryPort(portal, node), es)
    ensures e in es && BindsOn(e, node) && pub == ResolveEntry(portal, e)
  {
    FlatMapMember(EntryPort(portal, node), es, pub);
    e :| e in es && pub in EntryPort(portal, node)(e);
  }

  lemma {:induction false} EntryPortsDistinct(c: Config, portal: Portal, node: string, es: seq<Publish>)
    requires NoDup(PublishClaims(c, es)) && node in HubNodeIds(c)
    ensures NoDup(Ports(FlatMap(EntryPort(portal, node), es)))
  {
    if es != [] {
      var front, last := es[..|es| - 1], es[|es| - 1];
      var a, b := FlatMap(EntryPort(portal, node), front), EntryPort(portal, node)(last);
      NoDupConcat(PublishClaims(c, front), EntryClaims(c, last));
      EntryPortsDistinct(c, portal, node, front);
      PortsConcat(a, b);
      forall port | port in Ports(a) ensures port !in Ports(b) {
        var pub := PortsMember(a, port);
        var e := EntryPortMember(portal, node, front, pub);
        ClaimOf(c, e, node);
        EntryClaimIn(c, front, e, (node, port));
        if BindsOn(last, node) { ClaimOf(c, last, node); }
      }
      NoDupConcat(Ports(a), Ports(b));
    }
  }

  lemma {:induction false} NodePortsDistinct(c: Config, node: string, ps: seq<Portal>)
    requires NoDup(Claims(c, ps)) && node in HubNodeIds(c)
    ensures NoDup(Ports(NodePublishes(ps, node)))
  {
    if ps != [] {
      var front, last := ps[..|ps| - 1], ps[|ps| - 1];
      var a, b := NodePublishes(front, node), PortalPorts(node)(last);
      NoDupConcat(Claims(c, front), PublishClaims(c, last.publish));
      NodePortsDistinct(c, node, front);
      EntryPortsDistinct(c, last, node, last.publish);
      PortsConcat(a, b);
      forall port | port in Ports(a) ensures port !in Ports(b) { PortOnce(c, node, front, last, port); }
      NoDupConcat(Ports(a), Ports(b));
    }
  }

  lemma PortOnce(c: Config, node: string, front: seq<Portal>, last: Portal, port: nat)
    requires node in HubNodeIds(c) && port in Ports(NodePublishes(front, node))
    requires forall x :: x in Claims(c, front) ==> x !in PublishClaims(c, last.publish)
    ensures port !in Ports(PortalPorts(node)(last))
  {
    var pub := PortsMember(NodePublishes(front, node), port);
    PublishesMember(front, node, pub);
    var a, e :| a in front && e in a.publish && BindsOn(e, node) && pub == ResolveEntry(a, e);
    ClaimOf(c, e, node);
    EntryClaimIn(c, a.publish, e, (node, port));
    PortalClaimIn(c, front, a, (node, port));
    if port in Ports(PortalPorts(node)(last)) {
      var other := PortsMember(PortalPorts(node)(last), port);
      var f := EntryPortMember(last, node, last.publish, other);
      ClaimOf(c, f, node);
      EntryClaimIn(c, last.publish, f, (node, port));
    }
  }

  lemma OwnTransports(pub: PublishedPort)
    ensures NoDup(TransportSockets()(pub)) && forall s :: s in TransportSockets()(pub) ==> s.port == pub.port
  {
  }

  lemma SocketPortKnown(pubs: seq<PublishedPort>, s: Socket)
    requires s in FlatMap(TransportSockets(), pubs)
    ensures s.port in Ports(pubs)
  {
    FlatMapMember(TransportSockets(), pubs, s);
    var pub :| pub in pubs && s in TransportSockets()(pub);
    OwnTransports(pub);
    var k :| 0 <= k < |pubs| && pubs[k] == pub;
    assert Ports(pubs)[k] == pub.port;
  }

  lemma {:induction false} TransportsDistinct(pubs: seq<PublishedPort>)
    requires NoDup(Ports(pubs))
    ensures NoDup(FlatMap(TransportSockets(), pubs))
  {
    if pubs != [] {
      var front, last := pubs[..|pubs| - 1], pubs[|pubs| - 1];
      var a, b := FlatMap(TransportSockets(), front), TransportSockets()(last);
      assert Ports(pubs) == Ports(front) + [last.port];
      NoDupSnoc(Ports(front), last.port);
      TransportsDistinct(front);
      OwnTransports(last);
      forall s | s in a ensures s !in b { SocketPortKnown(front, s); }
      NoDupConcat(a, b);
    }
  }

  lemma PublishedFree(c: Config, r: Region, n: Node, s: Socket)
    requires PortalsOk(c) && r in c.regions && r.HubRegion? && n in r.nodes && s in PublishedSockets(c, r, n)
    ensures s !in Reserved(c, r, n)
  {
    var pubs := NodePublishes(c.portals, n.id);
    FlatMapMember(TransportSockets(), pubs, s);
    var pub :| pub in pubs && s in TransportSockets()(pub);
    PublishesMember(c.portals, n.id, pub);
    var a, e :| a in c.portals && e in a.publish && BindsOn(e, n.id) && pub == ResolveEntry(a, e);
    NodeIdKnown(Hubs(c.regions), r, n);
    assert n.id in Scope(c, e);
    assert PortFree(c, n.id, e) by { assert PortalOk(c, a) && EntryOk(c, e); }
  }

  /**
   * On every node of an accepted config the listeners occupy pairwise distinct (port, transport)
   * pairs. The wireguard inbound must resolve, or the node is not rendered at all.
   */
  lemma ListenersDistinct(c: Config, r: Region, n: Node)
    requires Accepted(c) && r in c.regions && n in r.nodes
    requires r.HubRegion? ==> NodeWireguard(n, c.hubDefaults).Ok?
    ensures NoDup(ListenSockets(c, r, n))
  {
    OwnWithinReserved(c, r, n);
    if r.HubRegion? {
      NodeIdKnown(Hubs(c.regions), r, n);
      NodePortsDistinct(c, n.id, c.portals);
      TransportsDistinct(NodePublishes(c.portals, n.id));
      forall s | s in PublishedSockets(c, r, n) ensures s !in OwnSockets(c, r, n) { PublishedFree(c, r, n, s); }
    }
    NoDupConcat(OwnSockets(c, r, n), PublishedSockets(c, r, n));
  }

  // Which sockets they are ------------------------------------------------------------------

  ghost predicate Publishes(c: Config, n: Node, b: Portal, e: Publish, s: Socket) {
    b in c.portals && e in b.publish && (e.nodes == [] || n.id in e.nodes) && s.port == e.port && s.transport in e.network
  }

  lemma EntrySockets(b: Portal, e: Publish, s: Socket)
    ensures s in TransportSockets()(ResolveEntry(b, e)) <==> s.port == e.port && s.transport in e.network
  {
    var pub := ResolveEntry(b, e);
    assert TransportSockets()(pub) == When(Tcp in pub.network, Socket(pub.port, Tcp)) + When(Udp in pub.network, Socket(pub.port, Udp));
    assert s == Socket(s.port, s.transport) && (s.transport == Tcp || s.transport == Udp);
  }

  lemma PublishedFrom(c: Config, n: Node, s: Socket, pub: PublishedPort)
    requires pub in NodePublishes(c.portals, n.id) && s in TransportSockets()(pub)
    ensures exists b, e :: Publishes(c, n, b, e, s)
  {
    PublishesMember(c.portals, n.id, pub);
    var b, e :| b in c.portals && e in b.publish && BindsOn(e, n.id) && pub == ResolveEntry(b, e);
    EntrySockets(b, e, s);
    assert Publishes(c, n, b, e, s);
  }

  lemma PublishedAre(c: Config, r: Region, n: Node, s: Socket)
    requires r.HubRegion?
    ensures s in PublishedSockets(c, r, n) <==> exists b, e :: Publishes(c, n, b, e, s)
  {
    var pubs := NodePublishes(c.portals, n.id);
    FlatMapMember(TransportSockets(), pubs, s);
    if s in PublishedSockets(c, r, n) {
      var pub :| pub in pubs && s in TransportSockets()(pub);
      PublishedFrom(c, n, s, pub);
    }
    if b, e :| Publishes(c, n, b, e, s) {
      PublishesMember(c.portals, n.id, ResolveEntry(b, e));
      EntrySockets(b, e, s);
    }
  }

  /** Somebody has the access. */
  ghost predicate Somebody(c: Config, a: Access) { exists u :: u in c.users && a in u.access }

  lemma XdnsListens(c: Config, n: Node, s: Socket)
    ensures s in XdnsSocket(c, n) <==>
            NodeXdns(n, c.hubDefaults).Some? && s == Socket(NodeXdns(n, c.hubDefaults).value.port, Udp) && Somebody(c, Access.Xdns)
  {
    ListedIffAnyUser(c.users, Access.Xdns, false);
  }

  lemma WireguardListens(c: Config, n: Node, s: Socket)
    requires NodeWireguard(n, c.hubDefaults).Ok?
    ensures var w := NodeWireguard(n, c.hubDefaults).value;
            s in WireguardSocket(c, n) <==> w.Some? && s == Socket(w.value.port, Udp) && Somebody(c, Access.Wireguard)
  {
    ListedIffAnyUser(c.users, Access.Wireguard, true);
  }

  lemma HysteriaListens(c: Config, r: Region, n: Node, s: Socket)
    requires r.HubRegion?
    ensures var h := NodeHysteria(n, r, c);
            s in HysteriaSocket(c, r, n) <==> h.Some? && s == Socket(h.value.port, Udp) && Somebody(c, Access.Hysteria)
  {
    ListedIffAnyUser(c.users, Access.Hysteria, true);
  }

  lemma OwnAre(c: Config, r: Region, n: Node, s: Socket)
    requires r.HubRegion?
    ensures var m := NodeMetrics(n, r, c);
            s in OwnSockets(c, r, n) <==>
            || s == Socket(443, Tcp)
            || (s == Socket(80, Tcp) && Pick(n.proxyInbound, c.hubDefaults.proxyInbound))
            || s in XdnsSocket(c, n) || s in WireguardSocket(c, n) || s in HysteriaSocket(c, r, n)
            || (m.enabled && s == Socket(m.port, Tcp))
  {
    InSix([Socket(443, Tcp)], When(ProxyInbound(n, c.hubDefaults), Socket(80, Tcp)), XdnsSocket(c, n), WireguardSocket(c, n),
          HysteriaSocket(c, r, n), When(NodeMetrics(n, r, c).enabled, Socket(NodeMetrics(n, r, c).port, Tcp)), s);
  }

  lemma InSix<T>(a: seq<T>, b: seq<T>, c: seq<T>, d: seq<T>, e: seq<T>, f: seq<T>, x: T)
    ensures x in a + (b + c + d + e) + f <==> x in a || x in b || x in c || x in d || x in e || x in f
  {
  }

  /** The sockets of a hub node, from its settings and the users' access. */
  lemma HubListeners(c: Config, r: Region, n: Node, s: Socket)
    requires r.HubRegion? && NodeWireguard(n, c.hubDefaults).Ok?
    ensures var x, w, h, m := NodeXdns(n, c.hubDefaults), NodeWireguard(n, c.hubDefaults).value, NodeHysteria(n, r, c), NodeMetrics(n, r, c);
            s in ListenSockets(c, r, n) <==>
            || s == Socket(443, Tcp)
            || (s == Socket(80, Tcp) && Pick(n.proxyInbound, c.hubDefaults.proxyInbound))
            || (x.Some? && s == Socket(x.value.port, Udp) && Somebody(c, Access.Xdns))
            || (w.Some? && s == Socket(w.value.port, Udp) && Somebody(c, Access.Wireguard))
            || (h.Some? && s == Socket(h.value.port, Udp) && Somebody(c, Access.Hysteria))
            || (m.enabled && s == Socket(m.port, Tcp))
            || exists b, e :: Publishes(c, n, b, e, s)
  {
    XdnsListens(c, n, s);
    WireguardListens(c, n, s);
    HysteriaListens(c, r, n, s);
    OwnAre(c, r, n, s);
    PublishedAre(c, r, n, s);
  }

  /** The sockets of an exit node: Hysteria only with hubs to serve. */
  lemma ExitListeners(c: Config, r: Region, n: Node, s: Socket)
    requires r.ExitRegion?
    ensures var h, m := NodeHysteria(n, r, c), NodeMetrics(n, r, c);
            s in ListenSockets(c, r, n) <==>
            || s == Socket(443, Tcp)
            || (h.Some? && s == Socket(h.value.port, Udp) && exists q, k :: q in c.regions && q.HubRegion? && k in q.nodes)
            || (m.enabled && s == Socket(m.port, Tcp))
  {
    HubsThere(c);
  }

  lemma HubsThere(c: Config)
    ensures HubNodeIds(c) != [] <==> exists q, k :: q in c.regions && q.HubRegion? && k in q.nodes
  {
    if HubNodeIds(c) != [] {
      var q, k := NodeIdOwner(Hubs(c.regions), HubNodeIds(c)[0]);
    }
    if q, k :| q in c.regions && q.HubRegion? && k in q.nodes { NodeIdKnown(Hubs(c.regions), q, k); }
  }
}
