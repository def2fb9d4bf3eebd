/** Port reservations of the root validator: two inbounds of a node never share a socket. */
module PortValidator {
  import opened Base
  import opened Names
  import opened Schema
  import opened Resolve
  import opened Acceptance
  import opened Validator

  // Reserved sockets ------------------------------------------------------------------------

  /** Sockets already bound on one node, with what binds them. */
  class PortTable {
    var owners: map<Socket, string>

    constructor ()
      ensures owners == map[]
    {
      owners := map[];
    }

    method Reserve(s: Socket, owner: string) returns (ok: bool)
      modifies this
      ensures ok <==> s !in old(owners)
      ensures owners == if ok then old(owners)[s := owner] else old(owners)
    {
      ok := s !in owners;
      if ok { owners := owners[s := owner]; }
    }
  }

  /** Extending a duplicate-free claim list by one optional claim. */
  lemma Claim(sofar: seq<Socket>, b: bool, s: Socket, rest: seq<Socket>)
    requires NoDup(sofar)
    ensures !b || s !in sofar ==> NoDup(sofar + When(b, s))
    ensures b && s in sofar ==> !NoDup(sofar + When(b, s) + rest)
    ensures Elems(sofar + When(b, s)) == Elems(sofar) + (if b then {s} else {})
  {
    NoDupSnoc(sofar, s);
    NoDupConcat(sofar + When(b, s), rest);
    assert sofar + [] == sofar;
  }

  /** Claims `s` when `b` holds; `rest` is what the node claims afterwards. */
  method ReserveWhen(t: PortTable, b: bool, s: Socket, owner: string, ghost sofar: seq<Socket>, ghost rest: seq<Socket>)
    returns (ok: bool)
    requires t.owners.Keys == Elems(sofar) && NoDup(sofar)
    modifies t
    ensures ok ==> NoDup(sofar + When(b, s)) && t.owners.Keys == Elems(sofar + When(b, s))
    ensures !ok ==> !NoDup(sofar + (When(b, s) + rest))
  {
    Claim(sofar, b, s, rest);
    assert sofar + When(b, s) + rest == sofar + (When(b, s) + rest);
    ok := true;
    if b {
      ok := t.Reserve(s, owner);
    }
  }

  method HubNodePorts(c: Config, r: Region, n: Node, t: PortTable) returns (ok: bool)
    requires r.HubRegion?
    requires t.owners.Keys == {Socket(443, Tcp)}
    modifies t
    ensures ok <==> NoDup([Socket(443, Tcp)] + HubReserved(c, r, n))
    ensures ok ==> t.owners.Keys == Elems([Socket(443, Tcp)] + HubReserved(c, r, n))
  {
    var d := c.hubDefaults;
    var x, w, h := NodeXdns(n, d), WireguardPort(n, d), NodeHysteria(n, r, c);
    var pb := ProxyInbound(n, d);
    var xb, xs := x.Some? && AnyUser(c.users, Access.Xdns), Socket(if x.Some? then x.value.port else 0, Udp);
    var wb, ws := w.Some? && AnyUser(c.users, Access.Wireguard), Socket(if w.Some? then w.value else 0, Udp);
    var hb, hs := h.Some? && AnyUser(c.users, Access.Hysteria), Socket(if h.Some? then h.value.port else 0, Udp);
    ghost var p, q, u, v := When(pb, Socket(80, Tcp)), When(xb, xs), When(wb, ws), When(hb, hs);
    assert HubReserved(c, r, n) == p + q + u + v;
    Regroup4(p, q, u, v);
    ok := FourClaims(t, pb, xb, xs, wb, ws, hb, hs);
  }

  method FourClaims(t: PortTable, pb: bool, xb: bool, xs: Socket, wb: bool, ws: Socket, hb: bool, hs: Socket)
    returns (ok: bool)
    requires t.owners.Keys == {Socket(443, Tcp)}
    modifies t
    ensures var all := [Socket(443, Tcp)] + (When(pb, Socket(80, Tcp)) + (When(xb, xs) + (When(wb, ws) + When(hb, hs))));
            && (ok <==> NoDup(all))
            && (ok ==> t.owners.Keys == Elems(all))
  {
    ghost var s, p, q, u, v := [Socket(443, Tcp)], When(pb, Socket(80, Tcp)), When(xb, xs), When(wb, ws), When(hb, hs);
    assert s + (p + (q + (u + v))) == (s + p) + (q + (u + v));
    assert (s + p) + (q + (u + v)) == (s + p + q) + (u + v);
    assert (s + p + q) + (u + v) == (s + p + q + u) + v;
    assert v + [] == v;
    ok := ReserveWhen(t, pb, Socket(80, Tcp), "the proxy inbound", s, q + (u + v));
    if !ok { return; }
    ok := ReserveWhen(t, xb, xs, "the xdns inbound", s + p, u + v);
    if !ok { return; }
    ok := ReserveWhen(t, wb, ws, "the wireguard inbound", s + p + q, v);
    if !ok { return; }
    ok := ReserveWhen(t, hb, hs, "the hysteria inbound", s + p + q + u, []);
  }

  /** Sockets bound by a node, or `None` when two of its inbounds share one. */
  method NodeReservedPorts(c: Config, r: Region, n: Node) returns (reserved: Option<map<Socket, string>>)
    ensures reserved.Some? <==> NoDup(Reserved(c, r, n))
    ensures reserved.Some? ==> reserved.value.Keys == Elems(Reserved(c, r, n))
  {
    var t := new PortTable();
    var ok := t.Reserve(Socket(443, Tcp), "the direct inbound");
    var m := NodeMetrics(n, r, c);
    ghost var mid := [Socket(443, Tcp)] + (if r.HubRegion? then HubReserved(c, r, n) else ExitReserved(c, r, n));
    ghost var api := When(m.enabled, Socket(m.port, Tcp));
    assert mid + api == Reserved(c, r, n);
    NoDupConcat(mid, api);
    if r.ExitRegion? {
      var h := NodeHysteria(n, r, c);
      if h.Some? {
        ok := t.Reserve(Socket(h.value.port, Udp), "the hysteria inbound");
      }
      assert ok;
      assert NoDup(mid) && t.owners.Keys == Elems(mid);
    } else {
      ok := HubNodePorts(c, r, n, t);
      if !ok { return None; }
    }
    Claim(mid, m.enabled, Socket(m.port, Tcp), []);
    assert mid + api + [] == mid + api;
    if m.enabled {
      ok := t.Reserve(Socket(m.port, Tcp), "the metrics api listener");
      if !ok { return None; }
    }
    return Some(t.owners);
  }

  ghost predicate PortsOf(c: Config, rs: seq<Region>, ports: map<string, map<Socket, string>>) {
    forall r, n :: r in rs && n in r.nodes ==> n.id in ports && ports[n.id].Keys == Elems(Reserved(c, r, n))
  }

  lemma EarlierIdsDiffer(ns: seq<Node>, j: nat)
    requires j < |ns| && NoDup(NodeIds(ns))
    ensures forall m :: m in ns[..j] ==> m.id != ns[j].id
    ensures ns[j].id in NodeIds(ns)
  {
    assert NodeIds(ns)[j] == ns[j].id;
    forall m | m in ns[..j] ensures m.id != ns[j].id {
      var k :| 0 <= k < j && ns[k] == m;
      assert NodeIds(ns)[k] != NodeIds(ns)[j];
    }
  }

  method RegionReservedPorts(c: Config, r: Region, before: map<string, map<Socket, string>>)
    returns (out: Option<Rejection>, ports: map<string, map<Socket, string>>)
    requires NoDup(NodeIds(r.nodes))
    ensures out.None? <==> forall n :: n in r.nodes ==> NoDup(Reserved(c, r, n))
    ensures out.None? ==>
              && (forall n :: n in r.nodes ==> n.id in ports && ports[n.id].Keys == Elems(Reserved(c, r, n)))
              && (forall id :: id in before && id !in NodeIds(r.nodes) ==> id in ports && ports[id] == before[id])
  {
    ports := before;
    for j := 0 to |r.nodes|
      invariant forall n :: n in r.nodes[..j] ==> NoDup(Reserved(c, r, n))
      invariant forall n :: n in r.nodes[..j] ==> n.id in ports && ports[n.id].Keys == Elems(Reserved(c, r, n))
      invariant forall id :: id in before && id !in NodeIds(r.nodes) ==> id in ports && ports[id] == before[id]
    {
      var n := r.nodes[j];
      var reserved := NodeReservedPorts(c, r, n);
      if reserved.None? { return Some(SocketClash(n.id)), ports; }
      EarlierIdsDiffer(r.nodes, j);
      ports := ports[n.id := reserved.value];
      assert r.nodes[..j + 1] == r.nodes[..j] + [n];
    }
    return None, ports;
  }

  /** Reserved sockets of every node, keyed by node id. */
  method AllReservedPorts(c: Config) returns (out: Option<Rejection>, ports: map<string, map<Socket, string>>)
    requires NoDup(NodeIds(NodesOf(c.regions)))
    ensures out.None? <==> SocketsOk(c)
    ensures out.None? ==> PortsOf(c, c.regions, ports)
  {
    ports := map[];
    for i := 0 to |c.regions|
      invariant forall r, n :: r in c.regions[..i] && n in r.nodes ==> NoDup(Reserved(c, r, n))
      invariant PortsOf(c, c.regions[..i], ports)
    {
      var r := c.regions[i];
      Distinct(c.regions, i);
      out, ports := RegionReservedPorts(c, r, ports);
      if out.Some? { return; }
      assert c.regions[..i + 1] == c.regions[..i] + [r];
    }
    assert c.regions[..|c.regions|] == c.regions;
    return None, ports;
  }

  lemma UniqueUpTo(rs: seq<Region>, i: nat)
    requires i < |rs|
    requires NoDup(NodeIds(NodesOf(rs)))
    ensures NoDup(NodeIds(NodesOf(rs[..i])) + NodeIds(rs[i].nodes))
  {
    PrefixUnique(rs, i + 1);
    assert rs[..i + 1][..i] == rs[..i];
    NodeIdsConcat(NodesOf(rs[..i]), rs[i].nodes);
  }

  /** With unique ids, a region's nodes share no id with each other or with earlier regions' nodes. */
  lemma Distinct(rs: seq<Region>, i: nat)
    requires i < |rs|
    requires NoDup(NodeIds(NodesOf(rs)))
    ensures NoDup(NodeIds(rs[i].nodes))
    ensures forall r, n :: r in rs[..i] && n in r.nodes ==> n.id !in NodeIds(rs[i].nodes)
  {
    UniqueUpTo(rs, i);
    NoDupConcat(NodeIds(NodesOf(rs[..i])), NodeIds(rs[i].nodes));
    forall r, n | r in rs[..i] && n in r.nodes ensures n.id !in NodeIds(rs[i].nodes) {
      NodeIdKnown(rs[..i], r, n);
    }
  }
}
