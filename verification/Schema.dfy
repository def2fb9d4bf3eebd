/** Topology configuration as the schema models deliver it, after field validation. */
module Schema {
  import opened Base
  import opened Names

  datatype Access = Xhttp | Tls | Server | Cdn | Proxy | Wireguard | Xdns | Hysteria

  datatype Transport = Tcp | Udp

  datatype Uuid = Uuid(bits: nat)

  datatype Group = Group(id: string, shortId: Option<string>)

  datatype User = User(
    username: string, group: string, access: set<Access>, uuid: Option<Uuid>, guests: seq<string>)

  // Absent and empty matcher lists are alike to every reader, so both are `[]`.
  datatype HubRoute = HubRoute(
    destination: string, domains: seq<string>, ips: seq<string>, users: seq<string>, proxyUsers: seq<string>)

  datatype ExitRoute = ExitRoute(destination: string, domains: seq<string>, ips: seq<string>)

  datatype Host = Name(name: string) | Ip(ip: string)

  // `allow` and `nodes` are never present and empty, so `[]` stands for unset.
  datatype Publish = Publish(
    port: nat, host: Host, targetPort: nat, network: set<Transport>, allow: seq<string>, nodes: seq<string>)

  datatype Portal = Portal(
    id: string, users: seq<string>, domains: seq<string>, ips: seq<string>,
    uuid: Option<Uuid>, publish: seq<Publish>, strict: bool)

  /** A validated `host:port`, as written and with its host. */
  datatype HostPort = HostPort(text: string, host: string)

  datatype FallbackLimits = FallbackLimits(afterBytes: int, bytesPerSec: int, burstBytesPerSec: int)

  datatype Reality = Reality(dest: HostPort, serverNames: seq<string>, limits: FallbackLimits)

  datatype XhttpConfig = XhttpConfig(path: string, host: Option<string>)

  datatype XhttpOverride = XhttpOverride(path: Option<string>, host: Option<string>)

  datatype XdnsConfig = XdnsConfig(domains: seq<string>, port: nat)

  datatype WireguardConfig = WireguardConfig(port: nat, mtu: nat, subnet: string, keepalive: nat, kernelMode: bool)

  datatype WireguardOverride = WireguardOverride(
    enabled: Option<bool>, port: Option<nat>, mtu: Option<nat>, subnet: Option<string>,
    keepalive: Option<nat>, kernelMode: Option<bool>)

  datatype Congestion = Bbr | Brutal

  datatype HysteriaConfig = HysteriaConfig(
    port: nat, obfs: bool, congestion: Congestion, up: Option<string>, down: Option<string>,
    sni: Option<string>, masquerade: Option<string>, keyType: Option<string>, certificate: Option<string>)

  datatype HysteriaOverride = HysteriaOverride(
    enabled: Option<bool>, port: Option<nat>, obfs: Option<bool>, congestion: Option<Congestion>,
    up: Option<string>, down: Option<string>, sni: Option<string>, masquerade: Option<string>,
    keyType: Option<string>, certificate: Option<string>)

  datatype MetricsConfig = MetricsConfig(enabled: bool, port: nat)

  datatype MetricsOverride = MetricsOverride(enabled: Option<bool>, port: Option<nat>)

  datatype KeysConfig = KeysConfig(enabled: bool, mode: string, sessionTime: string, auth: string, padding: Option<string>)

  datatype KeysOverride = KeysOverride(
    enabled: Option<bool>, mode: Option<string>, sessionTime: Option<string>, auth: Option<string>, padding: Option<string>)

  /** Exit and hub nodes; `backup` is read on exit nodes, the last three fields on hub nodes. */
  datatype Node = Node(
    id: string, hostname: string, haproxy: Option<bool>, reality: Option<Reality>, xhttp: Option<XhttpOverride>,
    keys: Option<KeysOverride>, hysteria: Option<HysteriaOverride>, metrics: Option<MetricsOverride>,
    backup: bool,
    proxyInbound: Option<bool>, xdns: Option<XdnsConfig>, wireguard: Option<WireguardOverride>)

  datatype LinkProtocol = Vless | HysteriaLink

  datatype Region =
    | ExitRegion(
        id: string, nodes: seq<Node>, xhttp: Option<XhttpOverride>, cdnPath: Option<string>,
        vlessRoute: Option<nat>, protocol: Option<LinkProtocol>, hysteria: Option<HysteriaOverride>,
        lbStrategy: Option<string>, lbFallback: Option<string>, warp: Option<nat>, routes: seq<ExitRoute>)
    | HubRegion(
        id: string, nodes: seq<Node>, xhttp: Option<XhttpOverride>, cdnPath: Option<string>,
        reality: Option<Reality>, tls: Option<TlsOverride>)

  datatype TlsOverride = TlsOverride(certificate: Option<string>)

  datatype HubDefaults = HubDefaults(
    proxyInbound: bool, haproxy: bool, keys: KeysConfig, reality: Option<Reality>, tls: Option<string>,
    xhttp: Option<XhttpConfig>, xdns: Option<XdnsConfig>, wireguard: Option<WireguardConfig>,
    hysteria: Option<HysteriaConfig>, metrics: Option<MetricsOverride>)

  datatype ExitDefaults = ExitDefaults(
    haproxy: bool, keys: KeysConfig, xhttp: Option<XhttpConfig>, hysteria: Option<HysteriaConfig>,
    metrics: Option<MetricsOverride>)

  datatype CdnConfig = CdnConfig(exitDomain: string, hubDomain: string)

  datatype Config = Config(
    namespace: string, dnsAddress: string, dnsPort: nat, cdn: Option<CdnConfig>, metrics: MetricsConfig,
    exitDefaults: ExitDefaults, hubDefaults: HubDefaults,
    groups: seq<Group>, users: seq<User>, portals: seq<Portal>,
    hubRoutes: seq<HubRoute>, exitRoutesGlobal: seq<ExitRoute>, hubDefault: string,
    regions: seq<Region>)

  // Views of the region list -----------------------------------------------------------------

  function Exits(rs: seq<Region>): (out: seq<Region>)
    ensures forall r :: r in out <==> r in rs && r.ExitRegion?
  {
    if rs == [] then [] else
      var front, last := Exits(rs[..|rs| - 1]), rs[|rs| - 1];
      assert rs == rs[..|rs| - 1] + [last];
      if last.ExitRegion? then front + [last] else front
  }

  function Hubs(rs: seq<Region>): (out: seq<Region>)
    ensures forall r :: r in out <==> r in rs && r.HubRegion?
  {
    if rs == [] then [] else
      var front, last := Hubs(rs[..|rs| - 1]), rs[|rs| - 1];
      assert rs == rs[..|rs| - 1] + [last];
      if last.HubRegion? then front + [last] else front
  }

  /** Regions hubs dial: exit regions with at least one node. */
  function Rendered(rs: seq<Region>): (out: seq<Region>)
    ensures forall r :: r in out <==> r in rs && r.ExitRegion? && r.nodes != []
  {
    if rs == [] then [] else
      var front, last := Rendered(rs[..|rs| - 1]), rs[|rs| - 1];
      assert rs == rs[..|rs| - 1] + [last];
      if last.ExitRegion? && last.nodes != [] then front + [last] else front
  }

  lemma LastOfConcat<T>(a: seq<T>, b: seq<T>)
    requires b != []
    ensures (a + b)[..|a + b| - 1] == a + b[..|b| - 1] && (a + b)[|a + b| - 1] == b[|b| - 1]
  {
  }

  lemma {:induction false} ExitsConcat(a: seq<Region>, b: seq<Region>)
    ensures Exits(a + b) == Exits(a) + Exits(b)
  {
    if b == [] {
      assert a + b == a;
    } else {
      ExitsConcat(a, b[..|b| - 1]);
      LastOfConcat(a, b);
    }
  }

  lemma {:induction false} HubsConcat(a: seq<Region>, b: seq<Region>)
    ensures Hubs(a + b) == Hubs(a) + Hubs(b)
  {
    if b == [] {
      assert a + b == a;
    } else {
      HubsConcat(a, b[..|b| - 1]);
      LastOfConcat(a, b);
    }
  }

  lemma {:induction false} RenderedConcat(a: seq<Region>, b: seq<Region>)
    ensures Rendered(a + b) == Rendered(a) + Rendered(b)
  {
    if b == [] {
      assert a + b == a;
    } else {
      RenderedConcat(a, b[..|b| - 1]);
      LastOfConcat(a, b);
    }
  }

  /** Regions are listed in file order. */
  lemma InFileOrder(a: seq<Region>, b: seq<Region>)
    ensures Exits(a + b) == Exits(a) + Exits(b) && Hubs(a + b) == Hubs(a) + Hubs(b) && Rendered(a + b) == Rendered(a) + Rendered(b)
  {
    ExitsConcat(a, b);
    HubsConcat(a, b);
    RenderedConcat(a, b);
  }

  function NodesOf(rs: seq<Region>): seq<Node> {
    if rs == [] then [] else NodesOf(rs[..|rs| - 1]) + rs[|rs| - 1].nodes
  }

  lemma {:induction false} NodesOfContains(rs: seq<Region>, r: Region, n: Node)
    requires r in rs && n in r.nodes
    ensures n in NodesOf(rs)
  {
    if r != rs[|rs| - 1] {
      NodesOfContains(rs[..|rs| - 1], r, n);
    }
  }

  lemma {:induction false} NodesOfOwner(rs: seq<Region>, n: Node) returns (r: Region)
    requires n in NodesOf(rs)
    ensures r in rs && n in r.nodes
  {
    if n in rs[|rs| - 1].nodes {
      r := rs[|rs| - 1];
    } else {
      r := NodesOfOwner(rs[..|rs| - 1], n);
    }
  }

  lemma SamePortal(ps: seq<Portal>, a: Portal, b: Portal)
    requires NoDup(PortalIds(ps)) && a in ps && b in ps && a.id == b.id
    ensures a == b
  {
    var i :| 0 <= i < |ps| && ps[i] == a;
    var j :| 0 <= j < |ps| && ps[j] == b;
    assert PortalIds(ps)[i] == PortalIds(ps)[j];
  }

  lemma SameRegion(rs: seq<Region>, r: Region, q: Region)
    requires NoDup(RegionIds(rs)) && r in rs && q in rs && r.id == q.id
    ensures r == q
  {
    var i :| 0 <= i < |rs| && rs[i] == r;
    var j :| 0 <= j < |rs| && rs[j] == q;
    assert RegionIds(rs)[i] == RegionIds(rs)[j];
  }

  lemma {:induction false} SameOwner(rs: seq<Region>, r: Region, n: Node, q: Region, m: Node)
    requires NoDup(NodeIds(NodesOf(rs))) && r in rs && n in r.nodes && q in rs && m in q.nodes && n.id == m.id
    ensures r == q && n == m
  {
    var front, last := rs[..|rs| - 1], rs[|rs| - 1];
    var a, b := NodeIds(NodesOf(front)), NodeIds(last.nodes);
    assert NodeIds(NodesOf(rs)) == a + b;
    NoDupConcat(a, b);
    if n in last.nodes {
      var i :| 0 <= i < |last.nodes| && last.nodes[i] == n;
      assert b[i] == n.id;
    }
    if m in last.nodes {
      var j :| 0 <= j < |last.nodes| && last.nodes[j] == m;
      assert b[j] == m.id;
    }
    if r in front { NodeIdKnown(front, r, n); }
    if q in front { NodeIdKnown(front, q, m); }
    if r in front && q in front {
      SameOwner(front, r, n, q, m);
    }
  }

  /** A node id belongs to a node of some region. */
  lemma NodeIdOwner(rs: seq<Region>, id: string) returns (r: Region, n: Node)
    requires id in NodeIds(NodesOf(rs))
    ensures r in rs && n in r.nodes && n.id == id
  {
    var k :| 0 <= k < |NodesOf(rs)| && NodeIds(NodesOf(rs))[k] == id;
    n := NodesOf(rs)[k];
    r := NodesOfOwner(rs, n);
  }

  lemma NodeIdKnown(rs: seq<Region>, r: Region, n: Node)
    requires r in rs && n in r.nodes
    ensures n.id in NodeIds(NodesOf(rs))
  {
    NodesOfContains(rs, r, n);
    var k :| 0 <= k < |NodesOf(rs)| && NodesOf(rs)[k] == n;
    assert NodeIds(NodesOf(rs))[k] == n.id;
  }

  function RegionIds(rs: seq<Region>): (ids: seq<string>)
    ensures |ids| == |rs| && forall i :: 0 <= i < |rs| ==> ids[i] == rs[i].id
  {
    seq(|rs|, i requires 0 <= i < |rs| => rs[i].id)
  }

  function NodeIds(ns: seq<Node>): (ids: seq<string>)
    ensures |ids| == |ns| && forall i :: 0 <= i < |ns| ==> ids[i] == ns[i].id
  {
    seq(|ns|, i requires 0 <= i < |ns| => ns[i].id)
  }

  function Usernames(us: seq<User>): (ids: seq<string>)
    ensures |ids| == |us| && forall i :: 0 <= i < |us| ==> ids[i] == us[i].username
  {
    seq(|us|, i requires 0 <= i < |us| => us[i].username)
  }

  function GroupIds(gs: seq<Group>): (ids: seq<string>)
    ensures |ids| == |gs| && forall i :: 0 <= i < |gs| ==> ids[i] == gs[i].id
  {
    seq(|gs|, i requires 0 <= i < |gs| => gs[i].id)
  }

  function PortalIds(ps: seq<Portal>): (ids: seq<string>)
    ensures |ids| == |ps| && forall i :: 0 <= i < |ps| ==> ids[i] == ps[i].id
  {
    seq(|ps|, i requires 0 <= i < |ps| => ps[i].id)
  }

  /** What field validation already guarantees: identifier charsets and matcher presence. */
  ghost predicate FieldsValid(c: Config) {
    && IsDnsName(c.namespace)
    && (forall u :: u in c.users ==> IsIdent(u.username) && forall g :: g in u.guests ==> IsIdent(g))
    && (forall p :: p in c.portals ==>
          && IsIdent(p.id)
          && p.users != [] && (forall u :: u in p.users ==> IsIdent(u))
          && (p.domains != [] || p.ips != [])
          && forall e :: e in p.publish ==> e.network != {})
    && (forall r :: r in c.regions ==> IsIdent(r.id) && forall n :: n in r.nodes ==> IsIdent(n.id))
    && (forall r :: r in c.hubRoutes ==>
          r.domains != [] || r.ips != [] || r.users != [] || r.proxyUsers != [])
  }
}
