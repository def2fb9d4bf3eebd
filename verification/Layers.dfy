/** Node settings come from the node first, then from its region, then from the role's defaults. */
module Layers {
  import opened Base
  import opened Schema
  import opened Resolve

  /** `v` is what the first layer that says anything says. */
  ghost predicate TakenFrom<T>(layers: seq<Option<T>>, v: Option<T>) {
    if forall i :: 0 <= i < |layers| ==> layers[i].None? then v.None?
    else exists i :: 0 <= i < |layers| && layers[i].Some? && v == layers[i] && forall j :: 0 <= j < i ==> layers[j].None?
  }

  lemma Two<T>(a: Option<T>, b: Option<T>)
    ensures TakenFrom([a, b], Or(a, b))
  {
    var layers := [a, b];
    assert layers[0] == a && layers[1] == b;
  }

  lemma Three<T>(a: Option<T>, b: Option<T>, c: Option<T>)
    ensures TakenFrom([a, b, c], Or(a, Or(b, c)))
  {
    var layers := [a, b, c];
    assert layers[0] == a && layers[1] == b && layers[2] == c;
  }

  // Hysteria --------------------------------------------------------------------------------

  const SILENT := HysteriaOverride(None, None, None, None, None, None, None, None, None, None)

  function Said(o: Option<HysteriaOverride>): HysteriaOverride { if o.Some? then o.value else SILENT }

  /** What the region says of hysteria: only exit regions do. */
  function RegionSays(r: Region): HysteriaOverride { if r.ExitRegion? then Said(r.hysteria) else SILENT }

  /** The role's defaults, else port 443, BBR and nothing else. */
  function DefaultSays(r: Region, c: Config): HysteriaConfig {
    var d := if r.ExitRegion? then c.exitDefaults.hysteria else c.hubDefaults.hysteria;
    if d.Some? then d.value else HysteriaConfig(443, false, Bbr, None, None, None, None, None, None)
  }

  /** A hub node listens when the defaults do, unless it says otherwise; an exit node when anything asks for it. */
  lemma HysteriaListens(n: Node, r: Region, c: Config)
    ensures r.HubRegion? ==>
              (NodeHysteria(n, r, c).Some? <==>
               if n.hysteria.Some? then n.hysteria.value.enabled != Some(false) else c.hubDefaults.hysteria.Some?)
    ensures r.ExitRegion? ==>
              (NodeHysteria(n, r, c).Some? <==> n.hysteria.Some? || r.hysteria.Some? || r.protocol == Some(HysteriaLink))
  {
  }

  lemma HysteriaLayers(n: Node, r: Region, c: Config)
    requires NodeHysteria(n, r, c).Some?
    ensures var h, a, b, d := NodeHysteria(n, r, c).value, Said(n.hysteria), RegionSays(r), DefaultSays(r, c);
            && TakenFrom([a.port, b.port, Some(d.port)], Some(h.port))
            && TakenFrom([a.obfs, b.obfs, Some(d.obfs)], Some(h.obfs))
            && TakenFrom([a.congestion, b.congestion, Some(d.congestion)], Some(h.congestion))
            && TakenFrom([a.up, b.up, d.up], h.up) && TakenFrom([a.down, b.down, d.down], h.down)
            && TakenFrom([a.sni, b.sni, d.sni], h.sni) && TakenFrom([a.masquerade, b.masquerade, d.masquerade], h.masquerade)
            && TakenFrom([a.keyType, b.keyType, d.keyType], h.keyType)
            && TakenFrom([a.certificate, b.certificate, d.certificate], h.certificate)
  {
    var h, a, b, d := NodeHysteria(n, r, c).value, Said(n.hysteria), RegionSays(r), DefaultSays(r, c);
    assert h == OverlayHysteria(OverlayHysteria(d, Some(b)), Some(a));
    Three(a.port, b.port, Some(d.port));
    Three(a.obfs, b.obfs, Some(d.obfs));
    Three(a.congestion, b.congestion, Some(d.congestion));
    Three(a.up, b.up, d.up);
    Three(a.down, b.down, d.down);
    Three(a.sni, b.sni, d.sni);
    Three(a.masquerade, b.masquerade, d.masquerade);
    Three(a.keyType, b.keyType, d.keyType);
    Three(a.certificate, b.certificate, d.certificate);
  }

  // XHTTP -----------------------------------------------------------------------------------

  function Path(o: Option<XhttpOverride>): Option<string> { if o.Some? then o.value.path else None }
  function Hosted(o: Option<XhttpOverride>): Option<string> { if o.Some? then o.value.host else None }

  /** The role's default path; its default host, unless the region serves the other kind of security. */
  function DefaultPath(r: Region, c: Config): Option<string> {
    var d := if r.ExitRegion? then c.exitDefaults.xhttp else c.hubDefaults.xhttp;
    if d.Some? then Some(d.value.path) else None
  }

  function DefaultHost(r: Region, c: Config): Option<string> {
    var d := if r.ExitRegion? then c.exitDefaults.xhttp else c.hubDefaults.xhttp;
    if d.None? || (r.HubRegion? && RegionTls(r, c.hubDefaults).Ok? && RegionTls(r, c.hubDefaults).value.None? != c.hubDefaults.tls.None?)
    then None else d.value.host
  }

  lemma XhttpLayers(n: Node, r: Region, c: Config)
    requires NodeXhttp(n, r, c).Ok?
    ensures var x := NodeXhttp(n, r, c).value;
            && TakenFrom([Path(n.xhttp), Path(r.xhttp), DefaultPath(r, c)], Some(x.path))
            && TakenFrom([Hosted(n.xhttp), Hosted(r.xhttp), DefaultHost(r, c)], x.host)
  {
    Three(Path(n.xhttp), Path(r.xhttp), DefaultPath(r, c));
    Three(Hosted(n.xhttp), Hosted(r.xhttp), DefaultHost(r, c));
  }

  /** It fails exactly without a path, or on a region whose certificate is missing. */
  lemma XhttpResolves(n: Node, r: Region, c: Config)
    requires r.HubRegion? ==> RegionTls(r, c.hubDefaults).Ok?
    ensures NodeXhttp(n, r, c).Err? <==> Path(n.xhttp).None? && Path(r.xhttp).None? && DefaultPath(r, c).None?
  {
  }

  // Keys, metrics and the hub's other listeners ---------------------------------------------

  function KeysOf(n: Node): KeysOverride { if n.keys.Some? then n.keys.value else KeysOverride(None, None, None, None, None) }

  function MetricsSaid(o: Option<MetricsOverride>): MetricsOverride { if o.Some? then o.value else MetricsOverride(None, None) }

  /** An empty mode counts as unsaid. */
  lemma KeysLayers(n: Node, r: Region, c: Config)
    ensures var k, a, d := NodeKeysConfig(n, r, c), KeysOf(n), if r.ExitRegion? then c.exitDefaults.keys else c.hubDefaults.keys;
            && TakenFrom([a.enabled, Some(d.enabled)], Some(k.enabled))
            && TakenFrom([if a.mode == Some("") then None else a.mode, Some(d.mode)], Some(k.mode))
            && TakenFrom([a.sessionTime, Some(d.sessionTime)], Some(k.sessionTime))
            && TakenFrom([a.auth, Some(d.auth)], Some(k.auth)) && TakenFrom([a.padding, d.padding], k.padding)
  {
    var k, a, d := NodeKeysConfig(n, r, c), KeysOf(n), if r.ExitRegion? then c.exitDefaults.keys else c.hubDefaults.keys;
    Two(a.enabled, Some(d.enabled));
    Two(if a.mode == Some("") then None else a.mode, Some(d.mode));
    Two(a.sessionTime, Some(d.sessionTime));
    Two(a.auth, Some(d.auth));
    Two(a.padding, d.padding);
  }

  lemma MetricsLayers(n: Node, r: Region, c: Config)
    ensures var m, a := NodeMetrics(n, r, c), MetricsSaid(n.metrics);
            var b := MetricsSaid(if r.ExitRegion? then c.exitDefaults.metrics else c.hubDefaults.metrics);
            && TakenFrom([a.enabled, b.enabled, Some(c.metrics.enabled)], Some(m.enabled))
            && TakenFrom([a.port, b.port, Some(c.metrics.port)], Some(m.port))
  {
    var a, b := MetricsSaid(n.metrics), MetricsSaid(if r.ExitRegion? then c.exitDefaults.metrics else c.hubDefaults.metrics);
    Three(a.enabled, b.enabled, Some(c.metrics.enabled));
    Three(a.port, b.port, Some(c.metrics.port));
  }

  lemma ListenerLayers(n: Node, r: Region, c: Config)
    ensures var d := c.hubDefaults;
            && TakenFrom([n.proxyInbound, Some(d.proxyInbound)], Some(ProxyInbound(n, d)))
            && TakenFrom([n.xdns, d.xdns], NodeXdns(n, d))
            && TakenFrom([n.haproxy, Some(if r.ExitRegion? then c.exitDefaults.haproxy else d.haproxy)], Some(NodeHaproxy(n, r, c)))
  {
    var d := c.hubDefaults;
    Two(n.proxyInbound, Some(d.proxyInbound));
    Two(n.xdns, d.xdns);
    Two(n.haproxy, Some(if r.ExitRegion? then c.exitDefaults.haproxy else d.haproxy));
  }

  /** A node's own Reality settings, else on hubs the region's, else the defaults'. */
  lemma RealityLayers(n: Node, r: Region, d: HubDefaults)
    ensures var v := NodeReality(n, r, d);
            TakenFrom(if r.HubRegion? then [n.reality, r.reality, d.reality] else [n.reality], if v.Ok? then Some(v.value) else None)
  {
    if r.HubRegion? {
      Three(n.reality, r.reality, d.reality);
    } else {
      assert [n.reality][0] == n.reality;
    }
  }

  /** A region with Reality serves no certificate; otherwise its own one comes before the defaults'. */
  lemma TlsLayers(r: Region, d: HubDefaults)
    requires r.HubRegion? && RegionTls(r, d).Ok?
    ensures r.reality.Some? ==> RegionTls(r, d).value.None?
    ensures r.reality.None? ==> TakenFrom([if r.tls.Some? then r.tls.value.certificate else None, d.tls], RegionTls(r, d).value)
  {
    Two(if r.tls.Some? then r.tls.value.certificate else None, d.tls);
  }

  function WireSays(n: Node): WireguardOverride {
    if n.wireguard.Some? then n.wireguard.value else WireguardOverride(None, None, None, None, None, None)
  }

  /** Port 443, MTU 1420 and no keepalive where nothing is said. */
  lemma WireguardLayers(n: Node, d: HubDefaults)
    requires NodeWireguard(n, d).Ok? && NodeWireguard(n, d).value.Some?
    ensures var w, a, b := NodeWireguard(n, d).value.value, WireSays(n), d.wireguard;
            && TakenFrom([a.port, Some(if b.Some? then b.value.port else 443)], Some(w.port))
            && TakenFrom([a.mtu, Some(if b.Some? then b.value.mtu else 1420)], Some(w.mtu))
            && TakenFrom([a.subnet, if b.Some? then Some(b.value.subnet) else None], Some(w.subnet))
            && TakenFrom([a.keepalive, Some(if b.Some? then b.value.keepalive else 0)], Some(w.keepalive))
            && TakenFrom([a.kernelMode, Some(b.Some? && b.value.kernelMode)], Some(w.kernelMode))
  {
    var a, b := WireSays(n), d.wireguard;
    Two(a.port, Some(if b.Some? then b.value.port else 443));
    Two(a.mtu, Some(if b.Some? then b.value.mtu else 1420));
    Two(a.subnet, if b.Some? then Some(b.value.subnet) else None);
    Two(a.keepalive, Some(if b.Some? then b.value.keepalive else 0));
    Two(a.kernelMode, Some(b.Some? && b.value.kernelMode));
  }
}
