/** Overlay resolution of node settings: node over region over role defaults. */
module Resolve {
  import opened Base
  import opened Schema

  datatype Problem =
    | TlsCertificateMissing(region: string)
    | XhttpPathMissing(node: string)
    | SubnetMissing(node: string)
    | RealityMissing(node: string)

  /** One overlaid field: the override's value when it has one. */
  function Pick<T>(override: Option<T>, base: T): T {
    if override.Some? then override.value else base
  }

  // Hub listeners ---------------------------------------------------------------------------

  function ProxyInbound(n: Node, d: HubDefaults): bool { Pick(n.proxyInbound, d.proxyInbound) }

  function NodeXdns(n: Node, d: HubDefaults): Option<XdnsConfig> { Or(n.xdns, d.xdns) }

  /** Wireguard port of a hub node, the short resolution the validator uses. */
  function WireguardPort(n: Node, d: HubDefaults): Option<nat> {
    var base := d.wireguard;
    if n.wireguard.None? then
      if base.Some? then Some(base.value.port) else None
    else if n.wireguard.value.enabled == Some(false) then None
    else Or(n.wireguard.value.port, Some(if base.Some? then base.value.port else 443))
  }

  /** Wireguard config of a hub node, the full resolution the inbound builder uses. */
  function NodeWireguard(n: Node, d: HubDefaults): Result<Option<WireguardConfig>, Problem> {
    var base := d.wireguard;
    var port := WireguardPort(n, d);
    if port.None? then Ok(None)
    else if n.wireguard.None? then Ok(base)
    else
      var o := n.wireguard.value;
      var subnet := Or(o.subnet, if base.Some? then Some(base.value.subnet) else None);
      if subnet.None? then Err(SubnetMissing(n.id))
      else Ok(Some(WireguardConfig(
        port.value,
        Pick(o.mtu, if base.Some? then base.value.mtu else 1420),
        subnet.value,
        Pick(o.keepalive, if base.Some? then base.value.keepalive else 0),
        Pick(o.kernelMode, base.Some? && base.value.kernelMode))))
  }

  /** The two resolutions agree on whether wireguard listens and on which port. */
  lemma WireguardPortAgrees(n: Node, d: HubDefaults)
    ensures var r := NodeWireguard(n, d);
            r.Ok? ==> WireguardPort(n, d) == if r.value.Some? then Some(r.value.value.port) else None
    ensures NodeWireguard(n, d).Err? <==>
            && n.wireguard.Some? && n.wireguard.value.enabled != Some(false)
            && n.wireguard.value.subnet.None? && d.wireguard.None?
  {
    var o := n.wireguard;
    if o.Some? && o.value.enabled != Some(false) {
      assert WireguardPort(n, d).Some?;
    }
  }

  // Direct inbound --------------------------------------------------------------------------

  /** Certificate of a hub region's direct inbounds; `None` when the region serves Reality. */
  function RegionTls(r: Region, d: HubDefaults): Result<Option<string>, Problem>
    requires r.HubRegion?
  {
    if r.reality.Some? then Ok(None)
    else if r.tls.None? then Ok(d.tls)
    else if d.tls.None? && r.tls.value.certificate.None? then Err(TlsCertificateMissing(r.id))
    else Ok(Or(r.tls.value.certificate, d.tls))
  }

  function OverlayXhttp(base: XhttpOverride, over: Option<XhttpOverride>): XhttpOverride {
    if over.None? then base
    else XhttpOverride(Or(over.value.path, base.path), Or(over.value.host, base.host))
  }

  function NodeXhttp(n: Node, r: Region, c: Config): Result<XhttpConfig, Problem> {
    var given := if r.ExitRegion? then c.exitDefaults.xhttp else c.hubDefaults.xhttp;
    var tls := if r.HubRegion? && given.Some? then RegionTls(r, c.hubDefaults) else Ok(None);
    if tls.Err? then Err(tls.error) else
      // A default host names the defaults' own security, so the other kind derives its own
      var otherKind := r.HubRegion? && given.Some? && tls.value.None? != c.hubDefaults.tls.None?;
      var base := if given.None? then XhttpOverride(None, None)
                  else XhttpOverride(Some(given.value.path), if otherKind then None else given.value.host);
      var x := OverlayXhttp(OverlayXhttp(base, r.xhttp), n.xhttp);
      if x.path.None? then Err(XhttpPathMissing(n.id)) else Ok(XhttpConfig(x.path.value, x.host))
  }

  function NodeReality(n: Node, r: Region, d: HubDefaults): Result<Reality, Problem> {
    var dr := if n.reality.Some? then n.reality
              else if r.HubRegion? then Or(r.reality, d.reality)
              else None;
    if dr.None? then Err(RealityMissing(n.id)) else Ok(dr.value)
  }

  // Hysteria --------------------------------------------------------------------------------

  const DefaultHysteria := HysteriaConfig(443, false, Bbr, None, None, None, None, None, None)

  function OverlayHysteria(base: HysteriaConfig, over: Option<HysteriaOverride>): HysteriaConfig {
    if over.None? then base else
      var o := over.value;
      HysteriaConfig(
        Pick(o.port, base.port), Pick(o.obfs, base.obfs), Pick(o.congestion, base.congestion),
        Or(o.up, base.up), Or(o.down, base.down), Or(o.sni, base.sni),
        Or(o.masquerade, base.masquerade), Or(o.keyType, base.keyType), Or(o.certificate, base.certificate))
  }

  function HysteriaOverlay(n: Node, r: Region, c: Config): HysteriaConfig {
    if r.ExitRegion? then
      OverlayHysteria(OverlayHysteria(Pick(c.exitDefaults.hysteria, DefaultHysteria), r.hysteria), n.hysteria)
    else
      OverlayHysteria(Pick(c.hubDefaults.hysteria, DefaultHysteria), n.hysteria)
  }

  /** Hysteria listener of a node, `None` when it has none. */
  function NodeHysteria(n: Node, r: Region, c: Config): Option<HysteriaConfig> {
    if r.ExitRegion? then
      if r.hysteria.Some? || n.hysteria.Some? || Pick(r.protocol, Vless) == HysteriaLink
      then Some(HysteriaOverlay(n, r, c)) else None
    else if n.hysteria.None? then c.hubDefaults.hysteria
    else if n.hysteria.value.enabled == Some(false) then None
    else Some(HysteriaOverlay(n, r, c))
  }

  // Remaining settings ----------------------------------------------------------------------

  function OverlayMetrics(base: MetricsConfig, over: Option<MetricsOverride>): MetricsConfig {
    if over.None? then base
    else MetricsConfig(Pick(over.value.enabled, base.enabled), Pick(over.value.port, base.port))
  }

  function NodeMetrics(n: Node, r: Region, c: Config): MetricsConfig {
    var role := if r.ExitRegion? then c.exitDefaults.metrics else c.hubDefaults.metrics;
    OverlayMetrics(OverlayMetrics(c.metrics, role), n.metrics)
  }

  function NodeHaproxy(n: Node, r: Region, c: Config): bool {
    Pick(n.haproxy, if r.ExitRegion? then c.exitDefaults.haproxy else c.hubDefaults.haproxy)
  }

  function NodeKeysConfig(n: Node, r: Region, c: Config): KeysConfig {
    var base := if r.ExitRegion? then c.exitDefaults.keys else c.hubDefaults.keys;
    if n.keys.None? then base else
      var o := n.keys.value;
      KeysConfig(
        Pick(o.enabled, base.enabled),
        if o.mode.Some? && o.mode.value != "" then o.mode.value else base.mode,
        Pick(o.sessionTime, base.sessionTime),
        Pick(o.auth, base.auth),
        Or(o.padding, base.padding))
  }
}
