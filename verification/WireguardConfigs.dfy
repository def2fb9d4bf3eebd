/** WireGuard client configs, against the inbound that must accept them. */
module WireguardConfigs {
  import opened Base
  import opened Names
  import opened Schema
  import opened Resolve
  import opened Identity
  import opened Inbounds
  import opened WireguardPeers
  import opened Shares
  import opened Admission
  import opened ShareRequests

  /** Subnet parsing and key derivation, left uninterpreted: `pair` gives a private and a public key. */
  datatype Wire = Wire(subnet: string -> Subnet, pair: (string, Uuid, string) -> (string, string), std: string -> string)

  datatype Setting = Setting(c: Config, ns: Namespace, w: Wire, keys: map<string, NodeKeys>)

  /** Every subnet a validated config names parses. */
  ghost predicate Parses(x: Setting) { forall s :: x.w.subnet(s).Valid() }

  // The inbound -----------------------------------------------------------------------------

  datatype PeerEntry = PeerEntry(email: string, publicKey: string, address: nat, keepalive: nat)

  datatype WireguardInbound = WireguardInbound(port: nat, mtu: nat, secretKey: string, peers: seq<PeerEntry>)

  function Entry(x: Setting, keys: NodeKeys, keepalive: nat, p: Peer): PeerEntry {
    PeerEntry(p.email, x.w.pair(keys.privateKey, p.uuid, x.ns.name).1, p.address, keepalive)
  }

  function Entries(x: Setting, keys: NodeKeys, keepalive: nat, peers: seq<Peer>): (out: seq<PeerEntry>)
    ensures |out| == |peers| && forall i :: 0 <= i < |peers| ==> out[i] == Entry(x, keys, keepalive, peers[i])
  {
    seq(|peers|, i requires 0 <= i < |peers| => Entry(x, keys, keepalive, peers[i]))
  }

  /** The listener of a hub node whose subnet holds all peers; `None` without peers. */
  function InboundOf(x: Setting, wg: WireguardConfig, keys: NodeKeys): Option<WireguardInbound>
    requires Parses(x)
  {
    var peers := Allocated(x.ns, x.w.subnet(wg.subnet), Requests(x.c.users));
    if peers == [] then None
    else Some(WireguardInbound(wg.port, wg.mtu, x.w.std(keys.privateKey), Entries(x, keys, wg.keepalive, peers)))
  }

  // Client configs --------------------------------------------------------------------------

  datatype ClientConf = ClientConf(
    node: string, privateKey: string, address: nat, mtu: nat, serverKey: string, host: string, port: nat, keepalive: nat)

  function ConfOf(x: Setting, n: Node, wg: WireguardConfig, keys: NodeKeys, peer: Peer): ClientConf {
    ClientConf(n.id, x.w.pair(keys.privateKey, peer.uuid, x.ns.name).0, peer.address, wg.mtu, x.w.std(keys.publicKey),
               n.hostname, wg.port, wg.keepalive)
  }

  function PeersOn(x: Setting, wg: WireguardConfig): seq<Peer> {
    if x.w.subnet(wg.subnet).Valid() then Allocated(x.ns, x.w.subnet(wg.subnet), Requests(x.c.users)) else []
  }

  /** Wireguard settings of a node that listens and has keys. */
  function ListeningAt(x: Setting, n: Node): Option<WireguardConfig> {
    var wg := NodeWireguard(n, x.c.hubDefaults);
    if wg.Ok? && wg.value.Some? && n.id in x.keys then wg.value else None
  }

  /** The config of an identity, by email, for one hub node. */
  function ConfAt(x: Setting, id: Id): ((Region, Node)) -> seq<ClientConf> {
    (p: (Region, Node)) =>
      var wg := ListeningAt(x, p.1);
      if wg.Some? && id.Email(x.ns) in ByEmail(PeersOn(x, wg.value))
      then [ConfOf(x, p.1, wg.value, x.keys[p.1.id], ByEmail(PeersOn(x, wg.value))[id.Email(x.ns)])]
      else []
  }

  /** The node's settings resolve; where it listens, its subnet holds all peers and its keys are there. */
  ghost predicate Ready(x: Setting, n: Node)
    requires Parses(x)
  {
    var wg := NodeWireguard(n, x.c.hubDefaults);
    wg.Ok? && (wg.value.Some? ==> n.id in x.keys && |Requests(x.c.users)| <= x.w.subnet(wg.value.value.subnet).Capacity())
  }

  lemma {:induction false} EmailIndexed(peers: seq<Peer>, i: nat)
    requires i < |peers|
    ensures peers[i].email in ByEmail(peers)
  {
    if i < |peers| - 1 { EmailIndexed(peers[..|peers| - 1], i); }
  }

  /** Whoever passes the gate and resolves is among those that get a peer. */
  lemma RequestedIdentity(users: seq<User>, u: User, guest: Option<string>, server: bool)
    requires u in users && Access.Wireguard in u.access && ResolveIdentity(u, guest, server).Ok?
    ensures ResolveIdentity(u, guest, server).value in Requests(users)
  {
    AccessIdMember(users, Access.Wireguard, true, ResolveIdentity(u, guest, server).value);
  }

  lemma RequestIndexed(x: Setting, wg: WireguardConfig, id: Id)
    requires Parses(x) && id in Requests(x.c.users)
    ensures id.Email(x.ns) in ByEmail(PeersOn(x, wg))
  {
    var i :| 0 <= i < |Requests(x.c.users)| && Requests(x.c.users)[i] == id;
    EmailIndexed(PeersOn(x, wg), i);
  }

  /** A listening node with keys has exactly one config for every identity that gets a peer. */
  lemma ConfThere(x: Setting, id: Id, p: (Region, Node))
    requires Parses(x) && id in Requests(x.c.users)
    ensures |ConfAt(x, id)(p)| == if ListeningAt(x, p.1).Some? then 1 else 0
  {
    if ListeningAt(x, p.1).Some? { RequestIndexed(x, ListeningAt(x, p.1).value, id); }
  }

  /** One node's config, or why there is none. */
  method NodeConf(x: Setting, id: Id, p: (Region, Node)) returns (out: Result<seq<ClientConf>, ShareError>)
    requires Parses(x) && id in Requests(x.c.users)
    ensures out.Ok? <==> Ready(x, p.1)
    ensures out.Ok? ==> out.value == ConfAt(x, id)(p)
  {
    var wg := NodeWireguard(p.1, x.c.hubDefaults);
    if wg.Err? { return Err(Broken(wg.error)); }
    if wg.value.None? { return Ok([]); }
    var peer, ok := LookUp(x.c.users, x.ns, x.w.subnet(wg.value.value.subnet), id.Email(x.ns));
    if !ok { return Err(SubnetFull(p.1.id)); }
    RequestIndexed(x, wg.value.value, id);
    if peer.None? { return Ok([]); }
    if p.1.id !in x.keys { return Err(KeysMissing(p.1.id)); }
    return Ok([ConfOf(x, p.1, wg.value.value, x.keys[p.1.id], peer.value)]);
  }

  /** Who asks, or why the request is refused before any node is looked at. */
  function Asked(x: Setting, username: string, guest: Option<string>, server: bool): (out: Result<Id, ShareError>)
    ensures out.Ok? ==> !out.value.OfPortal? && out.value.u.username == username && out.value in Requests(x.c.users)
  {
    var u := FindUser(x.c.users, username);
    if u.None? then Err(UnknownUser)
    else if Access.Wireguard !in u.value.access then Err(NoAccess)
    else
      var id := ResolveIdentity(u.value, guest, server);
      if id.Ok? then RequestedIdentity(x.c.users, u.value, guest, server); id else id
  }

  /** What a user may ask for: the access, and an identity of the user's own. */
  ghost predicate MayAskFor(u: User, guest: Option<string>, server: bool) {
    && Access.Wireguard in u.access && (server ==> guest.None? && Access.Server in u.access)
    && (guest.Some? ==> guest.value in u.guests)
  }

  /** With distinct usernames a request resolves exactly when its user is there and may ask for it. */
  lemma AskedIff(x: Setting, username: string, guest: Option<string>, server: bool)
    requires NoDup(Usernames(x.c.users))
    ensures Asked(x, username, guest, server).Ok? <==>
            exists u :: u in x.c.users && u.username == username && MayAskFor(u, guest, server)
  {
    var found := FindUser(x.c.users, username);
    if found.Some? {
      forall u | u in x.c.users && u.username == username ensures u == found.value { SameUser(x.c, u, found.value); }
    }
  }

  /**
   * Succeeds exactly when the request resolves, every covered node is ready and one of them listens;
   * then there is one config per listening node, in order.
   */
  method BuildWireguardConfigs(x: Setting, username: string, hub: Option<string>, guest: Option<string>, server: bool)
    returns (out: Result<seq<ClientConf>, ShareError>)
    requires Parses(x)
    ensures out.Ok? <==>
            && Asked(x, username, guest, server).Ok?
            && (forall p :: p in HubNodePairs(x.c, hub) ==> Ready(x, p.1))
            && exists p :: p in HubNodePairs(x.c, hub) && ListeningAt(x, p.1).Some?
    ensures out.Ok? ==> out.value == FlatMap(ConfAt(x, Asked(x, username, guest, server).value), HubNodePairs(x.c, hub))
  {
    var asked := Asked(x, username, guest, server);
    if asked.Err? { return Err(asked.error); }
    var id, pairs := asked.value, HubNodePairs(x.c, hub);
    if hub.Some? && pairs == [] { return Err(NotAHubNode); }
    var confs: seq<ClientConf> := [];
    for i := 0 to |pairs|
      invariant confs == FlatMap(ConfAt(x, id), pairs[..i])
      invariant forall p :: p in pairs[..i] ==> Ready(x, p.1)
    {
      FlatMapTake(ConfAt(x, id), pairs, i);
      var one := NodeConf(x, id, pairs[i]);
      if one.Err? { return Err(one.error); }
      confs := confs + one.value;
    }
    assert pairs[..|pairs|] == pairs;
    SomeConf(x, id, pairs);
    out := if confs == [] then Err(NoListener) else Ok(confs);
  }

  lemma SomeConf(x: Setting, id: Id, pairs: seq<(Region, Node)>)
    requires Parses(x) && id in Requests(x.c.users)
    ensures FlatMap(ConfAt(x, id), pairs) != [] <==> exists p :: p in pairs && ListeningAt(x, p.1).Some?
  {
    var confs := FlatMap(ConfAt(x, id), pairs);
    if confs != [] {
      FlatMapMember(ConfAt(x, id), pairs, confs[0]);
      var p :| p in pairs && confs[0] in ConfAt(x, id)(p);
    }
    if p :| p in pairs && ListeningAt(x, p.1).Some? {
      ConfThere(x, id, p);
      FlatMapMember(ConfAt(x, id), pairs, ConfAt(x, id)(p)[0]);
    }
  }

  // What the inbound accepts ----------------------------------------------------------------

  /** The config dials the node's listener, and entry `i` alone is for its key pair and address. */
  ghost predicate EntryAdmits(x: Setting, n: Node, wg: WireguardConfig, keys: NodeKeys, at: WireguardInbound, i: nat, uuid: Uuid, conf: ClientConf) {
    && i < |at.peers| && at.port == wg.port && at.mtu == wg.mtu && at.peers[i].keepalive == wg.keepalive
    && conf.node == n.id && conf.host == n.hostname && conf.port == at.port && conf.mtu == at.mtu
    && conf.serverKey == x.w.std(keys.publicKey) && at.secretKey == x.w.std(keys.privateKey)
    && conf.privateKey == x.w.pair(keys.privateKey, uuid, x.ns.name).0
    && at.peers[i].publicKey == x.w.pair(keys.privateKey, uuid, x.ns.name).1
    && at.peers[i].address == conf.address && at.peers[i].keepalive == conf.keepalive
    && forall j :: 0 <= j < |at.peers| && j != i ==> at.peers[j].address != conf.address
  }

  /** Every config is admitted: the node's inbound lists its public key under its address, and nobody else there. */
  lemma ConfAdmitted(x: Setting, id: Id, p: (Region, Node), conf: ClientConf) returns (at: WireguardInbound, i: nat, peer: Peer)
    requires Parses(x) && Ready(x, p.1) && conf in ConfAt(x, id)(p)
    ensures p.1.id in x.keys && ListeningAt(x, p.1).Some?
    ensures InboundOf(x, ListeningAt(x, p.1).value, x.keys[p.1.id]) == Some(at)
    ensures EntryAdmits(x, p.1, ListeningAt(x, p.1).value, x.keys[p.1.id], at, i, peer.uuid, conf) && at.peers[i].email == id.Email(x.ns)
    ensures var found := ByEmail(PeersOn(x, ListeningAt(x, p.1).value)); id.Email(x.ns) in found && peer == found[id.Email(x.ns)]
  {
    var wg := ListeningAt(x, p.1).value;
    var peers := PeersOn(x, wg);
    ByEmailOnly(peers, id.Email(x.ns));
    peer := ByEmail(peers)[id.Email(x.ns)];
    var k: nat :| k < |peers| && peers[k] == peer;
    i := k;
    at := InboundOf(x, wg, x.keys[p.1.id]).value;
  }

  /** And with distinct emails it is the very identity's own key pair. */
  lemma ConfIsOwn(x: Setting, username: string, guest: Option<string>, server: bool, p: (Region, Node), conf: ClientConf)
    returns (at: WireguardInbound, i: nat)
    requires FieldsValid(x.c) && NoDup(Usernames(x.c.users)) && NoDup(PortalIds(x.c.portals)) && x.ns.name == x.c.namespace
    requires NoDup(Uuids(x.ns, HubIdentities(x.c))) && NamespaceClear(x.c)
    requires Parses(x) && Ready(x, p.1) && Asked(x, username, guest, server).Ok?
    requires conf in ConfAt(x, Asked(x, username, guest, server).value)(p)
    ensures ListeningAt(x, p.1).Some? && InboundOf(x, ListeningAt(x, p.1).value, x.keys[p.1.id]) == Some(at)
    ensures EntryAdmits(x, p.1, ListeningAt(x, p.1).value, x.keys[p.1.id], at, i, Asked(x, username, guest, server).value.Uuid(x.ns), conf)
  {
    var id := Asked(x, username, guest, server).value;
    var peer;
    at, i, peer := ConfAdmitted(x, id, p, conf);
    LookupFindsOwnPeer(x.c, x.ns, x.w.subnet(ListeningAt(x, p.1).value.subnet), id);
  }
}
