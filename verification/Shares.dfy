/** Share URLs: which are emitted, and that every one dials a listener that admits it. */
module Shares {
  import opened Base
  import opened Names
  import opened Schema
  import opened Resolve
  import opened Acceptance
  import opened Identity
  import opened Inbounds

  datatype Url =
    | VlessUrl(uuid: Uuid, hostname: string, shortId: string, sni: string, path: string, xhttpHost: string,
               publicKey: string, encryption: string, flow: string)
    | HysteriaUrl(uuid: Uuid, hostname: string, port: nat, sni: string, pin: Option<string>, obfs: Option<string>)

  datatype CdnInbound = CdnInbound(clients: seq<Client>, host: string, path: string)

  datatype Listener =
    | DirectAt(inbound: Direct, keys: NodeKeys)
    | HysteriaAt(hysteria: HysteriaInbound)
    | CdnAt(cdn: CdnInbound, keys: NodeKeys)

  /** What is dialled to reach a node's direct inbound, from the node's own settings. */
  ghost predicate DialsDirect(c: Config, r: Region, n: Node, keys: NodeKeys, url: Url)
    requires r.HubRegion?
  {
    var x, tls, reality := NodeXhttp(n, r, c), RegionTls(r, c.hubDefaults), NodeReality(n, r, c.hubDefaults);
    && x.Ok? && tls.Ok? && url.VlessUrl? && url.hostname == n.hostname && url.path == x.value.path
    && url.encryption == keys.encryption
    && if tls.value.Some? then url.sni == n.hostname && url.xhttpHost == Pick(x.value.host, n.hostname)
       else
         && reality.Ok? && url.xhttpHost == Pick(x.value.host, reality.value.dest.host)
         && url.sni == (if reality.value.serverNames != [] then reality.value.serverNames[0] else reality.value.dest.host)
  }

  /** One emitted URL with the listener it was made for and the name it is labelled with. */
  datatype Share = Share(owner: string, region: Region, node: Node, at: Listener, url: Url)

  /** Everything one request for share URLs depends on. */
  datatype Env = Env(
    c: Config, ns: Namespace, derive: (HysteriaConfig, Reality, string, string) -> Endpoint,
    keys: map<string, NodeKeys>, u: User, id: Id, shortId: string)

  datatype ShareError =
    | KeysMissing(node: string) | Broken(problem: Problem) | NoServerAccess | UnknownGuest | Exclusive
    | NoAccess | NoListener | NoCdn | UnknownUser | UnknownGroup | NotAHubNode | SubnetFull(node: string)

  /** Both ends speak the vision flow, or neither does. */
  ghost predicate FlowsMeet(clients: seq<Client>, url: Url)
    requires url.VlessUrl?
  {
    forall cl :: cl in clients ==>
                   (cl.flow == "" && url.flow == "") || (cl.flow == "xtls-rprx-vision" && url.flow == "xtls-rprx-vision-udp443")
  }

  lemma ClientsMeet(ns: Namespace, keys: NodeKeys, ids: seq<Id>, url: Url, own: NodeKeys)
    requires url.VlessUrl? && url.flow == ClientFlow(own) && own.encryption == keys.encryption
    ensures FlowsMeet(Clients(ns, Flow(keys), ids), url)
  {
  }

  /** What a listener checks of a client dialing in. */
  ghost predicate Admits(at: Listener, url: Url) {
    match at
    case DirectAt(RealityInbound(clients, host, path, shortIds, _, serverNames, privateKey, _), keys) =>
      && url.VlessUrl? && ListsClient(clients, url.uuid)
      && url.shortId in shortIds && url.sni in serverNames
      && url.path == path && url.xhttpHost == host
      && url.publicKey == keys.publicKey && privateKey == keys.privateKey && url.encryption == keys.encryption
      && FlowsMeet(clients, url)
    case DirectAt(TlsInbound(clients, host, path, _), keys) =>
      && url.VlessUrl? && ListsClient(clients, url.uuid) && url.path == path && url.xhttpHost == host
      && url.encryption == keys.encryption && FlowsMeet(clients, url)
    case HysteriaAt(h) =>
      && url.HysteriaUrl? && ListsClient(h.users, url.uuid) && url.port == h.config.port
      && Endpoint(url.sni, url.pin, url.obfs) == h.endpoint
    case CdnAt(cdn, keys) =>
      && url.VlessUrl? && ListsClient(cdn.clients, url.uuid) && url.path == cdn.path && url.xhttpHost == cdn.host
      && url.encryption == keys.encryption && FlowsMeet(cdn.clients, url)
  }

  // Direct URLs -----------------------------------------------------------------------------

  predicate ServesTls(e: Env, r: Region)
    requires r.HubRegion?
  {
    var tls := RegionTls(r, e.c.hubDefaults);
    tls.Ok? && tls.value.Some?
  }

  /** Whether the region's direct inbound is one the user's access covers. */
  predicate Eligible(e: Env, r: Region)
    requires r.HubRegion?
  {
    if ServesTls(e, r) then Access.Tls in e.u.access else e.id.OfServer? || Access.Xhttp in e.u.access
  }

  function DirectUrl(e: Env, n: Node, inbound: Direct, keys: NodeKeys): Url {
    match inbound
    case TlsInbound(_, host, path, _) =>
      VlessUrl(e.id.Uuid(e.ns), n.hostname, "", n.hostname, path, host, "", keys.encryption, ClientFlow(keys))
    case RealityInbound(_, host, path, _, _, serverNames, _, _) =>
      VlessUrl(e.id.Uuid(e.ns), n.hostname, e.shortId, if serverNames == [] then "" else serverNames[0], path, host,
               keys.publicKey, keys.encryption, ClientFlow(keys))
  }

  /** The direct listener of a hub node, or why it cannot be built. */
  function DirectOf(e: Env, r: Region, n: Node): Result<Listener, ShareError>
    requires r.HubRegion?
  {
    if n.id !in e.keys then Err(KeysMissing(n.id))
    else
      var d := HubDirect(e.c, e.ns, r, n, e.keys[n.id]);
      if d.Err? then Err(Broken(d.error)) else Ok(DirectAt(d.value, e.keys[n.id]))
  }

  lemma DirectDials(e: Env, r: Region, n: Node, keys: NodeKeys, d: Direct)
    requires r.HubRegion? && HubDirect(e.c, e.ns, r, n, keys) == Ok(d)
    ensures DialsDirect(e.c, r, n, keys, DirectUrl(e, n, d, keys))
    ensures DirectUrl(e, n, d, keys).shortId == if RegionTls(r, e.c.hubDefaults).value.Some? then "" else e.shortId
  {
  }

  predicate IsReality(at: Listener) { at.DirectAt? && at.inbound.RealityInbound? }

  /** Reality listeners already given a URL in a region, in order. */
  function EmittedIn(shares: seq<Share>, region: string): seq<Listener> {
    if shares == [] then [] else
      var last := shares[|shares| - 1];
      EmittedIn(shares[..|shares| - 1], region)
      + (if last.region.id == region && IsReality(last.at) then [last.at] else [])
  }

  /** A node of the request: its direct listener and URL, or no listener when the user's access misses it. */
  datatype Slot = Slot(r: Region, n: Node, at: Option<Listener>, url: Url)

  /** One node: TLS URLs are per node; Reality nodes rendering the same listener share one. */
  function DirectStep(shares: seq<Share>, s: Slot): seq<Share> {
    if s.at.None? then shares
    else if !IsReality(s.at.value) then shares + [Share(s.n.id, s.r, s.n, s.at.value, s.url)]
    else if s.at.value in EmittedIn(shares, s.r.id) then shares
    else shares + [Share(if EmittedIn(shares, s.r.id) == [] then s.r.id else s.n.id, s.r, s.n, s.at.value, s.url)]
  }

  function DirectShares(slots: seq<Slot>): seq<Share> {
    if slots == [] then [] else DirectStep(DirectShares(slots[..|slots| - 1]), slots[|slots| - 1])
  }

  ghost predicate HubPairs(pairs: seq<(Region, Node)>) { forall p :: p in pairs ==> p.0.HubRegion? }

  const NO_URL := VlessUrl(Uuid(0), "", "", "", "", "", "", "", "")

  /** The slot of one node, or why its listener cannot be built. */
  function Attempt(e: Env, r: Region, n: Node): Result<Slot, ShareError>
    requires r.HubRegion?
  {
    if !Eligible(e, r) then Ok(Slot(r, n, None, NO_URL))
    else
      match DirectOf(e, r, n)
      case Err(problem) => Err(problem)
      case Ok(at) => Ok(Slot(r, n, Some(at), if at.DirectAt? then DirectUrl(e, n, at.inbound, at.keys) else NO_URL))
  }

  ghost function Attempts(e: Env, pairs: seq<(Region, Node)>): (out: seq<Result<Slot, ShareError>>)
    requires HubPairs(pairs)
    ensures |out| == |pairs|
  {
    if pairs == [] then [] else
      Attempts(e, pairs[..|pairs| - 1]) + [Attempt(e, pairs[|pairs| - 1].0, pairs[|pairs| - 1].1)]
  }

  lemma {:induction false} AttemptsAt(e: Env, pairs: seq<(Region, Node)>, i: nat)
    requires HubPairs(pairs) && i < |pairs|
    ensures Attempts(e, pairs)[i] == Attempt(e, pairs[i].0, pairs[i].1)
  {
    if i < |pairs| - 1 { AttemptsAt(e, pairs[..|pairs| - 1], i); }
  }

  ghost predicate AllOk(attempts: seq<Result<Slot, ShareError>>) {
    forall i :: 0 <= i < |attempts| ==> attempts[i].Ok?
  }

  ghost function SlotsOf(attempts: seq<Result<Slot, ShareError>>): (slots: seq<Slot>)
    requires AllOk(attempts)
    ensures |slots| == |attempts| && forall i :: 0 <= i < |slots| ==> slots[i] == attempts[i].value
  {
    seq(|attempts|, i requires 0 <= i < |attempts| => attempts[i].value)
  }

  ghost predicate Tracks(emitted: map<string, seq<Listener>>, shares: seq<Share>) {
    forall id :: (if id in emitted then emitted[id] else []) == EmittedIn(shares, id)
  }

  lemma EmittedSnoc(shares: seq<Share>, s: Share, id: string)
    ensures EmittedIn(shares + [s], id) ==
            EmittedIn(shares, id) + (if s.region.id == id && IsReality(s.at) then [s.at] else [])
  {
    assert (shares + [s])[..|shares|] == shares;
  }

  lemma TracksTls(emitted: map<string, seq<Listener>>, shares: seq<Share>, s: Share)
    requires Tracks(emitted, shares) && !IsReality(s.at)
    ensures Tracks(emitted, shares + [s])
  {
    forall id ensures EmittedIn(shares + [s], id) == EmittedIn(shares, id) { EmittedSnoc(shares, s, id); }
  }

  lemma TracksReality(emitted: map<string, seq<Listener>>, shares: seq<Share>, s: Share)
    requires Tracks(emitted, shares) && IsReality(s.at)
    ensures Tracks(emitted[s.region.id := EmittedIn(shares, s.region.id) + [s.at]], shares + [s])
  {
    var table := emitted[s.region.id := EmittedIn(shares, s.region.id) + [s.at]];
    forall id ensures (if id in table then table[id] else []) == EmittedIn(shares + [s], id) { EmittedSnoc(shares, s, id); }
  }

  /** One node of the loop, with the table of emitted listeners kept up to date. */
  method EmitDirect(shares: seq<Share>, emitted: map<string, seq<Listener>>, s: Slot)
    returns (out: seq<Share>, table: map<string, seq<Listener>>)
    requires Tracks(emitted, shares)
    ensures out == DirectStep(shares, s) && Tracks(table, out)
  {
    table := emitted;
    if s.at.None? { return shares, table; }
    var at := s.at.value;
    if !IsReality(at) {
      var share := Share(s.n.id, s.r, s.n, at, s.url);
      TracksTls(emitted, shares, share);
      return shares + [share], table;
    }
    var done := if s.r.id in emitted then emitted[s.r.id] else [];
    assert done == EmittedIn(shares, s.r.id);
    if at in done { return shares, table; }
    var share := Share(if done == [] then s.r.id else s.n.id, s.r, s.n, at, s.url);
    TracksReality(emitted, shares, share);
    table := table[s.r.id := done + [at]];
    out := shares + [share];
  }

  /** Fails exactly when some eligible node's listener cannot be built. */
  method DirectShareUrls(e: Env, pairs: seq<(Region, Node)>) returns (out: Result<seq<Share>, ShareError>)
    requires HubPairs(pairs)
    ensures out.Ok? <==> AllOk(Attempts(e, pairs))
    ensures out.Ok? ==> out.value == DirectShares(SlotsOf(Attempts(e, pairs)))
  {
    var shares: seq<Share> := [];
    var emitted: map<string, seq<Listener>> := map[];
    ghost var attempts := Attempts(e, pairs);
    for i := 0 to |pairs|
      invariant AllOk(attempts[..i])
      invariant shares == DirectShares(SlotsOf(attempts[..i])) && Tracks(emitted, shares)
    {
      assert pairs[i] in pairs;
      AttemptsAt(e, pairs, i);
      var slot := Attempt(e, pairs[i].0, pairs[i].1);
      if slot.Err? { return Err(slot.error); }
      SlotsSnoc(attempts, i);
      shares, emitted := EmitDirect(shares, emitted, slot.value);
    }
    assert attempts[..|pairs|] == attempts;
    return Ok(shares);
  }

  lemma SlotsSnoc(attempts: seq<Result<Slot, ShareError>>, i: nat)
    requires i < |attempts| && AllOk(attempts[..i]) && attempts[i].Ok?
    ensures AllOk(attempts[..i + 1])
    ensures DirectShares(SlotsOf(attempts[..i + 1])) == DirectStep(DirectShares(SlotsOf(attempts[..i])), attempts[i].value)
  {
    var slots := SlotsOf(attempts[..i + 1]);
    assert slots[..i] == SlotsOf(attempts[..i]);
  }

  // What is emitted -------------------------------------------------------------------------

  /** Every URL is made for a node of the request, with that node's own listener. */
  lemma {:induction false} DirectProvenance(slots: seq<Slot>, s: Share)
    requires s in DirectShares(slots)
    ensures Slot(s.region, s.node, Some(s.at), s.url) in slots
  {
    var front, last := slots[..|slots| - 1], slots[|slots| - 1];
    assert slots == front + [last];
    if s in DirectShares(front) { DirectProvenance(front, s); }
  }

  lemma {:induction false} EmittedMember(shares: seq<Share>, region: string, at: Listener)
    ensures at in EmittedIn(shares, region) <==> IsReality(at) && exists s :: s in shares && s.region.id == region && s.at == at
  {
    if shares != [] {
      var front, last := shares[..|shares| - 1], shares[|shares| - 1];
      EmittedMember(front, region, at);
      assert shares == front + [last];
    }
  }

  /** `s` serves a node whose listener is `at`: the same listener, and the same node under TLS. */
  predicate Serves(s: Share, region: string, n: Node, at: Listener) {
    s.region.id == region && s.at == at && (!IsReality(at) ==> s.node == n)
  }

  /** Every eligible node is covered: by its own TLS URL, or by a URL for an identical Reality listener. */
  lemma {:induction false} DirectCoverage(slots: seq<Slot>, x: Slot) returns (s: Share)
    requires x in slots && x.at.Some?
    ensures s in DirectShares(slots) && Serves(s, x.r.id, x.n, x.at.value)
  {
    var front, last := slots[..|slots| - 1], slots[|slots| - 1];
    var shares, all := DirectShares(front), DirectShares(slots);
    if x in front {
      s := DirectCoverage(front, x);
    } else {
      EmittedMember(shares, x.r.id, x.at.value);
      if IsReality(x.at.value) && x.at.value in EmittedIn(shares, x.r.id) {
        s :| s in shares && s.region.id == x.r.id && s.at == x.at.value;
      } else {
        s := all[|shares|];
      }
    }
  }

  /** Within a region no two Reality URLs are for the same listener. */
  lemma {:induction false} DirectOncePerListener(slots: seq<Slot>, i: nat, j: nat)
    requires i < j < |DirectShares(slots)|
    requires var s := DirectShares(slots); IsReality(s[i].at) && s[i].region.id == s[j].region.id
    ensures DirectShares(slots)[i].at != DirectShares(slots)[j].at
  {
    var front := slots[..|slots| - 1];
    var shares := DirectShares(front);
    if j < |shares| {
      DirectOncePerListener(front, i, j);
    } else {
      var s := DirectShares(slots)[i];
      assert s == shares[i] && s in shares;
      EmittedMember(shares, s.region.id, s.at);
    }
  }

  /** A region's first Reality URL is named after the region; every later one after its node. */
  lemma {:induction false} FirstNamedByRegion(slots: seq<Slot>, i: nat)
    requires i < |DirectShares(slots)| && IsReality(DirectShares(slots)[i].at)
    ensures var shares := DirectShares(slots);
            shares[i].owner == if EmittedIn(shares[..i], shares[i].region.id) == [] then shares[i].region.id else shares[i].node.id
  {
    var front := slots[..|slots| - 1];
    var shares := DirectShares(front);
    if i < |shares| {
      FirstNamedByRegion(front, i);
      assert DirectShares(slots)[..i] == shares[..i];
    } else {
      assert DirectShares(slots)[..i] == shares;
    }
  }
}
