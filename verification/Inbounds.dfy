/** Client lists and inbound contexts: who each listener of a node admits. */
module Inbounds {
  import opened Base
  import opened Names
  import opened Schema
  import opened Resolve
  import opened Identity

  datatype NodeKeys = NodeKeys(privateKey: string, publicKey: string, decryption: string, encryption: string)

  const ENCRYPTION_DISABLED := "none"

  function Flow(keys: NodeKeys): string { if keys.encryption == ENCRYPTION_DISABLED then "" else "xtls-rprx-vision" }

  function ClientFlow(keys: NodeKeys): string {
    if keys.encryption == ENCRYPTION_DISABLED then "" else "xtls-rprx-vision-udp443"
  }

  // Clients ---------------------------------------------------------------------------------

  datatype Client = Client(email: string, id: Uuid, flow: string, reverse: Option<string>)

  function AsClient(ns: Namespace, flow: string): Id -> Client {
    (id: Id) => Client(id.Email(ns), id.Uuid(ns), flow, if id.OfPortal? then Some(PortalTag(id.p.id)) else None)
  }

  function Clients(ns: Namespace, flow: string, ids: seq<Id>): (out: seq<Client>)
    ensures |out| == |ids| && forall i :: 0 <= i < |ids| ==> out[i] == AsClient(ns, flow)(ids[i])
  {
    seq(|ids|, i requires 0 <= i < |ids| => AsClient(ns, flow)(ids[i]))
  }

  lemma ClientsConcat(ns: Namespace, flow: string, base: seq<Client>, a: seq<Id>, b: seq<Id>)
    ensures base + Clients(ns, flow, a + b) == (base + Clients(ns, flow, a)) + Clients(ns, flow, b)
  {
  }

  lemma ClientsStep(ns: Namespace, flow: string, f: User -> seq<Id>, users: seq<User>, i: nat)
    requires i < |users|
    ensures Clients(ns, flow, FlatMap(f, users[..i + 1])) ==
            Clients(ns, flow, FlatMap(f, users[..i])) + Clients(ns, flow, f(users[i]))
  {
    FlatMapTake(f, users, i);
    ClientsConcat(ns, flow, [], FlatMap(f, users[..i]), f(users[i]));
  }

  /** A user's own identities on an access-gated inbound, before the guests. */
  function OwnAccessIds(u: User, server: bool): seq<Id> {
    if server && Access.Server in u.access then [OfUser(u), OfServer(u)] else [OfUser(u)]
  }

  lemma AccessIdsShape(u: User, access: Access, server: bool)
    ensures AccessIds(access, server)(u) == if access in u.access then OwnAccessIds(u, server) + GuestIds(u) else []
  {
  }

  method AppendGuests(u: User, ns: Namespace, flow: string, base: seq<Client>) returns (clients: seq<Client>)
    ensures clients == base + Clients(ns, flow, GuestIds(u))
  {
    clients := base;
    ghost var ids := GuestIds(u);
    for i := 0 to |u.guests|
      invariant clients == base + Clients(ns, flow, ids[..i])
    {
      assert ids[..i + 1] == ids[..i] + [ids[i]];
      ClientsConcat(ns, flow, base, ids[..i], [ids[i]]);
      clients := clients + [AsClient(ns, flow)(OfGuest(u.guests[i], u))];
      assert Clients(ns, flow, [ids[i]]) == [AsClient(ns, flow)(ids[i])];
    }
    assert ids[..|u.guests|] == ids;
  }

  /** Client entries of one user on an access-gated inbound. */
  method AppendAccessClients(u: User, ns: Namespace, access: Access, flow: string, server: bool, base: seq<Client>)
    returns (clients: seq<Client>)
    ensures clients == base + Clients(ns, flow, AccessIds(access, server)(u))
  {
    AccessIdsShape(u, access, server);
    if access !in u.access { return base; }
    var own := OwnAccessIds(u, server);
    clients := base + Clients(ns, flow, own);
    clients := AppendGuests(u, ns, flow, clients);
    ClientsConcat(ns, flow, base, own, GuestIds(u));
  }

  method GetHubAccessClients(users: seq<User>, ns: Namespace, access: Access, flow: string, server: bool)
    returns (clients: seq<Client>)
    ensures clients == Clients(ns, flow, FlatMap(AccessIds(access, server), users))
  {
    clients := [];
    for i := 0 to |users|
      invariant clients == Clients(ns, flow, FlatMap(AccessIds(access, server), users[..i]))
    {
      ClientsStep(ns, flow, AccessIds(access, server), users, i);
      clients := AppendAccessClients(users[i], ns, access, flow, server, clients);
    }
    assert users[..|users|] == users;
  }

  /** Identities on the Reality inbound: xhttp users with their guests, and every server identity. */
  function VlessIds(): User -> seq<Id> {
    (u: User) =>
      (if Access.Xhttp in u.access then [OfUser(u)] else [])
      + (if Access.Server in u.access then [OfServer(u)] else [])
      + (if Access.Xhttp in u.access then GuestIds(u) else [])
  }

  function PortalClientIds(portals: seq<Portal>): seq<Id> { FlatMap(PortalId(), portals) }

  lemma VlessIdMember(users: seq<User>, id: Id)
    ensures id in FlatMap(VlessIds(), users) <==>
            && !id.OfPortal? && id.u in users
            && (if id.OfServer? then Access.Server in id.u.access else Access.Xhttp in id.u.access)
            && (id.OfGuest? ==> id.guest in id.u.guests)
  {
    FlatMapMember(VlessIds(), users, id);
    forall u: User
      ensures id in VlessIds()(u) <==>
              && !id.OfPortal? && id.u == u
              && (if id.OfServer? then Access.Server in u.access else Access.Xhttp in u.access)
              && (id.OfGuest? ==> id.guest in u.guests)
    {
      GuestIdMember(u, id);
    }
  }

  // Short ids -------------------------------------------------------------------------------

  function GroupSids(ns: Namespace, gs: seq<Group>): (out: seq<string>)
    ensures |out| == |gs| && forall i :: 0 <= i < |gs| ==> out[i] == ns.GroupShortId(gs[i])
  {
    seq(|gs|, i requires 0 <= i < |gs| => ns.GroupShortId(gs[i]))
  }

  function PortalSids(ns: Namespace, ps: seq<Portal>): (out: seq<string>)
    ensures |out| == |ps| && forall i :: 0 <= i < |ps| ==> out[i] == ns.PortalShortId(ps[i].id)
  {
    seq(|ps|, i requires 0 <= i < |ps| => ns.PortalShortId(ps[i].id))
  }

  predicate HasGuestSid(u: User) { u.guests != [] && (Access.Xhttp in u.access || Access.Cdn in u.access) }

  /** One short id per user with guests, repeats dropped. */
  function UserSids(ns: Namespace, users: seq<User>): seq<string> {
    if users == [] then [] else
      var front, u := UserSids(ns, users[..|users| - 1]), users[|users| - 1];
      if HasGuestSid(u) && ns.UserShortId(u.username) !in front then front + [ns.UserShortId(u.username)] else front
  }

  method GetHubUserShortIds(users: seq<User>, ns: Namespace) returns (result: seq<string>)
    ensures result == UserSids(ns, users) && NoDup(result)
  {
    UserSidsDistinct(ns, users);
    var seen: set<string> := {};
    result := [];
    for i := 0 to |users|
      invariant result == UserSids(ns, users[..i]) && seen == Elems(result)
    {
      var u := users[i];
      assert users[..i + 1][..i] == users[..i];
      if u.guests == [] { continue; }
      if Access.Xhttp !in u.access && Access.Cdn !in u.access { continue; }
      var sid := ns.UserShortId(u.username);
      if sid !in seen {
        seen := seen + {sid};
        result := result + [sid];
      }
    }
    assert users[..|users|] == users;
  }

  /** Users with guests on the Reality or CDN inbound have their short id accepted, and nobody else. */
  lemma {:induction false} UserSidListed(ns: Namespace, users: seq<User>, sid: string)
    ensures sid in UserSids(ns, users) <==>
            exists u :: u in users && u.guests != [] && (Access.Xhttp in u.access || Access.Cdn in u.access)
                        && sid == ns.UserShortId(u.username)
  {
    if users != [] {
      UserSidListed(ns, users[..|users| - 1], sid);
      assert users == users[..|users| - 1] + [users[|users| - 1]];
    }
  }

  lemma {:induction false} UserSidsDistinct(ns: Namespace, users: seq<User>)
    ensures NoDup(UserSids(ns, users))
  {
    if users != [] {
      UserSidsDistinct(ns, users[..|users| - 1]);
      NoDupSnoc(UserSids(ns, users[..|users| - 1]), ns.UserShortId(users[|users| - 1].username));
    }
  }

  // Direct inbound --------------------------------------------------------------------------

  datatype Direct =
    | RealityInbound(clients: seq<Client>, host: string, path: string, shortIds: seq<string>, dest: HostPort,
                     serverNames: seq<string>, privateKey: string, limits: FallbackLimits)
    | TlsInbound(clients: seq<Client>, host: string, path: string, certificate: string)

  function ServerNames(r: Reality): (names: seq<string>)
    ensures names != []
  {
    if r.serverNames != [] then r.serverNames else [r.dest.host]
  }

  function HubShortIds(c: Config, ns: Namespace): seq<string> {
    GroupSids(ns, c.groups) + PortalSids(ns, c.portals) + UserSids(ns, c.users)
  }

  /** Direct inbound of a hub node: TLS where the region resolves a certificate, else Reality. */
  function HubDirect(c: Config, ns: Namespace, r: Region, n: Node, keys: NodeKeys): Result<Direct, Problem>
    requires r.HubRegion?
  {
    var x := NodeXhttp(n, r, c);
    var tls := RegionTls(r, c.hubDefaults);
    var flow := Flow(keys);
    if x.Err? then Err(x.error)
    else if tls.Err? then Err(tls.error)
    else if tls.value.Some? then
      Ok(TlsInbound(
        Clients(ns, flow, FlatMap(AccessIds(Access.Tls, true), c.users)) + Clients(ns, flow, PortalClientIds(c.portals)),
        if x.value.host.Some? then x.value.host.value else n.hostname, x.value.path, tls.value.value))
    else
      var reality := NodeReality(n, r, c.hubDefaults);
      if reality.Err? then Err(reality.error)
      else Ok(RealityInbound(
        Clients(ns, flow, FlatMap(VlessIds(), c.users)) + Clients(ns, flow, PortalClientIds(c.portals)),
        if x.value.host.Some? then x.value.host.value else reality.value.dest.host,
        x.value.path, HubShortIds(c, ns), reality.value.dest, ServerNames(reality.value), keys.privateKey,
        reality.value.limits))
  }

  predicate ListsClient(clients: seq<Client>, id: Uuid) { exists cl :: cl in clients && cl.id == id }

  lemma ListedById(ns: Namespace, flow: string, ids: seq<Id>, id: Id)
    requires id in ids
    ensures ListsClient(Clients(ns, flow, ids), id.Uuid(ns))
  {
    var k :| 0 <= k < |ids| && ids[k] == id;
    assert Clients(ns, flow, ids)[k].id == id.Uuid(ns);
  }

  lemma ListedInConcat(a: seq<Client>, b: seq<Client>, id: Uuid)
    ensures ListsClient(a + b, id) <==> ListsClient(a, id) || ListsClient(b, id)
  {
    if ListsClient(a, id) {
      var cl :| cl in a && cl.id == id;
      assert cl in a + b;
    }
    if ListsClient(b, id) {
      var cl :| cl in b && cl.id == id;
      assert cl in a + b;
    }
  }

  // Hysteria inbound ------------------------------------------------------------------------

  /** Endpoint material derived from the node's keys, left uninterpreted. */
  datatype Endpoint = Endpoint(sni: string, pin: Option<string>, obfs: Option<string>)

  datatype HysteriaInbound = HysteriaInbound(users: seq<Client>, config: HysteriaConfig, endpoint: Endpoint)

  function HubHysteria(c: Config, ns: Namespace, derive: (HysteriaConfig, Reality, string, string) -> Endpoint,
                       r: Region, n: Node, keys: NodeKeys): Result<Option<HysteriaInbound>, Problem>
    requires r.HubRegion?
  {
    var h := NodeHysteria(n, r, c);
    var clients := Clients(ns, "", FlatMap(AccessIds(Access.Hysteria, true), c.users));
    if h.None? || clients == [] then Ok(None)
    else
      var reality := NodeReality(n, r, c.hubDefaults);
      if reality.Err? then Err(reality.error)
      else Ok(Some(HysteriaInbound(clients, h.value, derive(h.value, reality.value, keys.privateKey, ns.name))))
  }
}
