/** Derived identities: emails, UUIDs and the collision check over everything a hub admits. */
module Identity {
  import opened Base
  import opened Names
  import opened Schema

  /** Hash functions, left uninterpreted: name-based UUIDs and truncated digests. */
  datatype Hashes = Hashes(uuid5: (Uuid, string) -> Uuid, shortId: string -> string)

  /** Identity factory bound to one namespace name. */
  datatype Namespace = Namespace(name: string, h: Hashes) {
    function Root(): Uuid { h.uuid5(Uuid(0), name) }
    function UserUuid(u: User): Uuid { if u.uuid.Some? then u.uuid.value else h.uuid5(Root(), u.username) }
    function ServerUuid(u: User): Uuid { h.uuid5(UserUuid(u), u.username + SERVER_SUFFIX) }
    function GuestUuid(guest: string, u: User): Uuid { h.uuid5(UserUuid(u), guest) }
    function PortalUuid(p: Portal): Uuid { if p.uuid.Some? then p.uuid.value else h.uuid5(Root(), "portal/" + p.id) }
    function GroupShortId(g: Group): string { if g.shortId.Some? then g.shortId.value else h.shortId(g.id + "." + name) }
    function UserShortId(username: string): string { h.shortId(username + ".user." + name) }
    function PortalShortId(portal: string): string { h.shortId(portal + ".portal." + name) }
  }

  /** Whoever can land on a hub inbound, with the record it is derived from. */
  datatype Id = OfUser(u: User) | OfServer(u: User) | OfGuest(guest: string, u: User) | OfPortal(p: Portal) {
    function Email(ns: Namespace): string {
      match this
      case OfUser(u) => UserEmail(ns.name, u.username)
      case OfServer(u) => ServerEmail(u.username)
      case OfGuest(guest, u) => GuestEmail(guest, u.username)
      case OfPortal(p) => PortalEmail(ns.name, p.id)
    }

    function Uuid(ns: Namespace): Uuid {
      match this
      case OfUser(u) => ns.UserUuid(u)
      case OfServer(u) => ns.ServerUuid(u)
      case OfGuest(guest, u) => ns.GuestUuid(guest, u)
      case OfPortal(p) => ns.PortalUuid(p)
    }
  }

  /** How identity emails are spelled. */
  lemma EmailsSpelled(ns: Namespace, id: Id)
    ensures id.Email(ns) ==
            match id
            case OfUser(u) => u.username + "@" + ns.name
            case OfServer(u) => u.username + "-server@" + u.username
            case OfGuest(guest, u) => guest + "@" + u.username
            case OfPortal(p) => p.id + "@portal." + ns.name
  {
    match id
    case OfServer(u) => assert u.username + SERVER_SUFFIX + "@" == u.username + "-server@";
    case OfPortal(p) => assert p.id + "@" + (PORTAL_DOMAIN + ns.name) == p.id + "@portal." + ns.name;
    case _ =>
  }

  function GuestIds(u: User): (out: seq<Id>)
    ensures |out| == |u.guests| && forall i :: 0 <= i < |out| ==> out[i] == OfGuest(u.guests[i], u)
  {
    seq(|u.guests|, i requires 0 <= i < |u.guests| => OfGuest(u.guests[i], u))
  }

  function UserIds(): User -> seq<Id> { (u: User) => [OfUser(u), OfServer(u)] + GuestIds(u) }

  /** Identities a user brings to an inbound gated by `access`. */
  function AccessIds(access: Access, server: bool): User -> seq<Id> {
    (u: User) =>
      if access !in u.access then []
      else [OfUser(u)] + (if server && Access.Server in u.access then [OfServer(u)] else []) + GuestIds(u)
  }

  lemma AccessIdMember(users: seq<User>, access: Access, server: bool, id: Id)
    ensures id in FlatMap(AccessIds(access, server), users) <==>
            && !id.OfPortal? && id.u in users && access in id.u.access
            && (id.OfServer? ==> server && Access.Server in id.u.access)
            && (id.OfGuest? ==> id.guest in id.u.guests)
  {
    FlatMapMember(AccessIds(access, server), users, id);
    forall u: User
      ensures id in AccessIds(access, server)(u) <==>
              && !id.OfPortal? && id.u == u && access in u.access
              && (id.OfServer? ==> server && Access.Server in u.access)
              && (id.OfGuest? ==> id.guest in u.guests)
    {
      UserIdMember(u, id);
      GuestIdMember(u, id);
    }
  }

  lemma GuestIdMember(u: User, id: Id)
    ensures id in GuestIds(u) <==> id.OfGuest? && id.u == u && id.guest in u.guests
  {
    if id.OfGuest? && id.u == u && id.guest in u.guests {
      var k :| 0 <= k < |u.guests| && u.guests[k] == id.guest;
      assert GuestIds(u)[k] == id;
    }
  }

  function PortalId(): Portal -> seq<Id> { (p: Portal) => [OfPortal(p)] }

  /** Every identity that can land on a hub inbound, in the order they are checked. */
  function HubIdentities(c: Config): seq<Id> { FlatMap(UserIds(), c.users) + FlatMap(PortalId(), c.portals) }

  function Emails(ns: Namespace, ids: seq<Id>): (out: seq<string>)
    ensures |out| == |ids| && forall i :: 0 <= i < |ids| ==> out[i] == ids[i].Email(ns)
  {
    seq(|ids|, i requires 0 <= i < |ids| => ids[i].Email(ns))
  }

  function Uuids(ns: Namespace, ids: seq<Id>): (out: seq<Uuid>)
    ensures |out| == |ids| && forall i :: 0 <= i < |ids| ==> out[i] == ids[i].Uuid(ns)
  {
    seq(|ids|, i requires 0 <= i < |ids| => ids[i].Uuid(ns))
  }

  /** Two owners of one UUID. */
  datatype Collision = Collision(uuid: Uuid, claimed: Id, owner: Id)

  method CheckIdentityCollisions(c: Config, ns: Namespace) returns (clash: Option<Collision>)
    ensures clash.None? <==> NoDup(Uuids(ns, HubIdentities(c)))
    ensures clash.Some? ==>
              && clash.value.claimed in HubIdentities(c) && clash.value.owner in HubIdentities(c)
              && clash.value.claimed.Uuid(ns) == clash.value.uuid == clash.value.owner.Uuid(ns)
  {
    var ids := HubIdentities(c);
    var owners: map<Uuid, Id> := map[];
    ghost var uuids := Uuids(ns, ids);
    for i := 0 to |ids|
      invariant owners.Keys == Elems(uuids[..i]) && NoDup(uuids[..i])
      invariant forall x :: x in owners ==> owners[x] in ids && owners[x].Uuid(ns) == x
    {
      var x := ids[i].Uuid(ns);
      NoDupTake(uuids, i);
      if x in owners { return Some(Collision(x, owners[x], ids[i])); }
      owners := owners[x := ids[i]];
    }
    assert uuids[..|ids|] == uuids;
    return None;
  }

  // Names follow UUIDs ----------------------------------------------------------------------

  lemma IdentityMember(c: Config, id: Id)
    ensures id in HubIdentities(c) <==>
            match id
            case OfUser(u) => u in c.users
            case OfServer(u) => u in c.users
            case OfGuest(guest, u) => u in c.users && guest in u.guests
            case OfPortal(p) => p in c.portals
  {
    FlatMapMember(UserIds(), c.users, id);
    FlatMapMember(PortalId(), c.portals, id);
    forall u: User
      ensures id in UserIds()(u) <==>
              id == OfUser(u) || id == OfServer(u) || (id.OfGuest? && id.u == u && id.guest in u.guests)
    {
      UserIdMember(u, id);
    }
  }

  lemma UserIdMember(u: User, id: Id)
    ensures id in UserIds()(u) <==>
            id == OfUser(u) || id == OfServer(u) || (id.OfGuest? && id.u == u && id.guest in u.guests)
  {
    if id.OfGuest? && id.u == u && id.guest in u.guests {
      var k :| 0 <= k < |u.guests| && u.guests[k] == id.guest;
      assert GuestIds(u)[k] == id;
    }
  }

  /** No guest or server email of a user named like the namespace repeats a user's email. */
  ghost predicate NamespaceClear(c: Config) {
    forall u, alias :: u in c.users && u.username == c.namespace && alias in u.guests + [u.username + SERVER_SUFFIX] ==>
                         alias !in Usernames(c.users)
  }

  lemma SameUser(c: Config, u: User, v: User)
    requires NoDup(Usernames(c.users)) && u in c.users && v in c.users && u.username == v.username
    ensures u == v
  {
    var i :| 0 <= i < |c.users| && c.users[i] == u;
    var j :| 0 <= j < |c.users| && c.users[j] == v;
    assert Usernames(c.users)[i] == Usernames(c.users)[j];
  }

  /** The local part and domain of an identity's email. */
  function Local(id: Id): string {
    match id
    case OfUser(u) => u.username
    case OfServer(u) => u.username + SERVER_SUFFIX
    case OfGuest(guest, _) => guest
    case OfPortal(p) => p.id
  }

  function Domain(ns: string, id: Id): string {
    match id
    case OfUser(_) => ns
    case OfServer(u) => u.username
    case OfGuest(_, u) => u.username
    case OfPortal(_) => PORTAL_DOMAIN + ns
  }

  lemma LocalHasNoAt(c: Config, id: Id)
    requires FieldsValid(c) && id in HubIdentities(c)
    ensures '@' !in Local(id)
  {
    IdentityMember(c, id);
    match id
    case OfUser(u) => IdentHasNoAt(u.username);
    case OfServer(u) => IdentHasNoAt(u.username);
    case OfGuest(guest, _) => IdentHasNoAt(guest);
    case OfPortal(p) => IdentHasNoAt(p.id);
  }

  lemma SameEmailParts(c: Config, ns: Namespace, a: Id, b: Id)
    requires FieldsValid(c) && a in HubIdentities(c) && b in HubIdentities(c) && a.Email(ns) == b.Email(ns)
    ensures Local(a) == Local(b) && Domain(ns.name, a) == Domain(ns.name, b)
  {
    LocalHasNoAt(c, a);
    LocalHasNoAt(c, b);
    AtInjective(Local(a), Domain(ns.name, a), Local(b), Domain(ns.name, b));
  }

  lemma PortalDomainAlone(c: Config, a: Id)
    requires FieldsValid(c) && a in HubIdentities(c) && !a.OfPortal?
    ensures Domain(c.namespace, a) != PORTAL_DOMAIN + c.namespace
  {
    IdentityMember(c, a);
    assert |PORTAL_DOMAIN + c.namespace| > |c.namespace|;
    if !a.OfUser? {
      assert IsIdent(a.u.username);
      assert (PORTAL_DOMAIN + c.namespace)[6] == '.';
      assert '.' !in a.u.username;
    }
  }

  lemma KnownUsername(c: Config, u: User)
    requires u in c.users
    ensures u.username in Usernames(c.users)
  {
    var k :| 0 <= k < |c.users| && c.users[k] == u;
    assert Usernames(c.users)[k] == u.username;
  }

  /** A user's email is shared with a guest or server only when the namespace is not clear. */
  lemma UserEmailAlone(c: Config, ns: Namespace, a: Id, b: Id)
    requires FieldsValid(c) && ns.name == c.namespace && NamespaceClear(c)
    requires a in HubIdentities(c) && b in HubIdentities(c) && a.Email(ns) == b.Email(ns) && a.OfUser?
    ensures b.OfUser?
  {
    SameEmailParts(c, ns, a, b);
    IdentityMember(c, a);
    IdentityMember(c, b);
    KnownUsername(c, a.u);
    if b.OfPortal? { PortalDomainAlone(c, a); }
  }

  /** Equal emails come from equal derivations, whatever the hash functions are. */
  lemma SameEmailSameUuid(c: Config, ns: Namespace, a: Id, b: Id)
    requires FieldsValid(c) && NoDup(Usernames(c.users)) && NoDup(PortalIds(c.portals))
    requires ns.name == c.namespace && NamespaceClear(c)
    requires a in HubIdentities(c) && b in HubIdentities(c) && a.Email(ns) == b.Email(ns)
    ensures a.Uuid(ns) == b.Uuid(ns)
  {
    SameEmailParts(c, ns, a, b);
    IdentityMember(c, a);
    IdentityMember(c, b);
    if a.OfUser? {
      UserEmailAlone(c, ns, a, b);
      SameUser(c, a.u, b.u);
    } else if b.OfUser? {
      UserEmailAlone(c, ns, b, a);
    } else if a.OfPortal? {
      if b.OfPortal? { SamePortal(c.portals, a.p, b.p); } else { PortalDomainAlone(c, b); }
    } else if b.OfPortal? {
      PortalDomainAlone(c, a);
    } else {
      SameUser(c, a.u, b.u);
    }
  }

  lemma ClearGivesDistinct(c: Config, ns: Namespace)
    requires FieldsValid(c) && NoDup(Usernames(c.users)) && NoDup(PortalIds(c.portals)) && ns.name == c.namespace
    requires NoDup(Uuids(ns, HubIdentities(c))) && NamespaceClear(c)
    ensures NoDup(Emails(ns, HubIdentities(c)))
  {
    var ids := HubIdentities(c);
    forall i, j | 0 <= i < j < |ids| ensures Emails(ns, ids)[i] != Emails(ns, ids)[j] {
      assert Uuids(ns, ids)[i] != Uuids(ns, ids)[j];
      if ids[i].Email(ns) == ids[j].Email(ns) { SameEmailSameUuid(c, ns, ids[i], ids[j]); }
    }
  }

  lemma DistinctEmails(ns: Namespace, ids: seq<Id>, a: Id, b: Id)
    requires NoDup(Emails(ns, ids)) && a in ids && b in ids && a != b
    ensures a.Email(ns) != b.Email(ns)
  {
    var i :| 0 <= i < |ids| && ids[i] == a;
    var j :| 0 <= j < |ids| && ids[j] == b;
    assert Emails(ns, ids)[i] != Emails(ns, ids)[j];
  }

  lemma DistinctNeedsClear(c: Config, ns: Namespace)
    requires ns.name == c.namespace && NoDup(Emails(ns, HubIdentities(c)))
    ensures NamespaceClear(c)
  {
    var ids := HubIdentities(c);
    forall u, alias | u in c.users && u.username == c.namespace && alias in u.guests + [u.username + SERVER_SUFFIX]
      ensures alias !in Usernames(c.users)
    {
      if alias in Usernames(c.users) {
        var k :| 0 <= k < |c.users| && Usernames(c.users)[k] == alias;
        var a := OfUser(c.users[k]);
        var b := if alias in u.guests then OfGuest(alias, u) else OfServer(u);
        IdentityMember(c, a);
        IdentityMember(c, b);
        DistinctEmails(ns, ids, a, b);
      }
    }
  }

  /**
   * Once no UUID collides, the emails of all hub identities are pairwise distinct exactly when no
   * user named like the namespace has a guest, or server identity, labelled like a user.
   */
  lemma CollisionFreeNames(c: Config, ns: Namespace)
    requires FieldsValid(c) && NoDup(Usernames(c.users)) && NoDup(PortalIds(c.portals)) && ns.name == c.namespace
    requires NoDup(Uuids(ns, HubIdentities(c)))
    ensures NoDup(Emails(ns, HubIdentities(c))) <==> NamespaceClear(c)
  {
    if NamespaceClear(c) { ClearGivesDistinct(c, ns); }
    if NoDup(Emails(ns, HubIdentities(c))) { DistinctNeedsClear(c, ns); }
  }
}
