/** What identity UUIDs are derived from: overrides come first, and derived ones collide only by label. */
module Derivation {
  import opened Base
  import opened Names
  import opened Schema
  import opened Identity

  // Overrides -------------------------------------------------------------------------------

  lemma ClashReported(ns: Namespace, ids: seq<Id>, a: Id, b: Id)
    requires a in ids && b in ids && a != b && a.Uuid(ns) == b.Uuid(ns)
    ensures !NoDup(Uuids(ns, ids))
  {
    var i :| 0 <= i < |ids| && ids[i] == a;
    var j :| 0 <= j < |ids| && ids[j] == b;
    assert Uuids(ns, ids)[i] == Uuids(ns, ids)[j];
  }

  /** Two users with one explicit `uuid` never pass the collision check. */
  lemma SharedOverrideClashes(c: Config, ns: Namespace, u: User, v: User)
    requires u in c.users && v in c.users && u != v && u.uuid.Some? && u.uuid == v.uuid
    ensures !NoDup(Uuids(ns, HubIdentities(c)))
  {
    IdentityMember(c, OfUser(u));
    IdentityMember(c, OfUser(v));
    ClashReported(ns, HubIdentities(c), OfUser(u), OfUser(v));
  }

  /** Nor do a user and a portal. */
  lemma PortalOverrideClashes(c: Config, ns: Namespace, u: User, p: Portal)
    requires u in c.users && p in c.portals && u.uuid.Some? && u.uuid == p.uuid
    ensures !NoDup(Uuids(ns, HubIdentities(c)))
  {
    IdentityMember(c, OfUser(u));
    IdentityMember(c, OfPortal(p));
    ClashReported(ns, HubIdentities(c), OfUser(u), OfPortal(p));
  }

  // Derived UUIDs ---------------------------------------------------------------------------

  /** Hashing separates names and namespaces. */
  ghost predicate Injective(h: Hashes) {
    forall a, s, b, t :: h.uuid5(a, s) == h.uuid5(b, t) ==> a == b && s == t
  }

  ghost predicate NoOverrides(c: Config) {
    (forall u :: u in c.users ==> u.uuid.None?) && forall p :: p in c.portals ==> p.uuid.None?
  }

  /** No label twice, and none that spells the server identity's name. */
  ghost predicate LabelsApart(u: User) { NoDup(u.guests) && u.username + "-server" !in u.guests }

  /** An identity hashed under the namespace itself, not under a user. */
  predicate UnderRoot(id: Id) { id.OfUser? || id.OfPortal? }

  lemma RootApart(c: Config, ns: Namespace, u: User)
    requires Injective(ns.h) && ns.Root() != Uuid(0) && u.uuid.None?
    ensures ns.UserUuid(u) != ns.Root()
  {
  }

  lemma UsernameIsNoSeed(c: Config, u: User, p: Portal)
    requires FieldsValid(c) && u in c.users
    ensures u.username != "portal/" + p.id
  {
    assert IsIdent(u.username);
    var s := "portal/" + p.id;
    assert s[6] == '/' && s[6] in s && !IsIdentChar('/');
  }

  lemma SeedsDiffer(p: Portal, q: Portal)
    requires "portal/" + p.id == "portal/" + q.id
    ensures p.id == q.id
  {
    assert p.id == ("portal/" + p.id)[7..] && q.id == ("portal/" + q.id)[7..];
  }

  /** Derived UUIDs under the namespace come from one identity. */
  lemma RootUuids(c: Config, ns: Namespace, a: Id, b: Id)
    requires Injective(ns.h) && NoOverrides(c) && FieldsValid(c) && NoDup(Usernames(c.users)) && NoDup(PortalIds(c.portals))
    requires a in HubIdentities(c) && b in HubIdentities(c) && UnderRoot(a) && UnderRoot(b) && a.Uuid(ns) == b.Uuid(ns)
    ensures a == b
  {
    IdentityMember(c, a);
    IdentityMember(c, b);
    if a.OfUser? && b.OfUser? { SameUser(c, a.u, b.u); }
    if a.OfPortal? && b.OfPortal? {
      SeedsDiffer(a.p, b.p);
      SamePortal(c.portals, a.p, b.p);
    }
    if a.OfUser? && b.OfPortal? { UsernameIsNoSeed(c, a.u, b.p); }
    if a.OfPortal? && b.OfUser? { UsernameIsNoSeed(c, b.u, a.p); }
  }

  /** Those under users share their user, and then their label. */
  lemma UserUuids(c: Config, ns: Namespace, a: Id, b: Id)
    requires Injective(ns.h) && NoOverrides(c) && NoDup(Usernames(c.users))
    requires a in HubIdentities(c) && b in HubIdentities(c) && !UnderRoot(a) && !UnderRoot(b) && a.Uuid(ns) == b.Uuid(ns)
    ensures a.u == b.u && Local(a) == Local(b)
  {
    IdentityMember(c, a);
    IdentityMember(c, b);
    assert ns.UserUuid(a.u) == ns.UserUuid(b.u);
    SameUser(c, a.u, b.u);
  }

  lemma SameDerived(c: Config, ns: Namespace, a: Id, b: Id)
    requires Injective(ns.h) && ns.Root() != Uuid(0) && NoOverrides(c) && FieldsValid(c)
    requires NoDup(Usernames(c.users)) && NoDup(PortalIds(c.portals)) && forall u :: u in c.users ==> LabelsApart(u)
    requires a in HubIdentities(c) && b in HubIdentities(c) && a.Uuid(ns) == b.Uuid(ns)
    ensures a == b
  {
    IdentityMember(c, a);
    IdentityMember(c, b);
    if UnderRoot(a) && UnderRoot(b) {
      RootUuids(c, ns, a, b);
    } else if !UnderRoot(a) && !UnderRoot(b) {
      UserUuids(c, ns, a, b);
    } else if UnderRoot(a) {
      RootApart(c, ns, b.u);
    } else {
      RootApart(c, ns, a.u);
    }
  }

  // The list of identities ------------------------------------------------------------------

  lemma UserIdAt(u: User, i: nat)
    requires i < |u.guests| + 2
    ensures |UserIds()(u)| == |u.guests| + 2
    ensures UserIds()(u)[i] == if i == 0 then OfUser(u) else if i == 1 then OfServer(u) else OfGuest(u.guests[i - 2], u)
  {
  }

  lemma UserIdsDistinct(u: User)
    ensures NoDup(UserIds()(u)) <==> NoDup(u.guests)
  {
    var ids := UserIds()(u);
    UserIdAt(u, 0);
    if NoDup(ids) {
      forall i, j | 0 <= i < j < |u.guests| ensures u.guests[i] != u.guests[j] {
        UserIdAt(u, i + 2);
        UserIdAt(u, j + 2);
        assert ids[i + 2] != ids[j + 2];
      }
    }
    if NoDup(u.guests) {
      forall i, j | 0 <= i < j < |ids| ensures ids[i] != ids[j] {
        UserIdAt(u, i);
        UserIdAt(u, j);
      }
    }
  }

  lemma {:induction false} UsersDistinct(users: seq<User>)
    requires NoDup(Usernames(users))
    ensures NoDup(FlatMap(UserIds(), users)) <==> forall u :: u in users ==> NoDup(u.guests)
  {
    if users != [] {
      var front, last := users[..|users| - 1], users[|users| - 1];
      forall i, j | 0 <= i < j < |front| ensures Usernames(front)[i] != Usernames(front)[j] {
        assert Usernames(users)[i] != Usernames(users)[j];
      }
      UsersDistinct(front);
      UserIdsDistinct(last);
      NoDupConcat(FlatMap(UserIds(), front), UserIds()(last));
      forall x | x in FlatMap(UserIds(), front) ensures x !in UserIds()(last) { OtherUser(users, x); }
      assert users == front + [last];
    }
  }

  lemma OtherUser(users: seq<User>, x: Id)
    requires users != [] && NoDup(Usernames(users)) && x in FlatMap(UserIds(), users[..|users| - 1])
    ensures x !in UserIds()(users[|users| - 1])
  {
    var front, last := users[..|users| - 1], users[|users| - 1];
    FlatMapMember(UserIds(), front, x);
    var u :| u in front && x in UserIds()(u);
    UserIdMember(u, x);
    UserIdMember(last, x);
    var i :| 0 <= i < |front| && front[i] == u;
    assert Usernames(users)[i] != Usernames(users)[|users| - 1];
  }

  lemma {:induction false} PortalsDistinct(ps: seq<Portal>)
    requires NoDup(PortalIds(ps))
    ensures NoDup(FlatMap(PortalId(), ps)) && |FlatMap(PortalId(), ps)| == |ps|
    ensures forall i :: 0 <= i < |ps| ==> FlatMap(PortalId(), ps)[i] == OfPortal(ps[i])
  {
    if ps != [] {
      var front := ps[..|ps| - 1];
      forall i, j | 0 <= i < j < |front| ensures PortalIds(front)[i] != PortalIds(front)[j] {
        assert PortalIds(ps)[i] != PortalIds(ps)[j];
      }
      PortalsDistinct(front);
      forall i, j | 0 <= i < j < |ps| ensures ps[i] != ps[j] { assert PortalIds(ps)[i] != PortalIds(ps)[j]; }
    }
  }

  lemma IdentitiesDistinct(c: Config)
    requires NoDup(Usernames(c.users)) && NoDup(PortalIds(c.portals))
    ensures NoDup(HubIdentities(c)) <==> forall u :: u in c.users ==> NoDup(u.guests)
  {
    UsersDistinct(c.users);
    PortalsDistinct(c.portals);
    var a, b := FlatMap(UserIds(), c.users), FlatMap(PortalId(), c.portals);
    NoDupConcat(a, b);
    forall x | x in a ensures x !in b {
      AnyUserId(c.users, x);
    }
  }

  lemma AnyUserId(users: seq<User>, x: Id)
    requires x in FlatMap(UserIds(), users)
    ensures !x.OfPortal?
  {
    FlatMapMember(UserIds(), users, x);
    var u :| u in users && x in UserIds()(u);
    UserIdMember(u, x);
  }

  /**
   * Without overrides, and with a hash that separates its inputs, the collision check passes exactly
   * when no user has a guest label twice or one that spells the server identity: portals, users and
   * guests of different users never collide.
   */
  lemma DerivedCollisions(c: Config, ns: Namespace)
    requires Injective(ns.h) && ns.Root() != Uuid(0) && NoOverrides(c) && FieldsValid(c)
    requires NoDup(Usernames(c.users)) && NoDup(PortalIds(c.portals))
    ensures NoDup(Uuids(ns, HubIdentities(c))) <==> forall u :: u in c.users ==> LabelsApart(u)
  {
    var ids := HubIdentities(c);
    IdentitiesDistinct(c);
    if forall u :: u in c.users ==> LabelsApart(u) {
      forall i, j | 0 <= i < j < |ids| ensures Uuids(ns, ids)[i] != Uuids(ns, ids)[j] {
        if ids[i].Uuid(ns) == ids[j].Uuid(ns) { SameDerived(c, ns, ids[i], ids[j]); }
      }
    }
    if NoDup(Uuids(ns, ids)) {
      forall i, j | 0 <= i < j < |ids| ensures ids[i] != ids[j] { assert Uuids(ns, ids)[i] != Uuids(ns, ids)[j]; }
      forall u | u in c.users ensures u.username + "-server" !in u.guests { ServerLabelClashes(c, ns, u); }
    }
  }

  lemma ServerLabelClashes(c: Config, ns: Namespace, u: User)
    requires u in c.users
    ensures u.username + "-server" in u.guests ==> !NoDup(Uuids(ns, HubIdentities(c)))
  {
    if u.username + "-server" in u.guests {
      var a, b := OfServer(u), OfGuest(u.username + "-server", u);
      IdentityMember(c, a);
      IdentityMember(c, b);
      ClashReported(ns, HubIdentities(c), a, b);
    }
  }
}
