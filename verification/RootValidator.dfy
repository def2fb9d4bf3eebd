/** Portal and routing checks, and the root validator as a whole. */
module RootValidator {
  import opened Base
  import opened Names
  import opened Schema
  import opened Resolve
  import opened Acceptance
  import opened Validator
  import opened PortValidator

  // Tables the portal checks read -----------------------------------------------------------

  method DerivedTags(rs: seq<Region>) returns (tags: set<string>)
    ensures forall t :: t in tags <==> IsDerivedTag(rs, t)
  {
    tags := {DIRECT, BLOCKED, WARP};
    var ns := NodesOf(rs);
    for i := 0 to |ns|
      invariant forall t :: t in tags <==>
                              || IsSpecial(t)
                              || (exists n :: n in ns[..i] &&
                                              (t == n.id || t == BACKUP_PREFIX + n.id || t == WARP_PREFIX + n.id
                                               || t == WARP_PREFIX + BACKUP_PREFIX + n.id))
    {
      var n := ns[i];
      assert ns[..i + 1] == ns[..i] + [n];
      tags := tags + {n.id, BACKUP_PREFIX + n.id, WARP_PREFIX + n.id, WARP_PREFIX + BACKUP_PREFIX + n.id};
    }
    assert ns[..|ns|] == ns;
    ghost var base := tags;
    for i := 0 to |rs|
      invariant forall t :: t in tags <==>
                              || t in base
                              || (exists r :: r in rs[..i] && (t == LB_PREFIX + r.id || t == LB_WARP_PREFIX + r.id))
    {
      assert rs[..i + 1] == rs[..i] + [rs[i]];
      tags := tags + {LB_PREFIX + rs[i].id, LB_WARP_PREFIX + rs[i].id};
    }
    assert rs[..|rs|] == rs;
  }

  /** Access types some hub node renders an inbound for. */
  method RenderedAccess(c: Config) returns (rendered: set<Access>)
    ensures forall a :: a in rendered <==> IsRendered(c, a)
  {
    rendered := {};
    for i := 0 to |c.regions|
      invariant forall a :: a in rendered <==>
                              exists r, n :: r in c.regions[..i] && r.HubRegion? && n in r.nodes && a in HubRendered(c, r, n)
    {
      var r := c.regions[i];
      assert c.regions[..i + 1] == c.regions[..i] + [r];
      if r.HubRegion? {
        ghost var before := rendered;
        for j := 0 to |r.nodes|
          invariant forall a :: a in rendered <==>
                                  a in before || exists n :: n in r.nodes[..j] && a in HubRendered(c, r, n)
        {
          assert r.nodes[..j + 1] == r.nodes[..j] + [r.nodes[j]];
          rendered := rendered + HubRendered(c, r, r.nodes[j]);
        }
        assert r.nodes[..|r.nodes|] == r.nodes;
      }
    }
    assert c.regions[..|c.regions|] == c.regions;
  }

  /** Owners of published (node, port) pairs, filled portal by portal. */
  class PublishTable {
    var owner: map<(string, nat), string>

    constructor ()
      ensures owner == map[]
    {
      owner := map[];
    }
  }

  // Portals ---------------------------------------------------------------------------------

  /** Whether `e` may bind its port on node `id`: no transport of it is already bound there. */
  lemma PortFreeByTable(c: Config, id: string, e: Publish, ports: map<string, map<Socket, string>>)
    requires NoDup(NodeIds(NodesOf(c.regions)))
    requires PortsOf(c, c.regions, ports)
    requires id in HubNodeIds(c)
    ensures id in ports
    ensures PortFree(c, id, e) <==> forall t :: t in e.network ==> Socket(e.port, t) !in ports[id]
  {
    var r, n := NodeIdOwner(Hubs(c.regions), id);
    assert r in c.regions;
    if PortFree(c, id, e) {
      forall t | t in e.network ensures Socket(e.port, t) !in ports[id] {
        assert Socket(e.port, t) !in Reserved(c, r, n);
      }
    }
  }

  method CheckEntryNodes(c: Config, e: Publish) returns (out: Option<Rejection>)
    ensures out.None? <==> forall id :: id in e.nodes ==> id in HubNodeIds(c)
  {
    for k := 0 to |e.nodes|
      invariant forall id :: id in e.nodes[..k] ==> id in HubNodeIds(c)
    {
      if e.nodes[k] !in HubNodeIds(c) { return Some(BadPublishNode(e.nodes[k])); }
    }
    return None;
  }

  /** Whether no transport of `e` is bound already. */
  method CheckPort(e: Publish, bound: map<Socket, string>) returns (free: bool)
    ensures free <==> forall t :: t in e.network ==> Socket(e.port, t) !in bound
  {
    free := !(Tcp in e.network && Socket(e.port, Tcp) in bound) && !(Udp in e.network && Socket(e.port, Udp) in bound);
    forall t | free && t in e.network ensures Socket(e.port, t) !in bound {
      match t case Tcp => case Udp =>
    }
  }

  method CheckScope(c: Config, scope: seq<string>, e: Publish, ports: map<string, map<Socket, string>>)
    returns (bound: Option<string>)
    requires NoDup(NodeIds(NodesOf(c.regions))) && PortsOf(c, c.regions, ports)
    requires forall id :: id in scope ==> id in HubNodeIds(c)
    ensures bound.None? <==> forall id :: id in scope ==> PortFree(c, id, e)
  {
    for k := 0 to |scope|
      invariant forall id :: id in scope[..k] ==> PortFree(c, id, e)
    {
      assert scope[k] in scope;
      PortFreeByTable(c, scope[k], e, ports);
      var free := CheckPort(e, ports[scope[k]]);
      if !free { return Some(scope[k]); }
    }
    return None;
  }

  /** Records the claims of one entry, unless some node already has the port published. */
  method RecordClaims(p: Portal, claims: seq<(string, nat)>, table: PublishTable, ghost before: seq<(string, nat)>)
    returns (twice: Option<(string, nat)>)
    requires table.owner.Keys == Elems(before) && NoDup(before)
    modifies table
    ensures twice.None? <==> NoDup(before + claims)
    ensures twice.None? ==> table.owner.Keys == Elems(before + claims)
  {
    assert before + claims[..0] == before;
    for k := 0 to |claims|
      invariant table.owner.Keys == Elems(before + claims[..k]) && NoDup(before + claims[..k])
    {
      ghost var sofar := before + claims[..k];
      assert before + claims[..k + 1] == sofar + [claims[k]];
      NoDupSnoc(sofar, claims[k]);
      if claims[k] in table.owner {
        assert before + claims == (sofar + [claims[k]]) + claims[k + 1..];
        NoDupConcat(sofar + [claims[k]], claims[k + 1..]);
        return Some(claims[k]);
      }
      table.owner := table.owner[claims[k] := p.id];
    }
    assert claims[..|claims|] == claims;
    return None;
  }

  /** One publish entry: every node it binds is a hub with the port free, and each claim is recorded. */
  method CheckEntry(c: Config, p: Portal, e: Publish, ports: map<string, map<Socket, string>>,
                    table: PublishTable, ghost before: seq<(string, nat)>)
    returns (out: Option<Rejection>)
    requires NoDup(NodeIds(NodesOf(c.regions))) && PortsOf(c, c.regions, ports)
    requires table.owner.Keys == Elems(before) && NoDup(before)
    modifies table
    ensures out.None? <==> EntryOk(c, e) && NoDup(before + EntryClaims(c, e))
    ensures out.None? ==> table.owner.Keys == Elems(before + EntryClaims(c, e))
  {
    out := CheckEntryNodes(c, e);
    if out.Some? { return; }
    var bound := CheckScope(c, Scope(c, e), e, ports);
    if bound.Some? { return Some(PublishedPortBound(bound.value, e.port)); }
    var twice := RecordClaims(p, EntryClaims(c, e), table, before);
    if twice.Some? { return Some(PublishedTwice(twice.value.0, e.port)); }
  }

  lemma {:induction false} PublishClaimsPrefix(c: Config, before: seq<(string, nat)>, es: seq<Publish>, k: nat)
    requires k <= |es|
    ensures NoDup(before + PublishClaims(c, es)) ==> NoDup(before + PublishClaims(c, es[..k]))
  {
    if k == |es| {
      assert es[..k] == es;
    } else {
      var front, own := PublishClaims(c, es[..|es| - 1]), EntryClaims(c, es[|es| - 1]);
      PublishClaimsPrefix(c, before, es[..|es| - 1], k);
      assert es[..|es| - 1][..k] == es[..k];
      assert before + PublishClaims(c, es) == (before + front) + own;
      NoDupConcat(before + front, own);
    }
  }

  /** One more entry of a portal. */
  lemma PublishStep(c: Config, before: seq<(string, nat)>, es: seq<Publish>, k: nat)
    requires k < |es|
    ensures (forall e :: e in es[..k + 1] ==> EntryOk(c, e)) <==> (forall e :: e in es[..k] ==> EntryOk(c, e)) && EntryOk(c, es[k])
    ensures before + PublishClaims(c, es[..k + 1]) == (before + PublishClaims(c, es[..k])) + EntryClaims(c, es[k])
    ensures NoDup(before + PublishClaims(c, es)) ==> NoDup(before + PublishClaims(c, es[..k + 1]))
  {
    assert es[..k + 1] == es[..k] + [es[k]] && es[..k + 1][..k] == es[..k];
    Regroup(before, PublishClaims(c, es[..k]), EntryClaims(c, es[k]));
    PublishClaimsPrefix(c, before, es, k + 1);
  }

  method ValidatePortalPublish(c: Config, p: Portal, ports: map<string, map<Socket, string>>,
                               table: PublishTable, ghost before: seq<(string, nat)>)
    returns (out: Option<Rejection>)
    requires NoDup(NodeIds(NodesOf(c.regions))) && PortsOf(c, c.regions, ports)
    requires table.owner.Keys == Elems(before) && NoDup(before)
    modifies table
    ensures out.None? <==>
            (forall e :: e in p.publish ==> EntryOk(c, e)) && NoDup(before + PublishClaims(c, p.publish))
    ensures out.None? ==> table.owner.Keys == Elems(before + PublishClaims(c, p.publish))
  {
    var es := p.publish;
    assert before + PublishClaims(c, es[..0]) == before;
    for k := 0 to |es|
      invariant forall e :: e in es[..k] ==> EntryOk(c, e)
      invariant var sofar := before + PublishClaims(c, es[..k]); table.owner.Keys == Elems(sofar) && NoDup(sofar)
    {
      PublishStep(c, before, es, k);
      out := CheckEntry(c, p, es[k], ports, table, before + PublishClaims(c, es[..k]));
      if out.Some? {
        assert es[k] in es;
        return;
      }
    }
    assert es[..|es|] == es;
    return None;
  }

  /** No exit region's selector starts the portal's tag. */
  method CheckSelectors(exits: seq<Region>, tag: string) returns (free: bool)
    ensures free <==> forall r :: r in exits ==> !(r.id <= tag) && !(WARP_PREFIX + r.id <= tag)
  {
    for i := 0 to |exits|
      invariant forall r :: r in exits[..i] ==> !(r.id <= tag) && !(WARP_PREFIX + r.id <= tag)
    {
      if exits[i].id <= tag || WARP_PREFIX + exits[i].id <= tag {
        assert exits[i] in exits;
        return false;
      }
    }
    return true;
  }

  method CheckPortalTag(c: Config, p: Portal, nodeIds: set<string>, derived: set<string>) returns (out: Option<Rejection>)
    requires nodeIds == Elems(NodeIds(NodesOf(c.regions)))
    requires forall t :: t in derived <==> IsDerivedTag(c.regions, t)
    ensures out.None? <==>
            && p.id !in NodeIds(NodesOf(c.regions)) && p.id !in RegionIds(c.regions) && !IsSpecial(p.id)
            && !IsDerivedTag(c.regions, PortalTag(p.id))
            && (forall r :: r in c.regions && r.ExitRegion? ==>
                  !(r.id <= PortalTag(p.id)) && !(WARP_PREFIX + r.id <= PortalTag(p.id)))
  {
    if p.id in nodeIds || p.id in RegionIds(c.regions) || IsSpecial(p.id) { return Some(PortalIdTaken(p.id)); }
    var tag := PortalTag(p.id);
    if tag in derived { return Some(PortalTagTaken(p.id)); }
    var free := CheckSelectors(Exits(c.regions), tag);
    return if free then None else Some(PortalTagSelected(p.id));
  }

  lemma UserOf(c: Config, username: string) returns (u: User)
    requires username in Usernames(c.users) && NoDup(Usernames(c.users))
    ensures u in c.users && u.username == username
    ensures MemberOk(c, username) <==> Routable(c, u)
  {
    var k :| 0 <= k < |c.users| && Usernames(c.users)[k] == username;
    u := c.users[k];
    forall v | v in c.users && v.username == username ensures v == u {
      var j :| 0 <= j < |c.users| && c.users[j] == v;
      assert Usernames(c.users)[j] == Usernames(c.users)[k];
    }
  }

  /** A member is fine exactly when some access of its is routable and rendered. */
  lemma MemberMeaning(c: Config, name: string, access: map<string, set<Access>>, rendered: set<Access>)
    requires NoDup(Usernames(c.users)) && access.Keys == Elems(Usernames(c.users))
    requires forall u :: u in c.users ==> u.username in access && access[u.username] == u.access
    requires forall a :: a in rendered <==> IsRendered(c, a)
    ensures MemberOk(c, name) <==> name in access && access[name] * RoutableAccess * rendered != {}
  {
    if name in access {
      var u := UserOf(c, name);
      if a :| a in access[name] * RoutableAccess * rendered { assert a in u.access && IsRendered(c, a); }
      assert forall a :: a in u.access && a in RoutableAccess && a in rendered ==> a in u.access * RoutableAccess * rendered;
    }
  }

  method CheckMembers(c: Config, p: Portal, access: map<string, set<Access>>, rendered: set<Access>)
    returns (out: Option<Rejection>)
    requires NoDup(Usernames(c.users))
    requires access.Keys == Elems(Usernames(c.users))
    requires forall u :: u in c.users ==> u.username in access && access[u.username] == u.access
    requires forall a :: a in rendered <==> IsRendered(c, a)
    ensures out.None? <==> forall u :: u in p.users ==> MemberOk(c, u)
  {
    for k := 0 to |p.users|
      invariant forall u :: u in p.users[..k] ==> MemberOk(c, u)
    {
      var name := p.users[k];
      assert name in p.users;
      MemberMeaning(c, name, access, rendered);
      if name !in access { return Some(UnknownMember(name)); }
      if access[name] * RoutableAccess * rendered == {} { return Some(UnroutableMember(name)); }
    }
    return None;
  }

  lemma {:induction false} ClaimsPrefix(c: Config, ps: seq<Portal>, k: nat)
    requires k <= |ps|
    ensures NoDup(Claims(c, ps)) ==> NoDup(Claims(c, ps[..k]))
  {
    if k == |ps| {
      assert ps[..k] == ps;
    } else {
      ClaimsPrefix(c, ps[..|ps| - 1], k);
      assert ps[..|ps| - 1][..k] == ps[..k];
      NoDupConcat(Claims(c, ps[..|ps| - 1]), PublishClaims(c, ps[|ps| - 1].publish));
    }
  }

  lemma ClaimsTake(c: Config, ps: seq<Portal>, i: nat)
    requires i < |ps|
    ensures Claims(c, ps[..i + 1]) == Claims(c, ps[..i]) + PublishClaims(c, ps[i].publish)
  {
    assert ps[..i + 1][..i] == ps[..i];
  }

  method UserAccess(us: seq<User>) returns (access: map<string, set<Access>>)
    requires NoDup(Usernames(us))
    ensures access.Keys == Elems(Usernames(us))
    ensures forall u :: u in us ==> u.username in access && access[u.username] == u.access
  {
    access := map[];
    for i := 0 to |us|
      invariant access.Keys == Elems(Usernames(us)[..i])
      invariant forall u :: u in us[..i] ==> u.username in access && access[u.username] == u.access
    {
      assert us[..i + 1] == us[..i] + [us[i]];
      assert Usernames(us)[..i + 1] == Usernames(us)[..i] + [us[i].username];
      forall u | u in us[..i] ensures u.username != us[i].username {
        var k :| 0 <= k < i && us[k] == u;
        assert Usernames(us)[k] != Usernames(us)[i];
      }
      access := access[us[i].username := us[i].access];
    }
    assert us[..|us|] == us && Usernames(us)[..|us|] == Usernames(us);
  }

  datatype Tables = Tables(
    nodeIds: set<string>, derived: set<string>, access: map<string, set<Access>>, rendered: set<Access>,
    ports: map<string, map<Socket, string>>)

  ghost predicate TablesOk(c: Config, t: Tables) {
    && t.nodeIds == Elems(NodeIds(NodesOf(c.regions)))
    && (forall tag :: tag in t.derived <==> IsDerivedTag(c.regions, tag))
    && t.access.Keys == Elems(Usernames(c.users))
    && (forall u :: u in c.users ==> u.username in t.access && t.access[u.username] == u.access)
    && (forall a :: a in t.rendered <==> IsRendered(c, a))
    && PortsOf(c, c.regions, t.ports)
  }

  method CheckPortal(c: Config, p: Portal, t: Tables, table: PublishTable, ghost before: seq<(string, nat)>)
    returns (out: Option<Rejection>)
    requires NoDup(NodeIds(NodesOf(c.regions))) && NoDup(Usernames(c.users)) && TablesOk(c, t)
    requires table.owner.Keys == Elems(before) && NoDup(before)
    modifies table
    ensures out.None? <==> PortalOk(c, p) && NoDup(before + PublishClaims(c, p.publish))
    ensures out.None? ==> table.owner.Keys == Elems(before + PublishClaims(c, p.publish))
  {
    out := CheckPortalTag(c, p, t.nodeIds, t.derived);
    if out.Some? { return; }
    out := CheckMembers(c, p, t.access, t.rendered);
    if out.Some? { return; }
    out := ValidatePortalPublish(c, p, t.ports, table, before);
  }

  /** One more portal. */
  lemma PortalStep(c: Config, ps: seq<Portal>, i: nat)
    requires i < |ps|
    ensures (forall p :: p in ps[..i + 1] ==> PortalOk(c, p)) <==> (forall p :: p in ps[..i] ==> PortalOk(c, p)) && PortalOk(c, ps[i])
    ensures Claims(c, ps[..i + 1]) == Claims(c, ps[..i]) + PublishClaims(c, ps[i].publish)
    ensures NoDup(Claims(c, ps)) ==> NoDup(Claims(c, ps[..i + 1]))
  {
    assert ps[..i + 1] == ps[..i] + [ps[i]];
    ClaimsTake(c, ps, i);
    ClaimsPrefix(c, ps, i + 1);
  }

  method CheckEachPortal(c: Config, t: Tables) returns (out: Option<Rejection>)
    requires NoDup(NodeIds(NodesOf(c.regions))) && NoDup(Usernames(c.users)) && TablesOk(c, t)
    ensures out.None? <==>
            && NoDup(PortalIds(c.portals))
            && (forall p :: p in c.portals ==> PortalOk(c, p))
            && NoDup(Claims(c, c.portals))
  {
    var table := new PublishTable();
    var seen: set<string> := {};
    var ps := c.portals;
    ghost var ids := PortalIds(ps);
    for i := 0 to |ps|
      invariant seen == Elems(ids[..i]) && NoDup(ids[..i])
      invariant forall p :: p in ps[..i] ==> PortalOk(c, p)
      invariant table.owner.Keys == Elems(Claims(c, ps[..i])) && NoDup(Claims(c, ps[..i]))
    {
      var p := ps[i];
      NoDupTake(ids, i);
      if p.id in seen { return Some(DuplicatePortal(p.id)); }
      seen := seen + {p.id};
      PortalStep(c, ps, i);
      out := CheckPortal(c, p, t, table, Claims(c, ps[..i]));
      if out.Some? {
        assert p in ps;
        return;
      }
    }
    assert ps[..|ps|] == ps && ids[..|ps|] == ids;
    return None;
  }

  method CheckPortals(c: Config, nodeIds: set<string>, ports: map<string, map<Socket, string>>)
    returns (out: Option<Rejection>)
    requires nodeIds == Elems(NodeIds(NodesOf(c.regions)))
    requires NoDup(NodeIds(NodesOf(c.regions))) && NoDup(Usernames(c.users)) && PortsOf(c, c.regions, ports)
    ensures out.None? <==> PortalsOk(c)
  {
    var derived := DerivedTags(c.regions);
    var access := UserAccess(c.users);
    if c.portals != [] && HubNodeIds(c) == [] { return Some(PortalsWithoutHubs); }
    var rendered := RenderedAccess(c);
    out := CheckEachPortal(c, Tables(nodeIds, derived, access, rendered, ports));
  }

  // Routing ---------------------------------------------------------------------------------

  method CheckHubRoute(c: Config, h: HubRoute, nodeIds: set<string>, usernames: set<string>) returns (out: Option<Rejection>)
    requires nodeIds == Elems(NodeIds(NodesOf(c.regions))) && usernames == Elems(Usernames(c.users))
    ensures out.None? <==> HubRouteOk(c, h)
  {
    var d := h.destination;
    if (exists r :: r in c.regions && r.HubRegion? && r.id == d) || d in HubNodeIds(c) { return Some(BadDestination(d)); }
    if !(IsSpecial(d) || (exists r :: r in c.regions && r.id == d) || d in nodeIds) { return Some(BadDestination(d)); }
    if exists r :: r in c.regions && r.nodes == [] && r.id == d { return Some(BadDestination(d)); }
    for k := 0 to |h.users|
      invariant forall u :: u in h.users[..k] ==> u in Usernames(c.users)
    {
      if h.users[k] !in usernames { assert h.users[k] in h.users; return Some(UnknownRouteUser(h.users[k])); }
    }
    for k := 0 to |h.proxyUsers|
      invariant forall u :: u in h.proxyUsers[..k] ==> u in Usernames(c.users)
    {
      if h.proxyUsers[k] !in usernames { assert h.proxyUsers[k] in h.proxyUsers; return Some(UnknownRouteUser(h.proxyUsers[k])); }
    }
    return None;
  }

  method CheckRouting(c: Config, nodeIds: set<string>, usernames: set<string>) returns (out: Option<Rejection>)
    requires nodeIds == Elems(NodeIds(NodesOf(c.regions))) && usernames == Elems(Usernames(c.users))
    ensures out.None? <==> RoutingOk(c)
  {
    var d := c.hubDefault;
    if exists r :: r in c.regions && r.HubRegion? && r.id == d { return Some(BadDefault(d)); }
    if !((exists r :: r in c.regions && r.id == d) || IsSpecial(d)) { return Some(BadDefault(d)); }
    if exists r :: r in c.regions && r.nodes == [] && r.id == d { return Some(BadDefault(d)); }
    for k := 0 to |c.exitRoutesGlobal|
      invariant forall x :: x in c.exitRoutesGlobal[..k] ==> IsSpecial(x.destination)
    {
      if !IsSpecial(c.exitRoutesGlobal[k].destination) { return Some(BadExitRoute(c.exitRoutesGlobal[k].destination)); }
    }
    for k := 0 to |c.hubRoutes|
      invariant forall h :: h in c.hubRoutes[..k] ==> HubRouteOk(c, h)
    {
      out := CheckHubRoute(c, c.hubRoutes[k], nodeIds, usernames);
      if out.Some? { assert c.hubRoutes[k] in c.hubRoutes; return; }
    }
    return None;
  }

  /** The validator passes a config exactly when it is `Accepted`. */
  method ValidateReferences(c: Config) returns (out: Option<Rejection>)
    ensures out.None? <==> Accepted(c)
  {
    var nodeIds, usernames, ports;
    out, nodeIds := CheckRegions(c);
    if out.Some? { return; }
    out, usernames := CheckPeople(c);
    if out.Some? { return; }
    out, ports := AllReservedPorts(c);
    if out.Some? { return; }
    out := CheckPortals(c, nodeIds, ports);
    if out.Some? { return; }
    out := CheckRouting(c, nodeIds, usernames);
  }
}
