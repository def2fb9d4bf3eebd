/** The root validator: nested loops filling sets and tables, rejecting at the first fault. */
module Validator {
  import opened Base
  import opened Names
  import opened Schema
  import opened Resolve
  import opened Acceptance

  datatype Rejection =
    | DuplicateRegion(id: string) | DuplicateNode(id: string) | CdnWithoutHaproxy(id: string)
    | HysteriaIncomplete(id: string) | ExitWithoutReality(id: string) | EnabledOnExit(id: string)
    | NoVlessRoute(id: string) | DuplicateVlessRoute(route: nat) | BadExitRoute(destination: string)
    | ForeignFallback(id: string) | Unresolved(problem: Problem) | RealityUnderTls(id: string)
    | HysteriaUnderTls(id: string) | DuplicateGroup(id: string) | DuplicateUser(username: string)
    | UnknownGroup(id: string) | SocketClash(id: string) | PortalsWithoutHubs | DuplicatePortal(id: string)
    | PortalIdTaken(id: string) | PortalTagTaken(id: string) | PortalTagSelected(id: string)
    | UnknownMember(username: string) | UnroutableMember(username: string)
    | BadPublishNode(id: string) | PublishedPortBound(id: string, port: nat) | PublishedTwice(id: string, port: nat)
    | BadDefault(id: string) | BadDestination(id: string) | UnknownRouteUser(username: string)

  // Regions ---------------------------------------------------------------------------------

  method CheckRegionIds(rs: seq<Region>) returns (out: Option<Rejection>)
    ensures out.None? <==> NoDup(RegionIds(rs))
  {
    var seen: set<string> := {};
    for i := 0 to |rs|
      invariant seen == Elems(RegionIds(rs)[..i])
      invariant NoDup(RegionIds(rs)[..i])
    {
      NoDupTake(RegionIds(rs), i);
      if rs[i].id in seen { return Some(DuplicateRegion(rs[i].id)); }
      seen := seen + {rs[i].id};
    }
    assert RegionIds(rs)[..|rs|] == RegionIds(rs);
    return None;
  }

  lemma NodeIdsConcat(a: seq<Node>, b: seq<Node>)
    ensures NodeIds(a + b) == NodeIds(a) + NodeIds(b)
  {
  }

  /** A node's own settings. */
  method CheckNode(c: Config, r: Region, n: Node) returns (out: Option<Rejection>)
    ensures out.None? <==> NodeOk(c, r, n)
  {
    if c.cdn.Some? && r.cdnPath.Some? && !NodeHaproxy(n, r, c) { return Some(CdnWithoutHaproxy(n.id)); }
    var h := NodeHysteria(n, r, c);
    if h.Some? {
      if h.value.congestion == Brutal && (h.value.up.None? || h.value.down.None?) { return Some(HysteriaIncomplete(n.id)); }
      if h.value.certificate.Some? && h.value.sni.None? { return Some(HysteriaIncomplete(n.id)); }
    }
    return None;
  }

  /** One more node id after those of `before`. */
  lemma NodeStep(before: seq<Node>, nodes: seq<Node>, j: nat)
    requires j < |nodes| && NoDup(NodeIds(before + nodes[..j]))
    ensures Elems(NodeIds(before + nodes[..j + 1])) == Elems(NodeIds(before + nodes[..j])) + {nodes[j].id}
    ensures NoDup(NodeIds(before + nodes[..j + 1])) <==> nodes[j].id !in NodeIds(before + nodes[..j])
    ensures nodes[j].id in NodeIds(before + nodes[..j]) ==> !NoDup(NodeIds(before + nodes))
  {
    var n, sofar, rest := nodes[j], before + nodes[..j], nodes[j + 1..];
    assert before + nodes[..j + 1] == sofar + [n] && NodeIds([n]) == [n.id];
    NodeIdsConcat(sofar, [n]);
    NoDupSnoc(NodeIds(sofar), n.id);
    assert before + nodes == (sofar + [n]) + rest;
    NodeIdsConcat(sofar + [n], rest);
    NoDupConcat(NodeIds(sofar + [n]), NodeIds(rest));
  }

  method CheckNodes(c: Config, r: Region, ghost before: seq<Node>, nodeIds: set<string>)
    returns (out: Option<Rejection>, ids: set<string>)
    requires nodeIds == Elems(NodeIds(before)) && NoDup(NodeIds(before))
    ensures out.None? <==> (forall n :: n in r.nodes ==> NodeOk(c, r, n)) && NoDup(NodeIds(before + r.nodes))
    ensures out.None? ==> ids == Elems(NodeIds(before + r.nodes))
  {
    ids := nodeIds;
    assert before + r.nodes[..0] == before;
    for j := 0 to |r.nodes|
      invariant ids == Elems(NodeIds(before + r.nodes[..j])) && NoDup(NodeIds(before + r.nodes[..j]))
      invariant forall n :: n in r.nodes[..j] ==> NodeOk(c, r, n)
    {
      var n := r.nodes[j];
      NodeStep(before, r.nodes, j);
      if n.id in ids { return Some(DuplicateNode(n.id)), ids; }
      ids := ids + {n.id};
      out := CheckNode(c, r, n);
      if out.Some? {
        assert n in r.nodes;
        return;
      }
      assert r.nodes[..j + 1] == r.nodes[..j] + [n];
    }
    assert before + r.nodes[..|r.nodes|] == before + r.nodes;
    return None, ids;
  }

  method CheckExitNodes(r: Region) returns (out: Option<Rejection>)
    ensures out.None? <==> forall n :: n in r.nodes ==> ExitNodeOk(n)
  {
    for j := 0 to |r.nodes|
      invariant forall n :: n in r.nodes[..j] ==> ExitNodeOk(n)
    {
      var n := r.nodes[j];
      if n.reality.None? { assert !ExitNodeOk(n); return Some(ExitWithoutReality(n.id)); }
      if n.hysteria.Some? && n.hysteria.value.enabled.Some? { assert !ExitNodeOk(n); return Some(EnabledOnExit(n.id)); }
    }
    return None;
  }

  /** vlessRoute values unique so far, recorded with their owners. */
  method CheckVless(r: Region, ghost before: seq<nat>, seen: map<nat, string>)
    returns (out: Option<Rejection>, routes: map<nat, string>)
    requires r.ExitRegion? && r.vlessRoute.Some?
    requires seen.Keys == Elems(before) && NoDup(before)
    ensures out.None? <==> NoDup(before + RegionVless(r))
    ensures out.None? ==> routes.Keys == Elems(before + RegionVless(r))
  {
    var v := r.vlessRoute.value;
    NoDupSnoc(before, v);
    if r.warp.None? {
      assert RegionVless(r) == [v];
    } else {
      assert RegionVless(r) == [v, r.warp.value];
      assert before + RegionVless(r) == before + [v] + [r.warp.value];
      NoDupSnoc(before + [v], r.warp.value);
    }
    if v in seen {
      return Some(DuplicateVlessRoute(v)), seen;
    }
    routes := seen[v := r.id];
    assert routes.Keys == Elems(before + [v]);
    if r.warp.Some? {
      if r.warp.value in routes {
        return Some(DuplicateVlessRoute(r.warp.value)), routes;
      }
      routes := routes[r.warp.value := r.id + "(warp)"];
    }
    return None, routes;
  }

  method CheckExit(r: Region, ghost before: seq<nat>, seen: map<nat, string>)
    returns (out: Option<Rejection>, routes: map<nat, string>)
    requires r.ExitRegion?
    requires seen.Keys == Elems(before) && NoDup(before)
    ensures out.None? <==> ExitOk(r) && NoDup(before + RegionVless(r))
    ensures out.None? ==> routes.Keys == Elems(before + RegionVless(r))
  {
    routes := seen;
    out := CheckExitNodes(r);
    if out.Some? { return; }
    if r.vlessRoute.None? { return Some(NoVlessRoute(r.id)), seen; }
    out, routes := CheckVless(r, before, seen);
    if out.Some? { return; }
    for k := 0 to |r.routes|
      invariant forall x :: x in r.routes[..k] ==> IsSpecial(x.destination)
    {
      if !IsSpecial(r.routes[k].destination) { return Some(BadExitRoute(r.routes[k].destination)), routes; }
    }
    if r.hysteria.Some? && r.hysteria.value.enabled.Some? { return Some(EnabledOnExit(r.id)), routes; }
    if r.lbFallback.Some? && r.lbFallback.value !in NodeIds(r.nodes) { return Some(ForeignFallback(r.id)), routes; }
    return None, routes;
  }

  method CheckHub(c: Config, r: Region) returns (out: Option<Rejection>)
    requires r.HubRegion?
    ensures out.None? <==> HubOk(c, r)
  {
    var tls := RegionTls(r, c.hubDefaults);
    if tls.Err? { return Some(Unresolved(tls.error)); }
    for j := 0 to |r.nodes|
      invariant forall n :: n in r.nodes[..j] ==> HubNodeOk(c, r, n)
    {
      var n := r.nodes[j];
      if tls.value.Some? {
        if n.reality.Some? { assert !HubNodeOk(c, r, n); return Some(RealityUnderTls(n.id)); }
        if NodeHysteria(n, r, c).Some? { assert !HubNodeOk(c, r, n); return Some(HysteriaUnderTls(n.id)); }
      }
    }
    return None;
  }

  method CheckXhttp(c: Config, r: Region) returns (out: Option<Rejection>)
    ensures out.None? <==> forall n :: n in r.nodes ==> NodeXhttp(n, r, c).Ok?
  {
    for j := 0 to |r.nodes|
      invariant forall n :: n in r.nodes[..j] ==> NodeXhttp(n, r, c).Ok?
    {
      var x := NodeXhttp(r.nodes[j], r, c);
      if x.Err? { assert r.nodes[j] in r.nodes; return Some(Unresolved(x.error)); }
    }
    return None;
  }

  method CheckRegion(c: Config, r: Region, ghost before: seq<Region>, nodeIds: set<string>, seen: map<nat, string>)
    returns (out: Option<Rejection>, ids: set<string>, routes: map<nat, string>)
    requires nodeIds == Elems(NodeIds(NodesOf(before))) && NoDup(NodeIds(NodesOf(before)))
    requires seen.Keys == Elems(VlessRoutes(before)) && NoDup(VlessRoutes(before))
    ensures out.None? <==>
            && RegionOk(c, r)
            && NoDup(NodeIds(NodesOf(before + [r]))) && NoDup(VlessRoutes(before + [r]))
    ensures out.None? ==>
              && ids == Elems(NodeIds(NodesOf(before + [r])))
              && routes.Keys == Elems(VlessRoutes(before + [r]))
  {
    assert (before + [r])[..|before|] == before;
    assert NodesOf(before + [r]) == NodesOf(before) + r.nodes;
    assert VlessRoutes(before + [r]) == VlessRoutes(before) + RegionVless(r);
    routes := seen;
    out, ids := CheckNodes(c, r, NodesOf(before), nodeIds);
    if out.Some? { return; }
    if r.ExitRegion? {
      out, routes := CheckExit(r, VlessRoutes(before), seen);
    } else {
      assert VlessRoutes(before) + [] == VlessRoutes(before);
      out := CheckHub(c, r);
    }
    if out.Some? { return; }
    out := CheckXhttp(c, r);
  }

  lemma {:induction false} NodesOfConcat(a: seq<Region>, b: seq<Region>)
    ensures NodesOf(a + b) == NodesOf(a) + NodesOf(b)
  {
    if b == [] {
      assert a + b == a;
    } else {
      var front, last := b[..|b| - 1], b[|b| - 1];
      NodesOfConcat(a, front);
      ConcatFront(a, b);
      Regroup(NodesOf(a), NodesOf(front), last.nodes);
    }
  }

  /** A clash within a prefix of the regions is a clash within all of them. */
  lemma PrefixUnique(rs: seq<Region>, i: nat)
    requires i <= |rs|
    ensures NoDup(NodeIds(NodesOf(rs))) ==> NoDup(NodeIds(NodesOf(rs[..i])))
    ensures NoDup(VlessRoutes(rs)) ==> NoDup(VlessRoutes(rs[..i]))
  {
    assert rs == rs[..i] + rs[i..];
    NodesOfConcat(rs[..i], rs[i..]);
    NodeIdsConcat(NodesOf(rs[..i]), NodesOf(rs[i..]));
    NoDupConcat(NodeIds(NodesOf(rs[..i])), NodeIds(NodesOf(rs[i..])));
    FlatMapConcat(VlessOf(), rs[..i], rs[i..]);
    NoDupConcat(VlessRoutes(rs[..i]), VlessRoutes(rs[i..]));
  }

  method CheckRegions(c: Config) returns (out: Option<Rejection>, nodeIds: set<string>)
    ensures out.None? <==> RegionsOk(c)
    ensures out.None? ==> nodeIds == Elems(NodeIds(NodesOf(c.regions)))
  {
    nodeIds := {};
    out := CheckRegionIds(c.regions);
    if out.Some? { return; }
    var seen: map<nat, string> := map[];
    for i := 0 to |c.regions|
      invariant out.None?
      invariant nodeIds == Elems(NodeIds(NodesOf(c.regions[..i]))) && NoDup(NodeIds(NodesOf(c.regions[..i])))
      invariant seen.Keys == Elems(VlessRoutes(c.regions[..i])) && NoDup(VlessRoutes(c.regions[..i]))
      invariant forall r :: r in c.regions[..i] ==> RegionOk(c, r)
    {
      var r := c.regions[i];
      assert c.regions[..i + 1] == c.regions[..i] + [r];
      out, nodeIds, seen := CheckRegion(c, r, c.regions[..i], nodeIds, seen);
      if out.Some? {
        PrefixUnique(c.regions, i + 1);
        return;
      }
    }
    assert c.regions[..|c.regions|] == c.regions;
  }

  // Groups and users ------------------------------------------------------------------------

  method CheckGroups(gs: seq<Group>) returns (out: Option<Rejection>)
    ensures out.None? <==> NoDup(GroupIds(gs))
  {
    var seen: set<string> := {};
    ghost var ids := GroupIds(gs);
    for i := 0 to |gs|
      invariant seen == Elems(ids[..i]) && NoDup(ids[..i])
    {
      NoDupTake(ids, i);
      if gs[i].id in seen { return Some(DuplicateGroup(gs[i].id)); }
      seen := seen + {gs[i].id};
    }
    assert ids[..|gs|] == ids;
    return None;
  }

  method CheckPeople(c: Config) returns (out: Option<Rejection>, usernames: set<string>)
    ensures out.None? <==> PeopleOk(c)
    ensures out.None? ==> usernames == Elems(Usernames(c.users))
  {
    usernames := {};
    out := CheckGroups(c.groups);
    if out.Some? { return; }
    ghost var names := Usernames(c.users);
    for i := 0 to |c.users|
      invariant usernames == Elems(names[..i]) && NoDup(names[..i])
      invariant forall u :: u in c.users[..i] ==> u.group in GroupIds(c.groups)
    {
      var u := c.users[i];
      NoDupTake(names, i);
      if u.username in usernames { return Some(DuplicateUser(u.username)), usernames; }
      usernames := usernames + {u.username};
      if u.group !in GroupIds(c.groups) {
        assert u in c.users;
        return Some(UnknownGroup(u.group)), usernames;
      }
    }
    assert names[..|names|] == names;
    return None, usernames;
  }
}
