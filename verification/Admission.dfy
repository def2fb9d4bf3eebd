/** The remaining URL kinds, and the theorem that every emitted URL is admitted where it dials. */
module Admission {
  import opened Base
  import opened Names
  import opened Schema
  import opened Resolve
  import opened Acceptance
  import opened Identity
  import opened Inbounds
  import opened Shares

  // Hysteria URLs ---------------------------------------------------------------------------

  datatype HysteriaNode = HysteriaNode(r: Region, n: Node, h: HysteriaInbound)

  /** Endpoint material a client needs, the same for nodes that can share a URL. */
  datatype Material = Material(port: nat, endpoint: Endpoint)

  function MaterialOf(x: HysteriaNode): Material { Material(x.h.config.port, x.h.endpoint) }

  function MaterialsIn(xs: seq<HysteriaNode>, region: string): set<Material> {
    if xs == [] then {} else
      MaterialsIn(xs[..|xs| - 1], region) + (if xs[|xs| - 1].r.id == region then {MaterialOf(xs[|xs| - 1])} else {})
  }

  function HysteriaUrlOf(e: Env, x: HysteriaNode): Url {
    HysteriaUrl(e.id.Uuid(e.ns), x.n.hostname, x.h.config.port, x.h.endpoint.sni, x.h.endpoint.pin, x.h.endpoint.obfs)
  }

  /** Named after the region when all its listeners agree, else after the node. */
  function HysteriaShare(e: Env, all: seq<HysteriaNode>, x: HysteriaNode): Share {
    Share(if |MaterialsIn(all, x.r.id)| == 1 then x.r.id else x.n.id, x.r, x.n, HysteriaAt(x.h), HysteriaUrlOf(e, x))
  }

  function HysteriaShares(e: Env, all: seq<HysteriaNode>, xs: seq<HysteriaNode>): seq<Share> {
    if xs == [] then [] else
      var front, x := xs[..|xs| - 1], xs[|xs| - 1];
      HysteriaShares(e, all, front)
      + (if MaterialOf(x) in MaterialsIn(front, x.r.id) then [] else [HysteriaShare(e, all, x)])
  }

  ghost predicate Groups(table: map<string, set<Material>>, xs: seq<HysteriaNode>) {
    forall id :: (if id in table then table[id] else {}) == MaterialsIn(xs, id)
  }

  lemma GroupsSnoc(table: map<string, set<Material>>, xs: seq<HysteriaNode>, i: nat)
    requires i < |xs| && Groups(table, xs[..i])
    ensures Groups(table[xs[i].r.id := MaterialsIn(xs[..i], xs[i].r.id) + {MaterialOf(xs[i])}], xs[..i + 1])
  {
    assert xs[..i + 1][..i] == xs[..i];
  }

  lemma GroupsKnown(table: map<string, set<Material>>, xs: seq<HysteriaNode>, i: nat)
    requires i < |xs| && Groups(table, xs[..i]) && MaterialOf(xs[i]) in MaterialsIn(xs[..i], xs[i].r.id)
    ensures Groups(table, xs[..i + 1])
  {
    assert xs[..i + 1][..i] == xs[..i];
  }

  method PerRegion(xs: seq<HysteriaNode>) returns (table: map<string, set<Material>>)
    ensures Groups(table, xs)
  {
    table := map[];
    for i := 0 to |xs|
      invariant Groups(table, xs[..i])
    {
      var id := xs[i].r.id;
      GroupsSnoc(table, xs, i);
      table := table[id := (if id in table then table[id] else {}) + {MaterialOf(xs[i])}];
    }
    assert xs[..|xs|] == xs;
  }

  lemma HysteriaStep(e: Env, xs: seq<HysteriaNode>, i: nat)
    requires i < |xs|
    ensures HysteriaShares(e, xs, xs[..i + 1]) == HysteriaShares(e, xs, xs[..i])
            + (if MaterialOf(xs[i]) in MaterialsIn(xs[..i], xs[i].r.id) then [] else [HysteriaShare(e, xs, xs[i])])
  {
    assert xs[..i + 1][..i] == xs[..i];
  }

  /** One listener: skipped when its region already has a URL with the same material. */
  method EmitOne(e: Env, xs: seq<HysteriaNode>, i: nat, perRegion: map<string, set<Material>>,
                 emitted: map<string, set<Material>>, shares: seq<Share>)
    returns (out: seq<Share>, table: map<string, set<Material>>)
    requires i < |xs| && Groups(perRegion, xs) && Groups(emitted, xs[..i]) && shares == HysteriaShares(e, xs, xs[..i])
    ensures Groups(table, xs[..i + 1]) && out == HysteriaShares(e, xs, xs[..i + 1])
  {
    var x := xs[i];
    var done := if x.r.id in emitted then emitted[x.r.id] else {};
    assert done == MaterialsIn(xs[..i], x.r.id);
    HysteriaStep(e, xs, i);
    if MaterialOf(x) in done {
      GroupsKnown(emitted, xs, i);
      return shares, emitted;
    }
    GroupsSnoc(emitted, xs, i);
    table := emitted[x.r.id := done + {MaterialOf(x)}];
    var agreed := if x.r.id in perRegion then perRegion[x.r.id] else {};
    assert agreed == MaterialsIn(xs, x.r.id);
    out := shares + [Share(if |agreed| == 1 then x.r.id else x.n.id, x.r, x.n, HysteriaAt(x.h), HysteriaUrlOf(e, x))];
  }

  method EmitHysteria(e: Env, xs: seq<HysteriaNode>) returns (shares: seq<Share>)
    ensures shares == HysteriaShares(e, xs, xs)
  {
    var perRegion := PerRegion(xs);
    var emitted: map<string, set<Material>> := map[];
    shares := [];
    for i := 0 to |xs|
      invariant shares == HysteriaShares(e, xs, xs[..i]) && Groups(emitted, xs[..i])
    {
      shares, emitted := EmitOne(e, xs, i, perRegion, emitted, shares);
    }
    assert xs[..|xs|] == xs;
  }

  lemma {:induction false} MaterialsMember(xs: seq<HysteriaNode>, region: string, m: Material)
    ensures m in MaterialsIn(xs, region) <==> exists x :: x in xs && x.r.id == region && MaterialOf(x) == m
  {
    if xs != [] {
      MaterialsMember(xs[..|xs| - 1], region, m);
      assert xs == xs[..|xs| - 1] + [xs[|xs| - 1]];
    }
  }

  predicate IsHysteria(s: Share) { s.at.HysteriaAt? }

  function ShareMaterial(s: Share): Material
    requires IsHysteria(s)
  {
    Material(s.at.hysteria.config.port, s.at.hysteria.endpoint)
  }

  lemma {:induction false} HysteriaProvenance(e: Env, all: seq<HysteriaNode>, xs: seq<HysteriaNode>, s: Share) returns (x: HysteriaNode)
    requires s in HysteriaShares(e, all, xs)
    ensures x in xs && s == HysteriaShare(e, all, x)
  {
    var front, last := xs[..|xs| - 1], xs[|xs| - 1];
    if s in HysteriaShares(e, all, front) {
      x := HysteriaProvenance(e, all, front, s);
    } else {
      x := last;
    }
  }

  /** Every listening node is covered by a URL of its region with the same material. */
  lemma {:induction false} HysteriaCoverage(e: Env, all: seq<HysteriaNode>, xs: seq<HysteriaNode>, x: HysteriaNode) returns (s: Share)
    requires x in xs
    ensures s in HysteriaShares(e, all, xs) && IsHysteria(s) && s.region.id == x.r.id && ShareMaterial(s) == MaterialOf(x)
  {
    var front, last := xs[..|xs| - 1], xs[|xs| - 1];
    MaterialsMember(front, x.r.id, MaterialOf(x));
    if MaterialOf(x) in MaterialsIn(front, x.r.id) {
      var y :| y in front && y.r.id == x.r.id && MaterialOf(y) == MaterialOf(x);
      s := HysteriaCoverage(e, all, front, y);
    } else {
      assert x == last;
      s := HysteriaShare(e, all, x);
    }
  }

  /** Within a region no two Hysteria URLs carry the same material. */
  lemma {:induction false} HysteriaOncePerMaterial(e: Env, all: seq<HysteriaNode>, xs: seq<HysteriaNode>, i: nat, j: nat)
    requires i < j < |HysteriaShares(e, all, xs)|
    ensures var s := HysteriaShares(e, all, xs);
            IsHysteria(s[i]) && IsHysteria(s[j]) && (s[i].region.id == s[j].region.id ==> ShareMaterial(s[i]) != ShareMaterial(s[j]))
  {
    var front, last := xs[..|xs| - 1], xs[|xs| - 1];
    var prev, shares := HysteriaShares(e, all, front), HysteriaShares(e, all, xs);
    if j < |prev| {
      HysteriaOncePerMaterial(e, all, front, i, j);
    } else {
      assert shares[i] == prev[i] && prev[i] in prev;
      var x := HysteriaProvenance(e, all, front, prev[i]);
      MaterialsMember(front, last.r.id, MaterialOf(x));
    }
  }

  lemma MaterialsShape(xs: seq<HysteriaNode>, region: string, m: Material)
    requires m in MaterialsIn(xs, region)
    ensures |MaterialsIn(xs, region)| == 1 <==> forall y :: y in xs && y.r.id == region ==> MaterialOf(y) == m
  {
    var all := MaterialsIn(xs, region);
    forall y | y in xs && y.r.id == region ensures MaterialOf(y) in all { MaterialsMember(xs, region, MaterialOf(y)); }
    if |all| == 1 {
      assert |all - {m}| == 0;
      forall k | k in all ensures k == m { assert k !in all - {m}; }
    }
    if forall y :: y in xs && y.r.id == region ==> MaterialOf(y) == m {
      forall k | k in all ensures k == m { MaterialsMember(xs, region, k); }
      assert all == {m};
    }
  }

  /** A URL is named after its region exactly when all listeners of the region carry its material, else after its node. */
  lemma HysteriaNamed(e: Env, all: seq<HysteriaNode>, s: Share)
    requires s in HysteriaShares(e, all, all)
    ensures IsHysteria(s)
    ensures s.owner == if forall y :: y in all && y.r.id == s.region.id ==> MaterialOf(y) == ShareMaterial(s)
                       then s.region.id else s.node.id
  {
    var x := HysteriaProvenance(e, all, all, s);
    MaterialsMember(all, x.r.id, MaterialOf(x));
    MaterialsShape(all, x.r.id, MaterialOf(x));
  }

  // CDN URLs --------------------------------------------------------------------------------

  /** CDN inbound of a hub node; of the node's own settings only the keys matter, for the flow. */
  function HubCdn(e: Env, r: Region, keys: NodeKeys): Option<CdnInbound> {
    if e.c.cdn.None? || r.cdnPath.None? then None
    else Some(CdnInbound(Clients(e.ns, Flow(keys), FlatMap(AccessIds(Access.Cdn, true), e.c.users)),
                         e.c.cdn.value.hubDomain, r.cdnPath.value))
  }

  function CdnUrl(e: Env, cdn: CdnInbound, keys: NodeKeys): Url {
    VlessUrl(e.id.Uuid(e.ns), cdn.host, e.shortId, cdn.host, cdn.path, cdn.host, "", keys.encryption, ClientFlow(keys))
  }

  /** No earlier node of the request is of the same region. */
  ghost predicate IsFirst(pairs: seq<(Region, Node)>, i: nat)
    requires i < |pairs|
  {
    forall j :: 0 <= j < i ==> pairs[j].0.id != pairs[i].0.id
  }

  /** The share of the node that stands for its region. */
  ghost predicate CdnFor(e: Env, p: (Region, Node), s: Share) {
    && p.1.id in e.keys && HubCdn(e, p.0, e.keys[p.1.id]).Some?
    && var cdn := HubCdn(e, p.0, e.keys[p.1.id]).value;
       s == Share(p.0.id + "(CDN)", p.0, p.1, CdnAt(cdn, e.keys[p.1.id]), CdnUrl(e, cdn, e.keys[p.1.id]))
  }

  /** Ids of the regions of the first `i` nodes. */
  function RegionsSeen(pairs: seq<(Region, Node)>, i: nat): set<string>
    requires i <= |pairs|
  {
    if i == 0 then {} else RegionsSeen(pairs, i - 1) + {pairs[i - 1].0.id}
  }

  lemma {:induction false} SeenIs(pairs: seq<(Region, Node)>, i: nat, id: string)
    requires i <= |pairs|
    ensures id in RegionsSeen(pairs, i) <==> exists j :: 0 <= j < i && pairs[j].0.id == id
  {
    if i > 0 { SeenIs(pairs, i - 1, id); }
  }

  ghost predicate CdnSound(e: Env, pairs: seq<(Region, Node)>, n: nat, shares: seq<Share>)
    requires n <= |pairs|
  {
    && (forall s :: s in shares ==> CdnMade(e, pairs, n, s))
    && (forall i :: 0 <= i < n && IsFirst(pairs, i) ==> pairs[i].1.id in e.keys)
    && (forall i :: 0 <= i < n && IsFirst(pairs, i) && pairs[i].0.cdnPath.Some? ==> CoveredCdn(e, pairs[i], shares))
  }

  ghost predicate CdnMade(e: Env, pairs: seq<(Region, Node)>, n: nat, s: Share)
    requires n <= |pairs|
  {
    exists i :: 0 <= i < n && IsFirst(pairs, i) && CdnFor(e, pairs[i], s)
  }

  ghost predicate CoveredCdn(e: Env, p: (Region, Node), shares: seq<Share>) { exists s :: s in shares && CdnFor(e, p, s) }

  lemma StillCovered(e: Env, p: (Region, Node), shares: seq<Share>, s: Share)
    requires CoveredCdn(e, p, shares)
    ensures CoveredCdn(e, p, shares + [s])
  {
    var x :| x in shares && CdnFor(e, p, x);
    assert x in shares + [s];
  }

  ghost predicate CdnOnce(shares: seq<Share>) {
    forall i, j :: 0 <= i < j < |shares| ==> shares[i].region.id != shares[j].region.id
  }

  lemma SeenMore(pairs: seq<(Region, Node)>, i: nat)
    requires i < |pairs|
    ensures pairs[i].0.id in RegionsSeen(pairs, i) <==> !IsFirst(pairs, i)
    ensures RegionsSeen(pairs, i + 1) == RegionsSeen(pairs, i) + {pairs[i].0.id}
    ensures !IsFirst(pairs, i) ==> RegionsSeen(pairs, i + 1) == RegionsSeen(pairs, i)
  {
    SeenIs(pairs, i, pairs[i].0.id);
  }

  lemma CdnMore(e: Env, pairs: seq<(Region, Node)>, i: nat, shares: seq<Share>, s: Share)
    requires i < |pairs| && CdnSound(e, pairs, i, shares) && IsFirst(pairs, i) && CdnFor(e, pairs[i], s)
    ensures CdnSound(e, pairs, i + 1, shares + [s])
  {
    forall k | 0 <= k < i && IsFirst(pairs, k) && pairs[k].0.cdnPath.Some? ensures CoveredCdn(e, pairs[k], shares + [s]) {
      StillCovered(e, pairs[k], shares, s);
    }
    assert s in shares + [s];
  }

  lemma CdnSkip(e: Env, pairs: seq<(Region, Node)>, i: nat, shares: seq<Share>)
    requires i < |pairs| && CdnSound(e, pairs, i, shares)
    requires IsFirst(pairs, i) ==> pairs[i].1.id in e.keys && pairs[i].0.cdnPath.None?
    ensures CdnSound(e, pairs, i + 1, shares)
  {
  }

  lemma CdnOnceMore(e: Env, pairs: seq<(Region, Node)>, i: nat, shares: seq<Share>, s: Share)
    requires i < |pairs| && CdnSound(e, pairs, i, shares) && CdnOnce(shares) && IsFirst(pairs, i) && s.region == pairs[i].0
    ensures CdnOnce(shares + [s])
  {
    forall k | 0 <= k < |shares| ensures shares[k].region.id != s.region.id {
      assert CdnMade(e, pairs, i, shares[k]);
      var j :| 0 <= j < i && IsFirst(pairs, j) && CdnFor(e, pairs[j], shares[k]);
    }
  }

  ghost predicate FirstsHaveKeys(e: Env, pairs: seq<(Region, Node)>) {
    forall i :: 0 <= i < |pairs| && IsFirst(pairs, i) ==> pairs[i].1.id in e.keys
  }

  /** The first node of a region. */
  method EmitCdn(e: Env, pairs: seq<(Region, Node)>, i: nat, shares: seq<Share>) returns (out: Result<seq<Share>, ShareError>)
    requires i < |pairs| && IsFirst(pairs, i) && CdnSound(e, pairs, i, shares) && CdnOnce(shares) && e.c.cdn.Some?
    ensures out.Ok? <==> pairs[i].1.id in e.keys
    ensures out.Ok? ==> CdnSound(e, pairs, i + 1, out.value) && CdnOnce(out.value)
  {
    var r, n := pairs[i].0, pairs[i].1;
    if n.id !in e.keys { return Err(KeysMissing(n.id)); }
    var cdn := HubCdn(e, r, e.keys[n.id]);
    if cdn.None? {
      CdnSkip(e, pairs, i, shares);
      return Ok(shares);
    }
    var s := Share(r.id + "(CDN)", r, n, CdnAt(cdn.value, e.keys[n.id]), CdnUrl(e, cdn.value, e.keys[n.id]));
    CdnMore(e, pairs, i, shares, s);
    CdnOnceMore(e, pairs, i, shares, s);
    return Ok(shares + [s]);
  }

  /** The first node of every region stands for it; fails without a CDN or without such a node's keys. */
  method CdnShareUrls(e: Env, pairs: seq<(Region, Node)>) returns (out: Result<seq<Share>, ShareError>)
    ensures out.Ok? <==> e.c.cdn.Some? && FirstsHaveKeys(e, pairs)
    ensures out.Ok? ==> CdnSound(e, pairs, |pairs|, out.value) && CdnOnce(out.value)
  {
    if e.c.cdn.None? { return Err(NoCdn); }
    var shares: seq<Share> := [];
    var seen: set<string> := {};
    for i := 0 to |pairs|
      invariant seen == RegionsSeen(pairs, i) && CdnSound(e, pairs, i, shares) && CdnOnce(shares)
    {
      var r := pairs[i].0;
      SeenMore(pairs, i);
      if r.id in seen {
        CdnSkip(e, pairs, i, shares);
        continue;
      }
      seen := seen + {r.id};
      var more := EmitCdn(e, pairs, i, shares);
      if more.Err? { return more; }
      shares := more.value;
    }
    return Ok(shares);
  }

  // Who dials -------------------------------------------------------------------------------

  /** The identity a request resolves to: the user, one of the guests, or the server identity. */
  function ResolveIdentity(u: User, guest: Option<string>, server: bool): (out: Result<Id, ShareError>)
    ensures out.Ok? <==> (server ==> guest.None? && Access.Server in u.access) && (guest.Some? ==> guest.value in u.guests)
    ensures out.Ok? ==> out.value == if server then OfServer(u) else if guest.Some? then OfGuest(guest.value, u) else OfUser(u)
  {
    if server && guest.Some? then Err(Exclusive)
    else if server then (if Access.Server in u.access then Ok(OfServer(u)) else Err(NoServerAccess))
    else if guest.Some? then (if guest.value in u.guests then Ok(OfGuest(guest.value, u)) else Err(UnknownGuest))
    else Ok(OfUser(u))
  }

  /** The group's own short id, or the derived one. */
  function OwnShortId(ns: Namespace, g: Group): string { Pick(g.shortId, ns.h.shortId(g.id + "." + ns.name)) }

  /** The request's identity belongs to a user of the config and carries the right short id. */
  ghost predicate Dialer(e: Env) {
    && e.u in e.c.users && !e.id.OfPortal? && e.id.u == e.u
    && (e.id.OfServer? ==> Access.Server in e.u.access)
    && (e.id.OfGuest? ==> e.id.guest in e.u.guests && e.shortId == e.ns.h.shortId(e.u.username + ".user." + e.ns.name))
    && (!e.id.OfGuest? ==> exists g :: g in e.c.groups && g.id == e.u.group && e.shortId == OwnShortId(e.ns, g))
  }

  lemma ShortIdAccepted(e: Env)
    requires Dialer(e) && (e.id.OfGuest? ==> Access.Xhttp in e.u.access)
    ensures e.shortId in HubShortIds(e.c, e.ns)
  {
    if e.id.OfGuest? {
      UserSidListed(e.ns, e.c.users, e.shortId);
    } else {
      var g :| g in e.c.groups && g.id == e.u.group && e.shortId == OwnShortId(e.ns, g);
      var k :| 0 <= k < |e.c.groups| && e.c.groups[k] == g;
      assert GroupSids(e.ns, e.c.groups)[k] == e.shortId;
      assert e.shortId in GroupSids(e.ns, e.c.groups);
    }
  }

  lemma AccessAdmits(e: Env, access: Access, flow: string)
    requires Dialer(e) && access in e.u.access
    ensures ListsClient(Clients(e.ns, flow, FlatMap(AccessIds(access, true), e.c.users)), e.id.Uuid(e.ns))
  {
    AccessIdMember(e.c.users, access, true, e.id);
    ListedById(e.ns, flow, FlatMap(AccessIds(access, true), e.c.users), e.id);
  }

  lemma VlessAdmits(e: Env, flow: string)
    requires Dialer(e) && (e.id.OfServer? || Access.Xhttp in e.u.access)
    ensures ListsClient(Clients(e.ns, flow, FlatMap(VlessIds(), e.c.users)), e.id.Uuid(e.ns))
  {
    VlessIdMember(e.c.users, e.id);
    ListedById(e.ns, flow, FlatMap(VlessIds(), e.c.users), e.id);
  }

  lemma DirectListenerAdmits(e: Env, r: Region, n: Node, keys: NodeKeys, d: Direct)
    requires Dialer(e) && r.HubRegion? && Eligible(e, r) && HubDirect(e.c, e.ns, r, n, keys) == Ok(d)
    ensures Admits(DirectAt(d, keys), DirectUrl(e, n, d, keys))
  {
    var flow := Flow(keys);
    var portals := Clients(e.ns, flow, PortalClientIds(e.c.portals));
    ClientsMeet(e.ns, keys, PortalClientIds(e.c.portals), DirectUrl(e, n, d, keys), keys);
    if d.TlsInbound? {
      AccessAdmits(e, Access.Tls, flow);
      ClientsMeet(e.ns, keys, FlatMap(AccessIds(Access.Tls, true), e.c.users), DirectUrl(e, n, d, keys), keys);
      ListedInConcat(Clients(e.ns, flow, FlatMap(AccessIds(Access.Tls, true), e.c.users)), portals, e.id.Uuid(e.ns));
    } else {
      VlessAdmits(e, flow);
      ClientsMeet(e.ns, keys, FlatMap(VlessIds(), e.c.users), DirectUrl(e, n, d, keys), keys);
      ListedInConcat(Clients(e.ns, flow, FlatMap(VlessIds(), e.c.users)), portals, e.id.Uuid(e.ns));
      ShortIdAccepted(e);
    }
  }

  /** Every direct URL is admitted by the listener of the very node it was made for. */
  lemma DirectSharesAdmitted(e: Env, pairs: seq<(Region, Node)>, s: Share)
    requires Dialer(e) && HubPairs(pairs) && AllOk(Attempts(e, pairs)) && s in DirectShares(SlotsOf(Attempts(e, pairs)))
    ensures (s.region, s.node) in pairs && s.region.HubRegion? && s.node.id in e.keys
    ensures s.at.DirectAt? && s.at.keys == e.keys[s.node.id]
    ensures HubDirect(e.c, e.ns, s.region, s.node, s.at.keys) == Ok(s.at.inbound)
    ensures Admits(s.at, s.url) && s.url.uuid == e.id.Uuid(e.ns)
  {
    var slots := SlotsOf(Attempts(e, pairs));
    DirectProvenance(slots, s);
    var i :| 0 <= i < |slots| && slots[i] == Slot(s.region, s.node, Some(s.at), s.url);
    assert pairs[i] in pairs;
    AttemptsAt(e, pairs, i);
    DirectListenerAdmits(e, s.region, s.node, s.at.keys, s.at.inbound);
  }

  /** A URL emitted for one node of a group that shares it is admitted by the others' listeners too. */
  lemma SharedUrlAdmittedEverywhere(e: Env, pairs: seq<(Region, Node)>, p: (Region, Node), at: Listener) returns (s: Share)
    requires Dialer(e) && HubPairs(pairs) && AllOk(Attempts(e, pairs)) && p in pairs && Eligible(e, p.0)
    requires DirectOf(e, p.0, p.1) == Ok(at)
    ensures s in DirectShares(SlotsOf(Attempts(e, pairs))) && s.region.id == p.0.id && s.at == at && Admits(at, s.url)
  {
    var slots := SlotsOf(Attempts(e, pairs));
    var i :| 0 <= i < |pairs| && pairs[i] == p;
    AttemptsAt(e, pairs, i);
    assert slots[i] == Attempt(e, p.0, p.1).value;
    s := DirectCoverage(slots, slots[i]);
    DirectSharesAdmitted(e, pairs, s);
  }

  ghost predicate Listens(e: Env, x: HysteriaNode) {
    && x.r.HubRegion? && x.n.id in e.keys
    && HubHysteria(e.c, e.ns, e.derive, x.r, x.n, e.keys[x.n.id]) == Ok(Some(x.h))
  }

  /** Hysteria URLs are admitted by the listener they were made for. */
  lemma HysteriaSharesAdmitted(e: Env, xs: seq<HysteriaNode>, s: Share)
    requires Dialer(e) && Access.Hysteria in e.u.access && (forall x :: x in xs ==> Listens(e, x))
    requires s in HysteriaShares(e, xs, xs)
    ensures Admits(s.at, s.url) && s.url.uuid == e.id.Uuid(e.ns)
  {
    var x := HysteriaProvenance(e, xs, xs, s);
    AccessAdmits(e, Access.Hysteria, "");
  }

  /** A Hysteria URL is admitted by every node of its region with the same endpoint material. */
  lemma SharedHysteriaAdmitted(e: Env, xs: seq<HysteriaNode>, s: Share, x: HysteriaNode)
    requires Dialer(e) && Access.Hysteria in e.u.access && (forall y :: y in xs ==> Listens(e, y))
    requires s in HysteriaShares(e, xs, xs) && Listens(e, x) && IsHysteria(s) && ShareMaterial(s) == MaterialOf(x)
    ensures Admits(Listener.HysteriaAt(x.h), s.url)
  {
    var y := HysteriaProvenance(e, xs, xs, s);
    AccessAdmits(e, Access.Hysteria, "");
  }

  lemma CdnSharesAdmitted(e: Env, r: Region, keys: NodeKeys)
    requires Dialer(e) && Access.Cdn in e.u.access && HubCdn(e, r, keys).Some?
    ensures Admits(CdnAt(HubCdn(e, r, keys).value, keys), CdnUrl(e, HubCdn(e, r, keys).value, keys))
  {
    AccessAdmits(e, Access.Cdn, Flow(keys));
  }

  /** A region's URL dials whichever node the shared domain leads to: that node admits it exactly when its encryption is the same. */
  lemma SharedCdnAdmitted(e: Env, r: Region, keys: NodeKeys, other: NodeKeys)
    requires Dialer(e) && Access.Cdn in e.u.access && HubCdn(e, r, keys).Some?
    ensures HubCdn(e, r, other).Some?
    ensures Admits(CdnAt(HubCdn(e, r, other).value, other), CdnUrl(e, HubCdn(e, r, keys).value, keys))
            <==> other.encryption == keys.encryption
  {
    AccessAdmits(e, Access.Cdn, Flow(other));
  }
}
