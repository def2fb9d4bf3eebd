/** Requests for share URLs, from flags to URLs that are all admitted. */
module ShareRequests {
  import opened Base
  import opened Names
  import opened Schema
  import opened Resolve
  import opened Acceptance
  import opened Identity
  import opened Inbounds
  import opened Shares
  import opened Admission
  import Keys

  function NodePair(r: Region): Node -> seq<(Region, Node)> { (n: Node) => [(r, n)] }

  function RegionPairs(): Region -> seq<(Region, Node)> { (r: Region) => FlatMap(NodePair(r), r.nodes) }

  /** Hub nodes a request covers: one, or all of them in file order. */
  function HubNodePairs(c: Config, hub: Option<string>): seq<(Region, Node)> {
    var all := FlatMap(RegionPairs(), Hubs(c.regions));
    if hub.None? then all else WithId(all, hub.value)
  }

  function WithId(pairs: seq<(Region, Node)>, id: string): seq<(Region, Node)> {
    if pairs == [] then [] else if pairs[0].1.id == id then [pairs[0]] else WithId(pairs[1..], id)
  }

  lemma {:induction false} WithIdIn(pairs: seq<(Region, Node)>, id: string)
    ensures forall p :: p in WithId(pairs, id) ==> p in pairs && p.1.id == id
    ensures (exists p :: p in pairs && p.1.id == id) ==> WithId(pairs, id) != []
  {
    if pairs != [] { WithIdIn(pairs[1..], id); }
  }

  lemma PairMember(c: Config, p: (Region, Node))
    ensures p in FlatMap(RegionPairs(), Hubs(c.regions)) <==> p.0 in c.regions && p.0.HubRegion? && p.1 in p.0.nodes
  {
    FlatMapMember(RegionPairs(), Hubs(c.regions), p);
    forall r: Region ensures p in RegionPairs()(r) <==> p.0 == r && p.1 in r.nodes {
      FlatMapMember(NodePair(r), r.nodes, p);
      if p.0 == r && p.1 in r.nodes { assert p in NodePair(r)(p.1); }
    }
  }

  lemma PairsAreHubs(c: Config, hub: Option<string>)
    ensures HubPairs(HubNodePairs(c, hub))
  {
    var all := FlatMap(RegionPairs(), Hubs(c.regions));
    if hub.Some? { WithIdIn(all, hub.value); }
    forall p | p in HubNodePairs(c, hub) ensures p.0.HubRegion? { PairMember(c, p); }
  }

  /** Nodes are covered in file order. */
  lemma PairsInOrder(c: Config, a: seq<Region>, b: seq<Region>)
    ensures HubNodePairs(c.(regions := a + b), None) == HubNodePairs(c.(regions := a), None) + HubNodePairs(c.(regions := b), None)
  {
    InFileOrder(a, b);
    FlatMapConcat(RegionPairs(), Hubs(a), Hubs(b));
  }

  lemma {:induction false} NodesInOrder(c: Config, r: Region, i: nat)
    requires r.HubRegion? && i < |r.nodes|
    ensures var pairs := HubNodePairs(c.(regions := [r]), None); |pairs| == |r.nodes| && pairs[i] == (r, r.nodes[i])
  {
    OneHub(r);
    PairsOf(r, r.nodes, i);
  }

  lemma OneHub(r: Region)
    requires r.HubRegion?
    ensures Hubs([r]) == [r] && FlatMap(RegionPairs(), [r]) == FlatMap(NodePair(r), r.nodes)
  {
    assert [r][..0] == [];
    assert Hubs([r]) == [r];
  }

  lemma {:induction false} PairsOf(r: Region, ns: seq<Node>, i: nat)
    requires i < |ns|
    ensures |FlatMap(NodePair(r), ns)| == |ns| && FlatMap(NodePair(r), ns)[i] == (r, ns[i])
  {
    if |ns| > 1 { PairsOf(r, ns[..|ns| - 1], if i < |ns| - 1 then i else 0); }
  }

  function FindUser(us: seq<User>, username: string): (u: Option<User>)
    ensures u.Some? ==> u.value in us && u.value.username == username
    ensures u.None? ==> forall v :: v in us ==> v.username != username
  {
    if us == [] then None else if us[0].username == username then Some(us[0]) else FindUser(us[1..], username)
  }

  function FindGroup(gs: seq<Group>, id: string): (g: Option<Group>)
    ensures g.Some? ==> g.value in gs && g.value.id == id
    ensures g.None? ==> forall h :: h in gs ==> h.id != id
  {
    if gs == [] then None else if gs[0].id == id then Some(gs[0]) else FindGroup(gs[1..], id)
  }

  // What a request yields -------------------------------------------------------------------

  datatype Kind = DirectKind | CdnKind | HysteriaKind

  /** Hysteria listener of a covered node. */
  ghost predicate ListensAt(e: Env, p: (Region, Node), h: HysteriaInbound) {
    && p.0.HubRegion? && p.1.id in e.keys
    && HubHysteria(e.c, e.ns, e.derive, p.0, p.1, e.keys[p.1.id]) == Ok(Some(h))
  }

  ghost predicate HysteriaBuilds(e: Env, p: (Region, Node)) {
    && p.0.HubRegion? && p.1.id in e.keys
    && HubHysteria(e.c, e.ns, e.derive, p.0, p.1, e.keys[p.1.id]).Ok?
  }

  /** The share is made for a covered node, for the very inbound that node builds, with its URL. */
  ghost predicate MadeFor(e: Env, pairs: seq<(Region, Node)>, kind: Kind, s: Share) {
    && (s.region, s.node) in pairs && s.region.HubRegion? && s.node.id in e.keys
    && match kind
       case DirectKind =>
         && Eligible(e, s.region) && s.at.DirectAt? && s.at.keys == e.keys[s.node.id]
         && HubDirect(e.c, e.ns, s.region, s.node, s.at.keys) == Ok(s.at.inbound)
         && s.url == DirectUrl(e, s.node, s.at.inbound, s.at.keys)
       case CdnKind =>
         && s.at.CdnAt? && s.at.keys == e.keys[s.node.id] && HubCdn(e, s.region, s.at.keys) == Some(s.at.cdn)
         && s.url == CdnUrl(e, s.at.cdn, s.at.keys)
       case HysteriaKind =>
         && s.at.HysteriaAt? && ListensAt(e, (s.region, s.node), s.at.hysteria)
         && s.url == HysteriaUrlOf(e, HysteriaNode(s.region, s.node, s.at.hysteria))
  }

  /** What the client dials, from the config: the node itself, or the shared hub domain behind the CDN. */
  ghost predicate Dials(e: Env, kind: Kind, s: Share) {
    && s.region.HubRegion? && s.node.id in e.keys
    && match kind
       case DirectKind =>
         && DialsDirect(e.c, s.region, s.node, e.keys[s.node.id], s.url)
         && s.url.shortId == if RegionTls(s.region, e.c.hubDefaults).value.Some? then "" else e.shortId
       case CdnKind => DialsCdn(e, s.region, s.url)
       case HysteriaKind => DialsHysteria(e, s.region, s.node, e.keys[s.node.id], s.url)
  }

  ghost predicate DialsCdn(e: Env, r: Region, url: Url) {
    && e.c.cdn.Some? && r.cdnPath.Some? && url.VlessUrl? && url.path == r.cdnPath.value && url.shortId == e.shortId
    && url.hostname == url.sni == url.xhttpHost == e.c.cdn.value.hubDomain
  }

  /** The endpoint's material is derived from the node's settings, its Reality and its private key. */
  ghost predicate DialsHysteria(e: Env, r: Region, n: Node, keys: NodeKeys, url: Url)
    requires r.HubRegion?
  {
    var h, reality := NodeHysteria(n, r, e.c), NodeReality(n, r, e.c.hubDefaults);
    && h.Some? && reality.Ok? && url.HysteriaUrl? && url.hostname == n.hostname && url.port == h.value.port
    && Endpoint(url.sni, url.pin, url.obfs) == e.derive(h.value, reality.value, keys.privateKey, e.ns.name)
  }

  /** Every node the request reaches is served by a share of its region. */
  ghost predicate Covers(e: Env, pairs: seq<(Region, Node)>, kind: Kind, shares: seq<Share>)
    requires HubPairs(pairs)
  {
    match kind
    case DirectKind => forall p :: p in pairs && Eligible(e, p.0) ==> CoveredDirect(e, p, shares)
    case HysteriaKind => forall p, h :: p in pairs && ListensAt(e, p, h) ==> CoveredHysteria(p, h, shares)
    case CdnKind => forall i :: 0 <= i < |pairs| && IsFirst(pairs, i) && pairs[i].0.cdnPath.Some? ==> CoveredCdn(e, pairs[i], shares)
  }

  ghost predicate CoveredDirect(e: Env, p: (Region, Node), shares: seq<Share>)
    requires p.0.HubRegion?
  {
    DirectOf(e, p.0, p.1).Ok? && exists s :: s in shares && Serves(s, p.0.id, p.1, DirectOf(e, p.0, p.1).value)
  }

  ghost predicate CoveredHysteria(p: (Region, Node), h: HysteriaInbound, shares: seq<Share>) {
    exists s :: s in shares && s.region.id == p.0.id && IsHysteria(s) && ShareMaterial(s) == Material(h.config.port, h.endpoint)
  }

  /** No two shares of a region are for the same Reality listener, Hysteria material or CDN inbound. */
  ghost predicate Once(shares: seq<Share>) {
    forall i, j :: 0 <= i < j < |shares| && shares[i].region.id == shares[j].region.id ==> !Alike(shares[i], shares[j])
  }

  predicate Alike(s: Share, t: Share) {
    match s.at
    case DirectAt(_, _) => IsReality(s.at) && s.at == t.at
    case HysteriaAt(_) => IsHysteria(t) && ShareMaterial(s) == ShareMaterial(t)
    case CdnAt(_, _) => t.at.CdnAt?
  }

  /** When derivation succeeds: every listener it looks at can be built, and one of them is there. */
  ghost predicate Derivable(e: Env, pairs: seq<(Region, Node)>, kind: Kind)
    requires HubPairs(pairs)
  {
    match kind
    case DirectKind =>
      && (forall p :: p in pairs && Eligible(e, p.0) ==> DirectOf(e, p.0, p.1).Ok?)
      && exists p :: p in pairs && Eligible(e, p.0)
    case HysteriaKind =>
      && (forall p :: p in pairs ==> HysteriaBuilds(e, p))
      && exists p, h :: p in pairs && ListensAt(e, p, h)
    case CdnKind =>
      && e.c.cdn.Some? && FirstsHaveKeys(e, pairs)
      && exists i :: 0 <= i < |pairs| && IsFirst(pairs, i) && pairs[i].0.cdnPath.Some?
  }

  /** Everything promised of one share. */
  ghost predicate Good(e: Env, pairs: seq<(Region, Node)>, kind: Kind, s: Share) {
    MadeFor(e, pairs, kind, s) && Admits(s.at, s.url) && s.url.uuid == e.id.Uuid(e.ns) && Dials(e, kind, s)
  }

  lemma MadeDials(e: Env, pairs: seq<(Region, Node)>, kind: Kind, s: Share)
    requires MadeFor(e, pairs, kind, s)
    ensures Dials(e, kind, s)
  {
    if kind.DirectKind? { DirectDials(e, s.region, s.node, s.at.keys, s.at.inbound); }
  }

  /** Everything promised of a list of shares. */
  ghost predicate Served(e: Env, pairs: seq<(Region, Node)>, kind: Kind, shares: seq<Share>)
    requires HubPairs(pairs)
  {
    && (forall s :: s in shares ==> Good(e, pairs, kind, s))
    && Covers(e, pairs, kind, shares) && Once(shares)
  }

  // Hysteria --------------------------------------------------------------------------------

  method HysteriaAt(e: Env, r: Region, n: Node) returns (out: Result<Option<HysteriaNode>, ShareError>)
    requires r.HubRegion?
    ensures out.Ok? <==> HysteriaBuilds(e, (r, n))
    ensures out.Ok? ==> (forall h :: ListensAt(e, (r, n), h) <==> out.value == Some(HysteriaNode(r, n, h)))
    ensures out.Ok? && out.value.Some? ==> out.value.value.r == r && out.value.value.n == n
  {
    if n.id !in e.keys { return Err(KeysMissing(n.id)); }
    match HubHysteria(e.c, e.ns, e.derive, r, n, e.keys[n.id]) {
      case Err(problem) => return Err(Broken(problem));
      case Ok(None) => return Ok(None);
      case Ok(Some(h)) => return Ok(Some(HysteriaNode(r, n, h)));
    }
  }

  /** `xs` are the listeners of `pairs`. */
  ghost predicate ListenersOf(e: Env, pairs: seq<(Region, Node)>, xs: seq<HysteriaNode>) {
    && (forall p :: p in pairs ==> HysteriaBuilds(e, p))
    && (forall x :: x in xs ==> (x.r, x.n) in pairs && Listens(e, x))
    && (forall p, h :: p in pairs && ListensAt(e, p, h) ==> HysteriaNode(p.0, p.1, h) in xs)
  }

  lemma ListenersSnoc(e: Env, pairs: seq<(Region, Node)>, xs: seq<HysteriaNode>, p: (Region, Node), at: Option<HysteriaNode>)
    requires ListenersOf(e, pairs, xs) && HysteriaBuilds(e, p)
    requires forall h :: ListensAt(e, p, h) <==> at == Some(HysteriaNode(p.0, p.1, h))
    requires at.Some? ==> at.value.r == p.0 && at.value.n == p.1
    ensures ListenersOf(e, pairs + [p], xs + if at.Some? then [at.value] else [])
  {
    if at.Some? { assert ListensAt(e, p, at.value.h); }
  }

  /** Listeners of the covered nodes, in order; fails exactly when some node's cannot be built. */
  method HysteriaListeners(e: Env, pairs: seq<(Region, Node)>) returns (out: Result<seq<HysteriaNode>, ShareError>)
    requires HubPairs(pairs)
    ensures out.Ok? <==> forall p :: p in pairs ==> HysteriaBuilds(e, p)
    ensures out.Ok? ==> ListenersOf(e, pairs, out.value)
  {
    var xs: seq<HysteriaNode> := [];
    for i := 0 to |pairs|
      invariant ListenersOf(e, pairs[..i], xs)
    {
      assert pairs[i] in pairs && pairs[..i + 1] == pairs[..i] + [pairs[i]];
      var at := HysteriaAt(e, pairs[i].0, pairs[i].1);
      if at.Err? { return Err(at.error); }
      ListenersSnoc(e, pairs[..i], xs, pairs[i], at.value);
      xs := xs + if at.value.Some? then [at.value.value] else [];
    }
    assert pairs[..|pairs|] == pairs;
    return Ok(xs);
  }

  lemma HysteriaMade(e: Env, pairs: seq<(Region, Node)>, xs: seq<HysteriaNode>, s: Share)
    requires Dialer(e) && Access.Hysteria in e.u.access && ListenersOf(e, pairs, xs) && s in HysteriaShares(e, xs, xs)
    ensures Good(e, pairs, HysteriaKind, s)
  {
    var x := HysteriaProvenance(e, xs, xs, s);
    MadeDials(e, pairs, HysteriaKind, s);
    HysteriaSharesAdmitted(e, xs, s);
  }

  lemma HysteriaOnce(e: Env, xs: seq<HysteriaNode>)
    ensures Once(HysteriaShares(e, xs, xs))
  {
    var shares := HysteriaShares(e, xs, xs);
    forall i, j | 0 <= i < j < |shares| && shares[i].region.id == shares[j].region.id ensures !Alike(shares[i], shares[j]) {
      HysteriaOncePerMaterial(e, xs, xs, i, j);
    }
  }

  lemma HysteriaCovers(e: Env, pairs: seq<(Region, Node)>, xs: seq<HysteriaNode>)
    requires HubPairs(pairs) && ListenersOf(e, pairs, xs)
    ensures Covers(e, pairs, HysteriaKind, HysteriaShares(e, xs, xs))
    ensures HysteriaShares(e, xs, xs) != [] <==> exists p, h :: p in pairs && ListensAt(e, p, h)
  {
    var shares := HysteriaShares(e, xs, xs);
    forall p, h | p in pairs && ListensAt(e, p, h) ensures CoveredHysteria(p, h, shares) && shares != [] {
      var s := HysteriaCoverage(e, xs, xs, HysteriaNode(p.0, p.1, h));
    }
    if shares != [] {
      var x := HysteriaProvenance(e, xs, xs, shares[0]);
      assert ListensAt(e, (x.r, x.n), x.h);
    }
  }

  method HysteriaShareUrls(e: Env, pairs: seq<(Region, Node)>) returns (out: Result<seq<Share>, ShareError>)
    requires HubPairs(pairs) && Dialer(e) && Access.Hysteria in e.u.access
    ensures out.Ok? ==> Served(e, pairs, HysteriaKind, out.value)
    ensures out.Ok? && out.value != [] <==> Derivable(e, pairs, HysteriaKind)
  {
    var xs := HysteriaListeners(e, pairs);
    if xs.Err? { return Err(xs.error); }
    var shares := EmitHysteria(e, xs.value);
    forall s | s in shares ensures Good(e, pairs, HysteriaKind, s) { HysteriaMade(e, pairs, xs.value, s); }
    HysteriaCovers(e, pairs, xs.value);
    HysteriaOnce(e, xs.value);
    return Ok(shares);
  }

  // CDN -------------------------------------------------------------------------------------

  lemma CdnServed(e: Env, pairs: seq<(Region, Node)>, shares: seq<Share>)
    requires HubPairs(pairs) && Dialer(e) && Access.Cdn in e.u.access && CdnSound(e, pairs, |pairs|, shares) && CdnOnce(shares)
    ensures Served(e, pairs, CdnKind, shares)
  {
    forall s | s in shares ensures Good(e, pairs, CdnKind, s) {
      assert CdnMade(e, pairs, |pairs|, s);
      var i :| 0 <= i < |pairs| && IsFirst(pairs, i) && CdnFor(e, pairs[i], s);
      assert pairs[i] in pairs;
      CdnSharesAdmitted(e, s.region, e.keys[s.node.id]);
    }
  }

  method CdnUrls(e: Env, pairs: seq<(Region, Node)>) returns (out: Result<seq<Share>, ShareError>)
    requires HubPairs(pairs) && Dialer(e) && Access.Cdn in e.u.access
    ensures out.Ok? ==> Served(e, pairs, CdnKind, out.value)
    ensures out.Ok? && out.value != [] <==> Derivable(e, pairs, CdnKind)
  {
    out := CdnShareUrls(e, pairs);
    if out.Ok? {
      CdnServed(e, pairs, out.value);
      CdnSome(e, pairs, out.value);
    }
  }

  lemma CdnSome(e: Env, pairs: seq<(Region, Node)>, shares: seq<Share>)
    requires CdnSound(e, pairs, |pairs|, shares) && e.c.cdn.Some?
    ensures shares != [] <==> exists i :: 0 <= i < |pairs| && IsFirst(pairs, i) && pairs[i].0.cdnPath.Some?
  {
    if shares != [] {
      assert CdnMade(e, pairs, |pairs|, shares[0]);
      var i :| 0 <= i < |pairs| && IsFirst(pairs, i) && CdnFor(e, pairs[i], shares[0]);
    }
    if i :| 0 <= i < |pairs| && IsFirst(pairs, i) && pairs[i].0.cdnPath.Some? {
      assert CoveredCdn(e, pairs[i], shares);
    }
  }

  // Direct ----------------------------------------------------------------------------------

  lemma AttemptsOk(e: Env, pairs: seq<(Region, Node)>)
    requires HubPairs(pairs)
    ensures AllOk(Attempts(e, pairs)) <==> forall p :: p in pairs && Eligible(e, p.0) ==> DirectOf(e, p.0, p.1).Ok?
  {
    var all := Attempts(e, pairs);
    if AllOk(all) {
      forall p | p in pairs && Eligible(e, p.0) ensures DirectOf(e, p.0, p.1).Ok? {
        var i :| 0 <= i < |pairs| && pairs[i] == p;
        AttemptsAt(e, pairs, i);
      }
    }
    if forall p :: p in pairs && Eligible(e, p.0) ==> DirectOf(e, p.0, p.1).Ok? {
      forall i | 0 <= i < |all| ensures all[i].Ok? {
        assert pairs[i] in pairs;
        AttemptsAt(e, pairs, i);
      }
    }
  }

  lemma DirectMade(e: Env, pairs: seq<(Region, Node)>, s: Share)
    requires HubPairs(pairs) && Dialer(e) && AllOk(Attempts(e, pairs)) && s in DirectShares(SlotsOf(Attempts(e, pairs)))
    ensures Good(e, pairs, DirectKind, s)
  {
    DirectFor(e, pairs, s);
    MadeDials(e, pairs, DirectKind, s);
    DirectSharesAdmitted(e, pairs, s);
  }

  lemma DirectFor(e: Env, pairs: seq<(Region, Node)>, s: Share)
    requires HubPairs(pairs) && Dialer(e) && AllOk(Attempts(e, pairs)) && s in DirectShares(SlotsOf(Attempts(e, pairs)))
    ensures MadeFor(e, pairs, DirectKind, s)
  {
    var slots := SlotsOf(Attempts(e, pairs));
    DirectSharesAdmitted(e, pairs, s);
    DirectProvenance(slots, s);
    var i :| 0 <= i < |slots| && slots[i] == Slot(s.region, s.node, Some(s.at), s.url);
    assert pairs[i] in pairs;
    AttemptsAt(e, pairs, i);
  }

  lemma DirectOnce(e: Env, pairs: seq<(Region, Node)>)
    requires HubPairs(pairs) && Dialer(e) && AllOk(Attempts(e, pairs))
    ensures Once(DirectShares(SlotsOf(Attempts(e, pairs))))
  {
    var slots := SlotsOf(Attempts(e, pairs));
    var shares := DirectShares(slots);
    forall i, j | 0 <= i < j < |shares| && shares[i].region.id == shares[j].region.id ensures !Alike(shares[i], shares[j]) {
      DirectSharesAdmitted(e, pairs, shares[i]);
      if IsReality(shares[i].at) { DirectOncePerListener(slots, i, j); }
    }
  }

  lemma DirectCovers(e: Env, pairs: seq<(Region, Node)>)
    requires HubPairs(pairs) && Dialer(e) && AllOk(Attempts(e, pairs))
    ensures Covers(e, pairs, DirectKind, DirectShares(SlotsOf(Attempts(e, pairs))))
    ensures DirectShares(SlotsOf(Attempts(e, pairs))) != [] <==> exists p :: p in pairs && Eligible(e, p.0)
  {
    var slots := SlotsOf(Attempts(e, pairs));
    var shares := DirectShares(slots);
    forall p | p in pairs && Eligible(e, p.0) ensures CoveredDirect(e, p, shares) && shares != [] { DirectCovered(e, pairs, p); }
    if shares != [] { DirectMade(e, pairs, shares[0]); }
  }

  lemma DirectCovered(e: Env, pairs: seq<(Region, Node)>, p: (Region, Node))
    requires HubPairs(pairs) && AllOk(Attempts(e, pairs)) && p in pairs && Eligible(e, p.0)
    ensures CoveredDirect(e, p, DirectShares(SlotsOf(Attempts(e, pairs)))) && DirectShares(SlotsOf(Attempts(e, pairs))) != []
  {
    var slots := SlotsOf(Attempts(e, pairs));
    var i :| 0 <= i < |pairs| && pairs[i] == p;
    AttemptsAt(e, pairs, i);
    assert slots[i] == Attempt(e, p.0, p.1).value;
    var s := DirectCoverage(slots, slots[i]);
  }

  method DirectUrls(e: Env, pairs: seq<(Region, Node)>) returns (out: Result<seq<Share>, ShareError>)
    requires HubPairs(pairs) && Dialer(e)
    ensures out.Ok? ==> Served(e, pairs, DirectKind, out.value)
    ensures out.Ok? && out.value != [] <==> Derivable(e, pairs, DirectKind)
  {
    AttemptsOk(e, pairs);
    out := DirectShareUrls(e, pairs);
    if out.Ok? {
      forall s | s in out.value ensures Good(e, pairs, DirectKind, s) { DirectMade(e, pairs, s); }
      DirectCovers(e, pairs);
      DirectOnce(e, pairs);
    }
  }

  // Requests --------------------------------------------------------------------------------

  /** Access the user needs before anything is derived. */
  function Gate(u: User, kind: Kind, server: bool): bool {
    match kind
    case CdnKind => Access.Cdn in u.access
    case HysteriaKind => Access.Hysteria in u.access
    case DirectKind => server || Access.Xhttp in u.access || Access.Tls in u.access
  }

  /** What is asked for, and everything its answer depends on besides the flags. */
  datatype Request = Request(username: string, kind: Kind, guest: Option<string>, server: bool)

  datatype Context = Context(
    c: Config, ns: Namespace, derive: (HysteriaConfig, Reality, string, string) -> Endpoint, keys: map<string, NodeKeys>)

  /** Who dials, or why the request is refused before any listener is looked at. */
  function Resolved(x: Context, q: Request): (out: Result<Env, ShareError>)
    ensures out.Ok? ==> Dialer(out.value) && Gate(out.value.u, q.kind, q.server) && out.value.u.username == q.username
    ensures out.Ok? ==> ResolveIdentity(out.value.u, q.guest, q.server) == Ok(out.value.id) && out.value.c == x.c && out.value.ns == x.ns
  {
    var u := FindUser(x.c.users, q.username);
    if u.None? then Err(UnknownUser)
    else if !Gate(u.value, q.kind, q.server) then Err(NoAccess)
    else
      var id := ResolveIdentity(u.value, q.guest, q.server);
      if id.Err? then Err(id.error)
      else
        var group := FindGroup(x.c.groups, u.value.group);
        if group.None? then Err(UnknownGroup)
        else
          var sid := if q.guest.Some? then x.ns.UserShortId(q.username) else x.ns.GroupShortId(group.value);
          Ok(Env(x.c, x.ns, x.derive, x.keys, u.value, id.value, sid))
  }

  /** What a user may ask for: the kind's access, and an identity of the user's own. */
  ghost predicate MayAsk(u: User, q: Request) {
    && (q.kind.CdnKind? ==> Access.Cdn in u.access) && (q.kind.HysteriaKind? ==> Access.Hysteria in u.access)
    && (q.kind.DirectKind? ==> q.server || Access.Xhttp in u.access || Access.Tls in u.access)
    && (q.server ==> q.guest.None? && Access.Server in u.access) && (q.guest.Some? ==> q.guest.value in u.guests)
  }

  /** On accepted configs a request resolves exactly when its user is there and may ask for it. */
  lemma ResolvedIff(x: Context, q: Request)
    requires Accepted(x.c)
    ensures Resolved(x, q).Ok? <==> exists u :: u in x.c.users && u.username == q.username && MayAsk(u, q)
  {
    var found := FindUser(x.c.users, q.username);
    if found.Some? {
      GroupThere(x.c, found.value);
      forall u | u in x.c.users && u.username == q.username ensures u == found.value { SameUser(x.c, u, found.value); }
    }
  }

  lemma GroupThere(c: Config, u: User)
    requires PeopleOk(c) && u in c.users
    ensures FindGroup(c.groups, u.group).Some?
  {
    var k :| 0 <= k < |c.groups| && GroupIds(c.groups)[k] == u.group;
    assert c.groups[k] in c.groups;
  }

  /**
   * A request succeeds exactly when it resolves, every listener it looks at can be built and one is
   * there. Then every URL is made for a covered node and its own inbound, which admits it; every
   * covered node is served; and no region gets two URLs for the same material.
   */
  method BuildShareUrls(x: Context, q: Request, hub: Option<string>) returns (out: Result<seq<Share>, ShareError>)
    ensures HubPairs(HubNodePairs(x.c, hub))
    ensures out.Ok? <==> Resolved(x, q).Ok? && Derivable(Resolved(x, q).value, HubNodePairs(x.c, hub), q.kind)
    ensures out.Ok? ==> out.value != [] && Served(Resolved(x, q).value, HubNodePairs(x.c, hub), q.kind, out.value)
  {
    PairsAreHubs(x.c, hub);
    var resolved := Resolved(x, q);
    if resolved.Err? { return Err(resolved.error); }
    var e, pairs := resolved.value, HubNodePairs(x.c, hub);
    if hub.Some? && pairs == [] { return Err(NotAHubNode); }
    match q.kind {
      case CdnKind => out := CdnUrls(e, pairs);
      case HysteriaKind => out := HysteriaShareUrls(e, pairs);
      case DirectKind => out := DirectUrls(e, pairs);
    }
    if out.Ok? && out.value == [] { return Err(NoListener); }
  }

  /** Covered nodes are the config's hub nodes: all of them, or the one named. */
  lemma CoveredNodes(c: Config, hub: Option<string>, p: (Region, Node))
    requires NoDup(RegionIds(c.regions)) && NoDup(NodeIds(NodesOf(c.regions)))
    ensures p in HubNodePairs(c, hub) <==>
            p.0 in c.regions && p.0.HubRegion? && p.1 in p.0.nodes && (hub.Some? ==> p.1.id == hub.value)
  {
    var all := FlatMap(RegionPairs(), Hubs(c.regions));
    PairMember(c, p);
    if hub.Some? {
      WithIdIn(all, hub.value);
      if p in all && p.1.id == hub.value {
        var q := WithId(all, hub.value)[0];
        PairMember(c, q);
        SameOwner(c.regions, p.0, p.1, q.0, q.1);
      }
    }
  }

  // On accepted configs ---------------------------------------------------------------------

  /** A field-level rule of the schema: the defaults serve exactly one security. */
  predicate OneSecurity(c: Config) { c.hubDefaults.reality.None? != c.hubDefaults.tls.None? }

  lemma HubResolves(c: Config, r: Region, n: Node)
    requires Accepted(c) && r in c.regions && r.HubRegion? && n in r.nodes
    ensures NodeXhttp(n, r, c).Ok? && RegionTls(r, c.hubDefaults).Ok? && HubNodeOk(c, r, n)
  {
    assert RegionOk(c, r);
  }

  lemma RealityResolves(c: Config, r: Region, n: Node)
    requires r.HubRegion? && OneSecurity(c) && RegionTls(r, c.hubDefaults) == Ok(None)
    ensures NodeReality(n, r, c.hubDefaults).Ok?
  {
  }

  /** Every direct and Hysteria listener of an accepted config can be built from its node's keys. */
  lemma ListenersBuild(c: Config, ns: Namespace, derive: (HysteriaConfig, Reality, string, string) -> Endpoint,
                       r: Region, n: Node, keys: NodeKeys)
    requires Accepted(c) && OneSecurity(c) && r in c.regions && r.HubRegion? && n in r.nodes
    ensures HubDirect(c, ns, r, n, keys).Ok? && HubHysteria(c, ns, derive, r, n, keys).Ok?
  {
    HubResolves(c, r, n);
    if RegionTls(r, c.hubDefaults) == Ok(None) { RealityResolves(c, r, n); }
  }

  /** So once the node has keys. */
  lemma KeysSuffice(e: Env, p: (Region, Node))
    requires Accepted(e.c) && OneSecurity(e.c) && p.0 in e.c.regions && p.0.HubRegion? && p.1 in p.0.nodes
    ensures DirectOf(e, p.0, p.1).Ok? <==> p.1.id in e.keys
    ensures HysteriaBuilds(e, p) <==> p.1.id in e.keys
  {
    if p.1.id in e.keys { ListenersBuild(e.c, e.ns, e.derive, p.0, p.1, e.keys[p.1.id]); }
  }

  lemma Listening(e: Env, p: (Region, Node))
    requires HysteriaBuilds(e, p) && e.u in e.c.users && Access.Hysteria in e.u.access
    ensures (exists h :: ListensAt(e, p, h)) <==> NodeHysteria(p.1, p.0, e.c).Some?
  {
    AccessIdMember(e.c.users, Access.Hysteria, true, OfUser(e.u));
    if NodeHysteria(p.1, p.0, e.c).Some? {
      var h := HubHysteria(e.c, e.ns, e.derive, p.0, p.1, e.keys[p.1.id]).value.value;
      assert ListensAt(e, p, h);
    }
  }

  /** The nodes looked at have stored keys, and one of them has a listener of the kind. */
  ghost predicate KeysAndListener(e: Env, pairs: seq<(Region, Node)>, kind: Kind)
    requires HubPairs(pairs)
  {
    match kind
    case DirectKind =>
      && (forall p :: p in pairs && Eligible(e, p.0) ==> p.1.id in e.keys)
      && exists p :: p in pairs && Eligible(e, p.0)
    case HysteriaKind =>
      && (forall p :: p in pairs ==> p.1.id in e.keys)
      && exists p :: p in pairs && NodeHysteria(p.1, p.0, e.c).Some?
    case CdnKind =>
      && e.c.cdn.Some? && FirstsHaveKeys(e, pairs)
      && exists i :: 0 <= i < |pairs| && IsFirst(pairs, i) && pairs[i].0.cdnPath.Some?
  }

  /** Every covered pair is a hub node of an accepted config. */
  ghost predicate HubNodesOf(c: Config, pairs: seq<(Region, Node)>) {
    forall p :: p in pairs ==> p.0 in c.regions && p.0.HubRegion? && p.1 in p.0.nodes
  }

  lemma AcceptedDirect(e: Env, pairs: seq<(Region, Node)>)
    requires Accepted(e.c) && OneSecurity(e.c) && HubNodesOf(e.c, pairs)
    ensures HubPairs(pairs) && (Derivable(e, pairs, DirectKind) <==> KeysAndListener(e, pairs, DirectKind))
  {
    forall p | p in pairs ensures DirectOf(e, p.0, p.1).Ok? <==> p.1.id in e.keys { KeysSuffice(e, p); }
  }

  lemma AcceptedHysteria(e: Env, pairs: seq<(Region, Node)>)
    requires Accepted(e.c) && OneSecurity(e.c) && HubNodesOf(e.c, pairs) && e.u in e.c.users && Access.Hysteria in e.u.access
    ensures HubPairs(pairs) && (Derivable(e, pairs, HysteriaKind) <==> KeysAndListener(e, pairs, HysteriaKind))
  {
    forall p | p in pairs ensures HysteriaBuilds(e, p) <==> p.1.id in e.keys { KeysSuffice(e, p); }
    forall p | p in pairs && HysteriaBuilds(e, p) ensures (exists h :: ListensAt(e, p, h)) <==> NodeHysteria(p.1, p.0, e.c).Some? {
      Listening(e, p);
    }
  }

  /** On accepted configs a request that resolves succeeds exactly when keys are there and one listener is. */
  lemma AcceptedRequests(x: Context, q: Request, hub: Option<string>)
    requires Accepted(x.c) && OneSecurity(x.c) && Resolved(x, q).Ok?
    ensures HubPairs(HubNodePairs(x.c, hub))
    ensures Derivable(Resolved(x, q).value, HubNodePairs(x.c, hub), q.kind)
            <==> KeysAndListener(Resolved(x, q).value, HubNodePairs(x.c, hub), q.kind)
  {
    var e, pairs := Resolved(x, q).value, HubNodePairs(x.c, hub);
    forall p | p in pairs ensures p.0 in x.c.regions && p.0.HubRegion? && p.1 in p.0.nodes { CoveredNodes(x.c, hub, p); }
    match q.kind
    case DirectKind => AcceptedDirect(e, pairs);
    case HysteriaKind => AcceptedHysteria(e, pairs);
    case CdnKind =>
  }

  /** Nodes of a region with equal key settings share their keys, so any of them admits the region's CDN URL. */
  lemma CdnAdmittedByClass(e: Env, calls: seq<Keys.Call>, r: Region, n: Node, m: Node)
    requires Keys.UniqueIds(e.c) && Keys.FreshRun(e.c, map[], calls) && e.keys == Keys.Run(e.c, map[], calls)
    requires r in e.c.regions && r.HubRegion? && n in r.nodes && m in r.nodes && n.id in e.keys && m.id in e.keys
    requires NodeKeysConfig(m, r, e.c) == NodeKeysConfig(n, r, e.c)
    requires Dialer(e) && Access.Cdn in e.u.access && HubCdn(e, r, e.keys[n.id]).Some?
    ensures HubCdn(e, r, e.keys[m.id]).Some?
    ensures Admits(CdnAt(HubCdn(e, r, e.keys[m.id]).value, e.keys[m.id]), CdnUrl(e, HubCdn(e, r, e.keys[n.id]).value, e.keys[n.id]))
  {
    Keys.KeysSharedWithinClasses(e.c, calls, r, n, r, m);
    SharedCdnAdmitted(e, r, e.keys[n.id], e.keys[m.id]);
  }
}
