/** Adding nodes never moves the fallback the compiler resolves for a balanced region. */
module FallbackStable {
  import opened Base
  import opened Names
  import opened Schema
  import opened Routing
  import opened LineSplice
  import opened Outline
  import opened NaturalOrder
  import opened Text
  import opened Editor
  import opened EditFacts
  import opened WellFormedEdits
  import opened DocView

  // The resolved tag when a node joins ------------------------------------------------------

  lemma {:induction false} FindSkips(a: seq<Node>, n: Node, b: seq<Node>, v: string)
    requires n.id != v
    ensures FindNode(a + [n] + b, v) == FindNode(a + b, v)
  {
    if a == [] {
      assert [] + [n] + b == [n] + b && [] + b == b;
    } else {
      FindSkips(a[1..], n, b, v);
      assert (a + [n] + b)[1..] == a[1..] + [n] + b && (a + b)[1..] == a[1..] + b;
    }
  }

  lemma {:induction false} PrimaryListed(ns: seq<Node>)
    requires FirstPrimary(ns).Some?
    ensures FirstPrimary(ns).value in ns && !FirstPrimary(ns).value.backup
  {
    if ns[0].backup { PrimaryListed(ns[1..]); }
  }

  lemma IdListed(ns: seq<Node>, n: Node)
    requires n in ns
    ensures n.id in NodeIds(ns)
  {
    var k :| 0 <= k < |ns| && ns[k] == n;
    assert NodeIds(ns)[k] == n.id;
  }

  /** Looking a node up by its id finds it, ids being distinct. */
  lemma {:induction false} FindsItself(ns: seq<Node>, n: Node)
    requires NoDup(NodeIds(ns)) && n in ns
    ensures FindNode(ns, n.id) == Some(n)
  {
    assert NodeIds(ns)[0] == ns[0].id;
    if ns[0] != n {
      var k :| 0 <= k < |ns| && ns[k] == n;
      assert NodeIds(ns)[k] == n.id;
      var rest := NodeIds(ns[1..]);
      forall i, j | 0 <= i < j < |rest| ensures rest[i] != rest[j] { assert NodeIds(ns)[i + 1] != NodeIds(ns)[j + 1]; }
      FindsItself(ns[1..], n);
    }
  }

  /** A region with one more node and perhaps a fallback. */
  function Joined(r: Region, a: seq<Node>, n: Node, b: seq<Node>, fallback: Option<string>): Region
    requires r.ExitRegion?
  {
    r.(nodes := a + [n] + b, lbFallback := fallback)
  }

  /** A valid named fallback resolves as before. */
  lemma NamedStays(r: Region, a: seq<Node>, n: Node, b: seq<Node>, v: string)
    requires r.ExitRegion? && r.nodes == a + b && r.nodes != [] && r.lbFallback == Some(v) && n.id != v
    ensures FallbackTag(Joined(r, a, n, b, Some(v))) == FallbackTag(r)
  {
    FindSkips(a, n, b, v);
  }

  /**
   * Pinning the lead keeps the resolved tag exactly when the region has a primary; the pinned id of
   * an all-backup region resolves to its `backup-` outbound instead.
   */
  lemma PinnedStays(r: Region, a: seq<Node>, n: Node, b: seq<Node>)
    requires r.ExitRegion? && r.nodes == a + b && r.nodes != [] && r.lbFallback.None?
    requires NoDup(NodeIds(r.nodes)) && n.id !in NodeIds(r.nodes)
    ensures FallbackTag(Joined(r, a, n, b, Some(LeadNode(r).id))) ==
            if FirstPrimary(r.nodes).Some? then FallbackTag(r) else BACKUP_PREFIX + FallbackTag(r)
  {
    var lead := LeadNode(r);
    if FirstPrimary(r.nodes).Some? {
      PrimaryListed(r.nodes);
    } else {
      NonePrimary(r.nodes, lead);
    }
    IdListed(r.nodes, lead);
    FindsItself(r.nodes, lead);
    FindSkips(a, n, b, lead.id);
  }

  lemma {:induction false} NonePrimary(ns: seq<Node>, n: Node)
    requires FirstPrimary(ns).None? && n in ns
    ensures n.backup
  {
    if n != ns[0] { NonePrimary(ns[1..], n); }
  }

  lemma {:induction false} PrimaryJoined(a: seq<Node>, n: Node, b: seq<Node>)
    ensures FirstPrimary(a + [n] + b) ==
            if FirstPrimary(a).Some? then FirstPrimary(a) else if !n.backup then Some(n) else FirstPrimary(b)
    ensures FirstPrimary(a + b) == if FirstPrimary(a).Some? then FirstPrimary(a) else FirstPrimary(b)
  {
    if a == [] {
      assert [] + [n] + b == [n] + b && [] + b == b && ([n] + b)[1..] == b;
    } else {
      PrimaryJoined(a[1..], n, b);
      assert (a + [n] + b)[1..] == a[1..] + [n] + b && (a + b)[1..] == a[1..] + b;
    }
  }

  /** The new node leads: it is the first primary, or the first of a region without primaries. */
  predicate TakesLead(a: seq<Node>, n: Node, b: seq<Node>) {
    if n.backup then a == [] && FirstPrimary(b).None? else FirstPrimary(a).None?
  }

  /** A null fallback key suppresses pinning; then the tag moves exactly when the new node leads. */
  lemma UnpinnedDrifts(r: Region, a: seq<Node>, n: Node, b: seq<Node>)
    requires r.ExitRegion? && r.nodes == a + b && r.nodes != [] && r.lbFallback.None? && n.id !in NodeIds(r.nodes)
    ensures FallbackTag(Joined(r, a, n, b, None)) != FallbackTag(r) <==> TakesLead(a, n, b)
  {
    PrimaryJoined(a, n, b);
    if FirstPrimary(r.nodes).Some? { PrimaryListed(r.nodes); }
    IdListed(r.nodes, LeadNode(r));
    assert a != [] ==> (a + [n] + b)[0] == a[0] && (a + b)[0] == a[0];
  }

  // The lead the editor pins ----------------------------------------------------------------

  lemma {:induction false} PrimaryFrom(segs: seq<Seg>, kind: Kind, m: nat)
    requires kind.Items? && m <= |Where(segs, kind)|
    ensures |ItemNodes(Tags(segs, kind))| == |Where(segs, kind)|
    ensures var p := FirstPrimaryFrom(segs, Where(segs, kind), m);
            FirstPrimary(ItemNodes(Tags(segs, kind))[m..]) == if p.None? then None else Some(ItemNodes(Tags(segs, kind))[p.value])
    decreases |Where(segs, kind)| - m
  {
    TagsAt(segs, kind);
    var nodes := ItemNodes(Tags(segs, kind));
    if m < |nodes| {
      PrimaryFrom(segs, kind, m + 1);
      assert nodes[m..][1..] == nodes[m + 1..] && nodes[m..][0] == nodes[m];
    }
  }

  /** What the editor pins is the node the compiler would resolve. */
  lemma PinIsLead(segs: seq<Seg>, t: Tag)
    requires Loads(segs) && t.Head? && t.inline == [] && t.region.ExitRegion? && Tags(segs, Items(t.r)) != []
    requires Tags(segs, Strategies(t.r)) != [] && Tags(segs, Fallbacks(t.r)) == []
    ensures RegionOf(segs, t).nodes == ItemNodes(Tags(segs, Items(t.r))) != []
    ensures PinName(segs, t.r) == Some(LeadNode(RegionOf(segs, t)).id)
  {
    var kind := Items(t.r);
    var nodes := ItemNodes(Tags(segs, kind));
    FirstTag(segs, Strategies(t.r));
    FirstTag(segs, Fallbacks(t.r));
    TagsAt(segs, kind);
    PrimaryFrom(segs, kind, 0);
    assert InlineNodes(t.inline) + nodes == nodes && nodes[0..] == nodes;
    var i := LeadIndex(segs, t.r);
    assert segs[i].tag.id == Some(segs[i].tag.node.id);
  }

  // What an addition does to the loaded tags ------------------------------------------------

  predicate KeyKind(kind: Kind) { kind.NodesKeys? || kind.RegionsKeys? || kind.Owned? }

  lemma {:induction false} SameTags(a: seq<Seg>, b: seq<Seg>, kind: Kind)
    requires |a| == |b| && forall j :: 0 <= j < |a| ==> Is(kind, a[j].tag) == Is(kind, b[j].tag) && (Is(kind, a[j].tag) ==> a[j].tag == b[j].tag)
    ensures Tags(a, kind) == Tags(b, kind)
  {
    if a != [] { SameTags(a[..|a| - 1], b[..|b| - 1], kind); }
  }

  lemma UpdateTags(segs: seq<Seg>, i: nat, s: Seg, kind: Kind)
    requires i < |segs| && !Is(kind, s.tag) && !Is(kind, segs[i].tag)
    ensures Tags(segs[i := s], kind) == Tags(segs, kind)
  {
    SameTags(segs[i := s], segs, kind);
  }

  lemma BaredTags(segs: seq<Seg>, k: nat, kind: Kind)
    requires !KeyKind(kind)
    ensures Tags(BareRegion(segs, k), kind) == Tags(segs, kind)
  {
    var key := First(segs, NodesKeys(k));
    if key.Some? && FlowOf(segs[key.value].tag).Some? && segs[key.value].rows != [] {
      UpdateTags(segs, key.value, BareRegion(segs, k)[key.value], kind);
    }
  }

  lemma BothTags(segs: seq<Seg>, p: nat, item: Seg, q: nat, pin: Seg, kind: Kind)
    requires p <= |segs| && q <= |segs| && !Is(kind, item.tag) && !Is(kind, pin.tag)
    ensures Tags(InsertBoth(segs, p, item, q, pin), kind) == Tags(segs, kind)
  {
    if q > p {
      TagsOther(segs, q, pin, kind);
      TagsOther(InsertSegs(segs, q, [pin]), p, item, kind);
    } else {
      TagsOther(segs, p, item, kind);
      TagsOther(InsertSegs(segs, p, [item]), q, pin, kind);
    }
  }

  /** Other kinds keep their tags; the pinned fallback is the only new key. */
  lemma AddedTags(segs: seq<Seg>, k: nat, p: nat, n: NewNode, quote: string -> string, kind: Kind)
    requires First(segs, NodesKeys(k)).Some? && p <= |segs| && !KeyKind(kind) && kind != Items(k)
    requires PinName(segs, k).Some? ==> kind != Fallbacks(k)
    ensures Tags(AddedAt(segs, k, p, n, quote), kind) == Tags(segs, kind)
  {
    var base, item := BareRegion(segs, k), ItemSeg(k, n);
    BaredTags(segs, k, kind);
    if PinName(segs, k).None? {
      TagsOther(base, p, item, kind);
    } else {
      PinnedTags(segs, k, p, n, quote, kind);
    }
  }

  lemma PinnedTags(segs: seq<Seg>, k: nat, p: nat, n: NewNode, quote: string -> string, kind: Kind)
    requires First(segs, NodesKeys(k)).Some? && p <= |segs| && PinName(segs, k).Some?
    requires !KeyKind(kind) && kind != Items(k) && kind != Fallbacks(k)
    ensures Tags(AddedAt(segs, k, p, n, quote), kind) == Tags(BareRegion(segs, k), kind)
  {
    var name := PinName(segs, k).value;
    AddedBoth(segs, k, p, n, name, quote);
    BothTags(BareRegion(segs, k), p, ItemSeg(k, n), First(segs, Strategies(k)).value + 1, PinSeg(k, name, quote), kind);
  }

  lemma AddedFallback(segs: seq<Seg>, k: nat, p: nat, n: NewNode, quote: string -> string)
    requires First(segs, NodesKeys(k)).Some? && p <= |segs| && PinName(segs, k).Some?
    ensures Tags(segs, Fallbacks(k)) == [] && Tags(AddedAt(segs, k, p, n, quote), Fallbacks(k)) == [Fallback(k, PinName(segs, k))]
  {
    var name := PinName(segs, k).value;
    FirstTag(segs, Fallbacks(k));
    BaredTags(segs, k, Fallbacks(k));
    AddedBoth(segs, k, p, n, name, quote);
    BothFallback(BareRegion(segs, k), p, ItemSeg(k, n), First(segs, Strategies(k)).value + 1, PinSeg(k, name, quote), Fallbacks(k));
  }

  lemma BothFallback(segs: seq<Seg>, p: nat, item: Seg, q: nat, pin: Seg, kind: Kind)
    requires p <= |segs| && q <= |segs| && !Is(kind, item.tag) && Is(kind, pin.tag) && Tags(segs, kind) == []
    ensures Tags(InsertBoth(segs, p, item, q, pin), kind) == [pin.tag]
  {
    if q > p {
      PinTags(segs, q, pin, kind);
      TagsOther(InsertSegs(segs, q, [pin]), p, item, kind);
    } else {
      TagsOther(segs, p, item, kind);
      PinTags(InsertSegs(segs, p, [item]), q, pin, kind);
    }
  }

  lemma PinTags(segs: seq<Seg>, q: nat, pin: Seg, kind: Kind)
    requires q <= |segs| && Is(kind, pin.tag) && Tags(segs, kind) == []
    ensures Tags(InsertSegs(segs, q, [pin]), kind) == [pin.tag]
  {
    TagsInsert(segs, q, pin, kind);
    TagsSplit(segs, q, kind);
  }

  lemma JoinTags(segs: seq<Seg>, p: nat, item: Seg, kind: Kind) returns (a: seq<Tag>, b: seq<Tag>)
    requires p <= |segs| && Is(kind, item.tag)
    ensures Tags(segs, kind) == a + b && Tags(InsertSegs(segs, p, [item]), kind) == a + [item.tag] + b
    ensures a == Tags(segs[..p], kind)
  {
    a, b := Tags(segs[..p], kind), Tags(segs[p..], kind);
    TagsInsert(segs, p, item, kind);
    TagsSplit(segs, p, kind);
  }

  lemma BaredPrefix(segs: seq<Seg>, k: nat, p: nat, kind: Kind)
    requires !KeyKind(kind) && p <= |segs|
    ensures |BareRegion(segs, k)| == |segs| && Tags(BareRegion(segs, k)[..p], kind) == Tags(segs[..p], kind)
  {
    var key, base := First(segs, NodesKeys(k)), BareRegion(segs, k);
    if base != segs {
      if key.value < p {
        UpdateTags(segs[..p], key.value, base[key.value], kind);
        assert base[..p] == segs[..p][key.value := base[key.value]];
      } else {
        assert base[..p] == segs[..p];
      }
    }
  }

  /** The region's items, with the new one after those above segment `p`. */
  lemma AddedItems(segs: seq<Seg>, k: nat, p: nat, n: NewNode, quote: string -> string) returns (a: seq<Tag>, b: seq<Tag>)
    requires First(segs, NodesKeys(k)).Some? && p <= |segs|
    ensures Tags(segs, Items(k)) == a + b && a == Tags(segs[..p], Items(k))
    ensures Tags(AddedAt(segs, k, p, n, quote), Items(k)) == a + [ItemSeg(k, n).tag] + b
  {
    var base, item := BareRegion(segs, k), ItemSeg(k, n);
    BaredTags(segs, k, Items(k));
    BaredPrefix(segs, k, p, Items(k));
    if PinName(segs, k).None? {
      a, b := JoinTags(base, p, item, Items(k));
    } else {
      var name := PinName(segs, k).value;
      AddedBoth(segs, k, p, n, name, quote);
      a, b := BothItems(base, p, item, First(segs, Strategies(k)).value + 1, PinSeg(k, name, quote), Items(k));
    }
  }

  lemma PartsAreItems(segs: seq<Seg>, k: nat, a: seq<Tag>, b: seq<Tag>)
    requires Tags(segs, Items(k)) == a + b
    ensures (forall x :: 0 <= x < |a| ==> a[x].Item?) && forall x :: 0 <= x < |b| ==> b[x].Item?
  {
    forall x | 0 <= x < |a| ensures a[x].Item? { assert a[x] == Tags(segs, Items(k))[x]; }
    forall x | 0 <= x < |b| ensures b[x].Item? { assert b[x] == Tags(segs, Items(k))[|a| + x]; }
  }

  lemma BothItems(segs: seq<Seg>, p: nat, item: Seg, q: nat, pin: Seg, kind: Kind) returns (a: seq<Tag>, b: seq<Tag>)
    requires p <= |segs| && q <= |segs| && Is(kind, item.tag) && !Is(kind, pin.tag)
    ensures Tags(segs, kind) == a + b && a == Tags(segs[..p], kind)
    ensures Tags(InsertBoth(segs, p, item, q, pin), kind) == a + [item.tag] + b
  {
    if q > p {
      TagsOther(segs, q, pin, kind);
      a, b := JoinTags(InsertSegs(segs, q, [pin]), p, item, kind);
      assert InsertSegs(segs, q, [pin])[..p] == segs[..p];
    } else {
      a, b := JoinTags(segs, p, item, kind);
      TagsOther(InsertSegs(segs, p, [item]), q, pin, kind);
    }
  }

  // Runs of additions -----------------------------------------------------------------------

  /** One successful `add_node`: into region `k`, or creating a region after the last one. */
  datatype Move = Join(k: nat, n: NewNode) | Create(last: nat, region: NewRegion, n: NewNode)

  /** The node is new to the file, as the editor checks. */
  ghost predicate FreshNode(segs: seq<Seg>, n: NewNode) {
    && NodeText(n) && n.id == n.node.id
    && forall i :: 0 <= i < |segs| && segs[i].tag.Item? ==> segs[i].tag.id != Some(n.id)
  }

  ghost predicate Legal(segs: seq<Seg>, m: Move) {
    FreshNode(segs, m.n) &&
    match m
    case Join(k, n) => First(segs, NodesKeys(k)).Some?
    case Create(last, region, n) =>
      && Where(segs, Heads) != [] && IsLast(segs, |Where(segs, Heads)| - 1, last)
      && RegionText(region) && region.id == region.region.id
  }

  ghost function AfterMove(segs: seq<Seg>, m: Move, quote: string -> string): seq<Seg>
    requires Legal(segs, m)
  {
    match m
    case Join(k, n) => AddedTo(segs, k, n, quote)
    case Create(last, region, n) => CreatedAfter(segs, last, region, n)
  }

  /** A balanced region with a primary, distinct node ids and no null or dangling fallback. */
  ghost predicate Guarded(segs: seq<Seg>, t: Tag) {
    && WellFormed(segs) && Loads(segs)
    && t.Head? && t.inline == [] && t.region.ExitRegion? && t.region.lbStrategy.Some?
    && t.r < |Tags(segs, Heads)| && Tags(segs, Heads)[t.r] == t && Tags(segs, Strategies(t.r)) != []
    && Settled(RegionOf(segs, t), Tags(segs, Fallbacks(t.r)))
  }

  ghost predicate Settled(r: Region, fallbacks: seq<Tag>)
    requires forall x :: 0 <= x < |fallbacks| ==> fallbacks[x].Fallback?
  {
    && FirstPrimary(r.nodes).Some? && NoDup(NodeIds(r.nodes))
    && (fallbacks != [] ==> fallbacks[0].name.Some? && fallbacks[0].name.value in NodeIds(r.nodes))
  }

  lemma PinRowIsContent(quoted: string)
    ensures !IsTrivia(PinRow(quoted))
  {
    var row := PinRow(quoted);
    assert row == [' '] + ([' '] + ([' '] + ([' '] + ("lb_fallback: " + quoted))));
    StripSpace("lb_fallback: " + quoted);
    StripSpace([' '] + ("lb_fallback: " + quoted));
    StripSpace([' '] + ([' '] + ("lb_fallback: " + quoted)));
    StripSpace([' '] + ([' '] + ([' '] + ("lb_fallback: " + quoted))));
  }

  lemma InsertLoads(segs: seq<Seg>, p: nat, s: Seg)
    requires Loads(segs) && p <= |segs|
    requires s.tag.Item? ==> s.tag.id == Some(s.tag.node.id)
    requires s.tag.Head? ==> s.tag.id == Some(s.tag.region.id)
    requires !s.tag.Route?
    ensures Loads(InsertSegs(segs, p, [s]))
  {
  }

  lemma BareLoads(segs: seq<Seg>, k: nat)
    requires Loads(segs)
    ensures Loads(BareRegion(segs, k)) && |BareRegion(segs, k)| == |segs|
  {
  }

  lemma AddedLoads(segs: seq<Seg>, k: nat, p: nat, n: NewNode, quote: string -> string)
    requires Loads(segs) && First(segs, NodesKeys(k)).Some? && p <= |segs| && n.id == n.node.id
    ensures Loads(AddedAt(segs, k, p, n, quote))
  {
    var base, item := BareRegion(segs, k), ItemSeg(k, n);
    BareLoads(segs, k);
    if PinName(segs, k).None? {
      InsertLoads(base, p, item);
    } else {
      var q, pin := First(segs, Strategies(k)).value + 1, PinSeg(k, PinName(segs, k).value, quote);
      BothLoads(base, p, item, q, pin);
    }
  }

  lemma BothLoads(segs: seq<Seg>, p: nat, item: Seg, q: nat, pin: Seg)
    requires Loads(segs) && p <= |segs| && q <= |segs| && pin.tag.Fallback?
    requires item.tag.Item? && item.tag.id == Some(item.tag.node.id)
    ensures Loads(InsertSegs(InsertSegs(segs, q, [pin]), p, [item]))
    ensures Loads(InsertSegs(InsertSegs(segs, p, [item]), q, [pin]))
  {
    InsertLoads(segs, q, pin);
    InsertLoads(InsertSegs(segs, q, [pin]), p, item);
    InsertLoads(segs, p, item);
    InsertLoads(InsertSegs(segs, p, [item]), q, pin);
  }

  lemma FreshId(segs: seq<Seg>, t: Tag, n: NewNode)
    requires Loads(segs) && FreshNode(segs, n) && t.Head? && t.inline == []
    ensures n.node.id !in NodeIds(RegionOf(segs, t).nodes)
  {
    var ts := Tags(segs, Items(t.r));
    forall x | 0 <= x < |ts| ensures ts[x].node.id != n.node.id { FreshTag(segs, Items(t.r), ts[x], n); }
    NotListed(ts, n.node.id);
    BlockNodesOnly(segs, t);
  }

  lemma FreshTag(segs: seq<Seg>, kind: Kind, item: Tag, n: NewNode)
    requires Loads(segs) && FreshNode(segs, n) && kind.Items? && item in Tags(segs, kind)
    ensures item.Item? && item.node.id != n.node.id
  {
    var i := TagSource(segs, kind, item);
  }

  lemma BlockNodesOnly(segs: seq<Seg>, t: Tag)
    requires t.Head? && t.inline == []
    ensures RegionOf(segs, t).nodes == ItemNodes(Tags(segs, Items(t.r)))
  {
    var nodes := ItemNodes(Tags(segs, Items(t.r)));
    assert InlineNodes(t.inline) + nodes == nodes;
  }

  lemma NotListed(ts: seq<Tag>, id: string)
    requires forall i :: 0 <= i < |ts| ==> ts[i].Item? && ts[i].node.id != id
    ensures id !in NodeIds(ItemNodes(ts))
  {
  }

  lemma NoDupJoined(a: seq<Node>, n: Node, b: seq<Node>)
    requires NoDup(NodeIds(a + b)) && n.id !in NodeIds(a + b)
    ensures NoDup(NodeIds(a + [n] + b)) && forall v :: v in NodeIds(a + b) ==> v in NodeIds(a + [n] + b)
  {
    var x, y := NodeIds(a), NodeIds(b);
    assert NodeIds(a + b) == x + y && NodeIds(a + [n] + b) == x + [n.id] + y;
    NoDupConcat(x, y);
    NoDupSnoc(x, n.id);
    NoDupConcat(x + [n.id], y);
  }

  lemma NodesJoined(a: seq<Tag>, item: Tag, b: seq<Tag>)
    requires (forall x :: 0 <= x < |a| ==> a[x].Item?) && item.Item? && forall x :: 0 <= x < |b| ==> b[x].Item?
    ensures ItemNodes(a + b) == ItemNodes(a) + ItemNodes(b)
    ensures ItemNodes(a + [item] + b) == ItemNodes(a) + [item.node] + ItemNodes(b)
  {
  }

  /** The loaded nodes after one joined, around it. */
  lemma JoinedNodes(segs: seq<Seg>, t: Tag, p: nat, n: NewNode, quote: string -> string) returns (a: seq<Node>, b: seq<Node>)
    requires t.Head? && t.inline == [] && First(segs, NodesKeys(t.r)).Some? && p <= |segs|
    ensures RegionOf(segs, t).nodes == a + b
    ensures RegionOf(AddedAt(segs, t.r, p, n, quote), t).nodes == a + [n.node] + b
  {
    var x, y := AddedItems(segs, t.r, p, n, quote);
    PartsAreItems(segs, t.r, x, y);
    NodesJoined(x, ItemSeg(t.r, n).tag, y);
    a, b := ItemNodes(x), ItemNodes(y);
  }

  /** Its fallback: the pinned one, else what it was. */
  lemma JoinedFallbacks(segs: seq<Seg>, k: nat, p: nat, n: NewNode, quote: string -> string)
    requires First(segs, NodesKeys(k)).Some? && p <= |segs|
    ensures Tags(AddedAt(segs, k, p, n, quote), Fallbacks(k)) ==
            if PinName(segs, k).Some? then [Fallback(k, PinName(segs, k))] else Tags(segs, Fallbacks(k))
  {
    if PinName(segs, k).Some? {
      AddedFallback(segs, k, p, n, quote);
    } else {
      AddedTags(segs, k, p, n, quote, Fallbacks(k));
    }
  }

  lemma SameButNodes(segs: seq<Seg>, after: seq<Seg>, t: Tag, a: seq<Node>, n: Node, b: seq<Node>)
    requires t.Head? && t.region.ExitRegion? && RegionOf(after, t).nodes == a + [n] + b
    ensures RegionOf(segs, t).ExitRegion? && RegionOf(after, t).ExitRegion?
    ensures RegionOf(after, t) == Joined(RegionOf(segs, t), a, n, b, RegionOf(after, t).lbFallback)
  {
  }

  /** A node joins a region whose fallback gets pinned with it. */
  lemma SettledPinned(before: Region, a: seq<Node>, n: Node, b: seq<Node>, pin: Tag)
    requires Settled(before, []) && before.ExitRegion? && before.nodes == a + b && before.lbFallback.None? && n.id !in NodeIds(before.nodes)
    requires before.nodes != [] && pin.Fallback? && pin.name == Some(LeadNode(before).id)
    ensures var now := Joined(before, a, n, b, pin.name); Settled(now, [pin]) && FallbackTag(now) == FallbackTag(before)
  {
    PrimaryJoined(a, n, b);
    NoDupJoined(a, n, b);
    PinnedStays(before, a, n, b);
    PrimaryListed(before.nodes);
    IdListed(before.nodes, LeadNode(before));
  }

  /** A node joins a region whose fallback is named. */
  lemma SettledNamed(before: Region, a: seq<Node>, n: Node, b: seq<Node>, fallbacks: seq<Tag>)
    requires forall x :: 0 <= x < |fallbacks| ==> fallbacks[x].Fallback?
    requires Settled(before, fallbacks) && fallbacks != []
    requires before.ExitRegion? && before.nodes == a + b && before.nodes != [] && before.lbFallback == fallbacks[0].name
    requires n.id !in NodeIds(before.nodes)
    ensures var now := Joined(before, a, n, b, before.lbFallback); Settled(now, fallbacks) && FallbackTag(now) == FallbackTag(before)
  {
    PrimaryJoined(a, n, b);
    NoDupJoined(a, n, b);
    NamedStays(before, a, n, b, before.lbFallback.value);
  }

  /** The region a node joins: nothing else changes, and the resolved fallback tag stays. */
  lemma JoinKeeps(segs: seq<Seg>, t: Tag, p: nat, n: NewNode, quote: string -> string)
    requires Guarded(segs, t) && FreshNode(segs, n) && First(segs, NodesKeys(t.r)).Some? && p <= |segs|
    ensures var after := AddedAt(segs, t.r, p, n, quote);
            && Settled(RegionOf(after, t), Tags(after, Fallbacks(t.r)))
            && RegionOf(segs, t).nodes != [] && RegionOf(after, t).nodes != []
            && FallbackTag(RegionOf(after, t)) == FallbackTag(RegionOf(segs, t))
  {
    var before, after := RegionOf(segs, t), AddedAt(segs, t.r, p, n, quote);
    var a, b := JoinedNodes(segs, t, p, n, quote);
    SameButNodes(segs, after, t, a, n.node, b);
    JoinedFallbacks(segs, t.r, p, n, quote);
    FreshId(segs, t, n);
    if Tags(segs, Fallbacks(t.r)) == [] {
      NoPinNoKey(segs, t);
      SettledPinned(before, a, n.node, b, Fallback(t.r, PinName(segs, t.r)));
    } else {
      PinNeedsNoKey(segs, t.r);
      SettledNamed(before, a, n.node, b, Tags(segs, Fallbacks(t.r)));
    }
  }

  lemma NoPinNoKey(segs: seq<Seg>, t: Tag)
    requires Guarded(segs, t) && Tags(segs, Fallbacks(t.r)) == []
    ensures RegionOf(segs, t).nodes != [] && PinName(segs, t.r) == Some(LeadNode(RegionOf(segs, t)).id)
  {
    assert RegionOf(segs, t).nodes == ItemNodes(Tags(segs, Items(t.r)));
    PinIsLead(segs, t);
  }

  lemma PinNeedsNoKey(segs: seq<Seg>, k: nat)
    requires Tags(segs, Fallbacks(k)) != []
    ensures PinName(segs, k).None?
  {
    FirstTag(segs, Fallbacks(k));
  }

  /** Edits elsewhere leave the loaded region alone. */
  lemma Elsewhere(segs: seq<Seg>, after: seq<Seg>, t: Tag)
    requires Guarded(segs, t) && WellFormed(after) && Loads(after)
    requires Tags(after, Items(t.r)) == Tags(segs, Items(t.r)) && Tags(after, Fallbacks(t.r)) == Tags(segs, Fallbacks(t.r))
    requires Tags(after, Strategies(t.r)) == Tags(segs, Strategies(t.r))
    requires t.r < |Tags(after, Heads)| && Tags(after, Heads)[t.r] == t
    ensures Guarded(after, t) && RegionOf(after, t) == RegionOf(segs, t)
  {
  }

  lemma OtherTags(segs: seq<Seg>, k: nat, p: nat, n: NewNode, quote: string -> string, r: nat)
    requires First(segs, NodesKeys(k)).Some? && p <= |segs| && r != k
    ensures Tags(AddedAt(segs, k, p, n, quote), Items(r)) == Tags(segs, Items(r))
    ensures Tags(AddedAt(segs, k, p, n, quote), Fallbacks(r)) == Tags(segs, Fallbacks(r))
  {
    AddedTags(segs, k, p, n, quote, Items(r));
    AddedTags(segs, k, p, n, quote, Fallbacks(r));
  }

  lemma JoinStep(segs: seq<Seg>, t: Tag, k: nat, n: NewNode, quote: string -> string)
    requires Guarded(segs, t) && FreshNode(segs, n) && First(segs, NodesKeys(k)).Some?
    ensures var after := AddedTo(segs, k, n, quote);
            && Guarded(after, t)
            && RegionOf(segs, t).nodes != [] && RegionOf(after, t).nodes != []
            && FallbackTag(RegionOf(after, t)) == FallbackTag(RegionOf(segs, t))
  {
    var p := InsertPoint(segs, k, n.id);
    var after := AddedTo(segs, k, n, quote);
    if PinName(segs, k).Some? { PinRowIsContent(quote(PinName(segs, k).value)); }
    AddedWellFormed(segs, k, p, n, quote);
    AddedLoads(segs, k, p, n, quote);
    AddedTags(segs, k, p, n, quote, Heads);
    AddedTags(segs, k, p, n, quote, Strategies(t.r));
    if k == t.r {
      JoinKeeps(segs, t, p, n, quote);
    } else {
      OtherTags(segs, k, p, n, quote, t.r);
      Elsewhere(segs, after, t);
    }
  }

  lemma CreateTags(segs: seq<Seg>, last: nat, region: NewRegion, n: NewNode, kind: Kind)
    requires last < |segs|
    ensures var k := |Where(segs, Heads)|;
            var more := [Seg(Trivia, [""])] + RegionSegs(k, region, n);
            Tags(CreatedAfter(segs, last, region, n), kind) == Tags(segs[..last + 1], kind) + Tags(more, kind) + Tags(segs[last + 1..], kind)
  {
    var more := [Seg(Trivia, [""])] + RegionSegs(|Where(segs, Heads)|, region, n);
    TagsConcat(segs[..last + 1] + more, segs[last + 1..], kind);
    TagsConcat(segs[..last + 1], more, kind);
  }

  lemma NewSegsTags(k: nat, region: NewRegion, n: NewNode, kind: Kind)
    requires kind == Heads || ((kind.Items? || kind.Fallbacks? || kind.Strategies?) && kind.r != k)
    ensures var more := [Seg(Trivia, [""])] + RegionSegs(k, region, n);
            Tags(more, kind) == if kind == Heads then [RegionSegs(k, region, n)[0].tag] else []
  {
    var all := RegionSegs(k, region, n);
    FourTags(Seg(Trivia, [""]), all[0], all[1], all[2], kind);
  }

  lemma FourTags(a: Seg, b: Seg, c: Seg, d: Seg, kind: Kind)
    requires !Is(kind, a.tag) && !Is(kind, c.tag) && !Is(kind, d.tag)
    ensures Tags([a] + [b, c, d], kind) == if Is(kind, b.tag) then [b.tag] else []
  {
    assert [a] + [b, c, d] == [a] + [b] + [c] + [d];
    TagsOne(a, kind);
    TagsSnoc([a], b, kind);
    TagsSnoc([a] + [b], c, kind);
    TagsSnoc([a] + [b] + [c], d, kind);
  }

  lemma CreateLoads(segs: seq<Seg>, last: nat, region: NewRegion, n: NewNode)
    requires Loads(segs) && last < |segs| && n.id == n.node.id && region.id == region.region.id
    ensures Loads(CreatedAfter(segs, last, region, n))
  {
  }

  lemma CreateElsewhere(segs: seq<Seg>, last: nat, region: NewRegion, n: NewNode, kind: Kind)
    requires last < |segs| && (kind.Items? || kind.Fallbacks? || kind.Strategies?) && kind.r != |Where(segs, Heads)|
    ensures Tags(CreatedAfter(segs, last, region, n), kind) == Tags(segs, kind)
  {
    CreateTags(segs, last, region, n, kind);
    NewSegsTags(|Where(segs, Heads)|, region, n, kind);
    TagsSplit(segs, last + 1, kind);
    assert Tags(segs[..last + 1], kind) + [] == Tags(segs[..last + 1], kind);
  }

  lemma CreateHeads(segs: seq<Seg>, last: nat, region: NewRegion, n: NewNode, r: nat)
    requires WellFormed(segs) && Where(segs, Heads) != [] && IsLast(segs, |Where(segs, Heads)| - 1, last)
    requires r < |Tags(segs, Heads)|
    ensures r < |Tags(CreatedAfter(segs, last, region, n), Heads)|
    ensures Tags(CreatedAfter(segs, last, region, n), Heads)[r] == Tags(segs, Heads)[r]
  {
    CreateTags(segs, last, region, n, Heads);
    NewSegsTags(|Where(segs, Heads)|, region, n, Heads);
    TagsSplit(segs, last + 1, Heads);
    HeadsAbove(segs, last);
    TagsAt(segs, Heads);
    TagsAt(segs[..last + 1], Heads);
  }

  lemma CreateStep(segs: seq<Seg>, t: Tag, last: nat, region: NewRegion, n: NewNode)
    requires Guarded(segs, t) && FreshNode(segs, n) && Where(segs, Heads) != []
    requires IsLast(segs, |Where(segs, Heads)| - 1, last) && RegionText(region) && region.id == region.region.id
    ensures Guarded(CreatedAfter(segs, last, region, n), t)
    ensures RegionOf(CreatedAfter(segs, last, region, n), t) == RegionOf(segs, t)
  {
    var after := CreatedAfter(segs, last, region, n);
    TagsAt(segs, Heads);
    CreatedAfterWellFormed(segs, last, region, n);
    CreateLoads(segs, last, region, n);
    CreateElsewhere(segs, last, region, n, Items(t.r));
    CreateElsewhere(segs, last, region, n, Fallbacks(t.r));
    CreateElsewhere(segs, last, region, n, Strategies(t.r));
    CreateHeads(segs, last, region, n, t.r);
    Elsewhere(segs, after, t);
  }

  /** One addition anywhere keeps the region guarded and its resolved fallback tag. */
  lemma MoveKeeps(segs: seq<Seg>, t: Tag, m: Move, quote: string -> string)
    requires Guarded(segs, t) && Legal(segs, m)
    ensures Guarded(AfterMove(segs, m, quote), t)
    ensures RegionOf(segs, t).nodes != [] && RegionOf(AfterMove(segs, m, quote), t).nodes != []
    ensures FallbackTag(RegionOf(AfterMove(segs, m, quote), t)) == FallbackTag(RegionOf(segs, t))
  {
    match m
    case Join(k, n) => JoinStep(segs, t, k, n, quote);
    case Create(last, region, n) => CreateStep(segs, t, last, region, n);
  }

  ghost predicate LegalRun(segs: seq<Seg>, ms: seq<Move>, quote: string -> string)
    decreases |ms|
  {
    ms != [] ==> Legal(segs, ms[0]) && LegalRun(AfterMove(segs, ms[0], quote), ms[1..], quote)
  }

  ghost function Ran(segs: seq<Seg>, ms: seq<Move>, quote: string -> string): seq<Seg>
    requires LegalRun(segs, ms, quote)
    decreases |ms|
  {
    if ms == [] then segs else Ran(AfterMove(segs, ms[0], quote), ms[1..], quote)
  }

  /** Over any run of additions the fallback tag the compiler resolves for the region never changes. */
  lemma {:induction false} RunKeepsFallback(segs: seq<Seg>, t: Tag, ms: seq<Move>, quote: string -> string)
    requires Guarded(segs, t) && LegalRun(segs, ms, quote)
    ensures Guarded(Ran(segs, ms, quote), t)
    ensures RegionOf(segs, t).nodes != [] && RegionOf(Ran(segs, ms, quote), t).nodes != []
    ensures FallbackTag(RegionOf(Ran(segs, ms, quote), t)) == FallbackTag(RegionOf(segs, t))
    decreases |ms|
  {
    if ms != [] {
      MoveKeeps(segs, t, ms[0], quote);
      RunKeepsFallback(AfterMove(segs, ms[0], quote), t, ms[1..], quote);
    }
  }
}
