/** A document where removing a node named `direct` takes valid routes to `direct` with it. */
module SpecialNames {
  import opened Base
  import opened Names
  import opened Schema
  import opened Acceptance
  import opened Text
  import opened LineSplice
  import opened Outline
  import opened Editor
  import opened WellFormedEdits
  import opened DocView
  import opened References
  import opened DashLines

  /** `s` behind `n` spaces. */
  function Line(n: nat, s: string): string { seq(n, _ => ' ') + s }

  function Root(): Seg { Seg(RegionsKey(None), [Line(0, "regions:")]) }

  function Top(region: Region): Seg { Seg(Head(0, Some("nl"), Some("exit"), None, [], region), [Line(2, "- id: nl")]) }

  function Key(): Seg { Seg(NodesKey(0, None), [Line(4, "nodes:")]) }

  function DirectNode(node: Node): Seg { Seg(Item(0, Some("direct"), node), [Line(6, "- id: direct")]) }

  function OtherNode(node: Node): Seg { Seg(Item(0, Some("b"), node), [Line(6, "- id: b")]) }

  function Routes(): Seg { Seg(RoutesKey, [Line(0, "hub_routes:")]) }

  function ToDirect(route: HubRoute): Seg { Seg(Route(Some("direct"), route), [Line(2, "- destination: direct")]) }

  lemma Row(n: nat, s: string, tag: Tag)
    requires s != "" && !IsSpace(s[0]) && s[0] != '#' && FlowOf(tag).None? && !tag.Trivia?
    requires tag.Head? ==> IsDash(s, "")
    ensures RowsOk(Seg(tag, [Line(n, s)]))
  {
    Indented(n, s);
  }

  /** One region with two nodes, and one route. */
  ghost predicate Shape(segs: seq<Seg>) {
    && |segs| == 7 && (forall j :: 0 <= j < 7 ==> RowsOk(segs[j])) && segs[1].rows != []
    && segs[0].tag == RegionsKey(None)
    && segs[1].tag.Head? && segs[1].tag.r == 0 && segs[1].tag.inline == []
    && segs[2].tag == NodesKey(0, None)
    && Is(Items(0), segs[3].tag) && Is(Items(0), segs[4].tag)
    && segs[5].tag == RoutesKey && segs[6].tag.Route?
  }

  lemma Seven<T>(s: seq<T>)
    requires |s| == 7
    ensures s == [s[0]] + [s[1]] + [s[2]] + [s[3]] + [s[4]] + [s[5]] + [s[6]]
  {
  }

  lemma RegionFits(root: Seg, head: Seg, key: Seg)
    requires RowsOk(root) && root.tag == RegionsKey(None)
    requires RowsOk(head) && head.tag.Head? && head.tag.r == 0 && head.tag.inline == [] && head.rows != []
    requires RowsOk(key) && key.tag == NodesKey(0, None)
    ensures var a := [root] + [head] + [key];
            && FitsAll(a) && !EndsOpen(a) && |Where(a, Heads)| == 1 && KeyAbove(a, 0) && Where(a, Items(0)) == []
            && First(a, RegionsKeys).Some?
  {
    RootFits(root);
    HeadNext([root], 0, head);
    KeyNext([root] + [head], 0, key);
    SnocKinds([], root, Items(0));
    SnocKinds([root], head, Items(0));
    SnocKinds([root] + [head], key, Items(0));
    assert [] + [root] == [root];
    FirstStays([root], head, RegionsKeys);
    FirstStays([root] + [head], key, RegionsKeys);
  }

  lemma RoutesKeyFits(a: seq<Seg>, key: Seg)
    requires FitsAll(a) && !EndsOpen(a) && First(a, RegionsKeys).Some? && RowsOk(key) && key.tag == RoutesKey
    ensures FitsAll(a + [key]) && !EndsOpen(a + [key]) && First(a + [key], RegionsKeys).Some? && First(a + [key], RoutesKeys).Some?
    ensures Where(a + [key], Items(0)) == Where(a, Items(0))
  {
    FitsMore(a, key);
    SnocKinds(a, key, RoutesKeys);
    FirstStays(a, key, RegionsKeys);
    SnocKinds(a, key, Items(0));
  }

  lemma RouteFits(a: seq<Seg>, route: Seg)
    requires FitsAll(a) && !EndsOpen(a) && First(a, RegionsKeys).Some? && First(a, RoutesKeys).Some?
    requires RowsOk(route) && route.tag.Route?
    ensures WellFormed(a + [route]) && Where(a + [route], Items(0)) == Where(a, Items(0))
  {
    FitsMore(a, route);
    FirstStays(a, route, RegionsKeys);
    SnocKinds(a, route, Items(0));
  }

  lemma NodeFits(a: seq<Seg>, x: Seg)
    requires FitsAll(a) && !EndsOpen(a) && |Where(a, Heads)| == 1 && KeyAbove(a, 0) && First(a, RegionsKeys).Some?
    requires RowsOk(x) && Is(Items(0), x.tag)
    ensures var b := a + [x];
            && FitsAll(b) && !EndsOpen(b) && |Where(b, Heads)| == 1 && KeyAbove(b, 0) && First(b, RegionsKeys).Some?
            && Where(b, Items(0)) == Where(a, Items(0)) + [|a|]
  {
    ItemNext(a, 0, x);
    SnocKinds(a, x, Heads);
    SnocKinds(a, x, NodesKeys(0));
    SnocKinds(a, x, Items(0));
    FirstStays(a, x, RegionsKeys);
  }

  lemma NodesFit(a: seq<Seg>, x: Seg, y: Seg)
    requires FitsAll(a) && !EndsOpen(a) && |Where(a, Heads)| == 1 && KeyAbove(a, 0) && Where(a, Items(0)) == []
    requires First(a, RegionsKeys).Some?
    requires RowsOk(x) && Is(Items(0), x.tag) && RowsOk(y) && Is(Items(0), y.tag)
    ensures var b := a + [x] + [y];
            FitsAll(b) && !EndsOpen(b) && First(b, RegionsKeys).Some? && Where(b, Items(0)) == [|a|, |a| + 1]
  {
    NodeFits(a, x);
    NodeFits(a + [x], y);
  }

  lemma ShapeFits(segs: seq<Seg>)
    requires Shape(segs)
    ensures WellFormed(segs) && Where(segs, Items(0)) == [3, 4]
  {
    var a := [segs[0]] + [segs[1]] + [segs[2]];
    RegionFits(segs[0], segs[1], segs[2]);
    NodesFit(a, segs[3], segs[4]);
    RoutesKeyFits(a + [segs[3]] + [segs[4]], segs[5]);
    RouteFits(a + [segs[3]] + [segs[4]] + [segs[5]], segs[6]);
    Seven(segs);
  }

  lemma StaysAcceptable(segs: seq<Seg>, rest: Config, k: nat, i: nat, d: string)
    requires i < |segs| && segs[i].tag.Item? && IsSpecial(d)
    requires !IsRegion(Load(segs, rest), d) && d !in HubNodeIds(Load(segs, rest))
    ensures DestinationOk(Load(segs, rest), d) && DestinationOk(Load(Removed(segs, k, i), rest), d)
  {
    RegionSurvives(segs, rest, k, i, d);
    if d in HubNodeIds(Load(Removed(segs, k, i), rest)) { HubNodesShrink(segs, rest, k, i, d); }
  }

  lemma NamedRoute(segs: seq<Seg>, rest: Config, k: nat, i: nat, j: nat, d: string)
    requires Loads(segs) && i < |segs| && segs[i].tag.Item? && segs[i].tag.node.id == d && !IsRegion(Load(segs, rest), d)
    requires j < |segs| && segs[j].tag.Route? && segs[j].tag.route.destination == d
    ensures DeadRoute(segs, k, segs[i].tag.id, j)
  {
    if IsRegionId(segs, Some(d)) { RegionIdLoaded(segs, rest, d); }
  }

  /** The route goes although its destination stays acceptable. */
  lemma ShapeDrops(segs: seq<Seg>, rest: Config, d: string)
    requires |segs| == 7 && Loads(segs) && IsSpecial(d) && forall j :: 0 <= j < 7 && segs[j].tag.Head? ==> j == 1
    requires segs[1].tag.Head? && segs[1].tag.region.ExitRegion? && segs[1].tag.region.id != d
    requires segs[3].tag.Item? && segs[3].tag.node.id == d && segs[6].tag.Route? && segs[6].tag.route.destination == d
    ensures DeadRoute(segs, 0, segs[3].tag.id, 6)
    ensures DestinationOk(Load(segs, rest), d) && DestinationOk(Load(Removed(segs, 0, 3), rest), d)
  {
    OnlyRegion(segs, rest, d);
    NamedRoute(segs, rest, 0, 3, 6, d);
    StaysAcceptable(segs, rest, 0, 3, d);
  }

  lemma OnlyRegion(segs: seq<Seg>, rest: Config, id: string)
    requires |segs| == 7 && forall j :: 0 <= j < 7 && segs[j].tag.Head? ==> j == 1
    requires segs[1].tag.Head? && segs[1].tag.region.ExitRegion? && segs[1].tag.region.id != id
    ensures var c := Load(segs, rest); !IsRegion(c, id) && id !in HubNodeIds(c)
  {
    var c := Load(segs, rest);
    forall r | r in c.regions ensures r.ExitRegion? && r.id != id { OneRegion(segs, rest, r); }
    if id in HubNodeIds(c) { var r, n := NodeIdOwner(Hubs(c.regions), id); }
  }

  lemma OneRegion(segs: seq<Seg>, rest: Config, r: Region)
    requires |segs| == 7 && (forall j :: 0 <= j < 7 && segs[j].tag.Head? ==> j == 1) && r in Load(segs, rest).regions
    ensures segs[1].tag.Head? && r == RegionOf(segs, segs[1].tag)
  {
    var h := RegionMember(segs, rest, r);
  }

  lemma RootOk()
    ensures RowsOk(Root())
  {
    Row(0, "regions:", Root().tag);
  }

  lemma TopOk(region: Region)
    ensures RowsOk(Top(region))
  {
    Row(2, "- id: nl", Top(region).tag);
  }

  lemma KeyOk()
    ensures RowsOk(Key())
  {
    Row(4, "nodes:", Key().tag);
  }

  lemma DirectOk(node: Node)
    ensures RowsOk(DirectNode(node))
  {
    Row(6, "- id: direct", DirectNode(node).tag);
  }

  lemma OtherOk(node: Node)
    ensures RowsOk(OtherNode(node))
  {
    Row(6, "- id: b", OtherNode(node).tag);
  }

  lemma RoutesOk()
    ensures RowsOk(Routes())
  {
    Row(0, "hub_routes:", Routes().tag);
  }

  lemma RouteOk(route: HubRoute)
    ensures RowsOk(ToDirect(route))
  {
    Row(2, "- destination: direct", ToDirect(route).tag);
  }

  lemma ShapeOf(root: Seg, head: Seg, key: Seg, x: Seg, y: Seg, routes: Seg, route: Seg)
    requires RowsOk(root) && RowsOk(head) && RowsOk(key) && RowsOk(x) && RowsOk(y) && RowsOk(routes) && RowsOk(route)
    requires root.tag == RegionsKey(None) && head.tag.Head? && head.tag.r == 0 && head.tag.inline == [] && head.rows != []
    requires key.tag == NodesKey(0, None) && Is(Items(0), x.tag) && Is(Items(0), y.tag) && routes.tag == RoutesKey && route.tag.Route?
    ensures Shape([root, head, key, x, y, routes, route])
  {
  }

  lemma NamesMatch(root: Seg, head: Seg, key: Seg, x: Seg, y: Seg, routes: Seg, route: Seg)
    requires root.tag == RegionsKey(None) && head.tag.Head? && key.tag.NodesKey? && x.tag.Item? && y.tag.Item?
    requires routes.tag == RoutesKey && route.tag.Route?
    requires head.tag.id == Some(head.tag.region.id) && x.tag.id == Some(x.tag.node.id) && y.tag.id == Some(y.tag.node.id)
    requires route.tag.destination == Some(route.tag.route.destination)
    ensures Loads([root, head, key, x, y, routes, route])
  {
  }

  /** Removing node 3 deletes route 6 to `d`, which is acceptable before and after. */
  ghost predicate LosesRoute(segs: seq<Seg>, rest: Config, d: string) {
    && WellFormed(segs) && |segs| == 7 && segs[3].tag.Item? && DeadRoute(segs, 0, segs[3].tag.id, 6)
    && segs[6].tag.destination == Some(d)
    && DestinationOk(Load(segs, rest), d) && DestinationOk(Load(Removed(segs, 0, 3), rest), d)
  }

  lemma ShapeLoses(root: Seg, head: Seg, key: Seg, x: Seg, y: Seg, routes: Seg, route: Seg, rest: Config, d: string)
    requires Shape([root, head, key, x, y, routes, route]) && Loads([root, head, key, x, y, routes, route])
    requires IsSpecial(d) && head.tag.region.ExitRegion? && head.tag.region.id != d
    requires x.tag.node.id == d && route.tag.route.destination == d
    ensures LosesRoute([root, head, key, x, y, routes, route], rest, d)
  {
    ShapeFits([root, head, key, x, y, routes, route]);
    ShapeDrops([root, head, key, x, y, routes, route], rest, d);
  }

  /** Removing the node `direct` of `nl` deletes the route to `direct`, which is valid before and after. */
  lemma DirectRouteDropped(region: Region, a: Node, b: Node, route: HubRoute, rest: Config)
    requires region.ExitRegion? && region.id == "nl" && a.id == "direct" && b.id == "b" && route.destination == "direct"
    ensures LosesRoute([Root(), Top(region), Key(), DirectNode(a), OtherNode(b), Routes(), ToDirect(route)], rest, "direct")
  {
    RootOk();
    TopOk(region);
    KeyOk();
    DirectOk(a);
    OtherOk(b);
    RoutesOk();
    RouteOk(route);
    ShapeOf(Root(), Top(region), Key(), DirectNode(a), OtherNode(b), Routes(), ToDirect(route));
    NamesMatch(Root(), Top(region), Key(), DirectNode(a), OtherNode(b), Routes(), ToDirect(route));
    ShapeLoses(Root(), Top(region), Key(), DirectNode(a), OtherNode(b), Routes(), ToDirect(route), rest, DIRECT);
  }
}
