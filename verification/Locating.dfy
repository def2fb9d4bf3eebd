/** Locating a parsed file's entries: from the parser's marks and values to the spans the editor uses. */
module Locating {
  import opened Base
  import opened Schema
  import opened LineSplice
  import opened Outline
  import opened ItemSpans

  // What the parser delivers ----------------------------------------------------------------

  datatype ParsedNode = ParsedNode(id: Option<string>, backup: bool)

  datatype ParsedRegion = ParsedRegion(
    id: Option<string>, kind: Option<string>, error: Option<string>, nodes: seq<ParsedNode>, marks: Marks,
    nodesLine: Option<nat>, emptyFlowNodes: Option<Flow>, lbFallback: Option<string>, lbFallbackLine: Option<nat>,
    lbStrategyEnd: Option<nat>)

  datatype Parsed = Parsed(
    regions: seq<ParsedRegion>, marks: Marks, regionsLine: nat, emptyFlowRegions: Option<Flow>,
    routes: seq<Option<string>>, routesMarks: Marks, routesLine: Option<nat>, routesError: Option<string>)

  function NodeItems(nodes: seq<ParsedNode>, spans: seq<Span>): (out: seq<NodeItem>)
    requires |nodes| == |spans|
    ensures |out| == |nodes|
    ensures forall x :: 0 <= x < |out| ==> out[x] == NodeItem(nodes[x].id, nodes[x].backup, spans[x].start, spans[x].end)
  {
    seq(|nodes|, x requires 0 <= x < |nodes| => NodeItem(nodes[x].id, nodes[x].backup, spans[x].start, spans[x].end))
  }

  function RouteItems(routes: seq<Option<string>>, spans: seq<Span>): (out: seq<RouteItem>)
    requires |routes| == |spans|
    ensures |out| == |routes|
    ensures forall x :: 0 <= x < |out| ==> out[x] == RouteItem(routes[x], spans[x].start, spans[x].end)
  {
    seq(|routes|, x requires 0 <= x < |routes| => RouteItem(routes[x], spans[x].start, spans[x].end))
  }

  function ItemOf(pr: ParsedRegion, nodes: seq<NodeItem>, s: Span): RegionItem {
    RegionItem(pr.id, pr.kind, nodes, pr.nodesLine, pr.error, pr.emptyFlowNodes, pr.lbFallback, pr.lbFallbackLine,
               pr.lbStrategyEnd, s.start, s.end)
  }

  // The parser's contract -------------------------------------------------------------------

  ghost predicate InFile(segs: seq<Seg>, m: Marks) {
    forall x :: 0 <= x < |m.keyLines| ==> m.keyLines[x] < |Flatten(segs)|
  }

  ghost predicate NodeParsed(segs: seq<Seg>, i: nat, n: ParsedNode) {
    i < |segs| && segs[i].tag.Item? && n == ParsedNode(segs[i].tag.id, segs[i].tag.node.backup)
  }

  ghost predicate NodesParsed(segs: seq<Seg>, k: nat, head: Tag, nodes: seq<ParsedNode>, m: Marks)
    requires head.Head?
  {
    var at := Where(segs, Items(k));
    && InFile(segs, m) && |m.keyLines| == |nodes|
    && if head.error.None? then
         && |nodes| == |at| && MarksOf(segs, at, at, m)
         && forall x {:trigger NodeParsed(segs, at[x], nodes[x])} :: 0 <= x < |at| ==> NodeParsed(segs, at[x], nodes[x])
       else
         && |nodes| == |head.inline|
         && forall x :: 0 <= x < |nodes| ==> nodes[x] == ParsedNode(head.inline[x].0, head.inline[x].1.backup)
  }

  ghost predicate RegionParsed(segs: seq<Seg>, k: nat, pr: ParsedRegion) {
    && k < |Where(segs, Heads)|
    && var t := segs[Where(segs, Heads)[k]].tag;
    && pr.id == t.id && pr.kind == t.kind && pr.error == t.error
    && NodesParsed(segs, k, t, pr.nodes, pr.marks)
    && KeysReported(segs, k, ItemOf(pr, [], Span(0, 0)))
  }

  ghost predicate RouteParsed(segs: seq<Seg>, i: nat, destination: Option<string>) {
    i < |segs| && segs[i].tag.Route? && destination == segs[i].tag.destination
  }

  ghost predicate RoutesParsed(segs: seq<Seg>, at: seq<nat>, routes: seq<Option<string>>, m: Marks) {
    && |routes| == |at| == |m.keyLines| && InFile(segs, m) && MarksOf(segs, at, at, m)
    && forall x {:trigger RouteParsed(segs, at[x], routes[x])} :: 0 <= x < |at| ==> RouteParsed(segs, at[x], routes[x])
  }

  /** Values and marks are those of the document the lines spell; `last` ends each region. */
  ghost predicate Parses(segs: seq<Seg>, p: Parsed, last: seq<nat>) {
    var heads := Where(segs, Heads);
    && |p.regions| == |heads| == |p.marks.keyLines| && InFile(segs, p.marks) && MarksOf(segs, heads, last, p.marks)
    && (forall k {:trigger RegionParsed(segs, k, p.regions[k])} :: 0 <= k < |heads| ==> RegionParsed(segs, k, p.regions[k]))
    && (forall k: nat {:trigger LastAt(segs, last, k)} :: k < |heads| ==> LastAt(segs, last, k))
    && RoutesParsed(segs, Where(segs, AllRoutes), p.routes, p.routesMarks)
    && p.routesLine == LineOf(segs, First(segs, RoutesKeys))
    && First(segs, RegionsKeys).Some?
    && var key := First(segs, RegionsKeys).value;
    && p.regionsLine == Off(segs, key) && p.emptyFlowRegions == FlowAt(Off(segs, key), segs[key].tag.flow)
  }

  ghost predicate LastAt(segs: seq<Seg>, last: seq<nat>, k: nat) { k < |last| && IsLast(segs, k, last[k]) }

  // Locating --------------------------------------------------------------------------------

  lemma NodeLocated(segs: seq<Seg>, i: nat, n: ParsedNode, s: Span)
    requires NodeParsed(segs, i, n) && SpanAt(segs, i, i, s)
    ensures NodeReported(segs, i, NodeItem(n.id, n.backup, s.start, s.end))
  {
  }

  /** The located nodes of a region are the ones the editor's theorems speak of. */
  lemma NodesLocated(segs: seq<Seg>, k: nat, head: Tag, nodes: seq<ParsedNode>, m: Marks, starts: seq<nat>)
    requires head.Head? && NodesParsed(segs, k, head, nodes, m) && Located(Flatten(segs), m, starts)
    ensures |starts| == |nodes| && NodesReported(segs, k, head, NodeItems(nodes, Paired(starts, m.end)))
  {
    if head.error.None? {
      var at, items := Where(segs, Items(k)), NodeItems(nodes, Paired(starts, m.end));
      forall x | 0 <= x < |at| ensures NodeReported(segs, at[x], items[x]) {
        assert NodeParsed(segs, at[x], nodes[x]);
        SpansAreItems(segs, at, at, m, starts, x);
        NodeLocated(segs, at[x], nodes[x], Paired(starts, m.end)[x]);
      }
    }
  }

  lemma RoutesLocated(segs: seq<Seg>, at: seq<nat>, routes: seq<Option<string>>, m: Marks, starts: seq<nat>, x: nat)
    requires RoutesParsed(segs, at, routes, m) && Located(Flatten(segs), m, starts) && x < |at|
    ensures |starts| == |routes| && RouteReported(segs, at[x], RouteItems(routes, Paired(starts, m.end))[x])
  {
    assert RouteParsed(segs, at[x], routes[x]);
    SpansAreItems(segs, at, at, m, starts, x);
  }

  /** Neither nodes nor span matter to what is said of a region's keys. */
  lemma KeysLocated(segs: seq<Seg>, k: nat, pr: ParsedRegion, nodes: seq<NodeItem>, s: Span)
    requires KeysReported(segs, k, ItemOf(pr, [], Span(0, 0)))
    ensures KeysReported(segs, k, ItemOf(pr, nodes, s))
  {
  }

  lemma RegionLocated(segs: seq<Seg>, k: nat, pr: ParsedRegion, nodes: seq<NodeItem>, last: nat, s: Span)
    requires RegionParsed(segs, k, pr) && NodesReported(segs, k, segs[Where(segs, Heads)[k]].tag, nodes)
    requires IsLast(segs, k, last) && SpanAt(segs, Where(segs, Heads)[k], last, s)
    ensures RegionReported(segs, k, ItemOf(pr, nodes, s))
  {
    KeysLocated(segs, k, pr, nodes, s);
  }

  method LocateNodes(lines: seq<string>, pr: ParsedRegion, ghost segs: seq<Seg>, ghost k: nat) returns (nodes: seq<NodeItem>)
    requires lines == Flatten(segs) && RegionParsed(segs, k, pr)
    ensures NodesReported(segs, k, segs[Where(segs, Heads)[k]].tag, nodes)
  {
    var spans;
    ghost var starts;
    spans, starts := Spans(lines, pr.marks);
    NodesLocated(segs, k, segs[Where(segs, Heads)[k]].tag, pr.nodes, pr.marks, starts);
    nodes := NodeItems(pr.nodes, spans);
  }

  method LocateRegion(lines: seq<string>, pr: ParsedRegion, s: Span, ghost segs: seq<Seg>, ghost k: nat, ghost last: nat)
    returns (item: RegionItem)
    requires lines == Flatten(segs) && RegionParsed(segs, k, pr)
    requires IsLast(segs, k, last) && SpanAt(segs, Where(segs, Heads)[k], last, s)
    ensures RegionReported(segs, k, item)
  {
    var nodes := LocateNodes(lines, pr, segs, k);
    RegionLocated(segs, k, pr, nodes, last, s);
    item := ItemOf(pr, nodes, s);
  }

  ghost predicate RegionsReported(segs: seq<Seg>, regions: seq<RegionItem>) {
    forall k: nat {:trigger RegionReported(segs, k, regions[k])} :: k < |regions| ==> RegionReported(segs, k, regions[k])
  }

  method LocateRegions(lines: seq<string>, p: Parsed, ghost segs: seq<Seg>, ghost last: seq<nat>) returns (regions: seq<RegionItem>)
    requires lines == Flatten(segs) && Parses(segs, p, last)
    ensures |regions| == |Where(segs, Heads)| && RegionsReported(segs, regions)
  {
    var spans;
    ghost var starts;
    spans, starts := Spans(lines, p.marks);
    regions := [];
    for k := 0 to |p.regions|
      invariant |regions| == k && RegionsReported(segs, regions)
    {
      SpansAreItems(segs, Where(segs, Heads), last, p.marks, starts, k);
      assert RegionParsed(segs, k, p.regions[k]) && LastAt(segs, last, k);
      var item := LocateRegion(lines, p.regions[k], spans[k], segs, k, last[k]);
      RegionsMore(segs, regions, item);
      regions := regions + [item];
    }
  }

  lemma RegionsMore(segs: seq<Seg>, regions: seq<RegionItem>, item: RegionItem)
    requires RegionsReported(segs, regions) && RegionReported(segs, |regions|, item)
    ensures RegionsReported(segs, regions + [item])
  {
    var all := regions + [item];
    forall k: nat | k < |all| ensures RegionReported(segs, k, all[k]) {
      if k < |regions| { assert RegionReported(segs, k, regions[k]); }
    }
  }

  method LocateRoutes(lines: seq<string>, p: Parsed, ghost segs: seq<Seg>, ghost last: seq<nat>) returns (routes: seq<RouteItem>)
    requires lines == Flatten(segs) && Parses(segs, p, last)
    ensures |routes| == |Where(segs, AllRoutes)|
    ensures forall x {:trigger RouteReported(segs, Where(segs, AllRoutes)[x], routes[x])} ::
              0 <= x < |routes| ==> RouteReported(segs, Where(segs, AllRoutes)[x], routes[x])
  {
    var spans;
    ghost var starts;
    spans, starts := Spans(lines, p.routesMarks);
    routes := RouteItems(p.routes, spans);
    forall x | 0 <= x < |routes| ensures RouteReported(segs, Where(segs, AllRoutes)[x], routes[x]) {
      RoutesLocated(segs, Where(segs, AllRoutes), p.routes, p.routesMarks, starts, x);
    }
  }

  /** Everything the editor knows of a file, from the parser's marks and values. */
  method Locate(lines: seq<string>, p: Parsed, ghost segs: seq<Seg>, ghost last: seq<nat>) returns (view: View)
    requires lines == Flatten(segs) && Parses(segs, p, last)
    ensures Reported(segs, view) && view.routesError == p.routesError
  {
    var regions := LocateRegions(lines, p, segs, last);
    var routes := LocateRoutes(lines, p, segs, last);
    view := View(regions, p.regionsLine, p.emptyFlowRegions, routes, p.routesLine, p.routesError);
  }
}
