/** The structured document behind a topology file, and the line positions a parser reports for it. */
module Outline {
  import opened Base
  import opened Schema
  import opened Text
  import opened LineSplice

  // The document ----------------------------------------------------------------------------

  /** What a stretch of lines is. `r` counts regions in file order; values are what the file loads as. */
  datatype Tag =
    | Plain
    | Trivia
    | RegionsKey(flow: Option<(nat, nat)>)
    | Head(r: nat, id: Option<string>, kind: Option<string>, error: Option<string>, inline: seq<(Option<string>, Node)>, region: Region)
    | Body(r: nat)
    | NodesKey(r: nat, flow: Option<(nat, nat)>)
    | Item(r: nat, id: Option<string>, node: Node)
    | Strategy(r: nat)
    | Fallback(r: nat, name: Option<string>)
    | RoutesKey
    | Route(destination: Option<string>, route: HubRoute)

  datatype Seg = Seg(tag: Tag, rows: seq<string>)

  function Owner(t: Tag): Option<nat> {
    match t
    case Head(r, _, _, _, _, _) => Some(r)
    case Body(r) => Some(r)
    case NodesKey(r, _) => Some(r)
    case Item(r, _, _) => Some(r)
    case Strategy(r) => Some(r)
    case Fallback(r, _) => Some(r)
    case _ => None
  }

  function Flatten(segs: seq<Seg>): seq<string> {
    if segs == [] then [] else Flatten(segs[..|segs| - 1]) + segs[|segs| - 1].rows
  }

  /** Line on which segment `i` starts. */
  function Off(segs: seq<Seg>, i: nat): nat
    requires i <= |segs|
  {
    if i == 0 then 0 else Off(segs, i - 1) + |segs[i - 1].rows|
  }

  /** First segment from `i` on that is not trivia: where a parser ends what came before. */
  function Skip(segs: seq<Seg>, i: nat): (j: nat)
    requires i <= |segs|
    ensures i <= j <= |segs| && forall k :: i <= k < j ==> segs[k].tag.Trivia?
    decreases |segs| - i
  {
    if i < |segs| && segs[i].tag.Trivia? then Skip(segs, i + 1) else i
  }

  datatype Kind =
    | Heads | RegionsKeys | NodesKeys(r: nat) | Items(r: nat) | Strategies(r: nat) | Fallbacks(r: nat)
    | Owned(r: nat) | RoutesKeys | AllRoutes

  predicate Is(k: Kind, t: Tag) {
    match k
    case Heads => t.Head?
    case RegionsKeys => t.RegionsKey?
    case NodesKeys(r) => t.NodesKey? && t.r == r
    case Items(r) => t.Item? && t.r == r
    case Strategies(r) => t.Strategy? && t.r == r
    case Fallbacks(r) => t.Fallback? && t.r == r
    case Owned(r) => Owner(t) == Some(r)
    case RoutesKeys => t.RoutesKey?
    case AllRoutes => t.Route?
  }

  /** Indices of the segments of a kind, ascending. */
  function Where(segs: seq<Seg>, kind: Kind): (out: seq<nat>)
    ensures forall k :: 0 <= k < |out| ==> out[k] < |segs| && Is(kind, segs[out[k]].tag)
  {
    if segs == [] then []
    else
      var n := |segs| - 1;
      Where(segs[..n], kind) + if Is(kind, segs[n].tag) then [n] else []
  }

  function First(segs: seq<Seg>, kind: Kind): (out: Option<nat>)
    ensures out.Some? ==> out.value < |segs| && Is(kind, segs[out.value].tag)
  {
    if segs == [] then None
    else
      var n := |segs| - 1;
      Or(First(segs[..n], kind), if Is(kind, segs[n].tag) then Some(n) else None)
  }

  // Offsets ---------------------------------------------------------------------------------

  lemma {:induction false} FlattenConcat(a: seq<Seg>, b: seq<Seg>)
    ensures Flatten(a + b) == Flatten(a) + Flatten(b)
  {
    if b == [] {
      assert a + b == a;
    } else {
      var front, last := b[..|b| - 1], b[|b| - 1];
      FlattenConcat(a, front);
      Snoc(a, front, last);
      assert b == front + [last];
      Regroup(Flatten(a), Flatten(front), last.rows);
    }
  }

  lemma {:induction false} OffLength(segs: seq<Seg>, i: nat)
    requires i <= |segs|
    ensures Off(segs, i) == |Flatten(segs[..i])|
  {
    if i > 0 {
      OffLength(segs, i - 1);
      assert segs[..i][..i - 1] == segs[..i - 1];
    }
  }

  lemma OffNext(segs: seq<Seg>, i: nat)
    requires i < |segs|
    ensures Off(segs, i + 1) == Off(segs, i) + |segs[i].rows|
  {
  }

  /** Offsets depend on what is above. */
  lemma {:induction false} OffPrefix(a: seq<Seg>, b: seq<Seg>, i: nat)
    requires i <= |a| && i <= |b| && forall j :: 0 <= j < i ==> a[j] == b[j]
    ensures Off(a, i) == Off(b, i)
  {
    if i > 0 { OffPrefix(a, b, i - 1); }
  }

  lemma {:induction false} OffMono(segs: seq<Seg>, i: nat, j: nat)
    requires i <= j <= |segs|
    ensures Off(segs, i) <= Off(segs, j)
    decreases j
  {
    if i < j {
      OffNext(segs, j - 1);
      OffMono(segs, i, j - 1);
    }
  }

  lemma OffEnd(segs: seq<Seg>)
    ensures Off(segs, |segs|) == |Flatten(segs)| && Off(segs, 0) == 0
  {
    OffLength(segs, |segs|);
    assert segs[..|segs|] == segs;
  }

  /** Splitting the file at a segment boundary. */
  lemma FlattenSplit(segs: seq<Seg>, i: nat)
    requires i <= |segs|
    ensures Off(segs, i) <= |Flatten(segs)|
    ensures Flatten(segs)[..Off(segs, i)] == Flatten(segs[..i]) && Flatten(segs)[Off(segs, i)..] == Flatten(segs[i..])
  {
    OffLength(segs, i);
    assert segs == segs[..i] + segs[i..];
    FlattenConcat(segs[..i], segs[i..]);
  }

  lemma PrefixRow(segs: seq<Seg>, i: nat, k: nat)
    requires i < |segs| && k < |segs[i].rows|
    ensures Off(segs, i) + k < Off(segs, i + 1) == |Flatten(segs[..i + 1])|
    ensures Flatten(segs[..i + 1])[Off(segs, i) + k] == segs[i].rows[k]
  {
    OffLength(segs, i);
    OffLength(segs, i + 1);
    assert segs[..i + 1][..i] == segs[..i];
  }

  /** The rows of a segment, where they stand in the file. */
  lemma RowAt(segs: seq<Seg>, i: nat, k: nat)
    requires i < |segs| && k < |segs[i].rows|
    ensures Off(segs, i) + k < Off(segs, i + 1) <= |Flatten(segs)|
    ensures Flatten(segs)[Off(segs, i) + k] == segs[i].rows[k]
  {
    PrefixRow(segs, i, k);
    FlattenSplit(segs, i + 1);
    TakeAt(Flatten(segs), Off(segs, i + 1), Off(segs, i) + k);
  }

  lemma TakeAt(rows: seq<string>, n: nat, k: nat)
    requires k < n <= |rows|
    ensures rows[..n][k] == rows[k]
  {
  }

  /** The segment a row belongs to. */
  lemma {:induction false} SegOf(segs: seq<Seg>, row: nat) returns (i: nat)
    requires row < |Flatten(segs)|
    ensures i < |segs| && Off(segs, i) <= row < Off(segs, i + 1)
  {
    var n := |segs| - 1;
    OffEnd(segs);
    OffNext(segs, n);
    if row >= Off(segs, n) {
      i := n;
    } else {
      OffEnd(segs[..n]);
      OffPrefix(segs, segs[..n], n);
      i := SegOf(segs[..n], row);
      OffPrefix(segs, segs[..n], i);
      OffPrefix(segs, segs[..n], i + 1);
    }
  }

  lemma Ordered(segs: seq<Seg>, i: nat, j: nat, row: nat)
    requires i < |segs| && j < |segs| && Off(segs, i) <= row < Off(segs, i + 1) && Off(segs, j) <= row < Off(segs, j + 1)
    ensures i == j
  {
    if i < j { OffMono(segs, i + 1, j); }
    if j < i { OffMono(segs, j + 1, i); }
  }

  lemma {:induction false} WhereIs(segs: seq<Seg>, kind: Kind, i: nat)
    ensures i in Where(segs, kind) <==> i < |segs| && Is(kind, segs[i].tag)
  {
    if segs != [] { WhereIs(segs[..|segs| - 1], kind, i); }
  }

  lemma {:induction false} WhereAscends(segs: seq<Seg>, kind: Kind)
    ensures forall a, b :: 0 <= a < b < |Where(segs, kind)| ==> Where(segs, kind)[a] < Where(segs, kind)[b]
  {
    if segs != [] { WhereAscends(segs[..|segs| - 1], kind); }
  }

  lemma {:induction false} FirstIs(segs: seq<Seg>, kind: Kind, i: nat)
    requires i < |segs| && Is(kind, segs[i].tag)
    ensures First(segs, kind).Some? && First(segs, kind).value <= i
  {
    if i < |segs| - 1 { FirstIs(segs[..|segs| - 1], kind, i); }
  }

  // Well-formedness -------------------------------------------------------------------------

  function FlowOf(t: Tag): Option<(nat, nat)> { if t.NodesKey? || t.RegionsKey? then t.flow else None }

  predicate StartsWithDash(s: Seg) { s.rows != [] && IsDash(StripLeft(s.rows[0]), "") }

  /** An empty `[]` stands after its key, so stripping it leaves the key. */
  predicate KeyKept(row: string, stripped: string) {
    !IsTrivia(stripped) && (IsDash(StripLeft(row), "") ==> IsDash(StripLeft(stripped), ""))
  }

  ghost predicate RowsOk(s: Seg) {
    if s.tag.Trivia? then forall row :: row in s.rows ==> IsTrivia(row)
    else
      && (s.rows == [] ==> s.tag.Head?)
      && (s.rows != [] ==> !IsTrivia(s.rows[|s.rows| - 1]))
      && (s.tag.RegionsKey? || s.tag.NodesKey? || s.tag.Fallback? || s.tag.RoutesKey? ==> |s.rows| == 1)
      && (FlowOf(s.tag).Some? ==> KeyKept(s.rows[0], StripFlowRow(s.rows[0], FlowOf(s.tag).value.0, FlowOf(s.tag).value.1)))
      && (s.tag.Head? && s.rows != [] ==> StartsWithDash(s))
  }

  /** An empty head: the region's `- ` line is the next segment's. */
  ghost predicate EndsOpen(prefix: seq<Seg>) {
    prefix != [] && prefix[|prefix| - 1].tag.Head? && prefix[|prefix| - 1].rows == []
  }

  /** The region's `nodes:` key is there, with no `[]` after it. */
  ghost predicate KeyAbove(prefix: seq<Seg>, r: nat) {
    var key := First(prefix, NodesKeys(r));
    key.Some? && prefix[key.value].tag.flow.None?
  }

  /** What may follow `prefix`: regions in order, items under their keys, no key twice. */
  ghost predicate Fits(prefix: seq<Seg>, s: Seg) {
    var t := s.tag;
    && RowsOk(s)
    && (EndsOpen(prefix) ==> !t.Head? && Owner(t) == Some(prefix[|prefix| - 1].tag.r) && StartsWithDash(s))
    && (t.Head? ==> t.r == |Where(prefix, Heads)| && (t.error.None? ==> t.inline == []))
    && (Owner(t).Some? && !t.Head? ==> Owner(t).value < |Where(prefix, Heads)|)
    && (t.Item? ==> KeyAbove(prefix, t.r))
    && (t.NodesKey? ==> First(prefix, NodesKeys(t.r)).None?)
    && (t.Fallback? ==> First(prefix, Fallbacks(t.r)).None?)
    && (t.Strategy? ==> First(prefix, Strategies(t.r)).None?)
    && (t.Route? ==> First(prefix, RoutesKeys).Some?)
  }

  ghost predicate FitsAll(segs: seq<Seg>) {
    segs == [] || (FitsAll(segs[..|segs| - 1]) && Fits(segs[..|segs| - 1], segs[|segs| - 1]))
  }

  ghost predicate WellFormed(segs: seq<Seg>) { FitsAll(segs) && !EndsOpen(segs) && First(segs, RegionsKeys).Some? }

  lemma {:induction false} FitsAt(segs: seq<Seg>, i: nat)
    requires FitsAll(segs) && i < |segs|
    ensures Fits(segs[..i], segs[i]) && FitsAll(segs[..i])
  {
    if i < |segs| - 1 {
      FitsAt(segs[..|segs| - 1], i);
      assert segs[..|segs| - 1][..i] == segs[..i];
    }
  }

  lemma FirstTake(segs: seq<Seg>, kind: Kind, i: nat)
    requires i <= |segs| && First(segs[..i], kind).Some?
    ensures First(segs, kind) == First(segs[..i], kind)
    decreases |segs|
  {
    if i < |segs| {
      var front := segs[..|segs| - 1];
      assert front[..i] == segs[..i];
      FirstTake(front, kind, i);
    } else {
      assert segs[..i] == segs;
    }
  }

  /** An item's region has its key above it, on a line of its own. */
  lemma ItemKey(segs: seq<Seg>, i: nat)
    requires FitsAll(segs) && i < |segs| && segs[i].tag.Item?
    ensures First(segs, NodesKeys(segs[i].tag.r)).Some?
    ensures var key := First(segs, NodesKeys(segs[i].tag.r)).value; key < i && segs[key].tag.flow.None?
  {
    FitsAt(segs, i);
    FirstTake(segs, NodesKeys(segs[i].tag.r), i);
  }

  ghost predicate AllRowsOk(segs: seq<Seg>) { forall i :: 0 <= i < |segs| ==> RowsOk(segs[i]) }

  lemma RowsFit(segs: seq<Seg>)
    requires FitsAll(segs)
    ensures AllRowsOk(segs)
  {
    forall i | 0 <= i < |segs| ensures RowsOk(segs[i]) { FitsAt(segs, i); }
  }

  // What a parser reports -------------------------------------------------------------------

  datatype NodeItem = NodeItem(id: Option<string>, backup: bool, start: nat, end: nat)

  datatype RegionItem = RegionItem(
    id: Option<string>, kind: Option<string>, nodes: seq<NodeItem>, nodesLine: Option<nat>, nodesError: Option<string>,
    emptyFlowNodes: Option<Flow>, lbFallback: Option<string>, lbFallbackLine: Option<nat>, lbStrategyEnd: Option<nat>,
    start: nat, end: nat)

  datatype RouteItem = RouteItem(destination: Option<string>, start: nat, end: nat)

  /** Everything the editor knows about the file besides its lines. */
  datatype View = View(
    regions: seq<RegionItem>, regionsLine: nat, emptyFlowRegions: Option<Flow>,
    routes: seq<RouteItem>, routesLine: Option<nat>, routesError: Option<string>)

  /** An item runs from its `- ` line to where the next item starts or the sequence ends. */
  ghost predicate NodeReported(segs: seq<Seg>, i: nat, item: NodeItem) {
    && i < |segs| && segs[i].tag.Item?
    && item == NodeItem(segs[i].tag.id, segs[i].tag.node.backup, Off(segs, i), Off(segs, Skip(segs, i + 1)))
  }

  ghost predicate RouteReported(segs: seq<Seg>, i: nat, item: RouteItem) {
    && i < |segs| && segs[i].tag.Route?
    && item == RouteItem(segs[i].tag.destination, Off(segs, i), Off(segs, Skip(segs, i + 1)))
  }

  function FlowAt(row: nat, flow: Option<(nat, nat)>): Option<Flow> {
    if flow.None? then None else Some(Flow(row, flow.value.0, flow.value.1))
  }

  function LineOf(segs: seq<Seg>, i: Option<nat>): Option<nat>
    requires i.Some? ==> i.value < |segs|
  {
    if i.None? then None else Some(Off(segs, i.value))
  }

  ghost predicate ItemsReported(segs: seq<Seg>, at: seq<nat>, nodes: seq<NodeItem>) {
    |nodes| == |at| && forall m {:trigger NodeReported(segs, at[m], nodes[m])} :: 0 <= m < |at| ==> NodeReported(segs, at[m], nodes[m])
  }

  /** Nodes of a flow sequence share lines, so their spans say nothing; edits refuse them. */
  ghost predicate NodesReported(segs: seq<Seg>, k: nat, head: Tag, nodes: seq<NodeItem>)
    requires head.Head?
  {
    if head.error.None? then ItemsReported(segs, Where(segs, Items(k)), nodes)
    else
      |nodes| == |head.inline| && forall m :: 0 <= m < |nodes| ==>
                                                nodes[m].id == head.inline[m].0 && nodes[m].backup == head.inline[m].1.backup
  }

  ghost predicate KeysReported(segs: seq<Seg>, k: nat, item: RegionItem) {
    var key, fallback, strategy := First(segs, NodesKeys(k)), First(segs, Fallbacks(k)), First(segs, Strategies(k));
    && item.nodesLine == LineOf(segs, key)
    && item.emptyFlowNodes == (if key.None? then None else FlowAt(Off(segs, key.value), segs[key.value].tag.flow))
    && item.lbFallbackLine == LineOf(segs, fallback)
    && item.lbFallback == (if fallback.None? then None else segs[fallback.value].tag.name)
    && (item.lbStrategyEnd.None? <==> strategy.None?)
    && (strategy.Some? ==> item.lbStrategyEnd.value + 1 == Off(segs, strategy.value + 1))
  }

  /** Last segment of a region. */
  ghost predicate IsLast(segs: seq<Seg>, k: nat, i: nat) {
    && i < |segs| && Owner(segs[i].tag) == Some(k)
    && forall j :: i < j < |segs| ==> Owner(segs[j].tag) != Some(k)
  }

  ghost predicate RegionReported(segs: seq<Seg>, k: nat, item: RegionItem) {
    && k < |Where(segs, Heads)|
    && var h := Where(segs, Heads)[k];
    && item.id == segs[h].tag.id && item.kind == segs[h].tag.kind && item.nodesError == segs[h].tag.error
    && NodesReported(segs, k, segs[h].tag, item.nodes)
    && KeysReported(segs, k, item)
    && item.start == Off(segs, h)
    && exists i: nat :: IsLast(segs, k, i) && item.end == Off(segs, Skip(segs, i + 1))
  }

  /** The parser's contract: positions and values are those of the document the lines spell. */
  ghost predicate Reported(segs: seq<Seg>, view: View) {
    && |view.regions| == |Where(segs, Heads)|
    && (forall k {:trigger RegionReported(segs, k, view.regions[k])} ::
          0 <= k < |view.regions| ==> RegionReported(segs, k, view.regions[k]))
    && |view.routes| == |Where(segs, AllRoutes)|
    && (forall k {:trigger RouteReported(segs, Where(segs, AllRoutes)[k], view.routes[k])} ::
          0 <= k < |view.routes| ==> RouteReported(segs, Where(segs, AllRoutes)[k], view.routes[k]))
    && view.routesLine == LineOf(segs, First(segs, RoutesKeys))
    && First(segs, RegionsKeys).Some?
    && var key := First(segs, RegionsKeys).value;
    && view.regionsLine == Off(segs, key) && view.emptyFlowRegions == FlowAt(Off(segs, key), segs[key].tag.flow)
  }

  // Content ends ----------------------------------------------------------------------------

  lemma {:induction false} SkippedRows(segs: seq<Seg>, i: nat, row: nat)
    requires AllRowsOk(segs) && i <= |segs| && Off(segs, i) <= row < Off(segs, Skip(segs, i))
    ensures row < |Flatten(segs)| && IsTrivia(Flatten(segs)[row])
  {
    OffMono(segs, Skip(segs, i), |segs|);
    OffEnd(segs);
    var j := SegOf(segs, row);
    if j < i { OffMono(segs, j + 1, i); }
    if j >= Skip(segs, i) { OffMono(segs, Skip(segs, i), j); }
    OffNext(segs, j);
    RowAt(segs, j, row - Off(segs, j));
  }

  /** What lies between an item's last line and the parser's end mark belongs to what follows. */
  lemma ContentEndIs(segs: seq<Seg>, from: nat, last: nat, e: nat)
    requires AllRowsOk(segs) && from <= last < |segs|
    requires !segs[last].tag.Trivia? && segs[last].rows != []
    requires Off(segs, from) <= e <= Off(segs, Skip(segs, last + 1)) <= |Flatten(segs)|
    requires e == Off(segs, from) || !IsTrivia(Flatten(segs)[e - 1])
    requires forall i :: e <= i < Off(segs, Skip(segs, last + 1)) ==> IsTrivia(Flatten(segs)[i])
    ensures e == Off(segs, last + 1)
  {
    var n := |segs[last].rows|;
    RowAt(segs, last, n - 1);
    OffNext(segs, last);
    OffMono(segs, from, last);
    OffMono(segs, last + 1, Skip(segs, last + 1));
    if e > Off(segs, last + 1) { SkippedRows(segs, last + 1, e - 1); }
  }
}
