/** What the editor's methods use about a document: where its parts stand, and what splices do to it. */
module EditFacts {
  import opened Base
  import opened Names
  import opened Schema
  import opened Text
  import opened TextLines
  import opened NaturalOrder
  import opened LineSplice
  import opened Outline
  import opened Editor

  // Facts about the document ----------------------------------------------------------------

  ghost predicate IsEntry(segs: seq<Seg>, i: nat) { i < |segs| && (segs[i].tag.Item? || segs[i].tag.Route?) }

  lemma EntryFits(segs: seq<Seg>, i: nat)
    requires WellFormed(segs) && IsEntry(segs, i)
    ensures segs[i].rows != [] && !segs[i].tag.Trivia?
  {
    FitsAt(segs, i);
  }

  lemma EntryBounds(segs: seq<Seg>, i: nat)
    requires i < |segs|
    ensures Off(segs, i) <= Off(segs, i + 1) <= Off(segs, Skip(segs, i + 1)) <= |Flatten(segs)|
  {
    var j := Skip(segs, i + 1);
    OffMono(segs, i + 1, j);
    OffMono(segs, j, |segs|);
    OffEnd(segs);
  }

  lemma FirstRow(segs: seq<Seg>, i: nat)
    requires i < |segs| && segs[i].rows != []
    ensures Off(segs, i) < |Flatten(segs)| && Flatten(segs)[Off(segs, i)] == segs[i].rows[0]
  {
    RowAt(segs, i, 0);
  }

  lemma EntryRows(segs: seq<Seg>, i: nat)
    requires WellFormed(segs) && IsEntry(segs, i)
    ensures segs[i].rows != []
    ensures Off(segs, i) < |Flatten(segs)| && Flatten(segs)[Off(segs, i)] == segs[i].rows[0]
    ensures Off(segs, i) <= Off(segs, i + 1) <= Off(segs, Skip(segs, i + 1)) <= |Flatten(segs)|
  {
    EntryFits(segs, i);
    FirstRow(segs, i);
    EntryBounds(segs, i);
  }

  lemma EntryEnd(segs: seq<Seg>, i: nat, e: nat)
    requires WellFormed(segs) && IsEntry(segs, i)
    requires Off(segs, i) <= e <= Off(segs, Skip(segs, i + 1)) <= |Flatten(segs)|
    requires e == Off(segs, i) || !IsTrivia(Flatten(segs)[e - 1])
    requires forall x :: e <= x < Off(segs, Skip(segs, i + 1)) ==> IsTrivia(Flatten(segs)[x])
    ensures e == Off(segs, i + 1)
  {
    EntryRows(segs, i);
    RowsFit(segs);
    ContentEndIs(segs, i, i, e);
  }

  ghost predicate IsKey(segs: seq<Seg>, i: nat) {
    i < |segs| && (segs[i].tag.RegionsKey? || segs[i].tag.NodesKey? || segs[i].tag.Fallback? || segs[i].tag.RoutesKey?)
  }

  /** A key on one line. */
  lemma KeyRows(segs: seq<Seg>, i: nat)
    requires WellFormed(segs) && IsKey(segs, i)
    ensures |segs[i].rows| == 1
  {
    FitsAt(segs, i);
  }

  lemma KeySpan(segs: seq<Seg>, i: nat)
    requires WellFormed(segs) && IsKey(segs, i)
    ensures |segs[i].rows| == 1 && SpanOf(segs, i) == Span(Off(segs, i), Off(segs, i) + 1)
    ensures Off(segs, i) < |Flatten(segs)| && Flatten(segs)[Off(segs, i)] == segs[i].rows[0]
  {
    KeyRows(segs, i);
    RowAt(segs, i, 0);
  }

  lemma MarkOne(segs: seq<Seg>, at: seq<nat>, spans: seq<Span>, i: nat)
    requires Marks(segs, at, spans) && i < |segs| && segs[i].rows != [] && i !in at
    ensures Marks(segs, at + [i], spans + [SpanOf(segs, i)])
  {
    NoDupSnoc(at, i);
  }

  // Dead routes -----------------------------------------------------------------------------

  predicate IsGone(gone: set<Option<string>>, r: RouteItem) { r.destination.Some? && r.destination in gone }

  /** Routes to `gone` destinations, in file order. */
  function DeadItems(routes: seq<RouteItem>, gone: set<Option<string>>): seq<RouteItem> {
    if routes == [] then []
    else
      var last := routes[|routes| - 1];
      DeadItems(routes[..|routes| - 1], gone) + if IsGone(gone, last) then [last] else []
  }

  ghost predicate RoutesReported(segs: seq<Seg>, at: seq<nat>, routes: seq<RouteItem>) {
    |at| == |routes| && forall x {:trigger RouteReported(segs, at[x], routes[x])} :: 0 <= x < |at| ==> RouteReported(segs, at[x], routes[x])
  }

  /** Segments of the dead routes among the reported ones. */
  ghost function DeadAt(at: seq<nat>, routes: seq<RouteItem>, gone: set<Option<string>>): (out: seq<nat>)
    requires |at| == |routes|
    ensures |out| == |DeadItems(routes, gone)| <= |at|
  {
    if at == [] then []
    else
      var n := |at| - 1;
      DeadAt(at[..n], routes[..n], gone) + if IsGone(gone, routes[n]) then [at[n]] else []
  }

  lemma TakeReported(segs: seq<Seg>, at: seq<nat>, routes: seq<RouteItem>, n: nat)
    requires RoutesReported(segs, at, routes) && n <= |at|
    ensures RoutesReported(segs, at[..n], routes[..n])
  {
    forall x | 0 <= x < n ensures RouteReported(segs, at[..n][x], routes[..n][x]) {
      assert RouteReported(segs, at[x], routes[x]);
    }
  }

  lemma {:induction false} DeadAtReported(segs: seq<Seg>, at: seq<nat>, routes: seq<RouteItem>, gone: set<Option<string>>)
    requires RoutesReported(segs, at, routes)
    ensures RoutesReported(segs, DeadAt(at, routes, gone), DeadItems(routes, gone))
  {
    if at != [] {
      var n := |at| - 1;
      TakeReported(segs, at, routes, n);
      DeadAtReported(segs, at[..n], routes[..n], gone);
      assert RouteReported(segs, at[n], routes[n]);
      forall x | 0 <= x < |DeadAt(at, routes, gone)|
        ensures RouteReported(segs, DeadAt(at, routes, gone)[x], DeadItems(routes, gone)[x])
      {
        var front, items := DeadAt(at[..n], routes[..n], gone), DeadItems(routes[..n], gone);
        if x < |front| { assert RouteReported(segs, front[x], items[x]); }
      }
    }
  }

  lemma {:induction false} DeadAtMember(segs: seq<Seg>, at: seq<nat>, routes: seq<RouteItem>, gone: set<Option<string>>, j: nat)
    requires RoutesReported(segs, at, routes) && j < |segs|
    ensures j in DeadAt(at, routes, gone) ==> j in at
    ensures j in at && segs[j].tag.Route? ==>
              (j in DeadAt(at, routes, gone) <==> segs[j].tag.destination.Some? && segs[j].tag.destination in gone)
  {
    if at != [] {
      var n := |at| - 1;
      TakeReported(segs, at, routes, n);
      DeadAtMember(segs, at[..n], routes[..n], gone, j);
      assert RouteReported(segs, at[n], routes[n]);
      assert at == at[..n] + [at[n]];
    }
  }

  lemma {:induction false} DeadAtDistinct(segs: seq<Seg>, at: seq<nat>, routes: seq<RouteItem>, gone: set<Option<string>>)
    requires RoutesReported(segs, at, routes) && NoDup(at)
    ensures NoDup(DeadAt(at, routes, gone))
  {
    if at != [] {
      var n := |at| - 1;
      TakeReported(segs, at, routes, n);
      assert at == at[..n] + [at[n]];
      NoDupSnoc(at[..n], at[n]);
      DeadAtDistinct(segs, at[..n], routes[..n], gone);
      assert RouteReported(segs, at[n], routes[n]);
      DeadAtMember(segs, at[..n], routes[..n], gone, at[n]);
      NoDupSnoc(DeadAt(at[..n], routes[..n], gone), at[n]);
    }
  }

  // What is gone ----------------------------------------------------------------------------

  function RegionIdSet(regions: seq<RegionItem>): set<Option<string>> { set r | r in regions :: r.id }

  function GoneIds(regions: seq<RegionItem>, k: nat, node: Option<string>): set<Option<string>>
    requires k < |regions|
  {
    var gone := if |regions[k].nodes| == 1 then {regions[k].id} else {};
    if node in RegionIdSet(regions) - gone then gone else gone + {node}
  }

  lemma RegionIdReported(segs: seq<Seg>, view: View, id: Option<string>)
    requires WellFormed(segs) && Reported(segs, view)
    ensures id in RegionIdSet(view.regions) <==> IsRegionId(segs, id)
  {
    if id in RegionIdSet(view.regions) {
      var r :| r in view.regions && r.id == id;
      var k :| 0 <= k < |view.regions| && view.regions[k] == r;
      assert RegionReported(segs, k, view.regions[k]);
    }
    if IsRegionId(segs, id) {
      var h: nat :| h < |segs| && segs[h].tag.Head? && segs[h].tag.id == id;
      WhereIs(segs, Heads, h);
      var k :| 0 <= k < |Where(segs, Heads)| && Where(segs, Heads)[k] == h;
      assert RegionReported(segs, k, view.regions[k]);
      assert view.regions[k] in view.regions;
    }
  }

  /** The computed id set holds exactly the dangling destinations. */
  lemma GoneDangles(segs: seq<Seg>, view: View, k: nat, node: Option<string>, d: Option<string>)
    requires WellFormed(segs) && Reported(segs, view) && k < |view.regions| && view.regions[k].nodesError.None?
    ensures d.Some? ==> (d in GoneIds(view.regions, k, node) <==> Dangles(segs, k, node, d))
  {
    assert RegionReported(segs, k, view.regions[k]);
    RegionIdReported(segs, view, node);
    RegionIdReported(segs, view, view.regions[k].id);
    assert view.regions[k] in view.regions;
  }

  ghost predicate Finds(segs: seq<Seg>, k: nat, node: Option<string>, at: seq<nat>) {
    forall j: nat :: j in at <==> DeadRoute(segs, k, node, j)
  }

  /** The filtered routes are the dead segments, and none is left exactly when all are dead. */
  lemma DeadRoutesFound(segs: seq<Seg>, view: View, k: nat, node: Option<string>) returns (at: seq<nat>)
    requires WellFormed(segs) && Reported(segs, view) && k < |view.regions| && view.regions[k].nodesError.None?
    ensures var dead := DeadItems(view.routes, GoneIds(view.regions, k, node));
            && RoutesReported(segs, at, dead) && NoDup(at) && Finds(segs, k, node, at)
            && (dead != [] && |dead| == |view.routes| <==> AllRoutesDead(segs, k, node))
  {
    var where, gone := Where(segs, AllRoutes), GoneIds(view.regions, k, node);
    assert RoutesReported(segs, where, view.routes);
    at := DeadAt(where, view.routes, gone);
    WhereAscends(segs, AllRoutes);
    DeadAtReported(segs, where, view.routes, gone);
    DeadAtDistinct(segs, where, view.routes, gone);
    forall j: nat ensures j in at <==> DeadRoute(segs, k, node, j) {
      WhereIs(segs, AllRoutes, j);
      if j < |segs| && segs[j].tag.Route? {
        DeadAtMember(segs, where, view.routes, gone, j);
        GoneDangles(segs, view, k, node, segs[j].tag.destination);
      } else if j in at {
        MemberOf(segs, where, view.routes, gone, j);
      }
    }
    AllFound(segs, view.routes, where, k, node, at);
  }

  /** Destinations of the dropped routes, each once, in file order. */
  function Destinations(dead: seq<RouteItem>): seq<string> {
    if dead == [] then []
    else
      var front, d := Destinations(dead[..|dead| - 1]), dead[|dead| - 1].destination;
      if d.Some? && d.value !in front then front + [d.value] else front
  }

  /** Each destination stands where it occurs first. */
  lemma {:induction false} DestinationsInOrder(dead: seq<RouteItem>, i: nat)
    requires i <= |dead|
    ensures Destinations(dead[..i]) <= Destinations(dead)
  {
    if i < |dead| {
      DestinationsInOrder(dead[..|dead| - 1], i);
      assert dead[..|dead| - 1][..i] == dead[..i];
    } else {
      assert dead[..i] == dead;
    }
  }

  lemma {:induction false} DestinationsMember(dead: seq<RouteItem>, d: string)
    ensures NoDup(Destinations(dead))
    ensures d in Destinations(dead) <==> exists x :: 0 <= x < |dead| && dead[x].destination == Some(d)
  {
    if dead != [] {
      var n := |dead| - 1;
      DestinationsMember(dead[..n], d);
      if dead[n].destination.Some? { NoDupSnoc(Destinations(dead[..n]), dead[n].destination.value); }
      assert forall x :: 0 <= x < n ==> dead[..n][x] == dead[x];
    }
  }

  ghost predicate DropsTo(segs: seq<Seg>, k: nat, node: Option<string>, d: string) {
    exists j: nat :: DeadRoute(segs, k, node, j) && segs[j].tag.destination == Some(d)
  }

  /** The reported destinations are exactly those of the dead routes. */
  lemma DroppedAre(segs: seq<Seg>, k: nat, node: Option<string>, at: seq<nat>, dead: seq<RouteItem>, d: string)
    requires RoutesReported(segs, at, dead) && Finds(segs, k, node, at)
    ensures NoDup(Destinations(dead)) && (d in Destinations(dead) <==> DropsTo(segs, k, node, d))
  {
    DestinationsMember(dead, d);
    if x :| 0 <= x < |dead| && dead[x].destination == Some(d) {
      assert RouteReported(segs, at[x], dead[x]) && at[x] in at;
    }
    if DropsTo(segs, k, node, d) {
      var j: nat :| DeadRoute(segs, k, node, j) && segs[j].tag.destination == Some(d);
      var x :| 0 <= x < |at| && at[x] == j;
      assert RouteReported(segs, at[x], dead[x]);
    }
  }

  lemma AllDropped(segs: seq<Seg>, k: nat, node: Option<string>, at: seq<nat>, dead: seq<RouteItem>)
    requires RoutesReported(segs, at, dead) && Finds(segs, k, node, at)
    ensures ReportsDropped(segs, k, node, Destinations(dead))
  {
    DestinationsMember(dead, "");
    forall d ensures d in Destinations(dead) <==> DropsTo(segs, k, node, d) { DroppedAre(segs, k, node, at, dead, d); }
  }

  ghost predicate ReportsDropped(segs: seq<Seg>, k: nat, node: Option<string>, dropped: seq<string>) {
    NoDup(dropped) && forall d :: d in dropped <==> DropsTo(segs, k, node, d)
  }

  lemma {:induction false} MemberOf(segs: seq<Seg>, at: seq<nat>, routes: seq<RouteItem>, gone: set<Option<string>>, j: nat)
    requires |at| == |routes| && j in DeadAt(at, routes, gone)
    ensures j in at
  {
    var n := |at| - 1;
    assert at == at[..n] + [at[n]];
    if j in DeadAt(at[..n], routes[..n], gone) { MemberOf(segs, at[..n], routes[..n], gone, j); }
  }

  lemma AllFound(segs: seq<Seg>, routes: seq<RouteItem>, where: seq<nat>, k: nat, node: Option<string>, at: seq<nat>)
    requires where == Where(segs, AllRoutes) && |routes| == |where| && |at| <= |where| && Finds(segs, k, node, at) && NoDup(at)
    ensures at != [] && |at| == |routes| <==> AllRoutesDead(segs, k, node)
  {
    WhereAscends(segs, AllRoutes);
    assert NoDup(where);
    forall j | j in at ensures j in where { WhereIs(segs, AllRoutes, j); }
    NoDupCard(at);
    NoDupCard(where);
    assert Elems(at) <= Elems(where);
    if |at| == |where| {
      SameCard(Elems(at), Elems(where));
      forall j: nat | j < |segs| && segs[j].tag.Route? ensures DeadRoute(segs, k, node, j) {
        WhereIs(segs, AllRoutes, j);
        assert j in Elems(where);
      }
      if at != [] { assert at[0] in at && DeadRoute(segs, k, node, at[0]); }
    }
    if AllRoutesDead(segs, k, node) {
      forall j | j in where ensures j in at { WhereIs(segs, AllRoutes, j); }
      assert Elems(where) == Elems(at);
    }
  }

  lemma {:induction false} NoDupCard<T>(xs: seq<T>)
    requires NoDup(xs)
    ensures |Elems(xs)| == |xs|
  {
    if xs != [] {
      var n := |xs| - 1;
      assert xs == xs[..n] + [xs[n]];
      NoDupSnoc(xs[..n], xs[n]);
      NoDupCard(xs[..n]);
      assert Elems(xs) == Elems(xs[..n]) + {xs[n]};
    }
  }

  lemma SameCard<T>(a: set<T>, b: set<T>)
    requires a <= b && |a| == |b|
    ensures a == b
  {
    if a != b {
      var x :| x in b && x !in a;
      assert a <= b - {x};
      SubsetCard(a, b - {x});
    }
  }

  lemma {:induction false} SubsetCard<T>(a: set<T>, b: set<T>)
    requires a <= b
    ensures |a| <= |b|
  {
    if a != {} {
      var x :| x in a;
      SubsetCard(a - {x}, b - {x});
    }
  }

  // The keys that go ------------------------------------------------------------------------

  ghost predicate SpansAre(segs: seq<Seg>, at: seq<nat>, spans: seq<Span>) {
    |at| == |spans| && forall x :: 0 <= x < |at| ==> at[x] < |segs| && spans[x] == SpanOf(segs, at[x])
  }

  /** An emptied `hub_routes:` and a fallback naming the node. */
  ghost function DeadKeys(segs: seq<Seg>, k: nat, node: Option<string>, allDead: bool): (at: seq<nat>)
    ensures NoDup(at) && forall x :: 0 <= x < |at| ==> IsKey(segs, at[x])
  {
    var key, f := First(segs, RoutesKeys), First(segs, Fallbacks(k));
    (if allDead && key.Some? then [key.value] else []) + (if f.Some? && segs[f.value].tag.name == node then [f.value] else [])
  }

  lemma MarkMore(segs: seq<Seg>, at: seq<nat>, spans: seq<Span>, keys: seq<nat>, more: seq<Span>)
    requires Marks(segs, at, spans) && NoDup(keys) && SpansAre(segs, keys, more)
    requires forall x :: 0 <= x < |keys| ==> keys[x] !in at && segs[keys[x]].rows != []
    ensures Marks(segs, at + keys, spans + more)
  {
    NoDupConcat(at, keys);
  }

  /** Keys are no items. */
  lemma MarkKeys(segs: seq<Seg>, items: seq<nat>, spans: seq<Span>, keys: seq<nat>, more: seq<Span>)
    requires WellFormed(segs) && Marks(segs, items, spans) && NoDup(keys) && SpansAre(segs, keys, more)
    requires forall x :: 0 <= x < |keys| ==> IsKey(segs, keys[x])
    requires forall j :: j in items ==> IsEntry(segs, j)
    ensures Marks(segs, items + keys, spans + more)
  {
    forall x | 0 <= x < |keys| ensures keys[x] !in items && segs[keys[x]].rows != [] { KeySpan(segs, keys[x]); }
    MarkMore(segs, items, spans, keys, more);
  }

  /** All that goes: the node, the dead routes and the keys. */
  lemma AllDead(segs: seq<Seg>, k: nat, i: nat, at: seq<nat>, allDead: bool)
    requires i < |segs| && segs[i].tag.Item? && Finds(segs, k, segs[i].tag.id, at)
    requires allDead <==> AllRoutesDead(segs, k, segs[i].tag.id)
    ensures forall j: nat :: j < |segs| ==> (j in [i] + at + DeadKeys(segs, k, segs[i].tag.id, allDead) <==> DeadSeg(segs, k, i, j))
  {
  }

  /** Deleting exactly those lines removes exactly those segments. */
  lemma RemovedIs(segs: seq<Seg>, k: nat, i: nat, at: seq<nat>, spans: seq<Span>)
    requires i < |segs| && segs[i].tag.Item? && Marks(segs, at, spans)
    requires forall j: nat :: j < |segs| ==> (j in at <==> DeadSeg(segs, k, i, j))
    ensures Separate(spans, |Flatten(segs)|) && Kept(Flatten(segs), Dead(spans)) == Flatten(Removed(segs, k, i))
  {
    DeletedSegments(segs, at, spans);
    KeptSame(segs, InList(at), IsDead(segs, k, i));
  }

  // Facts for adding ------------------------------------------------------------------------

  lemma SlotTake(segs: seq<Seg>, at: seq<nat>, id: string, m: nat)
    requires m < |at|
    ensures Slot(segs, at[..m + 1], id) == if at[m] < |segs| && Earlier(segs[at[m]].tag, id) then m + 1 else Slot(segs, at[..m], id)
  {
    assert at[..m + 1][..m] == at[..m];
  }

  /** A region with items has no `[]` to strip. */
  lemma NothingToStrip(segs: seq<Seg>, k: nat)
    requires WellFormed(segs) && Where(segs, Items(k)) != []
    ensures First(segs, NodesKeys(k)).Some? && Bared(segs, First(segs, NodesKeys(k)).value) == segs
  {
    ItemKey(segs, Where(segs, Items(k))[0]);
  }

  /** Stripping a key's `[]` from the lines strips it from the document, and moves nothing. */
  lemma StripKey(segs: seq<Seg>, i: nat)
    requires WellFormed(segs) && IsKey(segs, i)
    ensures Off(segs, i) < |Flatten(segs)| && Off(segs, i) + 1 == Off(segs, i + 1)
    ensures Flatten(Bared(segs, i)) ==
            if FlowOf(segs[i].tag).None? then Flatten(segs)
            else Flatten(segs)[Off(segs, i) := StripFlowRow(Flatten(segs)[Off(segs, i)], FlowOf(segs[i].tag).value.0, FlowOf(segs[i].tag).value.1)]
    ensures |Bared(segs, i)| == |segs|
  {
    KeySpan(segs, i);
    if FlowOf(segs[i].tag).Some? {
      UpdateRows(segs, i, Bared(segs, i)[i]);
    }
  }

  lemma StripOff(segs: seq<Seg>, i: nat, q: nat)
    requires WellFormed(segs) && IsKey(segs, i) && q <= |segs|
    ensures |Bared(segs, i)| == |segs| && Off(Bared(segs, i), q) == Off(segs, q)
  {
    KeySpan(segs, i);
    if FlowOf(segs[i].tag).Some? {
      UpdateOff(segs, i, Bared(segs, i)[i], q);
    }
  }

  ghost predicate DashAt(segs: seq<Seg>, i: nat, indent: string) {
    i < |segs| && segs[i].rows != [] && IsDash(segs[i].rows[0], indent)
  }

  /** The sibling the new node is spliced next to is indented as expected. */
  ghost predicate IndentOk(segs: seq<Seg>, k: nat, m: nat)
    requires m <= |Where(segs, Items(k))|
  {
    var at := Where(segs, Items(k));
    if m > 0 then DashAt(segs, at[m - 1], "      ") else at != [] ==> DashAt(segs, at[0], "      ")
  }

  lemma {:induction false} PrimaryReported(segs: seq<Seg>, at: seq<nat>, nodes: seq<NodeItem>, m: nat)
    requires ItemsReported(segs, at, nodes) && m <= |at|
    ensures FirstPrimaryItem(nodes, m) == FirstPrimaryFrom(segs, at, m)
    decreases |at| - m
  {
    if m < |at| {
      assert NodeReported(segs, at[m], nodes[m]);
      PrimaryReported(segs, at, nodes, m + 1);
    }
  }

  function FirstPrimaryItem(nodes: seq<NodeItem>, m: nat): (out: Option<nat>)
    requires m <= |nodes|
    ensures out.Some? ==> m <= out.value < |nodes|
    decreases |nodes| - m
  {
    if m == |nodes| then None else if !nodes[m].backup then Some(m) else FirstPrimaryItem(nodes, m + 1)
  }

  /** First primary of a balanced region without the key, and the line for its materialized fallback. */
  function FallbackToSet(region: RegionItem): Option<(string, nat)> {
    if region.lbStrategyEnd.None? || region.lbFallbackLine.Some? || region.nodes == [] then None
    else
      var p := FirstPrimaryItem(region.nodes, 0);
      var primary := region.nodes[if p.Some? then p.value else 0];
      if primary.id.None? then None else Some((primary.id.value, region.lbStrategyEnd.value + 1))
  }

  lemma FallbackReported(segs: seq<Seg>, view: View, k: nat)
    requires WellFormed(segs) && Reported(segs, view) && k < |view.regions| && view.regions[k].nodesError.None?
    ensures PinReported(segs, k, FallbackToSet(view.regions[k]))
  {
    var region, at := view.regions[k], Where(segs, Items(k));
    assert RegionReported(segs, k, region);
    PrimaryReported(segs, at, region.nodes, 0);
    if at != [] {
      var p := FirstPrimaryItem(region.nodes, 0);
      var m := if p.Some? then p.value else 0;
      assert NodeReported(segs, at[m], region.nodes[m]);
    }
  }

  /** The two splices of an addition, bottom-up. */
  lemma SplicesInOrder(segs: seq<Seg>, p: nat, q: nat)
    requires p <= |segs| && q <= |segs| && p > 0 && q > 0 && p != q
    requires segs[p - 1].rows != [] && segs[q - 1].rows != []
    ensures Off(segs, q) > Off(segs, p) <==> q > p
  {
    OffNext(segs, p - 1);
    OffNext(segs, q - 1);
    if q > p { OffMono(segs, p, q - 1); } else { OffMono(segs, q, p - 1); }
  }

  lemma PinApart(segs: seq<Seg>, k: nat, p: nat)
    requires WellFormed(segs) && IsPoint(segs, k, p) && First(segs, Strategies(k)).Some?
    ensures var q := First(segs, Strategies(k)).value + 1; p != q && (Off(segs, q) > Off(segs, p) <==> q > p)
  {
    var s := First(segs, Strategies(k)).value;
    FitsAt(segs, s);
    FitsAt(segs, p - 1);
    SplicesInOrder(segs, p, s + 1);
  }

  function Inserted(rows: seq<string>, at: nat, block: seq<string>): seq<string> {
    if at <= |rows| then rows[..at] + block + rows[at..] else rows
  }

  lemma InsertedSegs(segs: seq<Seg>, i: nat, s: Seg)
    requires i <= |segs|
    ensures Off(segs, i) <= |Flatten(segs)| && Inserted(Flatten(segs), Off(segs, i), s.rows) == Flatten(InsertSegs(segs, i, [s]))
  {
    FlattenOne(s);
    InsertRows(segs, i, [s]);
  }

  lemma InsertedTwice(segs: seq<Seg>, high: nat, s: Seg, low: nat, t: Seg)
    requires low <= high <= |segs|
    ensures Off(segs, low) <= Off(segs, high) <= |Flatten(segs)|
    ensures Inserted(Inserted(Flatten(segs), Off(segs, high), s.rows), Off(segs, low), t.rows)
            == Flatten(InsertSegs(InsertSegs(segs, high, [s]), low, [t]))
  {
    OffMono(segs, low, high);
    InsertedSegs(segs, high, s);
    OffBelow(segs, high, [s], low);
    InsertedSegs(InsertSegs(segs, high, [s]), low, t);
  }

  /** Both splices, or the node's alone. */
  function Spliced(rows: seq<string>, at: nat, block: seq<string>, fallback: Option<(string, nat)>, quote: string -> string): seq<string> {
    if fallback.None? then Inserted(rows, at, block)
    else
      var line, row := fallback.value.1, PinRow(quote(fallback.value.0));
      if line > at then Inserted(Inserted(rows, line, [row]), at, block) else Inserted(Inserted(rows, at, block), line, [row])
  }

  ghost predicate PinReported(segs: seq<Seg>, k: nat, fallback: Option<(string, nat)>) {
    if PinName(segs, k).None? then fallback.None?
    else First(segs, Strategies(k)).Some?
         && fallback == Some((PinName(segs, k).value, Off(segs, First(segs, Strategies(k)).value + 1)))
  }

  ghost function BareRegion(segs: seq<Seg>, k: nat): seq<Seg> {
    var key := First(segs, NodesKeys(k));
    if key.None? then segs else Bared(segs, key.value)
  }

  /** Splicing the node's lines, where no fallback is pinned. */
  lemma SpliceNode(segs: seq<Seg>, k: nat, p: nat, n: NewNode, quote: string -> string)
    requires WellFormed(segs) && First(segs, NodesKeys(k)).Some? && IsPoint(segs, k, p) && PinName(segs, k).None?
    ensures Off(segs, p) <= |Flatten(BareRegion(segs, k))|
    ensures Spliced(Flatten(BareRegion(segs, k)), Off(segs, p), n.rows, None, quote) == Flatten(AddedAt(segs, k, p, n, quote))
  {
    var key := First(segs, NodesKeys(k)).value;
    StripOff(segs, key, p);
    InsertedSegs(Bared(segs, key), p, ItemSeg(k, n));
  }

  lemma SpliceOrdered(segs: seq<Seg>, p: nat, item: Seg, q: nat, pin: Seg, name: string, quote: string -> string)
    requires p <= |segs| && q <= |segs| && p != q && (Off(segs, q) > Off(segs, p) <==> q > p)
    requires pin.rows == [PinRow(quote(name))]
    ensures Off(segs, p) <= |Flatten(segs)| && Off(segs, q) <= |Flatten(segs)|
    ensures Spliced(Flatten(segs), Off(segs, p), item.rows, Some((name, Off(segs, q))), quote) == Flatten(InsertBoth(segs, p, item, q, pin))
  {
    if q > p { InsertedTwice(segs, q, pin, p, item); } else { InsertedTwice(segs, p, item, q, pin); }
  }

  lemma AddedBoth(segs: seq<Seg>, k: nat, p: nat, n: NewNode, name: string, quote: string -> string)
    requires First(segs, NodesKeys(k)).Some? && p <= |segs| && First(segs, Strategies(k)).Some? && PinName(segs, k) == Some(name)
    ensures |BareRegion(segs, k)| == |segs|
    ensures AddedAt(segs, k, p, n, quote) ==
            InsertBoth(BareRegion(segs, k), p, ItemSeg(k, n), First(segs, Strategies(k)).value + 1, PinSeg(k, name, quote))
  {
  }

  /** Splicing both, bottom-up. */
  lemma SpliceBoth(segs: seq<Seg>, k: nat, p: nat, n: NewNode, name: string, line: nat, quote: string -> string)
    requires WellFormed(segs) && First(segs, NodesKeys(k)).Some? && IsPoint(segs, k, p) && PinReported(segs, k, Some((name, line)))
    ensures Off(segs, p) <= |Flatten(BareRegion(segs, k))| && line <= |Flatten(BareRegion(segs, k))|
    ensures Spliced(Flatten(BareRegion(segs, k)), Off(segs, p), n.rows, Some((name, line)), quote) == Flatten(AddedAt(segs, k, p, n, quote))
  {
    var base, q := BareRegion(segs, k), First(segs, Strategies(k)).value + 1;
    StripOff(segs, First(segs, NodesKeys(k)).value, p);
    StripOff(segs, First(segs, NodesKeys(k)).value, q);
    PinApart(segs, k, p);
    SpliceOrdered(base, p, ItemSeg(k, n), q, PinSeg(k, name, quote), name, quote);
    AddedBoth(segs, k, p, n, name, quote);
  }

  lemma SplicedIs(segs: seq<Seg>, k: nat, p: nat, n: NewNode, fallback: Option<(string, nat)>, quote: string -> string)
    requires WellFormed(segs) && First(segs, NodesKeys(k)).Some? && IsPoint(segs, k, p) && PinReported(segs, k, fallback)
    ensures Off(segs, p) <= |Flatten(BareRegion(segs, k))| && (fallback.Some? ==> fallback.value.1 <= |Flatten(BareRegion(segs, k))|)
    ensures Spliced(Flatten(BareRegion(segs, k)), Off(segs, p), n.rows, fallback, quote) == Flatten(AddedAt(segs, k, p, n, quote))
  {
    if fallback.None? {
      SpliceNode(segs, k, p, n, quote);
    } else {
      SpliceBoth(segs, k, p, n, fallback.value.0, fallback.value.1, quote);
    }
  }

  lemma LastRows(segs: seq<Seg>, k: nat, i: nat)
    requires WellFormed(segs) && IsLast(segs, k, i)
    ensures segs[i].rows != [] && !segs[i].tag.Trivia?
  {
    FitsAt(segs, i);
    if segs[i].rows == [] {
      if i + 1 < |segs| {
        FitsAt(segs, i + 1);
      }
    }
  }

  /** The last region's lines, from its `- ` line to its last line of content. */
  lemma LastContent(segs: seq<Seg>, k: nat, last: nat)
    requires WellFormed(segs) && k < |Where(segs, Heads)| && IsLast(segs, k, last)
    ensures var h := Where(segs, Heads)[k];
            h <= last && Off(segs, h) < |Flatten(segs)| && Off(segs, h) <= Off(segs, Skip(segs, last + 1)) <= |Flatten(segs)|
  {
    var h := Where(segs, Heads)[k];
    HeadNumber(segs, k);
    LastRows(segs, k, last);
    OffMono(segs, h, last);
    FirstRow(segs, last);
    EntryBounds(segs, last);
  }

  /** Heads are numbered in file order. */
  lemma {:induction false} HeadNumber(segs: seq<Seg>, k: nat)
    requires FitsAll(segs) && k < |Where(segs, Heads)|
    ensures segs[Where(segs, Heads)[k]].tag.r == k
  {
    if k < |Where(segs[..|segs| - 1], Heads)| { HeadNumber(segs[..|segs| - 1], k); }
  }

  lemma RegionEnd(segs: seq<Seg>, k: nat, last: nat, e: nat)
    requires WellFormed(segs) && k < |Where(segs, Heads)| && IsLast(segs, k, last)
    requires Off(segs, Where(segs, Heads)[k]) <= e <= Off(segs, Skip(segs, last + 1)) <= |Flatten(segs)|
    requires e == Off(segs, Where(segs, Heads)[k]) || !IsTrivia(Flatten(segs)[e - 1])
    requires forall x :: e <= x < Off(segs, Skip(segs, last + 1)) ==> IsTrivia(Flatten(segs)[x])
    ensures e == Off(segs, last + 1)
  {
    LastContent(segs, k, last);
    LastRows(segs, k, last);
    RowsFit(segs);
    ContentEndIs(segs, Where(segs, Heads)[k], last, e);
  }

  lemma RegionRows(k: nat, region: NewRegion, n: NewNode)
    ensures Flatten(RegionSegs(k, region, n)) == region.head + [region.key] + n.rows
  {
    var all := RegionSegs(k, region, n);
    assert all == [all[0]] + [all[1]] + [all[2]];
    FlattenConcat([all[0]] + [all[1]], [all[2]]);
    FlattenConcat([all[0]], [all[1]]);
    FlattenOne(all[0]);
    FlattenOne(all[1]);
    FlattenOne(all[2]);
  }

  lemma CreatedFirstRows(segs: seq<Seg>, key: nat, region: NewRegion, n: NewNode)
    requires WellFormed(segs) && IsKey(segs, key)
    ensures var rows, at := Flatten(Bared(segs, key)), Off(segs, key) + 1;
            && at <= |rows|
            && Inserted(rows, at, region.head + [region.key] + n.rows) == Flatten(CreatedFirst(segs, key, region, n))
  {
    KeyRows(segs, key);
    StripOff(segs, key, key + 1);
    RegionRows(0, region, n);
    InsertedAll(Bared(segs, key), key + 1, RegionSegs(0, region, n));
  }

  lemma InsertedAll(segs: seq<Seg>, i: nat, more: seq<Seg>)
    requires i <= |segs|
    ensures Off(segs, i) <= |Flatten(segs)| && Inserted(Flatten(segs), Off(segs, i), Flatten(more)) == Flatten(InsertSegs(segs, i, more))
  {
    InsertRows(segs, i, more);
  }

  lemma CreatedAfterRows(segs: seq<Seg>, last: nat, region: NewRegion, n: NewNode)
    requires last < |segs|
    ensures Off(segs, last + 1) <= |Flatten(segs)|
    ensures Inserted(Flatten(segs), Off(segs, last + 1), [""] + (region.head + [region.key] + n.rows))
            == Flatten(CreatedAfter(segs, last, region, n))
  {
    var blank, more := Seg(Trivia, [""]), RegionSegs(|Where(segs, Heads)|, region, n);
    RegionRows(|Where(segs, Heads)|, region, n);
    FlattenOne(blank);
    FlattenConcat([blank], more);
    InsertedAll(segs, last + 1, [blank] + more);
  }
}
