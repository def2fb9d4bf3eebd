/** One parsed topology file: adding and removing nodes in its lines. */
module TopologyFile {
  import opened Base
  import opened Names
  import opened Schema
  import opened Text
  import opened TextLines
  import opened NaturalOrder
  import opened LineSplice
  import opened Outline
  import opened Locating
  import opened Editor
  import opened EditFacts

  ghost predicate DashesOk(segs: seq<Seg>, k: nat, i: nat)
    requires i < |segs| && segs[i].tag.Item?
  {
    DashedAt(segs, i) && forall j: nat :: DeadRoute(segs, k, segs[i].tag.id, j) ==> DashedAt(segs, j)
  }

  ghost predicate DropsFallback(segs: seq<Seg>, k: nat, node: Option<string>) {
    exists j :: NamedFallback(segs, k, node, j)
  }

  class Topology {
    const lines: seq<string>
    const eol: string
    const view: View
    ghost const doc: seq<Seg>

    ghost predicate Valid() { WellFormed(doc) && lines == Flatten(doc) && Reported(doc, view) }

    /** `last` names each region's last segment; the view is located from the parser's marks. */
    constructor (text: string, parsed: Parsed, ghost doc: seq<Seg>, ghost last: seq<nat>)
      requires WellFormed(doc) && SplitLines(Terminated(text)) == Flatten(doc) && Parses(doc, parsed, last)
      ensures Valid() && this.doc == doc && view.routesError == parsed.routesError
      ensures lines == SplitLines(Terminated(text)) && eol == Eol(Terminated(text))
    {
      var rows := SplitLines(Terminated(text));
      var located := Locate(rows, parsed, doc, last);
      lines, eol, view := rows, Eol(Terminated(text)), located;
      this.doc := doc;
    }

    // Removal -------------------------------------------------------------------------------

    /** Lines of an item, from its `- ` line to its last line of content. */
    method ItemSpan(start: nat, end: nat, ghost i: nat) returns (s: Span)
      requires Valid() && IsEntry(doc, i) && start == Off(doc, i) && end == Off(doc, Skip(doc, i + 1))
      ensures s == SpanOf(doc, i)
    {
      EntryRows(doc, i);
      var e := ContentEnd(lines, start, end);
      EntryEnd(doc, i, e);
      return Span(start, e);
    }

    method CheckDash(start: nat, ghost i: nat) returns (out: Option<EditError>)
      requires Valid() && IsEntry(doc, i) && start == Off(doc, i)
      ensures out.None? <==> DashedAt(doc, i)
    {
      EntryRows(doc, i);
      return if IsDash(StripLeft(lines[start]), "") then None else Some(NotADash(lines[start]));
    }

    method CheckDashes(dead: seq<RouteItem>, ghost at: seq<nat>) returns (out: Option<EditError>)
      requires Valid() && RoutesReported(doc, at, dead)
      ensures out.None? <==> forall x :: 0 <= x < |at| ==> DashedAt(doc, at[x])
    {
      for x := 0 to |dead|
        invariant forall y :: 0 <= y < x ==> DashedAt(doc, at[y])
      {
        assert RouteReported(doc, at[x], dead[x]);
        var bad := CheckDash(dead[x].start, at[x]);
        if bad.Some? { return bad; }
      }
      return None;
    }

    method DeadSpans(node: Span, dead: seq<RouteItem>, ghost i: nat, ghost at: seq<nat>) returns (spans: seq<Span>)
      requires Valid() && RoutesReported(doc, at, dead) && NoDup(at)
      requires i < |doc| && doc[i].tag.Item? && node == SpanOf(doc, i)
      ensures Marks(doc, [i] + at, spans)
      ensures forall j :: j in [i] + at ==> IsEntry(doc, j)
    {
      EntryRows(doc, i);
      spans := [node];
      for x := 0 to |dead|
        invariant Marks(doc, [i] + at[..x], spans)
        invariant forall j :: j in [i] + at[..x] ==> IsEntry(doc, j)
      {
        assert RouteReported(doc, at[x], dead[x]);
        var s := ItemSpan(dead[x].start, dead[x].end, at[x]);
        EntryRows(doc, at[x]);
        NextMark(i, at, x);
        MarkOne(doc, [i] + at[..x], spans, at[x]);
        spans := spans + [s];
      }
      assert at[..|at|] == at;
    }

    lemma NextMark(i: nat, at: seq<nat>, x: nat)
      requires x < |at| && NoDup(at)
      ensures [i] + at[..x + 1] == ([i] + at[..x]) + [at[x]] && (at[x] != i ==> at[x] !in [i] + at[..x])
    {
    }

    method KeySpans(k: nat, node: Option<string>, allDead: bool) returns (out: seq<Span>, dropped: bool)
      requires Valid() && k < |view.regions| && node.Some?
      ensures SpansAre(doc, DeadKeys(doc, k, node, allDead), out) && (dropped <==> DropsFallback(doc, k, node))
    {
      assert RegionReported(doc, k, view.regions[k]);
      var line := if view.regions[k].lbFallback == node then view.regions[k].lbFallbackLine else None;
      ghost var f := First(doc, Fallbacks(k));
      if f.Some? {
        KeySpan(doc, f.value);
        assert NamedFallback(doc, k, node, f.value) <==> doc[f.value].tag.name == node;
      }
      out := [];
      if allDead && view.routesLine.Some? {
        KeySpan(doc, First(doc, RoutesKeys).value);
        out := [Span(view.routesLine.value, view.routesLine.value + 1)];
      }
      if line.Some? {
        out := out + [Span(line.value, line.value + 1)];
      }
      dropped := line.Some?;
    }

    /** The spans to delete for the node at segment `i`, and whether a fallback is among them. */
    method Plan(k: nat, node: NodeItem, dead: seq<RouteItem>, ghost i: nat, ghost at: seq<nat>)
      returns (out: Result<(seq<Span>, bool), EditError>, ghost all: seq<nat>)
      requires Valid() && k < |view.regions| && node.id.Some? && NodeReported(doc, i, node)
      requires RoutesReported(doc, at, dead) && NoDup(at) && Finds(doc, k, node.id, at)
      requires dead != [] && |dead| == |view.routes| <==> AllRoutesDead(doc, k, node.id)
      ensures out.Ok? <==> DashesOk(doc, k, i)
      ensures out.Ok? ==> Marks(doc, all, out.value.0) && (out.value.1 <==> DropsFallback(doc, k, node.id))
      ensures out.Ok? ==> forall j: nat :: j < |doc| ==> (j in all <==> DeadSeg(doc, k, i, j))
    {
      all := [];
      var bad := CheckDash(node.start, i);
      if bad.Some? { return Err(bad.value), all; }
      bad := CheckDashes(dead, at);
      DashesFound(k, node.id, at);
      if bad.Some? { return Err(bad.value), all; }
      var span := ItemSpan(node.start, node.end, i);
      var spans := DeadSpans(span, dead, i, at);
      var allDead := dead != [] && |dead| == |view.routes|;
      var keys, dropped := KeySpans(k, node.id, allDead);
      all := [i] + at + DeadKeys(doc, k, node.id, allDead);
      MarkKeys(doc, [i] + at, spans, DeadKeys(doc, k, node.id, allDead), keys);
      AllDead(doc, k, i, at, allDead);
      return Ok((spans + keys, dropped)), all;
    }

    lemma DashesFound(k: nat, node: Option<string>, at: seq<nat>)
      requires Finds(doc, k, node, at)
      ensures (forall x :: 0 <= x < |at| ==> DashedAt(doc, at[x]))
              <==> forall j: nat :: DeadRoute(doc, k, node, j) ==> DashedAt(doc, j)
    {
      forall x | 0 <= x < |at| ensures DeadRoute(doc, k, node, at[x]) { assert at[x] in at; }
      forall j: nat | DeadRoute(doc, k, node, j) ensures exists x :: 0 <= x < |at| && at[x] == j { assert j in at; }
    }

    /**
     * Refused when the nodes or the routes cannot be edited, or an item to delete does not start with
     * a dash; otherwise exactly the dead segments are gone from the text.
     */
    ghost predicate RemovalOk(k: nat, m: nat, out: Result<RemoveEdit, EditError>)
      requires k < |view.regions|
    {
      if view.regions[k].nodesError.Some? || view.routesError.Some? then out.Err?
      else
        m < |Where(doc, Items(k))| &&
        var i := Where(doc, Items(k))[m];
        && (out.Ok? <==> DashesOk(doc, k, i))
        && (out.Ok? ==>
              && out.value.text == Render(Flatten(Removed(doc, k, i)), eol)
              && (out.value.emptied <==> Empties(doc, k))
              && ReportsDropped(doc, k, doc[i].tag.id, out.value.droppedRoutes)
              && (out.value.droppedFallback <==> DropsFallback(doc, k, doc[i].tag.id)))
    }

    /** The lines without the dead segments, and whether a fallback went. */
    method RemovedLines(k: nat, node: NodeItem, dead: seq<RouteItem>, ghost i: nat, ghost at: seq<nat>)
      returns (out: Result<(seq<string>, bool), EditError>)
      requires Valid() && k < |view.regions| && node.id.Some? && NodeReported(doc, i, node)
      requires RoutesReported(doc, at, dead) && NoDup(at) && Finds(doc, k, node.id, at)
      requires dead != [] && |dead| == |view.routes| <==> AllRoutesDead(doc, k, node.id)
      ensures out.Ok? <==> DashesOk(doc, k, i)
      ensures out.Ok? ==> out.value.0 == Flatten(Removed(doc, k, i)) && (out.value.1 <==> DropsFallback(doc, k, node.id))
    {
      var list := new LineList(lines);
      ghost var all;
      var plan;
      plan, all := Plan(k, node, dead, i, at);
      if plan.Err? { return Err(plan.error); }
      RemovedIs(doc, k, i, all, plan.value.0);
      list.DeleteSpans(plan.value.0);
      return Ok((list.rows, plan.value.1));
    }

    /** Removes node `m` of region `k`. */
    method Remove(k: nat, m: nat) returns (out: Result<RemoveEdit, EditError>)
      requires Valid() && k < |view.regions| && m < |view.regions[k].nodes| && view.regions[k].nodes[m].id.Some?
      ensures RemovalOk(k, m, out)
    {
      var region, node := view.regions[k], view.regions[k].nodes[m];
      if region.nodesError.Some? { return Err(Uneditable(region.nodesError.value)); }
      if view.routesError.Some? { return Err(Uneditable(view.routesError.value)); }
      assert RegionReported(doc, k, region);
      ghost var i := Where(doc, Items(k))[m];
      assert NodeReported(doc, i, node);
      var emptied := |region.nodes| == 1;
      var gone := if emptied then {region.id} else {};
      if node.id !in RegionIdSet(view.regions) - gone { gone := gone + {node.id}; }
      var dead := DeadItems(view.routes, gone);
      ghost var at := DeadRoutesFound(doc, view, k, node.id);
      AllDropped(doc, k, node.id, at, dead);
      var rows := RemovedLines(k, node, dead, i, at);
      if rows.Err? { return Err(rows.error); }
      return Ok(RemoveEdit(Render(rows.value.0, eol), emptied, Destinations(dead), rows.value.1));
    }

    /** `remove_node`: the first node with the id, in file order. */
    method RemoveNode(id: string) returns (out: Result<RemoveEdit, EditError>)
      requires Valid()
      ensures FindNode(view.regions, id).None? ==> out == Err(NotPresent(id))
      ensures FindNode(view.regions, id).Some? ==> var (k, m) := FindNode(view.regions, id).value; RemovalOk(k, m, out)
    {
      for k := 0 to |view.regions|
        invariant FindNode(view.regions, id) == FindNodeFrom(view.regions, id, k)
      {
        var m := IndexById(view.regions[k].nodes, id);
        if m.Some? {
          out := Remove(k, m.value);
          return;
        }
      }
      return Err(NotPresent(id));
    }

    // Addition ------------------------------------------------------------------------------

    predicate HasNode(id: string) { exists k :: 0 <= k < |view.regions| && IndexById(view.regions[k].nodes, id).Some? }

    lemma HasNodeMeaning(id: string)
      ensures HasNode(id) <==> exists r, m :: r in view.regions && m in r.nodes && m.id == Some(id)
    {
      if k :| 0 <= k < |view.regions| && IndexById(view.regions[k].nodes, id).Some? {
        var m := IndexById(view.regions[k].nodes, id).value;
        assert view.regions[k] in view.regions && view.regions[k].nodes[m] in view.regions[k].nodes;
      }
      if r, m :| r in view.regions && m in r.nodes && m.id == Some(id) {
        var k :| 0 <= k < |view.regions| && view.regions[k] == r;
        assert IndexById(view.regions[k].nodes, id).Some?;
      }
    }

    method CheckIndent(rows: seq<string>, start: nat, indent: string) returns (out: Option<EditError>)
      requires start < |rows|
      ensures out.None? <==> IsDash(rows[start], indent)
    {
      return if IsDash(rows[start], indent) then None else Some(BadIndent(rows[start]));
    }

    /** End of the content of node `m`, once its indentation is as expected. */
    method AppendAt(rows: seq<string>, node: NodeItem, ghost i: nat) returns (out: Result<nat, EditError>)
      requires Valid() && rows == lines && NodeReported(doc, i, node)
      ensures out.Ok? <==> DashAt(doc, i, NODE_INDENT)
      ensures out.Ok? ==> out.value == Off(doc, i + 1)
    {
      EntryRows(doc, i);
      var bad := CheckIndent(rows, node.start, NODE_INDENT);
      if bad.Some? { return Err(bad.value); }
      var e := ContentEnd(rows, node.start, node.end);
      EntryEnd(doc, i, e);
      return Ok(e);
    }

    /** One past the last sibling that comes before `id` in natural order. */
    method EarlierSiblings(nodes: seq<NodeItem>, id: string, ghost at: seq<nat>) returns (p: nat)
      requires ItemsReported(doc, at, nodes)
      ensures p == Slot(doc, at, id)
    {
      p := 0;
      for m := 0 to |nodes|
        invariant p == Slot(doc, at[..m], id)
      {
        SlotTake(doc, at, id, m);
        assert NodeReported(doc, at[m], nodes[m]);
        if nodes[m].id.Some? && Before(nodes[m].id.value, id) { p := m + 1; }
      }
      assert at[..|at|] == at;
    }

    /** Right under the key, next to the first sibling if there is one. */
    method UnderKey(rows: seq<string>, region: RegionItem, key: nat, ghost k: nat) returns (out: Result<nat, EditError>)
      requires Valid() && RegionReported(doc, k, region) && region.nodesError.None?
      requires region.nodes != [] ==> rows == lines
      requires First(doc, NodesKeys(k)).Some? && key == Off(doc, First(doc, NodesKeys(k)).value)
      ensures out.Ok? <==> (Where(doc, Items(k)) != [] ==> DashAt(doc, Where(doc, Items(k))[0], NODE_INDENT))
      ensures out.Ok? ==> out.value == Off(doc, First(doc, NodesKeys(k)).value + 1)
    {
      ghost var at := Where(doc, Items(k));
      if region.nodes != [] {
        assert NodeReported(doc, at[0], region.nodes[0]);
        EntryRows(doc, at[0]);
        var bad := CheckIndent(rows, region.nodes[0].start, NODE_INDENT);
        if bad.Some? { return Err(bad.value); }
      }
      KeySpan(doc, First(doc, NodesKeys(k)).value);
      return Ok(key + 1);
    }

    /** After an earlier sibling's content. */
    method AfterSibling(rows: seq<string>, region: RegionItem, ghost k: nat, m: nat) returns (out: Result<nat, EditError>)
      requires Valid() && rows == lines && RegionReported(doc, k, region) && region.nodesError.None?
      requires 0 < m <= |region.nodes| && First(doc, NodesKeys(k)).Some?
      ensures |region.nodes| == |Where(doc, Items(k))|
      ensures out.Ok? <==> IndentOk(doc, k, m)
      ensures out.Ok? ==> out.value == Off(doc, PointAfter(doc, k, m))
    {
      ghost var at := Where(doc, Items(k));
      assert NodeReported(doc, at[m - 1], region.nodes[m - 1]);
      out := AppendAt(rows, region.nodes[m - 1], at[m - 1]);
    }

    method InsertAt(rows: seq<string>, region: RegionItem, id: string, ghost k: nat) returns (out: Result<nat, EditError>)
      requires Valid() && RegionReported(doc, k, region) && region.nodesError.None?
      requires region.nodes != [] ==> rows == lines
      ensures out.Ok? <==> First(doc, NodesKeys(k)).Some? && IndentOk(doc, k, Slot(doc, Where(doc, Items(k)), id))
      ensures out.Ok? ==> out.value == Off(doc, InsertPoint(doc, k, id))
    {
      if region.nodesLine.None? { return Err(NoNodesKey(id)); }
      ghost var at := Where(doc, Items(k));
      var earlier := EarlierSiblings(region.nodes, id, at);
      assert earlier == Slot(doc, at, id) <= |at| == |region.nodes|;
      if earlier > 0 {
        out := AfterSibling(rows, region, k, earlier);
      } else {
        out := UnderKey(rows, region, region.nodesLine.value, k);
      }
    }

    /** The node's lines, and the pinned fallback's if any, bottom-up. */
    method Splice(list: LineList, at: nat, block: seq<string>, fallback: Option<(string, nat)>, quote: string -> string)
      requires at <= |list.rows| && (fallback.Some? ==> fallback.value.1 <= |list.rows|)
      modifies list
      ensures list.rows == Spliced(old(list.rows), at, block, fallback, quote)
    {
      if fallback.None? {
        list.Insert(at, block);
        return;
      }
      var line, row := fallback.value.1, PinRow(quote(fallback.value.0));
      if line > at {
        list.Insert(line, [row]);
        list.Insert(at, block);
      } else {
        list.Insert(at, block);
        list.Insert(line, [row]);
      }
    }

    /** Refused without a key or beside siblings indented otherwise; else exactly the document's addition. */
    ghost predicate AddsTo(k: nat, n: NewNode, quote: string -> string, out: Result<AddEdit, EditError>) {
      && (out.Ok? <==> First(doc, NodesKeys(k)).Some? && IndentOk(doc, k, Slot(doc, Where(doc, Items(k)), n.id)))
      && (out.Ok? ==>
            && out.value.text == Render(Flatten(AddedTo(doc, k, n, quote)), eol)
            && !out.value.created && out.value.fallback == PinName(doc, k))
    }

    /** The lines with an empty `[]` after the region's key stripped. */
    method Stripped(region: RegionItem, ghost k: nat) returns (list: LineList)
      requires Valid() && RegionReported(doc, k, region) && region.nodesError.None?
      ensures fresh(list) && (region.nodes != [] ==> list.rows == lines)
      ensures First(doc, NodesKeys(k)).Some? ==> list.rows == Flatten(BareRegion(doc, k))
    {
      list := new LineList(lines);
      ghost var key := First(doc, NodesKeys(k));
      if key.Some? { StripKey(doc, key.value); }
      list.StripFlow(region.emptyFlowNodes);
      if region.nodes != [] { NothingToStrip(doc, k); }
    }

    /** The edited lines and the pinned name. */
    method AddedLines(region: RegionItem, k: nat, n: NewNode, fallback: Option<(string, nat)>, quote: string -> string)
      returns (out: Result<seq<string>, EditError>)
      requires Valid() && RegionReported(doc, k, region) && region.nodesError.None? && PinReported(doc, k, fallback)
      ensures out.Ok? <==> First(doc, NodesKeys(k)).Some? && IndentOk(doc, k, Slot(doc, Where(doc, Items(k)), n.id))
      ensures out.Ok? ==> out.value == Flatten(AddedTo(doc, k, n, quote))
    {
      var list := Stripped(region, k);
      var at := InsertAt(list.rows, region, n.id, k);
      if at.Err? { return Err(at.error); }
      SplicedIs(doc, k, InsertPoint(doc, k, n.id), n, fallback, quote);
      Splice(list, at.value, n.rows, fallback, quote);
      return Ok(list.rows);
    }

    method AddTo(k: nat, n: NewNode, quote: string -> string) returns (out: Result<AddEdit, EditError>)
      requires Valid() && k < |view.regions| && view.regions[k].nodesError.None?
      ensures AddsTo(k, n, quote, out)
    {
      var region := view.regions[k];
      assert RegionReported(doc, k, region);
      var fallback := FallbackToSet(region);
      FallbackReported(doc, view, k);
      var rows := AddedLines(region, k, n, fallback, quote);
      if rows.Err? { return Err(rows.error); }
      return Ok(AddEdit(Render(rows.value, eol), false, if fallback.Some? then Some(fallback.value.0) else None));
    }

    /** End of the last region's content, once its indentation is as expected. */
    method AppendRegion(k: nat, ghost last: nat) returns (out: Result<nat, EditError>)
      requires Valid() && k < |view.regions| && IsLast(doc, k, last)
      requires view.regions[k].start == Off(doc, Where(doc, Heads)[k]) && view.regions[k].end == Off(doc, Skip(doc, last + 1))
      ensures Where(doc, Heads)[k] <= last && Off(doc, Where(doc, Heads)[k]) < |lines|
      ensures out.Ok? <==> IsDash(lines[Off(doc, Where(doc, Heads)[k])], REGION_INDENT)
      ensures out.Ok? ==> out.value == Off(doc, last + 1)
    {
      LastContent(doc, k, last);
      var region := view.regions[k];
      var bad := CheckIndent(lines, region.start, REGION_INDENT);
      if bad.Some? { return Err(bad.value); }
      var e := ContentEnd(lines, region.start, region.end);
      RegionEnd(doc, k, last, e);
      return Ok(e);
    }

    /** A created region follows the last one, after a blank line, or is the first under `regions:`. */
    ghost predicate Creates(region: NewRegion, n: NewNode, out: Result<AddEdit, EditError>) {
      var heads := Where(doc, Heads);
      if heads == [] then
        && First(doc, RegionsKeys).Some?
        && out == Ok(AddEdit(Render(Flatten(CreatedFirst(doc, First(doc, RegionsKeys).value, region, n)), eol), true, None))
      else
        var h := heads[|heads| - 1];
        && Off(doc, h) < |lines|
        && (out.Ok? <==> IsDash(lines[Off(doc, h)], "  "))
        && (out.Ok? ==> exists last: nat :: IsLast(doc, |heads| - 1, last)
                           && out.value == AddEdit(Render(Flatten(CreatedAfter(doc, last, region, n)), eol), true, None))
    }

    method StrippedRegions() returns (list: LineList)
      requires Valid()
      ensures fresh(list) && list.rows == Flatten(Bared(doc, First(doc, RegionsKeys).value))
    {
      list := new LineList(lines);
      StripKey(doc, First(doc, RegionsKeys).value);
      list.StripFlow(view.emptyFlowRegions);
    }

    method CreateFirst(region: NewRegion, n: NewNode) returns (rows: seq<string>)
      requires Valid() && view.regions == []
      ensures rows == Flatten(CreatedFirst(doc, First(doc, RegionsKeys).value, region, n))
    {
      var list := StrippedRegions();
      CreatedFirstRows(doc, First(doc, RegionsKeys).value, region, n);
      list.Insert(view.regionsLine + 1, region.head + [region.key] + n.rows);
      rows := list.rows;
    }

    /** Where the parser ends a region. */
    lemma LastOf(k: nat) returns (last: nat)
      requires Valid() && k < |view.regions|
      ensures |view.regions| == |Where(doc, Heads)| && IsLast(doc, k, last)
      ensures view.regions[k].start == Off(doc, Where(doc, Heads)[k]) && view.regions[k].end == Off(doc, Skip(doc, last + 1))
    {
      assert RegionReported(doc, k, view.regions[k]);
      last :| IsLast(doc, k, last) && view.regions[k].end == Off(doc, Skip(doc, last + 1));
    }

    method CreateAfter(region: NewRegion, n: NewNode) returns (out: Result<AddEdit, EditError>)
      requires Valid() && view.regions != []
      ensures Creates(region, n, out)
    {
      var k := |view.regions| - 1;
      ghost var last := LastOf(k);
      var at := AppendRegion(k, last);
      if at.Err? { return Err(at.error); }
      var list := new LineList(lines);
      CreatedAfterRows(doc, last, region, n);
      list.Insert(at.value, [""] + (region.head + [region.key] + n.rows));
      return Ok(AddEdit(Render(list.rows, eol), true, None));
    }

    method Create(region: NewRegion, n: NewNode) returns (out: Result<AddEdit, EditError>)
      requires Valid()
      ensures Creates(region, n, out)
    {
      if view.regions == [] {
        var rows := CreateFirst(region, n);
        out := Ok(AddEdit(Render(rows, eol), true, None));
      } else {
        out := CreateAfter(region, n);
      }
    }

    /** `add_node`: into its region when the file has one, else in a region created at the end. */
    method AddNode(region: NewRegion, n: NewNode, quote: string -> string) returns (out: Result<AddEdit, EditError>)
      requires Valid()
      ensures AddOk(region, n, quote, out)
    {
      HasNodeMeaning(n.id);
      if HasNode(n.id) { return Err(AlreadyPresent(n.id)); }
      var existing := RegionIndex(view.regions, region.id);
      if existing.None? {
        out := Create(region, n);
        return;
      }
      var k := existing.value;
      if view.regions[k].kind != Some(region.kind) { return Err(WrongType(region.id)); }
      if view.regions[k].nodesError.Some? { return Err(Uneditable(view.regions[k].nodesError.value)); }
      out := AddTo(k, n, quote);
    }

    ghost predicate AddOk(region: NewRegion, n: NewNode, quote: string -> string, out: Result<AddEdit, EditError>) {
      if exists r, m :: r in view.regions && m in r.nodes && m.id == Some(n.id) then out == Err(AlreadyPresent(n.id))
      else
        var existing := RegionIndex(view.regions, region.id);
        if existing.None? then Creates(region, n, out)
        else if view.regions[existing.value].kind != Some(region.kind) then out == Err(WrongType(region.id))
        else if view.regions[existing.value].nodesError.Some? then out.Err?
        else AddsTo(existing.value, n, quote, out)
    }
  }

  function RegionIndex(regions: seq<RegionItem>, id: string): (k: Option<nat>)
    ensures k.Some? ==> k.value < |regions| && regions[k.value].id == Some(id)
    ensures k.Some? ==> forall j :: 0 <= j < k.value ==> regions[j].id != Some(id)
    ensures k.None? ==> forall r :: r in regions ==> r.id != Some(id)
  {
    if regions == [] then None
    else if regions[0].id == Some(id) then Some(0)
    else
      var k := RegionIndex(regions[1..], id);
      if k.None? then None else Some(k.value + 1)
  }

  function IndexById(nodes: seq<NodeItem>, id: string): (m: Option<nat>)
    ensures m.Some? ==> m.value < |nodes| && nodes[m.value].id == Some(id)
    ensures m.Some? ==> forall j :: 0 <= j < m.value ==> nodes[j].id != Some(id)
    ensures m.None? ==> forall n :: n in nodes ==> n.id != Some(id)
  {
    if nodes == [] then None
    else if nodes[0].id == Some(id) then Some(0)
    else
      var m := IndexById(nodes[1..], id);
      if m.None? then None else Some(m.value + 1)
  }

  predicate HoldsNode(r: RegionItem, id: string) { exists n :: n in r.nodes && n.id == Some(id) }

  /** The first node with the id in file order, from region `from` on. */
  function FindNodeFrom(regions: seq<RegionItem>, id: string, from: nat): (out: Option<(nat, nat)>)
    requires from <= |regions|
    ensures out.Some? ==> var (k, m) := out.value; k < |regions| && m < |regions[k].nodes| && regions[k].nodes[m].id == Some(id)
    ensures out.Some? ==> var (k, m) := out.value;
                          && (forall j :: from <= j < k ==> !HoldsNode(regions[j], id))
                          && (forall x :: 0 <= x < m ==> regions[k].nodes[x].id != Some(id))
    ensures out.None? ==> forall j :: from <= j < |regions| ==> !HoldsNode(regions[j], id)
    decreases |regions| - from
  {
    if from == |regions| then None
    else
      var m := IndexById(regions[from].nodes, id);
      if m.Some? then Some((from, m.value)) else FindNodeFrom(regions, id, from + 1)
  }

  function FindNode(regions: seq<RegionItem>, id: string): Option<(nat, nat)> { FindNodeFrom(regions, id, 0) }
}
