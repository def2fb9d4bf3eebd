/** Edits one after the other on a file read back each time. */
module EditorRuns {
  import opened Base
  import opened Schema
  import opened TextLines
  import opened LineSplice
  import opened Outline
  import opened Editor
  import opened EditFacts
  import opened WellFormedEdits
  import opened RoundTrip
  import opened TopologyFile

  /** Node `m` of region `k` is reported with this id. */
  ghost predicate HasId(t: Topology, k: nat, m: nat, id: string) {
    k < |t.view.regions| && m < |t.view.regions[k].nodes| && t.view.regions[k].nodes[m].id == Some(id)
  }

  lemma KnownId(t: Topology, k: nat, m: nat, id: string)
    requires HasId(t, k, m, id)
    ensures t.HasNode(id)
  {
    var nodes := t.view.regions[k].nodes;
    assert nodes[m] in nodes;
    assert IndexById(nodes, id).Some?;
  }

  lemma BlockNode(t: Topology, k: nat, m: nat)
    requires t.Valid() && k < |t.view.regions| && t.view.regions[k].nodesError.None? && m < |t.view.regions[k].nodes|
    ensures var at := Where(t.doc, Items(k)); m < |at| && NodeReported(t.doc, at[m], t.view.regions[k].nodes[m])
  {
    assert RegionReported(t.doc, k, t.view.regions[k]);
    var at := Where(t.doc, Items(k));
    assert NodeReported(t.doc, at[m], t.view.regions[k].nodes[m]);
  }

  lemma BlockNodeAt(t: Topology, k: nat, i: nat) returns (m: nat)
    requires t.Valid() && k < |t.view.regions| && t.view.regions[k].nodesError.None? && i < |t.doc| && Is(Items(k), t.doc[i].tag)
    ensures m < |Where(t.doc, Items(k))| == |t.view.regions[k].nodes| && Where(t.doc, Items(k))[m] == i
    ensures t.view.regions[k].nodes[m].id == t.doc[i].tag.id
  {
    assert RegionReported(t.doc, k, t.view.regions[k]);
    var at := Where(t.doc, Items(k));
    WhereIs(t.doc, Items(k), i);
    m :| 0 <= m < |at| && at[m] == i;
    assert NodeReported(t.doc, at[m], t.view.regions[k].nodes[m]);
  }

  /** `after` was read from a file to which the node was added, at segment `p` of region `k`. */
  ghost predicate Grown(t: Topology, after: Topology, k: nat, p: nat, n: NewNode) {
    && t.Valid() && after.Valid() && p <= |t.doc| && after.doc == InsertSegs(t.doc, p, [ItemSeg(k, n)])
    && k < |t.view.regions| && t.view.regions[k].nodesError.None? && !t.HasNode(n.id)
  }

  lemma SameHead(t: Topology, after: Topology, k: nat, p: nat, n: NewNode, r: nat)
    requires Grown(t, after, k, p, n) && r < |after.view.regions|
    ensures |after.view.regions| == |t.view.regions|
    ensures var h, j := Where(t.doc, Heads)[r], Where(after.doc, Heads)[r];
            h < |t.doc| && j < |after.doc| && t.doc[h].tag.Head? && after.doc[j].tag == t.doc[h].tag
    ensures after.view.regions[r].nodesError == t.view.regions[r].nodesError
  {
    WhereShift(t.doc, p, ItemSeg(k, n), Heads);
    ShiftAt(t.doc, p, ItemSeg(k, n), Where(t.doc, Heads)[r]);
    assert RegionReported(t.doc, r, t.view.regions[r]);
    assert RegionReported(after.doc, r, after.view.regions[r]);
  }

  /** A flow region reports the ids it did before. */
  lemma FlowIds(t: Topology, after: Topology, k: nat, p: nat, n: NewNode, r: nat, m: nat)
    requires Grown(t, after, k, p, n) && HasId(after, r, m, n.id)
    ensures after.view.regions[r].nodesError.None?
  {
    SameHead(t, after, k, p, n, r);
    if after.view.regions[r].nodesError.Some? {
      assert RegionReported(t.doc, r, t.view.regions[r]);
      assert RegionReported(after.doc, r, after.view.regions[r]);
      KnownId(t, r, m, n.id);
    }
  }

  /** The only node with the new id is the new one. */
  lemma OnlyNew(t: Topology, after: Topology, k: nat, p: nat, n: NewNode, r: nat, m: nat)
    requires Grown(t, after, k, p, n) && HasId(after, r, m, n.id)
    ensures r == k && m < |Where(after.doc, Items(k))| && Where(after.doc, Items(k))[m] == p
  {
    FlowIds(t, after, k, p, n, r, m);
    BlockNode(after, r, m);
    SameHead(t, after, k, p, n, r);
    var j := Where(after.doc, Items(r))[m];
    if j != p {
      var i := Unshift(t.doc, p, ItemSeg(k, n), j);
      var x := BlockNodeAt(t, r, i);
      KnownId(t, r, x, n.id);
    } else {
      InsertedAt(t.doc, p, ItemSeg(k, n));
    }
  }

  /** Looking the new id up after the file is read back finds the new node. */
  lemma FoundAgain(t: Topology, after: Topology, k: nat, p: nat, n: NewNode) returns (m: nat)
    requires Grown(t, after, k, p, n)
    ensures FindNode(after.view.regions, n.id) == Some((k, m))
    ensures m < |Where(after.doc, Items(k))| && Where(after.doc, Items(k))[m] == p && after.doc[p] == ItemSeg(k, n)
  {
    InsertedAt(t.doc, p, ItemSeg(k, n));
    WhereShift(t.doc, p, ItemSeg(k, n), Heads);
    SameHead(t, after, k, p, n, k);
    var x := BlockNodeAt(after, k, p);
    FindsSome(after.view.regions, n.id, 0, k, x);
    var found := FindNode(after.view.regions, n.id).value;
    OnlyNew(t, after, k, p, n, found.0, found.1);
    m := found.1;
  }

  lemma {:induction false} FindsSome(regions: seq<RegionItem>, id: string, from: nat, k: nat, m: nat)
    requires from <= k < |regions| && m < |regions[k].nodes| && regions[k].nodes[m].id == Some(id)
    ensures FindNodeFrom(regions, id, from).Some?
    decreases k - from
  {
    assert regions[k].nodes[m] in regions[k].nodes;
    if from < k { FindsSome(regions, id, from + 1, k, m); }
  }

  lemma {:induction false} KeptRows(segs: seq<Seg>, dead: nat -> bool)
    ensures forall row :: row in Flatten(Kept(segs, dead)) ==> row in Flatten(segs)
  {
    if segs != [] {
      var front, last := segs[..|segs| - 1], segs[|segs| - 1];
      KeptRows(front, dead);
      KeptSnoc(segs, dead);
      FlattenSnoc(Kept(front, dead), last);
    }
  }

  lemma SomeRow(segs: seq<Seg>, i: nat)
    requires i < |segs| && segs[i].rows != []
    ensures Flatten(segs) != []
  {
    FirstRow(segs, i);
  }

  lemma KeyStays(segs: seq<Seg>, k: nat, i: nat)
    requires WellFormed(segs) && i < |segs| && segs[i].tag.Item?
    ensures Flatten(segs) != [] && Flatten(Removed(segs, k, i)) != []
  {
    var key := First(segs, RegionsKeys).value;
    KeyRows(segs, key);
    SomeRow(segs, key);
    if DeadSeg(segs, k, i, key) { DeadTags(segs, k, i, key); }
    var j := KeptListed(segs, IsDead(segs, k, i), key);
    SomeRow(Removed(segs, k, i), j);
  }

  ghost predicate OneLineEach(rows: seq<string>) { forall row :: row in rows ==> OneLine(row) }

  /** The new node, and every route its removal would drop, start with a dash. */
  ghost predicate Removable(segs: seq<Seg>, k: nat, n: NewNode) {
    && StartsWithDash(ItemSeg(k, n))
    && forall i: nat :: i < |segs| && segs[i].tag.Route? && DanglesAgain(segs, k, n.id, segs[i].tag.destination) ==>
                          StartsWithDash(segs[i])
  }

  lemma RemovableAfter(segs: seq<Seg>, k: nat, p: nat, n: NewNode)
    requires p <= |segs|
    ensures DashesOk(InsertSegs(segs, p, [ItemSeg(k, n)]), k, p) <==> Removable(segs, k, n)
  {
    var s := ItemSeg(k, n);
    var all := InsertSegs(segs, p, [s]);
    InsertedAt(segs, p, s);
    if Removable(segs, k, n) {
      forall j: nat | DeadRoute(all, k, Some(n.id), j) ensures DashedAt(all, j) {
        var i := Unshift(segs, p, s, j);
        DeadRouteAfter(segs, k, p, n, i);
      }
    }
    if DashesOk(all, k, p) {
      forall i: nat | i < |segs| && segs[i].tag.Route? && DanglesAgain(segs, k, n.id, segs[i].tag.destination)
        ensures StartsWithDash(segs[i])
      {
        DeadRouteAfter(segs, k, p, n, i);
        ShiftAt(segs, p, s, i);
      }
    }
  }

  /**
   * Adding a node and, on the file read back, removing it by its id: refused exactly when the routes
   * cannot be edited or an item to delete does not start with a dash. Otherwise the lines that were
   * there before are written, exactly when nothing in the file names what the removal drops.
   */
  lemma AddThenRemoveFile(t: Topology, after: Topology, k: nat, n: NewNode, quote: string -> string, out: Result<RemoveEdit, EditError>)
    requires t.Valid() && after.Valid() && k < |t.view.regions| && t.view.regions[k].nodesError.None? && !t.HasNode(n.id)
    requires First(t.doc, NodesKeys(k)).Some? && FlowOf(t.doc[First(t.doc, NodesKeys(k)).value].tag).None?
    requires PinName(t.doc, k).None? && after.doc == AddedTo(t.doc, k, n, quote) && after.eol == t.eol
    requires FindNode(after.view.regions, n.id).Some? ==>
               var (r, m) := FindNode(after.view.regions, n.id).value; after.RemovalOk(r, m, out)
    requires OneLineEach(t.lines) && OneLineEach(after.lines) && (t.eol == "\n" || t.eol == "\r\n")
    ensures out.Ok? <==> after.view.routesError.None? && Removable(t.doc, k, n)
    ensures out.Ok? ==> (out.value.text == Render(t.lines, t.eol) <==> Untouched(t.doc, k, n.id))
  {
    var p := InsertPoint(t.doc, k, n.id);
    AddedPlain(t.doc, k, n, quote);
    var m := FoundAgain(t, after, k, p, n);
    SameHead(t, after, k, p, n, k);
    RemovableAfter(t.doc, k, p, n);
    if out.Ok? { LinesBack(t, after, k, n, quote); }
  }

  /** The lines left by the removal are the old ones exactly when nothing else went. */
  lemma LinesBack(t: Topology, after: Topology, k: nat, n: NewNode, quote: string -> string)
    requires t.Valid() && after.Valid() && First(t.doc, NodesKeys(k)).Some?
    requires FlowOf(t.doc[First(t.doc, NodesKeys(k)).value].tag).None? && PinName(t.doc, k).None?
    requires after.doc == AddedTo(t.doc, k, n, quote)
    requires OneLineEach(t.lines) && OneLineEach(after.lines) && (t.eol == "\n" || t.eol == "\r\n")
    ensures var p := InsertPoint(t.doc, k, n.id);
            && p < |after.doc| && after.doc[p].tag.Item?
            && (Render(Flatten(Removed(after.doc, k, p)), t.eol) == Render(t.lines, t.eol) <==> Untouched(t.doc, k, n.id))
  {
    var p := InsertPoint(t.doc, k, n.id);
    AddThenRemove(t.doc, k, n, quote);
    KeyStays(after.doc, k, p);
    KeptRows(after.doc, IsDead(after.doc, k, p));
    SomeLines(t.doc);
    SplitRendered(t.lines, t.eol);
    SplitRendered(Flatten(Removed(after.doc, k, p)), t.eol);
  }

  lemma SomeLines(segs: seq<Seg>)
    requires WellFormed(segs)
    ensures Flatten(segs) != []
  {
    KeyRows(segs, First(segs, RegionsKeys).value);
    SomeRow(segs, First(segs, RegionsKeys).value);
  }
}
