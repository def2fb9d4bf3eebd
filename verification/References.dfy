/** Removal keeps references valid: what hub routes and fallbacks still name exists and can be dialled. */
module References {
  import opened Base
  import opened Names
  import opened Schema
  import opened Acceptance
  import opened LineSplice
  import opened Outline
  import opened Editor
  import EditFacts
  import opened WellFormedEdits
  import opened DocView

  /** Every hub route leads somewhere the validator accepts. */
  ghost predicate RoutesValid(c: Config) { forall h :: h in c.hubRoutes ==> DestinationOk(c, h.destination) }

  /** Every fallback names a node of its region. */
  ghost predicate FallbacksValid(c: Config) {
    forall r :: r in c.regions && r.ExitRegion? && r.lbFallback.Some? ==> r.lbFallback.value in NodeIds(r.nodes)
  }

  // Regions of a document -------------------------------------------------------------------

  lemma RegionMember(segs: seq<Seg>, rest: Config, r: Region) returns (h: nat)
    requires r in Load(segs, rest).regions
    ensures h < |segs| && segs[h].tag.Head? && r == RegionOf(segs, segs[h].tag)
  {
    var heads := Tags(segs, Heads);
    var x :| 0 <= x < |heads| && RegionsOf(segs, heads)[x] == r;
    h := TagSource(segs, Heads, heads[x]);
  }

  lemma RegionListed(segs: seq<Seg>, rest: Config, h: nat)
    requires h < |segs| && segs[h].tag.Head?
    ensures RegionOf(segs, segs[h].tag) in Load(segs, rest).regions
  {
    var heads := Tags(segs, Heads);
    TagListed(segs, Heads, h);
    var x :| 0 <= x < |heads| && heads[x] == segs[h].tag;
    assert RegionsOf(segs, heads)[x] == RegionOf(segs, segs[h].tag);
  }

  /** Same heads before and after a removal. */
  lemma HeadKept(segs: seq<Seg>, k: nat, i: nat, h: nat) returns (j: nat)
    requires i < |segs| && segs[i].tag.Item? && h < |segs| && segs[h].tag.Head?
    ensures j < |Removed(segs, k, i)| && Removed(segs, k, i)[j] == segs[h]
  {
    j := KeptListed(segs, IsDead(segs, k, i), h);
  }

  lemma HeadSource(segs: seq<Seg>, k: nat, i: nat, j: nat) returns (h: nat)
    requires i < |segs| && segs[i].tag.Item? && j < |Removed(segs, k, i)|
    ensures h < |segs| && !DeadSeg(segs, k, i, h) && Removed(segs, k, i)[j] == segs[h]
  {
    h := KeptSource(segs, IsDead(segs, k, i), j);
  }

  // Nodes of a region -----------------------------------------------------------------------

  lemma NodeOfRegion(segs: seq<Seg>, t: Tag, n: Node)
    requires t.Head?
    ensures n in RegionOf(segs, t).nodes <==>
            (exists x :: 0 <= x < |t.inline| && t.inline[x].1 == n)
            || exists i :: 0 <= i < |segs| && Is(Items(t.r), segs[i].tag) && segs[i].tag.node == n
  {
    var ts := Tags(segs, Items(t.r));
    var a, b := InlineNodes(t.inline), ItemNodes(ts);
    if n in a {
      var x :| 0 <= x < |a| && a[x] == n;
      assert t.inline[x].1 == n;
    }
    if n in b {
      var x :| 0 <= x < |b| && b[x] == n;
      var i := TagSource(segs, Items(t.r), ts[x]);
      assert segs[i].tag.node == n;
    }
    if x :| 0 <= x < |t.inline| && t.inline[x].1 == n { assert a[x] == n; }
    if i :| 0 <= i < |segs| && Is(Items(t.r), segs[i].tag) && segs[i].tag.node == n {
      TagListed(segs, Items(t.r), i);
      var x :| 0 <= x < |ts| && ts[x] == segs[i].tag;
      assert b[x] == n;
    }
  }

  /** A removal adds no node to any region. */
  lemma NodesShrink(segs: seq<Seg>, k: nat, i: nat, t: Tag, n: Node)
    requires i < |segs| && segs[i].tag.Item? && t.Head? && n in RegionOf(Removed(segs, k, i), t).nodes
    ensures n in RegionOf(segs, t).nodes
  {
    var all := Removed(segs, k, i);
    NodeOfRegion(all, t, n);
    NodeOfRegion(segs, t, n);
    if j: nat :| j < |all| && Is(Items(t.r), all[j].tag) && all[j].tag.node == n {
      var h := HeadSource(segs, k, i, j);
      assert segs[h].tag.node == n;
    }
  }

  lemma KeptTagsSnoc(front: seq<Seg>, t: Seg, dead: nat -> bool, kind: Kind)
    ensures Tags(Kept(front + [t], dead), kind) ==
            Tags(Kept(front, dead), kind) + if !dead(|front|) && Is(kind, t.tag) then [t.tag] else []
  {
    assert (front + [t])[..|front|] == front;
    KeptSnoc(front + [t], dead);
    TagsSnoc(Kept(front, dead), t, kind);
  }

  /** Of the dead segments at most `i` is of the kind. */
  ghost predicate OnlyDead(segs: seq<Seg>, dead: nat -> bool, kind: Kind, i: nat) {
    forall j: nat :: j < |segs| && dead(j) && j != i ==> !Is(kind, segs[j].tag)
  }

  lemma OnlyFront(front: seq<Seg>, t: Seg, dead: nat -> bool, kind: Kind, i: nat)
    requires OnlyDead(front + [t], dead, kind, i)
    ensures OnlyDead(front, dead, kind, i) && (dead(|front|) && i != |front| ==> !Is(kind, t.tag))
  {
    var segs := front + [t];
    assert segs[|front|] == t;
    forall j: nat | j < |front| && dead(j) && j != i ensures !Is(kind, front[j].tag) { assert segs[j] == front[j]; }
  }

  lemma AliveTags(front: seq<Seg>, dead: nat -> bool, kind: Kind, i: nat)
    requires OnlyDead(front, dead, kind, i) && i >= |front|
    ensures Tags(Kept(front, dead), kind) == Tags(front, kind)
  {
    TagsKept(front, dead, kind);
  }

  lemma {:induction false} KeptCount(segs: seq<Seg>, dead: nat -> bool, kind: Kind, i: nat)
    requires i < |segs| && OnlyDead(segs, dead, kind, i)
    ensures |Tags(Kept(segs, dead), kind)| + 1 >= |Tags(segs, kind)|
    ensures !Is(kind, segs[i].tag) ==> Tags(Kept(segs, dead), kind) == Tags(segs, kind)
  {
    var front, t := segs[..|segs| - 1], segs[|segs| - 1];
    assert segs == front + [t];
    OnlyFront(front, t, dead, kind, i);
    TagsSnoc(front, t, kind);
    KeptTagsSnoc(front, t, dead, kind);
    if i < |front| { KeptCount(front, dead, kind, i); } else { AliveTags(front, dead, kind, i); }
  }

  lemma AliveItem(segs: seq<Seg>, k: nat, i: nat, x: nat)
    requires i < |segs| && segs[i].tag.Item? && x < |segs| && segs[x].tag.Item? && x != i
    ensures !DeadSeg(segs, k, i, x)
  {
  }

  lemma ItemsStay(segs: seq<Seg>, k: nat, i: nat, r: nat)
    requires i < |segs| && segs[i].tag.Item?
    ensures OnlyDead(segs, IsDead(segs, k, i), Items(r), i)
  {
    forall j: nat | j < |segs| && IsDead(segs, k, i)(j) && j != i ensures !Is(Items(r), segs[j].tag) {
      if segs[j].tag.Item? { AliveItem(segs, k, i, j); }
    }
  }

  lemma NodeCount(segs: seq<Seg>, t: Tag)
    requires t.Head?
    ensures |RegionOf(segs, t).nodes| == |t.inline| + |Tags(segs, Items(t.r))|
  {
  }

  lemma EmptiesIs(segs: seq<Seg>, k: nat)
    ensures Empties(segs, k) <==> |Tags(segs, Items(k))| == 1
  {
    TagsAt(segs, Items(k));
  }

  /** A region left without nodes had none before, or lost its only one. */
  lemma EmptiedRegion(segs: seq<Seg>, k: nat, i: nat, t: Tag)
    requires i < |segs| && segs[i].tag.Item? && segs[i].tag.r == k && t.Head?
    requires RegionOf(Removed(segs, k, i), t).nodes == []
    ensures RegionOf(segs, t).nodes == [] || (t.r == k && Empties(segs, k))
  {
    ItemsStay(segs, k, i, t.r);
    KeptCount(segs, IsDead(segs, k, i), Items(t.r), i);
    NodeCount(segs, t);
    NodeCount(Removed(segs, k, i), t);
    EmptiesIs(segs, k);
  }

  // Route destinations ----------------------------------------------------------------------

  /** The head of region number `r`. */
  lemma HeadAt(segs: seq<Seg>, h: nat)
    requires FitsAll(segs) && h < |segs| && segs[h].tag.Head?
    ensures var r := segs[h].tag.r; r < |Where(segs, Heads)| && Where(segs, Heads)[r] == h
    decreases |segs|
  {
    HeadCount(segs, h);
    var front := segs[..|segs| - 1];
    if h < |front| {
      HeadAt(front, h);
    } else {
      assert front == segs[..h];
    }
  }

  ghost predicate AliveDestination(segs: seq<Seg>, k: nat, i: nat, d: string)
    requires i < |segs| && segs[i].tag.Item?
  {
    !Dangles(segs, k, segs[i].tag.id, Some(d))
  }

  lemma RegionSurvives(segs: seq<Seg>, rest: Config, k: nat, i: nat, d: string)
    requires i < |segs| && segs[i].tag.Item?
    ensures IsRegion(Load(Removed(segs, k, i), rest), d) <==> IsRegion(Load(segs, rest), d)
    ensures IsHubRegion(Load(Removed(segs, k, i), rest), d) <==> IsHubRegion(Load(segs, rest), d)
  {
    var all := Removed(segs, k, i);
    var c, after := Load(segs, rest), Load(all, rest);
    forall r | r in c.regions && r.id == d ensures exists q :: q in after.regions && q.id == d && q.HubRegion? == r.HubRegion? {
      var h := RegionMember(segs, rest, r);
      var j := HeadKept(segs, k, i, h);
      RegionListed(all, rest, j);
    }
    forall r | r in after.regions && r.id == d ensures exists q :: q in c.regions && q.id == d && q.HubRegion? == r.HubRegion? {
      var j := RegionMember(all, rest, r);
      var h := HeadSource(segs, k, i, j);
      RegionListed(segs, rest, h);
    }
  }

  lemma HubNodesShrink(segs: seq<Seg>, rest: Config, k: nat, i: nat, d: string)
    requires i < |segs| && segs[i].tag.Item? && d in HubNodeIds(Load(Removed(segs, k, i), rest))
    ensures d in HubNodeIds(Load(segs, rest))
  {
    var all := Removed(segs, k, i);
    var r, n := NodeIdOwner(Hubs(Load(all, rest).regions), d);
    var j := RegionMember(all, rest, r);
    var h := HeadSource(segs, k, i, j);
    NodesShrink(segs, k, i, segs[h].tag, n);
    RegionListed(segs, rest, h);
    NodeIdKnown(Hubs(Load(segs, rest).regions), RegionOf(segs, segs[h].tag), n);
  }

  lemma NodeSurvives(segs: seq<Seg>, rest: Config, k: nat, i: nat, d: string)
    requires WellFormed(segs) && Loads(segs) && i < |segs| && segs[i].tag.Item? && segs[i].tag.r == k
    requires IsNode(Load(segs, rest), d) && d != segs[i].tag.node.id
    ensures IsNode(Load(Removed(segs, k, i), rest), d)
  {
    var all := Removed(segs, k, i);
    var r, n := NodeIdOwner(Load(segs, rest).regions, d);
    var h := RegionMember(segs, rest, r);
    StaysUnlessNamed(segs, k, i, segs[h].tag, n);
    var j := HeadKept(segs, k, i, h);
    RegionListed(all, rest, j);
    NodeIdKnown(Load(all, rest).regions, RegionOf(all, segs[h].tag), n);
  }

  /** A region that ends up empty without having been so is the one the node was removed from. */
  lemma NewlyEmpty(segs: seq<Seg>, rest: Config, k: nat, i: nat, d: string)
    requires WellFormed(segs) && Loads(segs) && i < |segs| && segs[i].tag.Item? && segs[i].tag.r == k
    requires IsEmptyRegion(Load(Removed(segs, k, i), rest), d) && !IsEmptyRegion(Load(segs, rest), d)
    ensures Empties(segs, k) && IsIdOf(segs, k, Some(d))
  {
    var all := Removed(segs, k, i);
    var r :| r in Load(all, rest).regions && r.nodes == [] && r.id == d;
    var j := RegionMember(all, rest, r);
    var h := HeadSource(segs, k, i, j);
    RegionListed(segs, rest, h);
    EmptiedRegion(segs, k, i, segs[h].tag);
    HeadAt(segs, h);
  }

  lemma {:induction false} NodeOnce(rs: seq<Region>, a: nat, x: nat, b: nat, y: nat)
    requires NoDup(NodeIds(NodesOf(rs))) && a < |rs| && b < |rs| && x < |rs[a].nodes| && y < |rs[b].nodes|
    requires rs[a].nodes[x].id == rs[b].nodes[y].id
    ensures a == b && x == y
  {
    var front, last := rs[..|rs| - 1], rs[|rs| - 1];
    assert NodeIds(NodesOf(rs)) == NodeIds(NodesOf(front)) + NodeIds(last.nodes);
    NoDupConcat(NodeIds(NodesOf(front)), NodeIds(last.nodes));
    if a < |front| && b < |front| {
      NodeOnce(front, a, x, b, y);
    } else if a < |front| {
      LaterNode(front, last, a, x, y);
    } else if b < |front| {
      LaterNode(front, last, b, y, x);
    } else {
      assert NodeIds(last.nodes)[x] == NodeIds(last.nodes)[y];
    }
  }

  lemma LaterNode(front: seq<Region>, last: Region, a: nat, x: nat, y: nat)
    requires NoDup(NodeIds(NodesOf(front)) + NodeIds(last.nodes)) && a < |front| && x < |front[a].nodes| && y < |last.nodes|
    ensures front[a].nodes[x].id != last.nodes[y].id
  {
    NoDupConcat(NodeIds(NodesOf(front)), NodeIds(last.nodes));
    NodeIdKnown(front, front[a], front[a].nodes[x]);
    assert NodeIds(last.nodes)[y] in NodeIds(last.nodes);
  }

  lemma RegionAt(segs: seq<Seg>, rest: Config, k: nat)
    requires FitsAll(segs) && k < |Where(segs, Heads)|
    ensures var rs := Load(segs, rest).regions; var t := segs[Where(segs, Heads)[k]].tag;
            k < |rs| && rs[k] == RegionOf(segs, t) && t.r == k
  {
    TagsAt(segs, Heads);
    EditFacts.HeadNumber(segs, k);
  }

  lemma ItemAt(segs: seq<Seg>, k: nat, i: nat) returns (b: nat)
    requires i < |segs| && Is(Items(k), segs[i].tag)
    ensures b < |Where(segs, Items(k))| == |Tags(segs, Items(k))|
    ensures Where(segs, Items(k))[b] == i && ItemNodes(Tags(segs, Items(k)))[b] == segs[i].tag.node
  {
    TagsAt(segs, Items(k));
    WhereIs(segs, Items(k), i);
    var x: nat :| x < |Where(segs, Items(k))| && Where(segs, Items(k))[x] == i;
    b := x;
  }

  /** The node at segment `i` is node `p` of region `k`, behind those in flow style. */
  ghost predicate PlacedAt(segs: seq<Seg>, rs: seq<Region>, k: nat, i: nat, p: nat) {
    && k < |Where(segs, Heads)| && k < |rs| && p < |rs[k].nodes| && i < |segs| && Is(Items(k), segs[i].tag)
    && rs[k].nodes[p] == segs[i].tag.node
    && var b := p - |segs[Where(segs, Heads)[k]].tag.inline|; 0 <= b < |Where(segs, Items(k))| && Where(segs, Items(k))[b] == i
  }

  lemma NodePlace(segs: seq<Seg>, rest: Config, k: nat, i: nat) returns (p: nat)
    requires FitsAll(segs) && i < |segs| && Is(Items(k), segs[i].tag) && k < |Where(segs, Heads)|
    ensures PlacedAt(segs, Load(segs, rest).regions, k, i, p)
  {
    RegionAt(segs, rest, k);
    var b := ItemAt(segs, k, i);
    var t := segs[Where(segs, Heads)[k]].tag;
    NodeCount(segs, t);
    p := |t.inline| + b;
  }

  /** Two items of the file have different ids. */
  lemma PlacedOnce(segs: seq<Seg>, rs: seq<Region>, k: nat, i: nat, p: nat, r: nat, y: nat, q: nat)
    requires NoDup(NodeIds(NodesOf(rs))) && PlacedAt(segs, rs, k, i, p) && PlacedAt(segs, rs, r, y, q)
    requires segs[y].tag.node.id == segs[i].tag.node.id
    ensures y == i
  {
    NodeOnce(rs, k, p, r, q);
  }

  lemma PlacedBehind(segs: seq<Seg>, rs: seq<Region>, k: nat, i: nat, p: nat, r: nat, x: nat)
    requires NoDup(NodeIds(NodesOf(rs))) && PlacedAt(segs, rs, k, i, p) && r < |Where(segs, Heads)| && r < |rs|
    requires x < |segs[Where(segs, Heads)[r]].tag.inline| && x < |rs[r].nodes|
    ensures rs[r].nodes[x].id != segs[i].tag.node.id
  {
    if rs[r].nodes[x].id == segs[i].tag.node.id { NodeOnce(rs, k, p, r, x); }
  }

  lemma ItemOther(segs: seq<Seg>, rest: Config, k: nat, i: nat, r: nat, y: nat)
    requires FitsAll(segs) && NoDup(NodeIds(NodesOf(Load(segs, rest).regions)))
    requires i < |segs| && Is(Items(k), segs[i].tag) && k < |Where(segs, Heads)|
    requires y < |segs| && Is(Items(r), segs[y].tag) && r < |Where(segs, Heads)|
    requires segs[y].tag.node.id == segs[i].tag.node.id
    ensures y == i
  {
    var p := NodePlace(segs, rest, k, i);
    var q := NodePlace(segs, rest, r, y);
    PlacedOnce(segs, Load(segs, rest).regions, k, i, p, r, y, q);
  }

  lemma InlineOther(segs: seq<Seg>, rest: Config, k: nat, i: nat, h: nat, x: nat)
    requires FitsAll(segs) && NoDup(NodeIds(NodesOf(Load(segs, rest).regions)))
    requires i < |segs| && Is(Items(k), segs[i].tag) && k < |Where(segs, Heads)|
    requires h < |segs| && segs[h].tag.Head? && x < |segs[h].tag.inline|
    ensures segs[h].tag.inline[x].1.id != segs[i].tag.node.id
  {
    var rs, t := Load(segs, rest).regions, segs[h].tag;
    HeadAt(segs, h);
    RegionAt(segs, rest, t.r);
    NodeCount(segs, t);
    var p := NodePlace(segs, rest, k, i);
    PlacedBehind(segs, rs, k, i, p, t.r, x);
  }

  lemma OthersStay(segs: seq<Seg>, rest: Config, k: nat, i: nat, h: nat, n: Node)
    requires WellFormed(segs) && NoDup(NodeIds(NodesOf(Load(segs, rest).regions)))
    requires i < |segs| && Is(Items(k), segs[i].tag) && k < |Where(segs, Heads)|
    requires h < |segs| && segs[h].tag.Head? && n in RegionOf(Removed(segs, k, i), segs[h].tag).nodes
    ensures n.id != segs[i].tag.node.id
  {
    var all, t := Removed(segs, k, i), segs[h].tag;
    NodeOfRegion(all, t, n);
    if x: nat :| x < |t.inline| && t.inline[x].1 == n {
      InlineOther(segs, rest, k, i, h, x);
    } else {
      var x: nat :| x < |all| && Is(Items(t.r), all[x].tag) && all[x].tag.node == n;
      var y := HeadSource(segs, k, i, x);
      HeadAt(segs, h);
      if n.id == segs[i].tag.node.id { ItemOther(segs, rest, k, i, t.r, y); }
    }
  }

  /** Where node ids are distinct, the removed node's id names no node any more. */
  lemma RemovedNodeGone(segs: seq<Seg>, rest: Config, k: nat, i: nat)
    requires WellFormed(segs) && i < |segs| && Is(Items(k), segs[i].tag) && k < |Where(segs, Heads)|
    requires NoDup(NodeIds(NodesOf(Load(segs, rest).regions)))
    ensures !IsNode(Load(Removed(segs, k, i), rest), segs[i].tag.node.id)
  {
    var all, id := Removed(segs, k, i), segs[i].tag.node.id;
    if IsNode(Load(all, rest), id) {
      var r, n := NodeIdOwner(Load(all, rest).regions, id);
      var j := RegionMember(all, rest, r);
      var h := HeadSource(segs, k, i, j);
      OthersStay(segs, rest, k, i, h, n);
    }
  }

  /**
   * A destination is dropped exactly when it would no longer be acceptable, or when it is a special one
   * that the removed node was named like.
   */
  lemma DestinationDies(segs: seq<Seg>, rest: Config, k: nat, i: nat, d: string)
    requires WellFormed(segs) && Loads(segs) && i < |segs| && Is(Items(k), segs[i].tag)
    requires k < |Where(segs, Heads)| && segs[Where(segs, Heads)[k]].tag.inline == []
    requires NoDup(NodeIds(NodesOf(Load(segs, rest).regions))) && DestinationOk(Load(segs, rest), d)
    ensures Dangles(segs, k, segs[i].tag.id, Some(d)) <==>
            || !DestinationOk(Load(Removed(segs, k, i), rest), d)
            || (IsSpecial(d) && d == segs[i].tag.node.id && !IsRegion(Load(segs, rest), d))
  {
    var c, after := Load(segs, rest), Load(Removed(segs, k, i), rest);
    if !Dangles(segs, k, segs[i].tag.id, Some(d)) {
      DestinationSurvives(segs, rest, k, i, d);
      if IsRegion(c, d) { RegionNamed(segs, rest, d); }
      if IsRegionId(segs, Some(d)) { RegionIdLoaded(segs, rest, d); }
    } else if Empties(segs, k) && IsIdOf(segs, k, Some(d)) {
      EmptyAfter(segs, rest, k, i);
    } else {
      RegionSurvives(segs, rest, k, i, d);
      RemovedNodeGone(segs, rest, k, i);
      if IsRegion(c, d) { RegionNamed(segs, rest, d); }
    }
  }

  lemma RegionNamed(segs: seq<Seg>, rest: Config, d: string)
    requires Loads(segs) && IsRegion(Load(segs, rest), d)
    ensures IsRegionId(segs, Some(d))
  {
    var r :| r in Load(segs, rest).regions && r.id == d;
    var h := RegionMember(segs, rest, r);
    assert segs[h].tag.id == Some(d);
  }

  /** A destination that does not dangle stays acceptable, even when node and region ids coincide. */
  lemma DestinationSurvives(segs: seq<Seg>, rest: Config, k: nat, i: nat, d: string)
    requires WellFormed(segs) && Loads(segs) && i < |segs| && segs[i].tag.Item? && segs[i].tag.r == k
    requires AliveDestination(segs, k, i, d) && DestinationOk(Load(segs, rest), d)
    ensures DestinationOk(Load(Removed(segs, k, i), rest), d)
  {
    var c, after := Load(segs, rest), Load(Removed(segs, k, i), rest);
    RegionSurvives(segs, rest, k, i, d);
    if d in HubNodeIds(after) { HubNodesShrink(segs, rest, k, i, d); }
    if IsEmptyRegion(after, d) { NewlyEmpty(segs, rest, k, i, d); }
    if IsRegion(c, d) {
      RegionNamed(segs, rest, d);
    } else if IsNode(c, d) {
      if d == segs[i].tag.node.id { RegionIdLoaded(segs, rest, d); }
      NodeSurvives(segs, rest, k, i, d);
    }
  }

  lemma RegionIdLoaded(segs: seq<Seg>, rest: Config, d: string)
    requires Loads(segs) && IsRegionId(segs, Some(d))
    ensures IsRegion(Load(segs, rest), d)
  {
    var h: nat :| h < |segs| && segs[h].tag.Head? && segs[h].tag.id == Some(d);
    RegionListed(segs, rest, h);
  }

  /** If every hub route was valid before a removal, the remaining ones are valid after it. */
  lemma RemovalKeepsRoutes(segs: seq<Seg>, rest: Config, k: nat, i: nat)
    requires WellFormed(segs) && Loads(segs) && i < |segs| && segs[i].tag.Item? && segs[i].tag.r == k
    requires RoutesValid(Load(segs, rest))
    ensures RoutesValid(Load(Removed(segs, k, i), rest))
  {
    var all := Removed(segs, k, i);
    var after := Load(all, rest);
    forall h | h in after.hubRoutes ensures DestinationOk(after, h.destination) {
      var ts := Tags(all, AllRoutes);
      var x :| 0 <= x < |ts| && RoutesOf(ts)[x] == h;
      var j := TagSource(all, AllRoutes, ts[x]);
      var s := HeadSource(segs, k, i, j);
      RouteLoaded(segs, rest, s);
      assert !DeadRoute(segs, k, segs[i].tag.id, s);
      DestinationSurvives(segs, rest, k, i, h.destination);
    }
  }

  lemma RouteLoaded(segs: seq<Seg>, rest: Config, s: nat)
    requires s < |segs| && segs[s].tag.Route?
    ensures segs[s].tag.route in Load(segs, rest).hubRoutes
  {
    var ts := Tags(segs, AllRoutes);
    TagListed(segs, AllRoutes, s);
    var x :| 0 <= x < |ts| && ts[x] == segs[s].tag;
    assert RoutesOf(ts)[x] == segs[s].tag.route;
  }

  /**
   * The default destination is not repaired: it stays valid exactly when the removal does not empty
   * the region it names.
   */
  lemma DefaultSurvives(segs: seq<Seg>, rest: Config, k: nat, i: nat)
    requires WellFormed(segs) && Loads(segs) && i < |segs| && segs[i].tag.Item? && segs[i].tag.r == k
    requires k < |Where(segs, Heads)| && segs[Where(segs, Heads)[k]].tag.inline == []
    requires DefaultOk(Load(segs, rest))
    ensures DefaultOk(Load(Removed(segs, k, i), rest)) <==> !(Empties(segs, k) && IsIdOf(segs, k, Some(rest.hubDefault)))
  {
    var d, after := rest.hubDefault, Load(Removed(segs, k, i), rest);
    RegionSurvives(segs, rest, k, i, d);
    if IsEmptyRegion(after, d) { NewlyEmpty(segs, rest, k, i, d); }
    if Empties(segs, k) && IsIdOf(segs, k, Some(d)) {
      EmptyAfter(segs, rest, k, i);
    }
  }

  lemma EmptyAfter(segs: seq<Seg>, rest: Config, k: nat, i: nat)
    requires WellFormed(segs) && Loads(segs) && i < |segs| && segs[i].tag.Item? && segs[i].tag.r == k
    requires k < |Where(segs, Heads)| && segs[Where(segs, Heads)[k]].tag.inline == [] && Empties(segs, k)
    ensures IsEmptyRegion(Load(Removed(segs, k, i), rest), segs[Where(segs, Heads)[k]].tag.region.id)
  {
    var all, h := Removed(segs, k, i), Where(segs, Heads)[k];
    var t := segs[h].tag;
    EditFacts.HeadNumber(segs, k);
    var j := HeadKept(segs, k, i, h);
    RegionListed(all, rest, j);
    if RegionOf(all, t).nodes != [] {
      var n := RegionOf(all, t).nodes[0];
      NodeOfRegion(all, t, n);
      var x: nat :| x < |all| && Is(Items(k), all[x].tag) && all[x].tag.node == n;
      var y := HeadSource(segs, k, i, x);
      OnlyItem(segs, k, i, y);
    }
  }

  lemma OnlyItem(segs: seq<Seg>, k: nat, i: nat, y: nat)
    requires Empties(segs, k) && i < |segs| && Is(Items(k), segs[i].tag) && y < |segs| && Is(Items(k), segs[y].tag)
    ensures i == y
  {
    WhereIs(segs, Items(k), i);
    WhereIs(segs, Items(k), y);
  }

  /** A route the removal leaves. */
  ghost predicate Stays(segs: seq<Seg>, k: nat, node: Option<string>, j: nat) {
    j < |segs| && segs[j].tag.Route? && !DeadRoute(segs, k, node, j)
  }

  lemma StaysKept(segs: seq<Seg>, k: nat, i: nat, j: nat)
    requires i < |segs| && segs[i].tag.Item? && Stays(segs, k, segs[i].tag.id, j)
    ensures Where(Removed(segs, k, i), AllRoutes) != []
  {
    var f := KeptListed(segs, IsDead(segs, k, i), j);
    WhereIs(Removed(segs, k, i), AllRoutes, f);
  }

  lemma KeptStays(segs: seq<Seg>, k: nat, i: nat) returns (j: nat)
    requires i < |segs| && segs[i].tag.Item? && Where(Removed(segs, k, i), AllRoutes) != []
    ensures Stays(segs, k, segs[i].tag.id, j)
  {
    j := HeadSource(segs, k, i, Where(Removed(segs, k, i), AllRoutes)[0]);
  }

  /** All routes are dead when there are some and none stays. */
  lemma NoneStays(segs: seq<Seg>, k: nat, node: Option<string>)
    ensures AllRoutesDead(segs, k, node) <==> Where(segs, AllRoutes) != [] && forall j: nat :: !Stays(segs, k, node, j)
  {
    if j :| DeadRoute(segs, k, node, j) { WhereIs(segs, AllRoutes, j); }
    if Where(segs, AllRoutes) != [] && forall j: nat :: !Stays(segs, k, node, j) {
      var j := Where(segs, AllRoutes)[0];
      assert !Stays(segs, k, node, j);
      assert DeadRoute(segs, k, node, j);
      forall x | 0 <= x < |segs| && segs[x].tag.Route? ensures DeadRoute(segs, k, node, x) { assert !Stays(segs, k, node, x); }
    }
  }

  lemma NoRoute(segs: seq<Seg>, k: nat, node: Option<string>, j: nat)
    requires j < |segs| && !segs[j].tag.Route?
    ensures !DeadRoute(segs, k, node, j)
  {
  }

  lemma NoFallback(segs: seq<Seg>, k: nat, node: Option<string>, j: nat)
    requires j < |segs| && !segs[j].tag.Fallback?
    ensures !NamedFallback(segs, k, node, j)
  {
  }

  lemma KeyDead(segs: seq<Seg>, k: nat, i: nat, key: nat, gone: bool)
    requires i < |segs| && segs[i].tag.Item? && First(segs, RoutesKeys) == Some(key)
    requires gone == AllRoutesDead(segs, k, segs[i].tag.id)
    ensures DeadSeg(segs, k, i, key) <==> gone
  {
    NoRoute(segs, k, segs[i].tag.id, key);
    NoFallback(segs, k, segs[i].tag.id, key);
  }

  /** The `hub_routes:` key goes exactly when the removal takes the last routes. */
  lemma RoutesKeyGoes(segs: seq<Seg>, k: nat, i: nat, key: nat)
    requires i < |segs| && segs[i].tag.Item? && First(segs, RoutesKeys) == Some(key)
    ensures DeadSeg(segs, k, i, key) <==> Where(segs, AllRoutes) != [] && Where(Removed(segs, k, i), AllRoutes) == []
  {
    KeyDead(segs, k, i, key, AllRoutesDead(segs, k, segs[i].tag.id));
    NoneStays(segs, k, segs[i].tag.id);
    if j: nat :| Stays(segs, k, segs[i].tag.id, j) { StaysKept(segs, k, i, j); }
    if Where(Removed(segs, k, i), AllRoutes) != [] { var j := KeptStays(segs, k, i); }
  }

  // Fallbacks -------------------------------------------------------------------------------

  lemma FallbackSurvives(segs: seq<Seg>, k: nat, i: nat, t: Tag)
    requires WellFormed(segs) && i < |segs| && segs[i].tag.Item? && t.Head?
    ensures var before, now := Tags(segs, Fallbacks(t.r)), Tags(Removed(segs, k, i), Fallbacks(t.r));
            now == [] || (now == before && !(t.r == k && before[0].name == segs[i].tag.id))
  {
    var dead, kind := IsDead(segs, k, i), Fallbacks(t.r);
    var f := First(segs, kind);
    if f.Some? && dead(f.value) {
      FallbackGone(segs, dead, kind, f.value);
    } else {
      forall j: nat | j < |segs| && dead(j) ensures !Is(kind, segs[j].tag) {
        DeadTags(segs, k, i, j);
        if Is(kind, segs[j].tag) { OneFallback(segs, t.r, j); }
      }
      TagsKept(segs, dead, kind);
      FirstTag(segs, kind);
    }
  }

  lemma FallbackFresh(prefix: seq<Seg>, s: Seg, r: nat)
    requires Fits(prefix, s) && Is(Fallbacks(r), s.tag)
    ensures First(prefix, Fallbacks(r)).None?
  {
  }

  lemma OneFallback(segs: seq<Seg>, r: nat, j: nat)
    requires FitsAll(segs) && j < |segs| && Is(Fallbacks(r), segs[j].tag)
    ensures First(segs, Fallbacks(r)) == Some(j)
  {
    FitsAt(segs, j);
    FallbackFresh(segs[..j], segs[j], r);
    OnlyOne(segs, Fallbacks(r), j);
  }

  lemma OnlyOne(segs: seq<Seg>, kind: Kind, j: nat)
    requires j < |segs| && Is(kind, segs[j].tag) && First(segs[..j], kind).None?
    ensures First(segs, kind) == Some(j)
  {
    FirstIs(segs, kind, j);
    var f := First(segs, kind).value;
    if f < j { FirstIs(segs[..j], kind, f); }
  }

  lemma FallbackGone(segs: seq<Seg>, dead: nat -> bool, kind: Kind, f: nat)
    requires WellFormed(segs) && kind.Fallbacks? && First(segs, kind) == Some(f) && dead(f)
    ensures Tags(Kept(segs, dead), kind) == []
  {
    var all := Kept(segs, dead);
    if Tags(all, kind) != [] {
      var j := TagSource(all, kind, Tags(all, kind)[0]);
      var i := KeptSource(segs, dead, j);
      OneFallback(segs, kind.r, i);
    }
  }

  /** If every fallback named a node of its region before a removal, it does after it. */
  lemma RemovalKeepsFallbacks(segs: seq<Seg>, rest: Config, k: nat, i: nat)
    requires WellFormed(segs) && Loads(segs) && i < |segs| && segs[i].tag.Item? && segs[i].tag.r == k
    requires FallbacksValid(Load(segs, rest))
    ensures FallbacksValid(Load(Removed(segs, k, i), rest))
  {
    var all := Removed(segs, k, i);
    forall r | r in Load(all, rest).regions && r.ExitRegion? && r.lbFallback.Some? ensures r.lbFallback.value in NodeIds(r.nodes) {
      var j := RegionMember(all, rest, r);
      var h := HeadSource(segs, k, i, j);
      FallbackNamed(segs, rest, k, i, segs[h].tag, h);
    }
  }

  lemma FallbackNamed(segs: seq<Seg>, rest: Config, k: nat, i: nat, t: Tag, h: nat)
    requires WellFormed(segs) && Loads(segs) && i < |segs| && segs[i].tag.Item? && segs[i].tag.r == k
    requires FallbacksValid(Load(segs, rest)) && h < |segs| && segs[h].tag == t && t.Head? && t.region.ExitRegion?
    requires RegionOf(Removed(segs, k, i), t).lbFallback.Some?
    ensures var r := RegionOf(Removed(segs, k, i), t); r.lbFallback.value in NodeIds(r.nodes)
  {
    var before, r := RegionOf(segs, t), RegionOf(Removed(segs, k, i), t);
    RegionListed(segs, rest, h);
    FallbackSurvives(segs, k, i, t);
    var name := r.lbFallback.value;
    assert before.lbFallback == Some(name);
    var x :| 0 <= x < |before.nodes| && NodeIds(before.nodes)[x] == name;
    var n := before.nodes[x];
    StaysUnlessNamed(segs, k, i, t, n);
    var y :| 0 <= y < |r.nodes| && r.nodes[y] == n;
    assert NodeIds(r.nodes)[y] == name;
  }

  /** A node its region's fallback names stays, whatever node of the same id another region lost. */
  lemma StaysUnlessNamed(segs: seq<Seg>, k: nat, i: nat, t: Tag, n: Node)
    requires Loads(segs) && i < |segs| && segs[i].tag.Item? && segs[i].tag.r == k
    requires t.Head? && n in RegionOf(segs, t).nodes && !(t.r == k && n.id == segs[i].tag.node.id)
    ensures n in RegionOf(Removed(segs, k, i), t).nodes
  {
    NodeOfRegion(Removed(segs, k, i), t, n);
    NodeOfRegion(segs, t, n);
    if x: nat :| x < |segs| && Is(Items(t.r), segs[x].tag) && segs[x].tag.node == n {
      AliveItem(segs, k, i, x);
      var j := KeptListed(segs, IsDead(segs, k, i), x);
      assert Removed(segs, k, i)[j].tag.node == n;
    }
  }
}
