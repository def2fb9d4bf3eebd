/** What a topology document loads as: its regions with their nodes and fallbacks, and its hub routes. */
module DocView {
  import opened Base
  import opened Schema
  import opened LineSplice
  import opened Outline
  import opened Editor
  import opened WellFormedEdits

  /** Tags of one kind, in file order. */
  function Tags(segs: seq<Seg>, kind: Kind): (out: seq<Tag>)
    ensures forall x :: 0 <= x < |out| ==> Is(kind, out[x])
  {
    if segs == [] then []
    else
      var t := segs[|segs| - 1].tag;
      Tags(segs[..|segs| - 1], kind) + if Is(kind, t) then [t] else []
  }

  lemma {:induction false} TagsAt(segs: seq<Seg>, kind: Kind)
    ensures |Tags(segs, kind)| == |Where(segs, kind)|
    ensures forall x :: 0 <= x < |Where(segs, kind)| ==> Tags(segs, kind)[x] == segs[Where(segs, kind)[x]].tag
  {
    if segs != [] { TagsAt(segs[..|segs| - 1], kind); }
  }

  lemma TagsSnoc(front: seq<Seg>, t: Seg, kind: Kind)
    ensures Tags(front + [t], kind) == Tags(front, kind) + if Is(kind, t.tag) then [t.tag] else []
  {
    assert (front + [t])[..|front|] == front;
  }

  lemma {:induction false} TagsConcat(a: seq<Seg>, b: seq<Seg>, kind: Kind)
    ensures Tags(a + b, kind) == Tags(a, kind) + Tags(b, kind)
  {
    if b == [] {
      assert a + b == a;
    } else {
      var front, t := b[..|b| - 1], b[|b| - 1];
      TagsConcat(a, front, kind);
      Regroup(a, front, [t]);
      TagsSnoc(front, t, kind);
      TagsSnoc(a + front, t, kind);
      Regroup(Tags(a, kind), Tags(front, kind), if Is(kind, t.tag) then [t.tag] else []);
      assert b == front + [t];
    }
  }

  lemma TagsOne(s: Seg, kind: Kind)
    ensures Tags([s], kind) == if Is(kind, s.tag) then [s.tag] else []
  {
    assert [s][..0] == [];
  }

  lemma TagsInsert(segs: seq<Seg>, p: nat, s: Seg, kind: Kind)
    requires p <= |segs|
    ensures Tags(InsertSegs(segs, p, [s]), kind) ==
            Tags(segs[..p], kind) + (if Is(kind, s.tag) then [s.tag] else []) + Tags(segs[p..], kind)
  {
    TagsConcat(segs[..p] + [s], segs[p..], kind);
    TagsConcat(segs[..p], [s], kind);
    TagsOne(s, kind);
  }

  /** A segment of another kind changes nothing. */
  lemma TagsOther(segs: seq<Seg>, p: nat, s: Seg, kind: Kind)
    requires p <= |segs| && !Is(kind, s.tag)
    ensures Tags(InsertSegs(segs, p, [s]), kind) == Tags(segs, kind)
  {
    TagsInsert(segs, p, s, kind);
    TagsSplit(segs, p, kind);
    assert Tags(segs[..p], kind) + [] == Tags(segs[..p], kind);
  }

  lemma TagsSplit(segs: seq<Seg>, p: nat, kind: Kind)
    requires p <= |segs|
    ensures Tags(segs, kind) == Tags(segs[..p], kind) + Tags(segs[p..], kind)
  {
    TagsConcat(segs[..p], segs[p..], kind);
    assert segs == segs[..p] + segs[p..];
  }

  lemma {:induction false} TagsKept(segs: seq<Seg>, dead: nat -> bool, kind: Kind)
    requires forall i: nat :: i < |segs| && dead(i) ==> !Is(kind, segs[i].tag)
    ensures Tags(Kept(segs, dead), kind) == Tags(segs, kind)
  {
    if segs != [] {
      var front, t := segs[..|segs| - 1], segs[|segs| - 1];
      TagsKept(front, dead, kind);
      KeptSnoc(segs, dead);
      TagsSnoc(Kept(front, dead), t, kind);
    }
  }

  lemma {:induction false} FirstTag(segs: seq<Seg>, kind: Kind)
    ensures First(segs, kind).None? <==> Tags(segs, kind) == []
    ensures First(segs, kind).Some? ==> Tags(segs, kind) != [] && Tags(segs, kind)[0] == segs[First(segs, kind).value].tag
  {
    if segs != [] { FirstTag(segs[..|segs| - 1], kind); }
  }

  /** Tags come from segments. */
  lemma {:induction false} TagSource(segs: seq<Seg>, kind: Kind, t: Tag) returns (i: nat)
    requires t in Tags(segs, kind)
    ensures i < |segs| && segs[i].tag == t && Is(kind, t)
  {
    var n := |segs| - 1;
    if t in Tags(segs[..n], kind) {
      i := TagSource(segs[..n], kind, t);
    } else {
      i := n;
    }
  }

  lemma {:induction false} TagListed(segs: seq<Seg>, kind: Kind, i: nat)
    requires i < |segs| && Is(kind, segs[i].tag)
    ensures segs[i].tag in Tags(segs, kind)
  {
    if i < |segs| - 1 { TagListed(segs[..|segs| - 1], kind, i); }
  }

  lemma {:induction false} KeptSource(segs: seq<Seg>, dead: nat -> bool, j: nat) returns (i: nat)
    requires j < |Kept(segs, dead)|
    ensures i < |segs| && !dead(i) && Kept(segs, dead)[j] == segs[i]
  {
    var n := |segs| - 1;
    KeptSnoc(segs, dead);
    if j < |Kept(segs[..n], dead)| {
      i := KeptSource(segs[..n], dead, j);
    } else {
      i := n;
    }
  }

  // Loading ---------------------------------------------------------------------------------

  function ItemNodes(ts: seq<Tag>): (out: seq<Node>)
    requires forall x :: 0 <= x < |ts| ==> ts[x].Item?
    ensures |out| == |ts| && forall x :: 0 <= x < |ts| ==> out[x] == ts[x].node
  {
    seq(|ts|, x requires 0 <= x < |ts| => ts[x].node)
  }

  function InlineNodes(inline: seq<(Option<string>, Node)>): (out: seq<Node>)
    ensures |out| == |inline| && forall x :: 0 <= x < |inline| ==> out[x] == inline[x].1
  {
    seq(|inline|, x requires 0 <= x < |inline| => inline[x].1)
  }

  /** The region a head stands for, with the nodes and the fallback found under it. */
  function RegionOf(segs: seq<Seg>, t: Tag): Region
    requires t.Head?
  {
    var nodes := InlineNodes(t.inline) + ItemNodes(Tags(segs, Items(t.r)));
    var fallbacks := Tags(segs, Fallbacks(t.r));
    match t.region
    case HubRegion(id, _, xhttp, cdn, reality, tls) => HubRegion(id, nodes, xhttp, cdn, reality, tls)
    case ExitRegion(id, _, xhttp, cdn, vless, protocol, hysteria, strategy, _, warp, routes) =>
      var fallback := if fallbacks == [] then None else fallbacks[0].name;
      ExitRegion(id, nodes, xhttp, cdn, vless, protocol, hysteria, strategy, fallback, warp, routes)
  }

  function RegionsOf(segs: seq<Seg>, heads: seq<Tag>): (out: seq<Region>)
    requires forall x :: 0 <= x < |heads| ==> heads[x].Head?
    ensures |out| == |heads| && forall x :: 0 <= x < |heads| ==> out[x] == RegionOf(segs, heads[x])
  {
    seq(|heads|, x requires 0 <= x < |heads| => RegionOf(segs, heads[x]))
  }

  function RoutesOf(ts: seq<Tag>): (out: seq<HubRoute>)
    requires forall x :: 0 <= x < |ts| ==> ts[x].Route?
    ensures |out| == |ts| && forall x :: 0 <= x < |ts| ==> out[x] == ts[x].route
  {
    seq(|ts|, x requires 0 <= x < |ts| => ts[x].route)
  }

  /** The config the file loads as, `rest` being everything the editor does not touch. */
  function Load(segs: seq<Seg>, rest: Config): Config {
    rest.(regions := RegionsOf(segs, Tags(segs, Heads)), hubRoutes := RoutesOf(Tags(segs, AllRoutes)))
  }

  /** The positions' ids are the loaded values' ids, as in every file that loads. */
  ghost predicate Loads(segs: seq<Seg>) {
    && (forall i :: 0 <= i < |segs| && segs[i].tag.Item? ==> segs[i].tag.id == Some(segs[i].tag.node.id))
    && (forall i :: 0 <= i < |segs| && segs[i].tag.Head? ==> segs[i].tag.id == Some(segs[i].tag.region.id))
    && (forall i :: 0 <= i < |segs| && segs[i].tag.Route? ==> segs[i].tag.destination == Some(segs[i].tag.route.destination))
  }
}
