/** The in-place topology editor: every edit of the lines is an edit of the document they spell. */
module Editor {
  import opened Base
  import opened Names
  import opened Schema
  import opened Text
  import opened TextLines
  import opened NaturalOrder
  import opened LineSplice
  import opened Outline

  const REGION_INDENT := "  "
  const NODE_INDENT := "      "

  datatype EditError =
    | AlreadyPresent(id: string) | NotPresent(id: string) | WrongType(id: string) | Uneditable(why: string)
    | NoNodesKey(id: string) | BadIndent(row: string) | NotADash(row: string)

  datatype AddEdit = AddEdit(text: string, created: bool, fallback: Option<string>)

  datatype RemoveEdit = RemoveEdit(text: string, emptied: bool, droppedRoutes: seq<string>, droppedFallback: bool)

  // Removal on the document -----------------------------------------------------------------

  ghost predicate IsRegionId(segs: seq<Seg>, id: Option<string>) {
    exists h :: 0 <= h < |segs| && segs[h].tag.Head? && segs[h].tag.id == id
  }

  /** Removing the node at segment `i` leaves region `k` without nodes. */
  predicate Empties(segs: seq<Seg>, k: nat) { |Where(segs, Items(k))| == 1 }

  ghost predicate IsIdOf(segs: seq<Seg>, k: nat, id: Option<string>) {
    k < |Where(segs, Heads)| && segs[Where(segs, Heads)[k]].tag.id == id
  }

  /** Routes to the emptied region dangle, and routes to the node unless a region owns its id. */
  ghost predicate Dangles(segs: seq<Seg>, k: nat, node: Option<string>, destination: Option<string>) {
    destination.Some? && (
      || (Empties(segs, k) && IsIdOf(segs, k, destination))
      || (destination == node && !IsRegionId(segs, destination)))
  }

  ghost predicate DeadRoute(segs: seq<Seg>, k: nat, node: Option<string>, j: nat) {
    j < |segs| && segs[j].tag.Route? && Dangles(segs, k, node, segs[j].tag.destination)
  }

  ghost predicate AllRoutesDead(segs: seq<Seg>, k: nat, node: Option<string>) {
    && (exists j :: DeadRoute(segs, k, node, j))
    && forall j :: 0 <= j < |segs| && segs[j].tag.Route? ==> DeadRoute(segs, k, node, j)
  }

  ghost predicate NamedFallback(segs: seq<Seg>, k: nat, node: Option<string>, j: nat) {
    j < |segs| && First(segs, Fallbacks(k)) == Some(j) && segs[j].tag.name == node
  }

  /** What removing the node at segment `i` of region `k` takes with it. */
  ghost predicate DeadSeg(segs: seq<Seg>, k: nat, i: nat, j: nat)
    requires i < |segs| && segs[i].tag.Item?
  {
    var node := segs[i].tag.id;
    || j == i
    || DeadRoute(segs, k, node, j)
    || (First(segs, RoutesKeys) == Some(j) && AllRoutesDead(segs, k, node))
    || NamedFallback(segs, k, node, j)
  }

  ghost function IsDead(segs: seq<Seg>, k: nat, i: nat): nat -> bool
    requires i < |segs| && segs[i].tag.Item?
  {
    (j: nat) => DeadSeg(segs, k, i, j)
  }

  /** The document without the node, dead routes, an emptied routes key and a fallback naming the node. */
  ghost function Removed(segs: seq<Seg>, k: nat, i: nat): seq<Seg>
    requires i < |segs| && segs[i].tag.Item?
  {
    Kept(segs, IsDead(segs, k, i))
  }

  ghost predicate DashedAt(segs: seq<Seg>, i: nat) { i < |segs| && StartsWithDash(segs[i]) }

  // Rows and segments -----------------------------------------------------------------------

  function SpanOf(segs: seq<Seg>, i: nat): Span
    requires i < |segs|
  {
    Span(Off(segs, i), Off(segs, i + 1))
  }

  /** `spans` are the lines of the distinct, non-empty segments `at`. */
  ghost predicate Marks(segs: seq<Seg>, at: seq<nat>, spans: seq<Span>) {
    && NoDup(at) && |at| == |spans|
    && forall m :: 0 <= m < |at| ==> at[m] < |segs| && segs[at[m]].rows != [] && spans[m] == SpanOf(segs, at[m])
  }

  lemma SpanApart(segs: seq<Seg>, i: nat, j: nat)
    requires i < |segs| && j < |segs| && i != j
    ensures Apart(SpanOf(segs, i), SpanOf(segs, j))
  {
    if i < j { OffMono(segs, i + 1, j); } else { OffMono(segs, j + 1, i); }
  }

  lemma SpanSize(segs: seq<Seg>, i: nat)
    requires i < |segs| && segs[i].rows != []
    ensures SpanOf(segs, i).start < SpanOf(segs, i).end <= |Flatten(segs)|
  {
    OffNext(segs, i);
    OffMono(segs, i + 1, |segs|);
    OffEnd(segs);
  }

  lemma {:induction false} SpansSeparate(segs: seq<Seg>, at: seq<nat>, spans: seq<Span>, k: nat)
    requires Marks(segs, at, spans) && k <= |at|
    ensures Separate(spans[k..], |Flatten(segs)|)
    decreases |at| - k
  {
    if k < |at| {
      SpansSeparate(segs, at, spans, k + 1);
      SpanSize(segs, at[k]);
      assert spans[k..][1..] == spans[k + 1..];
      forall t | t in spans[k + 1..] ensures Apart(spans[k], t) {
        var m :| k < m < |spans| && spans[m] == t;
        SpanApart(segs, at[k], at[m]);
      }
    }
  }

  lemma RowDead(segs: seq<Seg>, at: seq<nat>, spans: seq<Span>, i: nat, row: nat)
    requires Marks(segs, at, spans) && i < |segs| && Off(segs, i) <= row < Off(segs, i + 1)
    ensures InSpans(spans, row) ==> i in at
  {
    if InSpans(spans, row) {
      var s :| s in spans && s.start <= row < s.end;
      var m :| 0 <= m < |spans| && spans[m] == s;
      Ordered(segs, i, at[m], row);
    }
  }

  lemma DeadRow(segs: seq<Seg>, at: seq<nat>, spans: seq<Span>, i: nat, row: nat)
    requires Marks(segs, at, spans) && i in at && i < |segs| && Off(segs, i) <= row < Off(segs, i + 1)
    ensures InSpans(spans, row)
  {
    var m :| 0 <= m < |at| && at[m] == i;
    assert spans[m] in spans;
  }

  lemma KeptTake<T>(xs: seq<T>, n: nat, d: nat -> bool)
    requires 0 < n <= |xs|
    ensures Kept(xs[..n], d) == Kept(xs[..n - 1], d) + if d(n - 1) then [] else [xs[n - 1]]
  {
    assert xs[..n][..n - 1] == xs[..n - 1];
  }

  lemma FlattenTake(segs: seq<Seg>, n: nat)
    requires 0 < n <= |segs|
    ensures Flatten(segs[..n]) == Flatten(segs[..n - 1]) + segs[n - 1].rows
  {
    assert segs[..n][..n - 1] == segs[..n - 1];
  }

  ghost predicate SameFate(segs: seq<Seg>, i: nat, f: nat -> bool, d: nat -> bool)
    requires i < |segs|
  {
    forall row: nat :: Off(segs, i) <= row < Off(segs, i) + |segs[i].rows| ==> f(row) == d(i)
  }

  lemma KeptSeg(front: seq<string>, rows: seq<string>, f: nat -> bool, kept: seq<Seg>, s: Seg, dead: bool)
    requires Kept(front, f) == Flatten(kept) && s.rows == rows
    requires forall i: nat :: |front| <= i < |front| + |rows| ==> f(i) == dead
    ensures Kept(front + rows, f) == Flatten(kept + if dead then [] else [s])
  {
    KeptConcat(front, rows, f, dead);
    if dead { assert kept + [] == kept; } else { FlattenSnoc(kept, s); }
  }

  /** Dropping whole segments' rows drops the segments. */
  lemma {:induction false} KeptFlatten(segs: seq<Seg>, n: nat, f: nat -> bool, d: nat -> bool)
    requires n <= |segs| && forall i: nat :: i < n ==> SameFate(segs, i, f, d)
    ensures Kept(Flatten(segs[..n]), f) == Flatten(Kept(segs[..n], d))
  {
    if n > 0 {
      KeptFlatten(segs, n - 1, f, d);
      FlattenTake(segs, n);
      KeptTake(segs, n, d);
      assert SameFate(segs, n - 1, f, d);
      OffLength(segs, n - 1);
      KeptSeg(Flatten(segs[..n - 1]), segs[n - 1].rows, f, Kept(segs[..n - 1], d), segs[n - 1], d(n - 1));
    }
  }

  lemma FlattenSnoc(segs: seq<Seg>, s: Seg)
    ensures Flatten(segs + [s]) == Flatten(segs) + s.rows
  {
    assert (segs + [s])[..|segs|] == segs;
  }

  function InList(at: seq<nat>): nat -> bool { (i: nat) => i in at }

  /** Deleting the spans of some segments deletes exactly those segments. */
  lemma DeletedSegments(segs: seq<Seg>, at: seq<nat>, spans: seq<Span>)
    requires Marks(segs, at, spans)
    ensures Separate(spans, |Flatten(segs)|)
    ensures Kept(Flatten(segs), Dead(spans)) == Flatten(Kept(segs, InList(at)))
  {
    SpansSeparate(segs, at, spans, 0);
    assert spans[0..] == spans && segs[..|segs|] == segs;
    forall i: nat | i < |segs| ensures SameFate(segs, i, Dead(spans), InList(at)) {
      OffNext(segs, i);
      forall row: nat | Off(segs, i) <= row < Off(segs, i + 1) ensures Dead(spans)(row) == InList(at)(i) {
        RowDead(segs, at, spans, i, row);
        if i in at { DeadRow(segs, at, spans, i, row); }
      }
    }
    KeptFlatten(segs, |segs|, Dead(spans), InList(at));
  }

  // Insertion on the document ---------------------------------------------------------------

  function InsertSegs(segs: seq<Seg>, i: nat, more: seq<Seg>): seq<Seg>
    requires i <= |segs|
  {
    segs[..i] + more + segs[i..]
  }

  /** Inserting segments' rows at a segment boundary inserts the segments. */
  lemma InsertRows(segs: seq<Seg>, i: nat, more: seq<Seg>)
    requires i <= |segs|
    ensures Off(segs, i) <= |Flatten(segs)|
    ensures Flatten(segs)[..Off(segs, i)] + Flatten(more) + Flatten(segs)[Off(segs, i)..] == Flatten(InsertSegs(segs, i, more))
  {
    FlattenSplit(segs, i);
    FlattenConcat(segs[..i], more);
    FlattenConcat(segs[..i] + more, segs[i..]);
  }

  lemma FlattenOne(s: Seg)
    ensures Flatten([s]) == s.rows
  {
    FlattenSnoc([], s);
    assert [] + [s] == [s];
  }

  lemma OffBelow(segs: seq<Seg>, p: nat, more: seq<Seg>, q: nat)
    requires q <= p <= |segs|
    ensures q <= |InsertSegs(segs, p, more)| && Off(InsertSegs(segs, p, more), q) == Off(segs, q)
  {
    OffPrefix(InsertSegs(segs, p, more), segs, q);
  }

  /** A node to add, with its rendered lines. */
  datatype NewNode = NewNode(id: string, node: Node, rows: seq<string>)

  /** A region to create, with its rendered lines up to and including `nodes:`. */
  datatype NewRegion = NewRegion(id: string, kind: string, region: Region, head: seq<string>, key: string)

  predicate Earlier(t: Tag, id: string) { t.Item? && t.id.Some? && Before(t.id.value, id) }

  /** One past the last item whose id comes before `id`. */
  function Slot(segs: seq<Seg>, at: seq<nat>, id: string): (p: nat)
    ensures p <= |at|
  {
    if at == [] then 0
    else
      var n := |at| - 1;
      if at[n] < |segs| && Earlier(segs[at[n]].tag, id) then n + 1 else Slot(segs, at[..n], id)
  }

  /** A place for a node: after a sibling or the key. */
  ghost predicate IsPoint(segs: seq<Seg>, k: nat, p: nat) {
    0 < p <= |segs| && (Is(Items(k), segs[p - 1].tag) || First(segs, NodesKeys(k)) == Some(p - 1))
  }

  /** After item `m - 1` of region `k`, or right under `nodes:`. */
  ghost function PointAfter(segs: seq<Seg>, k: nat, m: nat): (p: nat)
    requires First(segs, NodesKeys(k)).Some? && m <= |Where(segs, Items(k))|
    ensures IsPoint(segs, k, p)
  {
    if m > 0 then Where(segs, Items(k))[m - 1] + 1 else First(segs, NodesKeys(k)).value + 1
  }

  /** Where the node goes: after the last earlier sibling, or right under `nodes:`. */
  ghost function InsertPoint(segs: seq<Seg>, k: nat, id: string): (p: nat)
    requires First(segs, NodesKeys(k)).Some?
    ensures IsPoint(segs, k, p)
  {
    PointAfter(segs, k, Slot(segs, Where(segs, Items(k)), id))
  }

  function WithoutFlow(t: Tag): Tag {
    match t
    case NodesKey(r, _) => NodesKey(r, None)
    case RegionsKey(_) => RegionsKey(None)
    case _ => t
  }

  /** The document with an empty `[]` after key `i` stripped. */
  function Bared(segs: seq<Seg>, i: nat): seq<Seg>
    requires i < |segs|
  {
    var s := segs[i];
    if FlowOf(s.tag).None? || s.rows == [] then segs
    else segs[i := Seg(WithoutFlow(s.tag), s.rows[0 := StripFlowRow(s.rows[0], FlowOf(s.tag).value.0, FlowOf(s.tag).value.1)])]
  }

  lemma {:induction false} UpdateOff(segs: seq<Seg>, i: nat, s: Seg, q: nat)
    requires i < |segs| && q <= |segs| && |s.rows| == |segs[i].rows|
    ensures Off(segs[i := s], q) == Off(segs, q)
  {
    if q > 0 { UpdateOff(segs, i, s, q - 1); }
  }

  lemma {:induction false} UpdateRows(segs: seq<Seg>, i: nat, s: Seg)
    requires i < |segs| && |s.rows| == |segs[i].rows| == 1
    ensures Off(segs, i) < |Flatten(segs)| && Flatten(segs[i := s]) == Flatten(segs)[Off(segs, i) := s.rows[0]]
  {
    RowAt(segs, i, 0);
    var n := |segs| - 1;
    OffEnd(segs[..n]);
    OffPrefix(segs, segs[..n], n);
    if i < n {
      UpdateRows(segs[..n], i, s);
      OffPrefix(segs, segs[..n], i);
      assert segs[i := s][..n] == segs[..n][i := s];
    } else {
      assert segs[i := s][..n] == segs[..n];
    }
  }

  function FirstPrimaryFrom(segs: seq<Seg>, at: seq<nat>, m: nat): (out: Option<nat>)
    requires m <= |at|
    ensures out.Some? ==> m <= out.value < |at|
    decreases |at| - m
  {
    if m == |at| then None
    else if at[m] < |segs| && segs[at[m]].tag.Item? && !segs[at[m]].tag.node.backup then Some(m)
    else FirstPrimaryFrom(segs, at, m + 1)
  }

  /** Node of region `k` that leads it now: its first primary, else its first. */
  ghost function LeadIndex(segs: seq<Seg>, k: nat): (i: nat)
    requires Where(segs, Items(k)) != []
    ensures i < |segs| && Is(Items(k), segs[i].tag)
  {
    var at := Where(segs, Items(k));
    var p := FirstPrimaryFrom(segs, at, 0);
    at[if p.Some? then p.value else 0]
  }

  /** Name to pin as fallback: a balanced region with nodes and no `lb_fallback:` key gets its lead's. */
  ghost function PinName(segs: seq<Seg>, k: nat): Option<string> {
    if First(segs, Strategies(k)).None? || First(segs, Fallbacks(k)).Some? || Where(segs, Items(k)) == [] then None
    else segs[LeadIndex(segs, k)].tag.id
  }

  /** Rendered key of a pinned fallback; quoting of the scalar is left to the caller. */
  function PinRow(quoted: string): string { REGION_INDENT + "  lb_fallback: " + quoted }

  function ItemSeg(k: nat, n: NewNode): Seg { Seg(Item(k, Some(n.id), n.node), n.rows) }

  function PinSeg(k: nat, name: string, quote: string -> string): Seg {
    Seg(Fallback(k, Some(name)), [PinRow(quote(name))])
  }

  /** Two insertions, the lower place first. */
  function InsertBoth(segs: seq<Seg>, p: nat, item: Seg, q: nat, pin: Seg): seq<Seg>
    requires p <= |segs| && q <= |segs|
  {
    if q > p then InsertSegs(InsertSegs(segs, q, [pin]), p, [item]) else InsertSegs(InsertSegs(segs, p, [item]), q, [pin])
  }

  /** The document with a node added to region `k` at segment `p`. */
  ghost function AddedAt(segs: seq<Seg>, k: nat, p: nat, n: NewNode, quote: string -> string): seq<Seg>
    requires First(segs, NodesKeys(k)).Some? && p <= |segs|
  {
    var base, pin := Bared(segs, First(segs, NodesKeys(k)).value), PinName(segs, k);
    if pin.None? then InsertSegs(base, p, [ItemSeg(k, n)])
    else InsertBoth(base, p, ItemSeg(k, n), First(segs, Strategies(k)).value + 1, PinSeg(k, pin.value, quote))
  }

  ghost function AddedTo(segs: seq<Seg>, k: nat, n: NewNode, quote: string -> string): seq<Seg>
    requires First(segs, NodesKeys(k)).Some?
  {
    AddedAt(segs, k, InsertPoint(segs, k, n.id), n, quote)
  }

  function RegionSegs(k: nat, region: NewRegion, n: NewNode): seq<Seg> {
    [Seg(Head(k, Some(region.id), Some(region.kind), None, [], region.region), region.head),
     Seg(NodesKey(k, None), [region.key]),
     Seg(Item(k, Some(n.id), n.node), n.rows)]
  }

  /** The document with its first region created right under `regions:`. */
  ghost function CreatedFirst(segs: seq<Seg>, key: nat, region: NewRegion, n: NewNode): seq<Seg>
    requires key < |segs|
  {
    InsertSegs(Bared(segs, key), key + 1, RegionSegs(0, region, n))
  }

  /** The document with a region created after segment `last`, the last region's last. */
  ghost function CreatedAfter(segs: seq<Seg>, last: nat, region: NewRegion, n: NewNode): seq<Seg>
    requires last < |segs|
  {
    InsertSegs(segs, last + 1, [Seg(Trivia, [""])] + RegionSegs(|Where(segs, Heads)|, region, n))
  }
}
