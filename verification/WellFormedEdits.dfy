/** Edits of a well-formed document give well-formed documents, so runs of edits stay in the model. */
module WellFormedEdits {
  import opened Base
  import opened Schema
  import opened Text
  import opened LineSplice
  import opened Outline
  import opened Editor
  import opened EditFacts

  // Inserting one segment -------------------------------------------------------------------

  /** `t` may stand below `s`: it repeats nothing of which there is one. */
  ghost predicate Compatible(s: Seg, t: Seg) {
    && (s.tag.Head? ==> !t.tag.Head?)
    && (s.tag.NodesKey? ==> !Is(NodesKeys(s.tag.r), t.tag) && !Is(Items(s.tag.r), t.tag))
    && (s.tag.Fallback? ==> !Is(Fallbacks(s.tag.r), t.tag))
    && (s.tag.Strategy? ==> !Is(Strategies(s.tag.r), t.tag))
  }

  ghost predicate Unrepeated(s: Seg, segs: seq<Seg>, p: nat) {
    forall j :: p <= j < |segs| ==> Compatible(s, segs[j])
  }

  function Shift(i: nat, p: nat): nat { if i < p then i else i + 1 }

  lemma ShiftAt(segs: seq<Seg>, p: nat, s: Seg, i: nat)
    requires p <= |segs| && i < |segs|
    ensures Shift(i, p) < |InsertSegs(segs, p, [s])| && Shift(i, p) != p && InsertSegs(segs, p, [s])[Shift(i, p)] == segs[i]
  {
  }

  lemma Unshift(segs: seq<Seg>, p: nat, s: Seg, j: nat) returns (i: nat)
    requires p <= |segs| && j <= |segs| && j != p
    ensures i < |segs| && j == Shift(i, p) && InsertSegs(segs, p, [s])[j] == segs[i]
  {
    i := if j < p then j else j - 1;
  }

  lemma InsertSnoc(front: seq<Seg>, t: Seg, p: nat, s: Seg)
    requires p <= |front|
    ensures InsertSegs(front + [t], p, [s]) == InsertSegs(front, p, [s]) + [t]
  {
  }

  lemma FirstSnoc(front: seq<Seg>, t: Seg, kind: Kind)
    ensures First(front + [t], kind) == Or(First(front, kind), if Is(kind, t.tag) then Some(|front|) else None)
  {
    assert (front + [t])[..|front|] == front;
  }

  lemma WhereSnoc(front: seq<Seg>, t: Seg, kind: Kind)
    ensures Where(front + [t], kind) == Where(front, kind) + if Is(kind, t.tag) then [|front|] else []
  {
    assert (front + [t])[..|front|] == front;
  }

  lemma SnocKinds(front: seq<Seg>, t: Seg, kind: Kind)
    ensures Where(front + [t], kind) == Where(front, kind) + if Is(kind, t.tag) then [|front|] else []
    ensures First(front + [t], kind) == Or(First(front, kind), if Is(kind, t.tag) then Some(|front|) else None)
  {
    WhereSnoc(front, t, kind);
    FirstSnoc(front, t, kind);
  }

  lemma {:induction false} WhereInsert(segs: seq<Seg>, p: nat, s: Seg, kind: Kind)
    requires p <= |segs|
    ensures |Where(InsertSegs(segs, p, [s]), kind)| == |Where(segs, kind)| + if Is(kind, s.tag) then 1 else 0
    decreases |segs| - p
  {
    if p == |segs| {
      AtEnd(segs, s);
      WhereSnoc(segs, s, kind);
    } else {
      var front, t := segs[..|segs| - 1], segs[|segs| - 1];
      WhereInsert(front, p, s, kind);
      assert segs == front + [t];
      InsertSnoc(front, t, p, s);
      WhereSnoc(front, t, kind);
      WhereSnoc(InsertSegs(front, p, [s]), t, kind);
    }
  }

  lemma AtEnd(segs: seq<Seg>, s: Seg)
    ensures var all := InsertSegs(segs, |segs|, [s]); all == segs + [s] && all[..|all| - 1] == segs && all[|all| - 1] == s
  {
  }

  /** An index after an insertion at `p`. */
  function Moved(i: Option<nat>, p: nat): Option<nat> {
    if i.None? then None else Some(if i.value < p then i.value else i.value + 1)
  }

  /** `all` is `segs` with one more segment, at `p`. */
  ghost predicate Shifted(segs: seq<Seg>, all: seq<Seg>, p: nat) {
    && |all| == |segs| + 1 && p <= |segs|
    && (forall i: nat :: i < |segs| && i < p ==> all[i] == segs[i])
    && (forall j: nat :: p < j < |all| ==> all[j] == segs[j - 1])
  }

  lemma LeastShifted(segs: seq<Seg>, all: seq<Seg>, p: nat, kind: Kind, i: nat)
    requires Shifted(segs, all, p) && i < |segs| && Is(kind, segs[i].tag)
    ensures First(all, kind).Some? && First(all, kind).value <= Shift(i, p)
  {
    if i >= p { assert all[i + 1] == segs[i + 1 - 1]; }
    FirstIs(all, kind, Shift(i, p));
  }

  lemma LeastUnshifted(segs: seq<Seg>, all: seq<Seg>, p: nat, kind: Kind, j: nat) returns (i: nat)
    requires Shifted(segs, all, p) && j < |all| && j != p && Is(kind, all[j].tag)
    ensures i < |segs| && j == Shift(i, p) && Is(kind, segs[i].tag) && First(segs, kind).Some? && First(segs, kind).value <= i
  {
    i := if j < p then j else j - 1;
    FirstIs(segs, kind, i);
  }

  lemma FirstShifted(segs: seq<Seg>, all: seq<Seg>, p: nat, kind: Kind)
    requires Shifted(segs, all, p) && !Is(kind, all[p].tag)
    ensures First(all, kind) == Moved(First(segs, kind), p)
  {
    if First(segs, kind).Some? { LeastShifted(segs, all, p, kind, First(segs, kind).value); }
    if First(all, kind).Some? {
      var i := LeastUnshifted(segs, all, p, kind, First(all, kind).value);
    }
  }

  lemma FirstInsert(segs: seq<Seg>, p: nat, s: Seg, kind: Kind)
    requires p <= |segs| && !Is(kind, s.tag)
    ensures First(InsertSegs(segs, p, [s]), kind) == Moved(First(segs, kind), p)
  {
    FirstShifted(segs, InsertSegs(segs, p, [s]), p, kind);
  }

  /** A kind present stays present. */
  lemma StillThere(segs: seq<Seg>, p: nat, s: Seg, kind: Kind)
    requires p <= |segs| && First(segs, kind).Some?
    ensures First(InsertSegs(segs, p, [s]), kind).Some?
  {
    var i := First(segs, kind).value;
    var j := if i < p then i else i + 1;
    assert InsertSegs(segs, p, [s])[j] == segs[i];
    FirstIs(InsertSegs(segs, p, [s]), kind, j);
  }

  lemma OpenInsert(segs: seq<Seg>, p: nat, s: Seg)
    requires p <= |segs| && !(s.tag.Head? && s.rows == [])
    ensures EndsOpen(InsertSegs(segs, p, [s])) ==> EndsOpen(segs) && segs != [] && InsertSegs(segs, p, [s])[|segs|] == segs[|segs| - 1]
  {
  }

  /** Fitting depends on little of what stands above. */
  lemma FitsLike(a: seq<Seg>, b: seq<Seg>, t: Seg)
    requires Fits(a, t)
    requires EndsOpen(b) ==> EndsOpen(a) && b[|b| - 1].tag.r == a[|a| - 1].tag.r
    requires |Where(b, Heads)| == |Where(a, Heads)| || (!t.tag.Head? && |Where(b, Heads)| > |Where(a, Heads)|)
    requires t.tag.Item? ==> KeyAbove(b, t.tag.r)
    requires t.tag.NodesKey? ==> First(b, NodesKeys(t.tag.r)).None?
    requires t.tag.Fallback? ==> First(b, Fallbacks(t.tag.r)).None?
    requires t.tag.Strategy? ==> First(b, Strategies(t.tag.r)).None?
    requires t.tag.Route? ==> First(b, RoutesKeys).Some?
    ensures Fits(b, t)
  {
  }

  lemma KeyStaysAbove(front: seq<Seg>, p: nat, s: Seg, r: nat)
    requires p <= |front| && KeyAbove(front, r) && !Is(NodesKeys(r), s.tag)
    ensures KeyAbove(InsertSegs(front, p, [s]), r)
  {
    FirstInsert(front, p, s, NodesKeys(r));
  }

  /** One later segment still fits when `s` stands above it. */
  lemma FitsAfter(front: seq<Seg>, p: nat, s: Seg, t: Seg)
    requires p <= |front| && Fits(front, t) && !(s.tag.Head? && s.rows == [])
    requires Compatible(s, t)
    ensures Fits(InsertSegs(front, p, [s]), t)
  {
    WhereInsert(front, p, s, Heads);
    OpenInsert(front, p, s);
    match t.tag {
      case Item(r, _, _) => KeyStaysAbove(front, p, s, r);
      case NodesKey(r, _) => FirstInsert(front, p, s, NodesKeys(r));
      case Fallback(r, _) => FirstInsert(front, p, s, Fallbacks(r));
      case Strategy(r) => FirstInsert(front, p, s, Strategies(r));
      case Route(_, _) => StillThere(front, p, s, RoutesKeys);
      case _ =>
    }
    FitsLike(front, InsertSegs(front, p, [s]), t);
  }

  lemma {:induction false} InsertFits(segs: seq<Seg>, p: nat, s: Seg)
    requires FitsAll(segs) && p <= |segs| && Fits(segs[..p], s) && !(s.tag.Head? && s.rows == [])
    requires Unrepeated(s, segs, p)
    ensures FitsAll(InsertSegs(segs, p, [s]))
    decreases |segs| - p
  {
    if p == |segs| {
      AtEnd(segs, s);
      assert segs[..p] == segs;
      FitsMore(segs, s);
    } else {
      var front, t := segs[..|segs| - 1], segs[|segs| - 1];
      assert front[..p] == segs[..p] && segs == front + [t];
      assert Compatible(s, segs[|front|]);
      InsertFits(front, p, s);
      FitsAfter(front, p, s, t);
      InsertSnoc(front, t, p, s);
      FitsMore(InsertSegs(front, p, [s]), t);
    }
  }

  lemma InsertWellFormed(segs: seq<Seg>, p: nat, s: Seg)
    requires WellFormed(segs) && p <= |segs| && Fits(segs[..p], s) && !(s.tag.Head? && s.rows == [])
    requires Unrepeated(s, segs, p)
    ensures WellFormed(InsertSegs(segs, p, [s]))
  {
    InsertFits(segs, p, s);
    OpenInsert(segs, p, s);
    StillThere(segs, p, s, RegionsKeys);
  }

  // Stripping `[]` --------------------------------------------------------------------------

  lemma TakeSnoc(segs: seq<Seg>, n: nat)
    requires 0 < n <= |segs|
    ensures segs[..n] == segs[..n - 1] + [segs[n - 1]]
  {
  }

  lemma {:induction false} SameKinds(a: seq<Seg>, b: seq<Seg>, kind: Kind)
    requires |a| == |b| && forall j :: 0 <= j < |a| ==> Is(kind, a[j].tag) == Is(kind, b[j].tag)
    ensures Where(a, kind) == Where(b, kind) && First(a, kind) == First(b, kind)
  {
    if a != [] { SameKinds(a[..|a| - 1], b[..|b| - 1], kind); }
  }

  lemma UpdateKinds(segs: seq<Seg>, i: nat, s: Seg, kind: Kind, n: nat)
    requires i < |segs| && n <= |segs| && s.tag == WithoutFlow(segs[i].tag)
    ensures Where(segs[i := s][..n], kind) == Where(segs[..n], kind) && First(segs[i := s][..n], kind) == First(segs[..n], kind)
  {
    SameKinds(segs[i := s][..n], segs[..n], kind);
  }

  /** The same key, with nothing after it. */
  ghost predicate SameKey(s: Seg, t: Seg) { s.tag == WithoutFlow(t.tag) && (t.tag.NodesKey? || t.tag.RegionsKey?) }

  lemma UpdateOpen(segs: seq<Seg>, i: nat, s: Seg, n: nat)
    requires i < n <= |segs| && SameKey(s, segs[i])
    ensures EndsOpen(segs[i := s][..n]) ==> EndsOpen(segs[..n]) && segs[i := s][..n][n - 1] == segs[..n][n - 1]
  {
  }

  lemma UpdateKeyAbove(segs: seq<Seg>, i: nat, s: Seg, n: nat, r: nat)
    requires i < n <= |segs| && SameKey(s, segs[i]) && KeyAbove(segs[..n], r)
    ensures KeyAbove(segs[i := s][..n], r)
  {
    UpdateKinds(segs, i, s, NodesKeys(r), n);
  }

  /** `b` has every kind where `a` has it, and no `[]` that `a` lacks. */
  ghost predicate SameShape(a: seq<Seg>, b: seq<Seg>) {
    && (forall kind: Kind :: Where(b, kind) == Where(a, kind) && First(b, kind) == First(a, kind))
    && (forall r: nat :: KeyAbove(a, r) ==> KeyAbove(b, r))
    && (EndsOpen(b) ==> EndsOpen(a) && b[|b| - 1].tag.r == a[|a| - 1].tag.r)
  }

  lemma ShapeFits(a: seq<Seg>, b: seq<Seg>, t: Seg)
    requires Fits(a, t) && SameShape(a, b)
    ensures Fits(b, t)
  {
    FitsLike(a, b, t);
  }

  lemma UpdateShape(segs: seq<Seg>, i: nat, s: Seg, n: nat)
    requires i < n <= |segs| && SameKey(s, segs[i])
    ensures SameShape(segs[..n], segs[i := s][..n])
  {
    forall kind: Kind
      ensures Where(segs[i := s][..n], kind) == Where(segs[..n], kind) && First(segs[i := s][..n], kind) == First(segs[..n], kind)
    {
      UpdateKinds(segs, i, s, kind, n);
    }
    forall r: nat | KeyAbove(segs[..n], r) ensures KeyAbove(segs[i := s][..n], r) { UpdateKeyAbove(segs, i, s, n, r); }
    UpdateOpen(segs, i, s, n);
  }

  lemma UpdateFits(segs: seq<Seg>, i: nat, s: Seg, n: nat)
    requires FitsAll(segs) && i < n < |segs| && SameKey(s, segs[i])
    ensures Fits(segs[i := s][..n], segs[n])
  {
    FitsAt(segs, n);
    UpdateShape(segs, i, s, n);
    ShapeFits(segs[..n], segs[i := s][..n], segs[n]);
  }

  lemma {:induction false} UpdateFitsAll(segs: seq<Seg>, i: nat, s: Seg, n: nat)
    requires FitsAll(segs) && i < |segs| && n <= |segs| && SameKey(s, segs[i]) && Fits(segs[..i], s)
    ensures FitsAll(segs[i := s][..n])
  {
    if n > 0 {
      var all := segs[i := s];
      UpdateFitsAll(segs, i, s, n - 1);
      assert all[..n][..n - 1] == all[..n - 1];
      UpdateFitsOne(segs, i, s, n - 1);
    }
  }

  lemma UpdateFitsOne(segs: seq<Seg>, i: nat, s: Seg, n: nat)
    requires FitsAll(segs) && i < |segs| && n < |segs| && SameKey(s, segs[i]) && Fits(segs[..i], s)
    ensures Fits(segs[i := s][..n], segs[i := s][n])
  {
    if n <= i {
      FitsAt(segs, n);
      assert segs[i := s][..n] == segs[..n];
    } else {
      UpdateFits(segs, i, s, n);
    }
  }

  lemma UpdateWellFormed(segs: seq<Seg>, i: nat, s: Seg)
    requires WellFormed(segs) && i < |segs| && SameKey(s, segs[i]) && Fits(segs[..i], s)
    ensures WellFormed(segs[i := s])
  {
    UpdateFitsAll(segs, i, s, |segs|);
    UpdateKinds(segs, i, s, RegionsKeys, |segs|);
    assert segs[i := s][..|segs|] == segs[i := s] && segs[..|segs|] == segs;
  }

  /** Stripping an empty `[]` keeps the document well-formed. */
  lemma BaredWellFormed(segs: seq<Seg>, i: nat)
    requires WellFormed(segs) && i < |segs|
    ensures WellFormed(Bared(segs, i))
  {
    if FlowOf(segs[i].tag).Some? && segs[i].rows != [] {
      FitsAt(segs, i);
      var flow := FlowOf(segs[i].tag).value;
      UpdateWellFormed(segs, i, Seg(WithoutFlow(segs[i].tag), segs[i].rows[0 := StripFlowRow(segs[i].rows[0], flow.0, flow.1)]));
    }
  }

  // Added nodes -----------------------------------------------------------------------------

  /** Rendered lines of a new node: its last one is content. */
  ghost predicate NodeText(n: NewNode) { n.rows != [] && !IsTrivia(n.rows[|n.rows| - 1]) }

  lemma OwnerHead(segs: seq<Seg>, i: nat)
    requires FitsAll(segs) && i < |segs| && Owner(segs[i].tag).Some?
    ensures Owner(segs[i].tag).value < |Where(segs[..i + 1], Heads)|
  {
    FitsAt(segs, i);
    assert segs[..i + 1][..i] == segs[..i];
  }

  /** After an item or its key, with the region's head and key above, another item fits. */
  lemma ItemFits(segs: seq<Seg>, k: nat, p: nat, n: NewNode)
    requires FitsAll(segs) && IsPoint(segs, k, p) && NodeText(n)
    requires First(segs, NodesKeys(k)).Some? && segs[First(segs, NodesKeys(k)).value].tag.flow.None?
    ensures Fits(segs[..p], ItemSeg(k, n))
  {
    var t := segs[p - 1].tag;
    OwnerHead(segs, p - 1);
    if t.Item? {
      ItemKey(segs, p - 1);
    }
    var key := First(segs, NodesKeys(k)).value;
    FirstOfPrefix(segs, NodesKeys(k), p);
    assert segs[..p][p - 1] == segs[p - 1];
  }

  lemma {:induction false} FirstOfPrefix(segs: seq<Seg>, kind: Kind, p: nat)
    requires First(segs, kind).Some? && First(segs, kind).value < p <= |segs|
    ensures First(segs[..p], kind) == First(segs, kind)
    decreases |segs|
  {
    if p == |segs| {
      assert segs[..p] == segs;
    } else {
      var front := segs[..|segs| - 1];
      assert front[..p] == segs[..p];
      FirstOfPrefix(front, kind, p);
    }
  }

  lemma NoneInTail(segs: seq<Seg>, kind: Kind, p: nat)
    requires p <= |segs| && First(segs, kind).None?
    ensures forall j :: p <= j < |segs| ==> !Is(kind, segs[j].tag)
  {
    forall j: nat | p <= j < |segs| ensures !Is(kind, segs[j].tag) {
      if Is(kind, segs[j].tag) { FirstIs(segs, kind, j); }
    }
  }

  /** After the strategy, a fallback of the same region fits, when there is none. */
  lemma PinFits(segs: seq<Seg>, k: nat, name: string, quote: string -> string)
    requires FitsAll(segs) && First(segs, Strategies(k)).Some? && First(segs, Fallbacks(k)).None?
    requires !IsTrivia(PinRow(quote(name)))
    ensures var q := First(segs, Strategies(k)).value + 1;
            Fits(segs[..q], PinSeg(k, name, quote)) && Unrepeated(PinSeg(k, name, quote), segs, q)
  {
    var q := First(segs, Strategies(k)).value + 1;
    OwnerHead(segs, q - 1);
    NoneInTail(segs, Fallbacks(k), q);
    NoneInPrefix(segs, Fallbacks(k), q);
    FallbackFits(segs[..q], segs[q - 1], PinSeg(k, name, quote), k);
  }

  /** Below a segment of the region other than its head. */
  lemma FallbackFits(front: seq<Seg>, above: Seg, f: Seg, k: nat)
    requires front != [] && front[|front| - 1] == above && !above.tag.Head?
    requires k < |Where(front, Heads)| && First(front, Fallbacks(k)).None? && RowsOk(f) && Is(Fallbacks(k), f.tag)
    ensures Fits(front, f)
  {
  }

  lemma NoneInPrefix(segs: seq<Seg>, kind: Kind, p: nat)
    requires p <= |segs| && First(segs, kind).None?
    ensures First(segs[..p], kind).None?
  {
    if First(segs[..p], kind).Some? { FirstIs(segs, kind, First(segs[..p], kind).value); }
  }

  lemma AddItem(segs: seq<Seg>, k: nat, p: nat, n: NewNode)
    requires WellFormed(segs) && IsPoint(segs, k, p) && NodeText(n) && KeyAbove(segs, k)
    ensures WellFormed(InsertSegs(segs, p, [ItemSeg(k, n)]))
  {
    ItemFits(segs, k, p, n);
    InsertWellFormed(segs, p, ItemSeg(k, n));
  }

  lemma AddPin(segs: seq<Seg>, k: nat, q: nat, name: string, quote: string -> string)
    requires WellFormed(segs) && First(segs, Strategies(k)) == Some(q - 1) && First(segs, Fallbacks(k)).None? && q <= |segs|
    requires !IsTrivia(PinRow(quote(name)))
    ensures WellFormed(InsertSegs(segs, q, [PinSeg(k, name, quote)]))
  {
    PinFits(segs, k, name, quote);
    InsertWellFormed(segs, q, PinSeg(k, name, quote));
  }

  lemma PinThenItem(segs: seq<Seg>, k: nat, p: nat, n: NewNode, q: nat, name: string, quote: string -> string)
    requires WellFormed(segs) && IsPoint(segs, k, p) && NodeText(n) && KeyAbove(segs, k)
    requires First(segs, Strategies(k)) == Some(q - 1) && First(segs, Fallbacks(k)).None? && p < q <= |segs|
    requires !IsTrivia(PinRow(quote(name)))
    ensures WellFormed(InsertSegs(InsertSegs(segs, q, [PinSeg(k, name, quote)]), p, [ItemSeg(k, n)]))
  {
    var pin := PinSeg(k, name, quote);
    AddPin(segs, k, q, name, quote);
    FirstInsert(segs, q, pin, NodesKeys(k));
    KeyStaysAbove(segs, q, pin, k);
    AddItem(InsertSegs(segs, q, [pin]), k, p, n);
  }

  lemma ItemThenPin(segs: seq<Seg>, k: nat, p: nat, n: NewNode, q: nat, name: string, quote: string -> string)
    requires WellFormed(segs) && IsPoint(segs, k, p) && NodeText(n) && KeyAbove(segs, k)
    requires First(segs, Strategies(k)) == Some(q - 1) && First(segs, Fallbacks(k)).None? && q < p
    requires !IsTrivia(PinRow(quote(name)))
    ensures WellFormed(InsertSegs(InsertSegs(segs, p, [ItemSeg(k, n)]), q, [PinSeg(k, name, quote)]))
  {
    var item := ItemSeg(k, n);
    AddItem(segs, k, p, n);
    FirstInsert(segs, p, item, Strategies(k));
    FirstInsert(segs, p, item, Fallbacks(k));
    AddPin(InsertSegs(segs, p, [item]), k, q, name, quote);
  }

  lemma BaredFirst(segs: seq<Seg>, i: nat, kind: Kind)
    requires i < |segs|
    ensures |Bared(segs, i)| == |segs| && First(Bared(segs, i), kind) == First(segs, kind) && Where(Bared(segs, i), kind) == Where(segs, kind)
  {
    if FlowOf(segs[i].tag).Some? && segs[i].rows != [] {
      var s := Bared(segs, i)[i];
      UpdateKinds(segs, i, s, kind, |segs|);
      assert segs[i := s][..|segs|] == segs[i := s] && segs[..|segs|] == segs;
    }
  }

  lemma BaredPoint(segs: seq<Seg>, k: nat, p: nat)
    requires WellFormed(segs) && First(segs, NodesKeys(k)).Some? && IsPoint(segs, k, p)
    ensures var base := BareRegion(segs, k); IsPoint(base, k, p) && KeyAbove(base, k)
  {
    var key := First(segs, NodesKeys(k)).value;
    BaredFirst(segs, key, NodesKeys(k));
    KeyRows(segs, key);
  }

  lemma AddedPinned(segs: seq<Seg>, k: nat, p: nat, n: NewNode, name: string, quote: string -> string)
    requires WellFormed(segs) && First(segs, NodesKeys(k)).Some? && IsPoint(segs, k, p) && NodeText(n)
    requires PinName(segs, k) == Some(name) && !IsTrivia(PinRow(quote(name)))
    ensures WellFormed(AddedAt(segs, k, p, n, quote))
  {
    var key, q := First(segs, NodesKeys(k)).value, First(segs, Strategies(k)).value + 1;
    BaredWellFormed(segs, key);
    BaredPoint(segs, k, p);
    BaredFirst(segs, key, Strategies(k));
    BaredFirst(segs, key, Fallbacks(k));
    PinApart(segs, k, p);
    AddedBoth(segs, k, p, n, name, quote);
    if q > p {
      PinThenItem(BareRegion(segs, k), k, p, n, q, name, quote);
    } else {
      ItemThenPin(BareRegion(segs, k), k, p, n, q, name, quote);
    }
  }

  /** Adding a node keeps the document well-formed. */
  lemma AddedWellFormed(segs: seq<Seg>, k: nat, p: nat, n: NewNode, quote: string -> string)
    requires WellFormed(segs) && First(segs, NodesKeys(k)).Some? && IsPoint(segs, k, p) && NodeText(n)
    requires PinName(segs, k).Some? ==> !IsTrivia(PinRow(quote(PinName(segs, k).value)))
    ensures WellFormed(AddedAt(segs, k, p, n, quote))
  {
    if PinName(segs, k).None? {
      var key := First(segs, NodesKeys(k)).value;
      BaredWellFormed(segs, key);
      BaredPoint(segs, k, p);
      AddItem(Bared(segs, key), k, p, n);
    } else {
      AddedPinned(segs, k, p, n, PinName(segs, k).value, quote);
    }
  }

  // Created regions -------------------------------------------------------------------------

  ghost predicate RegionText(region: NewRegion) {
    && region.head != [] && !IsTrivia(region.head[|region.head| - 1]) && IsDash(StripLeft(region.head[0]), "")
    && !IsTrivia(region.key)
  }

  lemma InsertCons(segs: seq<Seg>, p: nat, s: Seg, more: seq<Seg>)
    requires p <= |segs|
    ensures InsertSegs(segs, p, [s] + more) == InsertSegs(InsertSegs(segs, p, [s]), p + 1, more)
    ensures InsertSegs(segs, p, [s])[..p + 1] == segs[..p] + [s]
  {
  }

  ghost predicate Insertable(more: seq<Seg>, segs: seq<Seg>, p: nat) {
    forall x :: 0 <= x < |more| ==> Unrepeated(more[x], segs, p) && !(more[x].tag.Head? && more[x].rows == [])
  }

  lemma FirstFits(front: seq<Seg>, more: seq<Seg>)
    requires FitsAll(front + more) && more != []
    ensures Fits(front, more[0]) && front + more == (front + [more[0]]) + more[1..]
  {
    FitsAt(front + more, |front|);
    TakeFront(front, more);
  }

  lemma TakeFront<T>(front: seq<T>, more: seq<T>)
    requires more != []
    ensures (front + more)[..|front|] == front && (front + more)[|front|] == more[0]
    ensures front + more == (front + [more[0]]) + more[1..]
  {
  }

  lemma BelowInserted(more: Seg, segs: seq<Seg>, p: nat, s: Seg)
    requires p <= |segs| && Unrepeated(more, segs, p)
    ensures Unrepeated(more, InsertSegs(segs, p, [s]), p + 1)
  {
    var all := InsertSegs(segs, p, [s]);
    forall j | p + 1 <= j < |all| ensures Compatible(more, all[j]) {
      assert all[j] == segs[j - 1];
      assert Compatible(more, segs[j - 1]);
    }
  }

  lemma InsertableRest(more: seq<Seg>, segs: seq<Seg>, p: nat)
    requires p <= |segs| && Insertable(more, segs, p) && more != []
    ensures Insertable(more[1..], InsertSegs(segs, p, [more[0]]), p + 1) && more == [more[0]] + more[1..]
  {
    var all := InsertSegs(segs, p, [more[0]]);
    forall x | 0 <= x < |more[1..]| ensures Unrepeated(more[1..][x], all, p + 1) && !(more[1..][x].tag.Head? && more[1..][x].rows == []) {
      assert Unrepeated(more[x + 1], segs, p);
      BelowInserted(more[x + 1], segs, p, more[0]);
    }
  }

  /** Inserting a run of segments that fits what stands above it. */
  lemma {:induction false} InsertRun(segs: seq<Seg>, p: nat, more: seq<Seg>)
    requires WellFormed(segs) && p <= |segs| && FitsAll(segs[..p] + more) && Insertable(more, segs, p)
    ensures WellFormed(InsertSegs(segs, p, more))
    decreases |more|
  {
    if more == [] {
      assert InsertSegs(segs, p, more) == segs;
    } else {
      FirstFits(segs[..p], more);
      assert Unrepeated(more[0], segs, p);
      InsertWellFormed(segs, p, more[0]);
      InsertCons(segs, p, more[0], more[1..]);
      InsertableRest(more, segs, p);
      InsertRun(InsertSegs(segs, p, [more[0]]), p + 1, more[1..]);
    }
  }

  lemma {:induction false} PrefixFits(segs: seq<Seg>, p: nat)
    requires FitsAll(segs) && p <= |segs|
    ensures FitsAll(segs[..p])
  {
    if p < |segs| { FitsAt(segs, p); } else { assert segs[..p] == segs; }
  }

  lemma FitsMore(front: seq<Seg>, s: Seg)
    requires FitsAll(front) && Fits(front, s)
    ensures FitsAll(front + [s])
  {
    assert (front + [s])[..|front|] == front;
  }

  lemma WhereMono(segs: seq<Seg>, kind: Kind, i: nat, j: nat)
    requires i <= j <= |segs|
    ensures |Where(segs[..i], kind)| <= |Where(segs[..j], kind)|
    decreases j
  {
    if i < j {
      WhereMono(segs, kind, i, j - 1);
      TakeSnoc(segs, j);
      SnocKinds(segs[..j - 1], segs[j - 1], kind);
    }
  }

  /** No segment belongs to a region that does not exist. */
  lemma NoOwner(segs: seq<Seg>, i: nat)
    requires FitsAll(segs) && i < |segs|
    ensures Owner(segs[i].tag) != Some(|Where(segs, Heads)|)
  {
    if Owner(segs[i].tag).Some? {
      OwnerHead(segs, i);
      WhereMono(segs, Heads, i + 1, |segs|);
      assert segs[..|segs|] == segs;
    }
  }

  lemma HeadNext(front: seq<Seg>, k: nat, h: Seg)
    requires FitsAll(front) && !EndsOpen(front) && |Where(front, Heads)| == k
    requires RowsOk(h) && h.tag.Head? && h.tag.r == k && h.tag.inline == []
    ensures FitsAll(front + [h]) && (EndsOpen(front + [h]) <==> h.rows == []) && |Where(front + [h], Heads)| == k + 1
    ensures First(front + [h], NodesKeys(k)).None?
  {
    FitsMore(front, h);
    SnocKinds(front, h, Heads);
    SnocKinds(front, h, NodesKeys(k));
    if First(front, NodesKeys(k)).Some? { NoOwner(front, First(front, NodesKeys(k)).value); }
  }

  lemma KeyNext(a: seq<Seg>, k: nat, key: Seg)
    requires FitsAll(a) && !EndsOpen(a) && |Where(a, Heads)| == k + 1 && First(a, NodesKeys(k)).None?
    requires RowsOk(key) && key.tag == NodesKey(k, None)
    ensures FitsAll(a + [key]) && !EndsOpen(a + [key]) && KeyAbove(a + [key], k) && |Where(a + [key], Heads)| == k + 1
  {
    FitsMore(a, key);
    SnocKinds(a, key, Heads);
    SnocKinds(a, key, NodesKeys(k));
    assert (a + [key])[|a|] == key;
  }

  lemma ItemNext(a: seq<Seg>, k: nat, item: Seg)
    requires FitsAll(a) && !EndsOpen(a) && |Where(a, Heads)| == k + 1 && KeyAbove(a, k)
    requires RowsOk(item) && Is(Items(k), item.tag)
    ensures FitsAll(a + [item])
  {
    FitsMore(a, item);
  }

  lemma ThreeFit(front: seq<Seg>, k: nat, h: Seg, key: Seg, item: Seg)
    requires FitsAll(front) && !EndsOpen(front) && |Where(front, Heads)| == k
    requires RowsOk(h) && h.tag.Head? && h.tag.r == k && h.tag.inline == [] && h.rows != []
    requires RowsOk(key) && key.tag == NodesKey(k, None)
    requires RowsOk(item) && item.tag.Item? && item.tag.r == k
    ensures FitsAll(front + [h, key, item])
  {
    HeadNext(front, k, h);
    KeyNext(front + [h], k, key);
    ItemNext(front + [h] + [key], k, item);
    Spread(front, h, key, item);
  }

  lemma Spread<T>(front: seq<T>, a: T, b: T, c: T)
    ensures front + [a, b, c] == front + [a] + [b] + [c]
  {
  }

  lemma NewRegionFits(front: seq<Seg>, k: nat, region: NewRegion, n: NewNode)
    requires FitsAll(front) && !EndsOpen(front) && |Where(front, Heads)| == k && RegionText(region) && NodeText(n)
    ensures FitsAll(front + RegionSegs(k, region, n))
  {
    var all := RegionSegs(k, region, n);
    ThreeFit(front, k, all[0], all[1], all[2]);
  }

  lemma NoHeadAfter(segs: seq<Seg>, p: nat, j: nat)
    requires p <= j < |segs| && |Where(segs[..p], Heads)| == |Where(segs, Heads)|
    ensures !segs[j].tag.Head?
  {
    WhereMono(segs, Heads, p, j);
    if segs[j].tag.Head? { HeadGrows(segs, j); }
    WhereMono(segs, Heads, j + 1, |segs|);
    assert segs[..|segs|] == segs;
  }

  lemma HeadGrows(segs: seq<Seg>, j: nat)
    requires j < |segs| && segs[j].tag.Head?
    ensures |Where(segs[..j + 1], Heads)| == |Where(segs[..j], Heads)| + 1
  {
    TakeSnoc(segs, j + 1);
    SnocKinds(segs[..j], segs[j], Heads);
  }

  lemma NewRegionUnrepeated(segs: seq<Seg>, p: nat, s: Seg)
    requires FitsAll(segs) && p <= |segs| && |Where(segs[..p], Heads)| == |Where(segs, Heads)|
    requires s.tag.Trivia? || Owner(s.tag) == Some(|Where(segs, Heads)|)
    ensures Unrepeated(s, segs, p)
  {
    forall j: nat | p <= j < |segs| ensures Compatible(s, segs[j]) {
      NoOwner(segs, j);
      NoHeadAfter(segs, p, j);
    }
  }

  lemma LeadInsertable(segs: seq<Seg>, p: nat, lead: seq<Seg>, region: NewRegion, n: NewNode)
    requires FitsAll(segs) && p <= |segs| && |Where(segs[..p], Heads)| == |Where(segs, Heads)|
    requires (lead == [] || lead == [Seg(Trivia, [""])]) && RegionText(region)
    ensures Insertable(lead + RegionSegs(|Where(segs, Heads)|, region, n), segs, p)
  {
    var more := lead + RegionSegs(|Where(segs, Heads)|, region, n);
    forall x | 0 <= x < |more| ensures Unrepeated(more[x], segs, p) && !(more[x].tag.Head? && more[x].rows == []) {
      NewRegionUnrepeated(segs, p, more[x]);
    }
  }

  lemma LeadFits(front: seq<Seg>, lead: seq<Seg>)
    requires FitsAll(front) && !EndsOpen(front) && (lead == [] || lead == [Seg(Trivia, [""])])
    ensures FitsAll(front + lead) && !EndsOpen(front + lead) && |Where(front + lead, Heads)| == |Where(front, Heads)|
  {
    if lead == [] {
      assert front + lead == front;
    } else {
      FitsMore(front, lead[0]);
      SnocKinds(front, lead[0], Heads);
    }
  }

  /** Creating a region below the last one keeps the document well-formed. */
  lemma CreatedWellFormed(segs: seq<Seg>, p: nat, lead: seq<Seg>, region: NewRegion, n: NewNode)
    requires WellFormed(segs) && p <= |segs| && |Where(segs[..p], Heads)| == |Where(segs, Heads)| && !EndsOpen(segs[..p])
    requires lead == [] || lead == [Seg(Trivia, [""])]
    requires RegionText(region) && NodeText(n)
    ensures WellFormed(InsertSegs(segs, p, lead + RegionSegs(|Where(segs, Heads)|, region, n)))
  {
    var k := |Where(segs, Heads)|;
    var more := RegionSegs(k, region, n);
    PrefixFits(segs, p);
    LeadFits(segs[..p], lead);
    NewRegionFits(segs[..p] + lead, k, region, n);
    Regroup(segs[..p], lead, more);
    LeadInsertable(segs, p, lead, region, n);
    InsertRun(segs, p, lead + more);
  }

  /** The first region of a file, right under `regions:`. */
  lemma CreatedFirstWellFormed(segs: seq<Seg>, region: NewRegion, n: NewNode)
    requires WellFormed(segs) && Where(segs, Heads) == [] && RegionText(region) && NodeText(n)
    ensures WellFormed(CreatedFirst(segs, First(segs, RegionsKeys).value, region, n))
  {
    var key := First(segs, RegionsKeys).value;
    var base := Bared(segs, key);
    BaredWellFormed(segs, key);
    BaredFirst(segs, key, Heads);
    BaredFirst(segs, key, RegionsKeys);
    WhereMono(base, Heads, key + 1, |base|);
    assert base[..|base|] == base && base[..key + 1][key] == base[key];
    CreatedWellFormed(base, key + 1, [], region, n);
    assert [] + RegionSegs(0, region, n) == RegionSegs(0, region, n);
  }

  /** Every head stands at or above the last region's last segment. */
  lemma HeadsAbove(segs: seq<Seg>, last: nat)
    requires WellFormed(segs) && Where(segs, Heads) != [] && IsLast(segs, |Where(segs, Heads)| - 1, last)
    ensures |Where(segs[..last + 1], Heads)| == |Where(segs, Heads)|
  {
    OwnerHead(segs, last);
    WhereMono(segs, Heads, last + 1, |segs|);
    assert segs[..|segs|] == segs;
  }

  /** A further region, after the last one. */
  lemma CreatedAfterWellFormed(segs: seq<Seg>, last: nat, region: NewRegion, n: NewNode)
    requires WellFormed(segs) && Where(segs, Heads) != [] && IsLast(segs, |Where(segs, Heads)| - 1, last)
    requires RegionText(region) && NodeText(n)
    ensures WellFormed(CreatedAfter(segs, last, region, n))
  {
    HeadsAbove(segs, last);
    LastRows(segs, |Where(segs, Heads)| - 1, last);
    CreatedWellFormed(segs, last + 1, [Seg(Trivia, [""])], region, n);
  }

  // Removed nodes ---------------------------------------------------------------------------

  /** What a removal never takes, and that it takes an emptied routes key only with all routes. */
  ghost predicate SafeDead(segs: seq<Seg>, dead: nat -> bool) {
    && (forall i: nat :: i < |segs| && dead(i) ==> segs[i].tag.Item? || segs[i].tag.Route? || segs[i].tag.RoutesKey? || segs[i].tag.Fallback?)
    && (forall i: nat, j: nat :: i < |segs| && j < |segs| && segs[i].tag.RoutesKey? && dead(i) && segs[j].tag.Route? ==> dead(j))
    && (forall i: nat :: i < |segs| && EndsOpen(segs[..i]) ==> !dead(i))
  }

  lemma KeptSnoc(segs: seq<Seg>, dead: nat -> bool)
    requires segs != []
    ensures var front, t := segs[..|segs| - 1], segs[|segs| - 1];
            Kept(segs, dead) == if dead(|front|) then Kept(front, dead) else Kept(front, dead) + [t]
  {
    var front := segs[..|segs| - 1];
    if dead(|front|) { assert Kept(front, dead) + [] == Kept(front, dead); }
  }

  lemma {:induction false} KeptListed(segs: seq<Seg>, dead: nat -> bool, i: nat) returns (j: nat)
    requires i < |segs| && !dead(i)
    ensures j < |Kept(segs, dead)| && Kept(segs, dead)[j] == segs[i]
  {
    var n := |segs| - 1;
    KeptSnoc(segs, dead);
    if i < n {
      j := KeptListed(segs[..n], dead, i);
    } else {
      j := |Kept(segs, dead)| - 1;
    }
  }

  lemma {:induction false} KeptHeads(segs: seq<Seg>, dead: nat -> bool, kind: Kind)
    requires forall i: nat :: i < |segs| && dead(i) ==> !Is(kind, segs[i].tag)
    ensures |Where(Kept(segs, dead), kind)| == |Where(segs, kind)|
    ensures First(Kept(segs, dead), kind).Some? <==> First(segs, kind).Some?
    ensures First(segs, kind).Some? ==> Kept(segs, dead)[First(Kept(segs, dead), kind).value] == segs[First(segs, kind).value]
  {
    if segs != [] {
      var front, t := segs[..|segs| - 1], segs[|segs| - 1];
      KeptHeads(front, dead, kind);
      KeptSnoc(segs, dead);
      assert segs == front + [t];
      SnocKinds(front, t, kind);
      SnocKinds(Kept(front, dead), t, kind);
    }
  }

  lemma {:induction false} KeptNone(segs: seq<Seg>, dead: nat -> bool, kind: Kind)
    requires First(segs, kind).None?
    ensures First(Kept(segs, dead), kind).None?
  {
    if segs != [] {
      var front, t := segs[..|segs| - 1], segs[|segs| - 1];
      assert segs == front + [t];
      SnocKinds(front, t, kind);
      KeptNone(front, dead, kind);
      KeptSnoc(segs, dead);
      SnocKinds(Kept(front, dead), t, kind);
    }
  }

  lemma {:induction false} KeptOpen(segs: seq<Seg>, dead: nat -> bool)
    requires SafeDead(segs, dead)
    ensures EndsOpen(Kept(segs, dead)) ==> EndsOpen(segs) && Kept(segs, dead)[|Kept(segs, dead)| - 1] == segs[|segs| - 1]
  {
    if segs != [] {
      var n := |segs| - 1;
      KeptSnoc(segs, dead);
      if dead(n) {
        SafeFront(segs, dead);
        KeptOpen(segs[..n], dead);
      }
    }
  }

  lemma SafeFront(segs: seq<Seg>, dead: nat -> bool)
    requires segs != [] && SafeDead(segs, dead)
    ensures SafeDead(segs[..|segs| - 1], dead)
  {
    var front := segs[..|segs| - 1];
    forall i: nat | i < |front| && EndsOpen(front[..i]) ensures !dead(i) { assert front[..i] == segs[..i]; }
  }

  lemma KeptKeyAbove(front: seq<Seg>, dead: nat -> bool, r: nat)
    requires SafeDead(front, dead) && KeyAbove(front, r)
    ensures KeyAbove(Kept(front, dead), r)
  {
    KeptHeads(front, dead, NodesKeys(r));
  }

  ghost predicate KeyAlive(front: seq<Seg>, dead: nat -> bool) {
    forall i: nat :: i < |front| && dead(i) ==> !Is(RoutesKeys, front[i].tag)
  }

  lemma KeptFitsOne(front: seq<Seg>, t: Seg, dead: nat -> bool)
    requires SafeDead(front, dead) && Fits(front, t) && (t.tag.Route? ==> KeyAlive(front, dead))
    ensures Fits(Kept(front, dead), t)
  {
    KeptOpen(front, dead);
    KeptHeads(front, dead, Heads);
    match t.tag {
      case Item(r, _, _) => KeptKeyAbove(front, dead, r);
      case NodesKey(r, _) => KeptNone(front, dead, NodesKeys(r));
      case Fallback(r, _) => KeptNone(front, dead, Fallbacks(r));
      case Strategy(r) => KeptNone(front, dead, Strategies(r));
      case Route(_, _) => KeptHeads(front, dead, RoutesKeys);
      case _ =>
    }
    FitsLike(front, Kept(front, dead), t);
  }

  lemma LastKeepsKey(segs: seq<Seg>, dead: nat -> bool)
    requires SafeDead(segs, dead) && segs != [] && !dead(|segs| - 1) && segs[|segs| - 1].tag.Route?
    ensures KeyAlive(segs[..|segs| - 1], dead)
  {
  }

  lemma {:induction false} KeptFits(segs: seq<Seg>, dead: nat -> bool)
    requires FitsAll(segs) && SafeDead(segs, dead)
    ensures FitsAll(Kept(segs, dead))
  {
    if segs != [] {
      var front, t := segs[..|segs| - 1], segs[|segs| - 1];
      SafeFront(segs, dead);
      KeptFits(front, dead);
      KeptSnoc(segs, dead);
      if !dead(|front|) {
        if t.tag.Route? { LastKeepsKey(segs, dead); }
        KeptFitsOne(front, t, dead);
        FitsMore(Kept(front, dead), t);
      }
    }
  }

  /** The dropped fallback is on a line of its own, not on the region's `- ` line. */
  ghost predicate FallbackApart(segs: seq<Seg>, k: nat, node: Option<string>) {
    forall j: nat :: NamedFallback(segs, k, node, j) ==> !EndsOpen(segs[..j])
  }

  lemma HeadCount(segs: seq<Seg>, h: nat)
    requires FitsAll(segs) && h < |segs| && segs[h].tag.Head?
    ensures segs[h].tag.r == |Where(segs[..h], Heads)|
  {
    FitsAt(segs, h);
  }

  /** A region's `nodes:` key stands below its head. */
  lemma KeyUnderHead(segs: seq<Seg>, h: nat, key: nat)
    requires FitsAll(segs) && h < |segs| && segs[h].tag.Head? && key < |segs| && Is(NodesKeys(segs[h].tag.r), segs[key].tag)
    ensures h < key
  {
    HeadCount(segs, h);
    if key < h {
      OwnerHead(segs, key);
      WhereMono(segs, Heads, key + 1, h);
    }
  }

  /** No item stands right after an empty head: its key would come first. */
  lemma OpenNoItem(segs: seq<Seg>, i: nat)
    requires FitsAll(segs) && i < |segs| && EndsOpen(segs[..i]) && segs[i].tag.Item?
    ensures Owner(segs[i].tag) != Some(segs[i - 1].tag.r)
  {
    ItemKey(segs, i);
    if Owner(segs[i].tag) == Some(segs[i - 1].tag.r) {
      KeyUnderHead(segs, i - 1, First(segs, NodesKeys(segs[i].tag.r)).value);
    }
  }

  lemma OpenOwner(segs: seq<Seg>, i: nat)
    requires FitsAll(segs) && i < |segs| && EndsOpen(segs[..i])
    ensures !segs[i].tag.Item? && !segs[i].tag.Route? && !segs[i].tag.RoutesKey?
  {
    FitsAt(segs, i);
    if segs[i].tag.Item? { OpenNoItem(segs, i); }
  }

  lemma DeadTags(segs: seq<Seg>, k: nat, i: nat, j: nat)
    requires i < |segs| && segs[i].tag.Item? && DeadSeg(segs, k, i, j)
    ensures j < |segs|
    ensures segs[j].tag.Item? || segs[j].tag.Route? || segs[j].tag.RoutesKey? || segs[j].tag.Fallback?
    ensures segs[j].tag.Fallback? ==> NamedFallback(segs, k, segs[i].tag.id, j)
    ensures segs[j].tag.RoutesKey? ==> AllRoutesDead(segs, k, segs[i].tag.id)
  {
  }

  lemma DeadIsSafe(segs: seq<Seg>, k: nat, i: nat)
    requires WellFormed(segs) && i < |segs| && segs[i].tag.Item? && FallbackApart(segs, k, segs[i].tag.id)
    ensures SafeDead(segs, IsDead(segs, k, i))
  {
    var dead := IsDead(segs, k, i);
    forall j: nat | j < |segs| && dead(j) ensures segs[j].tag.Item? || segs[j].tag.Route? || segs[j].tag.RoutesKey? || segs[j].tag.Fallback? {
      DeadTags(segs, k, i, j);
    }
    forall j: nat | j < |segs| && EndsOpen(segs[..j]) ensures !dead(j) {
      OpenOwner(segs, j);
      if dead(j) { DeadTags(segs, k, i, j); }
    }
    forall x: nat, y: nat | x < |segs| && y < |segs| && segs[x].tag.RoutesKey? && dead(x) && segs[y].tag.Route? ensures dead(y) {
      DeadTags(segs, k, i, x);
      assert DeadRoute(segs, k, segs[i].tag.id, y);
    }
  }

  /** Removing a node keeps the document well-formed, unless it drops a fallback on a `- ` line. */
  lemma RemovedWellFormed(segs: seq<Seg>, k: nat, i: nat)
    requires WellFormed(segs) && i < |segs| && segs[i].tag.Item? && FallbackApart(segs, k, segs[i].tag.id)
    ensures WellFormed(Removed(segs, k, i))
  {
    var dead := IsDead(segs, k, i);
    DeadIsSafe(segs, k, i);
    KeptFits(segs, dead);
    KeptOpen(segs, dead);
    KeptHeads(segs, dead, RegionsKeys);
  }
}
