/** Siblings stay in natural order: where a new node lands among the nodes of its region. */
module SiblingOrder {
  import opened Base
  import opened Names
  import opened Schema
  import opened NaturalOrder
  import opened Outline
  import opened Editor
  import opened WellFormedEdits
  import opened DocView
  import opened FallbackStable

  /** Ids of a region's block items, in file order. */
  function ItemIds(segs: seq<Seg>, k: nat): seq<string> { NodeIds(ItemNodes(Tags(segs, Items(k)))) }

  lemma {:induction false} SlotIsPoint(segs: seq<Seg>, k: nat, id: string, x: nat)
    requires Loads(segs) && x <= |Where(segs, Items(k))|
    ensures x <= |ItemIds(segs, k)| && Slot(segs, Where(segs, Items(k))[..x], id) == InsertionPoint(ItemIds(segs, k)[..x], id)
  {
    TagsAt(segs, Items(k));
    if x > 0 {
      var at, ids := Where(segs, Items(k)), ItemIds(segs, k);
      SlotIsPoint(segs, k, id, x - 1);
      assert at[..x][..x - 1] == at[..x - 1] && ids[..x][..x - 1] == ids[..x - 1];
      SameEarlier(segs, k, id, x - 1);
    }
  }

  lemma SameEarlier(segs: seq<Seg>, k: nat, id: string, x: nat)
    requires Loads(segs) && x < |Where(segs, Items(k))|
    ensures x < |ItemIds(segs, k)| && (Earlier(segs[Where(segs, Items(k))[x]].tag, id) <==> BeforeId(id)(ItemIds(segs, k)[x]))
  {
    TagsAt(segs, Items(k));
    assert segs[Where(segs, Items(k))[x]].tag.id == Some(ItemIds(segs, k)[x]);
  }

  /** Items above a place are the first ones. */
  lemma {:induction false} PrefixTags(segs: seq<Seg>, kind: Kind, p: nat, m: nat)
    requires p <= |segs| && m <= |Where(segs, kind)|
    requires forall x :: 0 <= x < |Where(segs, kind)| ==> (Where(segs, kind)[x] < p <==> x < m)
    ensures m <= |Tags(segs, kind)| && Tags(segs[..p], kind) == Tags(segs, kind)[..m]
    decreases |segs|
  {
    TagsAt(segs, kind);
    TagsSplit(segs, p, kind);
    PrefixCount(segs, kind, p, m);
    TagsAt(segs[..p], kind);
  }

  lemma WhereBound(segs: seq<Seg>, kind: Kind, x: nat)
    requires x < |Where(segs, kind)|
    ensures Where(segs, kind)[x] < |segs|
  {
  }

  lemma {:induction false} PrefixCount(segs: seq<Seg>, kind: Kind, p: nat, m: nat)
    requires p <= |segs| && m <= |Where(segs, kind)|
    requires forall x :: 0 <= x < |Where(segs, kind)| ==> (Where(segs, kind)[x] < p <==> x < m)
    ensures |Where(segs[..p], kind)| == m
    decreases |segs|
  {
    if p == |segs| {
      assert segs[..p] == segs;
      if m < |Where(segs, kind)| { WhereBound(segs, kind, m); }
    } else {
      var front, t := segs[..|segs| - 1], segs[|segs| - 1];
      assert segs == front + [t] && front[..p] == segs[..p];
      SnocKinds(front, t, kind);
      forall x | 0 <= x < |Where(front, kind)| ensures Where(front, kind)[x] < p <==> x < m {
        assert Where(segs, kind)[x] == Where(front, kind)[x];
      }
      assert Is(kind, t.tag) ==> Where(segs, kind)[|Where(front, kind)|] == |front|;
      PrefixCount(front, kind, p, m);
    }
  }

  /** The insertion point separates the first `m` items from the others. */
  lemma PointSeparates(segs: seq<Seg>, k: nat, m: nat)
    requires FitsAll(segs) && First(segs, NodesKeys(k)).Some? && m <= |Where(segs, Items(k))|
    ensures var at, p := Where(segs, Items(k)), PointAfter(segs, k, m);
            forall x :: 0 <= x < |at| ==> (at[x] < p <==> x < m)
  {
    var at := Where(segs, Items(k));
    WhereAscends(segs, Items(k));
    if m == 0 {
      forall x | 0 <= x < |at| ensures at[x] > First(segs, NodesKeys(k)).value { ItemKey(segs, at[x]); }
    }
  }

  lemma IdsJoined(a: seq<Tag>, item: Tag, b: seq<Tag>)
    requires (forall x :: 0 <= x < |a| ==> a[x].Item?) && item.Item? && forall x :: 0 <= x < |b| ==> b[x].Item?
    ensures NodeIds(ItemNodes(a + [item] + b)) == NodeIds(ItemNodes(a)) + [item.node.id] + NodeIds(ItemNodes(b))
    ensures NodeIds(ItemNodes(a + b)) == NodeIds(ItemNodes(a)) + NodeIds(ItemNodes(b))
  {
  }

  lemma JoinedAt<T>(all: seq<T>, a: seq<T>, x: T, b: seq<T>)
    requires all == a + b
    ensures |a| <= |all| && a + [x] + b == all[..|a|] + [x] + all[|a|..]
  {
  }

  lemma AddedAfterItem(segs: seq<Seg>, k: nat, m: nat, n: NewNode, quote: string -> string)
    requires WellFormed(segs) && First(segs, NodesKeys(k)).Some? && m <= |Where(segs, Items(k))| && n.id == n.node.id
    ensures var ids := ItemIds(segs, k);
            m <= |ids| && ItemIds(AddedAt(segs, k, PointAfter(segs, k, m), n, quote), k) == ids[..m] + [n.id] + ids[m..]
  {
    var p := PointAfter(segs, k, m);
    TagsAt(segs, Items(k));
    PointSeparates(segs, k, m);
    PrefixTags(segs, Items(k), p, m);
    var a, b := AddedItems(segs, k, p, n, quote);
    PartsAreItems(segs, k, a, b);
    IdsJoined(a, ItemSeg(k, n).tag, b);
    JoinedAt(ItemIds(segs, k), NodeIds(ItemNodes(a)), n.id, NodeIds(ItemNodes(b)));
  }

  /** The new id lands right after the last sibling that comes before it. */
  lemma AddedIds(segs: seq<Seg>, k: nat, n: NewNode, quote: string -> string)
    requires WellFormed(segs) && Loads(segs) && First(segs, NodesKeys(k)).Some? && n.id == n.node.id
    ensures var ids, p := ItemIds(segs, k), InsertionPoint(ItemIds(segs, k), n.id);
            p <= |ids| && ItemIds(AddedTo(segs, k, n, quote), k) == ids[..p] + [n.id] + ids[p..]
  {
    var at := Where(segs, Items(k));
    TagsAt(segs, Items(k));
    SlotIsPoint(segs, k, n.id, |at|);
    assert at[..|at|] == at && ItemIds(segs, k)[..|at|] == ItemIds(segs, k);
    AddedAfterItem(segs, k, Slot(segs, at, n.id), n, quote);
  }

  /** Nodes sorted by natural order stay sorted. */
  lemma AddKeepsOrder(segs: seq<Seg>, k: nat, n: NewNode, quote: string -> string)
    requires WellFormed(segs) && Loads(segs) && First(segs, NodesKeys(k)).Some? && n.id == n.node.id
    requires Sorted(ItemIds(segs, k))
    ensures Sorted(ItemIds(AddedTo(segs, k, n, quote), k))
  {
    AddedIds(segs, k, n, quote);
    InsertKeepsSorted(ItemIds(segs, k), n.id);
  }

  /** The ids are one text with the numbers `at` in it, all below `m`. */
  ghost predicate NumberedBelow(ids: seq<string>, at: seq<nat>, a: string, m: nat, b: string) {
    |ids| == |at| && forall x :: 0 <= x < |ids| ==> at[x] < m && ids[x] == a + (Dec(at[x]) + b)
  }

  lemma {:induction false} AllEarlier(ids: seq<string>, x: string)
    requires forall i :: 0 <= i < |ids| ==> Before(ids[i], x)
    ensures InsertionPoint(ids, x) == |ids|
  {
    if ids != [] { assert BeforeId(x)(ids[|ids| - 1]); }
  }

  lemma NumberedEarlier(ids: seq<string>, at: seq<nat>, a: string, m: nat, b: string)
    requires EndsText(a) && StartsText(b) && NumberedBelow(ids, at, a, m, b)
    ensures InsertionPoint(ids, a + (Dec(m) + b)) == |ids|
  {
    forall x | 0 <= x < |ids| ensures Before(ids[x], a + (Dec(m) + b)) { NumberedOrder(a, at[x], m, b); }
    AllEarlier(ids, a + (Dec(m) + b));
  }

  lemma AppendAtEnd<T>(xs: seq<T>, x: T)
    ensures xs[..|xs|] + [x] + xs[|xs|..] == xs + [x]
  {
  }

  /** A node numbered above its siblings, as `de-10` above `de-2` and `de-9`, lands last. */
  lemma HighestLandsLast(segs: seq<Seg>, k: nat, n: NewNode, quote: string -> string,
                         at: seq<nat>, a: string, m: nat, b: string)
    requires WellFormed(segs) && Loads(segs) && First(segs, NodesKeys(k)).Some? && n.id == n.node.id
    requires EndsText(a) && StartsText(b) && n.id == a + (Dec(m) + b) && NumberedBelow(ItemIds(segs, k), at, a, m, b)
    ensures ItemIds(AddedTo(segs, k, n, quote), k) == ItemIds(segs, k) + [n.id]
  {
    NumberedEarlier(ItemIds(segs, k), at, a, m, b);
    AddedIds(segs, k, n, quote);
    AppendAtEnd(ItemIds(segs, k), n.id);
  }
}
