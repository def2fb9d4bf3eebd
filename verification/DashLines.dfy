/** A fallback on its region's `- ` line: removing it takes the dash along, and the region with it. */
module DashLines {
  import opened Base
  import opened Schema
  import opened Text
  import opened LineSplice
  import opened Outline
  import opened Editor
  import opened WellFormedEdits

  lemma {:induction false} KeptPrefix(segs: seq<Seg>, dead: nat -> bool, n: nat)
    requires n <= |segs|
    ensures Kept(segs[..n], dead) <= Kept(segs, dead)
    decreases |segs|
  {
    if n == |segs| {
      assert segs[..n] == segs;
    } else {
      var front := segs[..|segs| - 1];
      assert front[..n] == segs[..n];
      KeptPrefix(front, dead, n);
      KeptSnoc(segs, dead);
    }
  }

  /** The first segment from `x` on that stays. */
  function NextAlive(segs: seq<Seg>, dead: nat -> bool, x: nat): (y: nat)
    requires x <= |segs|
    ensures x <= y <= |segs| && (y < |segs| ==> !dead(y)) && forall z :: x <= z < y ==> dead(z)
    decreases |segs| - x
  {
    if x < |segs| && dead(x) then NextAlive(segs, dead, x + 1) else x
  }

  lemma {:induction false} DeadRun(segs: seq<Seg>, dead: nat -> bool, x: nat, y: nat)
    requires x <= y <= |segs| && forall z :: x <= z < y ==> dead(z)
    ensures Kept(segs[..y], dead) == Kept(segs[..x], dead)
    decreases y
  {
    if x < y {
      DeadRun(segs, dead, x, y - 1);
      KeptTake(segs, y, dead);
    }
  }

  lemma PrefixPair<T>(front: seq<T>, s: T, t: T, all: seq<T>)
    requires front + [s] + [t] <= all
    ensures all[|front|] == s && all[|front| + 1] == t && all[..|front| + 1] == front + [s]
  {
    assert (front + [s] + [t])[|front|] == s && (front + [s] + [t])[|front| + 1] == t;
  }

  /** What follows a kept segment once a run of dead ones is gone. */
  lemma KeptAcross(segs: seq<Seg>, dead: nat -> bool, h: nat, y: nat) returns (m: nat)
    requires h < y < |segs| && !dead(h) && !dead(y) && forall z :: h < z < y ==> dead(z)
    ensures m + 1 < |Kept(segs, dead)| && Kept(segs, dead)[m] == segs[h] && Kept(segs, dead)[m + 1] == segs[y]
  {
    KeptTake(segs, h + 1, dead);
    DeadRun(segs, dead, h + 1, y);
    KeptTake(segs, y + 1, dead);
    KeptPrefix(segs, dead, y + 1);
    var front := Kept(segs[..h], dead);
    PrefixPair(front, segs[h], segs[y], Kept(segs, dead));
    m := |front|;
  }

  /** A region's keys and texts start with a dash only on its `- ` line. */
  ghost predicate DashOpensOnly(segs: seq<Seg>) {
    forall x :: 0 <= x < |segs| && !EndsOpen(segs[..x]) && !segs[x].tag.Item? && !segs[x].tag.Head? && Owner(segs[x].tag).Some? ==>
                  !StartsWithDash(segs[x])
  }

  lemma OpenHead(segs: seq<Seg>, j: nat)
    requires FitsAll(segs) && j < |segs| && EndsOpen(segs[..j])
    ensures j > 0 && segs[j - 1].tag.Head? && segs[j - 1].rows == [] && Owner(segs[j].tag) == Some(segs[j - 1].tag.r)
  {
    FitsAt(segs, j);
  }

  lemma OpenFallback(segs: seq<Seg>, k: nat, j: nat)
    requires FitsAll(segs) && j < |segs| && Is(Fallbacks(k), segs[j].tag) && EndsOpen(segs[..j])
    ensures j > 0 && segs[j - 1].tag.Head? && segs[j - 1].tag.r == k && segs[j - 1].rows == []
  {
    OpenHead(segs, j);
  }

  lemma ItemKeyAt(segs: seq<Seg>, k: nat, i: nat) returns (key: nat)
    requires FitsAll(segs) && i < |segs| && Is(Items(k), segs[i].tag)
    ensures First(segs, NodesKeys(k)) == Some(key) && key < |segs| && Is(NodesKeys(k), segs[key].tag)
  {
    ItemKey(segs, i);
    key := First(segs, NodesKeys(k)).value;
  }

  /** The `nodes:` key of a region that opens with its fallback stands below that fallback. */
  lemma KeyBelow(segs: seq<Seg>, k: nat, i: nat, j: nat) returns (key: nat)
    requires FitsAll(segs) && i < |segs| && Is(Items(k), segs[i].tag)
    requires j < |segs| && Is(Fallbacks(k), segs[j].tag) && EndsOpen(segs[..j])
    ensures First(segs, NodesKeys(k)) == Some(key) && j < key < |segs| && segs[key].tag.NodesKey?
  {
    key := ItemKeyAt(segs, k, i);
    OpenFallback(segs, k, j);
    KeyUnderHead(segs, j - 1, key);
  }

  /** What stands between the dropped fallback and its region's key opens no region. */
  lemma NextOpensNothing(segs: seq<Seg>, k: nat, j: nat, y: nat)
    requires FitsAll(segs) && DashOpensOnly(segs) && First(segs, NodesKeys(k)).Some? && j < y <= First(segs, NodesKeys(k)).value
    requires !segs[y - 1].tag.Head?
    ensures Owner(segs[y].tag) != Some(k) || !StartsWithDash(segs[y]) || segs[y].tag.Head?
  {
    if segs[y].tag.Item? { ItemKey(segs, y); }
    NotOpen(segs, y);
  }

  lemma NotOpen(segs: seq<Seg>, y: nat)
    requires 0 < y <= |segs| && !segs[y - 1].tag.Head?
    ensures !EndsOpen(segs[..y])
  {
    assert segs[..y][y - 1] == segs[y - 1];
  }

  lemma DeadNoHead(segs: seq<Seg>, k: nat, i: nat, x: nat)
    requires i < |segs| && segs[i].tag.Item? && x < |segs| && (segs[x].tag.Head? || segs[x].tag.NodesKey?)
    ensures !DeadSeg(segs, k, i, x)
  {
    if DeadSeg(segs, k, i, x) { DeadTags(segs, k, i, x); }
  }

  /** Below the dropped fallback, the first segment that stays comes no later than the region's key. */
  lemma NextKept(segs: seq<Seg>, k: nat, i: nat, j: nat, key: nat) returns (y: nat)
    requires i < |segs| && segs[i].tag.Item? && j < key < |segs| && segs[key].tag.NodesKey?
    requires IsDead(segs, k, i)(j) && segs[j].tag.Fallback?
    ensures j < y <= key && !IsDead(segs, k, i)(y) && !segs[y - 1].tag.Head?
    ensures forall z :: j <= z < y ==> IsDead(segs, k, i)(z)
  {
    var dead := IsDead(segs, k, i);
    DeadNoHead(segs, k, i, key);
    assert dead(j) && !dead(key);
    y := NextAlive(segs, dead, j);
    assert dead(y - 1);
    if segs[y - 1].tag.Head? { DeadNoHead(segs, k, i, y - 1); }
  }

  /** An empty head stands only before a segment that opens its region. */
  lemma NextFits(all: seq<Seg>, k: nat, m: nat)
    requires m + 1 < |all| && all[m].tag.Head? && all[m].tag.r == k && all[m].rows == []
    requires Owner(all[m + 1].tag) != Some(k) || !StartsWithDash(all[m + 1]) || all[m + 1].tag.Head?
    ensures !FitsAll(all)
  {
    if FitsAll(all) { FitsAt(all, m + 1); }
  }

  /** Where the dropped fallback stands on the region's `- ` line, what is left spells no region. */
  lemma DroppedDashBreaks(segs: seq<Seg>, k: nat, i: nat, j: nat)
    requires WellFormed(segs) && DashOpensOnly(segs) && i < |segs| && Is(Items(k), segs[i].tag)
    requires NamedFallback(segs, k, segs[i].tag.id, j) && EndsOpen(segs[..j])
    ensures !WellFormed(Removed(segs, k, i))
  {
    var key := KeyBelow(segs, k, i, j);
    OpenFallback(segs, k, j);
    DeadNoHead(segs, k, i, j - 1);
    var y := NextKept(segs, k, i, j, key);
    NextOpensNothing(segs, k, j, y);
    var m := KeptAcross(segs, IsDead(segs, k, i), j - 1, y);
    NextFits(Removed(segs, k, i), k, m);
  }

  /**
   * Removing a node keeps the document well-formed exactly when it drops no fallback that stands on
   * its region's `- ` line.
   */
  lemma RemovedWellFormedIff(segs: seq<Seg>, k: nat, i: nat)
    requires WellFormed(segs) && DashOpensOnly(segs) && i < |segs| && Is(Items(k), segs[i].tag)
    ensures WellFormed(Removed(segs, k, i)) <==> FallbackApart(segs, k, segs[i].tag.id)
  {
    if FallbackApart(segs, k, segs[i].tag.id) {
      RemovedWellFormed(segs, k, i);
    } else {
      var j: nat :| NamedFallback(segs, k, segs[i].tag.id, j) && EndsOpen(segs[..j]);
      DroppedDashBreaks(segs, k, i, j);
    }
  }

  // A document that breaks: `- lb_fallback: a` opens the region whose one node is `a` ---------

  function RootSeg(): Seg { Seg(RegionsKey(None), ["regions:"]) }

  function HeadSeg(region: Region): Seg { Seg(Head(0, Some("nl"), Some("exit"), None, [], region), []) }

  function FallbackSeg(): Seg { Seg(Fallback(0, Some("a")), ["  - lb_fallback: a"]) }

  function KeySeg(): Seg { Seg(NodesKey(0, None), ["    nodes:"]) }

  function NodeSeg(node: Node): Seg { Seg(Item(0, Some("a"), node), ["      - id: a"]) }

  lemma {:induction false} Indented(n: nat, s: string)
    requires s != "" && !IsSpace(s[0])
    ensures StripLeft(seq(n, _ => ' ') + s) == s
  {
    if n == 0 {
      assert seq(n, _ => ' ') + s == s;
    } else {
      assert seq(n, _ => ' ') + s == [' '] + (seq(n - 1, _ => ' ') + s);
      StripSpace(seq(n - 1, _ => ' ') + s);
      Indented(n - 1, s);
    }
  }

  lemma FallbackRow()
    ensures RowsOk(FallbackSeg()) && StartsWithDash(FallbackSeg())
  {
    Indented(2, "- lb_fallback: a");
    assert FallbackSeg().rows[0] == seq(2, _ => ' ') + "- lb_fallback: a";
  }

  lemma KeyRow()
    ensures RowsOk(KeySeg()) && !StartsWithDash(KeySeg())
  {
    Indented(4, "nodes:");
    assert KeySeg().rows[0] == seq(4, _ => ' ') + "nodes:";
  }

  lemma NodeRow(node: Node)
    ensures RowsOk(NodeSeg(node))
  {
    Indented(6, "- id: a");
    assert NodeSeg(node).rows[0] == seq(6, _ => ' ') + "- id: a";
  }

  lemma RootRow()
    ensures RowsOk(RootSeg())
  {
    Indented(0, "regions:");
    assert RootSeg().rows[0] == seq(0, _ => ' ') + "regions:";
  }

  lemma RootFits(root: Seg)
    requires RowsOk(root) && root.tag == RegionsKey(None)
    ensures FitsAll([root]) && !EndsOpen([root]) && Where([root], Heads) == [] && First([root], RegionsKeys) == Some(0)
    ensures First([root], Fallbacks(0)).None?
  {
    FitsMore([], root);
    SnocKinds([], root, Heads);
    SnocKinds([], root, RegionsKeys);
    SnocKinds([], root, Fallbacks(0));
    assert [] + [root] == [root];
  }

  lemma FallbackNext(a: seq<Seg>, k: nat, f: Seg)
    requires FitsAll(a) && EndsOpen(a) && a[|a| - 1].tag.r == k && |Where(a, Heads)| == k + 1
    requires First(a, NodesKeys(k)).None? && First(a, Fallbacks(k)).None?
    requires RowsOk(f) && StartsWithDash(f) && Is(Fallbacks(k), f.tag)
    ensures FitsAll(a + [f]) && !EndsOpen(a + [f]) && |Where(a + [f], Heads)| == k + 1
    ensures First(a + [f], NodesKeys(k)).None? && First(a + [f], Fallbacks(k)) == Some(|a|)
  {
    FitsMore(a, f);
    SnocKinds(a, f, Heads);
    SnocKinds(a, f, NodesKeys(k));
    SnocKinds(a, f, Fallbacks(k));
  }

  lemma FirstStays(a: seq<Seg>, s: Seg, kind: Kind)
    requires First(a, kind).Some?
    ensures First(a + [s], kind) == First(a, kind)
  {
    SnocKinds(a, s, kind);
  }

  /** A region that opens with its fallback, under `regions:`. */
  ghost predicate Dashed(segs: seq<Seg>) {
    && |segs| == 5
    && RowsOk(segs[0]) && segs[0].tag == RegionsKey(None)
    && RowsOk(segs[1]) && segs[1].tag.Head? && segs[1].tag.r == 0 && segs[1].tag.inline == [] && segs[1].rows == []
    && RowsOk(segs[2]) && StartsWithDash(segs[2]) && Is(Fallbacks(0), segs[2].tag)
    && RowsOk(segs[3]) && !StartsWithDash(segs[3]) && segs[3].tag == NodesKey(0, None)
    && RowsOk(segs[4]) && Is(Items(0), segs[4].tag)
  }

  lemma DashedTop(root: Seg, head: Seg, f: Seg)
    requires RowsOk(root) && root.tag == RegionsKey(None)
    requires RowsOk(head) && head.tag.Head? && head.tag.r == 0 && head.tag.inline == [] && head.rows == []
    requires RowsOk(f) && StartsWithDash(f) && Is(Fallbacks(0), f.tag)
    ensures var a := [root] + [head] + [f];
            && FitsAll(a) && !EndsOpen(a) && |Where(a, Heads)| == 1 && First(a, NodesKeys(0)).None?
            && First(a, Fallbacks(0)) == Some(2) && First(a, RegionsKeys).Some?
  {
    RootFits(root);
    HeadNext([root], 0, head);
    SnocKinds([root], head, Fallbacks(0));
    FallbackNext([root] + [head], 0, f);
    FirstStays([root], head, RegionsKeys);
    FirstStays([root] + [head], f, RegionsKeys);
  }

  lemma DashedRest(a: seq<Seg>, key: Seg, item: Seg)
    requires FitsAll(a) && !EndsOpen(a) && |Where(a, Heads)| == 1 && First(a, NodesKeys(0)).None?
    requires First(a, Fallbacks(0)) == Some(2) && First(a, RegionsKeys).Some?
    requires RowsOk(key) && key.tag == NodesKey(0, None)
    requires RowsOk(item) && Is(Items(0), item.tag)
    ensures WellFormed(a + [key] + [item]) && First(a + [key] + [item], Fallbacks(0)) == Some(2)
  {
    KeyNext(a, 0, key);
    FitsMore(a + [key], item);
    FirstStays(a, key, RegionsKeys);
    FirstStays(a + [key], item, RegionsKeys);
    FirstStays(a, key, Fallbacks(0));
    FirstStays(a + [key], item, Fallbacks(0));
  }

  lemma Five<T>(s: seq<T>)
    requires |s| == 5
    ensures s == [s[0]] + [s[1]] + [s[2]] + [s[3]] + [s[4]]
  {
  }

  lemma DashedFits(segs: seq<Seg>)
    requires Dashed(segs)
    ensures WellFormed(segs) && First(segs, Fallbacks(0)) == Some(2)
  {
    DashedTop(segs[0], segs[1], segs[2]);
    DashedRest([segs[0]] + [segs[1]] + [segs[2]], segs[3], segs[4]);
    Five(segs);
  }

  lemma DashedOpens(segs: seq<Seg>)
    requires Dashed(segs)
    ensures DashOpensOnly(segs) && EndsOpen(segs[..2])
  {
    assert EndsOpen(segs[..2]) by { assert segs[..2][1] == segs[1]; }
  }

  lemma DashedBreaks(segs: seq<Seg>)
    requires Dashed(segs) && segs[2].tag.name == segs[4].tag.id
    ensures WellFormed(segs) && DashOpensOnly(segs)
    ensures !FallbackApart(segs, 0, segs[4].tag.id) && !WellFormed(Removed(segs, 0, 4))
  {
    DashedFits(segs);
    DashedOpens(segs);
    assert NamedFallback(segs, 0, segs[4].tag.id, 2);
    DroppedDashBreaks(segs, 0, 4, 2);
  }

  lemma DashedOf(root: Seg, head: Seg, f: Seg, key: Seg, item: Seg)
    requires RowsOk(root) && root.tag == RegionsKey(None)
    requires RowsOk(head) && head.tag.Head? && head.tag.r == 0 && head.tag.inline == [] && head.rows == []
    requires RowsOk(f) && StartsWithDash(f) && Is(Fallbacks(0), f.tag)
    requires RowsOk(key) && !StartsWithDash(key) && key.tag == NodesKey(0, None)
    requires RowsOk(item) && Is(Items(0), item.tag)
    ensures Dashed([root, head, f, key, item])
  {
  }

  /** A document whose `- ` line goes with the node, so that nothing is left that spells the region. */
  lemma DashedRegionBreaks(region: Region, node: Node)
    ensures var segs := [RootSeg(), HeadSeg(region), FallbackSeg(), KeySeg(), NodeSeg(node)];
            && WellFormed(segs) && DashOpensOnly(segs)
            && !FallbackApart(segs, 0, Some("a")) && !WellFormed(Removed(segs, 0, 4))
  {
    FallbackRow();
    KeyRow();
    NodeRow(node);
    RootRow();
    DashedOf(RootSeg(), HeadSeg(region), FallbackSeg(), KeySeg(), NodeSeg(node));
    DashedBreaks([RootSeg(), HeadSeg(region), FallbackSeg(), KeySeg(), NodeSeg(node)]);
  }
}
