/** Adding a node and removing it again: exactly when the file comes back. */
module RoundTrip {
  import opened Base
  import opened Schema
  import opened TextLines
  import opened LineSplice
  import opened Outline
  import opened Editor
  import opened EditFacts
  import opened WellFormedEdits

  lemma {:induction false} WhereShift(segs: seq<Seg>, p: nat, s: Seg, kind: Kind)
    requires p <= |segs| && !Is(kind, s.tag)
    ensures |Where(InsertSegs(segs, p, [s]), kind)| == |Where(segs, kind)|
    ensures forall x :: 0 <= x < |Where(segs, kind)| ==> Where(InsertSegs(segs, p, [s]), kind)[x] == Shift(Where(segs, kind)[x], p)
    decreases |segs| - p
  {
    if p == |segs| {
      AtEnd(segs, s);
      WhereSnoc(segs, s, kind);
    } else {
      var front, t := segs[..|segs| - 1], segs[|segs| - 1];
      WhereShift(front, p, s, kind);
      assert segs == front + [t];
      InsertSnoc(front, t, p, s);
      WhereSnoc(front, t, kind);
      WhereSnoc(InsertSegs(front, p, [s]), t, kind);
    }
  }

  // What removal finds after the addition ---------------------------------------------------

  /** A destination that would dangle once node `id`, newly added to region `k`, is gone again. */
  ghost predicate DanglesAgain(segs: seq<Seg>, k: nat, id: string, destination: Option<string>) {
    destination.Some? && (
      || (Where(segs, Items(k)) == [] && IsIdOf(segs, k, destination))
      || (destination == Some(id) && !IsRegionId(segs, destination)))
  }

  /** No route and no fallback of the file already names what removal would drop. */
  ghost predicate Untouched(segs: seq<Seg>, k: nat, id: string) {
    && (forall i :: 0 <= i < |segs| && segs[i].tag.Route? ==> !DanglesAgain(segs, k, id, segs[i].tag.destination))
    && (forall i :: NamedFallback(segs, k, Some(id), i) ==> false)
  }

  lemma RegionIdKept(segs: seq<Seg>, p: nat, s: Seg, id: Option<string>)
    requires p <= |segs| && !s.tag.Head?
    ensures IsRegionId(InsertSegs(segs, p, [s]), id) <==> IsRegionId(segs, id)
  {
    var all := InsertSegs(segs, p, [s]);
    if IsRegionId(segs, id) {
      var h: nat :| h < |segs| && segs[h].tag.Head? && segs[h].tag.id == id;
      ShiftAt(segs, p, s, h);
      assert all[Shift(h, p)].tag.Head?;
    }
    if IsRegionId(all, id) {
      var j: nat :| j < |all| && all[j].tag.Head? && all[j].tag.id == id;
      var i := Unshift(segs, p, s, j);
      assert segs[i].tag.Head?;
    }
  }

  lemma IdOfKept(segs: seq<Seg>, p: nat, s: Seg, k: nat, id: Option<string>)
    requires p <= |segs| && !s.tag.Head?
    ensures IsIdOf(InsertSegs(segs, p, [s]), k, id) <==> IsIdOf(segs, k, id)
  {
    WhereShift(segs, p, s, Heads);
    if k < |Where(segs, Heads)| { ShiftAt(segs, p, s, Where(segs, Heads)[k]); }
  }

  /** Danger after the addition, in terms of the file before it. */
  lemma DanglesAfter(segs: seq<Seg>, k: nat, p: nat, n: NewNode, d: Option<string>)
    requires p <= |segs|
    ensures Dangles(InsertSegs(segs, p, [ItemSeg(k, n)]), k, Some(n.id), d) <==> DanglesAgain(segs, k, n.id, d)
  {
    var s := ItemSeg(k, n);
    WhereInsert(segs, p, s, Items(k));
    RegionIdKept(segs, p, s, d);
    IdOfKept(segs, p, s, k, d);
  }

  lemma DeadRouteAfter(segs: seq<Seg>, k: nat, p: nat, n: NewNode, i: nat)
    requires p <= |segs| && i < |segs|
    ensures DeadRoute(InsertSegs(segs, p, [ItemSeg(k, n)]), k, Some(n.id), Shift(i, p)) <==>
            segs[i].tag.Route? && DanglesAgain(segs, k, n.id, segs[i].tag.destination)
  {
    ShiftAt(segs, p, ItemSeg(k, n), i);
    if segs[i].tag.Route? { DanglesAfter(segs, k, p, n, segs[i].tag.destination); }
  }

  lemma FallbackAfter(segs: seq<Seg>, k: nat, p: nat, n: NewNode, i: nat)
    requires p <= |segs| && i < |segs|
    ensures NamedFallback(InsertSegs(segs, p, [ItemSeg(k, n)]), k, Some(n.id), Shift(i, p)) <==> NamedFallback(segs, k, Some(n.id), i)
  {
    var s := ItemSeg(k, n);
    ShiftAt(segs, p, s, i);
    FirstInsert(segs, p, s, Fallbacks(k));
  }

  /** In an untouched file removal takes the new node alone. */
  lemma OnlyTheNode(segs: seq<Seg>, k: nat, p: nat, n: NewNode, j: nat)
    requires p <= |segs| && Untouched(segs, k, n.id)
    ensures var all := InsertSegs(segs, p, [ItemSeg(k, n)]); DeadSeg(all, k, p, j) <==> j == p
  {
    var s := ItemSeg(k, n);
    var all := InsertSegs(segs, p, [s]);
    forall x: nat ensures !DeadRoute(all, k, Some(n.id), x) {
      if x < |all| && x != p {
        var i := Unshift(segs, p, s, x);
        DeadRouteAfter(segs, k, p, n, i);
      }
    }
    if j <= |segs| && j != p {
      var i := Unshift(segs, p, s, j);
      FallbackAfter(segs, k, p, n, i);
    }
  }

  /** Otherwise it takes a further, non-empty segment. */
  lemma SomethingElse(segs: seq<Seg>, k: nat, p: nat, n: NewNode) returns (j: nat)
    requires WellFormed(segs) && p <= |segs| && !Untouched(segs, k, n.id)
    ensures var all := InsertSegs(segs, p, [ItemSeg(k, n)]);
            j < |all| && j != p && DeadSeg(all, k, p, j) && all[j].rows != []
  {
    var i: nat;
    if x: nat :| x < |segs| && segs[x].tag.Route? && DanglesAgain(segs, k, n.id, segs[x].tag.destination) {
      i := x;
      DeadRouteAfter(segs, k, p, n, i);
    } else {
      i :| NamedFallback(segs, k, Some(n.id), i);
      FallbackAfter(segs, k, p, n, i);
    }
    j := Shift(i, p);
    ShiftAt(segs, p, ItemSeg(k, n), i);
    FitsAt(segs, i);
  }

  // Lengths ---------------------------------------------------------------------------------

  lemma KeptSize(segs: seq<Seg>, f: nat -> bool)
    requires segs != []
    ensures var front, t := segs[..|segs| - 1], segs[|segs| - 1];
            |Flatten(Kept(segs, f))| == |Flatten(Kept(front, f))| + if f(|front|) then 0 else |t.rows|
  {
    KeptSnoc(segs, f);
    FlattenSnoc(Kept(segs[..|segs| - 1], f), segs[|segs| - 1]);
  }

  lemma {:induction false} KeptAtMost(segs: seq<Seg>, f: nat -> bool, g: nat -> bool)
    requires forall i: nat :: i < |segs| && g(i) ==> f(i)
    ensures |Flatten(Kept(segs, f))| <= |Flatten(Kept(segs, g))|
  {
    if segs != [] {
      KeptAtMost(segs[..|segs| - 1], f, g);
      KeptSize(segs, f);
      KeptSize(segs, g);
    }
  }

  lemma {:induction false} KeptLess(segs: seq<Seg>, f: nat -> bool, g: nat -> bool, j: nat)
    requires forall i: nat :: i < |segs| && g(i) ==> f(i)
    requires j < |segs| && f(j) && !g(j) && segs[j].rows != []
    ensures |Flatten(Kept(segs, f))| < |Flatten(Kept(segs, g))|
  {
    KeptSize(segs, f);
    KeptSize(segs, g);
    if j < |segs| - 1 {
      KeptLess(segs[..|segs| - 1], f, g, j);
    } else {
      KeptAtMost(segs[..|segs| - 1], f, g);
    }
  }

  lemma KeptOthers(segs: seq<Seg>, p: nat, s: Seg, g: nat -> bool)
    requires p <= |segs| && forall j: nat :: j <= |segs| ==> (g(j) <==> j == p)
    ensures Kept(InsertSegs(segs, p, [s]), g) == segs
  {
    KeptAround(segs[..p], [s], segs[p..], g);
    KeptAll(segs[..p], g);
    assert segs[..p] + segs[p..] == segs;
  }

  function Just(p: nat): nat -> bool { (j: nat) => j == p }

  // The round trip --------------------------------------------------------------------------

  lemma AddedPlain(segs: seq<Seg>, k: nat, n: NewNode, quote: string -> string)
    requires First(segs, NodesKeys(k)).Some? && FlowOf(segs[First(segs, NodesKeys(k)).value].tag).None? && PinName(segs, k).None?
    ensures AddedTo(segs, k, n, quote) == InsertSegs(segs, InsertPoint(segs, k, n.id), [ItemSeg(k, n)])
  {
  }

  /**
   * Where the key has no `[]` and no fallback gets pinned, removing the added node restores the
   * lines exactly when no route and no fallback of the file names what the removal drops.
   */
  lemma AddThenRemove(segs: seq<Seg>, k: nat, n: NewNode, quote: string -> string)
    requires WellFormed(segs) && First(segs, NodesKeys(k)).Some? && FlowOf(segs[First(segs, NodesKeys(k)).value].tag).None?
    requires PinName(segs, k).None?
    ensures var all, p := AddedTo(segs, k, n, quote), InsertPoint(segs, k, n.id);
            && p < |all| && all[p] == ItemSeg(k, n)
            && (Flatten(Removed(all, k, p)) == Flatten(segs) <==> Untouched(segs, k, n.id))
  {
    var p, s := InsertPoint(segs, k, n.id), ItemSeg(k, n);
    var all := InsertSegs(segs, p, [s]);
    AddedPlain(segs, k, n, quote);
    assert all[p] == s;
    KeptOthers(segs, p, s, Just(p));
    if Untouched(segs, k, n.id) {
      forall j: nat ensures DeadSeg(all, k, p, j) <==> j == p { OnlyTheNode(segs, k, p, n, j); }
      KeptSame(all, IsDead(all, k, p), Just(p));
    } else {
      var j := SomethingElse(segs, k, p, n);
      KeptLess(all, IsDead(all, k, p), Just(p), j);
    }
  }

  // The round trip of documents -------------------------------------------------------------

  /** The id is no other node's. */
  ghost predicate NewId(segs: seq<Seg>, id: string) {
    forall i :: 0 <= i < |segs| && segs[i].tag.Item? ==> segs[i].tag.id != Some(id)
  }

  lemma NewItemAt(segs: seq<Seg>, k: nat, p: nat, n: NewNode, i: nat)
    requires NewId(segs, n.id) && p <= |segs| && i <= |segs| && InsertSegs(segs, p, [ItemSeg(k, n)])[i] == ItemSeg(k, n)
    ensures i == p
  {
    if i != p { var j := Unshift(segs, p, ItemSeg(k, n), i); }
  }

  lemma PlainRestores(segs: seq<Seg>, k: nat, n: NewNode, quote: string -> string, i: nat)
    requires WellFormed(segs) && First(segs, NodesKeys(k)).Some? && FlowOf(segs[First(segs, NodesKeys(k)).value].tag).None?
    requires PinName(segs, k).None? && NewId(segs, n.id)
    requires i < |AddedTo(segs, k, n, quote)| && AddedTo(segs, k, n, quote)[i] == ItemSeg(k, n)
    ensures Removed(AddedTo(segs, k, n, quote), k, i) == segs <==> Untouched(segs, k, n.id)
  {
    var p, s := InsertPoint(segs, k, n.id), ItemSeg(k, n);
    AddedPlain(segs, k, n, quote);
    NewItemAt(segs, k, p, n, i);
    AddThenRemove(segs, k, n, quote);
    if Untouched(segs, k, n.id) {
      var all := InsertSegs(segs, p, [s]);
      KeptOthers(segs, p, s, Just(p));
      forall j: nat ensures DeadSeg(all, k, p, j) <==> j == p { OnlyTheNode(segs, k, p, n, j); }
      KeptSame(all, IsDead(all, k, p), Just(p));
    }
  }

  lemma InsertedAt(segs: seq<Seg>, p: nat, s: Seg)
    requires p <= |segs|
    ensures InsertSegs(segs, p, [s])[p] == s
  {
  }

  lemma BothHold(segs: seq<Seg>, p: nat, item: Seg, q: nat, pin: Seg) returns (j: nat)
    requires p <= |segs| && q <= |segs|
    ensures j < |InsertBoth(segs, p, item, q, pin)| && InsertBoth(segs, p, item, q, pin)[j] == pin
  {
    if q > p {
      InsertedAt(segs, q, pin);
      ShiftAt(InsertSegs(segs, q, [pin]), p, item, q);
      j := Shift(q, p);
    } else {
      InsertedAt(InsertSegs(segs, p, [item]), q, pin);
      j := q;
    }
  }

  /** A pinned fallback stays behind: it names another node. */
  lemma PinStays(segs: seq<Seg>, k: nat, n: NewNode, quote: string -> string, i: nat)
    requires First(segs, NodesKeys(k)).Some? && PinName(segs, k).Some? && NewId(segs, n.id)
    requires i < |AddedTo(segs, k, n, quote)| && AddedTo(segs, k, n, quote)[i] == ItemSeg(k, n)
    ensures Removed(AddedTo(segs, k, n, quote), k, i) != segs
  {
    var all, name, p := AddedTo(segs, k, n, quote), PinName(segs, k).value, InsertPoint(segs, k, n.id);
    var pin := PinSeg(k, name, quote);
    AddedBoth(segs, k, p, n, name, quote);
    var j := BothHold(BareRegion(segs, k), p, ItemSeg(k, n), First(segs, Strategies(k)).value + 1, pin);
    PinAlive(segs, k, n, all, i, j, name);
    var x := KeptListed(all, IsDead(all, k, i), j);
    var removed := Removed(all, k, i);
    FirstIs(removed, Fallbacks(k), x);
  }

  lemma PinAlive(segs: seq<Seg>, k: nat, n: NewNode, all: seq<Seg>, i: nat, j: nat, name: string)
    requires PinName(segs, k) == Some(name) && NewId(segs, n.id) && i < |all| && all[i] == ItemSeg(k, n)
    requires j < |all| && all[j].tag == Fallback(k, Some(name))
    ensures !DeadSeg(all, k, i, j)
  {
    var lead := LeadIndex(segs, k);
  }

  /** A stripped `[]` is not put back. */
  lemma StripStays(segs: seq<Seg>, k: nat, n: NewNode, quote: string -> string, i: nat)
    requires WellFormed(segs) && First(segs, NodesKeys(k)).Some? && FlowOf(segs[First(segs, NodesKeys(k)).value].tag).Some?
    requires PinName(segs, k).None?
    requires i < |AddedTo(segs, k, n, quote)| && AddedTo(segs, k, n, quote)[i] == ItemSeg(k, n)
    ensures Removed(AddedTo(segs, k, n, quote), k, i) != segs
  {
    var key, p, all := First(segs, NodesKeys(k)).value, InsertPoint(segs, k, n.id), AddedTo(segs, k, n, quote);
    BaredPoint(segs, k, p);
    KeyStaysAbove(BareRegion(segs, k), p, ItemSeg(k, n), k);
    KeysSurvive(all, k, i);
    KeptHeads(all, IsDead(all, k, i), NodesKeys(k));
  }

  lemma KeysSurvive(segs: seq<Seg>, k: nat, i: nat)
    requires i < |segs| && segs[i].tag.Item?
    ensures forall j: nat :: j < |segs| && IsDead(segs, k, i)(j) ==> !Is(NodesKeys(k), segs[j].tag)
  {
    forall j: nat | j < |segs| && IsDead(segs, k, i)(j) ensures !Is(NodesKeys(k), segs[j].tag) { DeadTags(segs, k, i, j); }
  }

  /**
   * For every region with a key: removing the added node gives the document back exactly when its
   * key had no `[]`, no fallback got pinned, and nothing in the file names what the removal drops.
   */
  lemma RestoresDocument(segs: seq<Seg>, k: nat, n: NewNode, quote: string -> string, i: nat)
    requires WellFormed(segs) && First(segs, NodesKeys(k)).Some? && NewId(segs, n.id)
    requires i < |AddedTo(segs, k, n, quote)| && AddedTo(segs, k, n, quote)[i] == ItemSeg(k, n)
    ensures Removed(AddedTo(segs, k, n, quote), k, i) == segs <==>
            && FlowOf(segs[First(segs, NodesKeys(k)).value].tag).None? && PinName(segs, k).None?
            && Untouched(segs, k, n.id)
  {
    if PinName(segs, k).Some? {
      PinStays(segs, k, n, quote, i);
    } else if FlowOf(segs[First(segs, NodesKeys(k)).value].tag).Some? {
      StripStays(segs, k, n, quote, i);
    } else {
      PlainRestores(segs, k, n, quote, i);
    }
  }

  /** With uniform line endings the file itself comes back. */
  lemma AddThenRemoveText(text: string, segs: seq<Seg>, k: nat, n: NewNode, quote: string -> string)
    requires WellFormed(segs) && First(segs, NodesKeys(k)).Some? && FlowOf(segs[First(segs, NodesKeys(k)).value].tag).None?
    requires PinName(segs, k).None? && Untouched(segs, k, n.id)
    requires SplitLines(Terminated(text)) == Flatten(segs) && Uniform(Terminated(text), Eol(Terminated(text)))
    ensures var all, p := AddedTo(segs, k, n, quote), InsertPoint(segs, k, n.id);
            && p < |all| && all[p].tag.Item?
            && Render(Flatten(Removed(all, k, p)), Eol(Terminated(text))) == Terminated(text)
  {
    AddThenRemove(segs, k, n, quote);
    RenderRestores(Terminated(text), Eol(Terminated(text)));
  }

  // Reading back what was written -----------------------------------------------------------

  lemma {:induction false} NoCarriageReturn(lines: seq<string>)
    requires forall row :: row in lines ==> OneLine(row)
    ensures '\r' !in Join(lines, "\n")
  {
    if lines != [] {
      assert lines[0] in lines;
      NoCarriageReturn(lines[1..]);
    }
  }

  lemma EolKept(lines: seq<string>, eol: string)
    requires lines != [] && (forall row :: row in lines ==> OneLine(row)) && (eol == "\n" || eol == "\r\n")
    ensures Terminated(Render(lines, eol)) == Render(lines, eol) && Eol(Render(lines, eol)) == eol
  {
    var s := Render(lines, eol);
    assert s[|s| - 1] == '\n';
    if eol == "\n" {
      NoCarriageReturn(lines);
      assert '\r' !in s;
      assert forall i :: 0 <= i < |s| ==> s[i] in s;
    } else {
      assert s[|s| - 2] == '\r' && s[|s| - 2 + 1] == '\n';
    }
  }

  /** An edited file parses to the very lines that were written, with the same line ending. */
  lemma WrittenReadsBack(segs: seq<Seg>, eol: string)
    requires Flatten(segs) != [] && (forall row :: row in Flatten(segs) ==> OneLine(row)) && (eol == "\n" || eol == "\r\n")
    ensures var text := Render(Flatten(segs), eol);
            SplitLines(Terminated(text)) == Flatten(segs) && Eol(Terminated(text)) == eol
  {
    EolKept(Flatten(segs), eol);
    SplitRendered(Flatten(segs), eol);
  }
}
