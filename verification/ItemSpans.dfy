/** Spans of sequence items: recovering each item's `- ` line from the position of its first key. */
module ItemSpans {
  import opened Base
  import opened Text
  import opened LineSplice
  import opened Outline

  function Min(a: nat, b: nat): nat { if a < b then a else b }

  /** First line an item's `-` may be on: after the previous item's first key. */
  function Lower(first: nat, keyLines: seq<nat>, x: nat): nat
    requires x < |keyLines|
  {
    Min(if x == 0 then first else keyLines[x - 1] + 1, keyLines[x])
  }

  /** Where the `-` of item `x` is found. */
  ghost predicate StartFound(lines: seq<string>, first: nat, column: nat, keyLines: seq<nat>, x: nat, row: nat)
    requires x < |keyLines|
  {
    DashFound(lines, column, Lower(first, keyLines, x), keyLines[x], row)
  }

  method Starts(lines: seq<string>, first: nat, column: nat, keyLines: seq<nat>) returns (starts: seq<nat>)
    requires forall x :: 0 <= x < |keyLines| ==> keyLines[x] < |lines|
    ensures |starts| == |keyLines|
    ensures forall x :: 0 <= x < |starts| ==> StartFound(lines, first, column, keyLines, x, starts[x])
  {
    starts := [];
    for x := 0 to |keyLines|
      invariant |starts| == x
      invariant forall y :: 0 <= y < x ==> StartFound(lines, first, column, keyLines, y, starts[y])
    {
      var row := DashLine(lines, column, Lower(first, keyLines, x), keyLines[x]);
      starts := starts + [row];
    }
  }

  /** Each item runs to the next item's start, the last one to the sequence's end. */
  function Paired(starts: seq<nat>, end: nat): (spans: seq<Span>)
    ensures |spans| == |starts|
    ensures forall x :: 0 <= x < |starts| ==> spans[x] == Span(starts[x], if x + 1 < |starts| then starts[x + 1] else end)
  {
    seq(|starts|, x requires 0 <= x < |starts| => Span(starts[x], if x + 1 < |starts| then starts[x + 1] else end))
  }

  /** What a parser says of a block sequence: its first line and column, its items' first keys, its end. */
  datatype Marks = Marks(first: nat, column: nat, keyLines: seq<nat>, end: nat)

  ghost predicate Located(lines: seq<string>, m: Marks, starts: seq<nat>) {
    && |starts| == |m.keyLines|
    && forall x: nat {:trigger StartFound(lines, m.first, m.column, m.keyLines, x, starts[x])} ::
         x < |starts| ==> StartFound(lines, m.first, m.column, m.keyLines, x, starts[x])
  }

  /** Span `x` runs from the item's `- ` line to where the next one starts, or to the sequence's end. */
  ghost predicate FromDash(lines: seq<string>, m: Marks, spans: seq<Span>, x: nat)
    requires x < |spans| == |m.keyLines|
  {
    && StartFound(lines, m.first, m.column, m.keyLines, x, spans[x].start)
    && spans[x].end == if x + 1 < |spans| then spans[x + 1].start else m.end
  }

  method Spans(lines: seq<string>, m: Marks) returns (spans: seq<Span>, ghost starts: seq<nat>)
    requires forall x :: 0 <= x < |m.keyLines| ==> m.keyLines[x] < |lines|
    ensures Located(lines, m, starts) && spans == Paired(starts, m.end)
    ensures |spans| == |m.keyLines| && forall x: nat :: x < |spans| ==> FromDash(lines, m, spans, x)
  {
    var found := Starts(lines, m.first, m.column, m.keyLines);
    starts := found;
    spans := Paired(found, m.end);
    forall x: nat | x < |spans| ensures FromDash(lines, m, spans, x) {
      assert StartFound(lines, m.first, m.column, m.keyLines, x, starts[x]);
    }
  }

  // What the marks say of a document --------------------------------------------------------

  /**
   * Item `x` fills segments `at[x]` to `last[x]` and opens with the only `-` at the column up to its
   * first key; only trivia separates items, and the sequence ends where the last one's trivia does.
   */
  ghost predicate MarksOf(segs: seq<Seg>, at: seq<nat>, last: seq<nat>, m: Marks) {
    && |m.keyLines| == |at| == |last|
    && (forall x: nat :: x < |at| ==> MarkedAt(segs, at, last, m, x) && FollowsAt(segs, at, last, x))
    && (at != [] ==> at[0] <= |segs| && m.first <= Off(segs, at[0]) && EndsAt(segs, last[|last| - 1], m.end))
  }

  ghost predicate EndsAt(segs: seq<Seg>, i: nat, end: nat) { i < |segs| && end == Off(segs, Skip(segs, i + 1)) }

  ghost predicate MarkedAt(segs: seq<Seg>, at: seq<nat>, last: seq<nat>, m: Marks, x: nat) {
    x < |at| && x < |last| && x < |m.keyLines| && ItemMarked(segs, at[x], last[x], m.column, m.keyLines[x])
  }

  ghost predicate FollowsAt(segs: seq<Seg>, at: seq<nat>, last: seq<nat>, x: nat)
    requires x < |at| == |last|
  {
    x > 0 ==> Follows(segs, last[x - 1], at[x])
  }

  /** Only trivia stands between segments `i` and `j`. */
  ghost predicate Follows(segs: seq<Seg>, i: nat, j: nat) { i < j && i < |segs| && Skip(segs, i + 1) == j }

  ghost predicate ItemMarked(segs: seq<Seg>, i: nat, last: nat, column: nat, keyLine: nat) {
    && i <= last < |segs| && Off(segs, i) <= keyLine < Off(segs, last + 1) <= |Flatten(segs)|
    && HasDash(Flatten(segs)[Off(segs, i)], column)
    && forall row :: Off(segs, i) < row <= keyLine ==> !HasDash(Flatten(segs)[row], column)
  }

  lemma StartIs(segs: seq<Seg>, i: nat, last: nat, column: nat, keyLine: nat, lower: nat, row: nat)
    requires ItemMarked(segs, i, last, column, keyLine) && lower <= Off(segs, i)
    requires DashFound(Flatten(segs), column, lower, keyLine, row)
    ensures row == Off(segs, i)
  {
    assert HasDash(Flatten(segs)[Off(segs, i)], column);
  }

  lemma KeyBefore(segs: seq<Seg>, i: nat, last: nat, column: nat, keyLine: nat, j: nat)
    requires ItemMarked(segs, i, last, column, keyLine) && Follows(segs, last, j)
    ensures j <= |segs| && keyLine + 1 <= Off(segs, j)
  {
    OffMono(segs, last + 1, j);
  }

  lemma PreviousKey(segs: seq<Seg>, at: seq<nat>, last: seq<nat>, m: Marks, x: nat)
    requires MarksOf(segs, at, last, m) && 0 < x < |at|
    ensures at[x] <= |segs| && m.keyLines[x - 1] + 1 <= Off(segs, at[x])
  {
    assert MarkedAt(segs, at, last, m, x - 1);
    assert FollowsAt(segs, at, last, x);
    KeyBefore(segs, at[x - 1], last[x - 1], m.column, m.keyLines[x - 1], at[x]);
  }

  lemma LowerIs(segs: seq<Seg>, at: seq<nat>, last: seq<nat>, m: Marks, x: nat)
    requires MarksOf(segs, at, last, m) && x < |at|
    ensures at[x] < |segs| && Lower(m.first, m.keyLines, x) <= Off(segs, at[x])
  {
    assert MarkedAt(segs, at, last, m, x);
    if x > 0 { PreviousKey(segs, at, last, m, x); }
  }

  /** The scan finds each item's own `- ` line, whatever lines stand between it and its first key. */
  lemma StartsAre(segs: seq<Seg>, at: seq<nat>, last: seq<nat>, m: Marks, x: nat, row: nat)
    requires MarksOf(segs, at, last, m) && x < |at|
    requires StartFound(Flatten(segs), m.first, m.column, m.keyLines, x, row)
    ensures at[x] < |segs| && row == Off(segs, at[x])
  {
    LowerIs(segs, at, last, m, x);
    assert MarkedAt(segs, at, last, m, x);
    StartIs(segs, at[x], last[x], m.column, m.keyLines[x], Lower(m.first, m.keyLines, x), row);
  }

  ghost predicate AtItems(segs: seq<Seg>, at: seq<nat>, starts: seq<nat>) {
    |starts| == |at| && forall x: nat :: x < |at| ==> AtItem(segs, at, starts, x)
  }

  ghost predicate AtItem(segs: seq<Seg>, at: seq<nat>, starts: seq<nat>, x: nat) {
    x < |at| && x < |starts| && at[x] < |segs| && starts[x] == Off(segs, at[x])
  }

  lemma AllStarts(segs: seq<Seg>, at: seq<nat>, last: seq<nat>, m: Marks, starts: seq<nat>)
    requires MarksOf(segs, at, last, m) && Located(Flatten(segs), m, starts)
    ensures AtItems(segs, at, starts)
  {
    forall x: nat | x < |at| ensures AtItem(segs, at, starts, x) {
      assert StartFound(Flatten(segs), m.first, m.column, m.keyLines, x, starts[x]);
      StartsAre(segs, at, last, m, x, starts[x]);
    }
  }

  /** The last item ends, as reported, where the sequence does. */
  lemma LastEnd(segs: seq<Seg>, at: seq<nat>, last: seq<nat>, m: Marks, x: nat)
    requires MarksOf(segs, at, last, m) && x + 1 == |at|
    ensures last[x] < |segs| && Off(segs, Skip(segs, last[x] + 1)) == m.end
  {
  }

  /** Any other item ends, as reported, at the next item's `- ` line. */
  lemma MiddleEnd(segs: seq<Seg>, at: seq<nat>, last: seq<nat>, m: Marks, y: nat)
    requires MarksOf(segs, at, last, m) && 0 < y < |at|
    ensures last[y - 1] < |segs| && at[y] <= |segs| && Off(segs, Skip(segs, last[y - 1] + 1)) == Off(segs, at[y])
  {
    assert FollowsAt(segs, at, last, y);
  }

  lemma MiddleSpan(segs: seq<Seg>, at: seq<nat>, last: seq<nat>, m: Marks, starts: seq<nat>, y: nat)
    requires MarksOf(segs, at, last, m) && AtItems(segs, at, starts) && 0 < y < |at|
    ensures SpanAt(segs, at[y - 1], last[y - 1], Span(starts[y - 1], starts[y]))
  {
    assert AtItem(segs, at, starts, y) && AtItem(segs, at, starts, y - 1);
    MiddleEnd(segs, at, last, m, y);
  }

  lemma LastSpan(segs: seq<Seg>, at: seq<nat>, last: seq<nat>, m: Marks, starts: seq<nat>, x: nat)
    requires MarksOf(segs, at, last, m) && AtItems(segs, at, starts) && x + 1 == |at|
    ensures SpanAt(segs, at[x], last[x], Span(starts[x], m.end))
  {
    assert AtItem(segs, at, starts, x);
    LastEnd(segs, at, last, m, x);
  }

  /** The span the editor reasons with: from the item's `- ` line to where its trivia ends. */
  ghost predicate SpanAt(segs: seq<Seg>, i: nat, last: nat, s: Span) {
    i < |segs| && last < |segs| && s == Span(Off(segs, i), Off(segs, Skip(segs, last + 1)))
  }

  /** The computed spans are exactly the ones the editor's theorems speak of. */
  lemma SpansAreItems(segs: seq<Seg>, at: seq<nat>, last: seq<nat>, m: Marks, starts: seq<nat>, x: nat)
    requires MarksOf(segs, at, last, m) && Located(Flatten(segs), m, starts) && x < |at|
    ensures |starts| == |at| && SpanAt(segs, at[x], last[x], Paired(starts, m.end)[x])
  {
    AllStarts(segs, at, last, m, starts);
    if x + 1 < |at| { MiddleSpan(segs, at, last, m, starts, x + 1); } else { LastSpan(segs, at, last, m, starts, x); }
  }
}
