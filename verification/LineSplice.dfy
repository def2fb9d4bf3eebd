/** The edited line list: content ends, splices and bottom-up deletion of several spans. */
module LineSplice {
  import opened Base
  import opened Text

  // Rows ------------------------------------------------------------------------------------

  predicate IsBlank(row: string) { StripLeft(row) == "" }

  /** Blank and comment lines, which belong to what follows. */
  predicate IsTrivia(row: string) { IsBlank(row) || StripLeft(row)[0] == '#' }

  /** Whether `line` is a `- ` item at exactly this indentation. */
  predicate IsDash(line: string, indent: string) {
    var head := indent + ['-'];
    head <= line && (|line| == |head| || IsSpace(line[|head|]))
  }

  /** An item's line has its `-` at the indentation, alone or before blank space: `-x` is none. */
  lemma DashIs(indent: string, rest: string)
    ensures IsDash(indent + (['-'] + rest), indent) <==> rest == "" || IsSpace(rest[0])
    ensures forall line :: IsDash(line, indent) ==> |line| > |indent| && line[..|indent|] == indent && line[|indent|] == '-'
  {
    var line := indent + (['-'] + rest);
    assert line[..|indent| + 1] == indent + ['-'] && (rest != "" ==> line[|indent| + 1] == rest[0]);
  }

  datatype Span = Span(start: nat, end: nat)

  /** Row and column span of an empty `[]`. */
  datatype Flow = Flow(row: nat, first: nat, last: nat)

  function StripFlowRow(line: string, first: nat, last: nat): string {
    StripRight(line[..if first <= |line| then first else |line|] + if last <= |line| then line[last..] else "")
  }

  lemma {:induction false} StripRightEnd(a: string, ws: string)
    requires (a == "" || !IsSpace(a[|a| - 1])) && forall c :: c in ws ==> IsSpace(c)
    ensures StripRight(a + ws) == a
  {
    if ws == "" {
      assert a + ws == a;
    } else {
      var n := |ws| - 1;
      assert (a + ws)[|a + ws| - 1] == ws[n] && ws[n] in ws && (a + ws)[..|a + ws| - 1] == a + ws[..n];
      StripRightEnd(a, ws[..n]);
    }
  }

  /** The flow span goes, with the blank space that is then at the end of the line. */
  lemma FlowGone(x: string, flow: string, rest: string, kept: string, ws: string)
    requires x + rest == kept + ws && (kept == "" || !IsSpace(kept[|kept| - 1])) && forall c :: c in ws ==> IsSpace(c)
    ensures StripFlowRow(x + (flow + rest), |x|, |x| + |flow|) == kept
  {
    var line := x + (flow + rest);
    assert line[..|x|] == x && line[|x| + |flow|..] == rest;
    StripRightEnd(kept, ws);
  }

  /** End of `lines[start..end]` without its trailing blank and comment lines. */
  method ContentEnd(lines: seq<string>, start: nat, end: nat) returns (e: nat)
    requires start <= end <= |lines|
    ensures start <= e <= end && (e == start || !IsTrivia(lines[e - 1]))
    ensures forall i :: e <= i < end ==> IsTrivia(lines[i])
  {
    e := end;
    while e > start && IsTrivia(lines[e - 1])
      invariant start <= e <= end && forall i :: e <= i < end ==> IsTrivia(lines[i])
    {
      e := e - 1;
    }
  }

  /** `row` is the last line of the range with a `-` at the column, or the range has none. */
  ghost predicate DashFound(lines: seq<string>, column: nat, lower: nat, upper: nat, row: nat) {
    && lower <= row <= upper < |lines|
    && ((HasDash(lines[row], column) && forall i :: row < i <= upper ==> !HasDash(lines[i], column))
        || (row == upper && forall i :: lower <= i <= upper ==> !HasDash(lines[i], column)))
  }

  /** Line of an item's `-` at `column`, scanning up from its first key line. */
  method DashLine(lines: seq<string>, column: nat, lower: nat, upper: nat) returns (row: nat)
    requires lower <= upper < |lines|
    ensures DashFound(lines, column, lower, upper, row)
  {
    row := upper;
    while true
      invariant lower <= row <= upper && forall i :: row < i <= upper ==> !HasDash(lines[i], column)
      decreases row
    {
      if HasDash(lines[row], column) { return; }
      if row == lower { return upper; }
      row := row - 1;
    }
  }

  /** A `-` at `column` with only blank space before it. */
  predicate HasDash(line: string, column: nat) {
    column < |line| && line[column] == '-' && IsBlank(line[..column])
  }

  // Keeping rows ----------------------------------------------------------------------------

  /** Elements whose index is not dead. */
  function Kept<T>(xs: seq<T>, dead: nat -> bool): seq<T> {
    if xs == [] then [] else Kept(xs[..|xs| - 1], dead) + if dead(|xs| - 1) then [] else [xs[|xs| - 1]]
  }

  lemma {:induction false} KeptSame<T>(xs: seq<T>, f: nat -> bool, g: nat -> bool)
    requires forall i: nat :: i < |xs| ==> f(i) == g(i)
    ensures Kept(xs, f) == Kept(xs, g)
  {
    if xs != [] { KeptSame(xs[..|xs| - 1], f, g); }
  }

  lemma {:induction false} KeptAll<T>(xs: seq<T>, f: nat -> bool)
    requires forall i: nat :: i < |xs| ==> !f(i)
    ensures Kept(xs, f) == xs
  {
    if xs != [] { KeptAll(xs[..|xs| - 1], f); }
  }

  /** A part that is kept or dropped as a whole. */
  lemma {:induction false} KeptConcat<T>(a: seq<T>, b: seq<T>, f: nat -> bool, dead: bool)
    requires forall i: nat :: |a| <= i < |a| + |b| ==> f(i) == dead
    ensures Kept(a + b, f) == Kept(a, f) + (if dead then [] else b)
  {
    if b == [] {
      assert a + b == a;
    } else {
      var front, last := b[..|b| - 1], b[|b| - 1];
      assert f(|a| + |front|) == dead;
      KeptConcat(a, front, f, dead);
      Snoc(a, front, last);
      Snoc(Kept(a, f), front, last);
      assert b == front + [last];
    }
  }

  // Deleting spans --------------------------------------------------------------------------

  predicate InSpans(spans: seq<Span>, row: nat) {
    exists s :: s in spans && s.start <= row < s.end
  }

  function Dead(spans: seq<Span>): nat -> bool { (row: nat) => InSpans(spans, row) }

  /** Python's descending order of pairs. */
  predicate After(a: Span, b: Span) { a.start > b.start || (a.start == b.start && a.end >= b.end) }

  function InsertSpan(s: Span, spans: seq<Span>): seq<Span> {
    if spans == [] then [s] else if After(s, spans[0]) then [s] + spans else [spans[0]] + InsertSpan(s, spans[1..])
  }

  function Descending(spans: seq<Span>): seq<Span> {
    if spans == [] then [] else InsertSpan(spans[0], Descending(spans[1..]))
  }

  predicate Apart(s: Span, t: Span) { s.end <= t.start || t.end <= s.start }

  /** Non-empty, inside the first `size` rows and pairwise apart. */
  ghost predicate Separate(spans: seq<Span>, size: nat) {
    spans != [] ==>
      && spans[0].start < spans[0].end <= size
      && (forall t :: t in spans[1..] ==> Apart(spans[0], t))
      && Separate(spans[1..], size)
  }

  /** Each span ends where the previous starts or above. */
  ghost predicate Below(spans: seq<Span>, top: nat) {
    spans != [] ==> spans[0].start < spans[0].end <= top && Below(spans[1..], spans[0].start)
  }

  lemma {:induction false} InsertMembers(s: Span, spans: seq<Span>)
    ensures forall t :: t in InsertSpan(s, spans) <==> t == s || t in spans
  {
    if spans != [] && !After(s, spans[0]) { InsertMembers(s, spans[1..]); }
  }

  lemma {:induction false} DescendingMembers(spans: seq<Span>)
    ensures forall t :: t in Descending(spans) <==> t in spans
  {
    if spans != [] {
      DescendingMembers(spans[1..]);
      InsertMembers(spans[0], Descending(spans[1..]));
    }
  }

  lemma {:induction false} BelowTop(spans: seq<Span>, top: nat, higher: nat)
    requires Below(spans, top) && top <= higher
    ensures Below(spans, higher)
  {
  }

  lemma {:induction false} InsertBelow(s: Span, spans: seq<Span>, top: nat)
    requires Below(spans, top) && s.start < s.end <= top && forall t :: t in spans ==> Apart(s, t)
    ensures Below(InsertSpan(s, spans), top)
  {
    if spans != [] {
      assert Apart(s, spans[0]);
      if After(s, spans[0]) {
        BelowTop(spans, top, top);
        assert ([s] + spans)[1..] == spans;
      } else {
        InsertBelow(s, spans[1..], spans[0].start);
        assert ([spans[0]] + InsertSpan(s, spans[1..]))[1..] == InsertSpan(s, spans[1..]);
      }
    }
  }

  lemma {:induction false} DescendingBelow(spans: seq<Span>, size: nat)
    requires Separate(spans, size)
    ensures Below(Descending(spans), size)
  {
    if spans != [] {
      DescendingBelow(spans[1..], size);
      DescendingMembers(spans[1..]);
      InsertBelow(spans[0], Descending(spans[1..]), size);
    }
  }

  /** Rows below a place hold none of the spans under it. */
  lemma {:induction false} BelowDead(spans: seq<Span>, top: nat, row: nat)
    requires Below(spans, top) && row >= top
    ensures !InSpans(spans, row)
  {
    if spans != [] {
      BelowDead(spans[1..], spans[0].start, row);
      assert forall s :: s in spans <==> s == spans[0] || s in spans[1..];
    }
  }

  function DeleteAll(rows: seq<string>, spans: seq<Span>): seq<string>
    decreases |spans|
  {
    if spans == [] || !(spans[0].start <= spans[0].end <= |rows|) then rows
    else DeleteAll(rows[..spans[0].start] + rows[spans[0].end..], spans[1..])
  }

  lemma SplitDead(spans: seq<Span>, row: nat)
    requires spans != []
    ensures InSpans(spans, row) <==> spans[0].start <= row < spans[0].end || InSpans(spans[1..], row)
  {
    assert forall s :: s in spans <==> s == spans[0] || s in spans[1..];
  }

  /** One span and everything below it. */
  lemma KeptAround<T>(above: seq<T>, span: seq<T>, below: seq<T>, f: nat -> bool)
    requires forall i: nat :: |above| <= i < |above| + |span| ==> f(i)
    requires forall i: nat :: |above| + |span| <= i < |above| + |span| + |below| ==> !f(i)
    ensures Kept(above + span + below, f) == Kept(above, f) + below
  {
    KeptConcat(above + span, below, f, false);
    KeptConcat(above, span, f, true);
  }

  /** The lowest span goes; what is above it stays to be edited. */
  lemma DropOne(above: seq<string>, span: seq<string>, below: seq<string>, spans: seq<Span>)
    requires spans != [] && spans[0] == Span(|above|, |above| + |span|) && Below(spans, |above| + |span|)
    ensures Kept(above + span + below, Dead(spans)) == Kept(above + below, Dead(spans[1..]))
  {
    var rest := spans[1..];
    forall i: nat | i >= |above| ensures !InSpans(rest, i) { BelowDead(rest, |above|, i); }
    forall i: nat ensures InSpans(spans, i) <==> |above| <= i < |above| + |span| || InSpans(rest, i) { SplitDead(spans, i); }
    KeptAround(above, span, below, Dead(spans));
    KeptConcat(above, below, Dead(rest), false);
    KeptSame(above, Dead(rest), Dead(spans));
  }

  /** Deleting descending spans one by one keeps exactly the rows in none of them. */
  lemma {:induction false} DeleteAllKeeps(rows: seq<string>, spans: seq<Span>)
    requires Below(spans, |rows|)
    ensures DeleteAll(rows, spans) == Kept(rows, Dead(spans))
    decreases |spans|
  {
    if spans == [] {
      KeptAll(rows, Dead(spans));
    } else {
      var s := spans[0];
      var above, span, below := rows[..s.start], rows[s.start..s.end], rows[s.end..];
      BelowTop(spans[1..], s.start, |above + below|);
      DeleteAllKeeps(above + below, spans[1..]);
      BelowTop(spans, s.end, s.end);
      DropOne(above, span, below, spans);
      assert rows == above + span + below;
    }
  }

  lemma DeletionOrder(rows: seq<string>, spans: seq<Span>)
    requires Separate(spans, |rows|)
    ensures DeleteAll(rows, Descending(spans)) == Kept(rows, Dead(spans))
  {
    DescendingBelow(spans, |rows|);
    DeleteAllKeeps(rows, Descending(spans));
    DescendingMembers(spans);
    forall i: nat ensures InSpans(Descending(spans), i) == InSpans(spans, i) {}
    KeptSame(rows, Dead(Descending(spans)), Dead(spans));
  }

  // The list --------------------------------------------------------------------------------

  class LineList {
    var rows: seq<string>

    constructor (lines: seq<string>)
      ensures rows == lines
    {
      rows := lines;
    }

    method Insert(at: nat, block: seq<string>)
      requires at <= |rows|
      modifies this
      ensures rows == old(rows)[..at] + block + old(rows)[at..]
    {
      rows := rows[..at] + block + rows[at..];
    }

    method StripFlow(flow: Option<Flow>)
      requires flow.Some? ==> flow.value.row < |rows|
      modifies this
      ensures rows == if flow.None? then old(rows)
                      else old(rows)[flow.value.row := StripFlowRow(old(rows)[flow.value.row], flow.value.first, flow.value.last)]
    {
      if flow.Some? {
        var f := flow.value;
        rows := rows[f.row := StripFlowRow(rows[f.row], f.first, f.last)];
      }
    }

    /** Bottom-up, so each deletion leaves the spans above it in place. */
    method DeleteSpans(spans: seq<Span>)
      requires Separate(spans, |rows|)
      modifies this
      ensures rows == Kept(old(rows), Dead(spans))
    {
      var order := Descending(spans);
      DescendingBelow(spans, |rows|);
      ghost var top: nat := |rows|;
      DeletionOrder(rows, spans);
      for j := 0 to |order|
        invariant top <= |rows| && Below(order[j..], top)
        invariant DeleteAll(rows, order[j..]) == DeleteAll(old(rows), order)
      {
        var s := order[j];
        assert order[j..][1..] == order[j + 1..];
        rows := rows[..s.start] + rows[s.end..];
        top := s.start;
      }
    }
  }
}
