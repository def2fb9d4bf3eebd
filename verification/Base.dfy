/** Vocabulary shared by every module: optional values, results and sequence folds. */
module Base {

  datatype Option<+T> = None | Some(value: T)

  /** `a`, or `b` when `a` is empty. */
  function Or<T>(a: Option<T>, b: Option<T>): Option<T> {
    if a.Some? then a else b
  }

  datatype Result<+T, +E> = Ok(value: T) | Err(error: E)

  /** Concatenation of `f(x)` over `xs`; taken from the back, as loops append. */
  function FlatMap<A, B>(f: A -> seq<B>, xs: seq<A>): seq<B> {
    if xs == [] then [] else FlatMap(f, xs[..|xs| - 1]) + f(xs[|xs| - 1])
  }

  lemma FlatMapTake<A, B>(f: A -> seq<B>, xs: seq<A>, i: nat)
    requires i < |xs|
    ensures FlatMap(f, xs[..i + 1]) == FlatMap(f, xs[..i]) + f(xs[i])
  {
    assert xs[..i + 1][..i] == xs[..i];
  }

  /** The same step for a loop appending to `base`. */
  lemma FlatMapGrow<A, B>(base: seq<B>, f: A -> seq<B>, xs: seq<A>, i: nat)
    requires i < |xs|
    ensures base + FlatMap(f, xs[..i + 1]) == (base + FlatMap(f, xs[..i])) + f(xs[i])
  {
    FlatMapTake(f, xs, i);
  }

  lemma {:induction false} FlatMapMember<A, B>(f: A -> seq<B>, xs: seq<A>, y: B)
    ensures y in FlatMap(f, xs) <==> exists x :: x in xs && y in f(x)
  {
    if xs != [] {
      var front, last := xs[..|xs| - 1], xs[|xs| - 1];
      FlatMapMember(f, front, y);
      assert xs == front + [last];
      assert forall x :: x in xs <==> x in front || x == last;
    }
  }

  lemma {:induction false} FlatMapConcat<A, B>(f: A -> seq<B>, xs: seq<A>, ys: seq<A>)
    ensures FlatMap(f, xs + ys) == FlatMap(f, xs) + FlatMap(f, ys)
  {
    if ys == [] {
      assert xs + ys == xs;
    } else {
      var front, last := ys[..|ys| - 1], ys[|ys| - 1];
      FlatMapConcat(f, xs, front);
      ConcatFront(xs, ys);
      Regroup(FlatMap(f, xs), FlatMap(f, front), f(last));
    }
  }

  lemma TakeThrough<T>(all: seq<T>, a: seq<T>, b: seq<T>, rest: seq<T>, j: nat)
    requires all == a + b + rest && j < |b|
    ensures |a| + j < |all| && all[..|a| + j] == a + b[..j]
  {
  }

  /** The first elements come from the first items, then from part of the next item. */
  lemma FlatMapPrefix<A, B>(f: A -> seq<B>, xs: seq<A>, i: nat, j: nat)
    requires i < |xs| && j < |f(xs[i])|
    ensures |FlatMap(f, xs[..i])| + j < |FlatMap(f, xs)|
    ensures FlatMap(f, xs)[..|FlatMap(f, xs[..i])| + j] == FlatMap(f, xs[..i]) + f(xs[i])[..j]
  {
    FlatMapTake(f, xs, i);
    assert xs == xs[..i + 1] + xs[i + 1..];
    FlatMapConcat(f, xs[..i + 1], xs[i + 1..]);
    TakeThrough(FlatMap(f, xs), FlatMap(f, xs[..i]), f(xs[i]), FlatMap(f, xs[i + 1..]), j);
  }

  /** First element for which `g` answers, scanning from the front. */
  function FirstSome<A, B>(g: A -> Option<B>, xs: seq<A>): Option<B> {
    if xs == [] then None else Or(FirstSome(g, xs[..|xs| - 1]), g(xs[|xs| - 1]))
  }

  lemma {:induction false} FirstSomeMeaning<A, B>(g: A -> Option<B>, xs: seq<A>, v: B)
    ensures FirstSome(g, xs).None? <==> forall x :: x in xs ==> g(x).None?
    ensures FirstSome(g, xs) == Some(v) <==>
            exists i :: 0 <= i < |xs| && g(xs[i]) == Some(v) && forall j :: 0 <= j < i ==> g(xs[j]).None?
  {
    if xs != [] {
      var front, n := xs[..|xs| - 1], |xs| - 1;
      FirstSomeMeaning(g, front, v);
      assert forall j :: 0 <= j < n ==> front[j] == xs[j];
      if FirstSome(g, front).None? {
        forall j | 0 <= j < n ensures g(xs[j]).None? { assert front[j] in front; }
      } else {
        var k: nat :| k < n && g(front[k]).Some?;
        assert xs[k] in xs;
      }
    }
  }

  ghost predicate NoDup<T>(xs: seq<T>) {
    forall i, j :: 0 <= i < j < |xs| ==> xs[i] != xs[j]
  }

  lemma NoDupSnoc<T>(xs: seq<T>, x: T)
    ensures NoDup(xs + [x]) <==> NoDup(xs) && x !in xs
  {
    var all := xs + [x];
    if NoDup(all) {
      forall i, j | 0 <= i < j < |xs| ensures xs[i] != xs[j] { assert all[i] != all[j]; }
      forall i | 0 <= i < |xs| ensures xs[i] != x { assert all[i] != all[|xs|]; }
    }
  }

  lemma NoDupConcat<T>(xs: seq<T>, ys: seq<T>)
    ensures NoDup(xs + ys) <==> NoDup(xs) && NoDup(ys) && forall x :: x in xs ==> x !in ys
  {
    var all := xs + ys;
    if NoDup(all) {
      forall i, j | 0 <= i < j < |xs| ensures xs[i] != xs[j] { assert all[i] != all[j]; }
      forall i, j | 0 <= i < j < |ys| ensures ys[i] != ys[j] { assert all[|xs| + i] != all[|xs| + j]; }
      forall i, j | 0 <= i < |xs| && 0 <= j < |ys| ensures xs[i] != ys[j] { assert all[i] != all[|xs| + j]; }
    } else if NoDup(xs) && NoDup(ys) {
      var i, j :| 0 <= i < j < |all| && all[i] == all[j];
      assert all[i] in xs && all[j] in ys;
    }
  }

  lemma Snoc<T>(a: seq<T>, front: seq<T>, last: T)
    ensures a + (front + [last]) == (a + front) + [last]
    ensures var all := a + (front + [last]); all[..|all| - 1] == a + front && all[|all| - 1] == last
  {
  }

  /** A concatenation without its last element. */
  lemma ConcatFront<T>(a: seq<T>, b: seq<T>)
    requires b != []
    ensures (a + b)[..|a + b| - 1] == a + b[..|b| - 1] && (a + b)[|a + b| - 1] == b[|b| - 1]
  {
  }

  lemma Regroup<T>(a: seq<T>, b: seq<T>, c: seq<T>)
    ensures (a + b) + c == a + (b + c)
  {
  }

  lemma Regroup4<T>(a: seq<T>, b: seq<T>, c: seq<T>, d: seq<T>)
    ensures a + b + c + d == a + (b + (c + d))
  {
  }

  function Elems<T>(xs: seq<T>): set<T> {
    set x | x in xs
  }

  /** One more element seen by a loop that collects the distinct elements of `xs`. */
  lemma NoDupTake<T>(xs: seq<T>, i: nat)
    requires i < |xs| && NoDup(xs[..i])
    ensures NoDup(xs[..i + 1]) <==> xs[i] !in xs[..i]
    ensures xs[i] in xs[..i] ==> !NoDup(xs)
    ensures Elems(xs[..i + 1]) == Elems(xs[..i]) + {xs[i]}
  {
    assert xs[..i + 1] == xs[..i] + [xs[i]];
    NoDupSnoc(xs[..i], xs[i]);
    assert xs == xs[..i + 1] + xs[i + 1..];
    NoDupConcat(xs[..i + 1], xs[i + 1..]);
  }
}
