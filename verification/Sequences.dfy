/** The few facts about sequences that several components share. */
module Sequences {

  lemma ConcatAssociates<T>(a: seq<T>, b: seq<T>, c: seq<T>)
    ensures a + b + c == a + (b + c)
  {}

  /** The concatenation of `f` over `xs`. */
  function ConcatMap<S, T>(f: S -> seq<T>, xs: seq<S>): seq<T> {
    if xs == [] then [] else f(xs[0]) + ConcatMap(f, xs[1..])
  }

  lemma ConcatMapCons<S, T>(f: S -> seq<T>, x: S, xs: seq<S>)
    ensures ConcatMap(f, [x] + xs) == f(x) + ConcatMap(f, xs)
  {
    assert ([x] + xs)[0] == x && ([x] + xs)[1..] == xs;
  }

  lemma {:induction false} ConcatMapAppend<S, T>(f: S -> seq<T>, xs: seq<S>, ys: seq<S>)
    ensures ConcatMap(f, xs + ys) == ConcatMap(f, xs) + ConcatMap(f, ys)
  {
    if xs == [] {
      assert xs + ys == ys;
    } else {
      ConcatMapAppend(f, xs[1..], ys);
      assert (xs + ys)[0] == xs[0] && (xs + ys)[1..] == xs[1..] + ys;
      ConcatAssociates(f(xs[0]), ConcatMap(f, xs[1..]), ConcatMap(f, ys));
    }
  }

  lemma ConcatMapOne<S, T>(f: S -> seq<T>, xs: seq<S>, x: S)
    ensures ConcatMap(f, xs + [x]) == ConcatMap(f, xs) + f(x)
  {
    ConcatMapAppend(f, xs, [x]);
    assert ConcatMap(f, [x]) == f(x) + ConcatMap(f, []);
  }

  lemma ConcatMapTake<S, T>(f: S -> seq<T>, xs: seq<S>, k: nat)
    requires k < |xs|
    ensures ConcatMap(f, xs[..k + 1]) == ConcatMap(f, xs[..k]) + f(xs[k])
    ensures |ConcatMap(f, xs[..k])| + |f(xs[k])| <= |ConcatMap(f, xs)|
  {
    assert xs[..k + 1] == xs[..k] + [xs[k]];
    ConcatMapOne(f, xs[..k], xs[k]);
    ConcatMapAppend(f, xs[..k + 1], xs[k + 1..]);
    assert xs == xs[..k + 1] + xs[k + 1..];
  }

  /** Folding from the left. */
  function Fold<S, T>(f: (S, T) -> S, s: S, xs: seq<T>): S {
    if xs == [] then s else Fold(f, f(s, xs[0]), xs[1..])
  }

  lemma {:induction false} FoldAppend<S, T>(f: (S, T) -> S, s: S, xs: seq<T>, ys: seq<T>)
    ensures Fold(f, s, xs + ys) == Fold(f, Fold(f, s, xs), ys)
  {
    if xs == [] {
      assert xs + ys == ys;
    } else {
      assert (xs + ys)[0] == xs[0] && (xs + ys)[1..] == xs[1..] + ys;
      FoldAppend(f, f(s, xs[0]), xs[1..], ys);
    }
  }

  lemma FoldTake<S, T>(f: (S, T) -> S, s: S, xs: seq<T>, k: nat)
    requires k < |xs|
    ensures Fold(f, s, xs[..k + 1]) == f(Fold(f, s, xs[..k]), xs[k])
  {
    assert xs[..k + 1] == xs[..k] + [xs[k]];
    FoldAppend(f, s, xs[..k], [xs[k]]);
    var t := Fold(f, s, xs[..k]);
    assert Fold(f, t, [xs[k]]) == Fold(f, f(t, xs[k]), []);
  }
}
