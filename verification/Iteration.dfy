/** Walking a Java `Iterable` from native code, one callback per element. */
module Iteration {
  import opened Sequences
  import opened References

  /** A native callback: what it does to the client's state, and what it does to the table of
      local references besides consuming its argument. */
  datatype Callback<!S, !T> = Callback(effect: (S, T, nat) -> S, refs: (S, T, nat, Table) -> Table)

  /** The callback releases all it acquires, however much that is. */
  ghost predicate Restoring<S(!new), T(!new)>(callback: Callback<S, T>) {
    forall s, x, i, t: Table {:trigger callback.refs(s, x, i, t)} ::
      t.Valid() ==> Returned(t, callback.refs(s, x, i, t))
  }

  /** At its worst moment it holds between `low` and `top` references. A callback that is known
      only by an upper bound has 0 for `low`. */
  ghost predicate Balanced<S(!new), T(!new)>(callback: Callback<S, T>, low: nat, top: nat) {
    forall s, x, i, t: Table {:trigger callback.refs(s, x, i, t)} ::
      t.Valid() ==> Peaked(t, callback.refs(s, x, i, t), low, top)
  }

  /** The effects of the callback over the elements, with their positions, in order. */
  function FoldIndexed<S, T>(f: (S, T, nat) -> S, s: S, xs: seq<T>, from: nat): S
    decreases xs
  {
    if xs == [] then s else FoldIndexed(f, f(s, xs[0], from), xs[1..], from + 1)
  }

  lemma {:induction false} FoldIndexedOne<S, T>(f: (S, T, nat) -> S, s: S, xs: seq<T>, x: T, from: nat)
    ensures FoldIndexed(f, s, xs + [x], from) == f(FoldIndexed(f, s, xs, from), x, from + |xs|)
    decreases xs
  {
    if xs == [] {
      assert xs + [x] == [x];
      assert FoldIndexed(f, s, [x], from) == FoldIndexed(f, f(s, x, from), [], from + 1);
    } else {
      assert (xs + [x])[0] == xs[0] && (xs + [x])[1..] == xs[1..] + [x];
      FoldIndexedOne(f, f(s, xs[0], from), xs[1..], x, from + 1);
    }
  }

  /** Every element once, in order, with positions 0, 1, 2 and so on. */
  function Visits<T>(xs: seq<T>): (r: seq<(T, nat)>)
    ensures |r| == |xs| && forall i | 0 <= i < |r| :: r[i] == (xs[i], i)
  {
    seq(|xs|, i requires 0 <= i < |xs| => (xs[i], i))
  }

  /** A callback that logs its calls logs exactly the visits. */
  lemma {:induction false} VisitsInOrder<T>(log: seq<(T, nat)>, xs: seq<T>)
    ensures FoldIndexed((s, x, i) => s + [(x, i)], log, xs, 0) == log + Visits(xs)
  {
    var f := (s: seq<(T, nat)>, x: T, i: nat) => s + [(x, i)];
    if xs == [] {
      assert log + Visits(xs) == log;
    } else {
      var n := |xs| - 1;
      VisitsInOrder(log, xs[..n]);
      FoldIndexedOne(f, log, xs[..n], xs[n], 0);
      assert xs == xs[..n] + [xs[n]];
      assert log + Visits(xs[..n]) + [(xs[n], n)] == log + Visits(xs);
    }
  }

  /** Whatever the callback does, its effects are those of the visits, in their order. */
  lemma {:induction false} WalkFactorsThroughVisits<S, T>(f: (S, T, nat) -> S, s: S, xs: seq<T>)
    ensures FoldIndexed(f, s, xs, 0) == Fold((s, v: (T, nat)) => f(s, v.0, v.1), s, Visits(xs))
  {
    if xs != [] {
      var n := |xs| - 1;
      WalkFactorsThroughVisits(f, s, xs[..n]);
      FoldIndexedOne(f, s, xs[..n], xs[n], 0);
      assert xs == xs[..n] + [xs[n]];
      FoldTake((s, v: (T, nat)) => f(s, v.0, v.1), s, Visits(xs), n);
      assert Visits(xs)[..n] == Visits(xs[..n]) && Visits(xs)[..n + 1] == Visits(xs);
    }
  }

  /** `callback(next(), i)`: the temporary element is moved into the callback's parameter. */
  method Call<S(!new), T(!new)>(
      env: JniEnv, x: T, i: nat, callback: Callback<S, T>, before: S, ghost low: nat, ghost top: nat)
    returns (after: S)
    requires env.Valid() && Restoring(callback)
    modifies env
    ensures env.Valid() && env.globals == old(env.globals) && Returned(old(env.locals), env.locals)
    ensures Balanced(callback, low, top) ==> Peaked(old(env.locals), env.locals, 1 + low, 1 + top)
    ensures after == callback.effect(before, x, i)
  {
    var element := env.NewLocalRef();
    var argument := new LocalRef(env, element);
    var parameter := new LocalRef.Move(argument);
    env.locals := callback.refs(before, x, i, env.locals);
    after := callback.effect(before, x, i);
    parameter.Destroy();
    argument.Destroy();
  }

  /** For any callback that releases what it acquires, the table is left as it was found. If what
      it holds at once is bounded, so is the number of references live at once, and the bound does
      not grow with the collection: one for the iterator, one for the element, and whatever the
      callback itself holds. */
  method IterateWithIndex<S(!new), T(!new)>(
      env: JniEnv, iterable: seq<T>, callback: Callback<S, T>, initial: S, ghost low: nat, ghost top: nat)
    returns (state: S)
    requires env.Valid() && Restoring(callback)
    modifies env
    ensures env.Valid() && env.globals == old(env.globals) && Returned(old(env.locals), env.locals)
    ensures Balanced(callback, low, top) && iterable != [] ==> Peaked(old(env.locals), env.locals, 2 + low, 2 + top)
    ensures iterable == [] ==> Peaked(old(env.locals), env.locals, 1, 1)
    ensures state == FoldIndexed(callback.effect, initial, iterable, 0)
  {
    state := initial;
    var handle := env.NewLocalRef();
    var cursor := new LocalRef(env, handle);
    ghost var entered := env.locals;
    var i := 0;
    while i < |iterable|
      invariant i <= |iterable| && cursor.ref == handle && cursor.env == env
      invariant env.Valid() && env.globals == old(env.globals) && Returned(entered, env.locals)
      invariant if i == 0 then env.locals == entered
                else Balanced(callback, low, top) ==> Peaked(entered, env.locals, 1 + low, 1 + top)
      invariant state == FoldIndexed(callback.effect, initial, iterable[..i], 0)
    {
      FoldIndexedOne(callback.effect, initial, iterable[..i], iterable[i], 0);
      assert iterable[..i + 1] == iterable[..i] + [iterable[i]];
      state := Call(env, iterable[i], i, callback, state, low, top);
      i := i + 1;
    }
    assert iterable[..i] == iterable;
    cursor.Destroy();
  }

  /** The same walk for callbacks that do not look at the position. */
  method Iterate<S(!new), T(!new)>(
      env: JniEnv, iterable: seq<T>, callback: Callback<S, T>, initial: S, ghost low: nat, ghost top: nat)
    returns (state: S)
    requires env.Valid() && Restoring(callback)
    requires forall s, x, i, j :: callback.effect(s, x, i) == callback.effect(s, x, j)
    modifies env
    ensures env.Valid() && env.globals == old(env.globals) && Returned(old(env.locals), env.locals)
    ensures Balanced(callback, low, top) && iterable != [] ==> Peaked(old(env.locals), env.locals, 2 + low, 2 + top)
    ensures iterable == [] ==> Peaked(old(env.locals), env.locals, 1, 1)
    ensures state == FoldIndexed(callback.effect, initial, iterable, 0)
  {
    state := IterateWithIndex(env, iterable, callback, initial, low, top);
  }

  /** The common callback: append what `convert` makes of the element to a list. */
  function Appender<S(!new), T(!new)>(convert: S -> seq<T>, refs: (S, Table) -> Table): Callback<seq<T>, S> {
    Callback((made: seq<T>, x: S, i: nat) => made + convert(x), (made: seq<T>, x: S, i: nat, t: Table) => refs(x, t))
  }

  /** A callback that appends to a list builds the concatenation. */
  lemma {:induction false} AppendingBuilds<S(!new), T(!new)>(
      f: S -> seq<T>, refs: (S, Table) -> Table, base: seq<T>, xs: seq<S>)
    ensures FoldIndexed(Appender(f, refs).effect, base, xs, 0) == base + ConcatMap(f, xs)
  {
    var g := Appender(f, refs).effect;
    if xs == [] {
      assert base + [] == base;
    } else {
      var n := |xs| - 1;
      AppendingBuilds(f, refs, base, xs[..n]);
      FoldIndexedOne(g, base, xs[..n], xs[n], 0);
      ConcatMapOne(f, xs[..n], xs[n]);
      assert xs == xs[..n] + [xs[n]];
      ConcatAssociates(base, ConcatMap(f, xs[..n]), f(xs[n]));
    }
  }

  /** What the callback does with references for one element releases all it acquires. */
  ghost predicate Neutral<S(!new)>(refs: (S, Table) -> Table) {
    forall x, t: Table {:trigger refs(x, t)} :: t.Valid() ==> Returned(t, refs(x, t))
  }

  ghost predicate Holds<S(!new)>(refs: (S, Table) -> Table, low: nat, top: nat) {
    forall x, t: Table {:trigger refs(x, t)} :: t.Valid() ==> Peaked(t, refs(x, t), low, top)
  }

  method Collect<S(!new), T(!new)>(
      env: JniEnv, iterable: seq<S>, convert: S -> seq<T>, refs: (S, Table) -> Table, ghost low: nat, ghost top: nat)
    returns (made: seq<T>)
    requires env.Valid() && Neutral(refs)
    modifies env
    ensures env.Valid() && env.globals == old(env.globals) && Returned(old(env.locals), env.locals)
    ensures Holds(refs, low, top) && iterable != [] ==> Peaked(old(env.locals), env.locals, 2 + low, 2 + top)
    ensures iterable == [] ==> Peaked(old(env.locals), env.locals, 1, 1)
    ensures made == ConcatMap(convert, iterable)
  {
    var append := Appender(convert, refs);
    assert Holds(refs, low, top) ==> Balanced(append, low, top);
    made := Iterate(env, iterable, append, [], low, top);
    AppendingBuilds(convert, refs, [], iterable);
    assert [] + ConcatMap(convert, iterable) == ConcatMap(convert, iterable);
  }
}
