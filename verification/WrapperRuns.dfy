/** Every run of wrapping, moving and destroying local references. */
module WrapperRuns {
  import opened References
  import opened Results

  datatype Step =
    | Wrap(wrapper: nat, isNull: bool)  // a JNI call whose result is wrapped at once
    | Move(source: nat, target: nat)
    | Destroy(wrapper: nat)

  /** `deleted` lists the deletions asked for, in order; `faults` counts those of dead references. */
  datatype World = World(table: Table, wrappers: map<nat, Ref>, deleted: seq<Ref>, faults: nat)

  predicate Enabled(w: World, step: Step) {
    match step
    case Wrap(x, _) => x !in w.wrappers
    case Move(x, y) => x in w.wrappers && y !in w.wrappers
    case Destroy(x) => x in w.wrappers
  }

  function Perform(w: World, step: Step): World
    requires Enabled(w, step)
  {
    match step
    case Wrap(x, true) => w.(wrappers := w.wrappers[x := NULL])
    case Wrap(x, false) => w.(table := w.table.Acquire(), wrappers := w.wrappers[x := w.table.next])
    case Move(x, y) => w.(wrappers := w.wrappers[y := w.wrappers[x]][x := NULL])
    case Destroy(x) =>
      var r, rest := w.wrappers[x], w.wrappers - {x};
      if r == NULL then w.(wrappers := rest)
      else World(w.table.Release(r), rest, w.deleted + [r], w.faults + if r in w.table.live then 0 else 1)
  }

  predicate Legal(w: World, steps: seq<Step>)
    decreases steps
  {
    steps == [] || (Enabled(w, steps[0]) && Legal(Perform(w, steps[0]), steps[1..]))
  }

  function Run(w: World, steps: seq<Step>): World
    requires Legal(w, steps)
    decreases steps
  {
    if steps == [] then w else Run(Perform(w, steps[0]), steps[1..])
  }

  predicate Owns(w: World, x: nat, r: Ref) { x in w.wrappers && w.wrappers[x] == r }

  ghost predicate HasOwner(w: World, r: Ref) { exists x :: Owns(w, x, r) }

  /** What every step keeps, for wrappers that came into being after `start`. */
  ghost predicate Sound(start: Table, w: World) {
    && w.table.Valid() && start.next <= w.table.next && w.faults == 0
    && (forall r | r in start.live :: r in w.table.live && r < start.next)
    // an owned reference is live and new
    && (forall x, r | Owns(w, x, r) && r != NULL :: r in w.table.live && start.next <= r)
    // no two wrappers own the same reference
    && (forall x, y, r | Owns(w, x, r) && Owns(w, y, r) && r != NULL :: x == y)
    // a live reference is an old one or an owned one
    && (forall r | r in w.table.live && r !in start.live :: HasOwner(w, r))
    // what was handed out is live or was deleted, never both, and deleted once at most
    && (forall r :: r in w.deleted <==> start.next <= r < w.table.next && r !in w.table.live)
    && (forall i, j | 0 <= i < j < |w.deleted| :: w.deleted[i] != w.deleted[j])
  }

  lemma MoveIsSound(start: Table, w: World, x: nat, y: nat)
    requires Sound(start, w) && Enabled(w, Move(x, y))
    ensures Sound(start, Perform(w, Move(x, y)))
  {
    var next := Perform(w, Move(x, y));
    forall r | r in next.table.live && r !in start.live ensures HasOwner(next, r) {
      assert HasOwner(w, r);
      var z :| Owns(w, z, r);
      assert Owns(next, if z == x then y else z, r);
    }
    forall z, r | Owns(next, z, r) && r != NULL ensures Owns(w, if z == y then x else z, r) {}
  }

  lemma WrapIsSound(start: Table, w: World, x: nat, isNull: bool)
    requires Sound(start, w) && Enabled(w, Wrap(x, isNull))
    ensures Sound(start, Perform(w, Wrap(x, isNull)))
  {
    var next := Perform(w, Wrap(x, isNull));
    forall r | r in next.table.live && r !in start.live ensures HasOwner(next, r) {
      if r in w.table.live {
        assert HasOwner(w, r);
        var z :| Owns(w, z, r);
        assert Owns(next, z, r);
      } else {
        assert Owns(next, x, r);
      }
    }
    forall z, r | Owns(next, z, r) && z != x ensures Owns(w, z, r) {}
  }

  lemma DestroyIsSound(start: Table, w: World, x: nat)
    requires Sound(start, w) && Enabled(w, Destroy(x))
    ensures Sound(start, Perform(w, Destroy(x)))
  {
    var next := Perform(w, Destroy(x));
    var gone := w.wrappers[x];
    assert Owns(w, x, gone);
    forall r | r in next.table.live && r !in start.live ensures HasOwner(next, r) {
      assert HasOwner(w, r);
      var z :| Owns(w, z, r);
      assert Owns(next, z, r);
    }
    forall z, r | Owns(next, z, r) ensures Owns(w, z, r) && z != x {}
    if gone != NULL {
      assert gone !in w.deleted;
      forall r ensures r in next.deleted <==> r in w.deleted || r == gone {}
    }
  }

  lemma StepIsSound(start: Table, w: World, step: Step)
    requires Sound(start, w) && Enabled(w, step)
    ensures Sound(start, Perform(w, step)) && DeletesLive(w, step)
  {
    assert step.Destroy? ==> Owns(w, step.wrapper, w.wrappers[step.wrapper]);
    match step
    case Wrap(x, isNull) => WrapIsSound(start, w, x, isNull);
    case Move(x, y) => MoveIsSound(start, w, x, y);
    case Destroy(x) => DestroyIsSound(start, w, x);
  }

  lemma {:induction false} RunIsSound(start: Table, w: World, steps: seq<Step>)
    requires Sound(start, w) && Legal(w, steps)
    ensures Sound(start, Run(w, steps))
    decreases steps
  {
    if steps != [] {
      StepIsSound(start, w, steps[0]);
      RunIsSound(start, Perform(w, steps[0]), steps[1..]);
    }
  }

  /** Over every run, each new live reference has exactly one owner and nothing is deleted twice;
      when no wrapper is left, the table holds what it held at the start and every reference
      handed out on the way was deleted. */
  lemma EveryRunBalances(start: Table, steps: seq<Step>)
    requires start.Valid() && Legal(World(start, map[], [], 0), steps)
    ensures var w := Run(World(start, map[], [], 0), steps);
            && w.faults == 0
            && (forall r | r in w.table.live && r !in start.live ::
                  exists x :: Owns(w, x, r) && forall y :: Owns(w, y, r) ==> y == x)
            && (forall i, j | 0 <= i < j < |w.deleted| :: w.deleted[i] != w.deleted[j])
            && (w.wrappers == map[] ==>
                  && w.table.live == start.live
                  && forall r :: r in w.deleted <==> start.next <= r < w.table.next)
  {
    RunIsSound(start, World(start, map[], [], 0), steps);
    var w := Run(World(start, map[], [], 0), steps);
    forall r | r in w.table.live && r !in start.live
      ensures exists x :: Owns(w, x, r) && forall y :: Owns(w, y, r) ==> y == x
    {
      assert HasOwner(w, r) && r != NULL;
      var x :| Owns(w, x, r);
    }
  }

  /** A move hands the reference over; destroying the moved-from wrapper deletes nothing. */
  lemma DestroyOfMovedFromIsSilent(w: World, x: nat, y: nat)
    requires Enabled(w, Move(x, y))
    ensures var moved := Perform(w, Move(x, y));
            && moved.wrappers[y] == w.wrappers[x]
            && Perform(moved, Destroy(x)) == w.(wrappers := w.wrappers - {x} + map[y := w.wrappers[x]])
  {
    var moved := Perform(w, Move(x, y));
    assert moved.wrappers - {x} == w.wrappers - {x} + map[y := w.wrappers[x]];
  }

  // ---------- what a run comes to, by its steps alone ----------

  /** How many references the JNI calls of the first `n` steps return. */
  function Handed(steps: seq<Step>, n: nat): nat
    requires n <= |steps|
  {
    if n == 0 then 0 else Handed(steps, n - 1) + if steps[n - 1].Wrap? && !steps[n - 1].isNull then 1 else 0
  }

  /** What the wrapper `x` holds after the first `n` steps, if there is such a wrapper: references
      are numbered from `first` in the order they are returned. */
  function HeldBy(first: Ref, steps: seq<Step>, n: nat, x: nat): Option<Ref>
    requires n <= |steps|
  {
    if n == 0 then None
    else match steps[n - 1]
      case Wrap(y, isNull) =>
        if x != y then HeldBy(first, steps, n - 1, x)
        else Some(if isNull then NULL else first + Handed(steps, n - 1))
      case Move(y, z) =>
        if x == y then Some(NULL)
        else if x == z then HeldBy(first, steps, n - 1, y)
        else HeldBy(first, steps, n - 1, x)
      case Destroy(y) => if x == y then None else HeldBy(first, steps, n - 1, x)
  }

  /** The deletions asked for by the first `n` steps. */
  function Deletions(first: Ref, steps: seq<Step>, n: nat): seq<Ref>
    requires n <= |steps|
  {
    if n == 0 then []
    else
      Deletions(first, steps, n - 1)
      + match steps[n - 1]
        case Destroy(x) =>
          var held := HeldBy(first, steps, n - 1, x);
          if held.None? || held == Some(NULL) then [] else [held.value]
        case _ => []
  }

  /** A wrapper is made where there is none, and moved from or destroyed where there is one. */
  predicate Allowed(first: Ref, steps: seq<Step>, n: nat)
    requires n < |steps|
  {
    match steps[n]
    case Wrap(x, _) => HeldBy(first, steps, n, x).None?
    case Move(x, y) => HeldBy(first, steps, n, x).Some? && HeldBy(first, steps, n, y).None?
    case Destroy(x) => HeldBy(first, steps, n, x).Some?
  }

  lemma {:induction false} LegalOneMore(w: World, steps: seq<Step>, step: Step)
    ensures Legal(w, steps + [step]) <==> Legal(w, steps) && Enabled(Run(w, steps), step)
    ensures Legal(w, steps + [step]) ==> Run(w, steps + [step]) == Perform(Run(w, steps), step)
    decreases steps
  {
    if steps == [] {
      assert steps + [step] == [step] && [step][1..] == [];
    } else {
      assert (steps + [step])[0] == steps[0] && (steps + [step])[1..] == steps[1..] + [step];
      if Enabled(w, steps[0]) {
        LegalOneMore(Perform(w, steps[0]), steps[1..], step);
      }
    }
  }

  /** The wrappers are what the steps say. */
  ghost predicate SaysHeld(start: Table, steps: seq<Step>, n: nat, w: World)
    requires n <= |steps|
  {
    forall x :: HeldBy(start.next, steps, n, x) == if x in w.wrappers then Some(w.wrappers[x]) else None
  }

  /** So is the rest of the world. */
  ghost predicate Says(start: Table, steps: seq<Step>, n: nat, w: World)
    requires n <= |steps|
  {
    && w.table.next == start.next + Handed(steps, n)
    && w.deleted == Deletions(start.next, steps, n)
    && |w.table.live| + |w.deleted| == |start.live| + Handed(steps, n)
    && SaysHeld(start, steps, n, w)
  }

  lemma StepSaysHeld(start: Table, steps: seq<Step>, n: nat, w: World, x: nat)
    requires n < |steps| && SaysHeld(start, steps, n, w) && Enabled(w, steps[n])
    requires w.table.next == start.next + Handed(steps, n)
    ensures var next := Perform(w, steps[n]).wrappers;
            HeldBy(start.next, steps, n + 1, x) == if x in next then Some(next[x]) else None
  {
    assert HeldBy(start.next, steps, n, x) == if x in w.wrappers then Some(w.wrappers[x]) else None;
    if steps[n].Move? {
      var y := steps[n].source;
      assert HeldBy(start.next, steps, n, y) == if y in w.wrappers then Some(w.wrappers[y]) else None;
    }
  }

  lemma StepSaysDeleted(start: Table, steps: seq<Step>, n: nat, w: World)
    requires n < |steps| && SaysHeld(start, steps, n, w) && Enabled(w, steps[n])
    requires w.deleted == Deletions(start.next, steps, n)
    ensures Perform(w, steps[n]).deleted == Deletions(start.next, steps, n + 1)
  {
    if steps[n].Destroy? {
      var x := steps[n].wrapper;
      assert HeldBy(start.next, steps, n, x) == if x in w.wrappers then Some(w.wrappers[x]) else None;
    }
  }

  lemma StepSaysCounts(start: Table, steps: seq<Step>, n: nat, w: World)
    requires n < |steps| && Says(start, steps, n, w) && Enabled(w, steps[n])
    requires w.table.Valid() && DeletesLive(w, steps[n])
    ensures var next := Perform(w, steps[n]);
            && next.table.next == start.next + Handed(steps, n + 1)
            && |next.table.live| + |next.deleted| == |start.live| + Handed(steps, n + 1)
  {}

  lemma StepSays(start: Table, steps: seq<Step>, n: nat, w: World)
    requires n < |steps| && Says(start, steps, n, w) && Sound(start, w) && Enabled(w, steps[n])
    ensures Says(start, steps, n + 1, Perform(w, steps[n]))
  {
    StepIsSound(start, w, steps[n]);
    StepSaysCounts(start, steps, n, w);
    StepSaysDeleted(start, steps, n, w);
    var next := Perform(w, steps[n]).wrappers;
    forall x ensures HeldBy(start.next, steps, n + 1, x) == if x in next then Some(next[x]) else None {
      StepSaysHeld(start, steps, n, w, x);
    }
  }

  lemma EnabledAsAllowed(start: Table, steps: seq<Step>, n: nat, w: World)
    requires n < |steps| && Says(start, steps, n, w)
    ensures Enabled(w, steps[n]) <==> Allowed(start.next, steps, n)
  {
    match steps[n]
    case Wrap(x, _) =>
      assert HeldBy(start.next, steps, n, x) == if x in w.wrappers then Some(w.wrappers[x]) else None;
    case Move(x, y) =>
      assert HeldBy(start.next, steps, n, x) == if x in w.wrappers then Some(w.wrappers[x]) else None;
      assert HeldBy(start.next, steps, n, y) == if y in w.wrappers then Some(w.wrappers[y]) else None;
    case Destroy(x) =>
      assert HeldBy(start.next, steps, n, x) == if x in w.wrappers then Some(w.wrappers[x]) else None;
  }

  predicate AllAllowed(first: Ref, steps: seq<Step>, n: nat)
    requires n <= |steps|
  {
    forall k | 0 <= k < n :: Allowed(first, steps, k)
  }

  lemma AllAllowedNext(first: Ref, steps: seq<Step>, n: nat)
    requires n < |steps|
    ensures AllAllowed(first, steps, n + 1) <==> AllAllowed(first, steps, n) && Allowed(first, steps, n)
  {}

  lemma LegalShorter(w: World, steps: seq<Step>, n: nat)
    requires n < |steps| && Legal(w, steps[..n + 1])
    ensures Legal(w, steps[..n])
  {
    assert steps[..n + 1] == steps[..n] + [steps[n]];
    LegalOneMore(w, steps[..n], steps[n]);
  }

  lemma OneMoreSays(start: Table, steps: seq<Step>, n: nat, w: World)
    requires start.Valid() && n < |steps| && w == World(start, map[], [], 0)
    requires Legal(w, steps[..n]) && Says(start, steps, n, Run(w, steps[..n]))
    ensures Legal(w, steps[..n + 1]) <==> Allowed(start.next, steps, n)
    ensures Legal(w, steps[..n + 1]) ==> Says(start, steps, n + 1, Run(w, steps[..n + 1]))
  {
    assert steps[..n + 1] == steps[..n] + [steps[n]];
    LegalOneMore(w, steps[..n], steps[n]);
    var before := Run(w, steps[..n]);
    EnabledAsAllowed(start, steps, n, before);
    if Enabled(before, steps[n]) {
      RunIsSound(start, w, steps[..n]);
      StepSays(start, steps, n, before);
    }
  }

  /** A run is legal if and only if each of its steps is allowed by those before it, and then it
      ends as the steps say: which wrappers there are, which reference each holds, what was deleted
      in which order, and how many references are live. */
  lemma {:induction false} RunsAsItsStepsSay(start: Table, steps: seq<Step>, n: nat)
    requires start.Valid() && n <= |steps|
    ensures var w := World(start, map[], [], 0);
            && (Legal(w, steps[..n]) <==> AllAllowed(start.next, steps, n))
            && (Legal(w, steps[..n]) ==> Says(start, steps, n, Run(w, steps[..n])))
  {
    var w := World(start, map[], [], 0);
    if n > 0 {
      var m := n - 1;
      RunsAsItsStepsSay(start, steps, m);
      AllAllowedNext(start.next, steps, m);
      if Legal(w, steps[..m]) {
        OneMoreSays(start, steps, m, w);
      } else if Legal(w, steps[..n]) {
        LegalShorter(w, steps, m);
      }
    }
  }

  lemma SubsetSize<T>(a: set<T>, b: set<T>)
    requires a <= b
    ensures |b - a| == |b| - |a|
  {
    assert b == a + (b - a);
  }

  /** Every reference that a JNI call returned is live or was deleted: with no wrapper left, as many
      were deleted as were returned. */
  lemma ReturnedIsLiveOrDeleted(start: Table, steps: seq<Step>)
    requires start.Valid() && Legal(World(start, map[], [], 0), steps)
    ensures var w := Run(World(start, map[], [], 0), steps);
            && w.table.next == start.next + Handed(steps, |steps|)
            && |w.deleted| + |w.table.live - start.live| == Handed(steps, |steps|)
            && (w.wrappers == map[] ==> |w.deleted| == Handed(steps, |steps|))
  {
    assert steps[..|steps|] == steps;
    RunsAsItsStepsSay(start, steps, |steps|);
    EveryRunBalances(start, steps);
    RunIsSound(start, World(start, map[], [], 0), steps);
    var w := Run(World(start, map[], [], 0), steps);
    SubsetSize(start.live, w.table.live);
    if w.wrappers == map[] {
      assert w.table.live - start.live == {};
    }
  }

  // ---------- the same runs on the wrapper objects ----------

  /** The wrapper objects of an environment stand for the wrappers of a world. */
  ghost predicate Represents(env: JniEnv, objects: map<nat, LocalRef>, w: World)
    reads env, objects.Values
  {
    && env.locals == w.table && objects.Keys == w.wrappers.Keys
    && (forall x | x in objects :: objects[x].env == env && objects[x].ref == w.wrappers[x])
    && (forall x, y | x in objects && y in objects && x != y :: objects[x] != objects[y])
  }

  /** What a destructor asks to delete is live. */
  predicate DeletesLive(w: World, step: Step)
    requires Enabled(w, step)
  {
    step.Destroy? ==> w.wrappers[step.wrapper] == NULL || w.wrappers[step.wrapper] in w.table.live
  }

  method ExecuteWrap(env: JniEnv, objects: map<nat, LocalRef>, x: nat, isNull: bool, ghost w: World)
    returns (next: map<nat, LocalRef>)
    requires env.Valid() && Represents(env, objects, w) && Enabled(w, Wrap(x, isNull))
    modifies env
    ensures env.Valid() && env.globals == old(env.globals)
    ensures Represents(env, next, Perform(w, Wrap(x, isNull))) && fresh(next.Values - objects.Values)
  {
    var r := NULL;
    if !isNull {
      r := env.NewLocalRef();
    }
    var wrapper := new LocalRef(env, r);
    next := objects[x := wrapper];
  }

  method ExecuteMove(env: JniEnv, objects: map<nat, LocalRef>, x: nat, y: nat, ghost w: World)
    returns (next: map<nat, LocalRef>)
    requires env.Valid() && Represents(env, objects, w) && Enabled(w, Move(x, y))
    modifies objects[x]
    ensures Represents(env, next, Perform(w, Move(x, y))) && fresh(next.Values - objects.Values)
  {
    var wrapper := new LocalRef.Move(objects[x]);
    next := objects[y := wrapper];
  }

  method ExecuteStep(env: JniEnv, objects: map<nat, LocalRef>, step: Step, ghost w: World)
    returns (next: map<nat, LocalRef>)
    requires env.Valid() && Represents(env, objects, w) && Enabled(w, step) && DeletesLive(w, step)
    modifies env, objects.Values
    ensures env.Valid() && env.globals == old(env.globals) && Represents(env, next, Perform(w, step))
    ensures fresh(next.Values - objects.Values)
  {
    if step.Wrap? {
      next := ExecuteWrap(env, objects, step.wrapper, step.isNull, w);
    } else if step.Move? {
      next := ExecuteMove(env, objects, step.source, step.target, w);
    } else {
      objects[step.wrapper].Destroy();
      next := objects - {step.wrapper};
    }
  }

  /** Every legal run can be executed: no destructor is ever asked to delete a dead reference, and
      the environment ends up as the run says. */
  method Execute(env: JniEnv, steps: seq<Step>) returns (objects: map<nat, LocalRef>)
    requires env.Valid() && Legal(World(env.locals, map[], [], 0), steps)
    modifies env
    ensures env.Valid() && env.globals == old(env.globals)
    ensures Represents(env, objects, Run(World(old(env.locals), map[], [], 0), steps))
  {
    ghost var start := env.locals;
    ghost var w := World(start, map[], [], 0);
    var rest := steps;
    objects := map[];
    while rest != []
      invariant env.Valid() && env.globals == old(env.globals)
      invariant Legal(w, rest) && Run(w, rest) == Run(World(start, map[], [], 0), steps)
      invariant Sound(start, w) && Represents(env, objects, w) && fresh(objects.Values)
      decreases |rest|
    {
      StepIsSound(start, w, rest[0]);
      objects := ExecuteStep(env, objects, rest[0], w);
      w := Perform(w, rest[0]);
      rest := rest[1..];
    }
  }
}
