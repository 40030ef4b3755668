/** The completion callback of a command request. The Java future is kept alive by one global
    reference, shared by every copy of the callback and released with the last of them. */
module FutureCallback {
  import opened Sequences
  import opened References

  datatype PointResult = PointResult(headerIndex: nat, index: nat, state: int, status: int)
  datatype TaskResult = TaskResult(summary: int, points: seq<PointResult>)

  /** One `complete` call: on which handle, and with what. */
  datatype Completion = Completion(future: Ref, result: TaskResult)

  // ---------- every interleaving ----------

  /** Copies and drops of the callback, invocations of it, and what the rest of the program does
      to global references of its own. */
  datatype Step =
    | Copy(source: nat, target: nat)
    | Drop(holder: nat)
    | Invoke(holder: nat, result: TaskResult)
    | OtherAcquire
    | OtherRelease(ref: Ref)

  /** `holders` are the places that hold the shared pointer: copies of the callback, and the
      local variable of `operate`. `others` are the live references of the rest of the program.
      `faults` counts uses and deletions of a dead handle. */
  datatype Shared = Shared(
      globals: Table, others: set<Ref>, reference: Ref, holders: set<nat>, useCount: int,
      completions: seq<Completion>, deletions: nat, faults: nat)

  /** `operate` as it hands the callback to the master: the global reference is made, and held
      by the local shared pointer (0) and by the captured one (1). A null future has a null
      reference. */
  function Operate(globals: Table, future: Ref): Shared {
    if future == NULL then Shared(globals, globals.live, NULL, {0, 1}, 2, [], 0, 0)
    else Shared(globals.Acquire(), globals.live, globals.next, {0, 1}, 2, [], 0, 0)
  }

  predicate Enabled(s: Shared, step: Step) {
    match step
    case Copy(x, y) => x in s.holders && y !in s.holders
    case Drop(x) => x in s.holders
    case Invoke(x, _) => x in s.holders
    case OtherAcquire => true
    case OtherRelease(r) => r in s.others
  }

  /** The destructor of `GlobalRef`; deleting the null reference is allowed and does nothing. */
  function DeleteReference(s: Shared): Shared {
    s.(globals := s.globals.Release(s.reference),
       deletions := s.deletions + 1,
       faults := s.faults + if s.reference == NULL || s.reference in s.globals.live then 0 else 1)
  }

  function Perform(s: Shared, step: Step): Shared
    requires Enabled(s, step)
  {
    match step
    case Copy(_, y) => s.(holders := s.holders + {y}, useCount := s.useCount + 1)
    case Drop(x) =>
      var dropped := s.(holders := s.holders - {x}, useCount := s.useCount - 1);
      if dropped.useCount == 0 then DeleteReference(dropped) else dropped
    case Invoke(_, result) =>
      s.(completions := s.completions + [Completion(s.reference, result)],
         faults := s.faults + if s.reference in s.globals.live then 0 else 1)
    case OtherAcquire => s.(globals := s.globals.Acquire(), others := s.others + {s.globals.next})
    case OtherRelease(r) => s.(globals := s.globals.Release(r), others := s.others - {r})
  }

  predicate Legal(s: Shared, steps: seq<Step>)
    decreases steps
  {
    steps == [] || (Enabled(s, steps[0]) && Legal(Perform(s, steps[0]), steps[1..]))
  }

  function Run(s: Shared, steps: seq<Step>): Shared
    requires Legal(s, steps)
    decreases steps
  {
    if steps == [] then s else Run(Perform(s, steps[0]), steps[1..])
  }

  /** The reference as long as somebody holds the callback. */
  function Kept(s: Shared): set<Ref> {
    if s.holders == {} || s.reference == NULL then {} else {s.reference}
  }

  /** The reference is live exactly as long as somebody holds the callback. Every use of a null
      future is a fault. */
  ghost predicate Sound(s: Shared) {
    && s.globals.Valid() && s.reference < s.globals.next
    && s.faults == (if s.reference == NULL then |s.completions| else 0)
    && s.useCount == |s.holders| && s.reference !in s.others
    && s.globals.live == s.others + Kept(s)
    && s.deletions == (if s.holders == {} then 1 else 0)
  }

  /** What one step completes: an invocation completes the future with its result. */
  function Completed(reference: Ref): Step -> seq<Completion> {
    (step: Step) => if step.Invoke? then [Completion(reference, step.result)] else []
  }

  lemma OneMore<T>(s: set<T>, x: T)
    requires x !in s
    ensures |s + {x}| == |s| + 1
  {}

  lemma OneLess<T>(s: set<T>, x: T)
    requires x in s
    ensures |s - {x}| == |s| - 1 && (|s| == 1 <==> s - {x} == {})
  {
    assert s == (s - {x}) + {x};
  }

  lemma UnionLess<T>(a: set<T>, b: set<T>, x: T)
    requires x !in b
    ensures (a + b) - {x} == (a - {x}) + b
  {}

  lemma CopyIsSound(s: Shared, x: nat, y: nat)
    requires Sound(s) && Enabled(s, Copy(x, y))
    ensures Sound(Perform(s, Copy(x, y)))
  {
    OneMore(s.holders, y);
  }

  lemma DropIsSound(s: Shared, x: nat)
    requires Sound(s) && Enabled(s, Drop(x))
    ensures Sound(Perform(s, Drop(x)))
  {
    OneLess(s.holders, x);
    UnionLess(Kept(s), s.others, s.reference);
    assert Kept(s) + s.others == s.others + Kept(s);
  }

  lemma AcquireIsSound(s: Shared)
    requires Sound(s)
    ensures Sound(Perform(s, OtherAcquire))
  {
    var r := s.globals.next;
    assert s.others + Kept(s) + {r} == s.others + {r} + Kept(s);
  }

  lemma ReleaseIsSound(s: Shared, r: Ref)
    requires Sound(s) && r in s.others
    ensures Sound(Perform(s, OtherRelease(r)))
  {
    assert r in s.globals.live && r != NULL && r !in Kept(s);
    UnionLess(s.others, Kept(s), r);
  }

  lemma StepIsSound(s: Shared, step: Step)
    requires Sound(s) && Enabled(s, step)
    ensures Sound(Perform(s, step)) && Perform(s, step).reference == s.reference
  {
    match step
    case Copy(x, y) => CopyIsSound(s, x, y);
    case Drop(x) => DropIsSound(s, x);
    case Invoke(x, _) =>
      assert s.holders != {};
      assert s.reference != NULL ==> s.reference in s.globals.live;
    case OtherAcquire => AcquireIsSound(s);
    case OtherRelease(r) => ReleaseIsSound(s, r);
  }

  lemma {:induction false} RunIsSound(s: Shared, steps: seq<Step>)
    requires Sound(s) && Legal(s, steps)
    ensures Sound(Run(s, steps)) && Run(s, steps).reference == s.reference
    decreases steps
  {
    if steps != [] {
      StepIsSound(s, steps[0]);
      RunIsSound(Perform(s, steps[0]), steps[1..]);
    }
  }

  lemma {:induction false} RunCompletes(s: Shared, steps: seq<Step>)
    requires Legal(s, steps)
    ensures Run(s, steps).completions == s.completions + ConcatMap(Completed(s.reference), steps)
    decreases steps
  {
    if steps != [] {
      var next := Perform(s, steps[0]);
      RunCompletes(next, steps[1..]);
      assert next.completions == s.completions + Completed(s.reference)(steps[0]);
      ConcatAssociates(
        s.completions, Completed(s.reference)(steps[0]), ConcatMap(Completed(s.reference), steps[1..]));
    }
  }

  lemma StartIsSound(globals: Table, future: Ref)
    requires globals.Valid()
    ensures Sound(Operate(globals, future))
  {
    assert globals.next !in globals.live;
    assert |{0, 1}| == 2;
  }

  /** Whatever the interleaving: no dead handle is ever used or deleted, the reference is deleted
      once when the last holder is gone and not before, and the invocations complete the future
      with their results in order. With a null future the invocations, and nothing else, go
      wrong. */
  lemma EveryInterleaving(globals: Table, future: Ref, steps: seq<Step>)
    requires globals.Valid() && Legal(Operate(globals, future), steps)
    ensures var s := Run(Operate(globals, future), steps);
            && s.reference == (if future == NULL then NULL else globals.next)
            && s.faults == (if future == NULL then |s.completions| else 0)
            && (future != NULL ==> (s.reference in s.globals.live <==> s.holders != {}))
            && s.deletions == (if s.holders == {} then 1 else 0)
            && (s.holders == {} || future == NULL ==> s.globals.live == s.others)
            && s.completions == ConcatMap(Completed(s.reference), steps)
  {
    var start := Operate(globals, future);
    StartIsSound(globals, future);
    RunIsSound(start, steps);
    RunCompletes(start, steps);
  }

  // ---------- what a run comes to, by its steps alone ----------

  /** Whether `x` holds the callback after the first `n` steps: the last of them that makes or drops
      it makes it. Places 0 and 1 hold it at the start. */
  predicate HoldsAfter(steps: seq<Step>, n: nat, x: nat)
    requires n <= |steps|
  {
    if n == 0 then x == 0 || x == 1
    else match steps[n - 1]
      case Copy(_, y) => x == y || HoldsAfter(steps, n - 1, x)
      case Drop(y) => x != y && HoldsAfter(steps, n - 1, x)
      case _ => HoldsAfter(steps, n - 1, x)
  }

  function Copies(steps: seq<Step>, n: nat): nat
    requires n <= |steps|
  {
    if n == 0 then 0 else Copies(steps, n - 1) + if steps[n - 1].Copy? then 1 else 0
  }

  function Drops(steps: seq<Step>, n: nat): nat
    requires n <= |steps|
  {
    if n == 0 then 0 else Drops(steps, n - 1) + if steps[n - 1].Drop? then 1 else 0
  }

  function Acquires(steps: seq<Step>, n: nat): nat
    requires n <= |steps|
  {
    if n == 0 then 0 else Acquires(steps, n - 1) + if steps[n - 1].OtherAcquire? then 1 else 0
  }

  predicate IsReleased(steps: seq<Step>, n: nat, r: Ref)
    requires n <= |steps|
  {
    n > 0 && (steps[n - 1] == OtherRelease(r) || IsReleased(steps, n - 1, r))
  }

  /** The first handle that the rest of the program can be given. */
  function FirstOther(globals: Table, future: Ref): Ref {
    if future == NULL then globals.next else globals.next + 1
  }

  /** A reference of the rest of the program is live: it was at the start, or was acquired since,
      and was not released. */
  predicate OtherLives(globals: Table, future: Ref, steps: seq<Step>, n: nat, r: Ref)
    requires n <= |steps|
  {
    var first := FirstOther(globals, future);
    (r in globals.live || first <= r < first + Acquires(steps, n)) && !IsReleased(steps, n, r)
  }

  predicate Allowed(globals: Table, future: Ref, steps: seq<Step>, n: nat)
    requires n < |steps|
  {
    match steps[n]
    case Copy(x, y) => HoldsAfter(steps, n, x) && !HoldsAfter(steps, n, y)
    case Drop(x) => HoldsAfter(steps, n, x)
    case Invoke(x, _) => HoldsAfter(steps, n, x)
    case OtherAcquire => true
    case OtherRelease(r) => OtherLives(globals, future, steps, n, r)
  }

  predicate AllAllowed(globals: Table, future: Ref, steps: seq<Step>, n: nat)
    requires n <= |steps|
  {
    forall k | 0 <= k < n :: Allowed(globals, future, steps, k)
  }

  lemma {:induction false} LegalOneMore(s: Shared, steps: seq<Step>, step: Step)
    ensures Legal(s, steps + [step]) <==> Legal(s, steps) && Enabled(Run(s, steps), step)
    ensures Legal(s, steps + [step]) ==> Run(s, steps + [step]) == Perform(Run(s, steps), step)
    decreases steps
  {
    if steps == [] {
      assert steps + [step] == [step] && [step][1..] == [];
    } else {
      assert (steps + [step])[0] == steps[0] && (steps + [step])[1..] == steps[1..] + [step];
      if Enabled(s, steps[0]) {
        LegalOneMore(Perform(s, steps[0]), steps[1..], step);
      }
    }
  }

  ghost predicate SaysHolders(steps: seq<Step>, n: nat, s: Shared)
    requires n <= |steps|
  {
    forall x :: HoldsAfter(steps, n, x) <==> x in s.holders
  }

  predicate OtherAsSaid(globals: Table, future: Ref, steps: seq<Step>, n: nat, s: Shared, r: Ref)
    requires n <= |steps|
  {
    && (OtherLives(globals, future, steps, n, r) <==> r in s.others)
    && (IsReleased(steps, n, r) ==> r < s.globals.next)
  }

  ghost predicate SaysOthers(globals: Table, future: Ref, steps: seq<Step>, n: nat, s: Shared)
    requires n <= |steps|
  {
    && s.globals.next == FirstOther(globals, future) + Acquires(steps, n)
    && forall r: Ref :: OtherAsSaid(globals, future, steps, n, s, r)
  }

  ghost predicate Says(globals: Table, future: Ref, steps: seq<Step>, n: nat, s: Shared)
    requires n <= |steps|
  {
    && s.useCount == 2 + Copies(steps, n) - Drops(steps, n)
    && SaysHolders(steps, n, s) && SaysOthers(globals, future, steps, n, s)
  }

  lemma StepSaysHolders(steps: seq<Step>, n: nat, s: Shared, x: nat)
    requires n < |steps| && SaysHolders(steps, n, s) && Enabled(s, steps[n])
    ensures HoldsAfter(steps, n + 1, x) <==> x in Perform(s, steps[n]).holders
  {
    assert HoldsAfter(steps, n, x) <==> x in s.holders;
  }

  lemma StepSaysOther(globals: Table, future: Ref, steps: seq<Step>, n: nat, s: Shared, r: Ref)
    requires n < |steps| && Enabled(s, steps[n])
    requires s.globals.next == FirstOther(globals, future) + Acquires(steps, n)
    requires OtherAsSaid(globals, future, steps, n, s, r)
    requires steps[n].OtherRelease? ==> steps[n].ref < s.globals.next
    ensures var next := Perform(s, steps[n]);
            && OtherAsSaid(globals, future, steps, n + 1, next, r)
            && next.globals.next == FirstOther(globals, future) + Acquires(steps, n + 1)
  {
    match steps[n]
    case OtherAcquire =>
      assert IsReleased(steps, n + 1, r) == IsReleased(steps, n, r);
      assert Acquires(steps, n + 1) == Acquires(steps, n) + 1;
    case OtherRelease(q) =>
      assert IsReleased(steps, n + 1, r) == (r == q || IsReleased(steps, n, r));
    case _ =>
      assert IsReleased(steps, n + 1, r) == IsReleased(steps, n, r);
  }

  lemma StepSaysAllOthers(globals: Table, future: Ref, steps: seq<Step>, n: nat, s: Shared)
    requires n < |steps| && SaysOthers(globals, future, steps, n, s) && Sound(s) && Enabled(s, steps[n])
    ensures SaysOthers(globals, future, steps, n + 1, Perform(s, steps[n]))
  {
    var next := Perform(s, steps[n]);
    if steps[n].OtherRelease? {
      assert steps[n].ref in s.globals.live;
    }
    assert OtherAsSaid(globals, future, steps, n, s, NULL);
    StepSaysOther(globals, future, steps, n, s, NULL);
    var m := n + 1;
    forall r: Ref ensures OtherAsSaid(globals, future, steps, m, next, r) {
      assert OtherAsSaid(globals, future, steps, n, s, r);
      StepSaysOther(globals, future, steps, n, s, r);
    }
  }

  lemma StepSays(globals: Table, future: Ref, steps: seq<Step>, n: nat, s: Shared)
    requires n < |steps| && Says(globals, future, steps, n, s) && Sound(s) && Enabled(s, steps[n])
    ensures Says(globals, future, steps, n + 1, Perform(s, steps[n]))
  {
    var next := Perform(s, steps[n]);
    forall x ensures HoldsAfter(steps, n + 1, x) <==> x in next.holders {
      StepSaysHolders(steps, n, s, x);
    }
    StepSaysAllOthers(globals, future, steps, n, s);
  }

  lemma EnabledAsAllowed(globals: Table, future: Ref, steps: seq<Step>, n: nat, s: Shared)
    requires n < |steps| && Says(globals, future, steps, n, s)
    ensures Enabled(s, steps[n]) <==> Allowed(globals, future, steps, n)
  {
    match steps[n]
    case Copy(x, y) =>
      assert (HoldsAfter(steps, n, x) <==> x in s.holders) && (HoldsAfter(steps, n, y) <==> y in s.holders);
    case Drop(x) => assert HoldsAfter(steps, n, x) <==> x in s.holders;
    case Invoke(x, _) => assert HoldsAfter(steps, n, x) <==> x in s.holders;
    case OtherAcquire =>
    case OtherRelease(r) => assert OtherAsSaid(globals, future, steps, n, s, r);
  }

  lemma AllAllowedNext(globals: Table, future: Ref, steps: seq<Step>, n: nat)
    requires n < |steps|
    ensures AllAllowed(globals, future, steps, n + 1) <==> AllAllowed(globals, future, steps, n) && Allowed(globals, future, steps, n)
  {}

  lemma LegalShorter(s: Shared, steps: seq<Step>, n: nat)
    requires n < |steps| && Legal(s, steps[..n + 1])
    ensures Legal(s, steps[..n])
  {
    assert steps[..n + 1] == steps[..n] + [steps[n]];
    LegalOneMore(s, steps[..n], steps[n]);
  }

  lemma OneMoreSays(globals: Table, future: Ref, steps: seq<Step>, n: nat, s: Shared)
    requires globals.Valid() && n < |steps| && s == Operate(globals, future)
    requires Legal(s, steps[..n]) && Says(globals, future, steps, n, Run(s, steps[..n]))
    ensures Legal(s, steps[..n + 1]) <==> Allowed(globals, future, steps, n)
    ensures Legal(s, steps[..n + 1]) ==> Says(globals, future, steps, n + 1, Run(s, steps[..n + 1]))
  {
    assert steps[..n + 1] == steps[..n] + [steps[n]];
    LegalOneMore(s, steps[..n], steps[n]);
    var before := Run(s, steps[..n]);
    EnabledAsAllowed(globals, future, steps, n, before);
    if Enabled(before, steps[n]) {
      StartIsSound(globals, future);
      RunIsSound(s, steps[..n]);
      StepSays(globals, future, steps, n, before);
    }
  }

  /** A run is legal if and only if each of its steps is allowed by those before it, and then it
      ends as the steps say: who holds the callback, and which references of the rest of the program
      are live. */
  lemma {:induction false} RunsAsItsStepsSay(globals: Table, future: Ref, steps: seq<Step>, n: nat)
    requires globals.Valid() && n <= |steps|
    ensures var s := Operate(globals, future);
            && (Legal(s, steps[..n]) <==> AllAllowed(globals, future, steps, n))
            && (Legal(s, steps[..n]) ==> Says(globals, future, steps, n, Run(s, steps[..n])))
  {
    var s := Operate(globals, future);
    if n > 0 {
      var m := n - 1;
      RunsAsItsStepsSay(globals, future, steps, m);
      AllAllowedNext(globals, future, steps, m);
      if Legal(s, steps[..m]) {
        OneMoreSays(globals, future, steps, m, s);
      } else if Legal(s, steps[..n]) {
        LegalShorter(s, steps, m);
      }
    }
  }

  /** By the steps alone: the reference was deleted if and only if there were two drops more than
      copies, and until then it is live; the callback is held by those who made it last. */
  lemma DeletedExactly(globals: Table, future: Ref, steps: seq<Step>)
    requires globals.Valid() && Legal(Operate(globals, future), steps)
    ensures var s, n := Run(Operate(globals, future), steps), |steps|;
            && (s.deletions == 1 <==> Drops(steps, n) == Copies(steps, n) + 2) && s.deletions <= 1
            && (future != NULL ==> (globals.next in s.globals.live <==> Drops(steps, n) < Copies(steps, n) + 2))
            && (forall x :: x in s.holders <==> HoldsAfter(steps, n, x))
  {
    var s := Run(Operate(globals, future), steps);
    assert steps[..|steps|] == steps;
    RunsAsItsStepsSay(globals, future, steps, |steps|);
    StartIsSound(globals, future);
    RunIsSound(Operate(globals, future), steps);
    EveryInterleaving(globals, future, steps);
    assert forall x :: HoldsAfter(steps, |steps|, x) <==> x in s.holders;
  }

  /** Every invocation, wherever it stands in a run, completes the future once with its own result;
      no other step completes it. */
  lemma CompletesOnce(s: Shared, steps: seq<Step>, k: nat)
    requires k < |steps| && Legal(s, steps[..k + 1])
    ensures Legal(s, steps[..k])
    ensures var before, after := Run(s, steps[..k]), Run(s, steps[..k + 1]);
            match steps[k]
            case Invoke(_, result) => after.completions == before.completions + [Completion(before.reference, result)]
            case _ => after.completions == before.completions
  {
    assert steps[..k + 1] == steps[..k] + [steps[k]];
    LegalOneMore(s, steps[..k], steps[k]);
  }

  /** At the moment of every invocation the reference of a future is live. */
  lemma InvokedWhileLive(globals: Table, future: Ref, steps: seq<Step>, k: nat)
    requires globals.Valid() && AllAllowed(globals, future, steps, |steps|)
    requires k < |steps| && steps[k].Invoke? && future != NULL
    ensures Legal(Operate(globals, future), steps[..k])
    ensures globals.next in Run(Operate(globals, future), steps[..k]).globals.live
  {
    RunsAsItsStepsSay(globals, future, steps, k);
    RunsAsItsStepsSay(globals, future, steps, k + 1);
    var s := Operate(globals, future);
    EveryInterleaving(globals, future, steps[..k]);
    assert steps[..k + 1] == steps[..k] + [steps[k]];
    LegalOneMore(s, steps[..k], steps[k]);
  }

  // ---------- the objects ----------

  /** The callback of one `operate` call, with the shared state of all its copies. Every method is
      one step of the runs above. */
  class OperateCallback {
    const env: JniEnv
    const reference: Ref
    var holders: set<nat>
    var useCount: int
    var completions: seq<Completion>
    ghost var others: set<Ref>
    ghost var deletions: nat

    ghost function State(): Shared reads this, env {
      Shared(
        env.globals, others, reference, holders, useCount, completions, deletions,
        if reference == NULL then |completions| else 0)
    }

    ghost predicate Valid() reads this, env { env.Valid() && Sound(State()) }

    constructor (env: JniEnv, future: Ref)
      requires env.Valid()
      modifies env
      ensures this.env == env && Valid() && env.locals == old(env.locals)
      ensures State() == Operate(old(env.globals), future)
    {
      var g := env.NewGlobalRef(future);
      this.env, reference := env, g;
      holders, useCount, completions := {0, 1}, 2, [];
      others, deletions := old(env.globals.live), 0;
      assert |{0, 1}| == 2;
    }

    method CopyTo(source: nat, target: nat)
      requires Valid() && source in holders && target !in holders
      modifies this
      ensures Valid() && State() == Perform(old(State()), Copy(source, target))
      ensures holders == old(holders) + {target} && completions == old(completions)
    {
      StepIsSound(State(), Copy(source, target));
      holders := holders + {target};
      useCount := useCount + 1;
    }

    method DropHolder(holder: nat)
      requires Valid() && holder in holders
      modifies this, env
      ensures Valid() && env.locals == old(env.locals)
      ensures State() == Perform(old(State()), Drop(holder))
      ensures holders == old(holders) - {holder} && completions == old(completions)
    {
      ghost var before := State();
      StepIsSound(before, Drop(holder));
      OneLess(holders, holder);
      assert reference == NULL || reference in env.globals.live;
      holders := holders - {holder};
      useCount := useCount - 1;
      if useCount == 0 {
        env.DeleteGlobalRef(reference);
        deletions := deletions + 1;
      }
      assert State() == Perform(before, Drop(holder));
    }

    /** Builds the Java result and completes the future with it. The list holds one entry per
        point in order, and the local references are released. */
    method Call(holder: nat, result: TaskResult)
      requires Valid() && holder in holders
      modifies this, env
      ensures Valid() && State() == Perform(old(State()), Invoke(holder, result))
      ensures holders == old(holders) && completions == old(completions) + [Completion(reference, result)]
      ensures Restored(old(env.locals), env.locals, if result.points == [] then 3 else 5)
    {
      StepIsSound(State(), Invoke(holder, result));
      var built := BuildResult(env, result);
      completions := completions + [Completion(reference, built)];
    }
  }

  /** The Java object for one point result, added to the list. */
  method AddPoint(env: JniEnv, jlist: seq<PointResult>, p: PointResult) returns (longer: seq<PointResult>)
    requires env.Valid()
    modifies env
    ensures env.Valid() && env.globals == old(env.globals) && Restored(old(env.locals), env.locals, 3)
    ensures longer == jlist + [p]
  {
    var state := env.NewLocalRef();
    var status := env.NewLocalRef();
    var entry := env.NewLocalRef();
    longer := jlist + [PointResult(p.headerIndex, p.index, p.state, p.status)];
    env.DeleteLocalRef(entry);
    env.DeleteLocalRef(status);
    env.DeleteLocalRef(state);
  }

  method AddPoints(env: JniEnv, points: seq<PointResult>) returns (jlist: seq<PointResult>)
    requires env.Valid()
    modifies env
    ensures env.Valid() && env.globals == old(env.globals)
    ensures Restored(old(env.locals), env.locals, if points == [] then 0 else 3)
    ensures jlist == points
  {
    jlist := [];
    var i := 0;
    while i < |points|
      invariant i <= |points| && jlist == points[..i]
      invariant env.Valid() && env.globals == old(env.globals)
      invariant Restored(old(env.locals), env.locals, if i == 0 then 0 else 3)
    {
      jlist := AddPoint(env, jlist, points[i]);
      i := i + 1;
    }
  }

  method BuildResult(env: JniEnv, result: TaskResult) returns (built: TaskResult)
    requires env.Valid()
    modifies env
    ensures env.Valid() && env.globals == old(env.globals)
    ensures Restored(old(env.locals), env.locals, if result.points == [] then 3 else 5)
    ensures built == result
  {
    var summary := env.NewLocalRef();
    var list := env.NewLocalRef();
    var jlist := AddPoints(env, result.points);
    var taskResult := env.NewLocalRef();
    built := TaskResult(result.summary, jlist);
    env.DeleteLocalRef(taskResult);
    env.DeleteLocalRef(list);
    env.DeleteLocalRef(summary);
  }
}
