/** Every run of loading and unloading the library on one cache. */
module CacheRuns {
  import opened References
  import opened JavaCache

  datatype Step = Load(classes: seq<ClassSpec>) | Unload

  /** Every load is for all the classes of the cache. */
  predicate Fits(steps: seq<Step>, size: nat) {
    forall k | 0 <= k < |steps| && steps[k].Load? ::
      |steps[k].classes| == size && forall c | c in steps[k].classes :: c.members != []
  }

  /** What the cache has of one class: nothing, a live reference, or a handle whose reference was
      released. */
  datatype Status = Empty | Held | Stale

  /** The status of the class at position `i` after the first `k` steps. */
  function StatusOf(steps: seq<Step>, k: nat, i: nat): Status
    requires k <= |steps|
  {
    if k == 0 then Empty
    else match steps[k - 1]
      case Load(classes) =>
        if i < Acquired(classes) then Held
        else if i < Reached(classes) then Empty
        else StatusOf(steps, k - 1, i)
      case Unload => if StatusOf(steps, k - 1, i) == Held then Stale else StatusOf(steps, k - 1, i)
  }

  /** How many of the first `n` classes are stale then. */
  function StaleCount(steps: seq<Step>, k: nat, n: nat): nat
    requires k <= |steps|
  {
    if n == 0 then 0 else StaleCount(steps, k, n - 1) + if StatusOf(steps, k, n - 1) == Stale then 1 else 0
  }

  ghost predicate SomeStale(steps: seq<Step>, k: nat, n: nat)
    requires k <= |steps|
  {
    exists i: nat | i < n :: StatusOf(steps, k, i) == Stale
  }

  lemma {:induction false} NoneStale(steps: seq<Step>, k: nat, n: nat)
    requires k <= |steps|
    ensures StaleCount(steps, k, n) == 0 <==> !SomeStale(steps, k, n)
  {
    if n > 0 {
      var m := n - 1;
      NoneStale(steps, k, m);
      if SomeStale(steps, k, n) {
        var i: nat :| i < n && StatusOf(steps, k, i) == Stale;
        assert i < m ==> SomeStale(steps, k, m);
      } else {
        assert StatusOf(steps, k, m) != Stale && !SomeStale(steps, k, m);
      }
    }
  }

  /** The load at step `k` overwrites the class at position `i` while its reference is live. */
  predicate Overwrites(steps: seq<Step>, k: nat, i: nat)
    requires k < |steps|
  {
    steps[k].Load? && i < Reached(steps[k].classes) && StatusOf(steps, k, i) == Held
  }

  ghost predicate OverwritesSome(steps: seq<Step>, k: nat, size: nat)
    requires k < |steps|
  {
    exists i | 0 <= i < size :: Overwrites(steps, k, i)
  }

  // ---------- the handles follow the statuses ----------

  predicate Matches(h: Ref, live: set<Ref>, status: Status) {
    match status
    case Empty => h == NULL
    case Held => h != NULL && h in live
    case Stale => h != NULL && h !in live
  }

  ghost predicate Follows(handles: seq<Ref>, live: set<Ref>, steps: seq<Step>, k: nat)
    requires k <= |steps|
  {
    forall i | 0 <= i < |handles| :: Matches(handles[i], live, StatusOf(steps, k, i))
  }

  lemma {:induction false} DeadAreStale(handles: seq<Ref>, live: set<Ref>, steps: seq<Step>, k: nat)
    requires k <= |steps| && Follows(handles, live, steps, k)
    ensures |DeadHandles(handles, live)| == StaleCount(steps, k, |handles|)
  {
    if handles != [] {
      DeadAreStale(handles[..|handles| - 1], live, steps, k);
      assert Matches(handles[|handles| - 1], live, StatusOf(steps, k, |handles| - 1));
    }
  }

  lemma LoadFollows(
      handles: seq<Ref>, live: set<Ref>, next: seq<Ref>, loaded: set<Ref>, base: Ref, steps: seq<Step>, k: nat)
    requires k < |steps| && steps[k].Load? && Follows(handles, live, steps, k) && 0 < base
    requires var cs := steps[k].classes; Filled(next, handles, base, Acquired(cs), Reached(cs))
    requires forall r :: r in loaded <==> r in live || base <= r < base + Acquired(steps[k].classes)
    requires forall i | 0 <= i < |handles| :: handles[i] < base
    ensures Follows(next, loaded, steps, k + 1)
  {
    forall i | 0 <= i < |next| ensures Matches(next[i], loaded, StatusOf(steps, k + 1, i)) {
      assert Matches(handles[i], live, StatusOf(steps, k, i));
    }
  }

  lemma UnloadFollows(handles: seq<Ref>, live: set<Ref>, unloaded: set<Ref>, steps: seq<Step>, k: nat)
    requires k < |steps| && steps[k].Unload? && Follows(handles, live, steps, k)
    requires forall r :: r in unloaded <==> r in live && r !in handles
    ensures Follows(handles, unloaded, steps, k + 1)
  {
    forall i | 0 <= i < |handles| ensures Matches(handles[i], unloaded, StatusOf(steps, k + 1, i)) {
      assert Matches(handles[i], live, StatusOf(steps, k, i));
    }
  }

  // ---------- where the live references are ----------

  ghost predicate IsCached(r: Ref, handles: seq<Ref>, steps: seq<Step>, k: nat)
    requires k <= |steps|
  {
    exists i | 0 <= i < |handles| :: handles[i] == r && StatusOf(steps, k, i) == Held
  }

  /** A live reference was live at the start, is held by the cache, or was leaked. */
  ghost predicate Accounts(
      start: Table, leaked: set<Ref>, handles: seq<Ref>, live: set<Ref>, steps: seq<Step>, k: nat)
    requires k <= |steps|
  {
    && (forall r: Ref :: r in live <==> r in start.live || r in leaked || IsCached(r, handles, steps, k))
    && (forall r | r in start.live :: r < start.next)
    && (forall r | r in leaked :: start.next <= r && r !in handles)
    && (forall i | 0 <= i < |handles| :: handles[i] == NULL || start.next <= handles[i])
  }

  /** What a load overwrites. */
  function Lost(handles: seq<Ref>, steps: seq<Step>, k: nat): set<Ref>
    requires k < |steps|
  {
    set i | 0 <= i < |handles| && Overwrites(steps, k, i) :: handles[i]
  }

  lemma LostIsGone(
      handles: seq<Ref>, live: set<Ref>, next: seq<Ref>, base: Ref, steps: seq<Step>, k: nat, r: Ref)
    requires k < |steps| && steps[k].Load? && Distinct(handles) && Follows(handles, live, steps, k)
    requires var cs := steps[k].classes; Filled(next, handles, base, Acquired(cs), Reached(cs))
    requires (forall i | 0 <= i < |handles| :: handles[i] < base) && r in Lost(handles, steps, k)
    ensures r in handles && r != NULL && r !in next
  {
    var i :| 0 <= i < |handles| && Overwrites(steps, k, i) && handles[i] == r;
    assert Matches(handles[i], live, StatusOf(steps, k, i));
  }

  lemma LoadAccounts(
      start: Table, leaked: set<Ref>, handles: seq<Ref>, live: set<Ref>,
      next: seq<Ref>, loaded: set<Ref>, base: Ref, steps: seq<Step>, k: nat)
    requires k < |steps| && steps[k].Load? && Accounts(start, leaked, handles, live, steps, k)
    requires var cs := steps[k].classes; Filled(next, handles, base, Acquired(cs), Reached(cs)) && |cs| == |handles|
    requires forall r :: r in loaded <==> r in live || base <= r < base + Acquired(steps[k].classes)
    requires Distinct(handles) && 0 < start.next <= base
    requires (forall r | r in live :: r < base) && forall i | 0 <= i < |handles| :: handles[i] < base
    requires Follows(handles, live, steps, k)
    ensures Accounts(start, leaked + Lost(handles, steps, k), next, loaded, steps, k + 1)
  {
    var lost, n := Lost(handles, steps, k), Acquired(steps[k].classes);
    forall r: Ref ensures r in loaded <==> r in start.live || r in leaked + lost || IsCached(r, next, steps, k + 1) {
      if base <= r < base + n {
        assert next[r - base] == r && StatusOf(steps, k + 1, r - base) == Held;
      }
      if IsCached(r, handles, steps, k) {
        var i :| 0 <= i < |handles| && handles[i] == r && StatusOf(steps, k, i) == Held;
        assert Overwrites(steps, k, i) || (next[i] == r && StatusOf(steps, k + 1, i) == Held);
      }
      if IsCached(r, next, steps, k + 1) {
        var i :| 0 <= i < |next| && next[i] == r && StatusOf(steps, k + 1, i) == Held;
        assert i < n || (handles[i] == r && StatusOf(steps, k, i) == Held);
      }
      if r in lost {
        var i :| 0 <= i < |handles| && Overwrites(steps, k, i) && handles[i] == r;
        assert IsCached(r, handles, steps, k);
      }
    }
    forall r | r in lost ensures start.next <= r && r !in next {
      LostIsGone(handles, live, next, base, steps, k, r);
    }
  }

  lemma UnloadAccounts(
      start: Table, leaked: set<Ref>, handles: seq<Ref>, live: set<Ref>, unloaded: set<Ref>,
      steps: seq<Step>, k: nat)
    requires k < |steps| && steps[k].Unload? && Accounts(start, leaked, handles, live, steps, k)
    requires forall r :: r in unloaded <==> r in live && r !in handles
    requires 0 < start.next && NULL !in start.live
    ensures Accounts(start, leaked, handles, unloaded, steps, k + 1)
  {
    forall r: Ref ensures r in unloaded <==> r in start.live || r in leaked || IsCached(r, handles, steps, k + 1) {
      assert !IsCached(r, handles, steps, k + 1);
      if IsCached(r, handles, steps, k) {
        assert r in handles;
      }
    }
  }

  // ---------- runs ----------

  /** What holds of the cache between two steps of a run. */
  ghost predicate Invariant(cache: JCache, start: Table, leaked: set<Ref>, steps: seq<Step>, k: nat)
    requires k <= |steps|
    reads cache, cache.env
  {
    && cache.Valid() && start.Valid() && start.next <= cache.env.globals.next
    && Follows(cache.handles, cache.env.globals.live, steps, k)
    && Accounts(start, leaked, cache.handles, cache.env.globals.live, steps, k)
  }

  method DoLoad(
      cache: JCache, classes: seq<ClassSpec>,
      ghost start: Table, ghost leaked: set<Ref>, ghost steps: seq<Step>, ghost k: nat)
    returns (ok: bool, ghost lost: set<Ref>)
    requires k < |steps| && steps[k] == Load(classes) && Fits(steps, |cache.handles|)
    requires Invariant(cache, start, leaked, steps, k)
    modifies cache, cache.env
    ensures |cache.handles| == old(|cache.handles|) && Invariant(cache, start, leaked + lost, steps, k + 1)
    ensures lost == {} <==> !OverwritesSome(steps, k, |cache.handles|)
    ensures cache.env.locals.live == old(cache.env.locals.live)
    ensures ok <==> forall c | c in classes :: Resolves(c)
  {
    ghost var handles, live, base := cache.handles, cache.env.globals.live, cache.env.globals.next;
    lost := Lost(handles, steps, k);
    LostSome(handles, steps, k);
    ok := cache.Init(classes);
    LoadFollows(handles, live, cache.handles, cache.env.globals.live, base, steps, k);
    LoadAccounts(start, leaked, handles, live, cache.handles, cache.env.globals.live, base, steps, k);
  }

  method DoUnload(cache: JCache, ghost start: Table, ghost leaked: set<Ref>, ghost steps: seq<Step>, ghost k: nat)
    returns (faults: nat)
    requires k < |steps| && steps[k].Unload? && Invariant(cache, start, leaked, steps, k)
    modifies cache.env
    ensures Invariant(cache, start, leaked, steps, k + 1)
    ensures cache.env.locals.live == old(cache.env.locals.live)
    ensures faults == StaleCount(steps, k, |cache.handles|)
  {
    ghost var handles, live := cache.handles, cache.env.globals.live;
    DeadAreStale(handles, live, steps, k);
    faults := cache.Cleanup();
    UnloadFollows(handles, live, cache.env.globals.live, steps, k);
    UnloadAccounts(start, leaked, handles, live, cache.env.globals.live, steps, k);
  }

  /** Of one step: whether a load succeeded, and how often a dead reference was released. */
  datatype Outcome = Outcome(ok: bool, faults: nat)

  /** Whether the step is a load that succeeds. */
  predicate Succeeds(step: Step) { step.Load? && forall c | c in step.classes :: Resolves(c) }

  /** An unload releases a dead reference again for every class that is stale at that moment. */
  function FaultsAt(steps: seq<Step>, k: nat, size: nat): nat
    requires k < |steps|
  {
    if steps[k].Unload? then StaleCount(steps, k, size) else 0
  }

  ghost predicate NoOverwrites(steps: seq<Step>, n: nat, size: nat)
    requires n <= |steps|
  {
    forall k | 0 <= k < n :: !OverwritesSome(steps, k, size)
  }

  method DoStep(
      cache: JCache, step: Step, ghost start: Table, ghost leaked: set<Ref>, ghost steps: seq<Step>, ghost k: nat)
    returns (outcome: Outcome, ghost leakedNow: set<Ref>)
    requires k < |steps| && steps[k] == step && Fits(steps, |cache.handles|)
    requires Invariant(cache, start, leaked, steps, k)
    modifies cache, cache.env
    ensures |cache.handles| == old(|cache.handles|) && Invariant(cache, start, leakedNow, steps, k + 1)
    ensures leakedNow == {} <==> leaked == {} && !OverwritesSome(steps, k, |cache.handles|)
    ensures cache.env.locals.live == old(cache.env.locals.live)
    ensures outcome == Outcome(Succeeds(step), FaultsAt(steps, k, |cache.handles|))
  {
    leakedNow := leaked;
    match step
    case Load(classes) =>
      var ok; ghost var lost;
      ok, lost := DoLoad(cache, classes, start, leaked, steps, k);
      leakedNow := leaked + lost;
      outcome := Outcome(ok, 0);
    case Unload =>
      var faults := DoUnload(cache, start, leaked, steps, k);
      outcome := Outcome(false, faults);
  }

  lemma NoOverwritesNext(steps: seq<Step>, n: nat, size: nat)
    requires n < |steps|
    ensures NoOverwrites(steps, n + 1, size) <==> NoOverwrites(steps, n, size) && !OverwritesSome(steps, n, size)
  {}

  /** What the first `n` steps of a run yield. */
  function Outcomes(steps: seq<Step>, n: nat, size: nat): (r: seq<Outcome>)
    requires n <= |steps|
    ensures |r| == n
  {
    if n == 0 then []
    else Outcomes(steps, n - 1, size) + [Outcome(Succeeds(steps[n - 1]), FaultsAt(steps, n - 1, size))]
  }

  lemma {:induction false} OutcomeAt(steps: seq<Step>, n: nat, size: nat, k: nat)
    requires k < n <= |steps|
    ensures Outcomes(steps, n, size)[k] == Outcome(Succeeds(steps[k]), FaultsAt(steps, k, size))
  {
    if k < n - 1 {
      OutcomeAt(steps, n - 1, size, k);
    }
  }

  method RunOn(cache: JCache, steps: seq<Step>, ghost start: Table)
    returns (outcomes: seq<Outcome>, ghost leaked: set<Ref>)
    requires Fits(steps, |cache.handles|) && Invariant(cache, start, {}, steps, 0)
    modifies cache, cache.env
    ensures |cache.handles| == old(|cache.handles|) && Invariant(cache, start, leaked, steps, |steps|)
    ensures leaked == {} <==> NoOverwrites(steps, |steps|, |cache.handles|)
    ensures cache.env.locals.live == old(cache.env.locals.live)
    ensures outcomes == Outcomes(steps, |steps|, |cache.handles|)
  {
    outcomes, leaked := [], {};
    var n := 0;
    while n < |steps|
      invariant n <= |steps| && |cache.handles| == old(|cache.handles|)
      invariant Invariant(cache, start, leaked, steps, n)
      invariant outcomes == Outcomes(steps, n, |cache.handles|)
      invariant leaked == {} <==> NoOverwrites(steps, n, |cache.handles|)
      invariant cache.env.locals.live == old(cache.env.locals.live)
    {
      NoOverwritesNext(steps, n, |cache.handles|);
      var outcome;
      outcome, leaked := DoStep(cache, steps[n], start, leaked, steps, n);
      outcomes := outcomes + [outcome];
      n := n + 1;
    }
  }

  /** Executes the steps from a fresh cache. The faults of every unload are known from the steps
      before it; the global table ends as it began if and only if no load overwrote a class whose
      reference was live and no class is held at the end. */
  method Run(env: JniEnv, size: nat, steps: seq<Step>) returns (outcomes: seq<Outcome>)
    requires env.Valid() && Fits(steps, size)
    modifies env
    ensures env.Valid() && env.locals.live == old(env.locals.live)
    ensures outcomes == Outcomes(steps, |steps|, size)
    ensures env.globals.live == old(env.globals.live)
       <==> NoOverwrites(steps, |steps|, size) && forall i | 0 <= i < size :: StatusOf(steps, |steps|, i) != Held
  {
    var cache := new JCache(env, size);
    ghost var start := env.globals;
    ghost var leaked;
    outcomes, leaked := RunOn(cache, steps, start);
    EndsAsItBegan(start, leaked, cache.handles, env.globals.live, steps, |steps|);
  }

  /** An unload is without fault if and only if no class is stale when it happens. */
  lemma FaultlessExactly(steps: seq<Step>, k: nat, size: nat)
    requires k < |steps| && steps[k].Unload?
    ensures FaultsAt(steps, k, size) == 0 <==> !SomeStale(steps, k, size)
  {
    NoneStale(steps, k, size);
  }

  lemma LostSome(handles: seq<Ref>, steps: seq<Step>, k: nat)
    requires k < |steps|
    ensures Lost(handles, steps, k) == {} <==> !OverwritesSome(steps, k, |handles|)
  {
    if OverwritesSome(steps, k, |handles|) {
      var i :| 0 <= i < |handles| && Overwrites(steps, k, i);
      assert handles[i] in Lost(handles, steps, k);
    }
  }

  lemma KeptOrLeaked(start: Table, leaked: set<Ref>, handles: seq<Ref>, live: set<Ref>, steps: seq<Step>, k: nat)
    requires k <= |steps| && Accounts(start, leaked, handles, live, steps, k)
    requires leaked == {} && forall i | 0 <= i < |handles| :: StatusOf(steps, k, i) != Held
    ensures live == start.live
  {
    forall r: Ref ensures r in live <==> r in start.live {
      assert !IsCached(r, handles, steps, k);
    }
  }

  lemma HeldIsNew(
      start: Table, leaked: set<Ref>, handles: seq<Ref>, live: set<Ref>, steps: seq<Step>, k: nat, i: nat)
    requires k <= |steps| && Accounts(start, leaked, handles, live, steps, k) && Follows(handles, live, steps, k)
    requires i < |handles| && StatusOf(steps, k, i) == Held
    ensures live != start.live
  {
    assert Matches(handles[i], live, Held) && start.next <= handles[i];
    assert handles[i] in live && handles[i] !in start.live;
  }

  lemma EndsAsItBegan(start: Table, leaked: set<Ref>, handles: seq<Ref>, live: set<Ref>, steps: seq<Step>, k: nat)
    requires k <= |steps| && Accounts(start, leaked, handles, live, steps, k) && Follows(handles, live, steps, k)
    ensures live == start.live <==> leaked == {} && forall i | 0 <= i < |handles| :: StatusOf(steps, k, i) != Held
  {
    if leaked != {} {
      var r :| r in leaked;
      assert r in live && r !in start.live;
    } else if i: nat :| i < |handles| && StatusOf(steps, k, i) == Held {
      HeldIsNew(start, leaked, handles, live, steps, k, i);
    } else {
      KeptOrLeaked(start, leaked, handles, live, steps, k);
    }
  }

  // ---------- two runs of interest ----------

  lemma {:induction false} StaleBetween(steps: seq<Step>, k: nat, from: nat, to: nat, n: nat)
    requires k <= |steps| && to <= n
    requires forall i | 0 <= i < n :: StatusOf(steps, k, i) == Stale <==> from <= i < to
    ensures StaleCount(steps, k, n) == if from < to then to - from else 0
  {
    if n > 0 {
      StaleBetween(steps, k, from, if to < n then to else n - 1, n - 1);
    }
  }

  /** Loading and unloading is neutral whether or not loading succeeded, and however far it got. A
      further unloading without loading again would release every reference a second time. */
  method UnloadTwice(env: JniEnv, classes: seq<ClassSpec>) returns (loaded: bool, faults: nat, again: nat)
    requires env.Valid() && forall c | c in classes :: c.members != []
    modifies env
    ensures env.Valid() && env.locals.live == old(env.locals.live)
    ensures env.globals.live == old(env.globals.live)
    ensures loaded <==> forall c | c in classes :: Resolves(c)
    ensures faults == 0
    ensures again == Acquired(classes) && (loaded ==> again == |classes|)
  {
    var steps := [Load(classes), Unload, Unload];
    var size := |classes|;
    forall i: nat ensures StatusOf(steps, 1, i) == if i < Acquired(classes) then Held else Empty {
      assert StatusOf(steps, 0, i) == Empty;
    }
    forall i: nat ensures StatusOf(steps, 2, i) == if i < Acquired(classes) then Stale else Empty {
      assert StatusOf(steps, 1, i) == if i < Acquired(classes) then Held else Empty;
    }
    forall i: nat ensures StatusOf(steps, 3, i) == StatusOf(steps, 2, i) {}
    NoneStale(steps, 1, size);
    StaleBetween(steps, 2, 0, Acquired(classes), size);
    var outcomes := Run(env, size, steps);
    OutcomeAt(steps, 3, size, 0);
    OutcomeAt(steps, 3, size, 1);
    OutcomeAt(steps, 3, size, 2);
    loaded, faults, again := outcomes[0].ok, outcomes[1].faults, outcomes[2].faults;
  }

  /** Loading and unloading twice over, from a fresh cache: the second unloading releases again what
      the first loading had taken for the classes that the second loading did not get to, and
      nothing else. */
  method LoadTwice(env: JniEnv, first: seq<ClassSpec>, second: seq<ClassSpec>) returns (faults: nat)
    requires env.Valid() && |first| == |second|
    requires forall c | c in first + second :: c.members != []
    modifies env
    ensures env.Valid() && env.locals.live == old(env.locals.live)
    ensures env.globals.live == old(env.globals.live)
    ensures faults == if Reached(second) < Acquired(first) then Acquired(first) - Reached(second) else 0
  {
    var steps := [Load(first), Unload, Load(second), Unload];
    forall i: nat ensures StatusOf(steps, 1, i) == if i < Acquired(first) then Held else Empty {
      assert StatusOf(steps, 0, i) == Empty;
    }
    forall i: nat ensures StatusOf(steps, 2, i) == if i < Acquired(first) then Stale else Empty {
      assert StatusOf(steps, 1, i) == if i < Acquired(first) then Held else Empty;
    }
    StaleBetween(steps, 3, Reached(second), Acquired(first), |first|);
    var outcomes := Run(env, |first|, steps);
    OutcomeAt(steps, 4, |first|, 3);
    faults := outcomes[3].faults;
  }
}
