/** The cache of Java classes and members that the native library looks up when it is loaded. */
module JavaCache {
  import opened References

  /** What the virtual machine knows of one class: whether it is found, and for each member the
      native code wants, in order, whether that is found. */
  datatype ClassSpec = ClassSpec(found: bool, members: seq<bool>)

  predicate Resolves(c: ClassSpec) { c.found && forall i | 0 <= i < |c.members| :: c.members[i] }

  /** The position of the first class that does not resolve. */
  function FirstFailure(classes: seq<ClassSpec>): (k: nat)
    ensures k <= |classes| && (k < |classes| ==> !Resolves(classes[k]))
    ensures forall i | 0 <= i < k :: Resolves(classes[i])
  {
    if classes == [] then 0
    else if Resolves(classes[0]) then 1 + FirstFailure(classes[1..])
    else 0
  }

  lemma AllResolveExactly(classes: seq<ClassSpec>)
    ensures (forall c | c in classes :: Resolves(c)) <==> FirstFailure(classes) == |classes|
  {
    var k := FirstFailure(classes);
    if k < |classes| {
      assert classes[k] in classes;
    }
  }

  /** How many classes `init` takes a global reference for: all before the first failure, and the
      failing class too if it was only a member that was missing. */
  function Acquired(classes: seq<ClassSpec>): nat {
    var k := FirstFailure(classes);
    if k < |classes| && classes[k].found then k + 1 else k
  }

  /** How many classes `init` gets to, the failing one included. */
  function Reached(classes: seq<ClassSpec>): nat {
    var k := FirstFailure(classes);
    if k < |classes| then k + 1 else k
  }

  /** The first `n` handles are new, those up to `reached` null, and the others as before. */
  ghost predicate Filled(handles: seq<Ref>, before: seq<Ref>, base: Ref, n: nat, reached: nat) {
    |handles| == |before| && forall i | 0 <= i < |handles| ::
      handles[i] == if i < n then base + i else if i < reached then NULL else before[i]
  }

  /** No two of the cached classes share a reference. */
  ghost predicate Distinct(handles: seq<Ref>) {
    forall i, j | 0 <= i < j < |handles| :: handles[i] != NULL ==> handles[i] != handles[j]
  }

  class JCache {
    const env: JniEnv
    var handles: seq<Ref>  // the class members, null until looked up

    ghost predicate Valid() reads this, env {
      env.Valid() && Distinct(handles) && forall i | 0 <= i < |handles| :: handles[i] < env.globals.next
    }

    constructor (env: JniEnv, size: nat)
      requires env.Valid()
      ensures this.env == env && Valid() && |handles| == size && forall i | 0 <= i < size :: handles[i] == NULL
    {
      this.env := env;
      handles := seq(size, _ => NULL);
    }

    /** The `init` of one generated class. Members of a class that was not found are not found. */
    method InitClass(i: nat, spec: ClassSpec) returns (ok: bool)
      requires env.Valid() && i < |handles| && spec.members != []
      modifies this, env
      ensures env.Valid() && Restored(old(env.locals), env.locals, if spec.found then 1 else 0)
      ensures ok <==> spec.found && forall m | 0 <= m < |spec.members| :: spec.members[m]
      ensures if spec.found
              then env.globals == old(env.globals).Acquire() && handles == old(handles)[i := old(env.globals.next)]
              else env.globals == old(env.globals) && handles == old(handles)[i := NULL]
    {
      var temp := NULL;
      if spec.found {
        temp := env.NewLocalRef();
      }
      var g := env.NewGlobalRef(temp);
      handles := handles[i := g];
      env.DeleteLocalRef(temp);
      var m := 0;
      while m < |spec.members|
        invariant m <= |spec.members| && (m > 0 ==> spec.found)
        invariant forall k | 0 <= k < m :: spec.members[k]
      {
        if g == NULL || !spec.members[m] {
          return false;
        }
        m := m + 1;
      }
      return true;
    }

    /** The chain of `init` calls stops at the first that fails. It succeeds exactly when every
        lookup does, takes one new global reference for each class counted by `Acquired` and none
        for any other, and leaves no local reference behind. What the cache held before is
        overwritten as far as the chain got, without being released, and stays beyond that. */
    method Init(classes: seq<ClassSpec>) returns (ok: bool)
      requires Valid() && |classes| == |handles|
      requires forall c | c in classes :: c.members != []
      modifies this, env
      ensures Valid() && env.locals.live == old(env.locals.live)
      ensures ok <==> forall c | c in classes :: Resolves(c)
      ensures Filled(handles, old(handles), old(env.globals.next), Acquired(classes), Reached(classes))
      ensures var n := Acquired(classes);
              && env.globals.next == old(env.globals.next) + n
              && (forall r :: r in env.globals.live <==>
                    r in old(env.globals.live) || old(env.globals.next) <= r < old(env.globals.next) + n)
    {
      ghost var base, before := env.globals.next, handles;
      AllResolveExactly(classes);
      var i := 0;
      while i < |classes|
        invariant i <= |classes| == |handles| && env.Valid()
        invariant i <= FirstFailure(classes)
        invariant env.locals.live == old(env.locals.live)
        invariant env.globals.next == base + i
        invariant Filled(handles, before, base, i, i)
        invariant forall r :: r in env.globals.live <==> r in old(env.globals.live) || base <= r < base + i
      {
        assert classes[i] in classes;
        ok := InitClass(i, classes[i]);
        if !ok {
          return;
        }
        i := i + 1;
      }
      return true;
    }

    /** Releases every class. Releasing the null handle does nothing; the native code does not
        notice that a reference is dead already and releases it again, which is counted as a
        fault. */
    method Cleanup() returns (faults: nat)
      requires Valid()
      modifies env
      ensures Valid() && env.locals == old(env.locals) && env.globals.next == old(env.globals.next)
      ensures forall r :: r in env.globals.live <==> r in old(env.globals.live) && r !in handles
      ensures faults == |DeadHandles(handles, old(env.globals.live))|
    {
      faults := 0;
      ghost var live := env.globals.live;
      var i := 0;
      while i < |handles|
        invariant i <= |handles| && env.Valid() && env.locals == old(env.locals)
        invariant env.globals.next == old(env.globals.next)
        invariant forall r :: r in env.globals.live <==> r in live && r !in handles[..i]
        invariant faults == |DeadHandles(handles[..i], live)|
      {
        assert handles[..i + 1] == handles[..i] + [handles[i]];
        if handles[i] != NULL {
          assert handles[i] in env.globals.live <==> handles[i] in live;
          if handles[i] in env.globals.live {
            env.DeleteGlobalRef(handles[i]);
          } else {
            faults := faults + 1;
          }
        }
        i := i + 1;
      }
      assert handles[..i] == handles;
    }
  }

  /** The handles that name a reference but no live one. */
  function DeadHandles(handles: seq<Ref>, live: set<Ref>): seq<Ref> {
    if handles == [] then []
    else
      var last := handles[|handles| - 1];
      DeadHandles(handles[..|handles| - 1], live) + if last == NULL || last in live then [] else [last]
  }

  lemma {:induction false} DeadAppend(xs: seq<Ref>, ys: seq<Ref>, live: set<Ref>)
    ensures DeadHandles(xs + ys, live) == DeadHandles(xs, live) + DeadHandles(ys, live)
  {
    if ys == [] {
      assert xs + ys == xs;
    } else {
      var n := |ys| - 1;
      DeadAppend(xs, ys[..n], live);
      assert (xs + ys)[..|xs + ys| - 1] == xs + ys[..n];
    }
  }

  lemma {:induction false} NoneDead(handles: seq<Ref>, live: set<Ref>)
    requires forall i | 0 <= i < |handles| :: handles[i] == NULL || handles[i] in live
    ensures DeadHandles(handles, live) == []
  {
    if handles != [] {
      NoneDead(handles[..|handles| - 1], live);
    }
  }

  /** The handles that are not null. */
  function NonNull(handles: seq<Ref>): seq<Ref> { DeadHandles(handles, {}) }

  lemma {:induction false} AllDead(handles: seq<Ref>, live: set<Ref>)
    requires forall i | 0 <= i < |handles| :: handles[i] == NULL || handles[i] !in live
    ensures DeadHandles(handles, live) == NonNull(handles)
  {
    if handles != [] {
      AllDead(handles[..|handles| - 1], live);
    }
  }

  /** Live or null up to `from`, dead or null from there on. */
  lemma DeadFrom(handles: seq<Ref>, live: set<Ref>, from: nat)
    requires from <= |handles|
    requires forall i | 0 <= i < from :: handles[i] == NULL || handles[i] in live
    requires forall i | from <= i < |handles| :: handles[i] == NULL || handles[i] !in live
    ensures DeadHandles(handles, live) == NonNull(handles[from..])
  {
    assert handles == handles[..from] + handles[from..];
    DeadAppend(handles[..from], handles[from..], live);
    NoneDead(handles[..from], live);
    AllDead(handles[from..], live);
  }

  /** What was taken and then released leaves the table as it was. */
  lemma TakenAndReleased(
      live: set<Ref>, loaded: set<Ref>, after: set<Ref>,
      handles: seq<Ref>, before: seq<Ref>, base: Ref, n: nat, reached: nat)
    requires Filled(handles, before, base, n, reached) && n <= reached <= |handles|
    requires forall i | 0 <= i < |before| :: before[i] == NULL || before[i] !in live
    requires forall r | r in live :: NULL < r < base
    requires forall r :: r in loaded <==> r in live || base <= r < base + n
    requires forall r :: r in after <==> r in loaded && r !in handles
    ensures after == live
  {
    forall r ensures r in after <==> r in live {
      if r in loaded && r !in live {
        assert handles[r - base] == r;
      }
    }
  }

  /** No cached class has a live reference: the cache is fresh, or was unloaded. */
  ghost predicate Unloaded(cache: JCache)
    reads cache, cache.env
  {
    forall i | 0 <= i < |cache.handles| :: cache.handles[i] == NULL || cache.handles[i] !in cache.env.globals.live
  }

  /** Loading and unloading is neutral whether or not loading succeeded, and however far it got.
      Unloading releases again exactly the stale references of the classes that loading did not get
      to, so it is without fault if and only if loading reached every class that still has one. */
  method LoadAndUnload(cache: JCache, classes: seq<ClassSpec>) returns (loaded: bool, faults: nat)
    requires cache.Valid() && |classes| == |cache.handles| && Unloaded(cache)
    requires forall c | c in classes :: c.members != []
    modifies cache, cache.env
    ensures cache.Valid() && Unloaded(cache)
    ensures cache.env.locals.live == old(cache.env.locals.live)
    ensures cache.env.globals.live == old(cache.env.globals.live)
    ensures loaded <==> forall c | c in classes :: Resolves(c)
    ensures Filled(cache.handles, old(cache.handles), old(cache.env.globals.next), Acquired(classes), Reached(classes))
    ensures faults == |NonNull(old(cache.handles)[Reached(classes)..])|
  {
    ghost var base, before, live := cache.env.globals.next, cache.handles, cache.env.globals.live;
    ghost var n, reached := Acquired(classes), Reached(classes);
    loaded := cache.Init(classes);
    ghost var handles, during := cache.handles, cache.env.globals.live;
    DeadFrom(handles, during, reached);
    assert handles[reached..] == before[reached..];
    faults := cache.Cleanup();
    TakenAndReleased(live, during, cache.env.globals.live, handles, before, base, n, reached);
  }
}
