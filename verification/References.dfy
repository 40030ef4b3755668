/** JNI references: the tables of live references an environment keeps, and the wrappers that own
    local references. */
module References {

  /** A reference handle; 0 is the null handle. */
  type Ref = nat
  const NULL: Ref := 0

  function Max(a: nat, b: nat): nat { if a < b then b else a }

  /** The live references of one kind, the next handle to be given out, and the largest number
      of references that was ever live at once. */
  datatype Table = Table(live: set<Ref>, next: Ref, peak: nat) {
    ghost predicate Valid() {
      NULL < next && (forall r | r in live :: NULL < r < next) && |live| <= peak
    }

    /** After `Acquire`, the new reference is the old `next`. */
    function Acquire(): (t: Table)
      ensures Valid() ==> t.Valid() && |t.live| == |live| + 1
    {
      Table(live + {next}, next + 1, Max(peak, |live + {next}|))
    }

    /** Releasing the null handle does nothing. */
    function Release(r: Ref): (t: Table)
      ensures Valid() ==> t.Valid()
      ensures Valid() && r in live ==> |t.live| == |live| - 1
    {
      if r == NULL then this else this.(live := live - {r})
    }
  }

  /** A new reference was never live before, and nothing else changes; a release takes away one
      reference and nothing else. The record of the worst moment is kept up. */
  lemma TableLaws(t: Table, r: Ref)
    requires t.Valid()
    ensures var u := t.Acquire();
            && t.next !in t.live && u.live - t.live == {t.next} && t.live <= u.live && t.next < u.next
            && u.peak == if |t.live| + 1 > t.peak then |t.live| + 1 else t.peak
    ensures var u := t.Release(r);
            && t.live - u.live == (if r in t.live then {r} else {}) && u.live <= t.live
            && u.next == t.next && u.peak == t.peak
  {
    assert t.Acquire().live == t.live + {t.next};
  }

  /** The same references are live as before. */
  ghost predicate Returned(before: Table, after: Table) {
    && after.Valid() && after.live == before.live
    && before.next <= after.next && before.peak <= after.peak
  }

  /** At the worst moment in between there were at least `low` and at most `top` more. */
  ghost predicate Peaked(before: Table, after: Table, low: nat, top: nat) {
    Max(before.peak, |before.live| + low) <= after.peak <= Max(before.peak, |before.live| + top)
  }

  /** Both, with exactly `top` more at the worst moment. */
  ghost predicate Restored(before: Table, after: Table, top: nat) {
    Returned(before, after) && Peaked(before, after, top, top)
  }

  class JniEnv {
    var locals: Table
    var globals: Table

    ghost predicate Valid() reads this { locals.Valid() && globals.Valid() }

    constructor ()
      ensures Valid() && locals.live == {} && globals.live == {}
    {
      locals, globals := Table({}, 1, 0), Table({}, 1, 0);
    }

    /** Any JNI call that hands a new local reference to native code. */
    method NewLocalRef() returns (r: Ref)
      requires Valid()
      modifies this
      ensures Valid() && globals == old(globals)
      ensures r == old(locals.next) && locals == old(locals).Acquire()
    {
      r := locals.next;
      locals := locals.Acquire();
    }

    method DeleteLocalRef(r: Ref)
      requires Valid() && (r == NULL || r in locals.live)
      modifies this
      ensures Valid() && globals == old(globals) && locals == old(locals).Release(r)
    {
      locals := locals.Release(r);
    }

    /** The null handle has no global counterpart. */
    method NewGlobalRef(r: Ref) returns (g: Ref)
      requires Valid()
      modifies this
      ensures Valid() && locals == old(locals)
      ensures if r == NULL then g == NULL && globals == old(globals)
              else g == old(globals.next) && globals == old(globals).Acquire()
    {
      if r == NULL {
        return NULL;
      }
      g := globals.next;
      globals := globals.Acquire();
    }

    method DeleteGlobalRef(g: Ref)
      requires Valid() && (g == NULL || g in globals.live)
      modifies this
      ensures Valid() && locals == old(locals) && globals == old(globals).Release(g)
    {
      globals := globals.Release(g);
    }
  }

  /** Owns one local reference, or none. */
  class LocalRef {
    const env: JniEnv
    var ref: Ref

    constructor (env: JniEnv, ref: Ref)
      ensures this.env == env && this.ref == ref
    {
      this.env, this.ref := env, ref;
    }

    /** The move constructor takes the reference and leaves the null handle behind. */
    constructor Move(other: LocalRef)
      modifies other
      ensures env == other.env && ref == old(other.ref) && other.ref == NULL
    {
      env, ref := other.env, other.ref;
      new;
      other.ref := NULL;
    }

    method Destroy()
      requires env.Valid() && (ref == NULL || ref in env.locals.live)
      modifies env
      ensures env.Valid() && env.globals == old(env.globals) && env.locals == old(env.locals).Release(ref)
    {
      if ref != NULL {
        env.DeleteLocalRef(ref);
      }
    }
  }
}
