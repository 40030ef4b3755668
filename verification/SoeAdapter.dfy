/** Measurements on their way to the Java application: one native batch becomes one Java list.

    A local handle here stands for the `LocalRef` that owns it; `DeleteLocalRef` is where that
    wrapper goes out of scope. */
module SoeAdapter {
  import opened Results
  import opened References

  datatype HeaderInfo = HeaderInfo(
      gv: int, qualifier: int, tsmode: int, isEventVariation: bool, flagsValid: bool, headerIndex: int)

  /** How a measurement becomes a Java object. Double-bit measurements pass their value through an
      enumeration object, which is released once the measurement exists. */
  datatype Creator<!T, !J> = Creator(make: T -> J, throughEnum: bool)

  function Images<T, J>(make: T -> J, values: seq<Indexed<T>>): (r: seq<Indexed<J>>)
    ensures |r| == |values|
    ensures forall i | 0 <= i < |r| :: r[i] == Indexed(make(values[i].value), values[i].index)
  {
    seq(|values|, i requires 0 <= i < |values| => Indexed(make(values[i].value), values[i].index))
  }

  /** A new reference is held afterwards; the table peaked `top` above where it was. */
  ghost predicate Gained(before: Table, after: Table, r: Ref, top: nat) {
    && after.Valid() && before.next <= r < after.next && after.live == before.live + {r}
    && after.peak == Max(before.peak, |before.live| + top)
  }

  method Convert(env: JniEnv, info: HeaderInfo) returns (jinfo: HeaderInfo, result: Ref)
    requires env.Valid()
    modifies env
    ensures env.Valid() && env.globals == old(env.globals)
    ensures Gained(old(env.locals), env.locals, result, 4)
    ensures jinfo == info
  {
    var gv := env.NewLocalRef();
    var qc := env.NewLocalRef();
    var tsmode := env.NewLocalRef();
    result := env.NewLocalRef();
    jinfo := HeaderInfo(info.gv, info.qualifier, info.tsmode, info.isEventVariation, info.flagsValid, info.headerIndex);
    env.DeleteLocalRef(tsmode);
    env.DeleteLocalRef(qc);
    env.DeleteLocalRef(gv);
  }

  method CreateMeasurement<T, J>(env: JniEnv, creator: Creator<T, J>, value: T)
    returns (j: J, result: Ref)
    requires env.Valid()
    modifies env
    ensures env.Valid() && env.globals == old(env.globals)
    ensures Gained(old(env.locals), env.locals, result, if creator.throughEnum then 2 else 1)
    ensures j == creator.make(value)
  {
    j := creator.make(value);
    if creator.throughEnum {
      var evalue := env.NewLocalRef();
      result := env.NewLocalRef();
      env.DeleteLocalRef(evalue);
    } else {
      result := env.NewLocalRef();
    }
  }

  /** One element: the measurement object, the indexed object around it, and the list's `add`. */
  method Add<T, J>(env: JniEnv, creator: Creator<T, J>, list: seq<Indexed<J>>, meas: Indexed<T>)
    returns (longer: seq<Indexed<J>>)
    requires env.Valid()
    modifies env
    ensures env.Valid() && env.globals == old(env.globals)
    ensures Restored(old(env.locals), env.locals, 2)
    ensures longer == list + [Indexed(creator.make(meas.value), meas.index)]
  {
    var j, jvalue := CreateMeasurement(env, creator, meas.value);
    var jindexed := env.NewLocalRef();
    longer := list + [Indexed(j, meas.index)];
    env.DeleteLocalRef(jindexed);
    env.DeleteLocalRef(jvalue);
  }

  /** The handler is given the header information and the in-order image of the batch, with the
      indices kept. Afterwards the table is as it was, and never more than 4 references were held
      on top of it, however long the batch. */
  method Process<T, J>(env: JniEnv, info: HeaderInfo, values: seq<Indexed<T>>, creator: Creator<T, J>)
    returns (jinfo: HeaderInfo, jlist: seq<Indexed<J>>)
    requires env.Valid()
    modifies env
    ensures env.Valid() && env.globals == old(env.globals)
    ensures Restored(old(env.locals), env.locals, 4)
    ensures jinfo == info && jlist == Images(creator.make, values)
  {
    var hinfo;
    jinfo, hinfo := Convert(env, info);
    var list := env.NewLocalRef();
    ghost var held := env.locals;
    jlist := [];
    var i := 0;
    while i < |values|
      invariant i <= |values|
      invariant env.Valid() && env.globals == old(env.globals)
      invariant Restored(held, env.locals, if i == 0 then 0 else 2)
      invariant jlist == Images(creator.make, values[..i])
    {
      jlist := Add(env, creator, jlist, values[i]);
      assert values[..i + 1] == values[..i] + [values[i]];
      i := i + 1;
    }
    assert values[..i] == values;
    env.DeleteLocalRef(list);
    env.DeleteLocalRef(hinfo);
  }

  method AddTimes<T, J>(env: JniEnv, values: seq<T>, make: T -> J) returns (jlist: seq<J>)
    requires env.Valid()
    modifies env
    ensures env.Valid() && env.globals == old(env.globals)
    ensures Restored(old(env.locals), env.locals, if values == [] then 0 else 1)
    ensures |jlist| == |values| && forall i | 0 <= i < |values| :: jlist[i] == make(values[i])
  {
    jlist := [];
    var i := 0;
    while i < |values|
      invariant |jlist| == i <= |values|
      invariant env.Valid() && env.globals == old(env.globals)
      invariant Restored(old(env.locals), env.locals, if i == 0 then 0 else 1)
      invariant forall k | 0 <= k < i :: jlist[k] == make(values[k])
    {
      var jvalue := env.NewLocalRef();
      jlist := jlist + [make(values[i])];
      env.DeleteLocalRef(jvalue);
      i := i + 1;
    }
  }

  /** Absolute times carry no index. */
  method ProcessTimes<T, J>(env: JniEnv, info: HeaderInfo, values: seq<T>, make: T -> J)
    returns (jinfo: HeaderInfo, jlist: seq<J>)
    requires env.Valid()
    modifies env
    ensures env.Valid() && env.globals == old(env.globals)
    ensures Restored(old(env.locals), env.locals, 4)
    ensures jinfo == info && |jlist| == |values|
    ensures forall i | 0 <= i < |values| :: jlist[i] == make(values[i])
  {
    var hinfo;
    jinfo, hinfo := Convert(env, info);
    var list := env.NewLocalRef();
    jlist := AddTimes(env, values, make);
    env.DeleteLocalRef(list);
    env.DeleteLocalRef(hinfo);
  }

  /** Batches handed over one after another look to the application like one batch. */
  lemma ImagesAppend<T, J>(make: T -> J, xs: seq<Indexed<T>>, ys: seq<Indexed<T>>)
    ensures Images(make, xs + ys) == Images(make, xs) + Images(make, ys)
  {}
}
