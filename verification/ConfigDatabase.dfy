/** The outstation's database configuration: seven Java lists are copied into native arrays whose
    sizes and indices are 16-bit numbers. */
module ConfigDatabase {
  import opened Results
  import opened References
  import opened Wire
  import opened Outstation

  /** A Java point configuration; `deadband` is read for the types that have one. */
  datatype JConfig = JConfig(vIndex: int, clazz: int, staticVariation: int, eventVariation: int, deadband: real)

  datatype PointConfig = PointConfig(
      vIndex: uint16, clazz: byte, svariation: byte, evariation: byte, deadband: real)

  /** Counters, frozen counters, analogs and analog output statuses have a deadband. */
  predicate HasDeadband(t: PointType) {
    t.Counter? || t.FrozenCounter? || t.AnalogInput? || t.AnalogOutputStatus?
  }

  function Convert(t: PointType, j: JConfig): PointConfig {
    PointConfig(
      ToUint16(j.vIndex), ToUint8(j.clazz), ToUint8(j.staticVariation), ToUint8(j.eventVariation),
      if HasDeadband(t) then j.deadband else 0.0)
  }

  function ConvertList(t: PointType, list: seq<JConfig>): (r: seq<PointConfig>)
    ensures |r| == |list| && forall i | 0 <= i < |r| :: r[i] == Convert(t, list[i])
  {
    seq(|list|, i requires 0 <= i < |list| => Convert(t, list[i]))
  }

  datatype JDatabase = JDatabase(
      binary: seq<JConfig>, doubleBinary: seq<JConfig>, analog: seq<JConfig>, counter: seq<JConfig>,
      frozenCounter: seq<JConfig>, boStatus: seq<JConfig>, aoStatus: seq<JConfig>)
  {
    function At(t: PointType): seq<JConfig> {
      match t
      case BinaryInput => binary
      case DoubleBinaryInput => doubleBinary
      case Counter => counter
      case FrozenCounter => frozenCounter
      case AnalogInput => analog
      case BinaryOutputStatus => boStatus
      case AnalogOutputStatus => aoStatus
    }

    ghost predicate Fits() { forall t :: |At(t)| <= 0xFFFF }
  }

  class DatabaseConfig {
    const binary: array<PointConfig>
    const doubleBinary: array<PointConfig>
    const analog: array<PointConfig>
    const counter: array<PointConfig>
    const frozenCounter: array<PointConfig>
    const boStatus: array<PointConfig>
    const aoStatus: array<PointConfig>
    const timeAndInterval: array<PointConfig>

    function View(t: PointType): array<PointConfig> {
      match t
      case BinaryInput => binary
      case DoubleBinaryInput => doubleBinary
      case Counter => counter
      case FrozenCounter => frozenCounter
      case AnalogInput => analog
      case BinaryOutputStatus => boStatus
      case AnalogOutputStatus => aoStatus
    }

    ghost function Views(): set<object> {
      {binary, doubleBinary, analog, counter, frozenCounter, boStatus, aoStatus}
    }

    ghost predicate Distinct() {
      (forall t, u :: t != u ==> View(t) != View(u)) && timeAndInterval !in Views()
    }

    /** The arrays are made with the narrowed sizes, and every slot is given its own index. */
    constructor (sizes: JDatabase, blank: PointConfig)
      ensures Distinct() && fresh(Views()) && fresh(timeAndInterval) && timeAndInterval.Length == 0
      ensures forall t :: View(t).Length == ToUint16(|sizes.At(t)|)
      ensures forall t, i | 0 <= i < View(t).Length :: View(t)[i].vIndex == i
    {
      var a0 := NewArray(ToUint16(|sizes.binary|), blank);
      var a1 := NewArray(ToUint16(|sizes.doubleBinary|), blank);
      var a2 := NewArray(ToUint16(|sizes.analog|), blank);
      var a3 := NewArray(ToUint16(|sizes.counter|), blank);
      var a4 := NewArray(ToUint16(|sizes.frozenCounter|), blank);
      var a5 := NewArray(ToUint16(|sizes.boStatus|), blank);
      var a6 := NewArray(ToUint16(|sizes.aoStatus|), blank);
      var a7 := NewArray(0, blank);
      binary, doubleBinary, analog, counter, frozenCounter, boStatus, aoStatus := a0, a1, a2, a3, a4, a5, a6;
      timeAndInterval := a7;
    }

    static method NewArray(size: uint16, blank: PointConfig) returns (values: array<PointConfig>)
      ensures fresh(values) && values.Length == size
      ensures forall i | 0 <= i < size :: values[i].vIndex == i
    {
      values := new PointConfig[size](_ => blank);
      InitIndices(values);
    }

    /** Every slot is given its own position as index, and keeps the rest. */
    static method InitIndices(values: array<PointConfig>)
      modifies values
      ensures forall i | 0 <= i < values.Length :: TakesIndex(old(values[i]), values[i], i)
    {
      var i := 0;
      while i < values.Length
        invariant i <= values.Length
        invariant forall k | 0 <= k < i :: TakesIndex(old(values[k]), values[k], k)
        invariant forall k | i <= k < values.Length :: values[k] == old(values[k])
      {
        values[i] := values[i].(vIndex := ToUint16(i));
        i := i + 1;
      }
    }
  }

  predicate TakesIndex(before: PointConfig, after: PointConfig, i: nat) {
    after == before.(vIndex := ToUint16(i))
  }

  /** The class and the two variations are read through temporaries, one after another. */
  method ConvertElement(env: JniEnv, t: PointType, j: JConfig) returns (c: PointConfig)
    requires env.Valid()
    modifies env
    ensures env.Valid() && env.globals == old(env.globals) && Restored(old(env.locals), env.locals, 1)
    ensures c == Convert(t, j)
  {
    c := Convert(t, j);
    for i := 0 to 3
      invariant env.Valid() && env.globals == old(env.globals)
      invariant Restored(old(env.locals), env.locals, if i == 0 then 0 else 1)
    {
      var temporary := env.NewLocalRef();
      env.DeleteLocalRef(temporary);
    }
  }

  /** The callback of the walk, with the element it is given. */
  method FillOne(env: JniEnv, t: PointType, j: JConfig) returns (c: PointConfig)
    requires env.Valid()
    modifies env
    ensures env.Valid() && env.globals == old(env.globals) && Restored(old(env.locals), env.locals, 2)
    ensures c == Convert(t, j)
  {
    var element := env.NewLocalRef();
    c := ConvertElement(env, t, j);
    env.DeleteLocalRef(element);
  }

  /** One list into its array. The position is narrowed to 16 bits by the array's index operator. A
      position past the end, where the native code writes out of bounds, is reported; that happens
      exactly for lists of more than 65535 elements, and then at the first position the narrowed
      size has no slot for. */
  method FillSlots(env: JniEnv, t: PointType, list: seq<JConfig>, slots: array<PointConfig>)
    returns (fault: Option<nat>)
    requires env.Valid() && slots.Length == ToUint16(|list|)
    modifies env, slots
    ensures env.Valid() && env.globals == old(env.globals)
    ensures fault.None? ==> Restored(old(env.locals), env.locals, if list == [] then 0 else 2)
    ensures fault == if |list| <= 0xFFFF then None else Some(slots.Length)
    ensures slots[..] == ConvertList(t, list)[..slots.Length]
  {
    fault := None;
    var i := 0;
    while i < |list|
      invariant i <= |list| && i <= slots.Length
      invariant env.Valid() && env.globals == old(env.globals)
      invariant Restored(old(env.locals), env.locals, if i == 0 then 0 else 2)
      invariant forall k | 0 <= k < i :: slots[k] == Convert(t, list[k])
    {
      var slot := ToUint16(i);
      if slots.Length <= slot {
        return Some(i);
      }
      var config := FillOne(env, t, list[i]);
      slots[slot] := config;
      i := i + 1;
    }
  }

  const ORDER: seq<PointType> :=
    [BinaryInput, DoubleBinaryInput, AnalogInput, Counter, FrozenCounter, BinaryOutputStatus, AnalogOutputStatus]

  /** One walk, with a temporary reference to the list and the iterator. */
  method FillView(env: JniEnv, t: PointType, list: seq<JConfig>, slots: array<PointConfig>)
    returns (fault: Option<nat>)
    requires env.Valid() && slots.Length == ToUint16(|list|)
    modifies env, slots
    ensures env.Valid() && env.globals == old(env.globals)
    ensures fault.None? ==> Returned(old(env.locals), env.locals) && Peaked(old(env.locals), env.locals, 2, 4)
    ensures fault.None? <==> |list| <= 0xFFFF
    ensures fault.None? ==> slots[..] == ConvertList(t, list)
  {
    var handle := env.NewLocalRef();
    var cursor := env.NewLocalRef();
    fault := FillSlots(env, t, list, slots);
    if fault.None? {
      env.DeleteLocalRef(cursor);
      env.DeleteLocalRef(handle);
    }
  }

  /** All seven lists, one walk after another, up to the first fault. */
  method ConvertDatabase(env: JniEnv, jdb: JDatabase, cfg: DatabaseConfig) returns (fault: Option<PointType>)
    requires env.Valid() && cfg.Distinct() && forall t :: cfg.View(t).Length == ToUint16(|jdb.At(t)|)
    modifies env, cfg.Views()
    ensures env.Valid() && env.globals == old(env.globals)
    ensures fault.None? <==> jdb.Fits()
    ensures fault.Some? ==> |jdb.At(fault.value)| > 0xFFFF
    ensures fault.None? ==> forall t :: cfg.View(t)[..] == ConvertList(t, jdb.At(t))
    ensures fault.None? ==> Returned(old(env.locals), env.locals) && Peaked(old(env.locals), env.locals, 2, 4)
  {
    var k := 0;
    while k < |ORDER|
      invariant k <= |ORDER| && env.Valid() && env.globals == old(env.globals)
      invariant Returned(old(env.locals), env.locals)
      invariant Peaked(old(env.locals), env.locals, if k == 0 then 0 else 2, 4)
      invariant forall m | 0 <= m < k ::
                  |jdb.At(ORDER[m])| <= 0xFFFF && cfg.View(ORDER[m])[..] == ConvertList(ORDER[m], jdb.At(ORDER[m]))
    {
      var t := ORDER[k];
      assert cfg.View(t).Length == ToUint16(|jdb.At(t)|);
      var bad := FillView(env, t, jdb.At(t), cfg.View(t));
      if bad.Some? {
        assert |jdb.At(t)| > 0xFFFF;
        return Some(t);
      }
      k := k + 1;
    }
    fault := None;
    forall t ensures |jdb.At(t)| <= 0xFFFF && cfg.View(t)[..] == ConvertList(t, jdb.At(t)) {
      EveryTypeIsListed(t);
    }
  }

  lemma EveryTypeIsListed(t: PointType)
    ensures exists m | 0 <= m < |ORDER| :: ORDER[m] == t
  {
    assert ORDER[0] == BinaryInput && ORDER[1] == DoubleBinaryInput && ORDER[2] == AnalogInput;
    assert ORDER[3] == Counter && ORDER[4] == FrozenCounter;
    assert ORDER[5] == BinaryOutputStatus && ORDER[6] == AnalogOutputStatus;
  }

  /** Every array holds the conversion of the list of its own name. */
  ghost predicate ConvertedByName(cfg: DatabaseConfig, jdb: JDatabase)
    reads cfg.Views()
  {
    && cfg.binary[..] == ConvertList(BinaryInput, jdb.binary)
    && cfg.doubleBinary[..] == ConvertList(DoubleBinaryInput, jdb.doubleBinary)
    && cfg.analog[..] == ConvertList(AnalogInput, jdb.analog)
    && cfg.counter[..] == ConvertList(Counter, jdb.counter)
    && cfg.frozenCounter[..] == ConvertList(FrozenCounter, jdb.frozenCounter)
    && cfg.boStatus[..] == ConvertList(BinaryOutputStatus, jdb.boStatus)
    && cfg.aoStatus[..] == ConvertList(AnalogOutputStatus, jdb.aoStatus)
  }

  lemma ArraysByName(cfg: DatabaseConfig, jdb: JDatabase)
    requires forall t :: cfg.View(t)[..] == ConvertList(t, jdb.At(t))
    ensures ConvertedByName(cfg, jdb)
  {
    assert cfg.View(BinaryInput)[..] == ConvertList(BinaryInput, jdb.At(BinaryInput));
    assert cfg.View(DoubleBinaryInput)[..] == ConvertList(DoubleBinaryInput, jdb.At(DoubleBinaryInput));
    assert cfg.View(AnalogInput)[..] == ConvertList(AnalogInput, jdb.At(AnalogInput));
    assert cfg.View(Counter)[..] == ConvertList(Counter, jdb.At(Counter));
    assert cfg.View(FrozenCounter)[..] == ConvertList(FrozenCounter, jdb.At(FrozenCounter));
    assert cfg.View(BinaryOutputStatus)[..] == ConvertList(BinaryOutputStatus, jdb.At(BinaryOutputStatus));
    assert cfg.View(AnalogOutputStatus)[..] == ConvertList(AnalogOutputStatus, jdb.At(AnalogOutputStatus));
  }

  /** Temporaries of one full expression, which live until its end. */
  method Temporaries(env: JniEnv, n: nat)
    requires env.Valid()
    modifies env
    ensures env.Valid() && env.globals == old(env.globals) && Restored(old(env.locals), env.locals, n)
  {
    if n > 0 {
      var temporary := env.NewLocalRef();
      Temporaries(env, n - 1);
      env.DeleteLocalRef(temporary);
    }
  }

  /** For seven lists that fit, and for no others, every slot of every array holds the conversion
      of the list element at its position, and the arrays are as long as the lists. The sizes are
      read in one expression, with a reference to each list; that is where most references are
      live at once. */
  method ConvertOutstationStackConfig(env: JniEnv, jdb: JDatabase, blank: PointConfig)
    returns (cfg: DatabaseConfig, fault: Option<PointType>)
    requires env.Valid()
    modifies env
    ensures env.Valid() && env.globals == old(env.globals)
    ensures fresh(cfg) && cfg.timeAndInterval.Length == 0
    ensures fault.None? <==> jdb.Fits()
    ensures fault.None? ==> forall t :: cfg.View(t)[..] == ConvertList(t, jdb.At(t))
    ensures fault.None? ==> ConvertedByName(cfg, jdb)
    ensures fault.None? ==> Restored(old(env.locals), env.locals, 8)
  {
    var database := env.NewLocalRef();
    Temporaries(env, 7);
    cfg := new DatabaseConfig(jdb, blank);
    var temporary := env.NewLocalRef();
    fault := ConvertDatabase(env, jdb, cfg);
    if fault.None? {
      env.DeleteLocalRef(temporary);
      env.DeleteLocalRef(database);
      ArraysByName(cfg, jdb);
    }
  }

  /** A configuration survives the conversion, field by field, exactly when its numbers fit. */
  lemma ConversionIsExact(t: PointType, j: JConfig)
    ensures Convert(t, j).vIndex == j.vIndex <==> 0 <= j.vIndex <= 0xFFFF
    ensures Convert(t, j).clazz == j.clazz <==> 0 <= j.clazz <= 0xFF
    ensures Convert(t, j).svariation == j.staticVariation <==> 0 <= j.staticVariation <= 0xFF
    ensures Convert(t, j).evariation == j.eventVariation <==> 0 <= j.eventVariation <= 0xFF
    ensures Convert(t, j).deadband == j.deadband <==> HasDeadband(t) || j.deadband == 0.0
  {}

  /** A deadband is read for four of the seven types. */
  lemma DeadbandsByType(j: JConfig)
    ensures forall t | t in {Counter, FrozenCounter, AnalogInput, AnalogOutputStatus} ::
              Convert(t, j).deadband == j.deadband
    ensures forall t | t in {BinaryInput, DoubleBinaryInput, BinaryOutputStatus} :: Convert(t, j).deadband == 0.0
  {}
}
