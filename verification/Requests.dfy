/** The native functions that turn Java collections into requests: scan headers, control
    commands and class assignments. */
module Requests {
  import opened Results
  import opened Sequences
  import opened Wire
  import opened Parsing
  import opened AssignClass
  import opened References
  import opened Iteration

  // ---------- what the callbacks do with references ----------

  /** A reference that lives until the end of one full expression. */
  function Temporary(t: Table): Table { t.Acquire().Release(t.next) }

  lemma TemporaryRestores(t: Table)
    requires t.Valid()
    ensures Restored(t, Temporary(t), 1)
  {
    assert t.live + {t.next} - {t.next} == t.live;
  }

  /** The qualifier is read through a temporary. */
  function ScanRefs(t: Table): Table { Temporary(t) }

  /** The command is held while its function and its status are read through temporaries. */
  function CrobRefs(t: Table): Table { Temporary(Temporary(t.Acquire())).Release(t.next) }

  /** The command is held while its status is read through a temporary. */
  function AnalogRefs(t: Table): Table { Temporary(t.Acquire()).Release(t.next) }

  /** The class is read through a temporary, then the range is held. */
  function AssignRefs(t: Table): Table {
    var read := Temporary(t);
    read.Acquire().Release(read.next)
  }

  lemma RefsRestore(t: Table)
    requires t.Valid()
    ensures Restored(t, ScanRefs(t), 1) && Restored(t, AssignRefs(t), 1)
    ensures Restored(t, CrobRefs(t), 2) && Restored(t, AnalogRefs(t), 2)
  {
    TemporaryRestores(t);
    TemporaryRestores(Temporary(t));
    var held := t.Acquire();
    TemporaryRestores(held);
    TemporaryRestores(Temporary(held));
    assert held.live - {t.next} == t.live;
  }

  /** A script that is the same for every element. */
  function Always<S(!new)>(refs: Table -> Table): (S, Table) -> Table {
    (x: S, t: Table) => refs(t)
  }

  lemma ScriptsAreNeutral<S(!new)>()
    ensures Neutral(Always<S>(ScanRefs)) && Holds(Always<S>(ScanRefs), 1, 1)
    ensures Neutral(Always<S>(AssignRefs)) && Holds(Always<S>(AssignRefs), 1, 1)
    ensures Neutral(Always<S>(CrobRefs)) && Holds(Always<S>(CrobRefs), 2, 2)
    ensures Neutral(Always<S>(AnalogRefs)) && Holds(Always<S>(AnalogRefs), 2, 2)
  {
    forall t: Table | t.Valid()
      ensures Restored(t, ScanRefs(t), 1) && Restored(t, AssignRefs(t), 1)
      ensures Restored(t, CrobRefs(t), 2) && Restored(t, AnalogRefs(t), 2)
    {
      RefsRestore(t);
    }
  }

  // ---------- scan headers ----------

  datatype QualifierCode =
    | UInt8StartStop | UInt16StartStop | AllObjectsCode | UInt8Count | UInt16Count
    | UInt8CountUInt8Index | UInt16CountUInt16Index | UInt16FreeFormat | Undefined

  /** Java's `QualifierCode.toType`. */
  function CodeOf(q: QualifierCode): int {
    match q
    case UInt8StartStop => 0x00
    case UInt16StartStop => 0x01
    case AllObjectsCode => 0x06
    case UInt8Count => 0x07
    case UInt16Count => 0x08
    case UInt8CountUInt8Index => 0x17
    case UInt16CountUInt16Index => 0x28
    case UInt16FreeFormat => 0x5B
    case Undefined => 0xFF
  }

  /** The native `QualifierCodeFromType`. */
  function QualifierFrom(code: byte): QualifierCode {
    match code
    case 0x00 => UInt8StartStop
    case 0x01 => UInt16StartStop
    case 0x06 => AllObjectsCode
    case 0x07 => UInt8Count
    case 0x08 => UInt16Count
    case 0x17 => UInt8CountUInt8Index
    case 0x28 => UInt16CountUInt16Index
    case 0x5B => UInt16FreeFormat
    case _ => Undefined
  }

  /** Java's `Header`. */
  datatype JHeader = JHeader(
      group: jbyte, variation: jbyte, qualifier: QualifierCode, count: int, start: int, stop: int)

  function ConvertJHeader(j: JHeader): Option<Header> {
    var g, v := ToUint8(j.group), ToUint8(j.variation);
    match QualifierFrom(ToUint8(CodeOf(j.qualifier)))
    case AllObjectsCode => Some(AllObjects(g, v))
    case UInt8Count => Some(Count8(g, v, ToUint8(j.count)))
    case UInt16Count => Some(Count16(g, v, ToUint16(j.count)))
    case UInt8StartStop => Some(Range8(g, v, ToUint8(j.start), ToUint8(j.stop)))
    case UInt16StartStop => Some(Range16(g, v, ToUint16(j.start), ToUint16(j.stop)))
    case _ => None
  }

  /** The header, or nothing. */
  function Converted(j: JHeader): seq<Header> {
    match ConvertJHeader(j) case Some(h) => [h] case None => []
  }

  /** A call of one of Java's five header factories. */
  datatype Factory =
    | MakeAllObjects(group: jbyte, variation: jbyte)
    | MakeCount8(group: jbyte, variation: jbyte, quantity: int)
    | MakeCount16(group: jbyte, variation: jbyte, quantity: int)
    | MakeRange8(group: jbyte, variation: jbyte, start: int, stop: int)
    | MakeRange16(group: jbyte, variation: jbyte, start: int, stop: int)
  {
    function Make(): JHeader {
      match this
      case MakeAllObjects(g, v) => JHeader(g, v, AllObjectsCode, 0, 0, 0)
      case MakeCount8(g, v, n) => JHeader(g, v, UInt8Count, n, 0, 0)
      case MakeCount16(g, v, n) => JHeader(g, v, UInt16Count, n, 0, 0)
      case MakeRange8(g, v, a, b) => JHeader(g, v, UInt8StartStop, 0, a, b)
      case MakeRange16(g, v, a, b) => JHeader(g, v, UInt16StartStop, 0, a, b)
    }

    /** The numbers fit the header they are put into. The C# factories take `Byte` and `UInt16`,
        so there they always do; the Java ones take `short` and `int`. */
    predicate Fits() {
      match this
      case MakeAllObjects(_, _) => true
      case MakeCount8(_, _, n) => 0 <= n <= 0xFF
      case MakeCount16(_, _, n) => 0 <= n <= 0xFFFF
      case MakeRange8(_, _, a, b) => 0 <= a <= 0xFF && 0 <= b <= 0xFF
      case MakeRange16(_, _, a, b) => 0 <= a <= 0xFFFF && 0 <= b <= 0xFFFF
    }
  }

  /** The native header asks for what the Java header says, with group and variation taken as
      unsigned bytes. */
  predicate SaysTheSame(j: JHeader, h: Header) {
    && h.group == ToUint8(j.group) && h.variation == ToUint8(j.variation)
    && match h
       case AllObjects(_, _) => j.qualifier.AllObjectsCode?
       case Count8(_, _, n) => j.qualifier.UInt8Count? && n == j.count
       case Count16(_, _, n) => j.qualifier.UInt16Count? && n == j.count
       case Range8(_, _, a, b) => j.qualifier.UInt8StartStop? && a == j.start && b == j.stop
       case Range16(_, _, a, b) => j.qualifier.UInt16StartStop? && a == j.start && b == j.stop
  }

  /** Every header a factory makes converts, and it keeps its numbers exactly when they fit. */
  lemma FactoryHeadersConvert(f: Factory)
    ensures ConvertJHeader(f.Make()).Some?
    ensures SaysTheSame(f.Make(), ConvertJHeader(f.Make()).value) <==> f.Fits()
  {}

  /** Of all Java headers, whatever their numbers, exactly those with one of five qualifiers
      convert. */
  lemma ConvertsExactly(j: JHeader)
    ensures ConvertJHeader(j).Some?
       <==> || j.qualifier.AllObjectsCode? || j.qualifier.UInt8Count? || j.qualifier.UInt16Count?
            || j.qualifier.UInt8StartStop? || j.qualifier.UInt16StartStop?
    ensures Converted(j) == if ConvertJHeader(j).Some? then [ConvertJHeader(j).value] else []
  {}

  /** The qualifier that goes out is the one Java has for the header. */
  lemma QualifierGoesOut(j: JHeader)
    requires ConvertJHeader(j).Some?
    ensures Encode(ConvertJHeader(j).value)[2] == CodeOf(j.qualifier)
  {}

  /** The bytes that come of a call of a Java factory: group, variation and qualifier, and the low
      bits of its numbers. */
  function FactoryBytes(f: Factory): seq<int> {
    match f
    case MakeAllObjects(g, v) => [U8(g), U8(v), 0x06]
    case MakeCount8(g, v, n) => [U8(g), U8(v), 0x07, U8(n)]
    case MakeCount16(g, v, n) => [U8(g), U8(v), 0x08, U8(n), U8(n / 256)]
    case MakeRange8(g, v, a, b) => [U8(g), U8(v), 0x00, U8(a), U8(b)]
    case MakeRange16(g, v, a, b) => [U8(g), U8(v), 0x01, U8(a), U8(a / 256), U8(b), U8(b / 256)]
  }

  function U8(n: int): int { n % 256 }

  lemma LowAndHigh(n: int)
    ensures LittleEndian(ToUint16(n)) == [U8(n), U8(n / 256)]
  {
    var q, r := n / 0x1_0000, n % 0x1_0000;
    assert n / 256 == 256 * q + r / 256;
  }

  lemma FactoryGoesOut(f: Factory)
    ensures ConvertJHeader(f.Make()).Some? && Encode(ConvertJHeader(f.Make()).value) == FactoryBytes(f)
  {
    match f
    case MakeCount16(_, _, n) => LowAndHigh(n);
    case MakeRange16(_, _, a, b) =>
      LowAndHigh(a);
      LowAndHigh(b);
    case _ =>
  }

  /** A Java count of 300 goes out as a count of 44. */
  lemma OversizedCountIsCut()
    ensures ConvertJHeader(MakeCount8(1, 0, 300).Make()) == Some(Count8(1, 0, 44))
  {}

  lemma {:induction false} SingletonsAlign<S(!new), T>(f: S -> seq<T>, xs: seq<S>)
    requires forall x :: |f(x)| == 1
    ensures |ConcatMap(f, xs)| == |xs|
    ensures forall i | 0 <= i < |xs| :: ConcatMap(f, xs)[i] == f(xs[i])[0]
  {
    if xs != [] {
      var n := |xs| - 1;
      SingletonsAlign(f, xs[..n]);
      ConcatMapOne(f, xs[..n], xs[n]);
      assert xs == xs[..n] + [xs[n]];
    }
  }

  function FromFactory(f: Factory): seq<Header> { Converted(f.Make()) }

  /** A scan over factory headers that fit drops nothing, and an outstation that has no objection
      to the headers reads back just what the application asked for. */
  lemma FactoryScanArrives(fs: seq<Factory>)
    requires forall i | 0 <= i < |fs| :: fs[i].Fits()
    ensures var hs := ConcatMap(FromFactory, fs);
            && |hs| == |fs|
            && (forall i | 0 <= i < |fs| :: SaysTheSame(fs[i].Make(), hs[i]))
            && (FirstObjection(hs).None? ==> ParseAll(EncodeAll(hs)) == Success(hs))
  {
    var hs := ConcatMap(FromFactory, fs);
    RequestRoundTrip(hs);
    forall f ensures |FromFactory(f)| == 1 { FactoryHeadersConvert(f); }
    SingletonsAlign(FromFactory, fs);
    forall i | 0 <= i < |fs| ensures SaysTheSame(fs[i].Make(), hs[i]) {
      FactoryHeadersConvert(fs[i]);
      assert hs[i] == FromFactory(fs[i])[0];
    }
  }

  /** `scan_native` and `add_periodic_scan_native` up to the call of the master: the vector is the
      in-order subsequence of the convertible headers. */
  method CollectHeaders(env: JniEnv, jheaders: seq<JHeader>) returns (headers: seq<Header>)
    requires env.Valid()
    modifies env
    ensures env.Valid() && env.globals == old(env.globals)
    ensures Restored(old(env.locals), env.locals, if jheaders == [] then 1 else 3)
    ensures headers == ConcatMap(Converted, jheaders)
  {
    ScriptsAreNeutral<JHeader>();
    headers := Collect(env, jheaders, Converted, Always<JHeader>(ScanRefs), 1, 1);
  }

  // ---------- class assignments ----------

  /** The iterable itself is a reference held throughout. */
  method ConfigureAssignClassRequest(env: JniEnv, assignments: seq<ClassAssignment>)
    returns (headers: seq<Header>)
    requires env.Valid()
    modifies env
    ensures env.Valid() && env.globals == old(env.globals)
    ensures Restored(old(env.locals), env.locals, if assignments == [] then 2 else 4)
    ensures headers == Compile(assignments)
  {
    var handle := env.NewLocalRef();
    var iterable := new LocalRef(env, handle);
    ScriptsAreNeutral<ClassAssignment>();
    headers := Collect(env, assignments, Emit, Always<ClassAssignment>(AssignRefs), 1, 1);
    iterable.Destroy();
  }

  // ---------- control commands ----------

  /** Java's `ControlRelayOutputBlock`, with the codes of its two enumerations. */
  datatype JCrob = JCrob(code: int, count: int, onTimeMs: int, offTimeMs: int, status: int)

  datatype Crob = Crob(code: byte, count: byte, onTimeMs: int, offTimeMs: int, status: byte)

  function ToUint32(n: int): int { n % 0x1_0000_0000 }

  function ConvertCrob(j: JCrob): Crob {
    Crob(ToUint8(j.code), ToUint8(j.count), ToUint32(j.onTimeMs), ToUint32(j.offTimeMs), ToUint8(j.status))
  }

  datatype Analog = Analog(value: real, status: int)

  function ConvertAnalog(j: Analog): Analog { j.(status := ToUint8(j.status)) }

  /** One command, its index narrowed to 16 bits. */
  function Command<J, C>(convert: J -> C): Indexed<J> -> seq<Indexed<C>> {
    (x: Indexed<J>) => [Indexed(convert(x.value), ToUint16(x.index))]
  }

  /** The index of a command, and each of its fields, goes out as the application gave it exactly
      when it fits the native one. */
  lemma CrobIsExact(x: Indexed<JCrob>)
    ensures var c, j := Command(ConvertCrob)(x)[0], x.value;
            && |Command(ConvertCrob)(x)| == 1
            && (c.index == x.index <==> 0 <= x.index <= 0xFFFF)
            && (c.value.code == j.code <==> 0 <= j.code <= 0xFF)
            && (c.value.count == j.count <==> 0 <= j.count <= 0xFF)
            && (c.value.onTimeMs == j.onTimeMs <==> 0 <= j.onTimeMs <= 0xFFFF_FFFF)
            && (c.value.offTimeMs == j.offTimeMs <==> 0 <= j.offTimeMs <= 0xFFFF_FFFF)
            && (c.value.status == j.status <==> 0 <= j.status <= 0xFF)
  {
    assert Command(ConvertCrob)(x)[0] == Indexed(ConvertCrob(x.value), ToUint16(x.index));
  }

  lemma AnalogIsExact(x: Indexed<Analog>)
    ensures Command(ConvertAnalog)(x) == [x] <==> 0 <= x.index <= 0xFFFF && 0 <= x.value.status <= 0xFF
  {
    var c := Command(ConvertAnalog)(x)[0];
    assert Command(ConvertAnalog)(x) == [c] && c == Indexed(ConvertAnalog(x.value), ToUint16(x.index));
  }

  method AddCrobs(env: JniEnv, commands: seq<Indexed<JCrob>>) returns (batch: seq<Indexed<Crob>>)
    requires env.Valid()
    modifies env
    ensures env.Valid() && env.globals == old(env.globals)
    ensures Restored(old(env.locals), env.locals, if commands == [] then 1 else 4)
    ensures |batch| == |commands|
    ensures forall i | 0 <= i < |batch| ::
              batch[i] == Indexed(ConvertCrob(commands[i].value), ToUint16(commands[i].index))
  {
    var one := Command(ConvertCrob);
    ScriptsAreNeutral<Indexed<JCrob>>();
    batch := Collect(env, commands, one, Always<Indexed<JCrob>>(CrobRefs), 2, 2);
    SingletonsAlign(one, commands);
  }

  method AddAnalogs(env: JniEnv, commands: seq<Indexed<Analog>>) returns (batch: seq<Indexed<Analog>>)
    requires env.Valid()
    modifies env
    ensures env.Valid() && env.globals == old(env.globals)
    ensures Restored(old(env.locals), env.locals, if commands == [] then 1 else 4)
    ensures |batch| == |commands|
    ensures forall i | 0 <= i < |batch| ::
              batch[i] == Indexed(ConvertAnalog(commands[i].value), ToUint16(commands[i].index))
  {
    var one := Command(ConvertAnalog);
    ScriptsAreNeutral<Indexed<Analog>>();
    batch := Collect(env, commands, one, Always<Indexed<Analog>>(AnalogRefs), 2, 2);
    SingletonsAlign(one, commands);
  }
}
