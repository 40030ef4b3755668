/** An assign-class request from end to end: the Java application's assignments, compiled to
    headers, written into the master's buffer, parsed and carried out by the outstation. */
module Delivery {
  import opened Results
  import opened Sequences
  import opened Parsing
  import opened PointClasses
  import opened Wire
  import opened AssignClass
  import opened Outstation
  import References
  import Requests

  // ---------- what one assignment means to a database, judged before it is sent ----------

  function TargetType(a: ClassAssignment): Option<PointType> { TypeOf(ToUint8(a.group), ToUint8(a.variation)) }

  /** The error bit an assignment raises: unknown object type, or points that do not exist. */
  function Fault(a: ClassAssignment, points: Points): Option<IINBit> {
    match TargetType(a)
    case None => Some(FuncNotSupported)
    case Some(t) =>
      var size := |points.At(t)|;
      if (if a.range.IsDefined() then a.range.stop < size else 0 < size) then None else Some(ParamError)
  }

  /** The notice an assignment leads to: the named points that exist. */
  function Told(a: ClassAssignment, points: Points): seq<Notice>
    requires points.Sized()
  {
    match TargetType(a)
    case None => []
    case Some(t) =>
      assert |points.At(t)| <= 0xFFFF;
      var size := |points.At(t)|;
      if size == 0 then []
      else if !a.range.IsDefined() then [Notice(t, a.clazz, 0, size - 1)]
      else if size <= a.range.start then []
      else [Notice(t, a.clazz, a.range.start, if a.range.stop < size then a.range.stop else size - 1)]
  }

  predicate SameSizes(p: Points, q: Points) { forall t :: |p.At(t)| == |q.At(t)| }

  predicate Raises(a: ClassAssignment, points: Points, bit: IINBit) { Fault(a, points) == Some(bit) }

  /** `after` is what the assignments make of `before`: every point has the class its last
      assignment gave it, or its old one. */
  ghost predicate CarriedOut(assignments: seq<ClassAssignment>, before: Points, after: Points) {
    && SameSizes(before, after)
    && forall t: PointType, i: uint16 | i < |after.At(t)| ::
         after.At(t)[i] == LastWriter(assignments, Group(t), 0, i).GetOr(before.At(t)[i])
  }

  // ---------- the handler on a compiled stream ----------

  lemma HandleTwo(s: Handler, x: AnyHeader, y: AnyHeader)
    requires s.points.Sized()
    ensures Handle(s, x).points.Sized() && HandleAll(s, [x, y]) == Handle(Handle(s, x), y)
  {
    HandleKeepsSizes(s, x);
    var t := Handle(s, x);
    assert [x, y][1..] == [y] && [y][1..] == [];
    assert HandleAll(t, [y]) == HandleAll(Handle(t, y), []);
  }

  lemma ClassHeaderHandled(s: Handler, c: PointClass)
    requires s.points.Sized() && !Expecting(s)
    ensures Handle(s, ClassHeader(ToType(c))) == s.(classHeader := s.seen, clazz := c, seen := s.seen + 1)
  {
    assert Selects(ClassHeader(ToType(c))) == Some(c);
    assert s.errors + {} == s.errors;
  }

  /** The points an assignment names in a database of this size. */
  function Clipped(a: ClassAssignment, size: uint16): Span {
    (if a.range.IsDefined() then Span(a.range.start, a.range.stop) else RangeOf(size)).Intersection(RangeOf(size))
  }

  lemma ClippedMeaning(a: ClassAssignment, t: PointType, points: Points)
    requires points.Sized() && TargetType(a) == Some(t)
    ensures |points.At(t)| <= 0xFFFF
    ensures var span := Clipped(a, |points.At(t)|);
            && Told(a, points) == Announce(t, a.clazz, span)
            && (forall i: uint16 | i < |points.At(t)| :: span.start <= i <= span.stop <==> Targets(a, Group(t), 0, i))
  {
    assert |points.At(t)| <= 0xFFFF;
  }

  /** The object header of an assignment, met while its class is in force. */
  lemma ObjectHeaderHandled(s: Handler, a: ClassAssignment)
    requires s.points.Sized() && Expecting(s) && s.clazz == a.clazz
    ensures var r := Handle(s, ObjectHeader(a));
            && !Expecting(r)
            && r.errors == s.errors + (match Fault(a, s.points) case None => {} case Some(bit) => {bit})
            && match TargetType(a)
               case None => r.points == s.points && r.notices == s.notices
               case Some(t) =>
                 && |s.points.At(t)| <= 0xFFFF
                 && var span := Clipped(a, |s.points.At(t)|);
                    && r.points == s.points.With(t, Paint(s.points.At(t), span, a.clazz))
                    && r.notices == s.notices + Announce(t, a.clazz, span)
  {
    var target, h := TargetType(a), ObjectHeader(a);
    if a.range.IsDefined() {
      assert Process(s, h) == ProcessRange(s, h.group, h.variation, Span(a.range.start, a.range.stop));
    } else {
      assert Process(s, h) == ProcessAllObjects(s, h);
    }
    if target.Some? {
      assert |s.points.At(target.value)| <= 0xFFFF;
    }
  }

  lemma PairHandled(s: Handler, a: ClassAssignment)
    requires s.points.Sized() && !Expecting(s)
    ensures var r := HandleAll(s, Emit(a));
            && !Expecting(r) && SameSizes(s.points, r.points)
            && r.errors == s.errors + (match Fault(a, s.points) case None => {} case Some(bit) => {bit})
            && r.notices == s.notices + Told(a, s.points)
            && (forall t: PointType, i: uint16 | i < |r.points.At(t)| ::
                  r.points.At(t)[i] == if Targets(a, Group(t), 0, i) then a.clazz else s.points.At(t)[i])
  {
    ClassHeaderHandled(s, a.clazz);
    var s1 := s.(classHeader := s.seen, clazz := a.clazz, seen := s.seen + 1);
    HandleTwo(s, ClassHeader(ToType(a.clazz)), ObjectHeader(a));
    ObjectHeaderHandled(s1, a);
    var r := HandleAll(s, Emit(a));
    if TargetType(a).Some? {
      ClippedMeaning(a, TargetType(a).value, s.points);
    }
    forall t: PointType ensures |s.points.At(t)| == |r.points.At(t)| {}
    forall t: PointType, i: uint16 | i < |r.points.At(t)|
      ensures r.points.At(t)[i] == if Targets(a, Group(t), 0, i) then a.clazz else s.points.At(t)[i]
    {
      assert TargetType(a) == Some(t) <==> ToUint8(a.group) == Group(t) && ToUint8(a.variation) == 0;
    }
  }

  lemma ToldBySizes(a: ClassAssignment, p: Points, q: Points)
    requires p.Sized() && SameSizes(p, q)
    ensures q.Sized() && Fault(a, p) == Fault(a, q) && Told(a, p) == Told(a, q)
  {
    forall t ensures |q.At(t)| <= 0xFFFF {
      assert |p.At(t)| == |q.At(t)|;
    }
  }

  /** The strict pairing of the handler carries out every compiled list of assignments: the last
      writer of each point wins, the error bits are those of the individual assignments, and the
      application is told of each in order. There is no exception for group 60 here, because the
      handler goes by position. */
  lemma {:induction false} CompiledIsCarriedOut(assignments: seq<ClassAssignment>, points: Points)
    requires points.Sized()
    ensures var r := HandleAll(Start(points), Compile(assignments));
            && !Expecting(r)
            && CarriedOut(assignments, points, r.points)
            && (forall bit :: bit in r.errors <==> exists a | a in assignments :: Raises(a, points, bit))
            && r.notices == ConcatMap(a => if points.Sized() then Told(a, points) else [], assignments)
  {
    var told := (a: ClassAssignment) => if points.Sized() then Told(a, points) else [];
    if assignments != [] {
      var n := |assignments| - 1;
      var rest, last := assignments[..n], assignments[n];
      var s := HandleAll(Start(points), Compile(rest));
      var r := HandleAll(Start(points), Compile(assignments));
      CompiledIsCarriedOut(rest, points);
      assert assignments == rest + [last];
      assert r == HandleAll(s, Emit(last)) by {
        ConcatMapOne(Emit, rest, last);
        HandleAllAppend(Start(points), Compile(rest), Emit(last));
      }
      ToldBySizes(last, points, s.points);
      PairHandled(s, last);
      ConcatMapOne(told, rest, last);
      LastWriterStep(assignments, points, s.points, r.points);
      ErrorsStep(assignments, points, s.errors, r.errors);
    }
  }

  lemma LastWriterStep(assignments: seq<ClassAssignment>, before: Points, mid: Points, after: Points)
    requires assignments != []
    requires CarriedOut(assignments[..|assignments| - 1], before, mid) && SameSizes(mid, after)
    requires forall t: PointType, i: uint16 | i < |after.At(t)| ::
               var last := assignments[|assignments| - 1];
               after.At(t)[i] == if Targets(last, Group(t), 0, i) then last.clazz else mid.At(t)[i]
    ensures CarriedOut(assignments, before, after)
  {
    forall t ensures |before.At(t)| == |after.At(t)| {
      assert |before.At(t)| == |mid.At(t)| && |mid.At(t)| == |after.At(t)|;
    }
  }

  lemma ErrorsStep(assignments: seq<ClassAssignment>, points: Points, mid: set<IINBit>, after: set<IINBit>)
    requires assignments != []
    requires forall bit :: bit in mid <==> exists a | a in assignments[..|assignments| - 1] :: Raises(a, points, bit)
    requires after == mid + (match Fault(assignments[|assignments| - 1], points)
                             case None => {}
                             case Some(bit) => {bit})
    ensures forall bit :: bit in after <==> exists a | a in assignments :: Raises(a, points, bit)
  {
    var n := |assignments| - 1;
    forall bit ensures bit in after <==> exists a | a in assignments :: Raises(a, points, bit) {
      if bit in mid {
        var a :| a in assignments[..n] && Raises(a, points, bit);
        assert a in assignments;
      }
      if bit in after && bit !in mid {
        assert assignments[n] in assignments && Raises(assignments[n], points, bit);
      }
      if a :| a in assignments && Raises(a, points, bit) {
        assert a in assignments[..n] || a == assignments[n];
      }
    }
  }

  // ---------- the request as bytes ----------

  function SizeOf(assignments: seq<ClassAssignment>): nat {
    if assignments == [] then 0
    else
      var last := assignments[|assignments| - 1];
      SizeOf(assignments[..|assignments| - 1]) + if last.range.IsDefined() then 10 else 6
  }

  /** The bytes of one assignment: a class header and an object header. */
  function AssignmentBytes(a: ClassAssignment): seq<byte> {
    var clazz := match a.clazz case Class0 => 1 case Class1 => 2 case Class2 => 3 case Class3 => 4;
    var group: int, variation: int := a.group, a.variation;
    var start, stop := a.range.start, a.range.stop;
    [60, clazz, 0x06, group % 256, variation % 256]
    + if 0 <= start <= stop <= 65535 then [0x01, start % 256, start / 256, stop % 256, stop / 256] else [0x06]
  }

  lemma OneAssignmentGoesOut(a: ClassAssignment)
    ensures EncodeAll(Emit(a)) == AssignmentBytes(a)
  {
    var pair: seq<AnyHeader> := Emit(a);
    assert pair == [pair[0]] + [pair[1]] && [pair[1]] == [pair[1]] + [];
    ConcatMapCons(Encode, pair[0], [pair[1]]);
    ConcatMapCons(Encode, pair[1], []);
    assert Encode(pair[0]) == AssignmentBytes(a)[..3];
    assert Encode(pair[1]) == AssignmentBytes(a)[3..];
  }

  /** The bytes of a request, to the last one. */
  lemma {:induction false} RequestGoesOut(assignments: seq<ClassAssignment>)
    ensures EncodeAll(Compile(assignments)) == ConcatMap(AssignmentBytes, assignments)
  {
    if assignments != [] {
      var a, rest := assignments[0], assignments[1..];
      RequestGoesOut(rest);
      OneAssignmentGoesOut(a);
      ConcatMapAppend<AnyHeader, byte>(Encode, Emit(a), Compile(rest));
    }
  }

  predicate IsKnown(a: ClassAssignment) { KnownObject(ToUint8(a.group), ToUint8(a.variation)) }

  lemma {:induction false} CompiledSize(assignments: seq<ClassAssignment>)
    ensures |EncodeAll(Compile(assignments))| == SizeOf(assignments)
  {
    if assignments != [] {
      var n := |assignments| - 1;
      var pair := Emit(assignments[n]);
      CompiledSize(assignments[..n]);
      assert assignments == assignments[..n] + [assignments[n]];
      ConcatMapOne(Emit, assignments[..n], assignments[n]);
      ConcatMapAppend<AnyHeader, byte>(Encode, Compile(assignments[..n]), pair);
      ConcatMapCons<AnyHeader, byte>(Encode, pair[0], [pair[1]]);
      ConcatMapCons<AnyHeader, byte>(Encode, pair[1], []);
      assert pair == [pair[0]] + [pair[1]] && [pair[1]] == [pair[1]] + [];
    }
  }

  lemma ObjectionToPair(x: AnyHeader, y: AnyHeader, hs: seq<AnyHeader>)
    ensures FirstObjection([x, y] + hs)
         == if Objection(x).Some? then Objection(x)
            else if Objection(y).Some? then Objection(y)
            else FirstObjection(hs)
  {
    var all := [x, y] + hs;
    assert all[0] == x && all[1..] == [y] + hs && ([y] + hs)[0] == y && ([y] + hs)[1..] == hs;
  }

  lemma ObjectionToAssignment(a: ClassAssignment)
    ensures Objection(ClassHeader(ToType(a.clazz))).None?
    ensures Objection(ObjectHeader(a)) == if IsKnown(a) then None else Some(UnknownObject)
  {
    WrittenRangesAreExact(a);
  }

  /** The only objection the parser can have to a compiled request is an unknown object. */
  lemma {:induction false} CompiledObjection(assignments: seq<ClassAssignment>)
    ensures FirstObjection(Compile(assignments))
         == if forall a | a in assignments :: IsKnown(a) then None else Some(UnknownObject)
  {
    if assignments != [] {
      var a, rest := assignments[0], assignments[1..];
      CompiledObjection(rest);
      ObjectionToPair(ClassHeader(ToType(a.clazz)), ObjectHeader(a), Compile(rest));
      ObjectionToAssignment(a);
      assert forall b :: b in assignments <==> b == a || b in rest;
    }
  }

  datatype Reply = Reply(iin: set<IINBit>, points: Points, notices: seq<Notice>)

  /** What the outstation answers, and what its database is afterwards. The parser makes a first
      pass without the handler, so a malformed request reaches no point. */
  function HandleRequest(objects: seq<byte>, supported: bool, points: Points): Reply
    requires points.Sized()
  {
    if !supported then Reply({FuncNotSupported}, points, [])
    else match ParseAll(objects)
      case Failure(UnknownObject) => Reply({ObjectUnknown}, points, [])
      case Failure(_) => Reply({ParamError}, points, [])
      case Success(hs) =>
        var r := HandleAll(Start(points), hs);
        Reply(r.errors, r.points, r.notices)
  }

  /** All or nothing: if every object of a request is known, every assignment is carried out on
      the points that exist; otherwise no point changes and nobody is told anything. */
  lemma RequestIsAtomic(assignments: seq<ClassAssignment>, supported: bool, points: Points)
    requires points.Sized()
    ensures var reply := HandleRequest(EncodeAll(Compile(assignments)), supported, points);
            if !supported then reply == Reply({FuncNotSupported}, points, [])
            else if exists a | a in assignments :: !IsKnown(a) then reply == Reply({ObjectUnknown}, points, [])
            else
              && CarriedOut(assignments, points, reply.points)
              && (forall bit :: bit in reply.iin <==> exists a | a in assignments :: Raises(a, points, bit))
              && reply.notices == ConcatMap(a => if points.Sized() then Told(a, points) else [], assignments)
  {
    RequestRoundTrip(Compile(assignments));
    CompiledObjection(assignments);
    CompiledIsCarriedOut(assignments, points);
  }

  /** The reply is clean exactly when every assignment names one of the seven point types and
      only points that exist. */
  lemma CleanReply(assignments: seq<ClassAssignment>, points: Points)
    requires points.Sized()
    ensures HandleRequest(EncodeAll(Compile(assignments)), true, points).iin == {}
       <==> forall a | a in assignments :: Fault(a, points).None?
  {
    var iin := HandleRequest(EncodeAll(Compile(assignments)), true, points).iin;
    RequestIsAtomic(assignments, true, points);
    if a :| a in assignments && !IsKnown(a) {
      assert TargetType(a).None? && Fault(a, points).Some?;
      assert iin == {ObjectUnknown};
    } else {
      assert forall bit :: bit in iin <==> exists a | a in assignments :: Raises(a, points, bit);
      BitsFromFaults(assignments, points, iin);
    }
  }

  lemma BitsFromFaults(assignments: seq<ClassAssignment>, points: Points, bits: set<IINBit>)
    requires forall bit :: bit in bits <==> exists a | a in assignments :: Raises(a, points, bit)
    ensures bits == {} <==> forall a | a in assignments :: Fault(a, points).None?
  {
    if a :| a in assignments && Fault(a, points).Some? {
      assert Raises(a, points, Fault(a, points).value);
      assert Fault(a, points).value in bits;
    }
  }

  // ---------- the same, step by step ----------

  /** The master builds a request, and gives it up when it does not fit. */
  method BuildRequest(env: References.JniEnv, assignments: seq<ClassAssignment>, room: nat)
    returns (request: Option<seq<byte>>)
    requires env.Valid()
    modifies env
    ensures env.Valid() && env.locals.live == old(env.locals.live)
    ensures request == if SizeOf(assignments) <= room then Some(EncodeAll(Compile(assignments))) else None
    ensures var bytes := ConcatMap(AssignmentBytes, assignments);
            request == if |bytes| <= room then Some(bytes) else None
  {
    var writer := new HeaderWriter(room);
    var headers := Requests.ConfigureAssignClassRequest(env, assignments);
    CompiledSize(assignments);
    RequestGoesOut(assignments);
    FittingIsEverything<AnyHeader, byte>(Encode, headers, room);
    var ok := writer.WriteEach(headers);
    var written := writer.buffer[..writer.position];
    assert [] + EncodeAll(headers) == EncodeAll(headers);
    request := if ok then Some(written) else None;
  }

  /** One pass of the parser over a request. Without a handler it only looks for errors. */
  method ParseSinglePass(objects: seq<byte>, handler: AssignClassHandler, handling: bool)
    returns (result: Option<ParseError>)
    requires handler.Valid()
    requires handling ==> ParseAll(objects).Success?
    modifies handler, handler.assigner.Views()
    ensures old(handler.State()).points.Sized()
    ensures result == match ParseAll(objects) case Success(_) => None case Failure(e) => Some(e)
    ensures handler.State()
         == if handling then HandleAll(old(handler.State()), ParseAll(objects).value) else old(handler.State())
  {
    var rest := objects;
    ghost var p := handler.ValueSized();
    result := None;
    while rest != []
      invariant handler.State().points.Sized() && result == None
      invariant handling ==> ParseAll(rest).Success?
      invariant ParseAll(objects).Success? <==> ParseAll(rest).Success?
      invariant ParseAll(rest).Failure? ==> ParseAll(objects) == ParseAll(rest)
      invariant if handling
                then HandleAll(handler.State(), ParseAll(rest).value)
                     == HandleAll(old(handler.State()), ParseAll(objects).value)
                else handler.State() == old(handler.State())
      decreases |rest|
    {
      var parsed := ParseHeader(rest);
      if parsed.Failure? {
        return Some(parsed.error);
      }
      if handling {
        ghost var hs := ParseAll(rest[parsed.value.length..]).value;
        assert ([parsed.value.header] + hs)[0] == parsed.value.header && ([parsed.value.header] + hs)[1..] == hs;
        HandleKeepsSizes(handler.State(), parsed.value.header);
        handler.OnHeader(parsed.value.header);
      }
      rest := rest[parsed.value.length..];
    }
  }

  method HandleAssignClass(objects: seq<byte>, supported: bool, assigner: DatabaseBuffers)
    returns (iin: set<IINBit>, notices: seq<Notice>)
    requires assigner.Valid()
    modifies assigner.Views()
    ensures old(assigner.Value()).Sized()
    ensures Reply(iin, assigner.Value(), notices) == HandleRequest(objects, supported, old(assigner.Value()))
    ensures !supported ==> iin == {FuncNotSupported}
    ensures supported && ParseAll(objects).Failure? ==>
              iin == if ParseAll(objects).error == UnknownObject then {ObjectUnknown} else {ParamError}
    ensures !supported || ParseAll(objects).Failure? ==> notices == [] && assigner.Value() == old(assigner.Value())
  {
    var handler := new AssignClassHandler(assigner);
    ghost var p := handler.ValueSized();
    if !supported {
      return {FuncNotSupported}, [];
    }
    var error := ParseSinglePass(objects, handler, false);
    if error.None? {
      var again := ParseSinglePass(objects, handler, true);
      return handler.errors, handler.notices;
    }
    return if error == Some(UnknownObject) then {ObjectUnknown} else {ParamError}, [];
  }
}
