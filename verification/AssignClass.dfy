/** The master's assign-class request: the list of class assignments of the Java application is
    compiled to a flat stream of object headers. */
module AssignClass {
  import opened PointClasses
  import opened Results
  import opened Sequences
  import opened Wire

  type jbyte = b: int | -0x80 <= b < 0x80

  /** Java's `PointClass.toType`. */
  function ToType(c: PointClass): int {
    match c case Class0 => 1 case Class1 => 2 case Class2 => 4 case Class3 => 8
  }

  /** `Header::From`, applied to whatever code the cast to `PointClass` let through. */
  function ClassHeader(code: int): Header {
    if code == 1 then AllObjects(60, 1)
    else if code == 2 then AllObjects(60, 2)
    else if code == 4 then AllObjects(60, 3)
    else AllObjects(60, 4)
  }

  /** Java's `Range`: any two integers. */
  datatype Range = Range(start: int, stop: int) {
    predicate IsDefined() { start >= 0 && stop <= 0xFFFF && start <= stop }
  }

  datatype ClassAssignment = ClassAssignment(group: jbyte, variation: jbyte, clazz: PointClass, range: Range)

  /** The header that names the assigned points. */
  function ObjectHeader(a: ClassAssignment): Header {
    if a.range.IsDefined()
    then Range16(ToUint8(a.group), ToUint8(a.variation), ToUint16(a.range.start), ToUint16(a.range.stop))
    else AllObjects(ToUint8(a.group), ToUint8(a.variation))
  }

  /** The two headers written for one assignment. */
  function Emit(a: ClassAssignment): seq<Header> { [ClassHeader(ToType(a.clazz)), ObjectHeader(a)] }

  function Compile(assignments: seq<ClassAssignment>): seq<Header> { ConcatMap(Emit, assignments) }

  // ---------- what the application asked for ----------

  /** The assignment names this object type and point. An undefined range names every point. */
  predicate Targets(a: ClassAssignment, group: byte, variation: byte, index: uint16) {
    && ToUint8(a.group) == group && ToUint8(a.variation) == variation
    && (a.range.IsDefined() ==> a.range.start <= index <= a.range.stop)
  }

  /** The class given by the last assignment that names the point. */
  function LastWriter(assignments: seq<ClassAssignment>, group: byte, variation: byte, index: uint16)
    : Option<PointClass>
  {
    if assignments == [] then None
    else
      var last := assignments[|assignments| - 1];
      if Targets(last, group, variation, index) then Some(last.clazz)
      else LastWriter(assignments[..|assignments| - 1], group, variation, index)
  }

  // ---------- what a header stream says ----------

  /** The class a header selects: group 60, variations 1 to 4, all objects. */
  function Selects(h: AnyHeader): Option<PointClass> {
    if !h.AllObjects? || h.group != 60 then None
    else match h.variation
      case 1 => Some(Class0)
      case 2 => Some(Class1)
      case 3 => Some(Class2)
      case 4 => Some(Class3)
      case _ => None
  }

  predicate Covers(h: AnyHeader, group: byte, variation: byte, index: uint16) {
    && h.group == group && h.variation == variation
    && match h
       case AllObjects(_, _) => true
       case Range8(_, _, start, stop) => start <= index <= stop
       case Range16(_, _, start, stop) => start <= index <= stop
       case Count8(_, _, count) => index < count
       case Count16(_, _, count) => index < count
       case _ => false  // objects are not points to assign
  }

  /** Reading a stream for one point: the class in force, and the class last given to the point. */
  datatype Reading = Reading(current: Option<PointClass>, given: Option<PointClass>)

  function ReadHeader(r: Reading, h: AnyHeader, group: byte, variation: byte, index: uint16): Reading {
    if Selects(h).Some? then r.(current := Selects(h))
    else if r.current.Some? && Covers(h, group, variation, index) then r.(given := r.current)
    else r
  }

  /** IEEE Std 1815-2012 on function code ASSIGN_CLASS: a class header sets the current class,
      and every later header assigns it to the points it covers. */
  function Read(hs: seq<AnyHeader>, group: byte, variation: byte, index: uint16): Reading {
    Fold((r, h: AnyHeader) => ReadHeader(r, h, group, variation, index), Reading(None, None), hs)
  }

  /** An assignment whose own object header would be taken for a class header. */
  predicate LooksLikeClassHeader(a: ClassAssignment) {
    a.group == 60 && 1 <= a.variation <= 4 && !a.range.IsDefined()
  }

  ghost predicate ReadsAsAsked(assignments: seq<ClassAssignment>) {
    forall group: byte, variation: byte, index: uint16 ::
      Read(Compile(assignments), group, variation, index).given == LastWriter(assignments, group, variation, index)
  }

  lemma ReadOneMore(hs: seq<AnyHeader>, a: ClassAssignment, group: byte, variation: byte, index: uint16)
    ensures var r := Read(hs, group, variation, index);
            Read(hs + Emit(a), group, variation, index)
            == ReadHeader(r.(current := Some(a.clazz)), ObjectHeader(a), group, variation, index)
  {
    var f := (r, h: AnyHeader) => ReadHeader(r, h, group, variation, index);
    var r := Read(hs, group, variation, index);
    var pair := Emit(a);
    FoldAppend(f, Reading(None, None), hs, pair);
    assert Selects(pair[0]) == Some(a.clazz);
    assert Fold(f, r, pair) == Fold(f, f(r, pair[0]), [pair[1]]);
    assert Fold(f, f(r, pair[0]), [pair[1]]) == Fold(f, f(f(r, pair[0]), pair[1]), []);
  }

  lemma ObjectHeaderNames(a: ClassAssignment, group: byte, variation: byte, index: uint16)
    ensures Covers(ObjectHeader(a), group, variation, index) == Targets(a, group, variation, index)
    ensures Selects(ObjectHeader(a)).Some? <==> LooksLikeClassHeader(a)
  {}

  /** The list without the assignments that look like class headers. */
  function Plain(assignments: seq<ClassAssignment>): seq<ClassAssignment> {
    if assignments == [] then []
    else
      var last := assignments[|assignments| - 1];
      Plain(assignments[..|assignments| - 1]) + if LooksLikeClassHeader(last) then [] else [last]
  }

  lemma {:induction false} PlainIsAll(assignments: seq<ClassAssignment>)
    requires forall a | a in assignments :: !LooksLikeClassHeader(a)
    ensures Plain(assignments) == assignments
  {
    if assignments != [] {
      var n := |assignments| - 1;
      PlainIsAll(assignments[..n]);
      assert assignments[n] in assignments && assignments == assignments[..n] + [assignments[n]];
    }
  }

  lemma LastWriterNext(
      assignments: seq<ClassAssignment>, a: ClassAssignment, group: byte, variation: byte, index: uint16)
    ensures LastWriter(assignments + [a], group, variation, index)
         == if Targets(a, group, variation, index) then Some(a.clazz)
            else LastWriter(assignments, group, variation, index)
  {
    var all := assignments + [a];
    assert all[..|all| - 1] == assignments && all[|all| - 1] == a;
  }

  lemma PlainOneMore(assignments: seq<ClassAssignment>, a: ClassAssignment)
    ensures Plain(assignments + [a]) == if LooksLikeClassHeader(a) then Plain(assignments) else Plain(assignments) + [a]
  {
    var all := assignments + [a];
    assert all[..|all| - 1] == assignments && all[|all| - 1] == a;
    assert Plain(assignments) + [] == Plain(assignments);
  }

  /** What every list reads as: the assignments that look like class headers are lost, and the
      others do what they were asked to. */
  lemma {:induction false} CompiledReadsPlain(
      assignments: seq<ClassAssignment>, group: byte, variation: byte, index: uint16)
    ensures Read(Compile(assignments), group, variation, index).given
         == LastWriter(Plain(assignments), group, variation, index)
  {
    if assignments != [] {
      var n := |assignments| - 1;
      var rest, last := assignments[..n], assignments[n];
      CompiledReadsPlain(rest, group, variation, index);
      ConcatMapOne(Emit, rest, last);
      assert assignments == rest + [last];
      ReadOneMore(Compile(rest), last, group, variation, index);
      ObjectHeaderNames(last, group, variation, index);
      LastWriterNext(Plain(rest), last, group, variation, index);
      PlainOneMore(rest, last);
    }
  }

  /** The two lists give every point the same class. */
  ghost predicate SameWriters(xs: seq<ClassAssignment>, ys: seq<ClassAssignment>) {
    forall group: byte, variation: byte, index: uint16 ::
      LastWriter(xs, group, variation, index) == LastWriter(ys, group, variation, index)
  }

  /** A list reads as asked exactly when dropping the assignments that look like class headers
      changes no point's last writer. */
  lemma ListReadsExactly(assignments: seq<ClassAssignment>)
    ensures ReadsAsAsked(assignments) <==> SameWriters(assignments, Plain(assignments))
  {
    if ReadsAsAsked(assignments) {
      forall group: byte, variation: byte, index: uint16
        ensures LastWriter(assignments, group, variation, index)
             == LastWriter(Plain(assignments), group, variation, index)
      {
        CompiledReadsPlain(assignments, group, variation, index);
        assert Read(Compile(assignments), group, variation, index).given
            == LastWriter(assignments, group, variation, index);
      }
    }
    if SameWriters(assignments, Plain(assignments)) {
      forall group: byte, variation: byte, index: uint16
        ensures Read(Compile(assignments), group, variation, index).given
             == LastWriter(assignments, group, variation, index)
      {
        CompiledReadsPlain(assignments, group, variation, index);
        assert LastWriter(assignments, group, variation, index)
            == LastWriter(Plain(assignments), group, variation, index);
      }
    }
  }

  lemma CompiledReads(assignments: seq<ClassAssignment>, group: byte, variation: byte, index: uint16)
    requires forall a | a in assignments :: !LooksLikeClassHeader(a)
    ensures Read(Compile(assignments), group, variation, index).given
         == LastWriter(assignments, group, variation, index)
  {
    CompiledReadsPlain(assignments, group, variation, index);
    PlainIsAll(assignments);
  }

  /** Over a repertoire of assignments, every request reads the way it was asked for exactly when
      none of them is an all-objects assignment to a class object itself. */
  lemma CompiledReadsExactly(repertoire: set<ClassAssignment>)
    ensures (forall a | a in repertoire :: !LooksLikeClassHeader(a))
       <==> (forall assignments: seq<ClassAssignment> | (forall a | a in assignments :: a in repertoire) ::
               ReadsAsAsked(assignments))
  {
    if forall a | a in repertoire :: !LooksLikeClassHeader(a) {
      forall assignments: seq<ClassAssignment> | forall a | a in assignments :: a in repertoire
        ensures ReadsAsAsked(assignments)
      {
        forall group: byte, variation: byte, index: uint16 {
          CompiledReads(assignments, group, variation, index);
        }
      }
    } else {
      var a :| a in repertoire && LooksLikeClassHeader(a);
      ClassObjectIsMisread(a);
      assert forall b | b in [a] :: b in repertoire;
    }
  }

  /** Such an assignment selects a class and assigns nothing. */
  lemma ClassObjectIsMisread(a: ClassAssignment)
    requires LooksLikeClassHeader(a)
    ensures forall index: uint16 ::
              && LastWriter([a], 60, ToUint8(a.variation), index) == Some(a.clazz)
              && Read(Compile([a]), 60, ToUint8(a.variation), index).given == None
    ensures !ReadsAsAsked([a])
  {
    forall index: uint16
      ensures LastWriter([a], 60, ToUint8(a.variation), index) == Some(a.clazz)
      ensures Read(Compile([a]), 60, ToUint8(a.variation), index).given == None
    {
      ConcatMapOne(Emit, [], a);
      assert [] + [a] == [a] && [] + Emit(a) == Emit(a);
      ReadOneMore([], a, 60, ToUint8(a.variation), index);
      assert Selects(ObjectHeader(a)).Some?;
    }
    assert Read(Compile([a]), 60, ToUint8(a.variation), 0).given != LastWriter([a], 60, ToUint8(a.variation), 0);
  }

  /** A full range and an undefined one are written differently and name the same points. */
  lemma FullRangeIsAllObjects(a: ClassAssignment, b: ClassAssignment, group: byte, variation: byte, index: uint16)
    requires a.range == Range(0, 0xFFFF) && !b.range.IsDefined()
    requires b == a.(range := b.range)
    ensures ObjectHeader(a).Range16? && ObjectHeader(b).AllObjects? && Emit(a)[0] == Emit(b)[0]
    ensures Covers(ObjectHeader(a), group, variation, index) == Covers(ObjectHeader(b), group, variation, index)
    ensures Targets(a, group, variation, index) == Targets(b, group, variation, index)
  {}

  /** Narrowing never changes a range that is written, and a written range is never inverted. */
  lemma WrittenRangesAreExact(a: ClassAssignment)
    ensures var h := ObjectHeader(a);
            h.Range16? ==> h.start16 == a.range.start && h.stop16 == a.range.stop && h.start16 <= h.stop16
  {}
}
