/** The outstation's side of an assign-class request: the header handler, the point database it
    assigns into, and the request as a whole. */
module Outstation {
  import opened PointClasses
  import opened Results
  import opened Wire
  import opened AssignClass

  datatype PointType =
    | BinaryInput | DoubleBinaryInput | Counter | FrozenCounter | AnalogInput
    | BinaryOutputStatus | AnalogOutputStatus

  datatype IINBit = FuncNotSupported | ObjectUnknown | ParamError

  /** The object that stands for all points of a type is variation 0 of this group. */
  function Group(t: PointType): byte {
    match t
    case BinaryInput => 1
    case DoubleBinaryInput => 3
    case BinaryOutputStatus => 10
    case Counter => 20
    case FrozenCounter => 21
    case AnalogInput => 30
    case AnalogOutputStatus => 40
  }

  function TypeOf(group: byte, variation: byte): (r: Option<PointType>)
    ensures forall t :: r == Some(t) <==> group == Group(t) && variation == 0
  {
    if variation != 0 then None
    else match group
      case 1 => Some(BinaryInput)
      case 3 => Some(DoubleBinaryInput)
      case 10 => Some(BinaryOutputStatus)
      case 20 => Some(Counter)
      case 21 => Some(FrozenCounter)
      case 30 => Some(AnalogInput)
      case 40 => Some(AnalogOutputStatus)
      case _ => None
  }

  // ---------- the database ----------

  /** The native inclusive index range. */
  datatype Span = Span(start: uint16, stop: uint16) {
    predicate IsValid() { start <= stop }

    function Intersection(other: Span): Span {
      Span(if start > other.start then start else other.start, if stop < other.stop then stop else other.stop)
    }
  }

  function RangeOf(size: uint16): Span {
    if size > 0 then Span(0, size - 1) else Span(1, 0)
  }

  /** The event class of every point, by type. */
  datatype Points = Points(
      binary: seq<PointClass>, doubleBinary: seq<PointClass>, counter: seq<PointClass>,
      frozenCounter: seq<PointClass>, analog: seq<PointClass>, boStatus: seq<PointClass>, aoStatus: seq<PointClass>)
  {
    function At(t: PointType): seq<PointClass> {
      match t
      case BinaryInput => binary
      case DoubleBinaryInput => doubleBinary
      case Counter => counter
      case FrozenCounter => frozenCounter
      case AnalogInput => analog
      case BinaryOutputStatus => boStatus
      case AnalogOutputStatus => aoStatus
    }

    function With(t: PointType, cells: seq<PointClass>): (p: Points)
      ensures forall u :: p.At(u) == if u == t then cells else At(u)
    {
      match t
      case BinaryInput => this.(binary := cells)
      case DoubleBinaryInput => this.(doubleBinary := cells)
      case Counter => this.(counter := cells)
      case FrozenCounter => this.(frozenCounter := cells)
      case AnalogInput => this.(analog := cells)
      case BinaryOutputStatus => this.(boStatus := cells)
      case AnalogOutputStatus => this.(aoStatus := cells)
    }

    /** The sizes of a database are 16-bit numbers. */
    ghost predicate Sized() { forall t :: |At(t)| <= 0xFFFF }
  }

  function Paint(cells: seq<PointClass>, s: Span, c: PointClass): (r: seq<PointClass>)
    ensures |r| == |cells|
    ensures forall i | 0 <= i < |r| :: r[i] == if s.start <= i <= s.stop then c else cells[i]
  {
    seq(|cells|, i requires 0 <= i < |cells| => if s.start <= i <= s.stop then c else cells[i])
  }

  /** Point configuration stored in one array per type. */
  class DatabaseBuffers {
    const binary: array<PointClass>
    const doubleBinary: array<PointClass>
    const counter: array<PointClass>
    const frozenCounter: array<PointClass>
    const analog: array<PointClass>
    const boStatus: array<PointClass>
    const aoStatus: array<PointClass>

    function View(t: PointType): array<PointClass> {
      match t
      case BinaryInput => binary
      case DoubleBinaryInput => doubleBinary
      case Counter => counter
      case FrozenCounter => frozenCounter
      case AnalogInput => analog
      case BinaryOutputStatus => boStatus
      case AnalogOutputStatus => aoStatus
    }

    ghost function Views(): set<object> {
      {binary, doubleBinary, counter, frozenCounter, analog, boStatus, aoStatus}
    }

    ghost predicate Valid() {
      && (forall t :: View(t).Length <= 0xFFFF)
      && (forall t, u :: t != u ==> View(t) != View(u))
    }

    ghost function Value(): Points
      reads Views()
    {
      Points(binary[..], doubleBinary[..], counter[..], frozenCounter[..], analog[..], boStatus[..], aoStatus[..])
    }

    constructor (points: Points)
      requires points.Sized()
      ensures Valid() && fresh(Views()) && Value() == points
    {
      var v0 := NewView(points.At(BinaryInput));
      var v1 := NewView(points.At(DoubleBinaryInput));
      var v2 := NewView(points.At(Counter));
      var v3 := NewView(points.At(FrozenCounter));
      var v4 := NewView(points.At(AnalogInput));
      var v5 := NewView(points.At(BinaryOutputStatus));
      var v6 := NewView(points.At(AnalogOutputStatus));
      binary, doubleBinary, counter, frozenCounter, analog, boStatus, aoStatus := v0, v1, v2, v3, v4, v5, v6;
    }

    static method NewView(cells: seq<PointClass>) returns (view: array<PointClass>)
      ensures fresh(view) && view[..] == cells
    {
      view := new PointClass[|cells|](i requires 0 <= i < |cells| => cells[i]);
    }

    /** The counter of the loop is a 16-bit number, so it would run forever on a range that ends
        at 65535; clipping to a database size keeps the range below that. */
    method AssignClassTo(view: array<PointClass>, clazz: PointClass, range: Span) returns (clipped: Span)
      requires view.Length <= 0xFFFF
      modifies view
      ensures clipped == range.Intersection(RangeOf(view.Length))
      ensures view[..] == Paint(old(view[..]), clipped, clazz)
    {
      clipped := range.Intersection(RangeOf(view.Length));
      var i := clipped.start;
      while i <= clipped.stop
        invariant clipped.start <= i && if clipped.IsValid() then i <= clipped.stop + 1 else i == clipped.start
        invariant forall k | 0 <= k < view.Length ::
                    view[k] == if clipped.start <= k < i then clazz else old(view[k])
        decreases clipped.stop + 1 - i
      {
        view[i] := clazz;
        i := ToUint16(i + 1);
      }
      ghost var painted := Paint(old(view[..]), clipped, clazz);
      assert forall k | 0 <= k < view.Length :: view[k] == painted[k];
    }

    method AssignClassToRange(t: PointType, clazz: PointClass, range: Span) returns (actual: Span)
      requires Valid()
      modifies Views()
      ensures actual == range.Intersection(RangeOf(View(t).Length))
      ensures Value() == old(Value()).With(t, Paint(old(Value()).At(t), actual, clazz))
    {
      ghost var before := Value();
      actual := AssignClassTo(View(t), clazz, range);
      forall u ensures Value().At(u) == before.With(t, Paint(before.At(t), actual, clazz)).At(u) {
        assert View(u)[..] == Value().At(u);
      }
      SamePoints(Value(), before.With(t, Paint(before.At(t), actual, clazz)));
    }

    method AssignClassToAll(t: PointType, clazz: PointClass) returns (actual: Span)
      requires Valid()
      modifies Views()
      ensures actual == RangeOf(View(t).Length)
      ensures Value() == old(Value()).With(t, Paint(old(Value()).At(t), actual, clazz))
    {
      actual := AssignClassToRange(t, clazz, RangeOf(View(t).Length));
    }
  }

  lemma SamePoints(p: Points, q: Points)
    requires forall t :: p.At(t) == q.At(t)
    ensures p == q
  {
    assert p.At(BinaryInput) == q.At(BinaryInput) && p.At(DoubleBinaryInput) == q.At(DoubleBinaryInput);
    assert p.At(Counter) == q.At(Counter) && p.At(FrozenCounter) == q.At(FrozenCounter);
    assert p.At(AnalogInput) == q.At(AnalogInput);
    assert p.At(BinaryOutputStatus) == q.At(BinaryOutputStatus) && p.At(AnalogOutputStatus) == q.At(AnalogOutputStatus);
  }

  // ---------- the header handler ----------

  /** What the application is told about a carried-out assignment. */
  datatype Notice = Notice(pointType: PointType, clazz: PointClass, start: uint16, stop: uint16)

  /** `seen` counts the headers already handled; `classHeader` is the position of a class header
      still waiting for its object header, or -1. */
  datatype Handler = Handler(
      seen: nat, classHeader: int, clazz: PointClass, errors: set<IINBit>, points: Points, notices: seq<Notice>)

  function Start(points: Points): Handler { Handler(0, -1, Class0, {}, points, []) }

  predicate Expecting(s: Handler) { s.seen > 0 && s.seen - 1 == s.classHeader }

  function Announce(t: PointType, c: PointClass, actual: Span): seq<Notice> {
    if actual.IsValid() then [Notice(t, c, actual.start, actual.stop)] else []
  }

  function Assign(s: Handler, t: PointType, requested: Span): (Handler, Span)
    requires s.points.Sized()
  {
    assert |s.points.At(t)| <= 0xFFFF;
    var actual := requested.Intersection(RangeOf(|s.points.At(t)|));
    (s.(classHeader := -1,
        points := s.points.With(t, Paint(s.points.At(t), actual, s.clazz)),
        notices := s.notices + Announce(t, s.clazz, actual)),
     actual)
  }

  function ProcessRange(s: Handler, group: byte, variation: byte, range: Span): (Handler, set<IINBit>)
    requires s.points.Sized()
  {
    if !Expecting(s) then (s, {ParamError})
    else match TypeOf(group, variation)
      case None => (s.(classHeader := -1), {FuncNotSupported})
      case Some(t) =>
        var (next, actual) := Assign(s, t, range);
        (next, if actual == range then {} else {ParamError})
  }

  function ProcessAllObjects(s: Handler, h: AnyHeader): (Handler, set<IINBit>)
    requires h.AllObjects? && s.points.Sized()
  {
    if !Expecting(s) then
      match Selects(h)
      case Some(c) => (s.(classHeader := s.seen, clazz := c), {})
      case None => (s.(classHeader := -1), {ParamError})
    else match TypeOf(h.group, h.variation)
      case None => (s.(classHeader := -1), {FuncNotSupported})
      case Some(t) =>
        assert |s.points.At(t)| <= 0xFFFF;
        var (next, actual) := Assign(s, t, RangeOf(|s.points.At(t)|));
        (next, if actual.IsValid() then {} else {ParamError})
  }

  function Process(s: Handler, h: AnyHeader): (Handler, set<IINBit>)
    requires s.points.Sized()
  {
    match h
    case AllObjects(_, _) => ProcessAllObjects(s, h)
    case Range8(g, v, start, stop) => ProcessRange(s, g, v, Span(start, stop))
    case Range16(g, v, start, stop) => ProcessRange(s, g, v, Span(start, stop))
    case _ => (s, {FuncNotSupported})
  }

  function Handle(s: Handler, h: AnyHeader): Handler
    requires s.points.Sized()
  {
    var (next, error) := Process(s, h);
    next.(errors := s.errors + error, seen := s.seen + 1)
  }

  lemma HandleKeepsSizes(s: Handler, h: AnyHeader)
    requires s.points.Sized()
    ensures forall t :: |Handle(s, h).points.At(t)| == |s.points.At(t)|
    ensures Handle(s, h).points.Sized()
  {}

  function HandleAll(s: Handler, hs: seq<AnyHeader>): (r: Handler)
    requires s.points.Sized()
    ensures r.points.Sized()
    decreases hs
  {
    if hs == [] then s else HandleKeepsSizes(s, hs[0]); HandleAll(Handle(s, hs[0]), hs[1..])
  }

  lemma {:induction false} HandleAllAppend(s: Handler, xs: seq<AnyHeader>, ys: seq<AnyHeader>)
    requires s.points.Sized()
    ensures HandleAll(s, xs + ys) == HandleAll(HandleAll(s, xs), ys)
    decreases xs
  {
    if xs == [] {
      assert xs + ys == ys;
    } else {
      HandleKeepsSizes(s, xs[0]);
      assert (xs + ys)[0] == xs[0] && (xs + ys)[1..] == xs[1..] + ys;
      HandleAllAppend(Handle(s, xs[0]), xs[1..], ys);
    }
  }

  class AssignClassHandler {
    const assigner: DatabaseBuffers
    var seen: nat
    var classHeader: int
    var clazz: PointClass
    var errors: set<IINBit>
    var notices: seq<Notice>

    ghost predicate Valid() {
      assigner.Valid()
    }

    ghost function State(): Handler
      reads this, assigner.Views()
    {
      Handler(seen, classHeader, clazz, errors, assigner.Value(), notices)
    }

    constructor (assigner: DatabaseBuffers)
      requires assigner.Valid()
      ensures Valid() && this.assigner == assigner && State() == Start(assigner.Value())
    {
      this.assigner := assigner;
      seen, classHeader, clazz, errors, notices := 0, -1, Class0, {}, [];
    }

    ghost function ValueSized(): (p: Points)
      requires Valid()
      reads assigner.Views()
      ensures p == assigner.Value() && p.Sized()
    {
      var p := assigner.Value();
      assert forall t :: |p.At(t)| == assigner.View(t).Length;
      p
    }

    method IsExpectingAssignment() returns (r: bool)
      modifies this
      ensures r == Expecting(old(State()))
      ensures State() == if r then old(State()).(classHeader := -1) else old(State())
    {
      r := seen > 0 && seen - 1 == classHeader;
      if r {
        classHeader := -1;
      }
    }

    method RecordClass(h: AnyHeader) returns (error: set<IINBit>)
      requires h.AllObjects?
      modifies this
      ensures var s := old(State());
              (State(), error) == match Selects(h)
                                  case Some(c) => (s.(classHeader := s.seen, clazz := c), {})
                                  case None => (s.(classHeader := -1), {ParamError})
    {
      classHeader := seen;
      if Selects(h).Some? {
        clazz := Selects(h).value;
        error := {};
      } else {
        classHeader := -1;
        error := {ParamError};
      }
    }

    method ProcessAssign(t: PointType, all: bool, range: Span) returns (actual: Span)
      requires Valid() && classHeader == -1
      modifies this, assigner.Views()
      ensures old(State()).points.Sized()
      ensures var requested := if all then RangeOf(|old(State()).points.At(t)|) else range;
              (State(), actual) == Assign(old(State()), t, requested)
    {
      ghost var before, s := ValueSized(), State();
      assert |before.At(t)| == assigner.View(t).Length;
      if all {
        actual := assigner.AssignClassToAll(t, clazz);
      } else {
        actual := assigner.AssignClassToRange(t, clazz, range);
      }
      if actual.IsValid() {
        notices := notices + [Notice(t, clazz, actual.start, actual.stop)];
      }
      assert State().points == Assign(s, t, if all then RangeOf(|before.At(t)|) else range).0.points;
      assert State().notices == s.notices + Announce(t, s.clazz, actual);
    }

    method OnHeader(h: AnyHeader)
      requires Valid()
      modifies this, assigner.Views()
      ensures old(State()).points.Sized()
      ensures State() == Handle(old(State()), h)
    {
      ghost var before := ValueSized();
      var error := {FuncNotSupported};
      if h.AllObjects? {
        var expecting := IsExpectingAssignment();
        if !expecting {
          error := RecordClass(h);
        } else {
          var t := TypeOf(h.group, h.variation);
          if t.Some? {
            var actual := ProcessAssign(t.value, true, Span(1, 0));
            error := if actual.IsValid() then {} else {ParamError};
          }
        }
      } else if h.Range8? || h.Range16? {
        var range := if h.Range8? then Span(h.start8, h.stop8) else Span(h.start16, h.stop16);
        var expecting := IsExpectingAssignment();
        if !expecting {
          error := {ParamError};
        } else {
          var t := TypeOf(h.group, h.variation);
          if t.Some? {
            var actual := ProcessAssign(t.value, false, range);
            error := if actual == range then {} else {ParamError};
          }
        }
      }
      errors := errors + error;
      seen := seen + 1;
    }
  }
}
