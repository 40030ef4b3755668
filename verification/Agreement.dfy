/** Where the outstation's handler, which pairs headers by position, and the standard's reading of
    an ASSIGN_CLASS request, in which a class header stays in force, come to the same. */
module Agreement {
  import opened Results
  import opened Sequences
  import opened PointClasses
  import opened Wire
  import opened Parsing
  import opened AssignClass
  import opened Outstation
  import opened Delivery

  /** Headers that can name points to assign. */
  predicate NamesPoints(h: AnyHeader) { h.AllObjects? || h.Range8? || h.Range16? }

  /** A class header at every even position, and a header that names points at every odd one. */
  predicate FitsPair(h: AnyHeader, i: nat) {
    if i % 2 == 0 then Selects(h).Some? else NamesPoints(h) && Selects(h).None?
  }

  predicate Paired(hs: seq<AnyHeader>) { forall i | 0 <= i < |hs| :: FitsPair(hs[i], i) }

  // ---------- one header ----------

  lemma HandleOneMore(s: Handler, hs: seq<AnyHeader>, h: AnyHeader)
    requires s.points.Sized()
    ensures HandleAll(s, hs + [h]) == Handle(HandleAll(s, hs), h)
  {
    HandleAllAppend(s, hs, [h]);
    var t := HandleAll(s, hs);
    HandleKeepsSizes(t, h);
    assert [h][1..] == [] && HandleAll(t, [h]) == HandleAll(Handle(t, h), []);
  }

  lemma ReadHeaderLast(hs: seq<AnyHeader>, h: AnyHeader, group: byte, variation: byte, index: uint16)
    ensures Read(hs + [h], group, variation, index)
         == ReadHeader(Read(hs, group, variation, index), h, group, variation, index)
  {
    var f := (r, x: AnyHeader) => ReadHeader(r, x, group, variation, index);
    var r := Read(hs, group, variation, index);
    FoldAppend(f, Reading(None, None), hs, [h]);
    assert Fold(f, r, [h]) == Fold(f, f(r, h), []);
  }

  /** A class header met between pairs. */
  lemma ClassStep(s: Handler, h: AnyHeader)
    requires s.points.Sized() && !Expecting(s) && Selects(h).Some?
    ensures var r := Handle(s, h);
            Expecting(r) && r.clazz == Selects(h).value && r.points == s.points && r.errors == s.errors
  {}

  /** A header that names points, met while a class is in force. */
  lemma ObjectStep(s: Handler, h: AnyHeader, t: PointType, i: uint16)
    requires s.points.Sized() && Expecting(s) && NamesPoints(h) && i < |s.points.At(t)|
    ensures var r := Handle(s, h);
            && |r.points.At(t)| == |s.points.At(t)|
            && r.points.At(t)[i] == if Covers(h, Group(t), 0, i) then s.clazz else s.points.At(t)[i]
  {
    var target := TypeOf(h.group, h.variation);
    assert target == Some(t) <==> h.group == Group(t) && h.variation == 0;
    if target.Some? {
      assert |s.points.At(target.value)| <= 0xFFFF;
    }
  }

  /** A header out of place is reported. */
  lemma MisfitIsReported(s: Handler, h: AnyHeader, n: nat)
    requires s.points.Sized() && (Expecting(s) <==> n % 2 == 1) && !FitsPair(h, n)
    ensures Handle(s, h).errors != {}
  {
    var (next, error) := Process(s, h);
    assert ParamError in error || FuncNotSupported in error;
  }

  // ---------- whole streams ----------

  /** After a paired stream the handler has done for every point what the standard's reading says. */
  lemma {:induction false} PairedAgrees(hs: seq<AnyHeader>, points: Points)
    requires points.Sized() && Paired(hs)
    ensures var s := HandleAll(Start(points), hs);
            && (Expecting(s) <==> |hs| % 2 == 1) && SameSizes(points, s.points)
            && forall t: PointType, i: uint16 | i < |s.points.At(t)| ::
                 && (Expecting(s) ==> Read(hs, Group(t), 0, i).current == Some(s.clazz))
                 && s.points.At(t)[i] == Read(hs, Group(t), 0, i).given.GetOr(points.At(t)[i])
  {
    if hs != [] {
      var n := |hs| - 1;
      var before, h := hs[..n], hs[n];
      assert hs == before + [h] && FitsPair(h, n);
      PairedAgrees(before, points);
      HandleOneMore(Start(points), before, h);
      var s, r := HandleAll(Start(points), before), HandleAll(Start(points), hs);
      HandleKeepsSizes(s, h);
      forall t ensures |points.At(t)| == |r.points.At(t)| {
        assert |points.At(t)| == |s.points.At(t)|;
      }
      if n % 2 == 0 {
        ClassStep(s, h);
      }
      forall t: PointType, i: uint16 | i < |r.points.At(t)|
        ensures Expecting(r) ==> Read(hs, Group(t), 0, i).current == Some(r.clazz)
        ensures r.points.At(t)[i] == Read(hs, Group(t), 0, i).given.GetOr(points.At(t)[i])
      {
        ReadHeaderLast(before, h, Group(t), 0, i);
        if n % 2 == 1 {
          ObjectStep(s, h, t, i);
        }
      }
    }
  }

  lemma ErrorsStay(s: Handler, h: AnyHeader)
    requires s.points.Sized()
    ensures s.errors <= Handle(s, h).errors
  {}

  /** Any other stream is answered with an error, so a difference is never silent. */
  lemma {:induction false} UnpairedIsReported(hs: seq<AnyHeader>, points: Points)
    requires points.Sized() && !Paired(hs)
    ensures HandleAll(Start(points), hs).errors != {}
  {
    var n := |hs| - 1;
    var before, h := hs[..n], hs[n];
    assert hs == before + [h];
    HandleOneMore(Start(points), before, h);
    var s := HandleAll(Start(points), before);
    if Paired(before) {
      PairedAgrees(before, points);
      MisfitIsReported(s, h, n);
    } else {
      UnpairedIsReported(before, points);
      ErrorsStay(s, h);
    }
  }

  // ---------- every stream, by positions ----------

  /** The header at position `i` is taken for a class header: it selects a class, and the one before
      it was not taken for one. */
  predicate ClassAt(hs: seq<AnyHeader>, i: nat)
    requires i < |hs|
    decreases i, 1
  {
    Selects(hs[i]).Some? && !Armed(hs, i)
  }

  /** The header before position `i` was taken for a class header. */
  predicate Armed(hs: seq<AnyHeader>, i: nat)
    requires i <= |hs|
    decreases i, 0
  {
    i > 0 && ClassAt(hs, i - 1)
  }

  /** The class the first `n` headers give a point: that of the last header that covers it right
      behind a class header. */
  function GivenBy(hs: seq<AnyHeader>, n: nat, group: byte, index: uint16): Option<PointClass>
    requires n <= |hs|
  {
    if n == 0 then None
    else if Armed(hs, n - 1) && NamesPoints(hs[n - 1]) && Covers(hs[n - 1], group, 0, index)
    then Selects(hs[n - 2])
    else GivenBy(hs, n - 1, group, index)
  }

  /** The points a header names are of one of the seven types, and all of them exist. */
  predicate Reaches(h: AnyHeader, points: Points) {
    match TypeOf(h.group, h.variation)
    case None => false
    case Some(t) =>
      match h
      case Range8(_, _, _, stop) => stop < |points.At(t)|
      case Range16(_, _, _, stop) => stop < |points.At(t)|
      case _ => 0 < |points.At(t)|
  }

  lemma SameReach(h: AnyHeader, p: Points, q: Points)
    requires SameSizes(p, q)
    ensures Reaches(h, p) == Reaches(h, q)
  {
    var target := TypeOf(h.group, h.variation);
    if target.Some? {
      assert |p.At(target.value)| == |q.At(target.value)|;
    }
  }

  /** The error bit that the header at position `i` raises. */
  function ErrorAt(hs: seq<AnyHeader>, i: nat, points: Points): Option<IINBit>
    requires i < |hs|
  {
    if !NamesPoints(hs[i]) then Some(FuncNotSupported)
    else if Armed(hs, i) then
      if TypeOf(hs[i].group, hs[i].variation).None? then Some(FuncNotSupported)
      else if Reaches(hs[i], points) then None
      else Some(ParamError)
    else if Selects(hs[i]).Some? then None
    else Some(ParamError)
  }

  /** What the application is told of the points a header names. */
  function ToldOf(h: AnyHeader, clazz: PointClass, points: Points): seq<Notice>
    requires points.Sized()
  {
    match TypeOf(h.group, h.variation)
    case None => []
    case Some(t) =>
      assert |points.At(t)| <= 0xFFFF;
      var size := |points.At(t)|;
      if size == 0 then []
      else match h
        case AllObjects(_, _) => [Notice(t, clazz, 0, size - 1)]
        case Range8(_, _, start, stop) => ToldRange(t, clazz, start, stop, size)
        case Range16(_, _, start, stop) => ToldRange(t, clazz, start, stop, size)
        case _ => []
  }

  function ToldRange(t: PointType, clazz: PointClass, start: uint16, stop: uint16, size: uint16): seq<Notice>
    requires size > 0
  {
    if start < size then [Notice(t, clazz, start, if stop < size then stop else size - 1)] else []
  }

  function NoticesBy(hs: seq<AnyHeader>, n: nat, points: Points): seq<Notice>
    requires n <= |hs| && points.Sized()
  {
    if n == 0 then []
    else if Armed(hs, n - 1) then
      assert ClassAt(hs, n - 2);
      NoticesBy(hs, n - 1, points) + ToldOf(hs[n - 1], Selects(hs[n - 2]).value, points)
    else NoticesBy(hs, n - 1, points)
  }

  lemma Disarmed(s: Handler, h: AnyHeader)
    requires s.points.Sized() && s.classHeader < s.seen && !Expecting(s)
    ensures var r := Handle(s, h);
            && r.classHeader < r.seen && r.seen == s.seen + 1
            && (Expecting(r) <==> Selects(h).Some?) && (Expecting(r) ==> Some(r.clazz) == Selects(h))
            && r.points == s.points && r.notices == s.notices
            && Process(s, h).1 == if !NamesPoints(h) then {FuncNotSupported}
                                  else if Selects(h).Some? then {} else {ParamError}
  {}

  lemma ArmedStep(s: Handler, h: AnyHeader)
    requires s.points.Sized() && s.classHeader < s.seen && Expecting(s)
    ensures var r := Handle(s, h);
            && r.classHeader < r.seen && r.seen == s.seen + 1 && !Expecting(r)
            && (!NamesPoints(h) ==> r.points == s.points && r.notices == s.notices)
            && (!NamesPoints(h) ==> Process(s, h).1 == {FuncNotSupported})
            && (NamesPoints(h) && TypeOf(h.group, h.variation).None? ==> Process(s, h).1 == {FuncNotSupported})
  {}

  lemma ArmedNotice(s: Handler, h: AnyHeader)
    requires s.points.Sized() && Expecting(s) && Objection(h).None?
    ensures Handle(s, h).notices == s.notices + ToldOf(h, s.clazz, s.points)
  {
    var target := TypeOf(h.group, h.variation);
    if target.Some? {
      assert |s.points.At(target.value)| <= 0xFFFF;
    }
  }

  lemma ArmedError(s: Handler, h: AnyHeader)
    requires s.points.Sized() && Expecting(s) && NamesPoints(h) && Objection(h).None?
    requires TypeOf(h.group, h.variation).Some?
    ensures Process(s, h).1 == if Reaches(h, s.points) then {} else {ParamError}
  {
    assert |s.points.At(TypeOf(h.group, h.variation).value)| <= 0xFFFF;
  }

  lemma SameTold(h: AnyHeader, clazz: PointClass, p: Points, q: Points)
    requires p.Sized() && q.Sized() && SameSizes(p, q)
    ensures ToldOf(h, clazz, p) == ToldOf(h, clazz, q)
  {
    var target := TypeOf(h.group, h.variation);
    if target.Some? {
      assert |p.At(target.value)| == |q.At(target.value)|;
    }
  }

  /** What holds after `n` headers. */
  ghost predicate Handled(s: Handler, hs: seq<AnyHeader>, n: nat, points: Points)
    requires n <= |hs| && points.Sized()
  {
    && s.points.Sized() && s.seen == n && s.classHeader < n
    && (Expecting(s) <==> Armed(hs, n)) && (Expecting(s) ==> Some(s.clazz) == Selects(hs[n - 1]))
    && SameSizes(points, s.points)
    && (forall t: PointType, i: uint16 | i < |s.points.At(t)| ::
          s.points.At(t)[i] == GivenBy(hs, n, Group(t), i).GetOr(points.At(t)[i]))
    && (forall bit :: bit in s.errors <==> exists i | 0 <= i < n :: ErrorAt(hs, i, points) == Some(bit))
    && s.notices == NoticesBy(hs, n, points)
  }

  lemma HandledPoints(s: Handler, hs: seq<AnyHeader>, n: nat, points: Points)
    requires n < |hs| && points.Sized() && Handled(s, hs, n, points)
    ensures var r := Handle(s, hs[n]);
            && SameSizes(points, r.points)
            && forall t: PointType, i: uint16 | i < |r.points.At(t)| ::
                 r.points.At(t)[i] == GivenBy(hs, n + 1, Group(t), i).GetOr(points.At(t)[i])
  {
    var h, r := hs[n], Handle(s, hs[n]);
    HandleKeepsSizes(s, h);
    forall t ensures |points.At(t)| == |r.points.At(t)| {
      assert |points.At(t)| == |s.points.At(t)|;
    }
    if !Expecting(s) {
      Disarmed(s, h);
    } else {
      ArmedStep(s, h);
    }
    forall t: PointType, i: uint16 | i < |r.points.At(t)|
      ensures r.points.At(t)[i] == GivenBy(hs, n + 1, Group(t), i).GetOr(points.At(t)[i])
    {
      assert s.points.At(t)[i] == GivenBy(hs, n, Group(t), i).GetOr(points.At(t)[i]);
      if Expecting(s) && NamesPoints(h) {
        ObjectStep(s, h, t, i);
      }
    }
  }

  lemma HandledErrors(s: Handler, hs: seq<AnyHeader>, n: nat, points: Points)
    requires n < |hs| && points.Sized() && Handled(s, hs, n, points) && Objection(hs[n]).None?
    ensures forall bit ::
              bit in Handle(s, hs[n]).errors <==> exists i | 0 <= i < n + 1 :: ErrorAt(hs, i, points) == Some(bit)
  {
    var h := hs[n];
    if !Expecting(s) {
      Disarmed(s, h);
    } else {
      ArmedStep(s, h);
      SameReach(h, points, s.points);
      if NamesPoints(h) && TypeOf(h.group, h.variation).Some? {
        ArmedError(s, h);
      }
    }
    var error := Process(s, h).1;
    assert error == match ErrorAt(hs, n, points) case None => {} case Some(bit) => {bit};
    forall bit
      ensures bit in Handle(s, h).errors <==> exists i | 0 <= i < n + 1 :: ErrorAt(hs, i, points) == Some(bit)
    {
      if bit in error {
        assert ErrorAt(hs, n, points) == Some(bit);
      }
      if bit in s.errors {
        var i :| 0 <= i < n && ErrorAt(hs, i, points) == Some(bit);
      }
    }
  }

  lemma HandledNotices(s: Handler, hs: seq<AnyHeader>, n: nat, points: Points)
    requires n < |hs| && points.Sized() && Handled(s, hs, n, points) && Objection(hs[n]).None?
    ensures Handle(s, hs[n]).notices == NoticesBy(hs, n + 1, points)
  {
    if !Expecting(s) {
      Disarmed(s, hs[n]);
    } else {
      ArmedNotice(s, hs[n]);
      SameTold(hs[n], s.clazz, points, s.points);
    }
  }

  /** For every stream the parser can have passed on: every point, every error bit and every notice,
      by the positions of the headers alone. */
  lemma {:induction false} HandlesExactly(hs: seq<AnyHeader>, n: nat, points: Points)
    requires points.Sized() && n <= |hs| && forall h | h in hs :: Objection(h).None?
    ensures Handled(HandleAll(Start(points), hs[..n]), hs, n, points)
  {
    if n > 0 {
      var m := n - 1;
      HandlesExactly(hs, m, points);
      var s := HandleAll(Start(points), hs[..m]);
      assert hs[..n] == hs[..m] + [hs[m]] && hs[m] in hs;
      HandleOneMore(Start(points), hs[..m], hs[m]);
      HandledPoints(s, hs, m, points);
      HandledErrors(s, hs, m, points);
      HandledNotices(s, hs, m, points);
      HandleKeepsSizes(s, hs[m]);
      if !Expecting(s) {
        Disarmed(s, hs[m]);
      } else {
        ArmedStep(s, hs[m]);
      }
    }
  }

  ghost predicate RepliesTo(reply: Reply, hs: seq<AnyHeader>, points: Points)
    requires points.Sized()
  {
    && SameSizes(points, reply.points)
    && (forall t: PointType, i: uint16 | i < |reply.points.At(t)| ::
          reply.points.At(t)[i] == GivenBy(hs, |hs|, Group(t), i).GetOr(points.At(t)[i]))
    && (forall bit :: bit in reply.iin <==> exists i | 0 <= i < |hs| :: ErrorAt(hs, i, points) == Some(bit))
    && reply.notices == NoticesBy(hs, |hs|, points)
  }

  /** The reply to every byte string. What cannot be parsed changes nothing and is answered with one
      bit; everything else is known header by header. */
  lemma EveryReply(objects: seq<byte>, points: Points)
    requires points.Sized()
    ensures var reply, parsed := HandleRequest(objects, true, points), ParseAll(objects);
            && (parsed.Failure? ==>
                  reply == Reply(if parsed.error == UnknownObject then {ObjectUnknown} else {ParamError}, points, []))
            && (parsed.Success? ==> RepliesTo(reply, parsed.value, points))
  {
    if ParseAll(objects).Success? {
      var hs := ParseAll(objects).value;
      ParsedReencodes(objects);
      HandlesExactly(hs, |hs|, points);
      assert hs[..|hs|] == hs;
    }
  }

  /** Each static group, by its number, reaches the array that is named for it, and no other. */
  lemma GroupsReachTheirArrays(points: Points)
    requires points.Sized()
    ensures forall t ::
              TypeOf(Group(t), 0) == Some(t)
    ensures TypeOf(1, 0) == Some(BinaryInput) && points.At(BinaryInput) == points.binary
    ensures TypeOf(3, 0) == Some(DoubleBinaryInput) && points.At(DoubleBinaryInput) == points.doubleBinary
    ensures TypeOf(10, 0) == Some(BinaryOutputStatus) && points.At(BinaryOutputStatus) == points.boStatus
    ensures TypeOf(20, 0) == Some(Counter) && points.At(Counter) == points.counter
    ensures TypeOf(21, 0) == Some(FrozenCounter) && points.At(FrozenCounter) == points.frozenCounter
    ensures TypeOf(30, 0) == Some(AnalogInput) && points.At(AnalogInput) == points.analog
    ensures TypeOf(40, 0) == Some(AnalogOutputStatus) && points.At(AnalogOutputStatus) == points.aoStatus
  {}

  // ---------- exactly the clean requests ----------

  lemma ObjectErrors(s: Handler, h: AnyHeader)
    requires s.points.Sized() && Expecting(s) && NamesPoints(h) && Objection(h).None?
    ensures Process(s, h).1 == {} <==> Reaches(h, s.points)
  {
    var target := TypeOf(h.group, h.variation);
    if target.Some? {
      assert |s.points.At(target.value)| <= 0xFFFF;
    }
  }

  predicate Clean(hs: seq<AnyHeader>, points: Points) {
    Paired(hs) && forall i | 0 <= i < |hs| && i % 2 == 1 :: Reaches(hs[i], points)
  }

  lemma {:induction false} CleanExactly(hs: seq<AnyHeader>, points: Points)
    requires points.Sized() && forall h | h in hs :: Objection(h).None?
    ensures HandleAll(Start(points), hs).errors == {} <==> Clean(hs, points)
  {
    if !Paired(hs) {
      UnpairedIsReported(hs, points);
    } else if hs != [] {
      var n := |hs| - 1;
      var before, h := hs[..n], hs[n];
      assert hs == before + [h] && FitsPair(h, n) && h in hs;
      CleanExactly(before, points);
      PairedAgrees(before, points);
      HandleOneMore(Start(points), before, h);
      var s := HandleAll(Start(points), before);
      if n % 2 == 0 {
        ClassStep(s, h);
      } else {
        ObjectErrors(s, h);
        assert SameSizes(points, s.points);
        SameReach(h, points, s.points);
      }
      assert Clean(hs, points) <==> Clean(before, points) && (n % 2 == 1 ==> Reaches(h, points));
    }
  }

  /** For every byte string: the reply is clean exactly when the bytes are a paired stream that
      names only points that exist, and then the database is what the standard's reading makes of
      it. */
  lemma CleanRequestsAgree(objects: seq<byte>, points: Points)
    requires points.Sized()
    ensures var reply, parsed := HandleRequest(objects, true, points), ParseAll(objects);
            && (reply.iin == {} <==> parsed.Success? && Clean(parsed.value, points))
            && SameSizes(points, reply.points)
            && (reply.iin == {} ==>
                  forall t: PointType, i: uint16 | i < |reply.points.At(t)| ::
                    reply.points.At(t)[i] == Read(parsed.value, Group(t), 0, i).given.GetOr(points.At(t)[i]))
  {
    if ParseAll(objects).Success? {
      var hs := ParseAll(objects).value;
      ParsedReencodes(objects);
      CleanExactly(hs, points);
      SizesStay(Start(points), hs);
      if Paired(hs) {
        PairedAgrees(hs, points);
      }
    }
  }

  lemma {:induction false} SizesStay(s: Handler, hs: seq<AnyHeader>)
    requires s.points.Sized()
    ensures SameSizes(s.points, HandleAll(s, hs).points)
  {
    if hs != [] {
      var n := |hs| - 1;
      SizesStay(s, hs[..n]);
      assert hs == hs[..n] + [hs[n]];
      HandleOneMore(s, hs[..n], hs[n]);
      var t := HandleAll(s, hs[..n]);
      HandleKeepsSizes(t, hs[n]);
      forall u ensures |s.points.At(u)| == |HandleAll(s, hs).points.At(u)| {
        assert |s.points.At(u)| == |t.points.At(u)|;
      }
    }
  }

  /** The handler is stricter than the standard's reading: a second object header under the same
      class header is refused, though the standard would assign it too. */
  lemma SecondObjectHeaderIsRefused(points: Points)
    requires points.Sized() && points.doubleBinary == [Class0] && points.binary == [Class0]
    ensures var hs := [AllObjects(60, 3), AllObjects(1, 0), AllObjects(3, 0)];
            && Read(hs, 3, 0, 0).given == Some(Class2)
            && HandleAll(Start(points), hs).points.doubleBinary == [Class0]
            && HandleAll(Start(points), hs).points.binary == [Class2]
            && HandleAll(Start(points), hs).errors == {ParamError}
  {
    var a, b, c := AllObjects(60, 3), AllObjects(1, 0), AllObjects(3, 0);
    var hs := [a, b, c];
    var f := (r, h: AnyHeader) => ReadHeader(r, h, 3, 0, 0);
    assert hs[1..] == [b, c] && [b, c][1..] == [c] && [c][1..] == [];
    var r1 := f(Reading(None, None), a);
    assert Fold(f, Reading(None, None), hs) == Fold(f, r1, [b, c]);
    assert Fold(f, r1, [b, c]) == Fold(f, f(r1, b), [c]) == Fold(f, f(f(r1, b), c), []);
    assert |points.At(BinaryInput)| == 1;
    var s1 := Handle(Start(points), a);
    var s2 := Handle(s1, b);
    assert s2.points.binary[0] == Class2;
    assert HandleAll(Start(points), hs) == HandleAll(s1, [b, c]) == HandleAll(s2, [c]) == HandleAll(Handle(s2, c), []);
  }
}
