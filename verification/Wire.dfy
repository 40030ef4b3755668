/** Object headers: what they look like on the wire, and how the master writes those of a request
    into a fixed transmit buffer. */
module Wire {
  import opened Sequences

  type byte = b: int | 0 <= b < 0x100
  type uint16 = n: int | 0 <= n < 0x1_0000

  /** The narrowing conversions of C++: keep the low bits. */
  function ToUint8(n: int): byte { n % 0x100 }
  function ToUint16(n: int): uint16 { n % 0x1_0000 }

  /** Any header that can be on the wire. The last three carry objects behind them: so many
      objects with an index each, or one object of its own length. */
  datatype AnyHeader =
    | AllObjects(group: byte, variation: byte)
    | Range8(group: byte, variation: byte, start8: byte, stop8: byte)
    | Range16(group: byte, variation: byte, start16: uint16, stop16: uint16)
    | Count8(group: byte, variation: byte, count8: byte)
    | Count16(group: byte, variation: byte, count16: uint16)
    | Indexed8(group: byte, variation: byte, count8: byte, objects: seq<byte>)
    | Indexed16(group: byte, variation: byte, count16: uint16, objects: seq<byte>)
    | FreeFormat(group: byte, variation: byte, objects: seq<byte>)
  {
    predicate CarriesObjects() { Indexed8? || Indexed16? || FreeFormat? }
  }

  /** The headers that the master's `Header` class can express. */
  type Header = h: AnyHeader | !h.CarriesObjects() witness AllObjects(60, 1)

  const UINT8_START_STOP: byte := 0x00
  const UINT16_START_STOP: byte := 0x01
  const ALL_OBJECTS: byte := 0x06
  const UINT8_CNT: byte := 0x07
  const UINT16_CNT: byte := 0x08
  const UINT8_CNT_UINT8_INDEX: byte := 0x17
  const UINT16_CNT_UINT16_INDEX: byte := 0x28
  const UINT16_FREE_FORMAT: byte := 0x5B

  // ---------- the wire form ----------

  /** Little-endian, as `Bit16LE` lays it out. */
  function LittleEndian(n: uint16): seq<byte> { [n % 0x100, n / 0x100] }

  function Encode(h: AnyHeader): seq<byte> {
    match h
    case AllObjects(g, v) => [g, v, ALL_OBJECTS]
    case Range8(g, v, start, stop) => [g, v, UINT8_START_STOP, start, stop]
    case Range16(g, v, start, stop) => [g, v, UINT16_START_STOP] + LittleEndian(start) + LittleEndian(stop)
    case Count8(g, v, count) => [g, v, UINT8_CNT, count]
    case Count16(g, v, count) => [g, v, UINT16_CNT] + LittleEndian(count)
    case Indexed8(g, v, count, objects) => [g, v, UINT8_CNT_UINT8_INDEX, count] + objects
    case Indexed16(g, v, count, objects) => [g, v, UINT16_CNT_UINT16_INDEX] + LittleEndian(count) + objects
    case FreeFormat(g, v, objects) =>
      [g, v, UINT16_FREE_FORMAT, 1] + LittleEndian(ToUint16(|objects|)) + objects
  }

  function EncodeAll(hs: seq<AnyHeader>): seq<byte> { ConcatMap(Encode, hs) }

  // ---------- writing ----------

  /** The headers that end up in a buffer of `room` bytes when every header is tried and those
      that do not fit are skipped. */
  function Fitting<S, T>(f: S -> seq<T>, xs: seq<S>, room: nat): (kept: seq<S>)
    ensures |kept| <= |xs| && |ConcatMap(f, kept)| <= room
  {
    if xs == [] then []
    else
      var kept, last := Fitting(f, xs[..|xs| - 1], room), xs[|xs| - 1];
      ConcatMapOne(f, kept, last);
      if |ConcatMap(f, kept)| + |f(last)| <= room then kept + [last] else kept
  }

  lemma FittingTake<S, T>(f: S -> seq<T>, xs: seq<S>, k: nat, room: nat)
    requires k < |xs|
    ensures var kept := Fitting(f, xs[..k], room);
            && ConcatMap(f, kept + [xs[k]]) == ConcatMap(f, kept) + f(xs[k])
            && Fitting(f, xs[..k + 1], room)
               == if |ConcatMap(f, kept)| + |f(xs[k])| <= room then kept + [xs[k]] else kept
  {
    var pre := xs[..k + 1];
    assert pre[..|pre| - 1] == xs[..k] && pre[|pre| - 1] == xs[k];
    ConcatMapOne(f, Fitting(f, xs[..k], room), xs[k]);
  }

  /** Trying everything loses nothing exactly when the whole stream fits. */
  lemma {:induction false} FittingIsEverything<S, T>(f: S -> seq<T>, xs: seq<S>, room: nat)
    ensures |Fitting(f, xs, room)| == |xs| ==> Fitting(f, xs, room) == xs
    ensures |Fitting(f, xs, room)| == |xs| <==> |ConcatMap(f, xs)| <= room
  {
    if xs != [] {
      var n := |xs| - 1;
      FittingIsEverything(f, xs[..n], room);
      ConcatMapOne(f, xs[..n], xs[n]);
      assert xs == xs[..n] + [xs[n]];
    }
  }

  /** The headers of a request that end up in a buffer of `room` bytes. */
  function Kept(hs: seq<AnyHeader>, room: nat): seq<AnyHeader> { Fitting(Encode, hs, room) }

  lemma FittingWritten(base: seq<byte>, hs: seq<AnyHeader>, k: nat, room: nat)
    requires k < |hs|
    ensures var kept, next := Kept(hs[..k], room), Kept(hs[..k + 1], room);
            if |EncodeAll(kept)| + |Encode(hs[k])| <= room
            then |next| == |kept| + 1 && base + EncodeAll(kept) + Encode(hs[k]) == base + EncodeAll(next)
            else next == kept
  {
    FittingTake<AnyHeader, byte>(Encode, hs, k, room);
    ConcatAssociates(base, EncodeAll(Kept(hs[..k], room)), Encode(hs[k]));
  }

  /** Writes application objects into a buffer, refusing what would not fit. */
  class HeaderWriter {
    const buffer: array<byte>
    var position: nat

    ghost predicate Valid() reads this { position <= buffer.Length }

    function Remaining(): nat
      requires Valid()
      reads this
    {
      buffer.Length - position
    }

    ghost function Written(): seq<byte>
      requires Valid()
      reads this, buffer
    {
      buffer[..position]
    }

    constructor (size: nat)
      ensures Valid() && fresh(buffer) && buffer.Length == size && Written() == []
    {
      buffer := new byte[size](_ => 0);
      position := 0;
    }

    method Put(bytes: seq<byte>)
      requires Valid() && |bytes| <= Remaining()
      modifies this, buffer
      ensures Valid() && Written() == old(Written()) + bytes
    {
      var i := 0;
      while i < |bytes|
        invariant i <= |bytes| && position == old(position)
        invariant buffer[..position + i] == old(buffer[..position]) + bytes[..i]
      {
        buffer[position + i] := bytes[i];
        i := i + 1;
      }
      position := position + |bytes|;
    }

    method WriteHeader(group: byte, variation: byte, qualifier: byte) returns (ok: bool)
      requires Valid()
      modifies this, buffer
      ensures Valid() && ok == (3 <= old(Remaining()))
      ensures Written() == old(Written()) + if ok then [group, variation, qualifier] else []
    {
      if Remaining() < 3 {
        return false;
      }
      Put([group, variation, qualifier]);
      return true;
    }

    method WriteHeaderWithReserve(group: byte, variation: byte, qualifier: byte, reserve: nat) returns (ok: bool)
      requires Valid()
      modifies this, buffer
      ensures Valid() && ok == (3 + reserve <= old(Remaining()))
      ensures Written() == old(Written()) + if ok then [group, variation, qualifier] else []
    {
      if Remaining() < 3 + reserve {
        return false;
      }
      ok := WriteHeader(group, variation, qualifier);
    }

    /** `start` and `stop` are given in the encoding of the index type. */
    method WriteRangeHeader(group: byte, variation: byte, qualifier: byte, start: seq<byte>, stop: seq<byte>)
      returns (ok: bool)
      requires Valid() && |start| == |stop|
      modifies this, buffer
      ensures Valid() && ok == (3 + |start| + |stop| <= old(Remaining()))
      ensures Written() == old(Written()) + if ok then [group, variation, qualifier] + start + stop else []
    {
      ok := WriteHeaderWithReserve(group, variation, qualifier, 2 * |start|);
      if ok {
        Put(start);
        Put(stop);
      }
    }

    method WriteCountHeader(group: byte, variation: byte, qualifier: byte, count: seq<byte>) returns (ok: bool)
      requires Valid()
      modifies this, buffer
      ensures Valid() && ok == (3 + |count| <= old(Remaining()))
      ensures Written() == old(Written()) + if ok then [group, variation, qualifier] + count else []
    {
      ok := WriteHeaderWithReserve(group, variation, qualifier, |count|);
      if ok {
        Put(count);
      }
    }

    /** Writes the whole header or nothing. */
    method WriteTo(h: Header) returns (ok: bool)
      requires Valid()
      modifies this, buffer
      ensures Valid() && ok == (|Encode(h)| <= old(Remaining()))
      ensures Written() == old(Written()) + if ok then Encode(h) else []
    {
      match h
      case AllObjects(g, v) =>
        ok := WriteHeader(g, v, ALL_OBJECTS);
      case Range8(g, v, start, stop) =>
        assert Encode(h) == [g, v, UINT8_START_STOP] + [start] + [stop];
        ok := WriteRangeHeader(g, v, UINT8_START_STOP, [start], [stop]);
      case Range16(g, v, start, stop) =>
        ok := WriteRangeHeader(g, v, UINT16_START_STOP, LittleEndian(start), LittleEndian(stop));
      case Count8(g, v, count) =>
        assert Encode(h) == [g, v, UINT8_CNT] + [count];
        ok := WriteCountHeader(g, v, UINT8_CNT, [count]);
      case Count16(g, v, count) =>
        ok := WriteCountHeader(g, v, UINT16_CNT, LittleEndian(count));
    }

    /** A scan request: stop at the first header that does not fit. */
    method WriteUntilFull(hs: seq<Header>) returns (ok: bool)
      requires Valid()
      modifies this, buffer
      ensures Valid() && (ok <==> |EncodeAll(hs)| <= old(Remaining()))
      ensures exists k | 0 <= k <= |hs| ::
                && Written() == old(Written()) + EncodeAll(hs[..k])
                && (ok <==> k == |hs|)
    {
      var i := 0;
      while i < |hs|
        invariant i <= |hs| && Valid() && Written() == old(Written()) + EncodeAll(hs[..i])
      {
        ConcatMapTake<AnyHeader, byte>(Encode, hs, i);
        ok := WriteTo(hs[i]);
        if !ok {
          return false;
        }
        ConcatAssociates(old(Written()), EncodeAll(hs[..i]), Encode(hs[i]));
        i := i + 1;
      }
      assert hs[..i] == hs;
      return true;
    }

    /** An assign-class request: every header is tried and the outcomes are conjoined, so a
        short header may still be written after a long one failed. */
    method WriteEach(hs: seq<Header>) returns (ok: bool)
      requires Valid()
      modifies this, buffer
      ensures Valid() && (ok <==> |EncodeAll(hs)| <= old(Remaining()))
      ensures Written() == old(Written()) + EncodeAll(Kept(hs, old(Remaining())))
    {
      var i := 0;
      ok := true;
      ghost var room := Remaining();
      while i < |hs|
        invariant i <= |hs| && Valid()
        invariant Written() == old(Written()) + EncodeAll(Kept(hs[..i], room))
        invariant ok <==> |Kept(hs[..i], room)| == i
      {
        FittingWritten(old(Written()), hs, i, room);
        var written := WriteTo(hs[i]);
        ok := ok && written;
        i := i + 1;
      }
      assert hs[..i] == hs;
      FittingIsEverything<AnyHeader, byte>(Encode, hs, room);
    }
  }
}
