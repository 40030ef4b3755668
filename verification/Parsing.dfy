/** The application parser: reading a stream of object headers back, for functions whose headers
    are expected without contents (the `NoContents` setting, which READ and ASSIGN_CLASS use). That
    setting spares count and range headers their objects; index-prefixed and free-format headers
    are read with theirs all the same. */
module Parsing {
  import opened Results
  import opened Sequences
  import opened Wire

  datatype ParseError =
    | NotEnoughDataForHeader
    | NotEnoughDataForRange
    | NotEnoughDataForObjects
    | UnreasonableObjectCount
    | UnknownObject
    | UnknownQualifier
    | InvalidObjectQualifier
    | InvalidObject
    | BadStartStop
    | CountOfZero

  datatype Parsed = Parsed(header: AnyHeader, length: nat)

  /** The group and variation pairs the parser recognises; groups 110 to 113 accept any variation. */
  predicate KnownObject(group: byte, variation: byte) {
    match group
    case 1 => variation <= 2
    case 2 => variation <= 3
    case 3 => variation <= 2
    case 4 => variation <= 3
    case 10 => variation <= 2
    case 11 => variation <= 2
    case 12 => variation <= 1
    case 13 => 1 <= variation <= 2
    case 20 => variation in {0, 1, 2, 5, 6}
    case 21 => variation in {0, 1, 2, 5, 6, 9, 10}
    case 22 => variation in {0, 1, 2, 5, 6}
    case 23 => variation in {0, 1, 2, 5, 6}
    case 30 => variation <= 6
    case 32 => variation <= 8
    case 40 => variation <= 4
    case 41 => variation <= 4
    case 42 => variation <= 8
    case 43 => 1 <= variation <= 8
    case 50 => variation in {1, 3, 4}
    case 51 => 1 <= variation <= 2
    case 52 => 1 <= variation <= 2
    case 60 => 1 <= variation <= 4
    case 70 => 1 <= variation <= 8
    case 80 => variation == 1
    case 120 => 1 <= variation <= 15
    case 121 => variation <= 1
    case 122 => variation <= 2
    case _ => 110 <= group <= 113
  }

  function ReadUint16(b: seq<byte>, at: nat): uint16
    requires at + 2 <= |b|
  {
    var lo: int, hi: int := b[at], b[at + 1];
    lo + 0x100 * hi
  }

  /** The size of one index-prefixed object, without its index, where the parser takes any. The
      size of an octet string is its variation. */
  function ObjectSize(group: byte, variation: byte): Option<byte> {
    match (group, variation)
    case (2, 1) => Some(1)
    case (2, 2) => Some(7)
    case (2, 3) => Some(3)
    case (4, 1) => Some(1)
    case (4, 2) => Some(7)
    case (4, 3) => Some(3)
    case (11, 1) => Some(1)
    case (11, 2) => Some(7)
    case (12, 1) => Some(11)
    case (13, 1) => Some(1)
    case (13, 2) => Some(7)
    case (41, 1) => Some(5)
    case (41, 2) => Some(3)
    case (41, 3) => Some(5)
    case (41, 4) => Some(9)
    case (50, 4) => Some(11)
    case (122, 1) => Some(7)
    case (122, 2) => Some(13)
    case _ =>
      if group == 22 || group == 23 then CounterEventSize(variation)
      else if group == 32 || group == 42 || group == 43 then AnalogEventSize(variation)
      else if group == 111 && variation > 0 then Some(variation)
      else None
  }

  function CounterEventSize(variation: byte): Option<byte> {
    match variation
    case 1 => Some(5)
    case 2 => Some(3)
    case 5 => Some(11)
    case 6 => Some(9)
    case _ => None
  }

  function AnalogEventSize(variation: byte): Option<byte> {
    match variation
    case 1 => Some(5)
    case 2 => Some(3)
    case 3 => Some(11)
    case 4 => Some(9)
    case 5 => Some(5)
    case 6 => Some(9)
    case 7 => Some(11)
    case 8 => Some(15)
    case _ => None
  }

  /** A free-format object: a fixed part, the 16-bit lengths of `fields` fields and then the fields
      themselves, and, if there is a remainder field, whatever is left. */
  datatype Layout = Layout(fixed: nat, fields: nat, remainder: bool) {
    predicate Matches(o: seq<byte>) {
      && fixed + 2 * fields <= |o|
      && var length := fixed + 2 * fields + Lengths(o, fixed, fields);
         if remainder then length <= |o| else length == |o|
    }
  }

  /** The sum of `n` lengths, the first of them at `at`. */
  function Lengths(o: seq<byte>, at: nat, n: nat): nat
    requires at + 2 * n <= |o|
  {
    if n == 0 then 0 else Lengths(o, at, n - 1) + ReadUint16(o, at + 2 * (n - 1))
  }

  /** The authentication objects, group 120. */
  function FreeFormatLayout(group: byte, variation: byte): Option<Layout> {
    if group != 120 then None
    else match variation
      case 1 => Some(Layout(8, 0, true))
      case 2 => Some(Layout(6, 0, true))
      case 5 => Some(Layout(9, 1, true))
      case 6 => Some(Layout(6, 0, true))
      case 7 => Some(Layout(15, 0, true))
      case 8 => Some(Layout(2, 0, true))
      case 9 => Some(Layout(0, 0, true))
      case 10 => Some(Layout(10, 3, false))
      case 11 => Some(Layout(1, 2, false))
      case 12 => Some(Layout(6, 1, false))
      case 13 => Some(Layout(6, 1, false))
      case 14 => Some(Layout(0, 0, true))
      case 15 => Some(Layout(0, 0, true))
      case _ => None
  }

  function CheckRange(h: AnyHeader, start: uint16, stop: uint16, length: nat): Result<Parsed, ParseError> {
    if start <= stop then Success(Parsed(h, length)) else Failure(BadStartStop)
  }

  function CheckCount(h: AnyHeader, count: uint16, length: nat): Result<Parsed, ParseError> {
    if count == 0 then Failure(CountOfZero) else Success(Parsed(h, length))
  }

  /** The bytes of `count` objects with an index of `width` bytes each. */
  function ObjectBytes(count: uint16, width: nat, size: byte): nat { count * (width + size) }

  /** The objects behind an index-prefixed header. */
  function ReadObjects(group: byte, variation: byte, count: uint16, width: nat, b: seq<byte>, at: nat)
    : (r: Result<seq<byte>, ParseError>)
    requires at <= |b|
    ensures r.Success? ==> at + |r.value| <= |b| && r.value == b[at..at + |r.value|]
  {
    if count == 0 then Failure(CountOfZero)
    else match ObjectSize(group, variation)
      case None => Failure(if group == 111 then InvalidObject else InvalidObjectQualifier)
      case Some(size) =>
        var length := ObjectBytes(count, width, size);
        if |b| < at + length then Failure(NotEnoughDataForObjects) else Success(b[at..at + length])
  }

  function ParseIndexed8(b: seq<byte>): (r: Result<Parsed, ParseError>)
    requires |b| >= 3
    ensures r.Success? ==> 0 < r.value.length <= |b|
  {
    if |b| < 4 then Failure(NotEnoughDataForRange)
    else match ReadObjects(b[0], b[1], b[3], 1, b, 4)
      case Failure(e) => Failure(e)
      case Success(objects) => Success(Parsed(Indexed8(b[0], b[1], b[3], objects), 4 + |objects|))
  }

  function ParseIndexed16(b: seq<byte>): (r: Result<Parsed, ParseError>)
    requires |b| >= 3
    ensures r.Success? ==> 0 < r.value.length <= |b|
  {
    if |b| < 5 then Failure(NotEnoughDataForRange)
    else
      var count := ReadUint16(b, 3);
      match ReadObjects(b[0], b[1], count, 2, b, 5)
      case Failure(e) => Failure(e)
      case Success(objects) => Success(Parsed(Indexed16(b[0], b[1], count, objects), 5 + |objects|))
  }

  function ParseFreeFormat(b: seq<byte>): (r: Result<Parsed, ParseError>)
    requires |b| >= 3
    ensures r.Success? ==> 0 < r.value.length <= |b|
  {
    if |b| < 6 then Failure(NotEnoughDataForHeader)
    else if b[3] != 1 then Failure(UnreasonableObjectCount)
    else
      var size := ReadUint16(b, 4);
      if |b| < 6 + size then Failure(NotEnoughDataForObjects)
      else
        var body := b[6..6 + size];
        match FreeFormatLayout(b[0], b[1])
        case None => Failure(InvalidObjectQualifier)
        case Some(layout) =>
          if layout.Matches(body) then Success(Parsed(FreeFormat(b[0], b[1], body), 6 + size))
          else Failure(NotEnoughDataForObjects)
  }

  function ParseHeader(b: seq<byte>): (r: Result<Parsed, ParseError>)
    ensures r.Success? ==> 0 < r.value.length <= |b|
  {
    if |b| < 3 then Failure(NotEnoughDataForHeader)
    else if !KnownObject(b[0], b[1]) then Failure(UnknownObject)
    else if b[2] == ALL_OBJECTS then Success(Parsed(AllObjects(b[0], b[1]), 3))
    else if b[2] == UINT8_CNT then
      if |b| < 4 then Failure(NotEnoughDataForRange)
      else CheckCount(Count8(b[0], b[1], b[3]), b[3], 4)
    else if b[2] == UINT16_CNT then
      if |b| < 5 then Failure(NotEnoughDataForRange)
      else var n := ReadUint16(b, 3); CheckCount(Count16(b[0], b[1], n), n, 5)
    else if b[2] == UINT8_START_STOP then
      if |b| < 5 then Failure(NotEnoughDataForRange)
      else CheckRange(Range8(b[0], b[1], b[3], b[4]), b[3], b[4], 5)
    else if b[2] == UINT16_START_STOP then
      if |b| < 7 then Failure(NotEnoughDataForRange)
      else var lo, hi := ReadUint16(b, 3), ReadUint16(b, 5); CheckRange(Range16(b[0], b[1], lo, hi), lo, hi, 7)
    else if b[2] == UINT8_CNT_UINT8_INDEX then ParseIndexed8(b)
    else if b[2] == UINT16_CNT_UINT16_INDEX then ParseIndexed16(b)
    else if b[2] == UINT16_FREE_FORMAT then ParseFreeFormat(b)
    else Failure(UnknownQualifier)
  }

  function ParseAll(b: seq<byte>): Result<seq<AnyHeader>, ParseError> {
    if b == [] then Success([])
    else match ParseHeader(b)
      case Failure(e) => Failure(e)
      case Success(p) =>
        match ParseAll(b[p.length..])
        case Failure(e) => Failure(e)
        case Success(hs) => Success([p.header] + hs)
  }

  // ---------- what the parser accepts ----------

  /** A header whose objects, if it has any, are as long as the header says. */
  predicate WellFormed(h: AnyHeader) {
    match h
    case Indexed8(g, v, count, objects) =>
      ObjectSize(g, v).Some? ==> |objects| == ObjectBytes(count, 1, ObjectSize(g, v).value)
    case Indexed16(g, v, count, objects) =>
      ObjectSize(g, v).Some? ==> |objects| == ObjectBytes(count, 2, ObjectSize(g, v).value)
    case FreeFormat(_, _, body) => |body| <= 0xFFFF
    case _ => true
  }

  function CountObjection(group: byte, variation: byte, count: uint16): Option<ParseError> {
    if count == 0 then Some(CountOfZero)
    else if ObjectSize(group, variation).Some? then None
    else if group == 111 then Some(InvalidObject)
    else Some(InvalidObjectQualifier)
  }

  /** Why the parser turns a well-formed header down, judged from the header alone. */
  function Objection(h: AnyHeader): Option<ParseError> {
    if !KnownObject(h.group, h.variation) then Some(UnknownObject)
    else match h
      case AllObjects(_, _) => None
      case Range8(_, _, start, stop) => if start <= stop then None else Some(BadStartStop)
      case Range16(_, _, start, stop) => if start <= stop then None else Some(BadStartStop)
      case Count8(_, _, count) => if count == 0 then Some(CountOfZero) else None
      case Count16(_, _, count) => if count == 0 then Some(CountOfZero) else None
      case Indexed8(g, v, count, _) => CountObjection(g, v, count)
      case Indexed16(g, v, count, _) => CountObjection(g, v, count)
      case FreeFormat(g, v, body) =>
        match FreeFormatLayout(g, v)
        case None => Some(InvalidObjectQualifier)
        case Some(layout) => if layout.Matches(body) then None else Some(NotEnoughDataForObjects)
  }

  /** Headers that are well formed and that the parser has no objection to. */
  predicate Acceptable(h: AnyHeader) { WellFormed(h) && Objection(h).None? }

  /** The first objection in a stream. */
  function FirstObjection(hs: seq<AnyHeader>): (r: Option<ParseError>)
    ensures r.None? <==> forall h | h in hs :: Objection(h).None?
  {
    if hs == [] then None
    else if Objection(hs[0]).Some? then Objection(hs[0])
    else FirstObjection(hs[1..])
  }

  function Verdict(h: AnyHeader): Result<Parsed, ParseError> {
    match Objection(h) case None => Success(Parsed(h, |Encode(h)|)) case Some(e) => Failure(e)
  }

  lemma EncodedIndexed8Parses(g: byte, v: byte, count: byte, objects: seq<byte>, rest: seq<byte>)
    requires WellFormed(Indexed8(g, v, count, objects)) && KnownObject(g, v)
    ensures var h := Indexed8(g, v, count, objects); ParseHeader(Encode(h) + rest) == Verdict(h)
  {
    var b := Encode(Indexed8(g, v, count, objects)) + rest;
    assert b[0] == g && b[1] == v && b[2] == UINT8_CNT_UINT8_INDEX && b[3] == count;
    assert b[4..4 + |objects|] == objects;
  }

  lemma EncodedIndexed16Parses(g: byte, v: byte, count: uint16, objects: seq<byte>, rest: seq<byte>)
    requires WellFormed(Indexed16(g, v, count, objects)) && KnownObject(g, v)
    ensures var h := Indexed16(g, v, count, objects); ParseHeader(Encode(h) + rest) == Verdict(h)
  {
    var b := Encode(Indexed16(g, v, count, objects)) + rest;
    assert b[0] == g && b[1] == v && b[2] == UINT16_CNT_UINT16_INDEX;
    assert b[3] == count % 0x100 && b[4] == count / 0x100 && ReadUint16(b, 3) == count;
    assert b[5..5 + |objects|] == objects;
  }

  lemma EncodedFreeFormatParses(g: byte, v: byte, body: seq<byte>, rest: seq<byte>)
    requires WellFormed(FreeFormat(g, v, body)) && KnownObject(g, v)
    ensures var h := FreeFormat(g, v, body); ParseHeader(Encode(h) + rest) == Verdict(h)
  {
    var size: uint16 := |body|;
    var b := Encode(FreeFormat(g, v, body)) + rest;
    assert b[0] == g && b[1] == v && b[2] == UINT16_FREE_FORMAT && b[3] == 1;
    assert b[4] == size % 0x100 && b[5] == size / 0x100 && ReadUint16(b, 4) == size;
    assert b[6..6 + size] == body;
  }

  lemma EncodedPlainParses(h: Header, rest: seq<byte>)
    ensures ParseHeader(Encode(h) + rest) == Verdict(h)
  {
    var b := Encode(h) + rest;
    assert b[0] == h.group && b[1] == h.variation;
    match h
    case AllObjects(g, v) =>
    case Range8(g, v, start, stop) =>
      assert b[3] == start && b[4] == stop;
    case Range16(g, v, start, stop) =>
      assert b[3] == start % 0x100 && b[4] == start / 0x100 && b[5] == stop % 0x100 && b[6] == stop / 0x100;
      assert ReadUint16(b, 3) == start && ReadUint16(b, 5) == stop;
    case Count8(g, v, count) =>
      assert b[3] == count;
    case Count16(g, v, count) =>
      assert b[3] == count % 0x100 && b[4] == count / 0x100;
      assert ReadUint16(b, 3) == count;
  }

  lemma EncodedHeaderParses(h: AnyHeader, rest: seq<byte>)
    requires WellFormed(h)
    ensures ParseHeader(Encode(h) + rest) == Verdict(h)
  {
    if !h.CarriesObjects() {
      EncodedPlainParses(h, rest);
    } else if !KnownObject(h.group, h.variation) {
      var b := Encode(h) + rest;
      assert b[0] == h.group && b[1] == h.variation;
    } else if h.Indexed8? {
      EncodedIndexed8Parses(h.group, h.variation, h.count8, h.objects, rest);
    } else if h.Indexed16? {
      EncodedIndexed16Parses(h.group, h.variation, h.count16, h.objects, rest);
    } else {
      EncodedFreeFormatParses(h.group, h.variation, h.objects, rest);
    }
  }

  /** Every stream of headers survives the wire, or is refused for its first bad header. */
  lemma {:induction false} RoundTrip(hs: seq<AnyHeader>)
    requires forall h | h in hs :: WellFormed(h)
    ensures ParseAll(EncodeAll(hs))
         == match FirstObjection(hs) case None => Success(hs) case Some(e) => Failure(e)
  {
    if hs != [] {
      var h, rest := hs[0], EncodeAll(hs[1..]);
      EncodedHeaderParses(h, rest);
      RoundTrip(hs[1..]);
      assert (Encode(h) + rest)[|Encode(h)|..] == rest;
      assert hs == [h] + hs[1..];
    }
  }

  /** In particular every request that the master can write. */
  lemma RequestRoundTrip(hs: seq<Header>)
    ensures ParseAll(EncodeAll(hs))
         == match FirstObjection(hs) case None => Success(hs) case Some(e) => Failure(e)
  {
    forall h | h in hs ensures WellFormed(h) {
      var i :| 0 <= i < |hs| && hs[i] == h;
      assert !hs[i].CarriesObjects();
    }
    RoundTrip(hs);
  }

  lemma LittleEndianReads(b: seq<byte>, at: nat)
    requires at + 2 <= |b|
    ensures LittleEndian(ReadUint16(b, at)) == b[at..at + 2]
  {}

  lemma Prefix(b: seq<byte>, i: nat, j: nat)
    requires i <= j <= |b|
    ensures b[..i] + b[i..j] == b[..j]
  {}

  /** What the parser took from the front of the bytes is acceptable, and encodes to them. */
  predicate Reencodes(b: seq<byte>, p: Parsed) {
    p.length <= |b| && Acceptable(p.header) && Encode(p.header) == b[..p.length]
  }

  lemma ParsedIndexed8Reencodes(b: seq<byte>)
    requires |b| >= 3 && KnownObject(b[0], b[1]) && b[2] == UINT8_CNT_UINT8_INDEX
    ensures ParseIndexed8(b).Success? ==> Reencodes(b, ParseIndexed8(b).value)
  {
    if ParseIndexed8(b).Success? {
      Prefix(b, 4, ParseIndexed8(b).value.length);
    }
  }

  lemma ParsedIndexed16Reencodes(b: seq<byte>)
    requires |b| >= 3 && KnownObject(b[0], b[1]) && b[2] == UINT16_CNT_UINT16_INDEX
    ensures ParseIndexed16(b).Success? ==> Reencodes(b, ParseIndexed16(b).value)
  {
    if ParseIndexed16(b).Success? {
      LittleEndianReads(b, 3);
      Prefix(b, 3, 5);
      Prefix(b, 5, ParseIndexed16(b).value.length);
    }
  }

  lemma ParsedFreeFormatReencodes(b: seq<byte>)
    requires |b| >= 3 && KnownObject(b[0], b[1]) && b[2] == UINT16_FREE_FORMAT
    ensures ParseFreeFormat(b).Success? ==> Reencodes(b, ParseFreeFormat(b).value)
  {
    if ParseFreeFormat(b).Success? {
      LittleEndianReads(b, 4);
      Prefix(b, 4, 6);
      Prefix(b, 6, ParseFreeFormat(b).value.length);
    }
  }

  lemma ParsedHeaderReencodes(b: seq<byte>)
    requires ParseHeader(b).Success?
    ensures Reencodes(b, ParseHeader(b).value)
  {
    if b[2] == UINT8_CNT_UINT8_INDEX {
      ParsedIndexed8Reencodes(b);
    } else if b[2] == UINT16_CNT_UINT16_INDEX {
      ParsedIndexed16Reencodes(b);
    } else if b[2] == UINT16_FREE_FORMAT {
      ParsedFreeFormatReencodes(b);
    } else if b[2] == UINT16_START_STOP {
      LittleEndianReads(b, 3);
      LittleEndianReads(b, 5);
      Prefix(b, 3, 5);
      Prefix(b, 5, 7);
    } else if b[2] == UINT16_CNT {
      LittleEndianReads(b, 3);
      Prefix(b, 3, 5);
    }
  }

  lemma Reassemble(b: seq<byte>, p: Parsed, hs: seq<AnyHeader>)
    requires p.length <= |b| && Encode(p.header) == b[..p.length] && EncodeAll(hs) == b[p.length..]
    ensures EncodeAll([p.header] + hs) == b
  {
    ConcatMapCons(Encode, p.header, hs);
    assert b == b[..p.length] + b[p.length..];
  }

  lemma {:induction false} ParsedReencodes(b: seq<byte>)
    requires ParseAll(b).Success?
    ensures EncodeAll(ParseAll(b).value) == b
    ensures forall h | h in ParseAll(b).value :: Acceptable(h)
  {
    if b != [] {
      var p := ParseHeader(b).value;
      ParsedHeaderReencodes(b);
      ParsedReencodes(b[p.length..]);
      Reassemble(b, p, ParseAll(b[p.length..]).value);
    }
  }

  /** The parser accepts exactly the encodings of streams of acceptable headers. */
  lemma AcceptsExactly(b: seq<byte>)
    ensures ParseAll(b).Success?
       <==> exists hs: seq<AnyHeader> | (forall h | h in hs :: Acceptable(h)) :: EncodeAll(hs) == b
  {
    if ParseAll(b).Success? {
      ParsedReencodes(b);
    }
    if hs: seq<AnyHeader> :| (forall h | h in hs :: Acceptable(h)) && EncodeAll(hs) == b {
      RoundTrip(hs);
    }
  }

  /** And it fails exactly where acceptable headers are followed by something it refuses. */
  lemma FailsExactly(b: seq<byte>, e: ParseError)
    ensures ParseAll(b) == Failure(e) <==> exists hs: seq<AnyHeader>, rest: seq<byte> :: BreaksOff(b, hs, rest, e)
  {
    if ParseAll(b) == Failure(e) {
      var hs, rest := FailureSplit(b, e);
    }
    if hs, rest :| BreaksOff(b, hs, rest, e) {
      BreakFails(hs, rest, e);
    }
  }

  ghost predicate BreaksOff(b: seq<byte>, hs: seq<AnyHeader>, rest: seq<byte>, e: ParseError) {
    && (forall h | h in hs :: Acceptable(h))
    && b == EncodeAll(hs) + rest && rest != [] && ParseHeader(rest) == Failure(e)
  }

  lemma BreaksOffLater(b: seq<byte>, p: Parsed, tail: seq<AnyHeader>, rest: seq<byte>, e: ParseError)
    requires Reencodes(b, p) && BreaksOff(b[p.length..], tail, rest, e)
    ensures BreaksOff(b, [p.header] + tail, rest, e)
  {
    ConcatMapCons(Encode, p.header, tail);
    ConcatAssociates(Encode(p.header), EncodeAll(tail), rest);
    assert b == b[..p.length] + b[p.length..];
  }

  lemma {:induction false} FailureSplit(b: seq<byte>, e: ParseError) returns (hs: seq<AnyHeader>, rest: seq<byte>)
    requires ParseAll(b) == Failure(e)
    ensures BreaksOff(b, hs, rest, e)
  {
    if ParseHeader(b).Failure? {
      hs, rest := [], b;
      assert EncodeAll([]) + b == b;
    } else {
      var p := ParseHeader(b).value;
      ParsedHeaderReencodes(b);
      var tail;
      tail, rest := FailureSplit(b[p.length..], e);
      hs := [p.header] + tail;
      BreaksOffLater(b, p, tail, rest, e);
    }
  }

  lemma {:induction false} BreakFails(hs: seq<AnyHeader>, rest: seq<byte>, e: ParseError)
    requires (forall h | h in hs :: Acceptable(h)) && rest != [] && ParseHeader(rest) == Failure(e)
    ensures ParseAll(EncodeAll(hs) + rest) == Failure(e)
  {
    if hs == [] {
      assert EncodeAll(hs) + rest == rest;
    } else {
      var h, tail := hs[0], EncodeAll(hs[1..]) + rest;
      assert h in hs && Acceptable(h);
      BreakFails(hs[1..], rest, e);
      EncodedHeaderParses(h, tail);
      ConcatAssociates(Encode(h), EncodeAll(hs[1..]), rest);
      assert (Encode(h) + tail)[|Encode(h)|..] == tail;
    }
  }
}
