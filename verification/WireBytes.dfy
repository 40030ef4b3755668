/** The wire form in plain bytes: which bytes every header is, which objects the parser knows and
    how long they are, said with the numbers of IEEE Std 1815-2012 and of the generated tables, and
    without the names the writer and the parser share. */
module WireBytes {
  import opened Results
  import opened Wire
  import opened Parsing

  // ---------- headers ----------

  /** The bytes of every header, numbers low byte first. */
  lemma HeaderBytes(g: byte, v: byte, m: byte, n: byte, s: uint16, t: uint16, objects: seq<byte>)
    ensures Encode(AllObjects(g, v)) == [g, v, 0x06]
    ensures Encode(Range8(g, v, m, n)) == [g, v, 0x00, m, n]
    ensures Encode(Range16(g, v, s, t)) == [g, v, 0x01, s % 256, s / 256, t % 256, t / 256]
    ensures Encode(Count8(g, v, m)) == [g, v, 0x07, m]
    ensures Encode(Count16(g, v, s)) == [g, v, 0x08, s % 256, s / 256]
    ensures Encode(Indexed8(g, v, m, objects)) == [g, v, 0x17, m] + objects
    ensures Encode(Indexed16(g, v, s, objects)) == [g, v, 0x28, s % 256, s / 256] + objects
    ensures |objects| <= 0xFFFF ==>
              Encode(FreeFormat(g, v, objects)) == [g, v, 0x5B, 1, |objects| % 256, |objects| / 256] + objects
  {}

  // ---------- known objects ----------

  /** The codes of `GroupVariationFromType`, the group in the high byte. */
  predicate IsCode(code: int) { IsLowCode(code) || IsHighCode(code) }

  predicate IsLowCode(code: int) {
    code in {
      0x100, 0x101, 0x102, 0x200, 0x201, 0x202, 0x203, 0x300, 0x301, 0x302, 0x400, 0x401, 0x402, 0x403,
      0xA00, 0xA01, 0xA02, 0xB00, 0xB01, 0xB02, 0xC00, 0xC01, 0xD01, 0xD02, 0x1400, 0x1401, 0x1402, 0x1405,
      0x1406, 0x1500, 0x1501, 0x1502, 0x1505, 0x1506, 0x1509, 0x150A, 0x1600, 0x1601, 0x1602, 0x1605,
      0x1606, 0x1700, 0x1701, 0x1702, 0x1705, 0x1706, 0x1E00, 0x1E01, 0x1E02, 0x1E03, 0x1E04, 0x1E05,
      0x1E06
    }
  }

  predicate IsHighCode(code: int) {
    code in {
      0x2000, 0x2001, 0x2002, 0x2003, 0x2004, 0x2005, 0x2006, 0x2007, 0x2008, 0x2800, 0x2801, 0x2802,
      0x2803, 0x2804, 0x2900, 0x2901, 0x2902, 0x2903, 0x2904, 0x2A00, 0x2A01, 0x2A02, 0x2A03, 0x2A04,
      0x2A05, 0x2A06, 0x2A07, 0x2A08, 0x2B01, 0x2B02, 0x2B03, 0x2B04, 0x2B05, 0x2B06, 0x2B07, 0x2B08,
      0x3201, 0x3203, 0x3204, 0x3301, 0x3302, 0x3401, 0x3402, 0x3C01, 0x3C02, 0x3C03, 0x3C04, 0x4601,
      0x4602, 0x4603, 0x4604, 0x4605, 0x4606, 0x4607, 0x4608, 0x5001, 0x6E00, 0x6F00, 0x7000, 0x7100,
      0x7801, 0x7802, 0x7803, 0x7804, 0x7805, 0x7806, 0x7807, 0x7808, 0x7809, 0x780A, 0x780B, 0x780C,
      0x780D, 0x780E, 0x780F, 0x7900, 0x7901, 0x7A00, 0x7A01, 0x7A02
    }
  }

  /** Octet strings and virtual terminals have their length as variation, so any will do. */
  predicate HasCode(group: byte, variation: byte) {
    IsCode(0x100 * group + variation) || 110 <= group <= 113
  }

  lemma KnownByLowCode(group: byte, variation: byte)
    requires group < 32
    ensures KnownObject(group, variation) <==> IsLowCode(0x100 * group + variation)
  {}

  lemma KnownByHighCode(group: byte, variation: byte)
    requires group >= 32
    ensures KnownObject(group, variation) <==> IsHighCode(0x100 * group + variation) || 110 <= group <= 113
  {}

  lemma CodesAreSplit(code: int)
    ensures IsLowCode(code) ==> code < 0x2000
    ensures IsHighCode(code) ==> 0x2000 <= code
  {}

  lemma KnownByCode(group: byte, variation: byte)
    ensures KnownObject(group, variation) <==> HasCode(group, variation)
  {
    CodesAreSplit(0x100 * group + variation);
    if group < 32 {
      KnownByLowCode(group, variation);
    } else {
      KnownByHighCode(group, variation);
    }
  }

  /** A request for all objects of a type is accepted exactly if the type has a code. */
  lemma KnownObjectsExactly(group: byte, variation: byte)
    ensures ParseAll([group, variation, 0x06])
         == if HasCode(group, variation) then Success([AllObjects(group, variation)]) else Failure(UnknownObject)
  {
    var b := [group, variation, 0x06];
    KnownByCode(group, variation);
    if HasCode(group, variation) {
      assert b[3..] == [] && ParseAll(b[3..]) == Success([]);
      assert [AllObjects(group, variation)] + [] == [AllObjects(group, variation)];
    }
  }

  // ---------- object lengths ----------

  /** The lengths of the objects that can come with an index, by code. */
  function LengthByCode(code: int): Option<int> {
    if code in {0x201, 0x401, 0xB01, 0xD01} then Some(1)
    else if code in {0x203, 0x403, 0x1602, 0x1702, 0x2002, 0x2902, 0x2A02, 0x2B02} then Some(3)
    else if code in {0x1601, 0x1701, 0x2001, 0x2005, 0x2901, 0x2903, 0x2A01, 0x2A05, 0x2B01, 0x2B05} then Some(5)
    else if code in {0x202, 0x402, 0xB02, 0xD02, 0x7A01} then Some(7)
    else if code in {0x1606, 0x1706, 0x2004, 0x2006, 0x2904, 0x2A04, 0x2A06, 0x2B04, 0x2B06} then Some(9)
    else if code in {0xC01, 0x1605, 0x1705, 0x2003, 0x2007, 0x2A03, 0x2A07, 0x2B03, 0x2B07, 0x3204} then Some(11)
    else if code in {0x7A02} then Some(13)
    else if code in {0x2008, 0x2A08, 0x2B08} then Some(15)
    else None
  }

  /** For an octet string it is the variation. */
  function LengthOf(group: byte, variation: byte): Option<int> {
    if group == 111 && variation > 0 then Some(variation) else LengthByCode(0x100 * group + variation)
  }

  lemma SizeByCode(group: byte, variation: byte)
    ensures ObjectSize(group, variation).Some? <==> LengthOf(group, variation).Some?
    ensures ObjectSize(group, variation).Some? ==>
              ObjectSize(group, variation).value == LengthOf(group, variation).value && KnownObject(group, variation)
  {}

  /** So many objects with one-byte indices: accepted exactly if the object has a length and all of
      them are there. The header takes up exactly those bytes. */
  lemma Indexed8Exactly(group: byte, variation: byte, count: byte, objects: seq<byte>)
    ensures var r, length := ParseHeader([group, variation, 0x17, count] + objects), LengthOf(group, variation);
            && (r.Success? <==> count > 0 && length.Some? && count * (1 + length.value) <= |objects|)
            && (r.Success? ==> r.value.length == 4 + count * (1 + length.value))
  {
    var b := [group, variation, 0x17, count] + objects;
    assert b[0] == group && b[1] == variation && b[2] == 0x17 && b[3] == count;
    SizeByCode(group, variation);
  }

  /** The same with two-byte indices and count. */
  lemma Indexed16Exactly(group: byte, variation: byte, count: uint16, objects: seq<byte>)
    ensures var r := ParseHeader([group, variation, 0x28, count % 256, count / 256] + objects);
            var length := LengthOf(group, variation);
            && (r.Success? <==> count > 0 && length.Some? && count * (2 + length.value) <= |objects|)
            && (r.Success? ==> r.value.length == 5 + count * (2 + length.value))
  {
    var b := [group, variation, 0x28, count % 256, count / 256] + objects;
    assert b[0] == group && b[1] == variation && b[2] == 0x28;
    assert b[3] == count % 256 && b[4] == count / 256 && ReadUint16(b, 3) == count;
    SizeByCode(group, variation);
    assert ParseHeader(b) == if KnownObject(group, variation) then ParseIndexed16(b) else Failure(UnknownObject);
  }

  /** A 16-bit number, low byte first. */
  function At(o: seq<byte>, i: nat): int
    requires i + 2 <= |o|
  {
    o[i] as int + 256 * o[i + 1] as int
  }

  /** What an authentication object must look like, by variation of group 120. */
  predicate Authenticates(variation: byte, o: seq<byte>) {
    match variation
    case 1 => 8 <= |o|
    case 2 => 6 <= |o|
    case 5 => 11 <= |o| && 11 + At(o, 9) <= |o|
    case 6 => 6 <= |o|
    case 7 => 15 <= |o|
    case 8 => 2 <= |o|
    case 9 => true
    case 10 => 16 <= |o| && 16 + At(o, 10) + At(o, 12) + At(o, 14) == |o|
    case 11 => 5 <= |o| && 5 + At(o, 1) + At(o, 3) == |o|
    case 12 => 8 <= |o| && 8 + At(o, 6) == |o|
    case 13 => 8 <= |o| && 8 + At(o, 6) == |o|
    case 14 => true
    case 15 => true
    case _ => false
  }

  lemma NextLength(o: seq<byte>, at: nat, n: nat)
    requires at + 2 * n + 2 <= |o|
    ensures Lengths(o, at, n + 1) == Lengths(o, at, n) + At(o, at + 2 * n)
  {}

  lemma LayoutsByVariation(variation: byte, o: seq<byte>)
    ensures Authenticates(variation, o)
       <==> FreeFormatLayout(120, variation).Some? && FreeFormatLayout(120, variation).value.Matches(o)
  {
    if variation == 10 && 16 <= |o| {
      NextLength(o, 10, 0);
      NextLength(o, 10, 1);
      NextLength(o, 10, 2);
    } else if variation == 11 && 5 <= |o| {
      NextLength(o, 1, 0);
      NextLength(o, 1, 1);
    } else if variation == 5 && 11 <= |o| {
      NextLength(o, 9, 0);
    } else if (variation == 12 || variation == 13) && 8 <= |o| {
      NextLength(o, 6, 0);
    }
  }

  /** One object of its own length: accepted exactly if it is an authentication object of the right
      form. */
  lemma FreeFormatExactly(group: byte, variation: byte, o: seq<byte>)
    requires |o| <= 0xFFFF
    ensures var r := ParseHeader([group, variation, 0x5B, 1, |o| % 256, |o| / 256] + o);
            && (r.Success? <==> group == 120 && Authenticates(variation, o))
            && (r.Success? ==> r.value.length == 6 + |o|)
  {
    var n := |o|;
    var b := [group, variation, 0x5B, 1, n % 256, n / 256] + o;
    assert b[0] == group && b[1] == variation && b[2] == 0x5B && b[3] == 1;
    assert b[4] == n % 256 && b[5] == n / 256 && ReadUint16(b, 4) == n;
    assert b[6..6 + n] == o;
    LayoutsByVariation(variation, o);
  }

  // ---------- errors ----------

  /** Why the front of some bytes is refused, by the bytes alone. */
  lemma RefusedExactly(b: seq<byte>)
    ensures |b| < 3 ==> ParseHeader(b) == Failure(NotEnoughDataForHeader)
    ensures ParseHeader(b) == Failure(UnknownObject) <==> |b| >= 3 && !HasCode(b[0], b[1])
    ensures ParseHeader(b) == Failure(UnknownQualifier)
       <==> |b| >= 3 && HasCode(b[0], b[1]) && b[2] !in {0x00, 0x01, 0x06, 0x07, 0x08, 0x17, 0x28, 0x5B}
    ensures ParseHeader(b) == Failure(BadStartStop)
       <==> |b| >= 5 && HasCode(b[0], b[1])
            && if b[2] == 0x00 then b[3] > b[4] else b[2] == 0x01 && |b| >= 7 && At(b, 3) > At(b, 5)
    ensures ParseHeader(b) == Failure(CountOfZero)
       <==> |b| >= 4 && HasCode(b[0], b[1])
            && if b[2] in {0x07, 0x17} then b[3] == 0
               else b[2] in {0x08, 0x28} && |b| >= 5 && At(b, 3) == 0
  {
    if |b| >= 3 {
      KnownByCode(b[0], b[1]);
    }
  }
}
