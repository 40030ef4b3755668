/** The field that records which point classes are scanned, as a bit for each class. */
module ClassFields {
  import opened PointClasses

  function Bit(c: PointClass): bv8 {
    match c
    case Class0 => 0x01
    case Class1 => 0x02
    case Class2 => 0x04
    case Class3 => 0x08
  }

  /** What the property of a class reads. */
  predicate Has(mask: bv8, c: PointClass) { Bit(c) & mask != 0 }

  /** What assigning to it leaves. */
  function Put(mask: bv8, c: PointClass, value: bool): bv8 {
    if value then mask | Bit(c) else mask & !Bit(c) & 0xFF
  }

  lemma PutsOneBit(mask: bv8, c: PointClass, value: bool, d: PointClass)
    ensures Has(Put(mask, c, value), d) == if c == d then value else Has(mask, d)
  {}

  /** A mask of class bits only is known by its properties. */
  predicate ClassBitsOnly(mask: bv8) { mask & 0xF0 == 0 }

  lemma BitsDetermine(a: bv8, b: bv8)
    requires ClassBitsOnly(a) && ClassBitsOnly(b) && forall c :: Has(a, c) == Has(b, c)
    ensures a == b
  {
    assert Has(a, Class0) == Has(b, Class0) && Has(a, Class1) == Has(b, Class1);
    assert Has(a, Class2) == Has(b, Class2) && Has(a, Class3) == Has(b, Class3);
  }

  /** The mask of the first `n` classes of a list. */
  function Mask(classes: seq<PointClass>, n: nat): (mask: bv8)
    requires n <= |classes|
    ensures ClassBitsOnly(mask)
    ensures forall c :: Has(mask, c) <==> c in classes[..n]
  {
    if n == 0 then 0
    else
      assert classes[..n] == classes[..n - 1] + [classes[n - 1]];
      Mask(classes, n - 1) | Bit(classes[n - 1])
  }

  /** Order and repetition do not matter. */
  lemma OnlyMembersMatter(a: seq<PointClass>, b: seq<PointClass>)
    requires forall c :: c in a <==> c in b
    ensures Mask(a, |a|) == Mask(b, |b|)
  {
    assert a[..|a|] == a && b[..|b|] == b;
    BitsDetermine(Mask(a, |a|), Mask(b, |b|));
  }

  /** Concatenation is union. */
  lemma ConcatenationIsUnion(a: seq<PointClass>, b: seq<PointClass>)
    ensures Mask(a + b, |a + b|) == Mask(a, |a|) | Mask(b, |b|)
  {
    var whole, union := Mask(a + b, |a + b|), Mask(a, |a|) | Mask(b, |b|);
    assert a[..|a|] == a && b[..|b|] == b && (a + b)[..|a + b|] == a + b;
    forall c ensures Has(whole, c) == Has(union, c) {
      assert Has(union, c) <==> Has(Mask(a, |a|), c) || Has(Mask(b, |b|), c);
    }
    BitsDetermine(whole, union);
  }

  /** The masks themselves, the two predefined ones included. */
  lemma MaskValues()
    ensures Mask([], 0) == 0x00
    ensures Mask([Class0], 1) == 0x01 && Mask([Class1], 1) == 0x02
    ensures Mask([Class2], 1) == 0x04 && Mask([Class3], 1) == 0x08
    ensures Mask([Class0, Class1, Class2, Class3], 4) == 0x0F
    ensures Mask([Class1, Class2, Class3], 3) == 0x0E
  {
    var all, events := [Class0, Class1, Class2, Class3], [Class1, Class2, Class3];
    assert Mask(all, 0) == 0 && Mask(all, 1) == 0x01 && Mask(all, 2) == 0x03 && Mask(all, 3) == 0x07;
    assert Mask(events, 0) == 0 && Mask(events, 1) == 0x02 && Mask(events, 2) == 0x06;
    assert forall c :: Mask([c], 1) == Mask([c], 0) | Bit(c);
  }

  datatype Assignment = Assignment(to: PointClass, value: bool)

  /** The last value assigned to a class among the first `n` assignments. */
  function Last(writes: seq<Assignment>, n: nat, c: PointClass, initial: bool): bool
    requires n <= |writes|
  {
    if n == 0 then initial
    else if writes[n - 1].to == c then writes[n - 1].value
    else Last(writes, n - 1, c, initial)
  }

  class ClassField {
    var bitfield: bv8

    constructor (mask: bv8)
      ensures bitfield == mask
    {
      bitfield := mask;
    }

    /** The four property setters. */
    method Set(c: PointClass, value: bool)
      modifies this
      ensures bitfield == Put(old(bitfield), c, value)
    {
      if value {
        bitfield := bitfield | Bit(c);
      } else {
        bitfield := bitfield & !Bit(c) & 0xFF;
      }
    }

    /** Any run of assignments leaves every class at its last assigned value. */
    method SetAll(writes: seq<Assignment>)
      modifies this
      ensures forall c :: Has(bitfield, c) == Last(writes, |writes|, c, Has(old(bitfield), c))
    {
      for i := 0 to |writes|
        invariant forall c :: Has(bitfield, c) == Last(writes, i, c, Has(old(bitfield), c))
      {
        var before, w := bitfield, writes[i];
        Set(w.to, w.value);
        forall c ensures Has(bitfield, c) == Last(writes, i + 1, c, Has(old(bitfield), c)) {
          PutsOneBit(before, w.to, w.value, c);
        }
      }
    }
  }

  /** `ClassField.From`. */
  method From(classes: seq<PointClass>) returns (field: ClassField)
    ensures fresh(field) && field.bitfield == Mask(classes, |classes|)
  {
    var mask: bv8 := 0;
    for i := 0 to |classes|
      invariant mask == Mask(classes, i)
    {
      mask := mask | Bit(classes[i]);
    }
    field := new ClassField(mask);
  }
}
