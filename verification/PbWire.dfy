/** What the bytes of a message are (nanopb pb_encode.c), said bit by bit and value by value. */
module PbWire {
  import opened DbFormat
  import opened Division
  import opened PbFormat

  // ---------------------------------------------------------------------------------------------
  // Numbers

  /** The i-th byte of a varint holds the i-th seven bits of the number, its high bit says that more follow, and
      there are no more bytes than the number needs. */
  lemma {:induction false} VarintDigit(v: nat, i: nat)
    requires i < |VarintBytes(v)|
    ensures Power(128, i) > 0
    ensures VarintBytes(v)[i] as int == (v / Power(128, i)) % 128 + (if i == |VarintBytes(v)| - 1 then 0 else 128)
    ensures i == |VarintBytes(v)| - 1 ==> v < Power(128, i + 1) && (i > 0 ==> Power(128, i) <= v)
  {
    if i > 0 {
      VarintDigit(v / 128, i - 1);
      DigitShifts(128, v, i - 1);
    }
  }

  /** The i-th byte of a fixed-size number holds its i-th eight bits. */
  lemma {:induction false} FixedDigit(n: nat, w: nat, i: nat)
    requires i < w
    ensures Power(256, i) > 0 && FixedBytesOf(n, w)[i] as int == (n / Power(256, i)) % 256
  {
    if i > 0 {
      FixedDigit(n / 256, w - 1, i - 1);
      DigitShifts(256, n, i - 1);
    }
  }

  /** pb_encode_svarint: the 64 bits shifted left by one, and complemented if the number is negative. */
  lemma ZigzagIsShifted(n: int)
    requires -0x8000_0000_0000_0000 <= n < 0x8000_0000_0000_0000
    ensures var shifted := 2 * (n % 0x1_0000_0000_0000_0000) % 0x1_0000_0000_0000_0000;
            Zigzag(n) == if n < 0 then 0xFFFF_FFFF_FFFF_FFFF - shifted else shifted
  {
    if n < 0 {
      assert n % 0x1_0000_0000_0000_0000 == n + 0x1_0000_0000_0000_0000;
    }
  }

  // ---------------------------------------------------------------------------------------------
  // What is left out

  /** A proto3 number takes bytes exactly if it is not zero, and a byte string exactly if it is not empty. */
  lemma SingularIsWrittenIff(f: Field, slot: Slot)
    requires f.rule.Singular?
    ensures slot.one.Number? ==> (SlotBytes(f, slot) == [] <==> slot.one.n == 0)
    ensures slot.one.Blob? ==> (SlotBytes(f, slot) == [] <==> slot.one.b == [])
  {
    assert |TagBytes(f, WireType(f.kind))| > 0;
  }

  lemma SlotIsEmptyIff(f: Field, slot: Slot)
    ensures SlotBytes(f, slot) == [] <==> SlotIsDefault(f, slot)
  {
    hide VarintBytes, ValueBytes, IsDefault;
    if f.rule.Repeated? && slot.many != [] && !Packable(f.kind) {
      var n := |slot.many|;
      assert |UnpackedBytes(f, slot, n)| >= |TagBytes(f, WireType(f.kind))| > 0;
    }
  }

  lemma {:induction false} FieldsAreEmptyIff(fields: seq<Field>, m: Value, n: nat)
    requires m.Message? && n <= |fields| == |m.slots|
    ensures FieldBytes(fields, m, n) == [] <==> forall i :: 0 <= i < n ==> SlotBytes(fields[i], m.slots[i]) == []
  {
    hide SlotBytes;
    if n > 0 {
      FieldsAreEmptyIff(fields, m, n - 1);
    }
  }

  /** A proto3 message in a message takes bytes exactly if it would by itself. */
  lemma SingularMessageIsWrittenIff(f: Field, slot: Slot)
    requires f.rule.Singular? && f.kind.Sub? && slot.one.Message? && |slot.one.slots| == |f.kind.fields|
    ensures SlotBytes(f, slot) == [] <==> MessageBytes(f.kind.fields, slot.one) == []
  {
    var m, fields := slot.one, f.kind.fields;
    SlotIsEmptyIff(f, slot);
    FieldsAreEmptyIff(fields, m, |fields|);
    forall i | 0 <= i < |fields|
      ensures SlotBytes(fields[i], m.slots[i]) == [] <==> SlotIsDefault(fields[i], m.slots[i])
    {
      SlotIsEmptyIff(fields[i], m.slots[i]);
    }
    hide SlotBytes, SlotIsDefault, FieldBytes;
  }

  /** Nothing is required, here or in a proto3 message within, and byte strings of a fixed length are not proto3. */
  predicate MayBeEmpty(k: Kind)
    requires k.Sub?
    decreases k, 1
  {
    forall i :: 0 <= i < |k.fields| ==> FieldMayBeEmpty(k.fields[i])
  }

  predicate FieldMayBeEmpty(f: Field)
    decreases f, 2
  {
    && !f.rule.Required?
    && (f.rule.Singular? && f.kind.FixedBytes? ==> f.kind.length == 0)
    && (f.rule.Singular? && f.kind.Sub? ==> MayBeEmpty(f.kind))
  }

  /** A message without required fields takes no bytes exactly if it is the message of defaults. */
  lemma {:induction false} NothingWrittenIff(fields: seq<Field>, m: Value)
    requires m.Message? && MessageOk(fields, m) && MayBeEmpty(Sub(fields))
    ensures MessageBytes(fields, m) == [] <==> SameMessage(fields, m, ZeroValue(Sub(fields)))
    decreases m
  {
    FieldsAreEmptyIff(fields, m, |fields|);
    var zero := ZeroValue(Sub(fields));
    forall i | 0 <= i < |fields|
      ensures SlotBytes(fields[i], m.slots[i]) == [] <==> SameSlot(fields[i], m.slots[i], ZeroSlot(fields[i]))
    {
      assert SlotOk(fields[i], m.slots[i]) && FieldMayBeEmpty(fields[i]);
      NothingWrittenInSlot(fields[i], m.slots[i]);
    }
    hide SlotBytes, SameSlot, FieldBytes, SlotOk;
  }

  lemma NestedIsOk(k: Kind, v: Value)
    requires ValueOk(k, v) && v.Message?
    ensures k.Sub? && |v.slots| == |k.fields| && MessageOk(k.fields, v)
  {
  }

  lemma {:induction false} NothingWrittenInSlot(f: Field, slot: Slot)
    requires SlotOk(f, slot) && FieldMayBeEmpty(f)
    ensures SlotBytes(f, slot) == [] <==> SameSlot(f, slot, ZeroSlot(f))
    decreases slot
  {
    SlotIsEmptyIff(f, slot);
    if f.rule.Singular? {
      if slot.one.Message? {
        NestedIsOk(f.kind, slot.one);
        SingularMessageIsWrittenIff(f, slot);
        NothingWrittenIff(f.kind.fields, slot.one);
      } else {
        SingularIsWrittenIff(f, slot);
      }
    }
    hide SlotBytes;
  }

  /** A required field is always written. */
  lemma RequiredIsWritten(fields: seq<Field>, m: Value, i: nat)
    requires m.Message? && |m.slots| == |fields| && i < |fields| && fields[i].rule.Required?
    ensures MessageBytes(fields, m) != []
  {
    FieldsAreEmptyIff(fields, m, |fields|);
    SlotIsEmptyIff(fields[i], m.slots[i]);
  }

  // ---------------------------------------------------------------------------------------------
  // Messages of the Protocol Buffers encoding guide

  lemma VarintOfTwoBytes(v: nat)
    requires 128 <= v < 128 * 128
    ensures VarintBytes(v) == [(v % 128 + 128) as byte, (v / 128) as byte]
  {
  }

  lemma VarintOfThreeBytes(v: nat)
    requires 128 * 128 <= v < 128 * 128 * 128
    ensures VarintBytes(v) == [(v % 128 + 128) as byte, (v / 128 % 128 + 128) as byte, (v / 128 / 128) as byte]
  {
    VarintOfTwoBytes(v / 128);
  }

  lemma OneField(f: Field, s: Slot)
    ensures MessageBytes([f], Message([s])) == SlotBytes(f, s)
  {
    hide SlotBytes;
    assert FieldBytes([f], Message([s]), 0) == [];
  }

  lemma TwoFields(f: Field, g: Field, s: Slot, t: Slot)
    ensures MessageBytes([f, g], Message([s, t])) == SlotBytes(f, s) + SlotBytes(g, t)
  {
    hide SlotBytes;
    var m := Message([s, t]);
    assert FieldBytes([f, g], m, 0) == [];
    assert FieldBytes([f, g], m, 1) == FieldBytes([f, g], m, 0) + SlotBytes(f, s);
  }

  /** The number 150 in field 1, and with it "testing" in field 2. */
  lemma NumberAndString()
    ensures var f, s := Field(1, Varint(4), Required), Slot(false, Number(150), []);
            var g, t := Field(2, StringT(16), Optional), Slot(true, Blob([116, 101, 115, 116, 105, 110, 103]), []);
            && MessageBytes([f], Message([s])) == [0x08, 0x96, 0x01]
            && MessageBytes([f, g], Message([s, t]))
                 == [0x08, 0x96, 0x01, 0x12, 0x07, 116, 101, 115, 116, 105, 110, 103]
  {
    var f, s := Field(1, Varint(4), Required), Slot(false, Number(150), []);
    var g, t := Field(2, StringT(16), Optional), Slot(true, Blob([116, 101, 115, 116, 105, 110, 103]), []);
    VarintOfTwoBytes(150);
    assert SlotBytes(f, s) == [0x08, 0x96, 0x01];
    assert SlotBytes(g, t) == [0x12, 0x07, 116, 101, 115, 116, 105, 110, 103];
    hide SlotBytes;
    OneField(f, s);
    TwoFields(f, g, s, t);
  }

  /** The first of these as field 3 of another message. */
  lemma MessageInMessage()
    ensures var inner := [Field(1, Varint(4), Required)];
            MessageBytes([Field(3, Sub(inner), Required)],
                         Message([Slot(false, Message([Slot(false, Number(150), [])]), [])]))
              == [0x1A, 0x03, 0x08, 0x96, 0x01]
  {
    NumberAndString();
  }

  /** A packed array of 3, 270 and 86942 in field 4. */
  lemma PackedArray()
    ensures MessageBytes([Field(4, UVarint(4), Repeated(8))],
                         Message([Slot(false, Number(0), [Number(3), Number(270), Number(86942)])]))
              == [0x22, 0x06, 0x03, 0x8E, 0x02, 0x9E, 0xA7, 0x05]
  {
    VarintOfTwoBytes(270);
    VarintOfThreeBytes(86942);
  }

  /** A value of every other kind in field 1. */
  lemma KindsOnTheWire()
    ensures SlotBytes(Field(1, BoolT, Required), Slot(false, Number(1), [])) == [0x08, 0x01]
    ensures SlotBytes(Field(1, SVarint(4), Required), Slot(false, Number(-1), [])) == [0x08, 0x01]
    ensures SlotBytes(Field(1, SVarint(4), Required), Slot(false, Number(1), [])) == [0x08, 0x02]
    ensures SlotBytes(Field(1, BytesT(4), Required), Slot(false, Blob([7]), [])) == [0x0A, 1, 7]
    ensures SlotBytes(Field(1, FixedBytes(1), Required), Slot(false, Blob([7]), [])) == [0x0A, 1, 7]
  {
  }

  lemma FourBytes(n: nat)
    ensures FixedBytesOf(n, 4) == [(n % 256) as byte, (n / 256 % 256) as byte, (n / 256 / 256 % 256) as byte,
                                   (n / 256 / 256 / 256 % 256) as byte]
  {
    var c := n / 256 / 256 / 256;
    assert FixedBytesOf(c, 1) == [(c % 256) as byte] + FixedBytesOf(c / 256, 0);
    assert FixedBytesOf(n / 256 / 256, 2) == [(n / 256 / 256 % 256) as byte] + FixedBytesOf(c, 1);
    assert FixedBytesOf(n / 256, 3) == [(n / 256 % 256) as byte] + FixedBytesOf(n / 256 / 256, 2);
  }

  lemma EightBytes(n: nat, high: nat)
    requires high == n / 256 / 256 / 256 / 256
    ensures FixedBytesOf(n, 8) == FixedBytesOf(n, 4) + FixedBytesOf(high, 4)
  {
    var a, b, c := n / 256, n / 256 / 256, n / 256 / 256 / 256;
    FourBytes(n);
    assert FixedBytesOf(c, 5) == [(c % 256) as byte] + FixedBytesOf(high, 4);
    assert FixedBytesOf(b, 6) == [(b % 256) as byte] + FixedBytesOf(c, 5);
    assert FixedBytesOf(a, 7) == [(a % 256) as byte] + FixedBytesOf(b, 6);
    assert FixedBytesOf(n, 8) == [(n % 256) as byte] + FixedBytesOf(a, 7);
    hide FixedBytesOf;
  }

  /** Fixed-size numbers go low byte first. */
  lemma Fixed32OnTheWire()
    ensures SlotBytes(Field(1, Fixed32, Required), Slot(false, Number(0x0403_0201), [])) == [0x0D, 1, 2, 3, 4]
  {
    FourBytes(0x0403_0201);
    hide FixedBytesOf;
  }

  lemma CountedUp()
    ensures FixedBytesOf(0x0807_0605_0403_0201, 8) == [1, 2, 3, 4, 5, 6, 7, 8]
  {
    EightBytes(0x0807_0605_0403_0201, 0x0807_0605);
    FourBytes(0x0807_0605_0403_0201);
    FourBytes(0x0807_0605);
    hide FixedBytesOf;
  }

  lemma Fixed64OnTheWire()
    ensures SlotBytes(Field(1, Fixed64, Required), Slot(false, Number(0x0807_0605_0403_0201), []))
              == [0x09, 1, 2, 3, 4, 5, 6, 7, 8]
  {
    CountedUp();
    hide FixedBytesOf;
    assert NumberBytes(Fixed64, 0x0807_0605_0403_0201) == [1, 2, 3, 4, 5, 6, 7, 8];
    assert TagBytes(Field(1, Fixed64, Required), 1) == [0x09];
  }

  lemma SevenOfAll(v: nat)
    requires v % 128 == 127 && v >= 128
    ensures VarintBytes(v) == [255] + VarintBytes(v / 128)
  {
  }

  /** A negative number takes ten bytes, whatever its size in memory. */
  lemma MinusOneOnTheWire()
    ensures SlotBytes(Field(1, Varint(4), Required), Slot(false, Number(-1), []))
              == [0x08, 255, 255, 255, 255, 255, 255, 255, 255, 255, 1]
  {
    SevenOfAll(0xFFFF_FFFF_FFFF_FFFF);
    SevenOfAll(0x1FF_FFFF_FFFF_FFFF);
    SevenOfAll(0x3_FFFF_FFFF_FFFF);
    SevenOfAll(0x7FF_FFFF_FFFF);
    SevenOfAll(0xF_FFFF_FFFF);
    SevenOfAll(0x1FFF_FFFF);
    SevenOfAll(0x3F_FFFF);
    SevenOfAll(0x7FFF);
    SevenOfAll(0xFF);
    assert VarintBytes(1) == [1] && VarintBytes(8) == [8];
    hide VarintBytes;
  }

  /** An array of numbers is one packed part, one of anything else a part for each element. */
  lemma ArraysOnTheWire(f: Field, slot: Slot)
    requires f.rule.Repeated? && slot.many != []
    ensures f.kind.BoolT? || f.kind.Varint? || f.kind.UVarint? || f.kind.SVarint? || f.kind.Fixed32?
            || f.kind.Fixed64? ==>
              SlotBytes(f, slot) == VarintBytes(8 * f.tag + 2) + VarintBytes(|PackedBytes(f.kind, slot, |slot.many|)|)
                                    + PackedBytes(f.kind, slot, |slot.many|)
    ensures f.kind.BytesT? || f.kind.StringT? || f.kind.FixedBytes? || f.kind.Sub? ==>
              SlotBytes(f, slot) == UnpackedBytes(f, slot, |slot.many|)
  {
    hide VarintBytes, PackedBytes, UnpackedBytes;
    var p := PackedBytes(f.kind, slot, |slot.many|);
    assert TagBytes(f, 2) + (VarintBytes(|p|) + p) == TagBytes(f, 2) + VarintBytes(|p|) + p;
  }

  /** Numbers are those that their type in memory can hold. */
  lemma StorableNumbers(n: int)
    ensures NumberOk(BoolT, n) <==> n == 0 || n == 1
    ensures NumberOk(Varint(1), n) <==> -128 <= n <= 127
    ensures NumberOk(Varint(2), n) <==> -32768 <= n <= 32767
    ensures NumberOk(Varint(4), n) <==> -0x8000_0000 <= n <= 0x7FFF_FFFF
    ensures NumberOk(Varint(8), n) <==> -0x8000_0000_0000_0000 <= n <= 0x7FFF_FFFF_FFFF_FFFF
    ensures NumberOk(UVarint(1), n) <==> 0 <= n <= 255
    ensures NumberOk(UVarint(2), n) <==> 0 <= n <= 65535
    ensures NumberOk(UVarint(4), n) <==> 0 <= n <= 0xFFFF_FFFF
    ensures NumberOk(UVarint(8), n) <==> 0 <= n <= 0xFFFF_FFFF_FFFF_FFFF
    ensures forall size :: NumberOk(SVarint(size), n) <==> NumberOk(Varint(size), n)
    ensures NumberOk(Fixed32, n) <==> 0 <= n <= 0xFFFF_FFFF
    ensures NumberOk(Fixed64, n) <==> 0 <= n <= 0xFFFF_FFFF_FFFF_FFFF
  {
  }
}
