/** Writing messages (nanopb pb_encode.c, for statically allocated fields). */
module PbEncode {
  import opened DbFormat
  import opened PbFormat

  /** What of a stream writing changes. */
  datatype Written = Written(out: Bytes, count: nat)

  /** What it comes to to write `b` to a stream with the given limit, or to one that only counts:
      all of it is written or counted, unless it does not fit. */
  ghost predicate After(sizing: bool, maxSize: nat, before: Written, b: Bytes, ok: bool, after: Written) {
    && (ok <==> sizing || before.count + |b| <= maxSize)
    && (ok ==> after == Written(before.out + (if sizing then [] else b), before.count + |b|))
    && (sizing || after.count <= maxSize)
  }

  lemma AfterBoth(sizing: bool, maxSize: nat, w0: Written, b1: Bytes, w1: Written, b2: Bytes, ok: bool, w2: Written)
    requires After(sizing, maxSize, w0, b1, true, w1) && After(sizing, maxSize, w1, b2, ok, w2)
    ensures After(sizing, maxSize, w0, b1 + b2, ok, w2)
  {
  }

  /** What fails on the way fails. */
  lemma AfterFailure(sizing: bool, maxSize: nat, w0: Written, part: Bytes, w1: Written, whole: Bytes)
    requires After(sizing, maxSize, w0, part, false, w1) && |part| <= |whole|
    ensures After(sizing, maxSize, w0, whole, false, w1)
  {
  }

  lemma AfterNothing(sizing: bool, maxSize: nat, w: Written)
    requires sizing || w.count <= maxSize
    ensures After(sizing, maxSize, w, [], true, w)
  {
  }

  class OStream {
    const sizing: bool
    const maxSize: nat
    var w: Written

    ghost predicate Ok()
      reads this
    {
      sizing || w.count <= maxSize
    }

    constructor (sizing: bool, maxSize: nat, out: Bytes)
      ensures Ok() && this.sizing == sizing && this.maxSize == maxSize && w == Written(out, 0)
    {
      this.sizing, this.maxSize, w := sizing, maxSize, Written(out, 0);
    }

    method Write(b: Bytes) returns (ok: bool)
      requires Ok()
      modifies this
      ensures Ok() && After(sizing, maxSize, old(w), b, ok, w)
    {
      if |b| > 0 && !sizing {
        if w.count + |b| > maxSize {
          return false;
        }
        w := w.(out := w.out + b);
      }
      w := w.(count := w.count + |b|);
      return true;
    }

    method EncodeVarint(value: nat) returns (ok: bool)
      requires Ok()
      modifies this
      ensures Ok() && After(sizing, maxSize, old(w), VarintBytes(value), ok, w)
    {
      if value < 128 {
        ok := Write([value as byte]);
        return;
      }
      var buffer := VarintBuffer(value);
      ok := Write(buffer);
    }

    method VarintBuffer(value: nat) returns (buffer: Bytes)
      requires value > 0
      ensures buffer == VarintBytes(value)
    {
      buffer := [];
      var v: nat := value;
      while v > 0
        invariant v > 0 ==> VarintBytes(value) == buffer + VarintBytes(v)
        invariant v == 0 ==> |buffer| > 0 && buffer[|buffer| - 1] >= 128
                             && VarintBytes(value) == buffer[..|buffer| - 1] + [buffer[|buffer| - 1] - 128]
      {
        VarintStep(v);
        hide VarintBytes;
        ghost var done := buffer;
        var group := (v % 128 + 128) as byte;
        buffer, v := buffer + [group], v / 128;
        assert buffer[..|buffer| - 1] == done && buffer[|buffer| - 1] == group;
      }
      // The last byte has no top bit.
      buffer := buffer[..|buffer| - 1] + [buffer[|buffer| - 1] - 128];
    }

    method EncodeTag(wire: nat, tag: nat) returns (ok: bool)
      requires Ok()
      modifies this
      ensures Ok() && After(sizing, maxSize, old(w), VarintBytes(tag * 8 + wire), ok, w)
    {
      ok := EncodeVarint(tag * 8 + wire);
    }

    method EncodeString(b: Bytes) returns (ok: bool)
      requires Ok()
      modifies this
      ensures Ok() && After(sizing, maxSize, old(w), Delimited(b), ok, w)
    {
      ghost var w0 := w;
      ok := EncodeVarint(|b|);
      if !ok {
        AfterFailure(sizing, maxSize, w0, VarintBytes(|b|), w, Delimited(b));
        return;
      }
      ghost var w1 := w;
      ok := Write(b);
      AfterBoth(sizing, maxSize, w0, VarintBytes(|b|), w1, b, ok, w);
    }

    method EncodeNumber(k: Kind, n: int) returns (ok: bool)
      requires Ok()
      modifies this
      ensures Ok() && (NumberOk(k, n) ==> After(sizing, maxSize, old(w), NumberBytes(k, n), ok, w))
    {
      hide After, Bits;
      match k
      case BoolT => ok := EncodeVarint(if n == 0 then 0 else 1);
      case Varint(size) =>
        ok := false;
        if SizeOk(size) {
          ok := EncodeVarint(Bits(n));
        }
      case UVarint(size) =>
        ok := false;
        if SizeOk(size) {
          ok := EncodeVarint(Bits(n));
        }
      case SVarint(size) =>
        ok := false;
        if SizeOk(size) {
          ok := EncodeVarint(Zigzag(n));
        }
      case Fixed32 => ok := Write(FixedBytesOf(Bits(n), 4));
      case Fixed64 => ok := Write(FixedBytesOf(Bits(n), 8));
      case _ => ok := false;
    }

    /** The encoder of a field's kind. */
    method EncodeValue(k: Kind, v: Value) returns (ok: bool)
      requires Ok()
      modifies this
      ensures Ok() && (ValueOk(k, v) ==> After(sizing, maxSize, old(w), ValueBytes(k, v), ok, w))
      ensures ok && v.Blob? && k.BytesT? ==> |v.b| <= k.capacity
      decreases v, 3, 0
    {
      hide After, NumberBytes;
      match v
      case Number(n) => ok := EncodeNumber(k, n);
      case Blob(b) =>
        if k.BytesT? && |b| > k.capacity {
          return false;
        }
        ok := EncodeString(b);
      case Message(_) =>
        if !k.Sub? {
          return false;
        }
        ok := EncodeSubmessage(k.fields, v);
    }

    /** First counts, and then writes what it has counted. */
    method EncodeSubmessage(fields: seq<Field>, m: Value) returns (ok: bool)
      requires Ok() && m.Message?
      modifies this
      ensures Ok()
      ensures (MessageOk(fields, m) ==> After(sizing, maxSize, old(w), Delimited(MessageBytes(fields, m)), ok, w))
      decreases m, 2, 0
    {
      hide MessageOk, MessageBytes;
      ghost var good, w0, b := MessageOk(fields, m), w, MessageBytes(fields, m);
      var counter := new OStream(true, 0, []);
      ok := counter.EncodeMessage(fields, m);
      if !ok {
        return;
      }
      var size := counter.w.count;
      ok := EncodeVarint(size);
      if !ok {
        return;
      }
      ghost var w1 := w;
      if sizing {
        w := w.(count := w.count + size);
        return true;
      }
      if w.count + size > maxSize {
        return false;
      }
      var substream := new OStream(false, size, w.out);
      ok := substream.EncodeMessage(fields, m);
      w := Written(substream.w.out, w.count + substream.w.count);
      if substream.w.count != size {
        // The size changed between counting and writing; it does not.
        assert !good;
        return false;
      }
    }

    /** An array: packed behind one tag, or each element behind its own. */
    method EncodeArray(f: Field, slot: Slot) returns (ok: bool)
      requires Ok() && f.rule.Repeated?
      modifies this
      ensures Ok() && (SlotOk(f, slot) ==> After(sizing, maxSize, old(w), SlotBytes(f, slot), ok, w))
      ensures ok && f.rule.Repeated? ==> |slot.many| <= f.rule.max
      decreases slot, 1, 1
    {
      if slot.many == [] {
        return true;
      }
      if |slot.many| > f.rule.max {
        return false;
      }
      if Packable(f.kind) {
        ok := EncodePacked(f, slot);
      } else {
        ok := EncodeUnpacked(f, slot);
      }
    }

    method EncodePacked(f: Field, slot: Slot) returns (ok: bool)
      requires Ok() && Packable(f.kind) && slot.many != []
      modifies this
      ensures Ok()
      ensures SlotOk(f, slot) && f.rule.Repeated? ==>
                After(sizing, maxSize, old(w), TagBytes(f, 2) + Delimited(PackedBytes(f.kind, slot, |slot.many|)),
                      ok, w)
      decreases slot, 0, 2
    {
      hide SlotOk, After, PackedBytes, VarintBytes;
      ghost var good, w0, b := SlotOk(f, slot) && f.rule.Repeated?, w, PackedBytes(f.kind, slot, |slot.many|);
      ok := EncodeTag(2, f.tag);
      ghost var w1 := w;
      if !ok {
        AfterFailure(sizing, maxSize, w0, TagBytes(f, 2), w1, TagBytes(f, 2) + Delimited(b));
        return;
      }
      var size;
      ok, size := PackedSize(f, slot);
      if !ok {
        return;
      }
      ok := EncodePackedBody(f, slot, size);
      if good {
        AfterBoth(sizing, maxSize, w0, TagBytes(f, 2), w1, Delimited(b), ok, w);
      }
    }

    /** The size of a packed array: a multiple of four or eight, or counted. */
    method PackedSize(f: Field, slot: Slot) returns (ok: bool, size: nat)
      requires Packable(f.kind)
      ensures SlotOk(f, slot) && f.rule.Repeated? ==> ok && size == |PackedBytes(f.kind, slot, |slot.many|)|
      decreases slot, 0, 1
    {
      var n := |slot.many|;
      if f.kind.Fixed32? || f.kind.Fixed64? {
        size := (if f.kind.Fixed32? then 4 else 8) * n;
        if SlotOk(f, slot) && f.rule.Repeated? {
          PackedFixed(f.kind, slot, n);
        }
        return true, size;
      }
      var counter := new OStream(true, 0, []);
      ok := counter.EncodeItems(f, slot);
      size := counter.w.count;
    }

    /** The elements of a packed array. */
    method EncodeItems(f: Field, slot: Slot) returns (ok: bool)
      requires Ok()
      modifies this
      ensures Ok()
      ensures SlotOk(f, slot) && f.rule.Repeated? ==>
                After(sizing, maxSize, old(w), PackedBytes(f.kind, slot, |slot.many|), ok, w)
      decreases slot, 0, 0
    {
      ghost var good, w0 := SlotOk(f, slot) && f.rule.Repeated?, w;
      hide After, ValueBytes, ValueOk;
      AfterNothing(sizing, maxSize, w);
      for i := 0 to |slot.many|
        invariant Ok() && (good ==> After(sizing, maxSize, w0, PackedBytes(f.kind, slot, i), true, w))
      {
        ghost var w1 := w;
        ok := EncodeValue(f.kind, slot.many[i]);
        if good {
          AfterBoth(sizing, maxSize, w0, PackedBytes(f.kind, slot, i), w1, ValueBytes(f.kind, slot.many[i]), ok, w);
        }
        if !ok {
          if good {
            PackedGrows(f.kind, slot, i + 1, |slot.many|);
            AfterFailure(sizing, maxSize, w0, PackedBytes(f.kind, slot, i + 1), w,
                         PackedBytes(f.kind, slot, |slot.many|));
          }
          return;
        }
      }
      return true;
    }

    method EncodePackedBody(f: Field, slot: Slot, size: nat) returns (ok: bool)
      requires Ok() && Packable(f.kind)
      modifies this
      ensures Ok()
      ensures SlotOk(f, slot) && f.rule.Repeated? && size == |PackedBytes(f.kind, slot, |slot.many|)| ==>
                After(sizing, maxSize, old(w), Delimited(PackedBytes(f.kind, slot, |slot.many|)), ok, w)
      decreases slot, 0, 1
    {
      ghost var b := PackedBytes(f.kind, slot, |slot.many|);
      hide PackedBytes, SlotOk;
      ok := EncodeVarint(size);
      if !ok {
        return;
      }
      if sizing {
        w := w.(count := w.count + size);
        return true;
      }
      ok := EncodeItems(f, slot);
    }

    method EncodeUnpacked(f: Field, slot: Slot) returns (ok: bool)
      requires Ok()
      modifies this
      ensures Ok()
      ensures SlotOk(f, slot) && f.rule.Repeated? ==>
                After(sizing, maxSize, old(w), UnpackedBytes(f, slot, |slot.many|), ok, w)
      decreases slot, 1, 0
    {
      ghost var good, w0 := SlotOk(f, slot) && f.rule.Repeated?, w;
      hide After, ValueBytes, ValueOk;
      AfterNothing(sizing, maxSize, w);
      for i := 0 to |slot.many|
        invariant Ok() && (good ==> After(sizing, maxSize, w0, UnpackedBytes(f, slot, i), true, w))
      {
        ghost var w1, b := w, TagBytes(f, WireType(f.kind)) + ValueBytes(f.kind, slot.many[i]);
        ok := EncodeTagged(f, slot, slot.many[i]);
        if good {
          UnpackedStep(f, slot, i);
          AfterBoth(sizing, maxSize, w0, UnpackedBytes(f, slot, i), w1, b, ok, w);
        }
        if !ok {
          if good {
            UnpackedGrows(f, slot, i + 1, |slot.many|);
            AfterFailure(sizing, maxSize, w0, UnpackedBytes(f, slot, i + 1), w, UnpackedBytes(f, slot, |slot.many|));
          }
          return;
        }
      }
      return true;
    }

    /** A value of the slot behind the field's tag. */
    method EncodeTagged(f: Field, ghost slot: Slot, v: Value) returns (ok: bool)
      requires Ok() && v < slot
      modifies this
      ensures Ok()
      ensures ValueOk(f.kind, v) ==>
                After(sizing, maxSize, old(w), TagBytes(f, WireType(f.kind)) + ValueBytes(f.kind, v), ok, w)
      decreases slot, 0, 0
    {
      hide After, ValueBytes, ValueOk, VarintBytes;
      ghost var w0 := w;
      ok := EncodeTag(WireType(f.kind), f.tag);
      ghost var w1 := w;
      if !ok {
        AfterFailure(sizing, maxSize, w0, TagBytes(f, WireType(f.kind)), w1,
                     TagBytes(f, WireType(f.kind)) + ValueBytes(f.kind, v));
        return;
      }
      ok := EncodeValue(f.kind, v);
      if ValueOk(f.kind, v) {
        AfterBoth(sizing, maxSize, w0, TagBytes(f, WireType(f.kind)), w1, ValueBytes(f.kind, v), ok, w);
      }
    }

    /** One field: an array, or a value if it is to be written. */
    method EncodeField(f: Field, slot: Slot) returns (ok: bool)
      requires Ok()
      modifies this
      ensures Ok() && (SlotOk(f, slot) ==> After(sizing, maxSize, old(w), SlotBytes(f, slot), ok, w))
      ensures ok && f.rule.Repeated? ==> |slot.many| <= f.rule.max
      decreases slot, 2, 0
    {
      hide After, ValueBytes, ValueOk, TagBytes, PackedBytes, UnpackedBytes, IsDefault;
      if f.rule.Repeated? {
        ok := EncodeArray(f, slot);
      } else if IsWritten(f, slot) {
        ok := EncodeTagged(f, slot, slot.one);
      } else {
        AfterNothing(sizing, maxSize, w);
        ok := true;
      }
    }

    method EncodeMessage(fields: seq<Field>, m: Value) returns (ok: bool)
      requires Ok() && m.Message?
      modifies this
      ensures Ok() && (MessageOk(fields, m) ==> After(sizing, maxSize, old(w), MessageBytes(fields, m), ok, w))
      ensures ok ==> |m.slots| == |fields|
                     && forall i :: 0 <= i < |fields| && fields[i].rule.Repeated? ==>
                           |m.slots[i].many| <= fields[i].rule.max
      decreases m, 0, 0
    {
      if |m.slots| != |fields| {
        return false;
      }
      ghost var good, w0, n := MessageOk(fields, m), w, |fields|;
      hide After, SlotBytes, SlotOk;
      AfterNothing(sizing, maxSize, w);
      for i := 0 to |fields|
        invariant Ok() && (good ==> After(sizing, maxSize, w0, FieldBytes(fields, m, i), true, w))
        invariant forall a :: 0 <= a < i && fields[a].rule.Repeated? ==> |m.slots[a].many| <= fields[a].rule.max
      {
        ghost var w1 := w;
        ok := EncodeField(fields[i], m.slots[i]);
        if good {
          AfterBoth(sizing, maxSize, w0, FieldBytes(fields, m, i), w1, SlotBytes(fields[i], m.slots[i]), ok, w);
        }
        if !ok {
          if good {
            FieldsGrow(fields, m, i + 1, n);
            AfterFailure(sizing, maxSize, w0, FieldBytes(fields, m, i + 1), w, FieldBytes(fields, m, n));
          }
          return;
        }
      }
      return true;
    }
  }

  lemma {:induction false} PackedGrows(k: Kind, slot: Slot, i: nat, j: nat)
    requires i <= j <= |slot.many|
    ensures |PackedBytes(k, slot, i)| <= |PackedBytes(k, slot, j)|
    decreases j
  {
    if i < j {
      PackedGrows(k, slot, i, j - 1);
    }
  }

  lemma UnpackedStep(f: Field, slot: Slot, i: nat)
    requires i < |slot.many|
    ensures UnpackedBytes(f, slot, i + 1) ==
            UnpackedBytes(f, slot, i) + (TagBytes(f, WireType(f.kind)) + ValueBytes(f.kind, slot.many[i]))
  {
  }

  lemma {:induction false} UnpackedGrows(f: Field, slot: Slot, i: nat, j: nat)
    requires i <= j <= |slot.many|
    ensures |UnpackedBytes(f, slot, i)| <= |UnpackedBytes(f, slot, j)|
    decreases j
  {
    if i < j {
      UnpackedGrows(f, slot, i, j - 1);
    }
  }

  lemma {:induction false} FieldsGrow(fields: seq<Field>, m: Value, i: nat, j: nat)
    requires m.Message? && i <= j <= |fields| && j <= |m.slots|
    ensures |FieldBytes(fields, m, i)| <= |FieldBytes(fields, m, j)|
    decreases j
  {
    if i < j {
      FieldsGrow(fields, m, i, j - 1);
    }
  }

  lemma VarintStep(v: nat)
    ensures VarintBytes(v) == if v < 128 then [v as byte] else [(v % 128 + 128) as byte] + VarintBytes(v / 128)
    ensures v / 128 <= v && (v > 0 ==> v / 128 < v) && (v < 128 ==> v % 128 == v && v / 128 == 0)
    ensures (v >= 128 ==> v / 128 > 0)
  {
  }

  lemma {:induction false} PackedFixed(k: Kind, slot: Slot, n: nat)
    requires n <= |slot.many| && (k.Fixed32? || k.Fixed64?)
    requires forall i :: 0 <= i < |slot.many| ==> ValueOk(k, slot.many[i])
    ensures |PackedBytes(k, slot, n)| == (if k.Fixed32? then 4 else 8) * n
    decreases n
  {
    if n > 0 {
      PackedFixed(k, slot, n - 1);
    }
  }
}
