/** What is written reads back, and reads back to what writes the same (nanopb). */
module PbRoundTrip {
  import opened DbFormat
  import opened PbFormat
  import opened PbEncode
  import opened PbDecode
  import opened PbMessage

  /** pb_get_encoded_size, pb_encode into a buffer, and pb_decode of what it holds then. */
  method EncodeAndDecode(k: Kind, m: Value, maxSize: nat)
    returns (size: nat, written: bool, out: Bytes, read: bool, r: Value, left: nat)
    requires k.Sub? && m.Message?
    ensures MessageOk(k.fields, m) && DescriptorOk(k) ==>
              && size == |MessageBytes(k.fields, m)| && (written <==> size <= maxSize)
              && (written ==>
                    && out == MessageBytes(k.fields, m) && read && left == 0
                    && r.Message? && SameMessage(k.fields, m, r) && out == MessageBytes(k.fields, r))
  {
    hide MessageOk, MessageBytes, SameMessage, DescriptorOk, WholeWeave, WovenMessage;
    ghost var w := [];
    if MessageOk(k.fields, m) && DescriptorOk(k) {
      w := PlainMessage(k, m);
    }
    var counter := new OStream(true, 0, []);
    var counted := counter.EncodeMessage(k.fields, m);
    size := counter.w.count;
    var output := new OStream(false, maxSize, []);
    written := output.EncodeMessage(k.fields, m);
    out := output.w.out;
    var input := new IStream(out, 0, |out|);
    ZeroFits(k);
    read, r := DecodeMessage(input, k, ZeroValue(k), m, w);
    left := input.left;
    if MessageOk(k.fields, m) && DescriptorOk(k) && written {
      SameMessageBytes(k, m, r);
    }
  }

  // ---------------------------------------------------------------------------------------------
  // The same message is written the same

  lemma {:induction false} SameIsWrittenTheSame(k: Kind, v: Value, w: Value)
    requires SameValue(k, v, w)
    ensures ValueBytes(k, v) == ValueBytes(k, w) && (IsDefault(k, v) <==> IsDefault(k, w))
    decreases v, 2
  {
    if v.Message? {
      SameMessageBytes(k, v, w);
    }
  }

  lemma {:induction false} SameMessageBytes(k: Kind, v: Value, w: Value)
    requires k.Sub? && v.Message? && w.Message? && SameMessage(k.fields, v, w)
    ensures MessageBytes(k.fields, v) == MessageBytes(k.fields, w) && (IsDefault(k, v) <==> IsDefault(k, w))
    decreases v, 1
  {
    hide SlotBytes, SlotIsDefault, SameSlot;
    forall i | 0 <= i < |v.slots|
      ensures SlotBytes(k.fields[i], v.slots[i]) == SlotBytes(k.fields[i], w.slots[i])
      ensures SlotIsDefault(k.fields[i], v.slots[i]) <==> SlotIsDefault(k.fields[i], w.slots[i])
    {
      SameSlotBytes(k.fields[i], v.slots[i], w.slots[i]);
    }
    SameFieldBytes(k.fields, v, w, |k.fields|);
  }

  lemma {:induction false} SameFieldBytes(fields: seq<Field>, v: Value, w: Value, n: nat)
    requires v.Message? && w.Message? && n <= |fields| == |v.slots| == |w.slots|
    requires forall i :: 0 <= i < n ==> SlotBytes(fields[i], v.slots[i]) == SlotBytes(fields[i], w.slots[i])
    ensures FieldBytes(fields, v, n) == FieldBytes(fields, w, n)
  {
    if n > 0 {
      SameFieldBytes(fields, v, w, n - 1);
    }
  }

  lemma {:induction false} SameSlotBytes(f: Field, s: Slot, t: Slot)
    requires SameSlot(f, s, t)
    ensures SlotBytes(f, s) == SlotBytes(f, t) && (SlotIsDefault(f, s) <==> SlotIsDefault(f, t))
    decreases s, 1
  {
    hide ValueBytes, TagBytes, IsDefault, VarintBytes, SameValue;
    match f.rule
    case Repeated(_) =>
      forall j | 0 <= j < |s.many| ensures ValueBytes(f.kind, s.many[j]) == ValueBytes(f.kind, t.many[j]) {
        SameIsWrittenTheSame(f.kind, s.many[j], t.many[j]);
      }
      SameArrayBytes(f, s, t, |s.many|);
    case Optional =>
      if s.present { SameIsWrittenTheSame(f.kind, s.one, t.one); }
    case Oneof(_) =>
      if s.present { SameIsWrittenTheSame(f.kind, s.one, t.one); }
    case _ => SameIsWrittenTheSame(f.kind, s.one, t.one);
  }

  lemma {:induction false} SameArrayBytes(f: Field, s: Slot, t: Slot, n: nat)
    requires n <= |s.many| == |t.many|
    requires forall j :: 0 <= j < n ==> ValueBytes(f.kind, s.many[j]) == ValueBytes(f.kind, t.many[j])
    ensures PackedBytes(f.kind, s, n) == PackedBytes(f.kind, t, n) && UnpackedBytes(f, s, n) == UnpackedBytes(f, t, n)
    decreases n
  {
    hide ValueBytes, TagBytes;
    if n > 0 {
      SameArrayBytes(f, s, t, n - 1);
    }
  }
}
