/** Protocol-buffer messages as nanopb stores and writes them (nanopb pb.h, with static allocation):
    descriptors, messages that fit them, and their bytes. */
module PbFormat {
  import opened DbFormat

  const U32: nat := 0x1_0000_0000
  const U64: nat := 0x1_0000_0000_0000_0000

  /** A field's type; numbers stored in 1, 2, 4 or 8 bytes, byte strings up to a capacity. */
  datatype Kind =
    | BoolT
    | Varint(size: nat)
    | UVarint(size: nat)
    | SVarint(size: nat)
    | Fixed32
    | Fixed64
    | BytesT(capacity: nat)
    | StringT(capacity: nat)
    | FixedBytes(length: nat)
    | Sub(fields: seq<Field>)

  /** Singular is a field of proto3, without a has_ flag. */
  datatype Rule = Required | Optional | Singular | Repeated(max: nat) | Oneof(union: nat)

  datatype Field = Field(tag: nat, kind: Kind, rule: Rule)

  datatype Value = Number(n: int) | Blob(b: Bytes) | Message(slots: seq<Slot>)

  /** What a struct holds for one field: whether it is there (the has_ flag, or which_ naming it),
      its value, or the elements of its array. */
  datatype Slot = Slot(present: bool, one: Value, many: seq<Value>)

  // ---------------------------------------------------------------------------------------------
  // Numbers on the wire

  /** pb_encode_varint: seven bits a byte, low ones first. */
  function VarintBytes(v: nat): (b: Bytes)
    ensures |b| > 0
  {
    if v < 128 then [v as byte] else [(v % 128 + 128) as byte] + VarintBytes(v / 128)
  }

  function FixedBytesOf(n: nat, w: nat): (b: Bytes)
    ensures |b| == w
  {
    if w == 0 then [] else [(n % 256) as byte] + FixedBytesOf(n / 256, w - 1)
  }

  /** A number cast to 64 bits. */
  function Bits(n: int): nat {
    n % U64
  }

  function Zigzag(n: int): nat {
    if n < 0 then -2 * n - 1 else 2 * n
  }

  function Half(size: nat): nat {
    match size
    case 1 => 0x80
    case 2 => 0x8000
    case 4 => 0x8000_0000
    case _ => 0x8000_0000_0000_0000
  }

  predicate SizeOk(size: nat) {
    size == 1 || size == 2 || size == 4 || size == 8
  }

  // ---------------------------------------------------------------------------------------------
  // Messages that fit a descriptor

  predicate Packable(k: Kind) {
    k.BoolT? || k.Varint? || k.UVarint? || k.SVarint? || k.Fixed32? || k.Fixed64?
  }

  function WireType(k: Kind): nat {
    match k
    case Fixed32 => 5
    case Fixed64 => 1
    case BytesT(_) => 2
    case StringT(_) => 2
    case FixedBytes(_) => 2
    case Sub(_) => 2
    case _ => 0
  }

  /** A number that a field of the kind can hold. */
  predicate NumberOk(k: Kind, n: int) {
    match k
    case BoolT => n == 0 || n == 1
    case Varint(size) => SizeOk(size) && n + Half(size) >= 0 && n < Half(size)
    case UVarint(size) => SizeOk(size) && 0 <= n < 2 * Half(size)
    case SVarint(size) => SizeOk(size) && n + Half(size) >= 0 && n < Half(size)
    case Fixed32 => 0 <= n < U32
    case Fixed64 => 0 <= n < U64
    case _ => false
  }

  predicate BlobOk(k: Kind, b: Bytes) {
    match k
    case BytesT(capacity) => |b| <= capacity
    case StringT(capacity) => |b| < capacity && forall i :: 0 <= i < |b| ==> b[i] != 0
    case FixedBytes(length) => |b| == length
    case _ => false
  }

  // ---------------------------------------------------------------------------------------------
  // The bytes of a message

  function NumberBytes(k: Kind, n: int): Bytes {
    match k
    case BoolT => VarintBytes(if n == 0 then 0 else 1)
    case SVarint(_) => VarintBytes(Zigzag(n))
    case Fixed32 => FixedBytesOf(Bits(n), 4)
    case Fixed64 => FixedBytesOf(Bits(n), 8)
    case _ => VarintBytes(Bits(n))
  }

  function Delimited(b: Bytes): Bytes {
    VarintBytes(|b|) + b
  }

  /** What comes behind a tag, for each of the four wire types there are. */
  predicate RawOk(wire: nat, raw: Bytes) {
    match wire
    case 0 => |raw| > 0 && raw[|raw| - 1] < 128 && forall i :: 0 <= i < |raw| - 1 ==> raw[i] >= 128
    case 1 => |raw| == 8
    case 2 => |raw| < U32
    case 5 => |raw| == 4
    case _ => false
  }

  function RawBytes(wire: nat, raw: Bytes): Bytes {
    if wire == 2 then Delimited(raw) else raw
  }

  function TagBytes(f: Field, wire: nat): Bytes {
    VarintBytes(f.tag * 8 + wire)
  }

  function ValueBytes(k: Kind, v: Value): Bytes
    decreases v, 1, 0
  {
    match v
    case Number(n) => NumberBytes(k, n)
    case Blob(b) => Delimited(b)
    case Message(_) => if k.Sub? then Delimited(MessageBytes(k.fields, v)) else []
  }

  /** The first n elements of an array, one after the other. */
  function PackedBytes(k: Kind, slot: Slot, n: nat): Bytes
    requires n <= |slot.many|
    decreases slot, 0, n
  {
    if n == 0 then [] else PackedBytes(k, slot, n - 1) + ValueBytes(k, slot.many[n - 1])
  }

  /** The first n elements, each behind a tag of its own. */
  function UnpackedBytes(f: Field, slot: Slot, n: nat): Bytes
    requires n <= |slot.many|
    decreases slot, 0, n
  {
    if n == 0 then []
    else UnpackedBytes(f, slot, n - 1) + TagBytes(f, WireType(f.kind)) + ValueBytes(f.kind, slot.many[n - 1])
  }

  /** pb_check_proto3_default_value. */
  predicate IsDefault(k: Kind, v: Value)
    decreases v, 1, 0
  {
    match v
    case Number(n) => n == 0
    case Blob(b) => b == []
    case Message(slots) => k.Sub? && forall i :: 0 <= i < |slots| && i < |k.fields| ==>
        SlotIsDefault(k.fields[i], slots[i])
  }

  predicate SlotIsDefault(f: Field, slot: Slot)
    decreases slot, 1, 0
  {
    match f.rule
    case Required => false
    case Optional => !slot.present
    case Oneof(_) => !slot.present
    case Repeated(_) => slot.many == []
    case Singular => IsDefault(f.kind, slot.one)
  }

  /** Whether a field that is no array is written. */
  predicate IsWritten(f: Field, slot: Slot) {
    match f.rule
    case Required => true
    case Singular => !IsDefault(f.kind, slot.one)
    case _ => slot.present
  }

  function SlotBytes(f: Field, slot: Slot): Bytes
    decreases slot, 1, 0
  {
    if f.rule.Repeated? then
      if slot.many == [] then []
      else if Packable(f.kind) then TagBytes(f, 2) + Delimited(PackedBytes(f.kind, slot, |slot.many|))
      else UnpackedBytes(f, slot, |slot.many|)
    else if IsWritten(f, slot) then TagBytes(f, WireType(f.kind)) + ValueBytes(f.kind, slot.one)
    else []
  }

  function FieldBytes(fields: seq<Field>, m: Value, n: nat): Bytes
    requires m.Message? && n <= |fields| && n <= |m.slots|
    decreases m, 0, n
  {
    if n == 0 then [] else FieldBytes(fields, m, n - 1) + SlotBytes(fields[n - 1], m.slots[n - 1])
  }

  function MessageBytes(fields: seq<Field>, m: Value): Bytes
    requires m.Message?
    decreases m, 0, |fields| + 1
  {
    FieldBytes(fields, m, if |fields| <= |m.slots| then |fields| else |m.slots|)
  }

  // ---------------------------------------------------------------------------------------------
  // Messages that fit a descriptor

  /** Fields have tags of their own that fit in 29 bits, and so have those of nested messages. */
  predicate DescriptorOk(k: Kind)
    requires k.Sub?
    decreases k
  {
    && (forall i :: 0 <= i < |k.fields| ==> 0 < k.fields[i].tag < 0x2000_0000)
    && (forall i, j :: 0 <= i < j < |k.fields| ==> k.fields[i].tag != k.fields[j].tag)
    && forall i :: 0 <= i < |k.fields| && k.fields[i].kind.Sub? ==> DescriptorOk(k.fields[i].kind)
  }

  ghost predicate ValueOk(k: Kind, v: Value)
    decreases v, 1
  {
    match v
    case Number(n) => NumberOk(k, n)
    case Blob(b) => BlobOk(k, b) && |b| < U32
    case Message(_) => k.Sub? && MessageOk(k.fields, v) && |MessageBytes(k.fields, v)| < U32
  }

  ghost predicate SlotOk(f: Field, slot: Slot)
    decreases slot, 1
  {
    match f.rule
    case Repeated(max) =>
      && |slot.many| <= max && (forall i :: 0 <= i < |slot.many| ==> ValueOk(f.kind, slot.many[i]))
      && (Packable(f.kind) ==> |PackedBytes(f.kind, slot, |slot.many|)| < U32)
    case Optional => slot.present ==> ValueOk(f.kind, slot.one)
    case Oneof(_) => slot.present ==> ValueOk(f.kind, slot.one)
    case _ => ValueOk(f.kind, slot.one)
  }

  /** Every field holds a value of its kind, arrays are within their bounds, and of the fields of a
      union at most one is there. */
  ghost predicate MessageOk(fields: seq<Field>, m: Value)
    requires m.Message?
    decreases m, 0
  {
    && |m.slots| == |fields|
    && (forall i :: 0 <= i < |fields| ==> SlotOk(fields[i], m.slots[i]))
    && forall i, j :: 0 <= i < j < |fields| && SameUnion(fields[i], fields[j]) ==>
          !(m.slots[i].present && m.slots[j].present)
  }

  predicate SameUnion(f: Field, g: Field) {
    f.rule.Oneof? && g.rule.Oneof? && f.rule.union == g.rule.union
  }

  // ---------------------------------------------------------------------------------------------
  // The same message, up to what absent fields hold

  ghost predicate SameValue(k: Kind, v: Value, w: Value)
    decreases v, 1
  {
    match v
    case Number(_) => w == v
    case Blob(_) => w == v
    case Message(_) => k.Sub? && w.Message? && SameMessage(k.fields, v, w)
  }

  ghost predicate SameSlot(f: Field, s: Slot, t: Slot)
    decreases s, 1
  {
    match f.rule
    case Repeated(_) => |t.many| == |s.many| && forall i :: 0 <= i < |s.many| ==>
        SameValue(f.kind, s.many[i], t.many[i])
    case Optional => t.present == s.present && (s.present ==> SameValue(f.kind, s.one, t.one))
    case Oneof(_) => t.present == s.present && (s.present ==> SameValue(f.kind, s.one, t.one))
    case _ => SameValue(f.kind, s.one, t.one)
  }

  ghost predicate SameMessage(fields: seq<Field>, m: Value, w: Value)
    requires m.Message? && w.Message?
    decreases m, 0
  {
    |m.slots| == |w.slots| == |fields| && forall i :: 0 <= i < |fields| ==> SameSlot(fields[i], m.slots[i], w.slots[i])
  }

  // ---------------------------------------------------------------------------------------------
  // Defaults

  /** pb_message_set_to_defaults: zeros, nothing there, empty arrays. */
  function ZeroValue(k: Kind): Value
    decreases k
  {
    match k
    case BytesT(_) => Blob([])
    case StringT(_) => Blob([])
    case FixedBytes(length) => Blob(seq(length, _ => 0))
    case Sub(fields) =>
      Message(seq(|fields|, i requires 0 <= i < |fields| => Slot(false, ZeroValue(fields[i].kind), [])))
    case _ => Number(0)
  }

  function ZeroSlot(f: Field): Slot {
    Slot(false, ZeroValue(f.kind), [])
  }

  // ---------------------------------------------------------------------------------------------
  // What a struct can hold at all

  /** The value is within its storage, and so is what nested messages hold, there or not. */
  ghost predicate Fits(k: Kind, v: Value)
    decreases v, 1
  {
    match v
    case Number(n) => v == ZeroValue(k) || NumberOk(k, n)
    case Blob(b) => v == ZeroValue(k) || BlobOk(k, b)
    case Message(slots) =>
      && k.Sub? && |slots| == |k.fields|
      && (forall i :: 0 <= i < |slots| ==> SlotFits(k.fields[i], slots[i]))
      && forall i, j :: 0 <= i < j < |slots| && SameUnion(k.fields[i], k.fields[j]) ==>
            !(slots[i].present && slots[j].present)
  }

  ghost predicate SlotFits(f: Field, slot: Slot)
    decreases slot, 1
  {
    && Fits(f.kind, slot.one) && (f.rule.Repeated? ==> |slot.many| <= f.rule.max)
    && forall j :: 0 <= j < |slot.many| ==> Fits(f.kind, slot.many[j])
  }

  lemma {:induction false} ZeroFits(k: Kind)
    ensures Fits(k, ZeroValue(k))
    decreases k
  {
    if k.Sub? {
      forall i | 0 <= i < |k.fields| ensures Fits(k.fields[i].kind, ZeroValue(k.fields[i].kind)) {
        ZeroFits(k.fields[i].kind);
      }
    }
  }
}
