/** Reading whole messages back (nanopb pb_decode.c and pb_common.c). */
module PbMessage {
  import opened DbFormat
  import opened PbFormat
  import opened PbDecode
  import opened PbParts

  // ---------------------------------------------------------------------------------------------
  // The iterator over a descriptor, which wraps around

  function CountRequired(fields: seq<Field>, n: nat): nat
    requires n <= |fields|
  {
    if n == 0 then 0 else CountRequired(fields, n - 1) + (if fields[n - 1].rule.Required? then 1 else 0)
  }

  const MAX_REQUIRED: nat := 64

  /** The first 64 required fields are kept track of: of those before field n, all have been seen. */
  ghost predicate SeenBefore(fields: seq<Field>, seen: seq<bool>, n: nat)
    requires n <= |fields| && |seen| == MAX_REQUIRED
  {
    forall a :: 0 <= a < n && fields[a].rule.Required? && CountRequired(fields, a) < MAX_REQUIRED ==>
      seen[CountRequired(fields, a)]
  }

  /** The field it stands at, and how many required ones come before; a message without fields has
      nothing to stand at. */
  class FieldIter {
    const fields: seq<Field>
    var at: nat
    var required: nat

    ghost predicate Valid()
      reads this
    {
      fields != [] ==> at < |fields| && required == CountRequired(fields, at)
    }

    constructor (fields: seq<Field>)
      ensures Valid() && this.fields == fields && at == 0
    {
      this.fields, at, required := fields, 0, 0;
    }

    /** pb_field_iter_next: false if it has wrapped around. */
    method Next() returns (more: bool)
      requires Valid()
      modifies this
      ensures Valid() && more == (old(at) + 1 < |fields|)
      ensures fields != [] ==> at == if more then old(at) + 1 else 0
    {
      if fields == [] {
        return false;
      }
      if at + 1 >= |fields| {
        at, required := 0, 0;
        return false;
      }
      required := required + (if fields[at].rule.Required? then 1 else 0);
      at := at + 1;
      return true;
    }

    /** pb_field_iter_find: from where it stands to the end and then from the start. */
    method Find(tag: nat) returns (found: bool)
      requires Valid()
      modifies this
      ensures Valid()
      ensures found ==> at < |fields| && fields[at].tag == tag
      ensures !found ==> at == old(at) && forall i :: 0 <= i < |fields| ==> fields[i].tag != tag
    {
      if fields == [] {
        return false;
      }
      var start, wrapped := at, false;
      while true
        invariant Valid() && (wrapped <==> at < start)
        invariant forall i :: (if wrapped then 0 <= i < at || start <= i < |fields| else start <= i < at) ==>
                  fields[i].tag != tag
        decreases !wrapped, |fields| - at
      {
        if fields[at].tag == tag {
          return true;
        }
        var more := Next();
        if at == start {
          return false;
        }
        if !more {
          wrapped := true;
        }
      }
    }

    /** How many required fields there are, walked to from where the iterator stands. */
    method RequiredFields() returns (n: nat)
      requires Valid()
      modifies this
      ensures Valid() && n == CountRequired(fields, |fields|)
    {
      if fields == [] {
        return 0;
      }
      var more, lastRequired := true, false;
      n := 0;
      while more
        invariant Valid()
        invariant !more ==>
                  n == CountRequired(fields, |fields| - 1) && lastRequired == fields[|fields| - 1].rule.Required?
        decreases more, |fields| - at
      {
        n, lastRequired := required, fields[at].rule.Required?;
        more := Next();
      }
      if lastRequired {
        n := n + 1;
      }
    }

    /** Whether all required fields have been seen; no more than 64 are looked after. */
    method AllSeen(seen: seq<bool>) returns (ok: bool)
      requires Valid() && |seen| == MAX_REQUIRED
      modifies this
      ensures ok <==> SeenBefore(fields, seen, |fields|)
    {
      var count := RequiredFields();
      if count > MAX_REQUIRED {
        count := MAX_REQUIRED;
      }
      for b := 0 to count
        invariant forall c :: 0 <= c < b ==> seen[c]
      {
        if !seen[b] {
          ghost var a := NthRequired(fields, |fields|, b);
          return false;
        }
      }
      forall a | 0 <= a < |fields| && fields[a].rule.Required? && CountRequired(fields, a) < MAX_REQUIRED
        ensures CountRequired(fields, a) < count
      {
        RequiredGrow(fields, a + 1, |fields|);
      }
      return true;
    }
  }

  lemma {:induction false} RequiredGrow(fields: seq<Field>, a: nat, b: nat)
    requires a <= b <= |fields|
    ensures CountRequired(fields, a) <= CountRequired(fields, b)
    decreases b
  {
    if a < b {
      RequiredGrow(fields, a, b - 1);
    }
  }

  lemma {:induction false} NthRequired(fields: seq<Field>, n: nat, c: nat) returns (a: nat)
    requires n <= |fields| && c < CountRequired(fields, n)
    ensures a < n && fields[a].rule.Required? && CountRequired(fields, a) == c
    decreases n
  {
    if fields[n - 1].rule.Required? && CountRequired(fields, n - 1) == c {
      a := n - 1;
    } else {
      a := NthRequired(fields, n - 1, c);
    }
  }

  // ---------------------------------------------------------------------------------------------
  // Byte strings

  /** A string in memory ends at its first zero. */
  function CString(b: Bytes): (r: Bytes)
    ensures |r| <= |b| && forall i :: 0 <= i < |r| ==> r[i] != 0
  {
    if b == [] || b[0] == 0 then [] else [b[0]] + CString(b[1..])
  }

  lemma {:induction false} CStringOf(b: Bytes)
    requires forall i :: 0 <= i < |b| ==> b[i] != 0
    ensures CString(b) == b
  {
    if b != [] {
      CStringOf(b[1..]);
      assert b == [b[0]] + b[1..];
    }
  }

  method DecodeBlob(s: IStream, k: Kind, ghost b: Bytes) returns (ok: bool, r: Bytes)
    requires s.Valid()
    modifies s
    ensures s.Valid() && s.pos >= old(s.pos) && s.pos + s.left == old(s.pos + s.left) && (ok ==> s.left < old(s.left))
    ensures ok ==> BlobOk(k, r)
    ensures BlobOk(k, b) && |b| < U32 && old(s.At(Delimited(b))) ==>
              ok && r == b && s.pos == old(s.pos) + |Delimited(b)|
    ensures |b| < U32 && old(s.At(Delimited(b))) ==>
              (k.BytesT? ==> (ok <==> |b| <= k.capacity)) && (k.StringT? ==> (ok <==> |b| < k.capacity))
  {
    ghost var good := |b| < U32 && s.At(Delimited(b));
    if good {
      HoldsBoth(s.data, s.pos, s.left, VarintBytes(|b|), b);
    }
    hide VarintBytes;
    var size, eof;
    ok, size, eof := s.DecodeVarint32(|b|);
    r := [];
    if !ok {
      return;
    }
    match k
    case BytesT(capacity) =>
      if size > capacity {
        return false, [];
      }
      ok, r := s.Read(size);
    case StringT(capacity) =>
      if size + 1 > capacity {
        return false, [];
      }
      ok, r := s.Read(size);
      if good && BlobOk(k, b) {
        CStringOf(b);
      }
      r := CString(r);
    case FixedBytes(length) =>
      if size == 0 {
        return true, seq(length, _ => 0);
      }
      if size != length {
        return false, [];
      }
      ok, r := s.Read(length);
    case _ => ok := false;
  }

  // ---------------------------------------------------------------------------------------------
  // Fields

  /** The decoder of a field's kind.  A nested message goes on from what is there. */
  method DecodeValue(s: IStream, k: Kind, dest: Value, ghost v: Value) returns (ok: bool, r: Value)
    requires s.Valid() && Fits(k, dest)
    modifies s
    ensures s.Valid() && s.pos >= old(s.pos) && s.pos + s.left <= old(s.pos + s.left)
    ensures ok ==> s.pos + s.left == old(s.pos + s.left) && s.left < old(s.left) && Fits(k, r)
    ensures ValueOk(k, v) && KindOk(k) && old(s.At(ValueBytes(k, v))) && (k.Sub? ==> dest == ZeroValue(k)) ==>
              ok && SameValue(k, v, r) && s.pos == old(s.pos) + |ValueBytes(k, v)|
    decreases k, 5
  {
    hide NumberBytes, VarintBytes, Holds, ZeroValue, MessageOk, MessageBytes, SameMessage, DescriptorOk, Half;
    r := dest;
    if k.Sub? {
      ok, r := DecodeSubmessage(s, k, dest, v);
    } else if k.BytesT? || k.StringT? || k.FixedBytes? {
      var b;
      ok, b := DecodeBlob(s, k, if v.Blob? then v.b else []);
      r := Blob(b);
    } else {
      var n;
      ok, n := s.DecodeNumber(k, if v.Number? then v.n else 0);
      r := Number(n);
    }
  }

  ghost predicate KindOk(k: Kind) {
    k.Sub? ==> DescriptorOk(k)
  }

  method DecodeSubmessage(s: IStream, k: Kind, dest: Value, ghost v: Value) returns (ok: bool, r: Value)
    requires s.Valid() && k.Sub? && Fits(k, dest)
    modifies s
    ensures s.Valid() && s.pos >= old(s.pos) && s.pos + s.left <= old(s.pos + s.left)
    ensures ok ==> s.pos + s.left == old(s.pos + s.left) && s.left < old(s.left) && Fits(k, r)
    ensures ValueOk(k, v) && DescriptorOk(k) && old(s.At(ValueBytes(k, v))) && dest == ZeroValue(k) ==>
              ok && SameValue(k, v, r) && s.pos == old(s.pos) + |ValueBytes(k, v)|
    decreases k, 4
  {
    hide MessageBytes, VarintBytes, MessageOk, SameMessage, Holds, ZeroValue, DescriptorOk, WholeWeave, WovenMessage;
    ghost var good := ValueOk(k, v) && DescriptorOk(k) && s.At(ValueBytes(k, v)) && dest == ZeroValue(k);
    ghost var m := if v.Message? then v else Message([]);
    ghost var b, w := [], [];
    if good {
      w := PlainMessage(k, m);
      b := MessageBytes(k.fields, m);
    }
    r := dest;
    var sub;
    ok, sub := s.MakeSubstream(b);
    if !ok {
      return;
    }
    ok, r := DecodeMessage(sub, k, dest, m, w);
    s.CloseSubstream(sub);
  }

  /** The first elements of an array have been read. */
  ghost predicate SameElements(k: Kind, s: Slot, many: seq<Value>) {
    |many| <= |s.many| && forall a :: 0 <= a < |many| ==> SameValue(k, s.many[a], many[a])
  }

  /** A packed array; it ends with its part of the stream, or when it is full, and then nothing may be left. */
  method DecodePacked(s: IStream, f: Field, slot: Slot, ghost good: bool, ghost s0: Slot) returns (ok: bool, t: Slot)
    requires s.Valid() && f.rule.Repeated? && Packable(f.kind) && SlotFits(f, slot)
    requires good ==> SlotOk(f, s0) && slot.many == [] && s.At(Delimited(PackedBytes(f.kind, s0, |s0.many|)))
    modifies s
    ensures s.Valid() && s.pos >= old(s.pos) && s.pos + s.left <= old(s.pos + s.left)
    ensures ok ==> s.pos + s.left == old(s.pos + s.left) && s.left < old(s.left)
    ensures ok ==> SlotFits(f, t) && t.present == slot.present
    ensures good ==> ok && SameElements(f.kind, s0, t.many) && |t.many| == |s0.many|
                     && s.pos == old(s.pos) + |Delimited(PackedBytes(f.kind, s0, |s0.many|))|
    decreases f.kind, 7
  {
    hide ValueBytes, PackedBytes, Holds, VarintBytes, Fits, ZeroValue, ValueOk, SameValue;
    t := slot;
    ghost var b := if good then PackedBytes(f.kind, s0, |s0.many|) else [];
    if good {
      AllItems(f.kind, s0);
    }
    var sub, status;
    ok, sub := s.MakeSubstream(b);
    if !ok {
      return;
    }
    var many;
    status, many := DecodeItems(sub, f, slot.many, good, s0);
    t := slot.(many := many);
    if sub.left != 0 {
      return false, t;
    }
    s.CloseSubstream(sub);
    ok := status;
  }

  method DecodeItems(sub: IStream, f: Field, many0: seq<Value>, ghost good: bool, ghost s0: Slot)
    returns (status: bool, many: seq<Value>)
    requires sub.Valid() && f.rule.Repeated? && Packable(f.kind)
    requires |many0| <= f.rule.max && forall a :: 0 <= a < |many0| ==> Fits(f.kind, many0[a])
    requires good ==> SlotOk(f, s0) && many0 == [] && sub.At(Items(f.kind, s0, 0)) && sub.left == |Items(f.kind, s0, 0)|
    modifies sub
    ensures sub.Valid() && sub.pos >= old(sub.pos) && sub.pos + sub.left <= old(sub.pos + sub.left)
    ensures status ==> sub.pos + sub.left == old(sub.pos + sub.left)
    ensures |many| <= f.rule.max && forall a :: 0 <= a < |many| ==> Fits(f.kind, many[a])
    ensures good ==> status && sub.left == 0 && SameElements(f.kind, s0, many) && |many| == |s0.many|
    decreases f.kind, 6
  {
    hide ValueBytes, Holds, Fits, ZeroValue, ValueOk, SameValue, PackedBytes, Items;
    many := many0;
    ZeroFits(f.kind);
    while sub.left > 0 && |many| < f.rule.max
      invariant sub.Valid() && sub.pos >= old(sub.pos) && sub.pos + sub.left == old(sub.pos + sub.left)
      invariant |many| <= f.rule.max && forall a :: 0 <= a < |many| ==> Fits(f.kind, many[a])
      invariant good ==> SameElements(f.kind, s0, many)
      invariant good ==> sub.At(Items(f.kind, s0, |many|)) && sub.left == |Items(f.kind, s0, |many|)|
      decreases f.rule.max - |many|
    {
      ghost var v := Number(0);
      if good {
        v := NextItem(f.kind, s0, |many|);
        HoldsBoth(sub.data, sub.pos, sub.left, ValueBytes(f.kind, v), Items(f.kind, s0, |many| + 1));
      }
      var r;
      status, r := DecodeValue(sub, f.kind, ZeroValue(f.kind), v);
      if !status {
        return;
      }
      many := many + [r];
    }
    if good {
      LastItem(f.kind, s0, |many|);
    }
    status := true;
  }

  /** With bytes left, there is another element. */
  lemma NextItem(k: Kind, s0: Slot, n: nat) returns (v: Value)
    requires n <= |s0.many| && |Items(k, s0, n)| > 0
    ensures n < |s0.many| && v == s0.many[n] && Items(k, s0, n) == ValueBytes(k, v) + Items(k, s0, n + 1)
  {
    v := s0.many[n];
  }

  lemma LastItem(k: Kind, s0: Slot, n: nat)
    requires n <= |s0.many| && Packable(k) && forall a :: 0 <= a < |s0.many| ==> ValueOk(k, s0.many[a])
    ensures |Items(k, s0, n)| == 0 <==> n == |s0.many|
  {
    if n < |s0.many| {
      ItemsAreNotEmpty(k, s0, n);
    }
  }

  /** An element of an array behind a tag of its own. */
  method DecodeElement(s: IStream, f: Field, slot: Slot, ghost good: bool, ghost s0: Slot) returns (ok: bool, t: Slot)
    requires s.Valid() && f.rule.Repeated? && SlotFits(f, slot)
    requires good ==> SlotOk(f, s0) && KindOk(f.kind) && SameElements(f.kind, s0, slot.many)
    requires good ==> |slot.many| < |s0.many| && s.At(ValueBytes(f.kind, s0.many[|slot.many|]))
    modifies s
    ensures s.Valid() && s.pos >= old(s.pos) && s.pos + s.left <= old(s.pos + s.left)
    ensures ok ==> s.pos + s.left == old(s.pos + s.left) && s.left < old(s.left) && SlotFits(f, t)
    ensures good ==> ok && SameElements(f.kind, s0, t.many) && |t.many| == |slot.many| + 1 && t.present == slot.present
                     && s.pos == old(s.pos) + |ValueBytes(f.kind, s0.many[|slot.many|])|
    decreases f.kind, 7
  {
    hide ValueBytes, Holds, Fits, ZeroValue, ValueOk, SameValue, KindOk;
    t := slot;
    if |slot.many| >= f.rule.max {
      return false, t;
    }
    ZeroFits(f.kind);
    var r;
    ok, r := DecodeValue(s, f.kind, ZeroValue(f.kind), if good then s0.many[|slot.many|] else Number(0));
    t := slot.(many := slot.many + [r]);
  }

  /** A field that is no array.  A nested message of a union that held something else starts from defaults. */
  method DecodeSingle(s: IStream, f: Field, slot: Slot, ghost good: bool, ghost s0: Slot) returns (ok: bool, t: Slot)
    requires s.Valid() && !f.rule.Repeated? && SlotFits(f, slot)
    requires good ==> SlotOk(f, s0) && KindOk(f.kind) && IsWritten(f, s0) && s.At(ValueBytes(f.kind, s0.one))
    requires good && f.kind.Sub? ==> slot == ZeroSlot(f)
    modifies s
    ensures s.Valid() && s.pos >= old(s.pos) && s.pos + s.left <= old(s.pos + s.left)
    ensures ok ==> s.pos + s.left == old(s.pos + s.left) && s.left < old(s.left) && SlotFits(f, t)
    ensures good ==> ok && SameSlot(f, s0, t) && s.pos == old(s.pos) + |ValueBytes(f.kind, s0.one)|
    decreases f.kind, 7
  {
    hide ValueBytes, Holds, Fits, ZeroValue, ValueOk, SameValue, KindOk, IsDefault;
    t := slot;
    if f.rule.Oneof? && f.kind.Sub? && !slot.present {
      ZeroFits(f.kind);
      t := t.(one := ZeroValue(f.kind));
    }
    if f.rule.Oneof? || f.rule.Optional? {
      t := t.(present := true);
    }
    var r;
    ok, r := DecodeValue(s, f.kind, t.one, s0.one);
    t := t.(one := r);
  }

  /** decode_static_field, for the slot of the field. */
  method DecodeSlot(s: IStream, f: Field, wire: nat, slot: Slot, ghost good: bool, ghost s0: Slot, ghost j: nat)
    returns (ok: bool, t: Slot)
    requires s.Valid() && SlotFits(f, slot)
    requires good ==> SlotOk(f, s0) && KindOk(f.kind) && GotSlot(f, s0, slot, j) && SlotHead(f, s0, j)
    requires good ==> wire == SlotWire(f) && s.At(SlotPayload(f, s0, j))
    modifies s
    ensures s.Valid() && s.pos >= old(s.pos) && s.pos + s.left <= old(s.pos + s.left)
    ensures ok ==> s.pos + s.left == old(s.pos + s.left) && s.left < old(s.left) && SlotFits(f, t)
    ensures good ==> ok && s.pos == old(s.pos) + |SlotPayload(f, s0, j)|
    ensures good ==> GotPart(f, s0, t, j + 1)
    decreases f.kind, 8
  {
    hide ValueBytes, Holds, SlotFits, ZeroSlot, SlotOk, SameValue, KindOk, Delimited, PackedBytes, IsWritten;
    if f.rule.Repeated? {
      if wire == 2 && Packable(f.kind) {
        ok, t := DecodePacked(s, f, slot, good, s0);
      } else {
        ok, t := DecodeElement(s, f, slot, good, s0);
      }
    } else {
      ok, t := DecodeSingle(s, f, slot, good, s0);
    }
  }

  /** The field at an index, stored among the others. */
  method DecodeField(s: IStream, k: Kind, at: nat, wire: nat, slots: seq<Slot>, ghost good: bool, ghost m: Value,
                     ghost done: seq<nat>, ghost p: Piece)
    returns (ok: bool, slots': seq<Slot>)
    requires s.Valid() && k.Sub? && at < |k.fields| && Fits(k, Message(slots))
    requires good ==>
              DoneOk(k.fields, m, done) && MessageOk(k.fields, m) && DescriptorOk(k) && Got(k.fields, m, slots, done)
    requires good ==> !p.Other? && PieceOk(k.fields, m, done, p) && at == p.at && wire == SlotWire(k.fields[at])
                      && s.At(SlotPayload(k.fields[at], PieceSlot(m, p), PiecePart(done, p)))
    modifies s
    ensures s.Valid() && s.pos >= old(s.pos) && s.pos + s.left <= old(s.pos + s.left)
    ensures ok ==> s.pos + s.left == old(s.pos + s.left) && s.left < old(s.left) && Fits(k, Message(slots'))
    ensures good ==> ok && s.pos == old(s.pos) + |SlotPayload(k.fields[at], PieceSlot(m, p), PiecePart(done, p))|
    ensures good ==> Got(k.fields, m, slots', OneMore(done, p))
    decreases k, 0
  {
    hide Holds, SlotFits, SlotOk, SlotHead, SlotWire, SlotPayload, InElements, SameSlot, GotSlot, GotPart, Got, Put;
    hide PieceOk, MessageOk, DescriptorOk, OneMore;
    var f := k.fields[at];
    slots' := slots;
    ghost var s0, j := slots[at], 0;
    if good {
      s0, j := PieceSlot(m, p), PiecePart(done, p);
      PieceIsNext(k, m, slots, done, p);
    }
    var t;
    ok, t := DecodeSlot(s, f, wire, slots[at], good, s0, j);
    if !ok {
      return;
    }
    slots' := Put(k.fields, slots, at, t);
    PutFits(k, slots, at, t);
    if good {
      PutGets(k.fields, m, slots, done, p, t);
    }
  }

  /** A piece of a field meets what reading the field asks for. */
  lemma PieceIsNext(k: Kind, m: Value, slots: seq<Slot>, done: seq<nat>, p: Piece)
    requires k.Sub? && DoneOk(k.fields, m, done) && MessageOk(k.fields, m) && DescriptorOk(k)
    requires Got(k.fields, m, slots, done)
    requires !p.Other? && PieceOk(k.fields, m, done, p)
    ensures var f, s0, j := k.fields[p.at], PieceSlot(m, p), PiecePart(done, p);
            SlotOk(f, s0) && KindOk(f.kind) && SlotHead(f, s0, j) && GotSlot(f, s0, slots[p.at], j)
  {
    if p.Own? {
      OwnIsFirst(k.fields, m, done, p.at);
    }
    hide UnionAhead, SameSlot, Fits;
  }

  /** Of a union with a field to come, no other is to come. */
  lemma OwnIsFirst(fields: seq<Field>, m: Value, done: seq<nat>, a: nat)
    requires DoneOk(fields, m, done) && MessageOk(fields, m) && a < |fields| && SlotHead(fields[a], m.slots[a], done[a])
    ensures !UnionAhead(fields, m, done, a)
  {
    hide SlotOk;
  }

  // ---------------------------------------------------------------------------------------------
  // Messages

  /** What a stream has left: its bytes, where it stands, and how far it goes. */
  datatype Tail = Tail(data: Bytes, pos: nat, left: nat)

  /** What is left is p, and then z. */
  ghost predicate Consists(s: Tail, p: Bytes, z: Bytes) {
    && s.left == |p| + |z| && Holds(s.data, s.pos, s.left, p) && Holds(s.data, s.pos + |p|, |z|, z)
  }

  lemma BehindFirst(s: Tail, t: Bytes, p: Bytes, z: Bytes)
    requires s.left == |t| + (|p| + |z|) && Holds(s.data, s.pos, s.left, t + (p + z))
    ensures Holds(s.data, s.pos, s.left, t) && Consists(Tail(s.data, s.pos + |t|, s.left - |t|), p, z)
  {
    HoldsBoth(s.data, s.pos, s.left, t, p + z);
    HoldsBoth(s.data, s.pos + |t|, s.left - |t|, p, z);
  }

  /** Of each field that must be there, the bit is set once it has been read. */
  ghost predicate SeenDone(fields: seq<Field>, seen: seq<bool>, done: seq<nat>)
    requires |seen| == MAX_REQUIRED && |done| == |fields|
  {
    forall a :: 0 <= a < |fields| && fields[a].rule.Required? && done[a] > 0 ==>
      CountRequired(fields, a) < MAX_REQUIRED ==> seen[CountRequired(fields, a)]
  }

  /** A reader of the message m has done some parts, and what is left are the others, with fields woven in. */
  ghost predicate Reading(k: Kind, m: Value, w: seq<Piece>, slots: seq<Slot>, seen: seq<bool>, s: Tail, done: seq<nat>)
    requires k.Sub? && |seen| == MAX_REQUIRED && DoneOk(k.fields, m, done)
  {
    && MessageOk(k.fields, m) && DescriptorOk(k) && Got(k.fields, m, slots, done) && SeenDone(k.fields, seen, done)
    && WeaveOk(k.fields, m, w, done)
    && var b := Woven(k.fields, m, w, done); Holds(s.data, s.pos, s.left, b) && s.left == |b|
  }

  lemma ReadingStarts(k: Kind, m: Value, w: seq<Piece>, seen: seq<bool>, s: Tail)
    requires k.Sub? && m.Message? && |seen| == MAX_REQUIRED && PartWeave(k, m, w)
    requires Holds(s.data, s.pos, s.left, WovenMessage(k, m, w)) && s.left == |WovenMessage(k, m, w)|
    ensures Reading(k, m, w, ZeroValue(k).slots, seen, s, NoneDone(k.fields))
  {
    hide WeaveOk, Woven, DescriptorOk, SlotOk, SameUnion, Got;
    NothingGot(k.fields, m);
  }

  lemma ReadingEnds(k: Kind, m: Value, w: seq<Piece>, slots: seq<Slot>, seen: seq<bool>, s: Tail, done: seq<nat>)
    requires k.Sub? && |seen| == MAX_REQUIRED && DoneOk(k.fields, m, done)
    requires Reading(k, m, w, slots, seen, s, done) && s.left == 0
    ensures w == []
    ensures AllDone(k.fields, m, done) ==>
              SameMessage(k.fields, m, Message(slots)) && SeenBefore(k.fields, seen, |k.fields|)
  {
    hide Got, SlotHead, MessageOk, SameMessage, SlotWire, SlotPayload, InElements, AllDone;
    assert w == [];
    if AllDone(k.fields, m, done) {
      AllGot(k.fields, m, slots, done);
      forall a | 0 <= a < |k.fields| && k.fields[a].rule.Required? ensures done[a] > 0 {
        RequiredIsDone(k.fields, m, done, a);
      }
    }
  }

  /** A piece of a field of the message is next: its tag, the piece, and the rest. */
  lemma ReadingOwn(k: Kind, m: Value, w: seq<Piece>, slots: seq<Slot>, seen: seq<bool>, s: Tail, done: seq<nat>)
    returns (p: Bytes)
    requires k.Sub? && |seen| == MAX_REQUIRED && DoneOk(k.fields, m, done) && Reading(k, m, w, slots, seen, s, done)
    requires w != [] && !w[0].Other?
    ensures PieceOk(k.fields, m, done, w[0])
    ensures var f := k.fields[w[0].at];
            && 0 < f.tag < 0x2000_0000 && SlotWire(f) < 8 && Holds(s.data, s.pos, s.left, TagBytes(f, SlotWire(f)))
            && p == SlotPayload(f, PieceSlot(m, w[0]), PiecePart(done, w[0]))
    ensures WeaveOk(k.fields, m, w[1..], OneMore(done, w[0]))
    ensures var t := TagBytes(k.fields[w[0].at], SlotWire(k.fields[w[0].at]));
            Consists(Tail(s.data, s.pos + |t|, s.left - |t|), p, Woven(k.fields, m, w[1..], OneMore(done, w[0])))
  {
    hide SlotHead, MessageOk, TagBytes, VarintBytes, SlotPayload, InElements, Got, DescriptorOk, SlotWire, Holds;
    hide OneMore;
    hide PieceSlot, PiecePart, SlotOk, UnionAhead;
    var f := k.fields[w[0].at];
    p := SlotPayload(f, PieceSlot(m, w[0]), PiecePart(done, w[0]));
    TagIsOk(k, w[0].at);
    BehindFirst(s, TagBytes(f, SlotWire(f)), p, Woven(k.fields, m, w[1..], OneMore(done, w[0])));
  }

  /** Some other field is next: its tag, what it holds, and the rest. */
  lemma ReadingOther(k: Kind, m: Value, w: seq<Piece>, slots: seq<Slot>, seen: seq<bool>, s: Tail, done: seq<nat>)
    requires k.Sub? && |seen| == MAX_REQUIRED && DoneOk(k.fields, m, done) && Reading(k, m, w, slots, seen, s, done)
    requires w != [] && w[0].Other?
    ensures OtherOk(k.fields, w[0]) && WeaveOk(k.fields, m, w[1..], done)
    ensures var t := OtherTag(w[0]);
            && Holds(s.data, s.pos, s.left, t)
            && Consists(Tail(s.data, s.pos + |t|, s.left - |t|), RawBytes(w[0].wire, w[0].raw),
                        Woven(k.fields, m, w[1..], done))
  {
    hide MessageOk, Got, DescriptorOk, OtherTag, RawBytes, OtherOk, Holds;
    BehindFirst(s, OtherTag(w[0]), RawBytes(w[0].wire, w[0].raw), Woven(k.fields, m, w[1..], done));
  }

  /** Parts of a message in any order, in which others may be woven, from its start. */
  ghost predicate PartWeave(k: Kind, m: Value, w: seq<Piece>)
    requires k.Sub? && m.Message?
  {
    MessageOk(k.fields, m) && DescriptorOk(k) && WeaveOk(k.fields, m, w, NoneDone(k.fields))
  }

  /** All of its parts. */
  ghost predicate WholeWeave(k: Kind, m: Value, w: seq<Piece>)
    requires k.Sub? && m.Message?
  {
    PartWeave(k, m, w) && AllDone(k.fields, m, DoneAfter(w, NoneDone(k.fields)))
  }

  /** Of the required fields that are kept track of, each has a piece. */
  ghost predicate NoneMissing(fields: seq<Field>, w: seq<Piece>) {
    forall a :: 0 <= a < |fields| && fields[a].rule.Required? && CountRequired(fields, a) < 64 ==>
      exists p :: p in w && !p.Other? && p.at == a
  }

  ghost function WovenMessage(k: Kind, m: Value, w: seq<Piece>): Bytes
    requires k.Sub? && m.Message? && PartWeave(k, m, w)
  {
    Woven(k.fields, m, w, NoneDone(k.fields))
  }

  lemma PlainMessage(k: Kind, m: Value) returns (w: seq<Piece>)
    requires k.Sub? && m.Message? && MessageOk(k.fields, m) && DescriptorOk(k)
    ensures WholeWeave(k, m, w) && WovenMessage(k, m, w) == MessageBytes(k.fields, m)
  {
    hide DescriptorOk, SlotOk, SameUnion;
    w := PlainWeave(k.fields, m, NoneDone(k.fields), 0, 0);
    FieldsThenSuffix(k.fields, m, 0);
  }

  lemma TagIsOk(k: Kind, a: nat)
    requires k.Sub? && DescriptorOk(k) && a < |k.fields|
    ensures 0 < k.fields[a].tag < 0x2000_0000 && SlotWire(k.fields[a]) < 8
  {
  }

  lemma TagIsFound(k: Kind, a: nat, at: nat)
    requires k.Sub? && DescriptorOk(k) && a < |k.fields| && at < |k.fields| && k.fields[at].tag == k.fields[a].tag
    ensures at == a
  {
  }

  /** Marking a required field as seen. */
  function Mark(seen: seq<bool>, f: Field, index: nat): seq<bool> {
    if f.rule.Required? && index < MAX_REQUIRED && index < |seen| then seen[index := true] else seen
  }

  /** The bits of exactly those required fields are set that have come. */
  ghost predicate SeenIs(fields: seq<Field>, seen: seq<bool>, touched: set<nat>)
    requires |seen| == MAX_REQUIRED
  {
    forall a :: 0 <= a < |fields| && fields[a].rule.Required? && CountRequired(fields, a) < MAX_REQUIRED ==>
      (seen[CountRequired(fields, a)] <==> a in touched)
  }

  lemma RequiredApart(fields: seq<Field>, a: nat, b: nat)
    requires a < b < |fields| && fields[a].rule.Required?
    ensures CountRequired(fields, a) < CountRequired(fields, b)
  {
    RequiredGrow(fields, a + 1, b);
  }

  lemma MarkTouches(fields: seq<Field>, seen: seq<bool>, touched: set<nat>, at: nat)
    requires at < |fields| && |seen| == MAX_REQUIRED && SeenIs(fields, seen, touched)
    ensures var r := Mark(seen, fields[at], CountRequired(fields, at));
            |r| == MAX_REQUIRED && SeenIs(fields, r, touched + {at})
  {
    hide CountRequired;
    forall a | 0 <= a < |fields| && fields[a].rule.Required? && fields[at].rule.Required? && a != at
      ensures CountRequired(fields, a) != CountRequired(fields, at)
    {
      if a < at {
        RequiredApart(fields, a, at);
      } else {
        RequiredApart(fields, at, a);
      }
    }
  }

  /** Nothing is missing exactly if all bits are set. */
  lemma SeenIsNoneMissing(fields: seq<Field>, seen: seq<bool>, w: seq<Piece>)
    requires |seen| == MAX_REQUIRED && SeenIs(fields, seen, Touched(w))
    ensures SeenBefore(fields, seen, |fields|) <==> NoneMissing(fields, w)
  {
    assert forall a :: a in Touched(w) <==> exists p :: p in w && !p.Other? && p.at == a;
    hide Touched, CountRequired;
  }

  lemma NothingTouched(fields: seq<Field>)
    ensures SeenIs(fields, NONE_SEEN, {})
  {
  }

  lemma NoneTouched()
    ensures Touched([]) == {}
  {
  }

  lemma TouchedFirst(w: seq<Piece>)
    requires w != []
    ensures Touched(w) == (if w[0].Other? then {} else {w[0].at}) + Touched(w[1..])
  {
    assert w == [w[0]] + w[1..];
  }

  lemma MarkSees(fields: seq<Field>, seen: seq<bool>, done: seq<nat>, p: Piece)
    requires !p.Other? && p.at < |fields| == |done| && |seen| == MAX_REQUIRED && SeenDone(fields, seen, done)
    ensures var r := Mark(seen, fields[p.at], CountRequired(fields, p.at));
            |r| == MAX_REQUIRED && SeenDone(fields, r, OneMore(done, p))
  {
  }

  /** The part behind a tag has been read, and what follows is left. */
  lemma PartIsRead(k: Kind, m: Value, w: seq<Piece>, slots: seq<Slot>, seen: seq<bool>, s: Tail, p: Bytes,
                   done: seq<nat>, t: Tail)
    requires k.Sub? && |seen| == MAX_REQUIRED && DoneOk(k.fields, m, done) && MessageOk(k.fields, m) && DescriptorOk(k)
    requires SeenDone(k.fields, seen, done) && Got(k.fields, m, slots, done)
    requires WeaveOk(k.fields, m, w, done) && Consists(s, p, Woven(k.fields, m, w, done))
    requires t == Tail(s.data, s.pos + |p|, s.left - |p|)
    ensures Reading(k, m, w, slots, seen, t, done)
  {
    hide Got, MessageOk, DescriptorOk, SeenDone, Holds, WeaveOk, Woven;
  }

  ghost function After(s: Tail, t: Bytes): Tail {
    Tail(s.data, s.pos + |t|, if |t| <= s.left then s.left - |t| else 0)
  }

  datatype Step = Went | Ended | Failed

  /** Reads the field whose tag has been read. */
  method DecodeKnown(s: IStream, k: Kind, slots: seq<Slot>, at: nat, wire: nat, required: nat, seen: seq<bool>,
                     ghost own: bool, ghost m: Value, ghost w: seq<Piece>, ghost done: seq<nat>,
                     ghost touched: set<nat>, ghost start: Tail)
    returns (step: Step, slots': seq<Slot>, seen': seq<bool>, ghost done': seq<nat>, ghost touched': set<nat>)
    requires s.Valid() && k.Sub? && Fits(k, Message(slots)) && at < |k.fields|
    requires required == CountRequired(k.fields, at) && |seen| == MAX_REQUIRED && SeenIs(k.fields, seen, touched)
    requires own ==>
              && DoneOk(k.fields, m, done) && Reading(k, m, w, slots, seen, start, done)
              && w != [] && !w[0].Other? && at == w[0].at && wire == SlotWire(k.fields[at])
              && Tail(s.data, s.pos, s.left) == After(start, TagBytes(k.fields[at], wire))
    modifies s
    ensures s.Valid() && s.pos >= old(s.pos) && s.pos + s.left <= old(s.pos + s.left)
    ensures step == Went ==> s.pos + s.left == old(s.pos + s.left) && s.left < old(s.left)
    ensures step != Ended && (step == Went ==> Fits(k, Message(slots')))
    ensures |seen'| == MAX_REQUIRED && SeenIs(k.fields, seen', touched') && touched' == touched + {at}
    ensures own ==> at < |done| && done' == OneMore(done, w[0])
    ensures own ==> step == Went && DoneOk(k.fields, m, done')
                    && Reading(k, m, w[1..], slots', seen', Tail(s.data, s.pos, s.left), done')
    decreases k, 1
  {
    hide Holds, Fits, SlotHead, SlotPayload, MessageOk, Got, InElements, DescriptorOk, SeenDone, WeaveOk, Woven;
    hide VarintBytes, TagBytes, PieceOk, PieceSlot, PiecePart, OneMore, SlotWire, SlotFits, SeenIs, CountRequired;
    done', touched' := done, touched + {at};
    ghost var p, before := [], Tail(s.data, s.pos, s.left);
    if own {
      p := ReadingOwn(k, m, w, slots, seen, start, done);
      PieceIsInside(k.fields, m, done, w[0]);
    }
    seen' := Mark(seen, k.fields[at], required);
    MarkTouches(k.fields, seen, touched, at);
    var ok;
    ok, slots' := DecodeField(s, k, at, wire, slots, own, m, done, if own then w[0] else Own(0));
    step := if ok then Went else Failed;
    if own {
      MarkSees(k.fields, seen, done, w[0]);
      done' := OneMore(done, w[0]);
      PartIsRead(k, m, w[1..], slots', seen', before, p, done', Tail(s.data, s.pos, s.left));
    }
  }

  /** Reads a tag and what comes behind it: the field of that tag, or something to be skipped. */
  method DecodeNext(s: IStream, k: Kind, slots: seq<Slot>, it: FieldIter, seen: seq<bool>, ghost good: bool,
                    ghost m: Value, ghost w: seq<Piece>, ghost done: seq<nat>, ghost touched: set<nat>)
    returns (step: Step, slots': seq<Slot>, seen': seq<bool>, ghost done': seq<nat>, ghost touched': set<nat>)
    requires s.Valid() && s.left > 0 && k.Sub? && Fits(k, Message(slots)) && (good ==> DoneOk(k.fields, m, done))
    requires it.Valid() && it.fields == k.fields && |seen| == MAX_REQUIRED && SeenIs(k.fields, seen, touched)
    requires good ==> Reading(k, m, w, slots, seen, Tail(s.data, s.pos, s.left), done) && w != []
    modifies s, it
    ensures s.Valid() && s.pos >= old(s.pos) && s.pos + s.left <= old(s.pos + s.left)
    ensures step == Went ==> s.pos + s.left == old(s.pos + s.left) && s.left < old(s.left)
    ensures step == Ended ==> s.pos + s.left == old(s.pos + s.left)
    ensures step != Failed ==> Fits(k, Message(slots'))
    ensures it.Valid() && |seen'| == MAX_REQUIRED && SeenIs(k.fields, seen', touched')
    ensures good ==>
              if w[0].Other? then done' == done && touched' == touched
              else w[0].at < |done| && done' == OneMore(done, w[0]) && touched' == touched + {w[0].at}
    ensures good ==> step == Went && DoneOk(k.fields, m, done')
                     && Reading(k, m, w[1..], slots', seen', Tail(s.data, s.pos, s.left), done')
    decreases k, 2
  {
    hide Holds, Fits, SlotHead, SlotPayload, MessageOk, Got, InElements, DescriptorOk, SeenDone, WeaveOk, Woven;
    hide RawBytes, VarintBytes;
    hide PieceOk, PieceSlot, PiecePart, OneMore, SlotWire, SlotFits, SeenIs;
    slots', seen', done', touched' := slots, seen, done, touched;
    ghost var own, start := good && !w[0].Other?, Tail(s.data, s.pos, s.left);
    ghost var tag0, wire0 := 1, 0;
    if own {
      ghost var p := ReadingOwn(k, m, w, slots, seen, Tail(s.data, s.pos, s.left), done);
      PieceIsInside(k.fields, m, done, w[0]);
      tag0, wire0 := k.fields[w[0].at].tag, SlotWire(k.fields[w[0].at]);
    } else if good {
      ReadingOther(k, m, w, slots, seen, Tail(s.data, s.pos, s.left), done);
      tag0, wire0 := w[0].tag, w[0].wire;
    }
    var ok, wire, tag, eof := s.DecodeTag(tag0, wire0);
    if !ok {
      return if eof then Ended else Failed, slots', seen', done', touched';
    }
    var found := it.Find(tag);
    if own && found {
      TagIsFound(k, w[0].at, it.at);
    }
    if !found {
      ok := s.SkipField(wire, if good && w[0].Other? then w[0].raw else []);
      return if ok then Went else Failed, slots', seen', done', touched';
    }
    step, slots', seen', done', touched' :=
      DecodeKnown(s, k, slots, it.at, wire, it.required, seen, own, m, w, done, touched, start);
  }

  lemma PieceIsInside(fields: seq<Field>, m: Value, done: seq<nat>, p: Piece)
    requires DoneOk(fields, m, done) && !p.Other? && PieceOk(fields, m, done, p)
    ensures p.at < |fields| == |m.slots| == |done| && SlotHead(fields[p.at], PieceSlot(m, p), PiecePart(done, p))
    ensures DoneOk(fields, m, OneMore(done, p))
  {
  }

  lemma MorePieces(k: Kind, m: Value, w: seq<Piece>, slots: seq<Slot>, seen: seq<bool>, s: Tail, done: seq<nat>)
    requires k.Sub? && |seen| == MAX_REQUIRED && DoneOk(k.fields, m, done) && Reading(k, m, w, slots, seen, s, done)
    requires s.left > 0
    ensures w != []
  {
    hide Got, MessageOk, DescriptorOk, SeenDone, Holds;
  }

  lemma FitsIsMessage(k: Kind, v: Value)
    requires k.Sub? && Fits(k, v)
    ensures v.Message? && |v.slots| == |k.fields| && v == Message(v.slots)
  {
  }

  const NONE_SEEN: seq<bool> := seq(MAX_REQUIRED, _ => false)

  lemma NoneSeen(fields: seq<Field>)
    ensures SeenBefore(fields, NONE_SEEN, |fields|) <==> CountRequired(fields, |fields|) == 0
  {
    if CountRequired(fields, |fields|) > 0 {
      var a := NthRequired(fields, |fields|, 0);
    } else {
      forall a | 0 <= a < |fields| ensures !fields[a].rule.Required? {
        RequiredGrow(fields, a + 1, |fields|);
      }
    }
  }

  lemma WeaveFits(k: Kind, m: Value, w: seq<Piece>)
    requires k.Sub? && m.Message? && PartWeave(k, m, w)
    ensures DoneOk(k.fields, m, NoneDone(k.fields))
  {
  }

  /** pb_decode_noinit: the message's fields in any order, and others that are skipped.  The pieces w are
      the parts of a message m, in any order of the fields, and single values that later ones take the place
      of; of a union the last field stays.  A message of which parts are missing is read too, and refused
      exactly if a required field is among them. */
  method DecodeMessage(s: IStream, k: Kind, dest: Value, ghost m: Value, ghost w0: seq<Piece>)
    returns (ok: bool, r: Value)
    requires s.Valid() && k.Sub? && Fits(k, dest) && m.Message?
    modifies s
    ensures s.Valid() && s.pos >= old(s.pos) && s.pos + s.left <= old(s.pos + s.left)
    ensures ok ==> s.pos + s.left == old(s.pos + s.left) && Fits(k, r) && r.Message?
    ensures old(s.left) == 0 ==> r == dest && ok == (CountRequired(k.fields, |k.fields|) == 0)
    ensures PartWeave(k, m, w0) && dest == ZeroValue(k)
            && old(s.At(WovenMessage(k, m, w0))) && old(s.left) == |WovenMessage(k, m, w0)| ==>
              s.left == 0 && (ok <==> NoneMissing(k.fields, w0))
    ensures WholeWeave(k, m, w0) && dest == ZeroValue(k)
            && old(s.At(WovenMessage(k, m, w0))) && old(s.left) == |WovenMessage(k, m, w0)| ==>
              ok && SameMessage(k.fields, m, r) && s.left == 0
    decreases k, 3
  {
    hide Reading, SameMessage, WovenMessage, PartWeave, Holds, Fits, ZeroValue, SeenBefore, DoneOk, AllDone;
    hide SeenIs, NoneMissing, Touched, OneMore;
    ghost var good := PartWeave(k, m, w0) && dest == ZeroValue(k)
                      && s.At(WovenMessage(k, m, w0)) && s.left == |WovenMessage(k, m, w0)|;
    FitsIsMessage(k, dest);
    var it := new FieldIter(k.fields);
    var slots, seen := dest.slots, NONE_SEEN;
    ghost var w, done, touched := w0, NoneDone(k.fields), {};
    NothingTouched(k.fields);
    if good {
      WeaveFits(k, m, w);
      ReadingStarts(k, m, w, seen, Tail(s.data, s.pos, s.left));
    }
    while s.left > 0
      invariant s.Valid() && s.pos >= old(s.pos) && s.pos + s.left == old(s.pos + s.left)
      invariant Fits(k, Message(slots)) && it.Valid() && |seen| == MAX_REQUIRED
      invariant old(s.left) == 0 ==> slots == dest.slots && seen == NONE_SEEN
      invariant good ==> DoneOk(k.fields, m, done) && Reading(k, m, w, slots, seen, Tail(s.data, s.pos, s.left), done)
      invariant SeenIs(k.fields, seen, touched)
      invariant good ==> touched + Touched(w) == Touched(w0)
      invariant good ==> DoneAfter(w, done) == DoneAfter(w0, NoneDone(k.fields))
      decreases s.left
    {
      if good {
        MorePieces(k, m, w, slots, seen, Tail(s.data, s.pos, s.left), done);
      }
      var step;
      if good {
        TouchedFirst(w);
      }
      step, slots, seen, done, touched := DecodeNext(s, k, slots, it, seen, good, m, w, done, touched);
      w := if good then w[1..] else w;
      if step == Ended {
        break;
      }
      if step == Failed {
        return false, Message(slots);
      }
    }
    r := Message(slots);
    if good {
      ReadingEnds(k, m, w, slots, seen, Tail(s.data, s.pos, s.left), done);
      NoneTouched();
      assert touched == Touched(w0);
      SeenIsNoneMissing(k.fields, seen, w0);
    }
    NoneSeen(k.fields);
    ok := it.AllSeen(seen);
  }
}
