/** A message taken apart as a reader meets it: field by field, and element by element where elements
    have tags of their own; and what has become of it when some of that has been read. */
module PbParts {
  import opened DbFormat
  import opened PbFormat

  // ---------------------------------------------------------------------------------------------
  // The parts of a slot

  /** Whether each element of the array has a tag of its own. */
  predicate InElements(f: Field) {
    f.rule.Repeated? && !Packable(f.kind)
  }

  /** Whether, with j parts of it read, more of the slot is on the wire. */
  predicate SlotHead(f: Field, s: Slot, j: nat) {
    if InElements(f) then j < |s.many|
    else j == 0 && if f.rule.Repeated? then s.many != [] else IsWritten(f, s)
  }

  function SlotWire(f: Field): nat {
    if f.rule.Repeated? && Packable(f.kind) then 2 else WireType(f.kind)
  }

  function SlotPayload(f: Field, s: Slot, j: nat): Bytes
    requires SlotHead(f, s, j)
  {
    if InElements(f) then ValueBytes(f.kind, s.many[j])
    else if f.rule.Repeated? then Delimited(PackedBytes(f.kind, s, |s.many|))
    else ValueBytes(f.kind, s.one)
  }

  // ---------------------------------------------------------------------------------------------
  // The bytes of a message, front first

  ghost function Suffix(fields: seq<Field>, m: Value, i: nat): Bytes
    requires m.Message? && i <= |fields| == |m.slots|
    decreases |fields| - i
  {
    if i == |fields| then [] else SlotBytes(fields[i], m.slots[i]) + Suffix(fields, m, i + 1)
  }

  ghost function Elements(f: Field, slot: Slot, j: nat): Bytes
    requires j <= |slot.many|
    decreases |slot.many| - j
  {
    if j == |slot.many| then []
    else TagBytes(f, WireType(f.kind)) + ValueBytes(f.kind, slot.many[j]) + Elements(f, slot, j + 1)
  }

  /** What comes when all before field i, and j elements of field i, have been read. */
  ghost function Rest(fields: seq<Field>, m: Value, i: nat, j: nat): Bytes
    requires m.Message? && i <= |fields| == |m.slots|
  {
    if i < |fields| && 0 < j <= |m.slots[i].many| then Elements(fields[i], m.slots[i], j) + Suffix(fields, m, i + 1)
    else Suffix(fields, m, i)
  }

  lemma {:induction false} FieldsThenSuffix(fields: seq<Field>, m: Value, i: nat)
    requires m.Message? && i <= |fields| == |m.slots|
    ensures FieldBytes(fields, m, i) + Suffix(fields, m, i) == MessageBytes(fields, m)
    decreases |fields| - i
  {
    hide SlotBytes;
    if i < |fields| {
      FieldsThenSuffix(fields, m, i + 1);
    }
  }

  lemma {:induction false} UnpackedThenElements(f: Field, slot: Slot, j: nat)
    requires j <= |slot.many|
    ensures UnpackedBytes(f, slot, j) + Elements(f, slot, j) == UnpackedBytes(f, slot, |slot.many|)
    decreases |slot.many| - j
  {
    hide ValueBytes, TagBytes;
    if j < |slot.many| {
      UnpackedThenElements(f, slot, j + 1);
    }
  }

  /** The elements of a packed array from the j-th on. */
  ghost function Items(k: Kind, slot: Slot, j: nat): Bytes
    requires j <= |slot.many|
    decreases |slot.many| - j
  {
    if j == |slot.many| then [] else ValueBytes(k, slot.many[j]) + Items(k, slot, j + 1)
  }

  lemma {:induction false} PackedThenItems(k: Kind, slot: Slot, j: nat)
    requires j <= |slot.many|
    ensures PackedBytes(k, slot, j) + Items(k, slot, j) == PackedBytes(k, slot, |slot.many|)
    decreases |slot.many| - j
  {
    hide ValueBytes;
    if j < |slot.many| {
      PackedThenItems(k, slot, j + 1);
    }
  }

  lemma AllItems(k: Kind, slot: Slot)
    ensures Items(k, slot, 0) == PackedBytes(k, slot, |slot.many|)
  {
    PackedThenItems(k, slot, 0);
  }

  lemma ItemsAreNotEmpty(k: Kind, slot: Slot, j: nat)
    requires j < |slot.many| && ValueOk(k, slot.many[j]) && Packable(k)
    ensures Items(k, slot, j) == ValueBytes(k, slot.many[j]) + Items(k, slot, j + 1)
    ensures |Items(k, slot, j)| > 0
  {
  }

  // ---------------------------------------------------------------------------------------------
  // From part to part, as they are written

  /** All before field i, and j elements of field i, are done. */
  predicate PositionOk(fields: seq<Field>, m: Value, i: nat, j: nat) {
    && m.Message? && i <= |fields| == |m.slots|
    && (j > 0 ==> i < |fields| && InElements(fields[i]) && j <= |m.slots[i].many|)
  }

  lemma RestSkips(fields: seq<Field>, m: Value, i: nat, j: nat)
    requires PositionOk(fields, m, i, j) && i < |fields| && !SlotHead(fields[i], m.slots[i], j)
    ensures Rest(fields, m, i, j) == Rest(fields, m, i + 1, 0)
  {
  }

  /** Behind the part at a position that has one. */
  ghost function Behind(fields: seq<Field>, m: Value, i: nat, j: nat): (p: (nat, nat))
    requires PositionOk(fields, m, i, j) && i < |fields| && SlotHead(fields[i], m.slots[i], j)
    ensures PositionOk(fields, m, p.0, p.1)
  {
    if InElements(fields[i]) then (i, j + 1) else (i + 1, 0)
  }

  /** The next part, and then the rest. */
  lemma RestSplits(fields: seq<Field>, m: Value, i: nat, j: nat)
    requires PositionOk(fields, m, i, j) && i < |fields| && SlotHead(fields[i], m.slots[i], j)
    ensures var p := Behind(fields, m, i, j);
            Rest(fields, m, i, j) == TagBytes(fields[i], SlotWire(fields[i]))
                                       + (SlotPayload(fields[i], m.slots[i], j) + Rest(fields, m, p.0, p.1))
  {
    hide ValueBytes, TagBytes, Delimited, PackedBytes, IsWritten, WireType;
    var f, s := fields[i], m.slots[i];
    if InElements(f) {
      UnpackedThenElements(f, s, 0);
    }
  }

  // ---------------------------------------------------------------------------------------------
  // Messages with their parts in any order, and with fields woven in that the reader does not know

  /** The next part of a field, something that was there before for a field and is overwritten, or a field
      that the reader does not know. */
  datatype Piece = Own(at: nat) | Stale(at: nat, v: Value) | Other(tag: nat, wire: nat, raw: Bytes)

  /** A field that the descriptor does not have. */
  predicate OtherOk(fields: seq<Field>, p: Piece)
    requires p.Other?
  {
    0 < p.tag < 0x2000_0000 && RawOk(p.wire, p.raw) && forall i :: 0 <= i < |fields| ==> fields[i].tag != p.tag
  }

  function OtherTag(p: Piece): Bytes
    requires p.Other?
  {
    VarintBytes(p.tag * 8 + p.wire)
  }

  /** Of each field, how many parts are done. */
  predicate DoneOk(fields: seq<Field>, m: Value, done: seq<nat>) {
    m.Message? && |fields| == |m.slots| == |done|
  }

  /** Another field of the same union is still to come. */
  predicate UnionAhead(fields: seq<Field>, m: Value, done: seq<nat>, a: nat)
    requires DoneOk(fields, m, done) && a < |fields|
  {
    exists b :: 0 <= b < |fields| && b != a && SameUnion(fields[a], fields[b])
        && SlotHead(fields[b], m.slots[b], done[b])
  }

  /** A piece of a field is its next part, or a single value that a later one takes the place of. */
  ghost predicate PieceOk(fields: seq<Field>, m: Value, done: seq<nat>, p: Piece)
    requires DoneOk(fields, m, done) && !p.Other?
  {
    && p.at < |fields|
    && var f := fields[p.at];
    && SlotHead(f, PieceSlot(m, p), PiecePart(done, p))
    && (p.Stale? ==>
          && !f.rule.Repeated? && !f.kind.Sub? && SlotOk(f, PieceSlot(m, p))
          && (SlotHead(f, m.slots[p.at], done[p.at]) || UnionAhead(fields, m, done, p.at)))
  }

  function PieceSlot(m: Value, p: Piece): Slot
    requires m.Message? && !p.Other? && p.at < |m.slots|
  {
    if p.Own? then m.slots[p.at] else Slot(true, p.v, [])
  }

  function PiecePart(done: seq<nat>, p: Piece): nat
    requires !p.Other? && p.at < |done|
  {
    if p.Own? then done[p.at] else 0
  }

  function OneMore(done: seq<nat>, p: Piece): (r: seq<nat>)
    requires !p.Other? && p.at < |done|
    ensures |r| == |done|
  {
    if p.Own? then done[p.at := done[p.at] + 1] else done
  }

  predicate AllDone(fields: seq<Field>, m: Value, done: seq<nat>)
    requires DoneOk(fields, m, done)
  {
    forall a :: 0 <= a < |fields| ==> !SlotHead(fields[a], m.slots[a], done[a])
  }

  /** The pieces are parts still to come of the message, the elements of each array in their order, with others in
      between. */
  ghost predicate WeaveOk(fields: seq<Field>, m: Value, w: seq<Piece>, done: seq<nat>)
    requires DoneOk(fields, m, done)
    decreases |w|
  {
    if w == [] then true
    else if w[0].Other? then OtherOk(fields, w[0]) && WeaveOk(fields, m, w[1..], done)
    else PieceOk(fields, m, done, w[0]) && WeaveOk(fields, m, w[1..], OneMore(done, w[0]))
  }

  /** What is done behind the pieces. */
  ghost function DoneAfter(w: seq<Piece>, done: seq<nat>): (r: seq<nat>)
    ensures |r| == |done|
  {
    if w == [] then done
    else DoneAfter(w[1..], if !w[0].Other? && w[0].at < |done| then OneMore(done, w[0]) else done)
  }

  /** The fields that have a piece. */
  ghost function Touched(w: seq<Piece>): set<nat> {
    set p | p in w && !p.Other? :: p.at
  }

  ghost function Woven(fields: seq<Field>, m: Value, w: seq<Piece>, done: seq<nat>): Bytes
    requires DoneOk(fields, m, done) && WeaveOk(fields, m, w, done)
    decreases |w|
  {
    if w == [] then []
    else if w[0].Other? then OtherTag(w[0]) + (RawBytes(w[0].wire, w[0].raw) + Woven(fields, m, w[1..], done))
    else
      var f := fields[w[0].at];
      TagBytes(f, SlotWire(f))
        + (SlotPayload(f, PieceSlot(m, w[0]), PiecePart(done, w[0])) + Woven(fields, m, w[1..], OneMore(done, w[0])))
  }

  /** All before field i, and j parts of field i, are done, and nothing behind. */
  ghost predicate DoneBefore(fields: seq<Field>, m: Value, done: seq<nat>, i: nat, j: nat)
    requires DoneOk(fields, m, done)
  {
    && (forall a :: 0 <= a < i && a < |fields| ==> !SlotHead(fields[a], m.slots[a], done[a]))
    && (i < |fields| ==> done[i] == j)
    && (forall a :: i < a < |fields| ==> done[a] == 0)
  }

  lemma DoneBehind(fields: seq<Field>, m: Value, done: seq<nat>, i: nat, j: nat)
    requires DoneOk(fields, m, done) && DoneBefore(fields, m, done, i, j)
    requires PositionOk(fields, m, i, j) && i < |fields| && SlotHead(fields[i], m.slots[i], j)
    ensures var q := Behind(fields, m, i, j); DoneBefore(fields, m, OneMore(done, Own(i)), q.0, q.1)
  {
    hide IsWritten;
  }

  /** One way of weaving, with nothing woven in, gives the bytes that are written. */
  lemma {:induction false} PlainWeave(fields: seq<Field>, m: Value, done: seq<nat>, i: nat, j: nat)
    returns (w: seq<Piece>)
    requires PositionOk(fields, m, i, j) && DoneOk(fields, m, done) && DoneBefore(fields, m, done, i, j)
    ensures WeaveOk(fields, m, w, done) && Woven(fields, m, w, done) == Rest(fields, m, i, j)
    ensures AllDone(fields, m, DoneAfter(w, done))
    ensures forall x :: 0 <= x < |w| ==> w[x].Own?
    decreases |fields| - i, if i < |fields| then |m.slots[i].many| - j else 0
  {
    hide TagBytes, SlotPayload, SlotHead, SlotWire, Elements;
    if i == |fields| {
      return [];
    }
    if !SlotHead(fields[i], m.slots[i], j) {
      RestSkips(fields, m, i, j);
      w := PlainWeave(fields, m, done, i + 1, 0);
      return;
    }
    RestSplits(fields, m, i, j);
    DoneBehind(fields, m, done, i, j);
    var q := Behind(fields, m, i, j);
    HeadIsInside(fields[i], m.slots[i], j);
    var v := PlainWeave(fields, m, OneMore(done, Own(i)), q.0, q.1);
    w := [Own(i)] + v;
    assert w[1..] == v;
  }

  lemma HeadIsInside(f: Field, s: Slot, j: nat)
    requires SlotHead(f, s, j)
    ensures InElements(f) ==> j < |s.many|
  {
  }

  // ---------------------------------------------------------------------------------------------
  // What has been read

  /** A slot of which j elements have been read, or nothing that stays. */
  ghost predicate GotSlot(f: Field, s: Slot, t: Slot, j: nat) {
    if f.rule.Repeated? then
      |t.many| == j <= |s.many| && !t.present && forall a :: 0 <= a < j ==> SameValue(f.kind, s.many[a], t.many[a])
    else j == 0 && (f.kind.Sub? ==> t == ZeroSlot(f))
  }

  /** A slot of which j parts have been read; it is as it was written when none is left. */
  ghost predicate GotPart(f: Field, s: Slot, t: Slot, j: nat) {
    if SlotHead(f, s, j) then GotSlot(f, s, t, j) else SameSlot(f, s, t)
  }

  /** Every slot is as it should be by now, but for those of a union that has another field to come. */
  ghost predicate Got(fields: seq<Field>, m: Value, slots: seq<Slot>, done: seq<nat>)
    requires DoneOk(fields, m, done)
  {
    && |slots| == |fields|
    && forall a :: 0 <= a < |fields| ==>
         GotPart(fields[a], m.slots[a], slots[a], done[a]) || UnionAhead(fields, m, done, a)
  }

  /** A value that is left out as a default reads as zeros. */
  lemma {:induction false} DefaultIsZero(k: Kind, v: Value)
    requires ValueOk(k, v) && IsDefault(k, v)
    ensures SameValue(k, v, ZeroValue(k))
    decreases v
  {
    if v.Message? {
      forall i | 0 <= i < |v.slots| ensures SameSlot(k.fields[i], v.slots[i], ZeroSlot(k.fields[i])) {
        assert SlotIsDefault(k.fields[i], v.slots[i]) && SlotOk(k.fields[i], v.slots[i]);
        if k.fields[i].rule.Singular? {
          DefaultIsZero(k.fields[i].kind, v.slots[i].one);
        }
      }
    }
  }

  /** A slot of which nothing is on the wire is as it was written. */
  lemma ZeroIsGot(f: Field, s: Slot)
    requires SlotOk(f, s)
    ensures GotPart(f, s, ZeroSlot(f), 0)
  {
    if f.rule.Singular? && !SlotHead(f, s, 0) {
      DefaultIsZero(f.kind, s.one);
    }
    hide SameValue, ValueOk, IsDefault;
  }

  /** Nothing is done. */
  function NoneDone(fields: seq<Field>): (r: seq<nat>)
    ensures |r| == |fields| && forall a :: 0 <= a < |fields| ==> r[a] == 0
  {
    seq(|fields|, _ => 0)
  }

  lemma NothingGot(fields: seq<Field>, m: Value)
    requires m.Message? && MessageOk(fields, m)
    ensures Got(fields, m, ZeroValue(Sub(fields)).slots, NoneDone(fields))
  {
    var slots := ZeroValue(Sub(fields)).slots;
    assert forall a :: 0 <= a < |fields| ==> slots[a] == ZeroSlot(fields[a]);
    hide SlotHead, SlotOk, SameSlot, ZeroSlot, ZeroValue, GotSlot, GotPart;
    forall a | 0 <= a < |fields| ensures GotPart(fields[a], m.slots[a], slots[a], 0) {
      ZeroIsGot(fields[a], m.slots[a]);
    }
  }

  lemma AllGot(fields: seq<Field>, m: Value, slots: seq<Slot>, done: seq<nat>)
    requires DoneOk(fields, m, done) && Got(fields, m, slots, done) && AllDone(fields, m, done)
    ensures SameMessage(fields, m, Message(slots))
  {
    hide SlotHead, SameSlot;
  }

  /** A required field is on the wire. */
  lemma RequiredIsDone(fields: seq<Field>, m: Value, done: seq<nat>, a: nat)
    requires DoneOk(fields, m, done) && AllDone(fields, m, done) && a < |fields| && fields[a].rule.Required?
    ensures done[a] > 0
  {
    assert !SlotHead(fields[a], m.slots[a], done[a]);
  }

  // ---------------------------------------------------------------------------------------------
  // Storing what has been read

  /** The slots with one stored; of a union the others are no longer there. */
  function Put(fields: seq<Field>, slots: seq<Slot>, at: nat, t: Slot): (r: seq<Slot>)
    requires at < |fields| == |slots|
    ensures |r| == |slots|
  {
    seq(|slots|, a requires 0 <= a < |slots| =>
      if a == at then t
      else if SameUnion(fields[at], fields[a]) then slots[a].(present := false)
      else slots[a])
  }

  lemma PutFits(k: Kind, slots: seq<Slot>, at: nat, t: Slot)
    requires k.Sub? && Fits(k, Message(slots)) && at < |k.fields| && SlotFits(k.fields[at], t)
    ensures Fits(k, Message(Put(k.fields, slots, at, t)))
  {
    var r := Put(k.fields, slots, at, t);
    forall i | 0 <= i < |r| ensures SlotFits(k.fields[i], r[i]) {
      assert SlotFits(k.fields[i], slots[i]);
    }
  }

  /** Storing what the next piece of a field has brought. */
  lemma PutGets(fields: seq<Field>, m: Value, slots: seq<Slot>, done: seq<nat>, p: Piece, t: Slot)
    requires DoneOk(fields, m, done) && MessageOk(fields, m) && Got(fields, m, slots, done)
    requires !p.Other? && PieceOk(fields, m, done, p)
    requires GotPart(fields[p.at], PieceSlot(m, p), t, PiecePart(done, p) + 1)
    ensures Got(fields, m, Put(fields, slots, p.at, t), OneMore(done, p))
  {
    var r, next := Put(fields, slots, p.at, t), OneMore(done, p);
    hide MessageOk, Put, GotPart, SlotHead, PieceOk, UnionAhead, SameUnion;
    forall a | 0 <= a < |fields|
      ensures GotPart(fields[a], m.slots[a], r[a], next[a]) || UnionAhead(fields, m, next, a)
    {
      if a == p.at {
        PutHere(fields, m, slots, done, p, t);
      } else if SameUnion(fields[p.at], fields[a]) {
        PutInUnion(fields, m, slots, done, p, t, a);
      } else {
        PutElsewhere(fields, m, slots, done, p, t, a);
      }
    }
  }

  lemma PutHere(fields: seq<Field>, m: Value, slots: seq<Slot>, done: seq<nat>, p: Piece, t: Slot)
    requires DoneOk(fields, m, done) && |slots| == |fields| && !p.Other? && PieceOk(fields, m, done, p)
    requires GotPart(fields[p.at], PieceSlot(m, p), t, PiecePart(done, p) + 1)
    ensures var a, r, next := p.at, Put(fields, slots, p.at, t), OneMore(done, p);
            GotPart(fields[a], m.slots[a], r[a], next[a]) || UnionAhead(fields, m, next, a)
  {
    hide SameSlot, SlotOk, UnionAhead, IsWritten;
  }

  /** The other fields of a union: one that is still to come starts anew, and the others are not there. */
  lemma PutInUnion(fields: seq<Field>, m: Value, slots: seq<Slot>, done: seq<nat>, p: Piece, t: Slot, a: nat)
    requires DoneOk(fields, m, done) && MessageOk(fields, m) && Got(fields, m, slots, done)
    requires !p.Other? && PieceOk(fields, m, done, p) && a < |fields| && a != p.at && SameUnion(fields[p.at], fields[a])
    ensures GotPart(fields[a], m.slots[a], Put(fields, slots, p.at, t)[a], OneMore(done, p)[a])
  {
  }

  /** Whatever else there is stays as it is. */
  lemma PutElsewhere(fields: seq<Field>, m: Value, slots: seq<Slot>, done: seq<nat>, p: Piece, t: Slot, a: nat)
    requires DoneOk(fields, m, done) && Got(fields, m, slots, done)
    requires !p.Other? && p.at < |fields| && a < |fields| && a != p.at && !SameUnion(fields[p.at], fields[a])
    ensures var r, next := Put(fields, slots, p.at, t), OneMore(done, p);
            GotPart(fields[a], m.slots[a], r[a], next[a]) || UnionAhead(fields, m, next, a)
  {
    hide GotPart, SlotHead;
  }
}
