/** A batch of puts and deletions, as the bytes that are logged and replayed (LevelDB
    db/write_batch.cc). */
module WriteBatches {
  import opened Options
  import opened DbFormat
  import opened Coding
  import opened MemTables

  const HEADER: nat := 12
  const MAX_COUNT: nat := 0x8000_0000

  datatype Op = Put(key: Bytes, value: Bytes) | Delete(key: Bytes)

  predicate Encodable(op: Op) {
    |op.key| < TWO_32 && (op.Put? ==> |op.value| < TWO_32)
  }

  function OpBytes(op: Op): (b: Bytes)
    requires Encodable(op)
    ensures |b| > 0
  {
    match op
    case Put(key, value) => [1] + PutLengthPrefixedSlice(key) + PutLengthPrefixedSlice(value)
    case Delete(key) => [0] + PutLengthPrefixedSlice(key)
  }

  ghost predicate AllEncodable(ops: seq<Op>) {
    forall i :: 0 <= i < |ops| ==> Encodable(ops[i])
  }

  function OpsBytes(ops: seq<Op>): Bytes
    requires AllEncodable(ops)
  {
    if ops == [] then [] else OpBytes(ops[0]) + OpsBytes(ops[1..])
  }

  lemma {:induction false} OpsBytesConcat(a: seq<Op>, b: seq<Op>)
    requires AllEncodable(a) && AllEncodable(b)
    ensures OpsBytes(a + b) == OpsBytes(a) + OpsBytes(b)
  {
    hide OpBytes, Encodable;
    if a == [] {
      assert a + b == b;
    } else {
      OpsBytesConcat(a[1..], b);
      assert (a + b)[1..] == a[1..] + b;
    }
  }

  /** The first operation of an input and what follows it, or nothing if it is malformed. */
  function FirstOp(input: Bytes): (r: Option<(Op, Bytes)>)
    requires input != []
    ensures r.Some? ==> |r.value.1| < |input|
  {
    var tag, rest := input[0], input[1..];
    var key := LengthPrefixedSlice(rest);
    if key.None? then None
    else if tag == 1 then
      var value := LengthPrefixedSlice(key.value.1);
      if value.None? then None else Some((Put(key.value.0, value.value.0), value.value.1))
    else if tag == 0 then Some((Delete(key.value.0), key.value.1))
    else None
  }

  /** One turn of Iterate's loop, as far as the input goes. */
  method GetOp(input: Bytes) returns (r: Option<(Op, Bytes)>)
    requires input != []
    ensures r == FirstOp(input) && (r.Some? ==> |r.value.1| < |input|)
  {
    hide LengthPrefixedSlice;
    var tag, rest := input[0], input[1..];
    if tag == 1 {
      var key := GetLengthPrefixedSlice(rest);
      if key.Some? {
        var value := GetLengthPrefixedSlice(key.value.1);
        if value.Some? {
          return Some((Put(key.value.0, value.value.0), value.value.1));
        }
      }
    } else if tag == 0 {
      var key := GetLengthPrefixedSlice(rest);
      if key.Some? {
        return Some((Delete(key.value.0), key.value.1));
      }
    }
    return None;
  }

  /** The operations up to the first malformed one, and whether there is none. */
  function Parse(input: Bytes): (r: (bool, seq<Op>))
    decreases |input|
  {
    if input == [] then (true, [])
    else
      var first := FirstOp(input);
      if first.None? then (false, [])
      else
        var more := Parse(first.value.1);
        (more.0, [first.value.0] + more.1)
  }

  lemma ParseStep(input: Bytes, done: seq<Op>)
    requires input != []
    ensures var first := FirstOp(input);
            if first.None? then Parse(input) == (false, []) && done + [] == done
            else
              && Parse(input).0 == Parse(first.value.1).0
              && done + Parse(input).1 == done + [first.value.0] + Parse(first.value.1).1
  {
    hide LengthPrefixedSlice;
  }

  lemma FirstOpOf(op: Op, rest: Bytes)
    requires Encodable(op)
    ensures FirstOp(OpBytes(op) + rest) == Some((op, rest))
  {
    hide PutLengthPrefixedSlice, LengthPrefixedSlice;
    var b := OpBytes(op) + rest;
    match op
    case Put(key, value) =>
      assert b[1..] == PutLengthPrefixedSlice(key) + (PutLengthPrefixedSlice(value) + rest);
      SliceRoundTrip(key, PutLengthPrefixedSlice(value) + rest);
      SliceRoundTrip(value, rest);
    case Delete(key) =>
      assert b[1..] == PutLengthPrefixedSlice(key) + rest;
      SliceRoundTrip(key, rest);
  }

  lemma {:induction false} ParseOfBytes(ops: seq<Op>)
    requires AllEncodable(ops)
    ensures Parse(OpsBytes(ops)) == (true, ops)
  {
    hide FirstOp, OpBytes, Encodable;
    if ops != [] {
      FirstOpOf(ops[0], OpsBytes(ops[1..]));
      ParseOfBytes(ops[1..]);
      assert [ops[0]] + ops[1..] == ops;
    }
  }

  // ---------------------------------------------------------------------------------------------
  // What a batch adds to a memtable

  /** Where a key stands in the user comparator's order. */
  type Order = Bytes -> UserKey

  function EntryOf(order: Order, op: Op, sn: nat): Entry {
    match op
    case Put(key, value) => Entry(InternalKey(order(key), Stored(sn), Value), value)
    case Delete(key) => Entry(InternalKey(order(key), Stored(sn), Deletion), [])
  }

  /** The operations' entries, numbered from `first` on. */
  function EntriesOf(order: Order, ops: seq<Op>, first: nat): seq<Entry>
  {
    seq(|ops|, i requires 0 <= i < |ops| => EntryOf(order, ops[i], first + i))
  }

  /** A memtable in order, all its sequence numbers below `next`. */
  ghost predicate InOrder(table: seq<Entry>, next: nat) {
    SortedRun(table) && forall e :: e in SetOf(table) ==> e.k.sn < next
  }

  lemma OneMoreEntry(order: Order, ops: seq<Op>, op: Op, first: nat)
    ensures EntriesOf(order, ops + [op], first) == EntriesOf(order, ops, first) + [EntryOf(order, op, first + |ops|)]
    ensures SetOf(EntriesOf(order, ops + [op], first)) == SetOf(EntriesOf(order, ops, first))
          + {EntryOf(order, op, first + |ops|)}
  {
    var es, e := EntriesOf(order, ops, first), EntryOf(order, op, first + |ops|);
    assert EntriesOf(order, ops + [op], first) == es + [e];
    SetOfConcat(es, [e]);
  }

  // ---------------------------------------------------------------------------------------------
  // The batch

  lemma {:induction false} ZeroDecodes(n: nat)
    ensures DecodeFixed(seq(n, _ => 0)) == 0
  {
    if n > 0 {
      ZeroDecodes(n - 1);
      assert seq(n, _ => 0 as byte)[1..] == seq(n - 1, _ => 0 as byte);
    }
  }

  lemma Grown(rep: Bytes, more: Bytes)
    requires |rep| >= HEADER
    ensures (rep + more)[..8] == rep[..8] && (rep + more)[8..HEADER] == rep[8..HEADER]
    ensures (rep + more)[HEADER..] == rep[HEADER..] + more
  {
  }

  lemma MoreOps(ops: seq<Op>, more: seq<Op>)
    requires AllEncodable(ops) && AllEncodable(more)
    ensures AllEncodable(ops + more) && OpsBytes(ops + more) == OpsBytes(ops) + OpsBytes(more)
  {
    OpsBytesConcat(ops, more);
  }

  lemma OneOp(op: Op)
    requires Encodable(op)
    ensures AllEncodable([op]) && OpsBytes([op]) == OpBytes(op)
  {
    assert OpsBytes([op][1..]) == [];
  }

  lemma WidthsHold()
    ensures TWO_32 == Power256(4) && MAX_SEQUENCE_NUMBER < Power256(8)
  {
    assert Power256(8) == 0x1_0000_0000_0000_0000;
  }

  class WriteBatch {
    var rep: Bytes
    ghost var ops: seq<Op>

    ghost predicate Valid()
      reads this
    {
      && |ops| < MAX_COUNT && AllEncodable(ops)
      && |rep| >= HEADER && rep[HEADER..] == OpsBytes(ops) && DecodeFixed(rep[8..HEADER]) == |ops|
    }

    constructor ()
      ensures Valid() && ops == [] && Sequence() == 0
    {
      rep, ops := seq(HEADER, _ => 0), [];
      new;
      ZeroDecodes(4);
      ZeroDecodes(8);
      assert rep[8..HEADER] == seq(4, _ => 0 as byte) && rep[..8] == seq(8, _ => 0 as byte);
    }

    function Count(): nat
      requires |rep| >= HEADER
      reads this
    {
      DecodeFixed(rep[8..HEADER])
    }

    function Sequence(): nat
      requires |rep| >= HEADER
      reads this
    {
      DecodeFixed(rep[..8])
    }

    method SetCount(n: nat)
      requires |rep| >= HEADER && n < TWO_32
      modifies `rep
      ensures |rep| == |old(rep)| && Count() == n && Sequence() == old(Sequence())
      ensures rep[HEADER..] == old(rep)[HEADER..]
    {
      rep := rep[..8] + Fixed(n, 4) + rep[HEADER..];
      WidthsHold();
      FixedRoundTrip(n, 4);
      assert rep[8..HEADER] == Fixed(n, 4) && rep[..8] == old(rep)[..8];
    }

    method SetSequence(sn: SequenceNumber)
      requires |rep| >= HEADER
      modifies `rep
      ensures |rep| == |old(rep)| && Sequence() == sn && Count() == old(Count())
      ensures rep[HEADER..] == old(rep)[HEADER..]
    {
      rep := Fixed(sn, 8) + rep[8..];
      WidthsHold();
      FixedRoundTrip(sn, 8);
      assert rep[8..HEADER] == old(rep)[8..HEADER] && rep[..8] == Fixed(sn, 8);
    }

    method Put(key: Bytes, value: Bytes)
      requires Valid() && |ops| + 1 < MAX_COUNT && Encodable(Op.Put(key, value))
      modifies this
      ensures Valid() && ops == old(ops) + [Op.Put(key, value)] && Sequence() == old(Sequence())
    {
      hide PutLengthPrefixedSlice, OpsBytes, DecodeFixed;
      SetCount(Count() + 1);
      ghost var counted, op := rep, Op.Put(key, value);
      rep := rep + [1];
      rep := rep + PutLengthPrefixedSlice(key);
      rep := rep + PutLengthPrefixedSlice(value);
      assert rep == counted + OpBytes(op);
      Grown(counted, OpBytes(op));
      OneOp(op);
      MoreOps(ops, [op]);
      ops := ops + [op];
    }

    method Delete(key: Bytes)
      requires Valid() && |ops| + 1 < MAX_COUNT && |key| < TWO_32
      modifies this
      ensures Valid() && ops == old(ops) + [Op.Delete(key)] && Sequence() == old(Sequence())
    {
      hide PutLengthPrefixedSlice, OpsBytes, DecodeFixed;
      SetCount(Count() + 1);
      ghost var counted, op := rep, Op.Delete(key);
      rep := rep + [0];
      rep := rep + PutLengthPrefixedSlice(key);
      assert rep == counted + OpBytes(op);
      Grown(counted, OpBytes(op));
      OneOp(op);
      MoreOps(ops, [op]);
      ops := ops + [op];
    }

    method Append(src: WriteBatch)
      requires src != this && Valid() && src.Valid() && |ops| + |src.ops| < MAX_COUNT
      modifies this
      ensures Valid() && ops == old(ops) + src.ops && Sequence() == old(Sequence())
    {
      hide PutLengthPrefixedSlice, OpsBytes, DecodeFixed;
      SetCount(Count() + src.Count());
      Grown(rep, src.rep[HEADER..]);
      rep := rep + src.rep[HEADER..];
      MoreOps(ops, src.ops);
      ops := ops + src.ops;
    }

    /** Whatever the bytes are, as they were logged; nothing is checked yet. */
    method SetContents(contents: Bytes, ghost logged: seq<Op>)
      requires |contents| >= HEADER
      modifies this
      ensures rep == contents && ops == logged
    {
      rep, ops := contents, logged;
    }

    /** Hands each operation to a memtable, numbered from the batch's sequence number on, up to the
        first malformed one.  Nothing goes wrong exactly if all of the bytes are operations and as
        many as the header counts. */
    method InsertInto(order: Order, mem: MemTable) returns (ok: bool)
      modifies mem
      ensures ok <==> |rep| >= HEADER && Parse(rep[HEADER..]).0 && |Parse(rep[HEADER..]).1| == Count()
      ensures |rep| < HEADER ==> mem.table == old(mem.table)
      ensures |rep| >= HEADER ==>
                var ops := Parse(rep[HEADER..]).1;
                && SetOf(mem.table) == old(SetOf(mem.table)) + SetOf(EntriesOf(order, ops, Sequence()))
                && (old(InOrder(mem.table, Sequence())) && Sequence() + |ops| <= MAX_SEQUENCE_NUMBER + 1 ==>
                      InOrder(mem.table, Sequence() + |ops|))
    {
      hide Parse, EntriesOf, SetOf, InOrder, DecodeFixed;
      if |rep| < HEADER {
        return false;
      }
      var found;
      ok, found := Iterate(rep[HEADER..], order, mem, Sequence());
      ok := ok && found == Count();
    }
  }

  /** The loop over a batch's bytes: how many operations it came across, a malformed one included. */
  method Iterate(data: Bytes, order: Order, mem: MemTable, first: nat) returns (ok: bool, found: nat)
    modifies mem
    ensures ok == Parse(data).0 && (ok ==> found == |Parse(data).1|)
    ensures SetOf(mem.table) == old(SetOf(mem.table)) + SetOf(EntriesOf(order, Parse(data).1, first))
    ensures old(InOrder(mem.table, first)) && first + |Parse(data).1| <= MAX_SEQUENCE_NUMBER + 1 ==>
              InOrder(mem.table, first + |Parse(data).1|)
  {
    hide FirstOp, Parse, EntriesOf, SetOf, SortedRun, EntryOf, InOrder;
    var input, sequence := data, first;
    found := 0;
    ghost var done := [];
    NoEntries(order, first, SetOf(mem.table));
    while input != []
      invariant Parse(data).0 == Parse(input).0 && Parse(data).1 == done + Parse(input).1
      invariant found == |done| && sequence == first + |done|
      invariant SetOf(mem.table) == old(SetOf(mem.table)) + SetOf(EntriesOf(order, done, first))
      invariant old(InOrder(mem.table, first)) && sequence <= MAX_SEQUENCE_NUMBER + 1 ==> InOrder(mem.table, sequence)
      decreases |input|
    {
      ParseStep(input, done);
      var next := GetOp(input);
      found := found + 1;
      if next.None? {
        return false, found;
      }
      AddOp(order, mem, next.value.0, sequence);
      OneMoreEntry(order, done, next.value.0, first);
      input, done, sequence := next.value.1, done + [next.value.0], sequence + 1;
    }
    ParseNothing(done);
    ok := true;
  }

  method AddOp(order: Order, mem: MemTable, op: Op, sequence: nat)
    modifies mem
    ensures SetOf(mem.table) == old(SetOf(mem.table)) + {EntryOf(order, op, sequence)}
    ensures old(InOrder(mem.table, sequence)) && sequence <= MAX_SEQUENCE_NUMBER ==> InOrder(mem.table, sequence + 1)
  {
    match op
    case Put(key, value) => mem.Add(sequence, Value, order(key), value);
    case Delete(key) => mem.Add(sequence, Deletion, order(key), []);
  }

  lemma NoEntries(order: Order, first: nat, es: set<Entry>)
    ensures es + SetOf(EntriesOf(order, [], first)) == es
  {
  }

  lemma ParseNothing(done: seq<Op>)
    ensures Parse([]) == (true, []) && done + [] == done
  {
  }
}
