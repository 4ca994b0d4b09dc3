/** The memtable: entries kept in internal-key order as they are added (LevelDB db/memtable.cc). */
module MemTables {
  import opened Options
  import opened DbFormat

  function MemInsert(mem: seq<Entry>, e: Entry): seq<Entry> {
    var i := LowerBound(mem, e.k);
    mem[..i] + [e] + mem[i..]
  }

  lemma MemInsertIsSorted(mem: seq<Entry>, e: Entry)
    requires SortedRun(mem) && forall i :: 0 <= i < |mem| ==> mem[i].k != e.k
    ensures SortedRun(MemInsert(mem, e))
  {
    var i := LowerBound(mem, e.k);
    forall j | i <= j < |mem|
      ensures Before(e.k, mem[j].k)
    {
      BeforeIsStrictTotalOrder(e.k, mem[j].k, e.k);
    }
    hide Before, LowerBound;
    var r := MemInsert(mem, e);
    assert forall p :: 0 <= p < |r| ==> r[p] == if p < i then mem[p] else if p == i then e else mem[p - 1];
  }

  lemma MemInsertAdds(mem: seq<Entry>, e: Entry)
    ensures SetOf(MemInsert(mem, e)) == SetOf(mem) + {e}
  {
    var i := LowerBound(mem, e.k);
    hide LowerBound, Before, SortedRun, IsLowerBound;
    assert mem == mem[..i] + mem[i..];
    SetOfConcat(mem[..i], mem[i..]);
    SetOfConcat(mem[..i], [e]);
    SetOfConcat(mem[..i] + [e], mem[i..]);
    assert SetOf([e]) == {e};
  }

  /** What Get tells its caller: a value, that the key is deleted, or to look further. */
  datatype Lookup = Found(value: Bytes) | Deleted | Missing

  /** Add shifts a 64-bit number left by the eight bits of the type. */
  function Stored(sn: nat): SequenceNumber {
    sn % (MAX_SEQUENCE_NUMBER + 1)
  }

  class MemTable {
    var table: seq<Entry>

    constructor ()
      ensures table == []
    {
      table := [];
    }

    /** The skip list under the table admits no key twice. */
    method Add(s: nat, kind: ValueType, user: UserKey, value: Bytes)
      modifies this
      ensures SetOf(table) == old(SetOf(table)) + {Entry(InternalKey(user, Stored(s), kind), value)}
      ensures old(SortedRun(table))
              && (forall o :: o in old(SetOf(table)) ==> o.k != InternalKey(user, Stored(s), kind)) ==>
                SortedRun(table)
    {
      var e := Entry(InternalKey(user, Stored(s), kind), value);
      MemInsertAdds(table, e);
      if SortedRun(table) && forall o :: o in SetOf(table) ==> o.k != e.k {
        assert forall i :: 0 <= i < |table| ==> table[i] in SetOf(table);
        MemInsertIsSorted(table, e);
      }
      table := MemInsert(table, e);
    }

    /** The newest entry of the key at or below the snapshot decides; without one, look further. */
    method Get(user: UserKey, s: SequenceNumber) returns (r: Lookup)
      requires SortedRun(table) && Distinct(SetOf(table))
      ensures r.Missing? <==> forall e :: e in table ==> !Visible(e, user, s)
      ensures r.Found? ==> Read(SetOf(table), user, s) == Some(r.value)
      ensures !r.Found? ==> Read(SetOf(table), user, s) == None
    {
      var found := RunGet(table, user, s);
      RunGetFindsNewest(table, user, s);
      if found.None? {
        ReadNone(SetOf(table), user, s);
        return Missing;
      }
      ReadOfNewest(SetOf(table), user, s, found.value);
      match found.value.k.kind
      case Value => return Found(found.value.value);
      case Deletion => return Deleted;
    }
  }
}
