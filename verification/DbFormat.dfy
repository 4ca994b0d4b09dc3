/** Internal keys, their order, and what a set of entries means to a reader (LevelDB
    db/dbformat.h and db/dbformat.cc). */
module DbFormat {
  import opened Options

  newtype byte = x: int | 0 <= x < 256
  type Bytes = seq<byte>

  /** A user key, given by its place in the user comparator's total order.  There are countably
      many byte strings, so any such order embeds in the reals. */
  type UserKey = real

  const MAX_SEQUENCE_NUMBER: nat := 0x100_0000_0000_0000 - 1

  type SequenceNumber = n: nat | n <= MAX_SEQUENCE_NUMBER

  datatype ValueType = Deletion | Value

  datatype InternalKey = InternalKey(user: UserKey, sn: SequenceNumber, kind: ValueType)

  datatype Entry = Entry(k: InternalKey, value: Bytes)

  /** PackSequenceAndType: the sequence number in the high bits, the type in the low eight. */
  function Pack(sn: SequenceNumber, kind: ValueType): nat {
    sn * 256 + (if kind.Value? then 1 else 0)
  }

  /** InternalKeyComparator::Compare(a, b) < 0. */
  predicate Before(a: InternalKey, b: InternalKey) {
    a.user < b.user || (a.user == b.user && Pack(a.sn, a.kind) > Pack(b.sn, b.kind))
  }

  /** The key a reader at snapshot `s` seeks to; kValueTypeForSeek is kTypeValue. */
  function LookupKey(user: UserKey, s: SequenceNumber): InternalKey {
    InternalKey(user, s, Value)
  }

  lemma BeforeIsStrictTotalOrder(a: InternalKey, b: InternalKey, c: InternalKey)
    ensures !Before(a, a)
    ensures Before(a, b) && Before(b, c) ==> Before(a, c)
    ensures Before(a, b) || a == b || Before(b, a)
  {
    if a.user == b.user && a.sn != b.sn {
      assert Pack(a.sn, a.kind) != Pack(b.sn, b.kind);
    }
  }

  /** Among entries of one user key, those a reader at `s` may see are exactly those that do not
      come before the lookup key. */
  lemma LookupKeySeparates(k: InternalKey, s: SequenceNumber)
    ensures !Before(k, LookupKey(k.user, s)) <==> k.sn <= s
  {
  }

  // ---------------------------------------------------------------------------------------------
  // What a set of entries means to a reader

  ghost predicate Visible(e: Entry, user: UserKey, s: SequenceNumber) {
    e.k.user == user && e.k.sn <= s
  }

  ghost predicate IsNewest(es: set<Entry>, user: UserKey, s: SequenceNumber, e: Entry) {
    e in es && Visible(e, user, s) && forall o :: o in es && Visible(o, user, s) ==> o.k.sn <= e.k.sn
  }

  /** No two entries of one user key carry the same sequence number. */
  ghost predicate Distinct(es: set<Entry>) {
    forall a, b :: a in es && b in es && a.k.user == b.k.user && a.k.sn == b.k.sn ==> a == b
  }

  function Shown(e: Entry): Option<Bytes> {
    if e.k.kind.Value? then Some(e.value) else None
  }

  /** The value of `user` at snapshot `s`: that of the newest entry at or below `s`, a deletion or
      no entry at all meaning absent. */
  ghost function Read(es: set<Entry>, user: UserKey, s: SequenceNumber): Option<Bytes> {
    if exists e :: IsNewest(es, user, s, e) then
      var e :| IsNewest(es, user, s, e);
      Shown(e)
    else
      None
  }

  lemma ReadOfNewest(es: set<Entry>, user: UserKey, s: SequenceNumber, e: Entry)
    requires Distinct(es) && IsNewest(es, user, s, e)
    ensures Read(es, user, s) == Shown(e)
  {
    forall o | IsNewest(es, user, s, o)
      ensures o == e
    {
      assert o.k.sn == e.k.sn;
    }
  }

  lemma {:induction false} NewestExists(es: set<Entry>, user: UserKey, s: SequenceNumber) returns (e: Entry)
    requires exists o :: o in es && Visible(o, user, s)
    ensures IsNewest(es, user, s, e)
    decreases |es|
  {
    var o :| o in es && Visible(o, user, s);
    var rest := es - {o};
    if exists p :: p in rest && Visible(p, user, s) {
      var p := NewestExists(rest, user, s);
      e := if p.k.sn < o.k.sn then o else p;
      assert forall q :: q in es ==> q == o || q in rest;
    } else {
      e := o;
      assert forall q :: q in es ==> q == o || q in rest;
    }
  }

  lemma ReadNone(es: set<Entry>, user: UserKey, s: SequenceNumber)
    requires forall e :: e in es ==> !Visible(e, user, s)
    ensures Read(es, user, s) == None
  {
  }

  /** One more entry changes what is read exactly where it is the newest visible one. */
  lemma ReadAfterWrite(es: set<Entry>, e: Entry, user: UserKey, s: SequenceNumber)
    requires Distinct(es + {e})
    requires forall o :: o in es ==> o.k.sn < e.k.sn
    ensures Read(es + {e}, user, s) == if Visible(e, user, s) then Shown(e) else Read(es, user, s)
  {
    if Visible(e, user, s) {
      ReadOfNewest(es + {e}, user, s, e);
    } else if exists o :: o in es && Visible(o, user, s) {
      var n := NewestExists(es, user, s);
      ReadOfNewest(es, user, s, n);
      ReadOfNewest(es + {e}, user, s, n);
    } else {
      ReadNone(es, user, s);
      ReadNone(es + {e}, user, s);
    }
  }

  // ---------------------------------------------------------------------------------------------
  // Sorted runs: a table, a memtable, or all files of one level in order

  ghost predicate SortedRun(es: seq<Entry>) {
    forall i, j :: 0 <= i < j < |es| ==> Before(es[i].k, es[j].k)
  }

  ghost function SetOf(es: seq<Entry>): set<Entry> {
    set e | e in es
  }

  lemma SetOfConcat(a: seq<Entry>, b: seq<Entry>)
    ensures SetOf(a + b) == SetOf(a) + SetOf(b)
  {
  }

  ghost predicate IsLowerBound(es: seq<Entry>, target: InternalKey, i: int) {
    && 0 <= i <= |es|
    && (forall j :: 0 <= j < i ==> Before(es[j].k, target))
    && (forall j :: i <= j < |es| ==> !Before(es[j].k, target))
  }

  /** What Seek(target) does on a run: the first entry not before the target. */
  function LowerBound(es: seq<Entry>, target: InternalKey): (i: nat)
    ensures i <= |es|
    ensures forall j :: 0 <= j < i ==> Before(es[j].k, target)
    ensures i < |es| ==> !Before(es[i].k, target)
    ensures SortedRun(es) ==> IsLowerBound(es, target, i)
  {
    if es == [] || !Before(es[0].k, target) then
      assert SortedRun(es) ==> forall j :: 0 < j < |es| ==> Before(es[0].k, es[j].k);
      0
    else
      var i := 1 + LowerBound(es[1..], target);
      assert forall j :: 0 < j < |es| ==> es[j] == es[1..][j - 1];
      i
  }

  /** Seek to the lookup key and take the entry there if it belongs to the user key. */
  function RunGet(es: seq<Entry>, user: UserKey, s: SequenceNumber): Option<Entry> {
    var i := LowerBound(es, LookupKey(user, s));
    if i < |es| && es[i].k.user == user then Some(es[i]) else None
  }

  /** On a sorted run the entry found is the newest visible one, and none is found only if there
      is none. */
  lemma RunGetFindsNewest(es: seq<Entry>, user: UserKey, s: SequenceNumber)
    requires SortedRun(es)
    ensures RunGet(es, user, s).Some? ==> IsNewest(SetOf(es), user, s, RunGet(es, user, s).value)
    ensures RunGet(es, user, s).None? ==> forall e :: e in es ==> !Visible(e, user, s)
  {
    var i := LowerBound(es, LookupKey(user, s));
    forall e | e in es && Visible(e, user, s)
      ensures i < |es| && es[i].k.user == user && e.k.sn <= es[i].k.sn <= s
    {
      var j :| 0 <= j < |es| && es[j] == e;
      LookupKeySeparates(e.k, s);
      assert i <= j;
      if i < j {
        assert Before(es[i].k, es[j].k);
      }
    }
  }
}
