/** DBIter: one entry per live user key, in either direction (LevelDB db/db_iter.cc). */
module DbIter {
  import opened Options
  import opened DbFormat

  datatype Direction = Forward | Reverse

  /** es[i] is the entry a reader at `s` gets for its key: a value, newest of the visible ones. */
  ghost predicate Yields(es: seq<Entry>, s: SequenceNumber, i: int) {
    && 0 <= i < |es| && es[i].k.sn <= s && es[i].k.kind.Value?
    && forall j :: 0 <= j < i && es[j].k.user == es[i].k.user ==> s < es[j].k.sn
  }

  /** `i` is the first yielding position at or after `from`, or -1 if there is none. */
  ghost predicate FirstFrom(es: seq<Entry>, s: SequenceNumber, from: int, i: int) {
    && (i != -1 ==> Yields(es, s, i) && from <= i)
    && forall j :: from <= j && (i == -1 || j < i) ==> !Yields(es, s, j)
  }

  /** `i` is the last yielding position before `to`, or -1 if there is none. */
  ghost predicate LastBefore(es: seq<Entry>, s: SequenceNumber, to: int, i: int) {
    && (i != -1 ==> Yields(es, s, i) && i < to)
    && forall j :: i < j < to ==> !Yields(es, s, j)
  }

  ghost predicate UserOrder(es: seq<Entry>) {
    forall i, j :: 0 <= i < j < |es| ==> es[i].k.user <= es[j].k.user
  }

  /** What FindNextUserEntry looks for: a yielding entry, past `skip` when told to skip. */
  ghost predicate Wanted(es: seq<Entry>, s: SequenceNumber, j: int, skip: Option<UserKey>) {
    Yields(es, s, j) && (skip.Some? ==> skip.value < es[j].k.user)
  }

  /** Entries at or after `p` share a key with a visible one before only where they are skipped. */
  ghost predicate Settled(es: seq<Entry>, s: SequenceNumber, p: int, skip: Option<UserKey>)
    requires 0 <= p <= |es|
  {
    && (forall i, j :: 0 <= i < p <= j < |es| && es[i].k.user == es[j].k.user && es[i].k.sn <= s ==>
          skip.Some? && es[i].k.user <= skip.value)
    && (skip.Some? ==> forall j :: p <= j < |es| && es[j].k.sn <= s ==> skip.value <= es[j].k.user)
  }

  /** Nothing wanted lies before `p`, nor after it among the keys being skipped. */
  ghost predicate NoneYet(es: seq<Entry>, s: SequenceNumber, from: int, p: int, skip: Option<UserKey>,
                          skip0: Option<UserKey>)
    requires 0 <= from && 0 <= p <= |es|
  {
    && (skip0.Some? ==> skip.Some? && skip0.value <= skip.value)
    && (forall j :: from <= j < p ==> !Wanted(es, s, j, skip0))
    && (skip.Some? ==> forall j :: p <= j < |es| && es[j].k.user <= skip.value ==> !Wanted(es, s, j, skip0))
  }

  lemma ScanOver(es: seq<Entry>, s: SequenceNumber, from: int, p: int, skip: Option<UserKey>, skip0: Option<UserKey>,
                 skip': Option<UserKey>)
    requires UserOrder(es) && 0 <= from <= p < |es|
    requires Settled(es, s, p, skip) && NoneYet(es, s, from, p, skip, skip0)
    requires var e := es[p];
      if e.k.sn <= s && e.k.kind.Deletion? then skip' == Some(e.k.user)
      else skip' == skip && (e.k.sn <= s ==> skip.Some? && e.k.user <= skip.value)
    ensures Settled(es, s, p + 1, skip') && NoneYet(es, s, from, p + 1, skip', skip0)
  {
    assert !Wanted(es, s, p, skip0);
    if es[p].k.sn <= s && es[p].k.kind.Deletion? {
      forall j | p < j < |es| && es[j].k.user <= es[p].k.user
        ensures !Wanted(es, s, j, skip0)
      {
        assert es[j].k.user == es[p].k.user;
      }
    }
  }

  ghost predicate FirstWanted(es: seq<Entry>, s: SequenceNumber, from: int, skip: Option<UserKey>, i: int)
    requires 0 <= from
  {
    && (i != -1 ==> Wanted(es, s, i, skip) && from <= i)
    && forall j :: from <= j < (if i == -1 then |es| else i) ==> !Wanted(es, s, j, skip)
  }

  /** The first yielding entry whose key is not before `target`, or -1. */
  ghost predicate FirstAtOrAfter(es: seq<Entry>, s: SequenceNumber, target: UserKey, i: int) {
    && (i != -1 ==> Yields(es, s, i) && target <= es[i].k.user)
    && forall j :: 0 <= j < (if i == -1 then |es| else i) && Yields(es, s, j) ==> es[j].k.user < target
  }

  lemma StartScan(es: seq<Entry>, s: SequenceNumber, p: int, skip0: Option<UserKey>)
    requires 0 <= p <= |es|
    ensures NoneYet(es, s, p, p, skip0, skip0)
  {
  }

  lemma Found(es: seq<Entry>, s: SequenceNumber, from: int, p: int, skip: Option<UserKey>, skip0: Option<UserKey>)
    requires UserOrder(es) && 0 <= from <= p < |es| && Settled(es, s, p, skip) && NoneYet(es, s, from, p, skip, skip0)
    requires es[p].k.sn <= s && es[p].k.kind.Value? && !(skip.Some? && es[p].k.user <= skip.value)
    ensures FirstWanted(es, s, from, skip0, p) && Yields(es, s, p)
  {
  }

  lemma NotFound(es: seq<Entry>, s: SequenceNumber, from: int, skip: Option<UserKey>, skip0: Option<UserKey>)
    requires 0 <= from && NoneYet(es, s, from, |es|, skip, skip0)
    ensures FirstWanted(es, s, from, skip0, -1)
  {
  }

  /** Stepping on from the current entry, what is wanted past its key is what yields after it. */
  lemma AfterCurrent(es: seq<Entry>, s: SequenceNumber, p: int, current: int)
    requires UserOrder(es) && Yields(es, s, current) && 0 <= p <= current
    requires forall j :: p <= j < |es| && es[j].k.user < es[current].k.user ==> s < es[j].k.sn
    ensures Settled(es, s, p, Some(es[current].k.user))
  {
  }

  lemma NextFound(es: seq<Entry>, s: SequenceNumber, p: int, current: int, i: int)
    requires UserOrder(es) && Yields(es, s, current) && 0 <= p <= current
    requires FirstWanted(es, s, p, Some(es[current].k.user), i)
    ensures FirstFrom(es, s, current + 1, i)
  {
    forall j | current + 1 <= j && (i == -1 || j < i)
      ensures !Yields(es, s, j)
    {
      if Yields(es, s, j) {
        assert es[current].k.user <= es[j].k.user;
        assert Wanted(es, s, j, Some(es[current].k.user));
      }
    }
  }

  lemma FirstFound(es: seq<Entry>, s: SequenceNumber, i: int)
    requires FirstWanted(es, s, 0, None, i)
    ensures FirstFrom(es, s, 0, i)
  {
    forall j | 0 <= j && (i == -1 || j < i)
      ensures !Yields(es, s, j)
    {
      assert j < |es| ==> !Wanted(es, s, j, None);
    }
  }

  lemma SeekSettles(es: seq<Entry>, s: SequenceNumber, target: UserKey, p: nat)
    requires UserOrder(es) && IsLowerBound(es, LookupKey(target, s), p)
    ensures Settled(es, s, p, None)
    ensures p == |es| ==> FirstAtOrAfter(es, s, target, -1)
  {
  }

  lemma SeekFound(es: seq<Entry>, s: SequenceNumber, target: UserKey, p: nat, i: int)
    requires UserOrder(es) && IsLowerBound(es, LookupKey(target, s), p) && FirstWanted(es, s, p, None, i)
    ensures FirstAtOrAfter(es, s, target, i)
  {
    forall j | 0 <= j < (if i == -1 then |es| else i) && Yields(es, s, j)
      ensures es[j].k.user < target
    {
      assert p <= j ==> !Wanted(es, s, j, None);
    }
  }

  /** Nothing yields between the current entry and where the way back continues. */
  lemma BeforeCurrent(es: seq<Entry>, s: SequenceNumber, p: int, current: int)
    requires UserOrder(es) && Yields(es, s, current) && -1 <= p < current
    requires forall j :: p < j < current && es[j].k.user < es[current].k.user ==> s < es[j].k.sn
    ensures forall i :: LastBefore(es, s, p + 1, i) ==> LastBefore(es, s, current, i)
    ensures p == -1 ==> LastBefore(es, s, current, -1)
  {
    forall j | p < j < current
      ensures !Yields(es, s, j)
    {
    }
  }

  /** Scanning back from q0 with q next to look at: `cand` is the last value seen, the least visible
      entry so far, or -1 after a deletion; nothing else seen yields. */
  ghost predicate Backward(es: seq<Entry>, s: SequenceNumber, q0: int, q: int, cand: int)
    requires -1 <= q <= q0 < |es|
  {
    && (cand != -1 ==>
          && q < cand <= q0 && es[cand].k.sn <= s && es[cand].k.kind.Value?
          && forall j :: q < j < cand ==> s < es[j].k.sn)
    && forall j :: q < j <= q0 && j != cand ==> !Yields(es, s, j)
  }

  lemma StepBack(es: seq<Entry>, s: SequenceNumber, q0: int, q: int, cand: int)
    requires UserOrder(es) && 0 <= q <= q0 < |es| && Backward(es, s, q0, q, cand)
    requires es[q].k.sn <= s && cand != -1 ==> es[cand].k.user <= es[q].k.user
    ensures Backward(es, s, q0, q - 1, if es[q].k.sn <= s then if es[q].k.kind.Value? then q else -1 else cand)
  {
  }

  lemma BackwardEnds(es: seq<Entry>, s: SequenceNumber, q0: int, q: int, cand: int)
    requires UserOrder(es) && -1 <= q <= q0 < |es| && Backward(es, s, q0, q, cand)
    requires q != -1 ==> cand != -1 && es[q].k.sn <= s && es[q].k.user < es[cand].k.user
    ensures LastBefore(es, s, q0 + 1, cand) && (cand != -1 ==> Yields(es, s, cand) && q < cand)
    ensures cand != -1 ==> forall j :: q < j < |es| && es[j].k.user < es[cand].k.user ==> s < es[j].k.sn
  {
    if cand != -1 {
      forall j | 0 <= j < cand && es[j].k.user == es[cand].k.user
        ensures s < es[j].k.sn
      {
      }
    }
  }

  class Iter {
    const es: seq<Entry>           // what the internal iterator runs over
    const s: SequenceNumber        // sequence_
    var at: int                    // iter_: a position in es, or -1 when not valid
    var direction: Direction
    var valid: bool
    var savedKey: Option<UserKey>  // None once cleared
    var savedValue: Bytes
    ghost var current: int         // the entry standing for the current key

    /** Going forward the internal iterator is at the current entry.  Going backward it is before all
        entries of the current key, and what lies in between, if anything, is invisible. */
    ghost predicate Valid()
      reads this
    {
      && Shape()
      && (valid ==> Yields(es, s, current))
      && (valid && direction == Forward ==> at == current)
      && (valid && direction == Reverse ==>
            && at < current && savedKey == Some(es[current].k.user) && savedValue == es[current].value
            && (at != -1 ==> es[at].k.user < es[current].k.user)
            && forall j :: at < j < |es| && es[j].k.user < es[current].k.user ==> s < es[j].k.sn)
    }

    ghost predicate Shape()
      reads `at
    {
      SortedRun(es) && UserOrder(es) && -1 <= at < |es|
    }

    constructor (es: seq<Entry>, s: SequenceNumber)
      requires SortedRun(es)
      ensures Valid() && !valid && this.es == es && this.s == s
    {
      this.es, this.s := es, s;
      at, direction, valid, savedKey, savedValue, current := -1, Forward, false, None, [], -1;
    }

    function Key(): UserKey
      requires Valid() && valid
      reads this
      ensures Key() == es[current].k.user
    {
      if direction == Forward then es[at].k.user else savedKey.value
    }

    function Value(): Bytes
      requires Valid() && valid
      reads this
      ensures Value() == es[current].value
    {
      if direction == Forward then es[at].value else savedValue
    }

    method IterNext()
      requires 0 <= at < |es|
      modifies `at
      ensures at == if old(at) + 1 < |es| then old(at) + 1 else -1
    {
      at := if at + 1 < |es| then at + 1 else -1;
    }

    method FindNextUserEntry(skip0: Option<UserKey>)
      requires Shape() && 0 <= at && direction == Forward && Settled(es, s, at, skip0)
      modifies `at, `valid, `savedKey, `current
      ensures Valid()
      ensures FirstWanted(es, s, old(at), skip0, if valid then current else -1)
    {
      hide Settled, NoneYet, SortedRun, UserOrder, FirstWanted, Yields;
      var skip := skip0;
      StartScan(es, s, at, skip0);
      while at != -1
        invariant -1 <= at < |es| && (at != -1 ==> old(at) <= at)
        invariant NoneYet(es, s, old(at), if at == -1 then |es| else at, skip, skip0)
        invariant at != -1 ==> Settled(es, s, at, skip)
        decreases if at == -1 then 0 else |es| - at
      {
        var e := es[at];
        if e.k.sn <= s && e.k.kind.Value? && !(skip.Some? && e.k.user <= skip.value) {
          Found(es, s, old(at), at, skip, skip0);
          valid, current := true, at;
          savedKey := None;
          return;
        }
        var next := if e.k.sn <= s && e.k.kind.Deletion? then Some(e.k.user) else skip;
        ScanOver(es, s, old(at), at, skip, skip0, next);
        skip := next;
        IterNext();
      }
      savedKey := None;
      valid := false;
      NotFound(es, s, old(at), skip, skip0);
    }

    method Next()
      requires Valid() && valid
      modifies `at, `valid, `savedKey, `current, `direction
      ensures Valid()
      ensures FirstFrom(es, s, old(current) + 1, if valid then current else -1)
    {
      if direction == Reverse {
        direction := Forward;
        at := if at == -1 then 0 else at + 1;
      } else {
        savedKey := Some(es[at].k.user);
      }
      AfterCurrent(es, s, at, current);
      ghost var p, was := at, current;
      FindNextUserEntry(savedKey);
      NextFound(es, s, p, was, if valid then current else -1);
    }

    method SeekToFirst()
      requires Valid()
      modifies `at, `valid, `savedKey, `savedValue, `current, `direction
      ensures Valid()
      ensures FirstFrom(es, s, 0, if valid then current else -1)
    {
      direction := Forward;
      savedValue := [];
      at := if es == [] then -1 else 0;
      if at != -1 {
        FindNextUserEntry(None);
        FirstFound(es, s, if valid then current else -1);
      } else {
        valid := false;
      }
    }

    /** The first live entry whose key is not before `target`. */
    method Seek(target: UserKey)
      requires Valid()
      modifies `at, `valid, `savedKey, `savedValue, `current, `direction
      ensures Valid()
      ensures FirstAtOrAfter(es, s, target, if valid then current else -1)
    {
      direction := Forward;
      savedValue := [];
      savedKey := None;
      var i := LowerBound(es, LookupKey(target, s));
      SeekSettles(es, s, target, i);
      at := if i < |es| then i else -1;
      if at != -1 {
        FindNextUserEntry(None);
        SeekFound(es, s, target, i, if valid then current else -1);
      } else {
        valid := false;
      }
    }

    /** Moves the internal iterator back past the entries of the current key. */
    method SkipBack()
      requires Valid() && valid && direction == Forward
      modifies `at, `savedKey
      ensures -1 <= at < current && savedKey == Some(es[current].k.user)
      ensures at != -1 ==> es[at].k.user < es[current].k.user
      ensures forall j :: at < j < current ==> es[j].k.user == es[current].k.user
    {
      savedKey := Some(es[at].k.user);
      at := at - 1;
      while at != -1 && !(es[at].k.user < savedKey.value)
        invariant -1 <= at < current && savedKey == Some(es[current].k.user)
        invariant forall j :: at < j < current ==> es[j].k.user == es[current].k.user
      {
        at := at - 1;
      }
    }

    method Prev()
      requires Valid() && valid
      modifies `at, `valid, `savedKey, `savedValue, `current, `direction
      ensures Valid()
      ensures LastBefore(es, s, old(current), if valid then current else -1)
    {
      if direction == Forward {
        SkipBack();
        BeforeCurrent(es, s, at, current);
        if at == -1 {
          valid := false;
          savedKey := None;
          savedValue := [];
          return;
        }
        direction := Reverse;
      } else {
        BeforeCurrent(es, s, at, current);
      }
      FindPrevUserEntry();
    }

    method SeekToLast()
      requires Valid()
      modifies `at, `valid, `savedKey, `savedValue, `current, `direction
      ensures Valid()
      ensures LastBefore(es, s, |es|, if valid then current else -1)
    {
      direction := Reverse;
      savedValue := [];
      at := |es| - 1;
      FindPrevUserEntry();
    }

    method FindPrevUserEntry()
      requires Shape() && direction == Reverse
      modifies `at, `valid, `savedKey, `savedValue, `current, `direction
      ensures Valid()
      ensures LastBefore(es, s, old(at) + 1, if valid then current else -1)
    {
      hide SortedRun, UserOrder, Yields, LastBefore;
      ghost var q0 := at;
      ghost var cand := -1;
      var valueType := Deletion;
      while at != -1
        invariant -1 <= at <= q0 < |es| && direction == Reverse
        invariant Backward(es, s, q0, at, cand)
        invariant valueType.Value? <==> cand != -1
        invariant cand != -1 ==> savedKey == Some(es[cand].k.user) && savedValue == es[cand].value
        decreases at
      {
        var e := es[at];
        if e.k.sn <= s {
          if valueType.Value? && e.k.user < savedKey.value {
            break;
          }
          valueType := e.k.kind;
          if valueType.Deletion? {
            savedKey, savedValue := None, [];
          } else {
            savedKey, savedValue := Some(e.k.user), e.value;
          }
        }
        StepBack(es, s, q0, at, cand);
        if e.k.sn <= s {
          cand := if e.k.kind.Value? then at else -1;
        }
        at := at - 1;
      }
      BackwardEnds(es, s, q0, at, cand);
      if valueType.Deletion? {
        valid := false;
        savedKey, savedValue := None, [];
        direction := Forward;
      } else {
        valid, current := true, cand;
      }
    }
  }

  // ---------------------------------------------------------------------------------------------
  // The iterator as a cursor over the live keys

  /** The positions that yield, among the first `n`. */
  ghost function Yielding(es: seq<Entry>, s: SequenceNumber, n: nat): seq<nat>
    requires n <= |es|
  {
    if n == 0 then []
    else Yielding(es, s, n - 1) + (if Yields(es, s, n - 1) then [n - 1] else [])
  }

  lemma {:induction false} YieldingInOrder(es: seq<Entry>, s: SequenceNumber, n: nat)
    requires n <= |es|
    ensures forall c :: 0 <= c < |Yielding(es, s, n)| ==>
              Yielding(es, s, n)[c] < n && Yields(es, s, Yielding(es, s, n)[c])
    ensures forall c, d :: 0 <= c < d < |Yielding(es, s, n)| ==> Yielding(es, s, n)[c] < Yielding(es, s, n)[d]
  {
    if n > 0 {
      YieldingInOrder(es, s, n - 1);
      hide Yields;
    }
  }

  lemma {:induction false} YieldingHas(es: seq<Entry>, s: SequenceNumber, n: nat, i: nat) returns (c: nat)
    requires i < n <= |es| && Yields(es, s, i)
    ensures c < |Yielding(es, s, n)| && Yielding(es, s, n)[c] == i
  {
    if i == n - 1 {
      c := |Yielding(es, s, n - 1)|;
    } else {
      c := YieldingHas(es, s, n - 1, i);
    }
  }

  lemma YieldingIsAll(es: seq<Entry>, s: SequenceNumber, n: nat)
    requires n <= |es|
    ensures forall c, d :: 0 <= c < d < |Yielding(es, s, n)| ==> Yielding(es, s, n)[c] < Yielding(es, s, n)[d]
    ensures forall c :: 0 <= c < |Yielding(es, s, n)| ==>
              Yielding(es, s, n)[c] < n && Yields(es, s, Yielding(es, s, n)[c])
    ensures forall i :: 0 <= i < n && Yields(es, s, i) ==>
              exists c :: 0 <= c < |Yielding(es, s, n)| && Yielding(es, s, n)[c] == i
  {
    hide Yields, Yielding;
    YieldingInOrder(es, s, n);
    forall i | 0 <= i < n && Yields(es, s, i)
      ensures exists c :: 0 <= c < |Yielding(es, s, n)| && Yielding(es, s, n)[c] == i
    {
      var c := YieldingHas(es, s, n, i);
    }
  }

  /** The live keys and their values at snapshot `s`, in key order. */
  ghost function Live(es: seq<Entry>, s: SequenceNumber): seq<(UserKey, Bytes)> {
    var p := Yielding(es, s, |es|);
    YieldingIsAll(es, s, |es|);
    seq(|p|, c requires 0 <= c < |p| && p[c] < |es| => (es[p[c]].k.user, es[p[c]].value))
  }

  /** They are exactly what reading each key gives, each key once, in increasing order. */
  lemma LiveIsWhatIsRead(es: seq<Entry>, s: SequenceNumber)
    requires SortedRun(es) && Distinct(SetOf(es))
    ensures forall c, d :: 0 <= c < d < |Live(es, s)| ==> Live(es, s)[c].0 < Live(es, s)[d].0
    ensures forall user, value :: (user, value) in Live(es, s) <==> Read(SetOf(es), user, s) == Some(value)
  {
    hide SortedRun, Distinct, Live, Read;
    LiveInOrder(es, s);
    forall user, value
      ensures (user, value) in Live(es, s) <==> Read(SetOf(es), user, s) == Some(value)
    {
      LiveIffRead(es, s, user, value);
    }
  }

  lemma LiveInOrder(es: seq<Entry>, s: SequenceNumber)
    requires SortedRun(es)
    ensures forall c, d :: 0 <= c < d < |Live(es, s)| ==> Live(es, s)[c].0 < Live(es, s)[d].0
  {
    var p := Yielding(es, s, |es|);
    YieldingIsAll(es, s, |es|);
    forall c, d | 0 <= c < d < |p|
      ensures es[p[c]].k.user < es[p[d]].k.user
    {
      assert Before(es[p[c]].k, es[p[d]].k);
    }
  }

  lemma LiveIffRead(es: seq<Entry>, s: SequenceNumber, user: UserKey, value: Bytes)
    requires SortedRun(es) && Distinct(SetOf(es))
    ensures (user, value) in Live(es, s) <==> Read(SetOf(es), user, s) == Some(value)
  {
    hide SortedRun, Distinct, Yields, Yielding, Read;
    var p, live := Yielding(es, s, |es|), Live(es, s);
    YieldingIsAll(es, s, |es|);
    if (user, value) in live {
      var c :| 0 <= c < |live| && live[c] == (user, value);
      YieldIsRead(es, s, p[c]);
    }
    if Read(SetOf(es), user, s) == Some(value) {
      var i := ReadYields(es, s, user);
      var c := YieldingHas(es, s, |es|, i);
      assert live[c] == (user, value);
    }
  }

  lemma YieldIsRead(es: seq<Entry>, s: SequenceNumber, i: int)
    requires SortedRun(es) && Distinct(SetOf(es)) && Yields(es, s, i)
    ensures Read(SetOf(es), es[i].k.user, s) == Some(es[i].value)
  {
    forall o | o in SetOf(es) && Visible(o, es[i].k.user, s)
      ensures o.k.sn <= es[i].k.sn
    {
      var j :| 0 <= j < |es| && es[j] == o;
      assert i < j ==> Before(es[i].k, es[j].k);
    }
    ReadOfNewest(SetOf(es), es[i].k.user, s, es[i]);
  }

  lemma ReadYields(es: seq<Entry>, s: SequenceNumber, user: UserKey) returns (i: int)
    requires SortedRun(es) && Distinct(SetOf(es)) && Read(SetOf(es), user, s).Some?
    ensures 0 <= i < |es| && Yields(es, s, i) && es[i].k.user == user && Read(SetOf(es), user, s) == Some(es[i].value)
  {
    if forall e :: e in SetOf(es) ==> !Visible(e, user, s) {
      ReadNone(SetOf(es), user, s);
      assert false;
    }
    var n := NewestExists(SetOf(es), user, s);
    ReadOfNewest(SetOf(es), user, s, n);
    i :| 0 <= i < |es| && es[i] == n;
    forall j | 0 <= j < i && es[j].k.user == user
      ensures s < es[j].k.sn
    {
      assert Before(es[j].k, es[i].k);
      if es[j].k.sn <= s {
        assert es[j] in SetOf(es) && Visible(es[j], user, s);
      }
    }
  }

  datatype Op = ToFirst | ToLast | To(target: UserKey) | Forth | Back

  /** How an operation moves a cursor over a list of live keys; -1 is off the list. */
  ghost predicate Moves(live: seq<(UserKey, Bytes)>, c: int, op: Op, c': int)
    requires -1 <= c < |live|
  {
    && -1 <= c' < |live|
    && match op
       case ToFirst => c' == (if live == [] then -1 else 0)
       case ToLast => c' == |live| - 1
       case To(target) =>
         && (c' != -1 ==> target <= live[c'].0)
         && forall d :: 0 <= d < (if c' == -1 then |live| else c') ==> live[d].0 < target
       case Forth => c' == if c == -1 || c + 1 == |live| then -1 else c + 1
       case Back => c' == if c == -1 then -1 else c - 1
  }

  ghost predicate Stands(es: seq<Entry>, s: SequenceNumber, valid: bool, current: int, c: int) {
    var p := Yielding(es, s, |es|);
    && -1 <= c < |p| && (valid <==> c != -1) && (valid ==> p[c] == current)
  }

  lemma FirstFromMoves(es: seq<Entry>, s: SequenceNumber, c: int, i: int) returns (c': int)
    requires -1 <= c < |Yielding(es, s, |es|)|
    requires FirstFrom(es, s, if c == -1 then 0 else Yielding(es, s, |es|)[c] + 1, i)
    ensures Stands(es, s, i != -1, i, c')
    ensures c' == if c + 1 == |Yielding(es, s, |es|)| then -1 else c + 1
  {
    var p := Yielding(es, s, |es|);
    YieldingIsAll(es, s, |es|);
    if c + 1 < |p| {
      c' := c + 1;
      assert Yields(es, s, p[c + 1]);
      if i != -1 {
        var d :| 0 <= d < |p| && p[d] == i;
      }
    } else {
      c' := -1;
    }
  }

  lemma LastBeforeMoves(es: seq<Entry>, s: SequenceNumber, c: int, i: int) returns (c': int)
    requires 0 <= c <= |Yielding(es, s, |es|)|
    requires LastBefore(es, s, if c == |Yielding(es, s, |es|)| then |es| else Yielding(es, s, |es|)[c], i)
    ensures Stands(es, s, i != -1, i, c') && c' == c - 1
  {
    var p := Yielding(es, s, |es|);
    YieldingIsAll(es, s, |es|);
    c' := c - 1;
    if c > 0 {
      assert Yields(es, s, p[c - 1]);
      assert c < |p| ==> p[c - 1] < p[c];
      if i != -1 {
        var d :| 0 <= d < |p| && p[d] == i;
      }
    }
  }

  lemma SeekMoves(es: seq<Entry>, s: SequenceNumber, target: UserKey, c: int, i: int) returns (c': int)
    requires UserOrder(es) && FirstAtOrAfter(es, s, target, i) && -1 <= c < |Live(es, s)|
    ensures Stands(es, s, i != -1, i, c') && Moves(Live(es, s), c, To(target), c')
  {
    var p := Yielding(es, s, |es|);
    YieldingIsAll(es, s, |es|);
    if i == -1 {
      c' := -1;
    } else {
      c' :| 0 <= c' < |p| && p[c'] == i;
    }
  }

  /** One operation on the iterator moves the cursor it stands for. */
  method Perform(it: Iter, op: Op, ghost c: int) returns (ghost c': int)
    requires it.Valid() && Stands(it.es, it.s, it.valid, it.current, c)
    modifies it
    ensures it.Valid() && Stands(it.es, it.s, it.valid, it.current, c')
    ensures -1 <= c' < |Live(it.es, it.s)| && Moves(Live(it.es, it.s), c, op, c')
    ensures Shows(Live(it.es, it.s), c', if it.valid then Some((it.Key(), it.Value())) else None)
  {
    c' := c;
    match op
    case ToFirst =>
      it.SeekToFirst();
      c' := FirstFromMoves(it.es, it.s, -1, if it.valid then it.current else -1);
    case ToLast =>
      it.SeekToLast();
      c' := LastBeforeMoves(it.es, it.s, |Yielding(it.es, it.s, |it.es|)|, if it.valid then it.current else -1);
    case To(target) =>
      it.Seek(target);
      c' := SeekMoves(it.es, it.s, target, c, if it.valid then it.current else -1);
    case Forth =>
      if it.valid {
        it.Next();
        c' := FirstFromMoves(it.es, it.s, c, if it.valid then it.current else -1);
      }
    case Back =>
      if it.valid {
        it.Prev();
        c' := LastBeforeMoves(it.es, it.s, c, if it.valid then it.current else -1);
      }
  }

  /** What is shown of a cursor: the key and value it is on, or nothing off the list. */
  ghost predicate Shows(live: seq<(UserKey, Bytes)>, c: int, shown: Option<(UserKey, Bytes)>) {
    -1 <= c < |live| && shown == if c == -1 then None else Some(live[c])
  }

  ghost predicate CursorRun(live: seq<(UserKey, Bytes)>, ops: seq<Op>, cursors: seq<int>) {
    && |cursors| == |ops| + 1 && cursors[0] == -1
    && forall n :: 0 <= n < |ops| ==> -1 <= cursors[n] < |live| && Moves(live, cursors[n], ops[n], cursors[n + 1])
  }

  /** Any sequence of operations, changes of direction included, shows what a cursor over the live
      keys would: after each one, the key and value the cursor is on, or nothing off the list. */
  method RunOps(es: seq<Entry>, s: SequenceNumber, ops: seq<Op>)
    returns (shown: seq<Option<(UserKey, Bytes)>>, ghost cursors: seq<int>)
    requires SortedRun(es)
    ensures CursorRun(Live(es, s), ops, cursors) && |shown| == |ops|
    ensures forall n :: 0 <= n < |ops| ==> Shows(Live(es, s), cursors[n + 1], shown[n])
  {
    hide Moves, Shows, Live, Yielding, Yields, SortedRun, UserOrder;
    var it := new Iter(es, s);
    ghost var live := Live(es, s);
    shown, cursors := [], [-1];
    for n := 0 to |ops|
      invariant it.Valid() && it.es == es && it.s == s
      invariant CursorRun(live, ops[..n], cursors) && |shown| == n && -1 <= cursors[n] < |live|
      invariant Stands(es, s, it.valid, it.current, cursors[n])
      invariant forall m :: 0 <= m < n ==> Shows(live, cursors[m + 1], shown[m])
    {
      ghost var c := Perform(it, ops[n], cursors[n]);
      shown := shown + [if it.valid then Some((it.Key(), it.Value())) else None];
      cursors := cursors + [c];
      assert ops[..n + 1] == ops[..n] + [ops[n]];
    }
    assert ops[..|ops|] == ops;
  }
}
