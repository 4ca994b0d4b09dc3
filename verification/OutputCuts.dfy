/** Where a compaction ends one output and begins the next (LevelDB db/version_set.cc, ShouldStopBefore, and
    the loop of db/db_impl.cc, DoCompactionWork). */
module OutputCuts {
  import opened DbFormat
  import opened Tree

  /** The files two levels down, how much of them an output may span, the size of a table being built, and the
      size at which it is closed. */
  datatype Limits = Limits(grandparents: seq<File>, overlap: nat, sizeOf: seq<Entry> -> nat, fileSize: nat)

  ghost predicate EndsAscend(files: seq<File>) {
    forall i, j :: 0 <= i < j < |files| ==> Before(files[i].largest, files[j].largest)
  }

  /** The file ends at `from` or after it, and before `to`. */
  ghost predicate EndsWithin(f: File, from: InternalKey, to: InternalKey) {
    !Before(f.largest, from) && Before(f.largest, to)
  }

  /** The size of those of the first n files that do. */
  ghost function Spanned(files: seq<File>, n: nat, from: InternalKey, to: InternalKey): nat
    requires n <= |files|
  {
    if n == 0 then 0
    else Spanned(files, n - 1, from, to) + if EndsWithin(files[n - 1], from, to) then files[n - 1].size else 0
  }

  lemma {:induction false} SpannedGrows(files: seq<File>, n: nat, from: InternalKey, to: InternalKey,
                                        from': InternalKey, to': InternalKey)
    requires n <= |files|
    requires forall i :: 0 <= i < n && EndsWithin(files[i], from, to) ==> EndsWithin(files[i], from', to')
    ensures Spanned(files, n, from, to) <= Spanned(files, n, from', to')
  {
    if n > 0 {
      SpannedGrows(files, n - 1, from, to, from', to');
    }
  }

  /** A narrower range spans no more. */
  lemma NarrowerSpansLess(files: seq<File>, from: InternalKey, to: InternalKey, from': InternalKey, to': InternalKey)
    requires !Before(from, from') && !Before(to', to)
    ensures Spanned(files, |files|, from, to) <= Spanned(files, |files|, from', to')
  {
    forall i | 0 <= i < |files| && EndsWithin(files[i], from, to)
      ensures EndsWithin(files[i], from', to')
    {
      NotBefore(files[i].largest, from, from');
      NotBefore(to', to, files[i].largest);
    }
    SpannedGrows(files, |files|, from, to, from', to');
  }

  lemma NotBefore(a: InternalKey, b: InternalKey, c: InternalKey)
    ensures !Before(a, b) && !Before(b, c) ==> !Before(a, c)
    ensures !Before(a, b) && Before(c, b) ==> Before(c, a)
  {
    BeforeIsStrictTotalOrder(a, c, b);
    BeforeIsStrictTotalOrder(b, a, c);
    BeforeIsStrictTotalOrder(c, b, a);
  }

  lemma {:induction false} NoneBeyond(files: seq<File>, n: nat, m: nat, from: InternalKey, to: InternalKey)
    requires n <= m <= |files| && forall i :: n <= i < m ==> !EndsWithin(files[i], from, to)
    ensures Spanned(files, n, from, to) == Spanned(files, m, from, to)
  {
    if n < m {
      NoneBeyond(files, n, m - 1, from, to);
    }
  }

  lemma NothingSpanned(files: seq<File>, key: InternalKey)
    ensures Spanned(files, |files|, key, key) == 0
  {
    NoneBeyond(files, 0, |files|, key, key);
  }

  // ---------------------------------------------------------------------------------------------
  // Watching the grandparents go by

  class Watch {
    const grandparents: seq<File>
    const limit: nat
    var index: nat
    var seenKey: bool
    var overlapped: nat
    ghost var since: InternalKey
    ghost var last: InternalKey

    /** Counted is what ends between the key where it last stopped, or the first, and the last key. */
    ghost predicate Valid()
      reads this
    {
      && EndsAscend(grandparents) && index <= |grandparents| && overlapped <= limit
      && (!seenKey ==> index == 0 && overlapped == 0)
      && (seenKey ==>
            && !Before(last, since) && Passed(index, last)
            && overlapped == Spanned(grandparents, |grandparents|, since, last))
    }

    ghost predicate Passed(n: nat, key: InternalKey)
      requires n <= |grandparents|
    {
      && (forall i :: 0 <= i < n ==> Before(grandparents[i].largest, key))
      && (forall i :: n <= i < |grandparents| ==> !Before(grandparents[i].largest, key))
    }

    constructor (grandparents: seq<File>, limit: nat)
      requires EndsAscend(grandparents)
      ensures Valid() && !seenKey && this.grandparents == grandparents && this.limit == limit
    {
      this.grandparents, this.limit := grandparents, limit;
      index, seenKey, overlapped := 0, false, 0;
      since, last := InternalKey(0.0, 0, Value), InternalKey(0.0, 0, Value);
    }

    /** Compaction::ShouldStopBefore: for keys asked in order, whether too much has gone by. */
    method ShouldStopBefore(key: InternalKey) returns (stop: bool)
      requires Valid() && (seenKey ==> !Before(key, last))
      modifies this
      ensures Valid() && seenKey && last == key
      ensures stop <==> old(seenKey) && Spanned(grandparents, |grandparents|, old(since), key) > limit
      ensures since == if stop || !old(seenKey) then key else old(since)
    {
      if seenKey {
        StartCounting(key);
      }
      while index < |grandparents| && Before(grandparents[index].largest, key)
        invariant index <= |grandparents| && forall i :: 0 <= i < index ==> Before(grandparents[i].largest, key)
        invariant seenKey == old(seenKey) && since == old(since) && last == old(last)
        invariant seenKey ==> forall i :: index <= i < |grandparents| ==> !Before(grandparents[i].largest, last)
        invariant overlapped == if seenKey then Spanned(grandparents, index, since, key) else 0
      {
        if seenKey {
          NotBefore(grandparents[index].largest, last, since);
          overlapped := overlapped + grandparents[index].size;
        }
        index := index + 1;
      }
      AllPassed(key);
      if !seenKey {
        since := key;
        NothingSpanned(grandparents, key);
      } else {
        NotBefore(key, last, since);
        NoneBeyond(grandparents, index, |grandparents|, since, key);
      }
      BeforeIsStrictTotalOrder(key, key, key);
      seenKey, last := true, key;
      if overlapped > limit {
        NothingSpanned(grandparents, key);
        overlapped, since := 0, key;
        return true;
      }
      return false;
    }

    lemma StartCounting(key: InternalKey)
      requires Valid() && seenKey && !Before(key, last)
      ensures forall i :: 0 <= i < index ==> Before(grandparents[i].largest, key)
      ensures overlapped == Spanned(grandparents, index, since, key)
    {
      forall i | 0 <= i < index
        ensures Before(grandparents[i].largest, key)
      {
        NotBefore(key, last, grandparents[i].largest);
      }
      NoneBeyond(grandparents, index, |grandparents|, since, last);
      SpannedGrows(grandparents, index, since, last, since, key);
      SpannedGrows(grandparents, index, since, key, since, last);
    }

    lemma AllPassed(key: InternalKey)
      requires EndsAscend(grandparents) && index <= |grandparents|
      requires forall i :: 0 <= i < index ==> Before(grandparents[i].largest, key)
      requires index < |grandparents| ==> !Before(grandparents[index].largest, key)
      ensures Passed(index, key)
    {
      forall i | index < i < |grandparents|
        ensures !Before(grandparents[i].largest, key)
      {
        BeforeIsStrictTotalOrder(grandparents[index].largest, grandparents[i].largest, key);
      }
    }
  }

  // ---------------------------------------------------------------------------------------------
  // Which keys it stops before

  /** The last key up to the i-th that an output stops before; the first key, if none. */
  ghost function LastStop(input: seq<Entry>, l: Limits, i: nat): (p: nat)
    requires i < |input|
    ensures p <= i
  {
    if i == 0 then 0
    else
      var p := LastStop(input, l, i - 1);
      if Spanned(l.grandparents, |l.grandparents|, input[p].k, input[i].k) > l.overlap then i else p
  }

  ghost predicate StopsAt(input: seq<Entry>, l: Limits, i: nat) {
    0 < i < |input| && LastStop(input, l, i) == i
  }

  lemma {:induction false} StopsAreBefore(input: seq<Entry>, l: Limits, m: nat, i: nat)
    requires m <= i < |input| && (m == 0 || StopsAt(input, l, m))
    ensures m <= LastStop(input, l, i)
    ensures (forall o :: m < o <= i ==> !StopsAt(input, l, o)) ==> LastStop(input, l, i) == m
  {
    if m < i {
      StopsAreBefore(input, l, m, i - 1);
      if forall o :: m < o <= i ==> !StopsAt(input, l, o) {
        assert !StopsAt(input, l, i);
      }
    }
  }

  /** It stops before a key exactly if too much has gone by since it last did. */
  lemma StopsIfTooMuch(input: seq<Entry>, l: Limits, p: nat, i: nat)
    requires p < i < |input| && (p == 0 || StopsAt(input, l, p))
    requires forall m :: p < m < i ==> !StopsAt(input, l, m)
    ensures StopsAt(input, l, i)
      <==> Spanned(l.grandparents, |l.grandparents|, input[p].k, input[i].k) > l.overlap
  {
    StopsAreBefore(input, l, p, i - 1);
  }

  lemma {:induction false} SpansWithinLimit(input: seq<Entry>, l: Limits, i: nat)
    requires i < |input|
    ensures Spanned(l.grandparents, |l.grandparents|, input[LastStop(input, l, i)].k, input[i].k) <= l.overlap
  {
    NothingSpanned(l.grandparents, input[i].k);
  }

  lemma InOrder(input: seq<Entry>, i: nat, j: nat)
    requires SortedRun(input) && i < |input| && j < |input|
    ensures i <= j <==> !Before(input[j].k, input[i].k)
  {
    BeforeIsStrictTotalOrder(input[i].k, input[j].k, input[i].k);
  }

  /** The first i keys have been asked about. */
  ghost predicate Watched(watch: Watch, input: seq<Entry>, l: Limits, i: nat)
    reads watch
  {
    && watch.Valid() && i <= |input|
    && watch.grandparents == l.grandparents && watch.limit == l.overlap
    && watch.seenKey == (0 < i)
    && (0 < i ==> watch.last == input[i - 1].k && watch.since == input[LastStop(input, l, i - 1)].k)
  }

  method Ask(watch: Watch, input: seq<Entry>, ghost l: Limits, i: nat) returns (stop: bool)
    requires SortedRun(input) && i < |input| && Watched(watch, input, l, i)
    modifies watch
    ensures Watched(watch, input, l, i + 1) && (stop <==> StopsAt(input, l, i))
  {
    if i > 0 {
      InOrder(input, i - 1, i);
    }
    stop := watch.ShouldStopBefore(input[i].k);
  }

  // ---------------------------------------------------------------------------------------------
  // What the outputs look like

  /** An output spans no more than the limit, no stop falls inside it, and it was not big enough before its
      last entry. */
  ghost predicate FileWithin(input: seq<Entry>, l: Limits, f: File) {
    && Spanned(l.grandparents, |l.grandparents|, f.smallest, f.largest) <= l.overlap
    && (forall m: nat :: StopsAt(input, l, m) && Before(f.smallest, input[m].k) ==> Before(f.largest, input[m].k))
    && (forall n :: 0 < n < |f.entries| ==> l.sizeOf(f.entries[..n]) < l.fileSize)
  }

  /** An output ends before the next one begins because it is big enough or because of a stop between them. */
  ghost predicate EndsFor(input: seq<Entry>, l: Limits, f: File, next: InternalKey) {
    || l.sizeOf(f.entries) >= l.fileSize
    || exists m: nat :: StopsAt(input, l, m) && Before(f.largest, input[m].k) && !Before(next, input[m].k)
  }

  ghost predicate WellCut(input: seq<Entry>, l: Limits, outputs: seq<File>) {
    && (forall t :: 0 <= t < |outputs| ==> FileWithin(input, l, outputs[t]))
    && (forall t :: 0 < t < |outputs| ==> EndsFor(input, l, outputs[t - 1], outputs[t].smallest))
  }

  ghost predicate MadeOf(f: File, entries: seq<Entry>) {
    && entries != [] && f.entries == entries
    && f.smallest == entries[0].k && f.largest == entries[|entries| - 1].k
  }

  // ---------------------------------------------------------------------------------------------
  // The loop that cuts

  /** After n entries, with the first `asked` keys asked about; what is being built began with entry `first`. */
  ghost predicate Cutting(input: seq<Entry>, l: Limits, n: nat, asked: nat, outputs: seq<File>, building: seq<Entry>,
                          first: nat) {
    && n <= asked <= n + 1 && asked <= |input|
    && WellCut(input, l, outputs)
    && (building == [] && outputs != [] ==>
          0 < asked && EndsFor(input, l, outputs[|outputs| - 1], input[asked - 1].k))
    && (building != [] ==>
          && StartedAt(input, l, n, asked - 1, building, first)
          && (outputs != [] ==> EndsFor(input, l, outputs[|outputs| - 1], building[0].k))
          && forall k :: 0 < k <= |building| ==> l.sizeOf(building[..k]) < l.fileSize)
  }

  ghost predicate StartedAt(input: seq<Entry>, l: Limits, n: nat, asked: int, building: seq<Entry>, first: nat)
    requires building != []
  {
    && first < n <= |input| && 0 <= asked < |input| && LastStop(input, l, asked) <= first
    && building[0] == input[first] && !Before(input[n - 1].k, building[|building| - 1].k)
  }

  lemma NothingCut(input: seq<Entry>, l: Limits)
    ensures Cutting(input, l, 0, 0, [], [], 0)
  {
  }

  lemma ClosedFileIsWithin(input: seq<Entry>, l: Limits, n: nat, building: seq<Entry>, first: nat, f: File)
    requires SortedRun(input) && MadeOf(f, building) && StartedAt(input, l, n, n - 1, building, first)
    requires forall k :: 0 < k < |building| ==> l.sizeOf(building[..k]) < l.fileSize
    ensures FileWithin(input, l, f)
  {
    var p := LastStop(input, l, n - 1);
    SpansWithinLimit(input, l, n - 1);
    InOrder(input, p, first);
    NarrowerSpansLess(l.grandparents, f.smallest, f.largest, input[p].k, input[n - 1].k);
    forall m: nat | StopsAt(input, l, m) && Before(f.smallest, input[m].k)
      ensures Before(f.largest, input[m].k)
    {
      InOrder(input, m, first);
      InOrder(input, m, n - 1);
      if m <= n - 1 {
        StopsAreBefore(input, l, m, n - 1);
      } else {
        NotBefore(input[n - 1].k, f.largest, input[m].k);
        BeforeIsStrictTotalOrder(f.largest, input[n - 1].k, input[m].k);
      }
    }
  }

  lemma EndsForLater(input: seq<Entry>, l: Limits, f: File, next: InternalKey, later: InternalKey)
    requires EndsFor(input, l, f, next) && !Before(later, next)
    ensures EndsFor(input, l, f, later)
  {
    if l.sizeOf(f.entries) < l.fileSize {
      var m: nat :| StopsAt(input, l, m) && Before(f.largest, input[m].k) && !Before(next, input[m].k);
      NotBefore(later, next, input[m].k);
    }
  }

  lemma OneMoreFile(input: seq<Entry>, l: Limits, outputs: seq<File>, f: File)
    requires WellCut(input, l, outputs) && FileWithin(input, l, f)
    requires outputs != [] ==> EndsFor(input, l, outputs[|outputs| - 1], f.smallest)
    ensures WellCut(input, l, outputs + [f])
  {
    hide FileWithin, EndsFor;
  }

  /** A key is asked about, and the output ends before it if told to. */
  lemma Asked(input: seq<Entry>, l: Limits, n: nat, outputs: seq<File>, building: seq<Entry>, first: nat, f: File)
    requires SortedRun(input) && n < |input| && Cutting(input, l, n, n, outputs, building, first)
    ensures if StopsAt(input, l, n) && building != [] then
              MadeOf(f, building) ==> Cutting(input, l, n, n + 1, outputs + [f], [], first)
            else Cutting(input, l, n, n + 1, outputs, building, first)
  {
    if building == [] {
      if outputs != [] {
        InOrder(input, n - 1, n);
        EndsForLater(input, l, outputs[|outputs| - 1], input[n - 1].k, input[n].k);
      }
    } else if StopsAt(input, l, n) && MadeOf(f, building) {
      ClosedFileIsWithin(input, l, n, building, first, f);
      OneMoreFile(input, l, outputs, f);
      InOrder(input, n, n - 1);
      BeforeIsStrictTotalOrder(f.largest, input[n - 1].k, input[n].k);
      BeforeIsStrictTotalOrder(input[n].k, input[n].k, input[n].k);
      assert EndsFor(input, l, f, input[n].k);
    }
  }

  /** An entry is dropped. */
  lemma Passes(input: seq<Entry>, l: Limits, n: nat, outputs: seq<File>, building: seq<Entry>, first: nat)
    requires SortedRun(input) && n < |input| && Cutting(input, l, n, n + 1, outputs, building, first)
    ensures Cutting(input, l, n + 1, n + 1, outputs, building, first)
  {
    if building != [] {
      InOrder(input, n - 1, n);
      NotBefore(input[n].k, input[n - 1].k, building[|building| - 1].k);
    }
  }

  /** An entry is added, and the output ends behind it if it is big enough. */
  lemma Adds(input: seq<Entry>, l: Limits, n: nat, outputs: seq<File>, building: seq<Entry>, first: nat, f: File)
    requires SortedRun(input) && n < |input| && Cutting(input, l, n, n + 1, outputs, building, first)
    ensures var more, at := building + [input[n]], if building == [] then n else first;
      if l.sizeOf(more) >= l.fileSize then
        MadeOf(f, more) ==> Cutting(input, l, n + 1, n + 1, outputs + [f], [], at)
      else Cutting(input, l, n + 1, n + 1, outputs, more, at)
  {
    var more, at := building + [input[n]], if building == [] then n else first;
    BeforeIsStrictTotalOrder(input[n].k, input[n].k, input[n].k);
    forall k | 0 < k <= |building|
      ensures more[..k] == building[..k]
    {
    }
    assert more[..|more|] == more;
    assert StartedAt(input, l, n + 1, n, more, at);
    if l.sizeOf(more) >= l.fileSize && MadeOf(f, more) {
      ClosedFileIsWithin(input, l, n + 1, more, at, f);
      OneMoreFile(input, l, outputs, f);
    }
  }

  /** The input ends, and what is being built with it. */
  lemma Ends(input: seq<Entry>, l: Limits, outputs: seq<File>, building: seq<Entry>, first: nat, f: File)
    requires SortedRun(input) && Cutting(input, l, |input|, |input|, outputs, building, first)
    ensures if building != [] then MadeOf(f, building) ==> WellCut(input, l, outputs + [f])
            else WellCut(input, l, outputs)
  {
    if building != [] && MadeOf(f, building) {
      ClosedFileIsWithin(input, l, |input|, building, first, f);
      OneMoreFile(input, l, outputs, f);
    }
  }
}
