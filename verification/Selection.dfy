/** Choosing the inputs of a compaction (LevelDB db/version_set.cc: PickCompaction, CompactRange,
    SetupOtherInputs). */
module Selection {
  import opened Options
  import opened DbFormat
  import opened Tree
  import opened Inputs

  /** The entries of a level in files not taken. */
  ghost function Rest(files: seq<File>, taken: seq<File>): set<Entry> {
    set f, e | f in files && f !in taken && e in f.entries :: e
  }

  /** No entry left is older than an entry taken that has its user key. */
  ghost predicate NoOlder(left: set<Entry>, taken: set<Entry>) {
    forall e, x :: e in left && x in taken && e.k.user == x.k.user ==> x.k.sn <= e.k.sn
  }

  ghost predicate AllBefore(g: File, files: seq<File>) {
    forall f :: f in files ==> Before(g.largest, f.smallest)
  }

  ghost predicate AllAfter(g: File, files: seq<File>) {
    forall f :: f in files ==> Before(f.largest, g.smallest)
  }

  /** What the inputs of a compaction from `level` must satisfy for its outputs to be put into the
      next level: nothing older stays behind above, and every next-level file that stays lies to
      one side of all the inputs, sharing no user key with those of `level`. */
  ghost predicate InputsOk(v: Version, level: nat, in0: seq<File>, in1: seq<File>) {
    && Among(v, level, in0, in1)
    && in0 != [] && NoDuplicates(in0) && NoDuplicates(in1)
    && NoOlder(Rest(v[level], in0), LevelEntries(in0))
    && (forall g :: g in v[level + 1] && g !in in1 ==> SetAside(g, in0, in1))
  }

  ghost predicate NoDuplicates(files: seq<File>) {
    forall i, j :: 0 <= i < j < |files| ==> files[i] != files[j]
  }

  ghost predicate Among(v: Version, level: nat, in0: seq<File>, in1: seq<File>) {
    && level + 1 < NUM_LEVELS
    && (forall f :: f in in0 ==> f in v[level])
    && (forall f :: f in in1 ==> f in v[level + 1])
  }

  ghost predicate SetAside(g: File, in0: seq<File>, in1: seq<File>) {
    || (AllBefore(g, in0 + in1) && forall f :: f in in0 ==> g.largest.user < f.smallest.user)
    || (AllAfter(g, in0 + in1) && forall f :: f in in0 ==> f.largest.user < g.smallest.user)
  }

  /** Where selection starts: on level 0 all files meeting a closed range, elsewhere a gapless run. */
  ghost predicate StartOk(level: nat, files: seq<File>, start: seq<File>) {
    && start != []
    && if level == 0
       then exists lo, hi :: ClosedRange(files, lo, hi) && start == Overlapping(files, lo, hi)
       else Gapless(files, start)
  }

  /** Inputs of a level with their boundary files: none is left that continues the last of them. */
  ghost predicate ClosedOver(level: nat, files: seq<File>, start: seq<File>, r: seq<File>) {
    && (forall f :: f in start ==> f in r) && (forall f :: f in r ==> f in files)
    && (exists key :: IsLargestKey(r, key) && NoBoundary(files, key))
    && (level > 0 ==> Gapless(files, r))
  }

  /** Files with boundary files behind them, each of which continues one before it, until none is left. */
  ghost predicate WithBoundaries(files: seq<File>, base: seq<File>, r: seq<File>) {
    Extends(files, base, r) && exists key :: IsLargestKey(r, key) && NoBoundary(files, key)
  }

  /** The files of a level in the range of the inputs; on level 0 in its closure. */
  ghost predicate InRangeOf(level: nat, files: seq<File>, inputs: seq<File>, base: seq<File>) {
    exists s, l :: IsSmallestKey(inputs, s) && IsLargestKey(inputs, l) && RangeHolds(level, files, s.user, l.user, base)
  }

  ghost predicate RangeHolds(level: nat, files: seq<File>, smallest: UserKey, largest: UserKey, base: seq<File>) {
    if level > 0 then base == Overlapping(files, Some(smallest), Some(largest))
    else exists lo, hi :: IsClosure(files, Some(smallest), Some(largest), lo, hi) && base == Overlapping(files, lo, hi)
  }

  /** All files of the level in the range of both inputs, with their boundary files. */
  ghost predicate Widened(level: nat, files: seq<File>, closed: seq<File>, next: seq<File>, wide: seq<File>) {
    exists base :: InRangeOf(level, files, closed + next, base) && WithBoundaries(files, base, wide)
  }

  /** The next level's files that meet the range of `in0`, and no others. */
  ghost predicate NextOf(files: seq<File>, in0: seq<File>, in1: seq<File>) {
    forall s, l :: IsSmallestKey(in0, s) && IsLargestKey(in0, l) ==>
        in1 == Overlapping(files, Some(s.user), Some(l.user))
  }

  lemma EntryOrder(files: seq<File>, i: nat, j: nat, e: Entry, x: Entry)
    requires Tables(files) && DisjointLevel(files) && i < j < |files|
    requires e in files[i].entries && x in files[j].entries
    ensures Before(e.k, x.k)
  {
    EntryInFileRange(files[i], e);
    EntryInFileRange(files[j], x);
    BeforeIsStrictTotalOrder(files[i].largest, files[j].smallest, x.k);
    BeforeIsStrictTotalOrder(e.k, files[i].largest, x.k);
  }

  lemma LeftoverIsNotOlder(files: seq<File>, taken: seq<File>, m: nat, i: nat, j: nat, e: Entry, x: Entry)
    requires Tables(files) && Gapless(files, taken) && LastTaken(files, taken, m) && NoBoundary(files, files[m].largest)
    requires i < |files| && files[i] !in taken && e in files[i].entries
    requires j < |files| && files[j] in taken && x in files[j].entries
    requires e.k.user == x.k.user
    ensures x.k.sn <= e.k.sn
  {
    if m < i {
      EntryInFileRange(files[i], e);
      EntryInFileRange(files[j], x);
      if j < m {
        FileOrder(files, j, m);
      }
      LargestIncreases(files, m, i);
      assert false;
    } else {
      EntryOrder(files, i, j, e, x);
    }
  }

  lemma NothingOlderOnSortedLevel(files: seq<File>, taken: seq<File>, largest: InternalKey)
    requires Tables(files) && Gapless(files, taken) && IsLargestKey(taken, largest) && NoBoundary(files, largest)
    ensures NoOlder(Rest(files, taken), LevelEntries(taken))
  {
    var m := LargestIsLastTaken(files, taken, largest);
    forall e, x | e in Rest(files, taken) && x in LevelEntries(taken) && e.k.user == x.k.user
      ensures x.k.sn <= e.k.sn
    {
      var f :| f in files && f !in taken && e in f.entries;
      var g :| g in taken && x in g.entries;
      var i :| 0 <= i < |files| && files[i] == f;
      var j :| 0 <= j < |files| && files[j] == g;
      LeftoverIsNotOlder(files, taken, m, i, j, e, x);
    }
  }

  lemma NothingOlderOnLevel0(files: seq<File>, taken: seq<File>, lo: Option<UserKey>, hi: Option<UserKey>)
    requires Tables(files) && ClosedRange(files, lo, hi) && taken == Overlapping(files, lo, hi)
    ensures NoOlder(Rest(files, taken), LevelEntries(taken))
  {
    forall e, x | e in Rest(files, taken) && x in LevelEntries(taken)
      ensures e.k.user != x.k.user
    {
      var f :| f in files && f !in taken && e in f.entries;
      var g :| g in taken && x in g.entries;
      EntryInFileRange(f, e);
      MeetsClosedRange(files, lo, hi, g);
      EntryInFileRange(g, x);
      MeetsClosedRange(files, lo, hi, f);
    }
  }

  lemma MeetsClosedRange(files: seq<File>, lo: Option<UserKey>, hi: Option<UserKey>, f: File)
    ensures f in Overlapping(files, lo, hi) <==> f in files && Overlaps(f, lo, hi)
    ensures ClosedRange(files, lo, hi) && f in files && Overlaps(f, lo, hi) ==> Inside(f, lo, hi)
  {
    InOverlapping(files, |files|, lo, hi, f);
    assert files[..|files|] == files;
  }

  /** On level 0 a closed range leaves AddBoundaryInputs nothing to add. */
  lemma NothingToAddOnLevel0(files: seq<File>, lo: Option<UserKey>, hi: Option<UserKey>, start: seq<File>, r: seq<File>)
    requires Tables(files) && ClosedRange(files, lo, hi) && start == Overlapping(files, lo, hi)
    requires Extends(files, start, r)
    ensures r == start
  {
    if |start| < |r| {
      var b := r[|start|];
      assert r[..|start|] == start;
      var f :| f in start && f.largest.user == b.smallest.user;
      MeetsClosedRange(files, lo, hi, f);
      MeetsClosedRange(files, lo, hi, b);
      EntryInFileRange(b, b.entries[0]);
    }
  }

  lemma TablesAreRanged(files: seq<File>)
    requires Tables(files)
    ensures Ranged(files)
  {
    forall i | 0 <= i < |files|
      ensures !Before(files[i].largest, files[i].smallest)
    {
      assert Table(files[i]);
      EntryInFileRange(files[i], files[i].entries[0]);
    }
  }

  lemma StartIsAmong(level: nat, files: seq<File>, start: seq<File>)
    requires StartOk(level, files, start)
    ensures forall f :: f in start ==> f in files
  {
    if level == 0 {
      var lo, hi :| ClosedRange(files, lo, hi) && start == Overlapping(files, lo, hi);
      forall f | f in start
        ensures f in files
      {
        MeetsClosedRange(files, lo, hi, f);
      }
    }
  }

  lemma {:induction false} OverlappingOnce(files: seq<File>, n: nat, lo: Option<UserKey>, hi: Option<UserKey>)
    requires NoDuplicates(files) && n <= |files|
    ensures NoDuplicates(OverlappingAmong(files, n, lo, hi))
  {
    if n > 0 {
      OverlappingOnce(files, n - 1, lo, hi);
      InOverlapping(files, n - 1, lo, hi, files[n - 1]);
    }
  }

  lemma ExtendsOnce(files: seq<File>, start: seq<File>, r: seq<File>)
    requires NoDuplicates(start) && Extends(files, start, r)
    ensures NoDuplicates(r)
  {
    forall i, j | 0 <= i < j < |r|
      ensures r[i] != r[j]
    {
      if j < |start| {
        assert r[i] == start[i] && r[j] == start[j];
      } else {
        assert r[i] in r[..j];
      }
    }
  }

  /** The inputs of the compacted level once boundary files are added. */
  method CloseInputs(level: nat, files: seq<File>, start: seq<File>) returns (r: seq<File>)
    requires Tables(files) && StartOk(level, files, start) && NoDuplicates(start)
    ensures NoDuplicates(r) && r != [] && ClosedOver(level, files, start, r) && WithBoundaries(files, start, r)
    ensures NoOlder(Rest(files, r), LevelEntries(r))
  {
    StartIsAmong(level, files, start);
    TablesAreRanged(files);
    TablesAreRanged(start);
    ghost var largest;
    r, largest := AddBoundaryInputs(files, start);
    ExtendsOnce(files, start, r);
    forall f | f in r
      ensures f in files
    {
      var i :| 0 <= i < |r| && r[i] == f;
      assert i < |start| ==> f in start;
    }
    forall f | f in start
      ensures f in r
    {
      var i :| 0 <= i < |start| && start[i] == f;
      assert r[i] == f;
    }
    if level == 0 {
      ghost var lo, hi :| ClosedRange(files, lo, hi) && start == Overlapping(files, lo, hi);
      NothingToAddOnLevel0(files, lo, hi, start, r);
      NothingOlderOnLevel0(files, r, lo, hi);
    } else {
      NothingOlderOnSortedLevel(files, r, largest);
    }
  }

  /** A next-level file that does not meet the range of the inputs lies wholly to one side. */
  lemma UntakenIsAside(files: seq<File>, in0: seq<File>, s: InternalKey, l: InternalKey, g: File)
    requires DisjointLevel(files) && IsSmallestKey(in0, s) && IsLargestKey(in0, l) && Ranged(in0)
    requires g in files && g !in Overlapping(files, Some(s.user), Some(l.user))
    ensures SetAside(g, in0, Overlapping(files, Some(s.user), Some(l.user)))
  {
    var in1 := Overlapping(files, Some(s.user), Some(l.user));
    MeetsClosedRange(files, Some(s.user), Some(l.user), g);
    var n :| 0 <= n < |files| && files[n] == g;
    assert !Before(g.largest, g.smallest);
    forall f | f in in0 + in1
      ensures g.largest.user < s.user ==> Before(g.largest, f.smallest)
      ensures l.user < g.smallest.user ==> Before(f.largest, g.smallest)
    {
      if f in in0 {
        var i :| 0 <= i < |in0| && in0[i] == f;
      } else {
        MeetsClosedRange(files, Some(s.user), Some(l.user), f);
        var i :| 0 <= i < |files| && files[i] == f;
        if i < n {
          FileOrder(files, i, n);
        } else if n < i {
          FileOrder(files, n, i);
        }
      }
    }
  }

  lemma AllUntakenAreAside(files: seq<File>, in0: seq<File>, s: InternalKey, l: InternalKey)
    requires DisjointLevel(files) && IsSmallestKey(in0, s) && IsLargestKey(in0, l) && Ranged(in0)
    ensures forall g :: g in files && g !in Overlapping(files, Some(s.user), Some(l.user)) ==>
      SetAside(g, in0, Overlapping(files, Some(s.user), Some(l.user)))
    ensures forall f :: f in Overlapping(files, Some(s.user), Some(l.user)) ==> f in files
  {
    forall g | g in files && g !in Overlapping(files, Some(s.user), Some(l.user))
      ensures SetAside(g, in0, Overlapping(files, Some(s.user), Some(l.user)))
    {
      UntakenIsAside(files, in0, s, l, g);
    }
    forall f | f in Overlapping(files, Some(s.user), Some(l.user))
      ensures f in files
    {
      MeetsClosedRange(files, Some(s.user), Some(l.user), f);
    }
  }

  /** The next-level files that meet the range of `in0`. */
  method NextLevelInputs(v: Version, level: nat, in0: seq<File>) returns (in1: seq<File>)
    requires TreeInv(v) && level + 1 < NUM_LEVELS && NoDuplicates(v[level + 1]) && NoDuplicates(in0)
    requires in0 != [] && (forall f :: f in in0 ==> f in v[level]) && NoOlder(Rest(v[level], in0), LevelEntries(in0))
    ensures InputsOk(v, level, in0, in1) && NextOf(v[level + 1], in0, in1)
  {
    var smallest, largest := GetRange(in0);
    ghost var lo, hi;
    in1, lo, hi := GetOverlappingInputs(level + 1, v[level + 1], Some(smallest.user), Some(largest.user));
    assert Tables(in0) by {
      assert Tables(v[level]);
    }
    TablesAreRanged(in0);
    OverlappingOnce(v[level + 1], |v[level + 1]|, lo, hi);
    AllUntakenAreAside(v[level + 1], in0, smallest, largest);
    RangeIsNext(v[level + 1], in0, smallest, largest);
  }

  lemma RangeIsNext(files: seq<File>, in0: seq<File>, s: InternalKey, l: InternalKey)
    requires IsSmallestKey(in0, s) && IsLargestKey(in0, l)
    ensures NextOf(files, in0, Overlapping(files, Some(s.user), Some(l.user)))
  {
    hide Overlapping, IsSmallestKey, IsLargestKey;
    forall s', l' | IsSmallestKey(in0, s') && IsLargestKey(in0, l')
      ensures s' == s && l' == l
    {
      OneSmallestKey(in0, s, s');
      OneLargestKey(in0, l, l');
    }
  }

  lemma OverlappingByIndex(files: seq<File>, n: nat, lo: Option<UserKey>, hi: Option<UserKey>, k: nat)
    requires DisjointLevel(files) && n <= |files| && k < |files|
    ensures files[k] in OverlappingAmong(files, n, lo, hi) <==> k < n && Overlaps(files[k], lo, hi)
  {
    InOverlapping(files, n, lo, hi, files[k]);
    if k < n {
      assert files[k] == files[..n][k];
    } else {
      assert forall j :: 0 <= j < n ==> files[j] != files[k];
    }
  }

  /** On a sorted level the files meeting a range leave no gap, and neither do the first of them. */
  lemma OverlappingIsGapless(files: seq<File>, n: nat, lo: Option<UserKey>, hi: Option<UserKey>)
    requires DisjointLevel(files) && n <= |files|
    ensures Gapless(files, OverlappingAmong(files, n, lo, hi))
  {
    var r := OverlappingAmong(files, n, lo, hi);
    forall f | f in r
      ensures f in files
    {
      InOverlapping(files, n, lo, hi, f);
    }
    forall i, j, k | 0 <= i < j < k < |files| && files[i] in r && files[k] in r
      ensures files[j] in r
    {
      FileOrder(files, i, j);
      FileOrder(files, j, k);
      OverlappingByIndex(files, n, lo, hi, i);
      OverlappingByIndex(files, n, lo, hi, j);
      OverlappingByIndex(files, n, lo, hi, k);
    }
  }

  lemma {:induction false} PrefixOfOverlapping(files: seq<File>, n: nat, lo: Option<UserKey>, hi: Option<UserKey>,
                                               p: nat) returns (m: nat)
    requires n <= |files| && p <= |OverlappingAmong(files, n, lo, hi)|
    ensures m <= n && OverlappingAmong(files, m, lo, hi) == OverlappingAmong(files, n, lo, hi)[..p]
  {
    if p == |OverlappingAmong(files, n, lo, hi)| {
      m := n;
    } else {
      m := PrefixOfOverlapping(files, n - 1, lo, hi, p);
    }
  }

  lemma GetOverlappingStarts(level: nat, files: seq<File>, lo: Option<UserKey>, hi: Option<UserKey>)
    requires level == 0 ==> ClosedRange(files, lo, hi)
    requires level > 0 ==> DisjointLevel(files)
    requires Overlapping(files, lo, hi) != []
    ensures StartOk(level, files, Overlapping(files, lo, hi))
  {
    if level > 0 {
      OverlappingIsGapless(files, |files|, lo, hi);
    }
  }

  /** Files meet every range around them. */
  lemma MeetOwnRange(in0: seq<File>, in1: seq<File>, s: InternalKey, l: InternalKey, f: File)
    requires IsSmallestKey(in0 + in1, s) && IsLargestKey(in0 + in1, l) && f in in0 && !Before(f.largest, f.smallest)
    ensures Overlaps(f, Some(s.user), Some(l.user))
  {
    var i :| 0 <= i < |in0| && in0[i] == f;
    assert (in0 + in1)[i] == f;
  }

  lemma AllMeetOwnRange(level: nat, files: seq<File>, in0: seq<File>, in1: seq<File>, s: InternalKey, l: InternalKey,
                        r: seq<File>)
    requires Tables(files) && (forall f :: f in in0 ==> f in files)
    requires IsSmallestKey(in0 + in1, s) && IsLargestKey(in0 + in1, l)
    requires level > 0 ==> r == Overlapping(files, Some(s.user), Some(l.user))
    requires level == 0 ==> forall f :: f in files && Overlaps(f, Some(s.user), Some(l.user)) ==> f in r
    ensures forall f :: f in in0 ==> f in r
  {
    forall f | f in in0
      ensures f in r
    {
      assert Table(f);
      EntryInFileRange(f, f.entries[0]);
      MeetOwnRange(in0, in1, s, l, f);
      MeetsClosedRange(files, Some(s.user), Some(l.user), f);
    }
  }

  /** Whether SetupOtherInputs looks at more inputs of the level: there are some, and they are small enough. */
  ghost predicate Worthwhile(closed: seq<File>, next: seq<File>, wide: seq<File>, limit: nat) {
    next != [] && |closed| < |wide| && TotalFileSize(next) + TotalFileSize(wide) < limit
  }

  /** What SetupOtherInputs makes of inputs `closed` and next-level files `next`: the wider inputs where these meet
      no more of the next level, and otherwise these themselves. */
  ghost predicate Expanded(closed: seq<File>, next: seq<File>, wide: seq<File>, wideNext: seq<File>, limit: nat,
                           in0: seq<File>, in1: seq<File>) {
    if Worthwhile(closed, next, wide, limit) && |wideNext| == |next| then in0 == wide && in1 == wideNext
    else in0 == closed && in1 == next
  }

  /** All that SetupOtherInputs makes of the files it starts from. */
  ghost predicate SetUp(v: Version, level: nat, start: seq<File>, limit: nat, in0: seq<File>, in1: seq<File>)
    requires level + 1 < NUM_LEVELS
  {
    exists closed, next, wide, wideNext ::
      SetUpBy(v, level, start, limit, in0, in1, closed, next, wide, wideNext)
  }

  ghost predicate SetUpBy(v: Version, level: nat, start: seq<File>, limit: nat, in0: seq<File>, in1: seq<File>,
                          closed: seq<File>, next: seq<File>, wide: seq<File>, wideNext: seq<File>)
    requires level + 1 < NUM_LEVELS
  {
    && WithBoundaries(v[level], start, closed) && NextOf(v[level + 1], closed, next)
    && (next != [] ==> Widened(level, v[level], closed, next, wide))
    && (Worthwhile(closed, next, wide, limit) ==> NextOf(v[level + 1], wide, wideNext))
    && Expanded(closed, next, wide, wideNext, limit, in0, in1)
  }

  /** VersionSet::SetupOtherInputs: boundary files, the next level's files in range, and more files
      of `level` when that costs no more of the next level. */
  method SetupOtherInputs(v: Version, level: nat, start: seq<File>, expandedLimit: nat)
    returns (in0: seq<File>, in1: seq<File>)
    requires TreeInv(v) && level + 1 < NUM_LEVELS && StartOk(level, v[level], start)
    requires NoDuplicates(v[level]) && NoDuplicates(v[level + 1]) && NoDuplicates(start)
    ensures InputsOk(v, level, in0, in1) && SetUp(v, level, start, expandedLimit, in0, in1)
    ensures ClosedOver(level, v[level], start, in0) && NextOf(v[level + 1], in0, in1)
  {
    hide NoOlder, InputsOk, NextOf, Widened, WithBoundaries, ClosedOver, StartOk, TotalFileSize;
    in0 := CloseInputs(level, v[level], start);
    ClosedIsAmong(level, v[level], start, in0);
    in1 := NextLevelInputs(v, level, in0);
    ghost var closed, next, wide, wideNext := in0, in1, in0, in1;
    if in1 != [] {
      var expanded0 := ExpandInputs(v, level, in0, in1);
      wide := expanded0;
      ClosedAgain(level, v[level], start, in0, expanded0);
      if |expanded0| > |in0| && TotalFileSize(in1) + TotalFileSize(expanded0) < expandedLimit {
        var expanded1 := NextLevelInputs(v, level, expanded0);
        wideNext := expanded1;
        if |expanded1| == |in1| {
          in0, in1 := expanded0, expanded1;
        }
      }
    }
    assert SetUpBy(v, level, start, expandedLimit, in0, in1, closed, next, wide, wideNext);
  }

  lemma ClosedIsAmong(level: nat, files: seq<File>, start: seq<File>, r: seq<File>)
    requires ClosedOver(level, files, start, r)
    ensures forall f :: f in r ==> f in files
  {
  }

  lemma ClosedAgain(level: nat, files: seq<File>, start: seq<File>, closed: seq<File>, wide: seq<File>)
    requires ClosedOver(level, files, start, closed) && ClosedOver(level, files, closed, wide)
    ensures ClosedOver(level, files, start, wide) && forall f :: f in wide ==> f in files
  {
  }

  /** All files of `level` in the range of both inputs, with their boundary files. */
  method ExpandInputs(v: Version, level: nat, in0: seq<File>, in1: seq<File>) returns (expanded0: seq<File>)
    requires TreeInv(v) && level + 1 < NUM_LEVELS && NoDuplicates(v[level])
    requires in0 != [] && (forall f :: f in in0 ==> f in v[level])
    ensures expanded0 != [] && NoDuplicates(expanded0) && ClosedOver(level, v[level], in0, expanded0)
    ensures NoOlder(Rest(v[level], expanded0), LevelEntries(expanded0))
    ensures Widened(level, v[level], in0, in1, expanded0)
  {
    hide NoOlder, WithBoundaries, InRangeOf;
    var allStart, allLimit := GetRange(in0 + in1);
    ghost var lo, hi;
    var inRange;
    inRange, lo, hi := GetOverlappingInputs(level, v[level], Some(allStart.user), Some(allLimit.user));
    assert Tables(v[level]) && (level > 0 ==> DisjointLevel(v[level]));
    hide TreeInv;
    AllMeetOwnRange(level, v[level], in0, in1, allStart, allLimit, inRange);
    assert in0[0] in inRange;
    GetOverlappingStarts(level, v[level], lo, hi);
    OverlappingOnce(v[level], |v[level]|, lo, hi);
    RangeIsHeld(level, v[level], in0 + in1, allStart, allLimit, lo, hi, inRange);
    expanded0 := CloseInputs(level, v[level], inRange);
  }

  lemma RangeIsHeld(level: nat, files: seq<File>, inputs: seq<File>, s: InternalKey, l: InternalKey,
                    lo: Option<UserKey>, hi: Option<UserKey>, base: seq<File>)
    requires IsSmallestKey(inputs, s) && IsLargestKey(inputs, l) && base == Overlapping(files, lo, hi)
    requires if level > 0 then lo == Some(s.user) && hi == Some(l.user)
             else IsClosure(files, Some(s.user), Some(l.user), lo, hi)
    ensures InRangeOf(level, files, inputs, base)
  {
    assert RangeHolds(level, files, s.user, l.user, base);
  }

  /** A compaction of a chosen file: on level 0 of all that it overlaps, and these in turn. */
  ghost predicate PickedFor(v: Version, level: nat, f: File, limit: nat, in0: seq<File>, in1: seq<File>)
    requires level + 1 < NUM_LEVELS
  {
    exists start ::
      && SetUp(v, level, start, limit, in0, in1)
      && if level > 0 then start == [f] else RangeHolds(0, v[0], f.smallest.user, f.largest.user, start)
  }

  /** PickCompaction once a file is chosen by size or by seeks. */
  method PickCompaction(v: Version, level: nat, chosen: nat, expandedLimit: nat)
    returns (in0: seq<File>, in1: seq<File>)
    requires TreeInv(v) && level + 1 < NUM_LEVELS && chosen < |v[level]|
    requires NoDuplicates(v[level]) && NoDuplicates(v[level + 1])
    ensures InputsOk(v, level, in0, in1) && v[level][chosen] in in0 && NextOf(v[level + 1], in0, in1)
    ensures PickedFor(v, level, v[level][chosen], expandedLimit, in0, in1)
  {
    hide SetUp;
    var start := [v[level][chosen]];
    if level == 0 {
      var smallest, largest := GetRange(start);
      assert smallest == v[0][chosen].smallest && largest == v[0][chosen].largest;
      ghost var lo, hi;
      start, lo, hi := GetOverlappingInputs(0, v[0], Some(smallest.user), Some(largest.user));
      TablesAreRanged(v[0]);
      MeetsClosedRange(v[0], lo, hi, v[0][chosen]);
      GetOverlappingStarts(0, v[0], lo, hi);
      OverlappingOnce(v[0], |v[0]|, lo, hi);
    } else {
      OneFileIsGapless(v[level], chosen);
    }
    assert v[level][chosen] in start;
    in0, in1 := SetupOtherInputs(v, level, start, expandedLimit);
  }

  lemma OneFileIsGapless(files: seq<File>, n: nat)
    requires DisjointLevel(files) && n < |files|
    ensures Gapless(files, [files[n]])
  {
    forall i | 0 <= i < |files| && files[i] == files[n]
      ensures i == n
    {
      SameFileSameIndex(files, i, n);
    }
  }

  /** How many files a manual compaction takes at once: up to the one that reaches the limit. */
  ghost predicate CutOff(files: seq<File>, limit: nat, n: int) {
    && 0 < n <= |files| && (1 < n ==> TotalFileSize(files[..n - 1]) < limit)
    && (n < |files| ==> limit <= TotalFileSize(files[..n]))
  }

  lemma {:induction false} SizeOfOneMore(files: seq<File>, n: nat)
    requires n < |files|
    ensures TotalFileSize(files[..n + 1]) == TotalFileSize(files[..n]) + files[n].size
  {
    if n > 0 {
      SizeOfOneMore(files[1..], n - 1);
      assert files[..n + 1][1..] == files[1..][..n] && files[..n][1..] == files[1..][..n - 1];
    }
  }

  method CutInputs(files: seq<File>, limit: nat) returns (n: nat)
    requires files != []
    ensures CutOff(files, limit, n)
  {
    var total := 0;
    n := 0;
    while n < |files|
      invariant 0 <= n <= |files| && total == TotalFileSize(files[..n])
      invariant n > 0 ==> total < limit
      invariant n > 1 ==> TotalFileSize(files[..n - 1]) < limit
    {
      SizeOfOneMore(files, n);
      total := total + files[n].size;
      n := n + 1;
      if total >= limit {
        return;
      }
    }
  }

  /** The files a manual compaction starts from: on level 0 all those meeting the range, and those that
      these meet in turn, elsewhere the first of those meeting it. */
  ghost predicate StartsRange(level: nat, files: seq<File>, begin: Option<UserKey>, end: Option<UserKey>, limit: nat,
                              start: seq<File>) {
    if level == 0 then exists lo, hi :: IsClosure(files, begin, end, lo, hi) && start == Overlapping(files, lo, hi)
    else exists n :: CutOff(Overlapping(files, begin, end), limit, n) && start == Overlapping(files, begin, end)[..n]
  }

  lemma SomeFileMeets(level: nat, files: seq<File>, begin: Option<UserKey>, end: Option<UserKey>, lo: Option<UserKey>,
                      hi: Option<UserKey>)
    requires Overlapping(files, lo, hi) != []
    requires if level == 0 then IsClosure(files, begin, end, lo, hi) else lo == begin && hi == end
    ensures exists f :: f in files && Overlaps(f, begin, end)
  {
    var f := Overlapping(files, lo, hi)[0];
    MeetsClosedRange(files, lo, hi, f);
    if level == 0 && forall g :: g in files ==> !Overlaps(g, begin, end) {
      assert ClosedRange(files, begin, end) && Within(begin, end, begin, end);
      assert Within(lo, hi, begin, end);
      assert Overlaps(f, begin, end);
    }
  }

  /** CompactRange for one step of a manual compaction: none of the level meets the range, or the
      files that do, away from level 0 cut off after `maxFileSize` bytes. */
  method CompactRange(v: Version, level: nat, begin: Option<UserKey>, end: Option<UserKey>, maxFileSize: nat,
                      expandedLimit: nat)
    returns (found: bool, in0: seq<File>, in1: seq<File>, ghost start: seq<File>)
    requires TreeInv(v) && level + 1 < NUM_LEVELS
    requires NoDuplicates(v[level]) && NoDuplicates(v[level + 1])
    ensures found <==> exists f :: f in v[level] && Overlaps(f, begin, end)
    ensures found ==> InputsOk(v, level, in0, in1) && NextOf(v[level + 1], in0, in1)
    ensures found ==>
              && StartsRange(level, v[level], begin, end, maxFileSize, start)
              && ClosedOver(level, v[level], start, in0) && SetUp(v, level, start, expandedLimit, in0, in1)
  {
    hide SetUp;
    in0, in1, start := [], [], [];
    ghost var lo, hi;
    var inputs;
    inputs, lo, hi := GetOverlappingInputs(level, v[level], begin, end);
    forall f
      ensures f in Overlapping(v[level], lo, hi) <==> f in v[level] && Overlaps(f, lo, hi)
    {
      MeetsClosedRange(v[level], lo, hi, f);
    }
    if inputs == [] {
      return false, [], [], [];
    }
    SomeFileMeets(level, v[level], begin, end, lo, hi);
    GetOverlappingStarts(level, v[level], lo, hi);
    OverlappingOnce(v[level], |v[level]|, lo, hi);
    if level > 0 {
      var n := CutInputs(inputs, maxFileSize);
      ghost var m := PrefixOfOverlapping(v[level], |v[level]|, lo, hi, n);
      OverlappingIsGapless(v[level], m, lo, hi);
      inputs := inputs[..n];
    }
    found, start := true, inputs;
    in0, in1 := SetupOtherInputs(v, level, inputs, expandedLimit);
  }
}
