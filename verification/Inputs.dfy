/** Which files a flush or a compaction takes (LevelDB db/version_set.cc). */
module Inputs {
  import opened Options
  import opened DbFormat
  import opened Tree

  const MAX_MEM_COMPACT_LEVEL: nat := 2

  /** AfterFile and BeforeFile: a missing bound is never after, or before, a file. */
  predicate AfterFile(bound: Option<UserKey>, f: File) {
    bound.Some? && f.largest.user < bound.value
  }

  predicate BeforeFile(bound: Option<UserKey>, f: File) {
    bound.Some? && bound.value < f.smallest.user
  }

  predicate Overlaps(f: File, lo: Option<UserKey>, hi: Option<UserKey>) {
    !AfterFile(lo, f) && !BeforeFile(hi, f)
  }

  predicate Inside(f: File, lo: Option<UserKey>, hi: Option<UserKey>) {
    (lo.Some? ==> lo.value <= f.smallest.user) && (hi.Some? ==> f.largest.user <= hi.value)
  }

  lemma FileOrder(files: seq<File>, i: nat, j: nat)
    requires DisjointLevel(files) && i < j < |files|
    ensures files[i].smallest.user <= files[i].largest.user <= files[j].smallest.user <= files[j].largest.user
  {
    LargestIncreases(files, i, j);
    assert !Before(files[i].largest, files[i].smallest) && !Before(files[j].largest, files[j].smallest);
  }

  method SomeFileOverlapsRange(disjointSortedFiles: bool, files: seq<File>, lo: Option<UserKey>, hi: Option<UserKey>)
    returns (b: bool)
    requires disjointSortedFiles ==> DisjointLevel(files)
    ensures b <==> exists f :: f in files && Overlaps(f, lo, hi)
  {
    if !disjointSortedFiles {
      for i := 0 to |files|
        invariant forall j :: 0 <= j < i ==> !Overlaps(files[j], lo, hi)
      {
        if AfterFile(lo, files[i]) || BeforeFile(hi, files[i]) {
        } else {
          assert Overlaps(files[i], lo, hi);
          return true;
        }
      }
      return false;
    }
    var index := 0;
    if lo.Some? {
      index := FindFile(files, InternalKey(lo.value, MAX_SEQUENCE_NUMBER, Value));
    }
    assert forall j :: 0 <= j < index ==> AfterFile(lo, files[j]);
    assert forall j :: index <= j < |files| ==> !AfterFile(lo, files[j]);
    if index >= |files| {
      return false;
    }
    forall j | index < j < |files|
      ensures BeforeFile(hi, files[index]) ==> BeforeFile(hi, files[j])
    {
      FileOrder(files, index, j);
    }
    b := !BeforeFile(hi, files[index]);
    assert b ==> Overlaps(files[index], lo, hi);
  }

  function TotalFileSize(files: seq<File>): nat {
    if files == [] then 0 else files[0].size + TotalFileSize(files[1..])
  }

  /** Those of the first `n` files that meet [lo, hi], in level order. */
  function OverlappingAmong(files: seq<File>, n: nat, lo: Option<UserKey>, hi: Option<UserKey>): seq<File>
    requires n <= |files|
  {
    if n == 0 then []
    else OverlappingAmong(files, n - 1, lo, hi) + (if Overlaps(files[n - 1], lo, hi) then [files[n - 1]] else [])
  }

  function Overlapping(files: seq<File>, lo: Option<UserKey>, hi: Option<UserKey>): seq<File> {
    OverlappingAmong(files, |files|, lo, hi)
  }

  lemma {:induction false} InOverlapping(files: seq<File>, n: nat, lo: Option<UserKey>, hi: Option<UserKey>, f: File)
    requires n <= |files|
    ensures f in OverlappingAmong(files, n, lo, hi) <==> f in files[..n] && Overlaps(f, lo, hi)
  {
    if n > 0 {
      InOverlapping(files, n - 1, lo, hi, f);
      assert files[..n] == files[..n - 1] + [files[n - 1]];
    }
  }

  /** `lo`..`hi` contains every file it meets: nothing outside it shares a user key with a file in it. */
  ghost predicate ClosedRange(files: seq<File>, lo: Option<UserKey>, hi: Option<UserKey>) {
    forall i :: 0 <= i < |files| && Overlaps(files[i], lo, hi) ==> Inside(files[i], lo, hi)
  }

  /** [lo, hi] lies within [lo', hi']. */
  ghost predicate Within(lo: Option<UserKey>, hi: Option<UserKey>, lo': Option<UserKey>, hi': Option<UserKey>) {
    (lo'.Some? ==> lo.Some? && lo'.value <= lo.value) && (hi'.Some? ==> hi.Some? && hi.value <= hi'.value)
  }

  /** [lo, hi] is the least closed range around [begin, end]. */
  ghost predicate IsClosure(files: seq<File>, begin: Option<UserKey>, end: Option<UserKey>, lo: Option<UserKey>,
                            hi: Option<UserKey>) {
    && Within(begin, end, lo, hi)
    && ClosedRange(files, lo, hi)
    && LeastSoFar(files, begin, end, lo, hi)
  }

  ghost predicate LeastSoFar(files: seq<File>, begin: Option<UserKey>, end: Option<UserKey>, lo: Option<UserKey>,
                             hi: Option<UserKey>) {
    forall lo', hi' :: Within(begin, end, lo', hi') && ClosedRange(files, lo', hi') ==> Within(lo, hi, lo', hi')
  }

  /** How many file ends still lie outside [lo, hi]: what a restart makes smaller. */
  ghost function EndsOutside(files: seq<File>, lo: Option<UserKey>, hi: Option<UserKey>): nat {
    if files == [] then 0 else
      (if lo.Some? && files[0].smallest.user < lo.value then 1 else 0) +
      (if hi.Some? && hi.value < files[0].largest.user then 1 else 0) +
      EndsOutside(files[1..], lo, hi)
  }

  ghost predicate Takes(f: File, lo: Option<UserKey>, hi: Option<UserKey>, lo': Option<UserKey>, hi': Option<UserKey>) {
    || (lo.Some? && lo'.Some? && lo'.value <= f.smallest.user < lo.value)
    || (hi.Some? && hi'.Some? && hi.value < f.largest.user <= hi'.value)
  }

  lemma {:induction false} EndsOutsideShrinks(files: seq<File>, lo: Option<UserKey>, hi: Option<UserKey>,
                                              lo': Option<UserKey>, hi': Option<UserKey>, f: File)
    requires Within(lo, hi, lo', hi') && lo.Some? == lo'.Some? && hi.Some? == hi'.Some?
    ensures EndsOutside(files, lo', hi') <= EndsOutside(files, lo, hi)
    ensures f in files && Takes(f, lo, hi, lo', hi') ==> EndsOutside(files, lo', hi') < EndsOutside(files, lo, hi)
  {
    if files != [] {
      EndsOutsideShrinks(files[1..], lo, hi, lo', hi', f);
    }
  }

  /** The range scanned so far: grown from [begin, end] only as far as any closed range must be. */
  ghost predicate Scanning(files: seq<File>, begin: Option<UserKey>, end: Option<UserKey>, lo: Option<UserKey>,
                           hi: Option<UserKey>) {
    && lo.Some? == begin.Some? && hi.Some? == end.Some?
    && Within(begin, end, lo, hi)
    && LeastSoFar(files, begin, end, lo, hi)
  }

  /** The range after taking in `f`: its lower end if that is lower, else its upper end. */
  function Grown(f: File, lo: Option<UserKey>, hi: Option<UserKey>): (Option<UserKey>, Option<UserKey>) {
    if lo.Some? && f.smallest.user < lo.value then (Some(f.smallest.user), hi)
    else if hi.Some? && hi.value < f.largest.user then (lo, Some(f.largest.user))
    else (lo, hi)
  }

  lemma ScanningGrows(files: seq<File>, begin: Option<UserKey>, end: Option<UserKey>, lo: Option<UserKey>,
                      hi: Option<UserKey>, f: File)
    requires Scanning(files, begin, end, lo, hi) && f in files && Overlaps(f, lo, hi)
    requires Grown(f, lo, hi) != (lo, hi)
    ensures Scanning(files, begin, end, Grown(f, lo, hi).0, Grown(f, lo, hi).1)
    ensures EndsOutside(files, Grown(f, lo, hi).0, Grown(f, lo, hi).1) < EndsOutside(files, lo, hi)
  {
    var (lo', hi') := Grown(f, lo, hi);
    EndsOutsideShrinks(files, lo, hi, lo', hi', f);
    forall l, h | Within(begin, end, l, h) && ClosedRange(files, l, h)
      ensures Within(lo', hi', l, h)
    {
      assert Within(lo, hi, l, h);
      var i :| 0 <= i < |files| && files[i] == f;
      assert Overlaps(files[i], l, h);
    }
  }

  /** The two files have a user key between their ends in common. */
  predicate Touch(f: File, g: File) {
    f.smallest.user <= g.largest.user && g.smallest.user <= f.largest.user
  }

  /** The files meeting the closure: all that meet the range itself, and all that touch one of them. */
  lemma ClosureIsClosed(files: seq<File>, begin: Option<UserKey>, end: Option<UserKey>, lo: Option<UserKey>,
                        hi: Option<UserKey>)
    requires IsClosure(files, begin, end, lo, hi)
    ensures forall f :: f in files && Overlaps(f, begin, end) ==> f in Overlapping(files, lo, hi)
    ensures forall f, g :: f in Overlapping(files, lo, hi) && g in files && Touch(f, g) ==>
              g in Overlapping(files, lo, hi)
  {
    forall f ensures f in Overlapping(files, lo, hi) <==> f in files && Overlaps(f, lo, hi) {
      InOverlapping(files, |files|, lo, hi, f);
      assert files[..|files|] == files;
    }
  }

  /** Version::GetOverlappingInputs.  Away from level 0 the files meeting the range; on level 0 the
      range grows, restarting the scan, until nothing outside it touches it. */
  method GetOverlappingInputs(level: nat, files: seq<File>, begin: Option<UserKey>, end: Option<UserKey>)
    returns (inputs: seq<File>, ghost lo: Option<UserKey>, ghost hi: Option<UserKey>)
    ensures inputs == Overlapping(files, lo, hi)
    ensures level > 0 ==> lo == begin && hi == end
    ensures level == 0 ==> IsClosure(files, begin, end, lo, hi)
    ensures level > 0 ==> inputs == Overlapping(files, begin, end)
    ensures level == 0 ==> forall f :: f in files && Overlaps(f, begin, end) ==> f in inputs
    ensures level == 0 ==> forall f, g :: f in inputs && g in files && Touch(f, g) ==> g in inputs
  {
    var userBegin, userEnd := begin, end;
    inputs := [];
    var i := 0;
    while i < |files|
      invariant 0 <= i <= |files|
      invariant inputs == OverlappingAmong(files, i, userBegin, userEnd)
      invariant level > 0 ==> userBegin == begin && userEnd == end
      invariant Scanning(files, begin, end, userBegin, userEnd)
      invariant level == 0 ==>
                forall j :: 0 <= j < i && Overlaps(files[j], userBegin, userEnd) ==>
                    Inside(files[j], userBegin, userEnd)
      decreases EndsOutside(files, userBegin, userEnd), |files| - i
    {
      var f := files[i];
      i := i + 1;
      if Overlaps(f, userBegin, userEnd) {
        inputs := inputs + [f];
        var grown := Grown(f, userBegin, userEnd);
        if level == 0 && grown != (userBegin, userEnd) {
          ScanningGrows(files, begin, end, userBegin, userEnd, f);
          userBegin, userEnd := grown.0, grown.1;
          inputs := [];
          i := 0;
        }
      }
    }
    lo, hi := userBegin, userEnd;
    if level == 0 {
      ClosureIsClosed(files, begin, end, lo, hi);
    }
  }

  /** Some file may hold user keys of the range. */
  ghost predicate Meets(files: seq<File>, smallest: UserKey, largest: UserKey) {
    exists i :: 0 <= i < |files| && files[i].smallest.user <= largest && smallest <= files[i].largest.user
  }

  /** The size of those of the first n files that may. */
  ghost function SizeMeeting(files: seq<File>, n: nat, smallest: UserKey, largest: UserKey): nat
    requires n <= |files|
  {
    if n == 0 then 0
    else
      SizeMeeting(files, n - 1, smallest, largest)
      + if files[n - 1].smallest.user <= largest && smallest <= files[n - 1].largest.user then files[n - 1].size else 0
  }

  ghost function GrandparentSize(v: Version, level: nat, smallest: UserKey, largest: UserKey): nat
    requires level + 2 < NUM_LEVELS
  {
    SizeMeeting(v[level + 2], |v[level + 2]|, smallest, largest)
  }

  /** The level is the first at which a new table has to stop: at 2, or above a level with its keys, or where
      compacting it further would take too much of the level below that; level 0 also where level 0 has its keys. */
  ghost predicate FirstStop(v: Version, smallest: UserKey, largest: UserKey, limit: nat, level: nat) {
    && level <= 2
    && (level > 0 ==> forall l :: 0 <= l <= level ==> !Meets(v[l], smallest, largest))
    && (forall l :: 0 <= l < level ==> GrandparentSize(v, l, smallest, largest) <= limit)
    && (level < 2 ==>
          || (level == 0 && Meets(v[0], smallest, largest))
          || Meets(v[level + 1], smallest, largest)
          || GrandparentSize(v, level, smallest, largest) > limit)
  }

  lemma MeetsIsOverlap(files: seq<File>, smallest: UserKey, largest: UserKey)
    ensures Meets(files, smallest, largest)
      <==> exists i :: 0 <= i < |files| && Overlaps(files[i], Some(smallest), Some(largest))
    ensures Meets(files, smallest, largest) <==> exists f :: f in files && Overlaps(f, Some(smallest), Some(largest))
  {
    if f :| f in files && Overlaps(f, Some(smallest), Some(largest)) {
      var i :| 0 <= i < |files| && files[i] == f;
      assert Overlaps(files[i], Some(smallest), Some(largest));
    }
    if i :| 0 <= i < |files| && Overlaps(files[i], Some(smallest), Some(largest)) {
      assert files[i] in files;
      assert files[i].smallest.user <= largest && smallest <= files[i].largest.user;
    }
  }

  lemma {:induction false} TotalOfMore(files: seq<File>, f: File)
    ensures TotalFileSize(files + [f]) == TotalFileSize(files) + f.size
  {
    if files == [] {
      assert [f][1..] == [];
    } else {
      TotalOfMore(files[1..], f);
      assert (files + [f])[1..] == files[1..] + [f];
    }
  }

  lemma {:induction false} TotalIsSizeMeeting(files: seq<File>, n: nat, smallest: UserKey, largest: UserKey)
    requires n <= |files|
    ensures TotalFileSize(OverlappingAmong(files, n, Some(smallest), Some(largest)))
              == SizeMeeting(files, n, smallest, largest)
  {
    if n > 0 {
      TotalIsSizeMeeting(files, n - 1, smallest, largest);
      var before := OverlappingAmong(files, n - 1, Some(smallest), Some(largest));
      TotalOfMore(before, files[n - 1]);
      assert before + [] == before;
    }
  }

  lemma OverlapsAreMeeting(files: seq<File>, smallest: UserKey, largest: UserKey)
    ensures TotalFileSize(Overlapping(files, Some(smallest), Some(largest)))
              == SizeMeeting(files, |files|, smallest, largest)
  {
    TotalIsSizeMeeting(files, |files|, smallest, largest);
  }

  /** Version::PickLevelForMemTableOutput: as deep as level 2 while nothing in the way overlaps. */
  method PickLevelForMemTableOutput(v: Version, smallest: UserKey, largest: UserKey, maxGrandParentOverlap: nat)
    returns (level: nat)
    requires forall l :: 1 <= l < NUM_LEVELS ==> DisjointLevel(v[l])
    ensures level <= MAX_MEM_COMPACT_LEVEL
    ensures level > 0 ==> forall l, f :: 0 <= l <= level && f in v[l] ==> !Overlaps(f, Some(smallest), Some(largest))
    ensures FirstStop(v, smallest, largest, maxGrandParentOverlap, level)
  {
    level := 0;
    hide DisjointLevel, Meets, SizeMeeting, Overlapping, OverlappingAmong, TotalFileSize, Overlaps, IsClosure;
    MeetsIsOverlap(v[0], smallest, largest);
    var overlap := SomeFileOverlapsRange(false, v[0], Some(smallest), Some(largest));
    if !overlap {
      while level < MAX_MEM_COMPACT_LEVEL
        invariant level <= MAX_MEM_COMPACT_LEVEL
        invariant forall l :: 0 <= l <= level ==> !Meets(v[l], smallest, largest)
        invariant forall l :: 0 <= l < level ==> GrandparentSize(v, l, smallest, largest) <= maxGrandParentOverlap
      {
        MeetsIsOverlap(v[level + 1], smallest, largest);
        overlap := SomeFileOverlapsRange(true, v[level + 1], Some(smallest), Some(largest));
        if overlap {
          break;
        }
        if level + 2 < NUM_LEVELS {
          var overlaps, _, _ := GetOverlappingInputs(level + 2, v[level + 2], Some(smallest), Some(largest));
          OverlapsAreMeeting(v[level + 2], smallest, largest);
          if TotalFileSize(overlaps) > maxGrandParentOverlap {
            break;
          }
        }
        level := level + 1;
      }
    }
    forall l, f | 0 <= l <= level && 0 < level && f in v[l]
      ensures !Overlaps(f, Some(smallest), Some(largest))
    {
      MeetsIsOverlap(v[l], smallest, largest);
    }
  }

  ghost predicate IsSmallestKey(files: seq<File>, key: InternalKey) {
    && (exists i :: 0 <= i < |files| && files[i].smallest == key)
    && (forall i :: 0 <= i < |files| ==> !Before(files[i].smallest, key))
  }

  ghost predicate IsLargestKey(files: seq<File>, key: InternalKey) {
    && (exists i :: 0 <= i < |files| && files[i].largest == key)
    && (forall i :: 0 <= i < |files| ==> !Before(key, files[i].largest))
  }

  lemma OneLargestKey(files: seq<File>, key: InternalKey, key': InternalKey)
    requires IsLargestKey(files, key) && IsLargestKey(files, key')
    ensures key == key'
  {
    BeforeIsStrictTotalOrder(key, key', key);
  }

  lemma OneSmallestKey(files: seq<File>, key: InternalKey, key': InternalKey)
    requires IsSmallestKey(files, key) && IsSmallestKey(files, key')
    ensures key == key'
  {
    BeforeIsStrictTotalOrder(key, key', key);
  }

  /** VersionSet::GetRange. */
  method GetRange(inputs: seq<File>) returns (smallest: InternalKey, largest: InternalKey)
    requires inputs != []
    ensures IsSmallestKey(inputs, smallest) && IsLargestKey(inputs, largest)
  {
    smallest, largest := inputs[0].smallest, inputs[0].largest;
    for i := 1 to |inputs|
      invariant exists j :: 0 <= j < |inputs| && inputs[j].smallest == smallest
      invariant exists j :: 0 <= j < |inputs| && inputs[j].largest == largest
      invariant forall j :: 0 <= j < i ==> !Before(inputs[j].smallest, smallest)
      invariant forall j :: 0 <= j < i ==> !Before(largest, inputs[j].largest)
    {
      var f := inputs[i];
      if Before(f.smallest, smallest) {
        smallest := f.smallest;
      }
      if Before(largest, f.largest) {
        largest := f.largest;
      }
    }
  }

  /** A file that begins, after `key`, with key's own user key. */
  predicate IsBoundary(f: File, key: InternalKey) {
    Before(key, f.smallest) && f.smallest.user == key.user
  }

  method FindSmallestBoundaryFile(files: seq<File>, key: InternalKey) returns (at: Option<nat>)
    ensures at.None? ==> forall i :: 0 <= i < |files| ==> !IsBoundary(files[i], key)
    ensures at.Some? ==> at.value < |files| && IsBoundary(files[at.value], key)
    ensures at.Some? ==> forall i :: 0 <= i < |files| && IsBoundary(files[i], key) ==>
      !Before(files[i].smallest, files[at.value].smallest)
  {
    at := None;
    for i := 0 to |files|
      invariant at.None? ==> forall j :: 0 <= j < i ==> !IsBoundary(files[j], key)
      invariant at.Some? ==> at.value < i && IsBoundary(files[at.value], key)
      invariant at.Some? ==> forall j :: 0 <= j < i && IsBoundary(files[j], key) ==>
        !Before(files[j].smallest, files[at.value].smallest)
    {
      if IsBoundary(files[i], key) {
        if at.None? || Before(files[i].smallest, files[at.value].smallest) {
          at := Some(i);
        }
      }
    }
  }

  ghost function CountAfter(files: seq<File>, key: InternalKey): nat {
    if files == [] then 0 else (if Before(key, files[0].smallest) then 1 else 0) + CountAfter(files[1..], key)
  }

  lemma {:induction false} CountAfterShrinks(files: seq<File>, key: InternalKey, key': InternalKey)
    requires Before(key, key')
    ensures CountAfter(files, key') <= CountAfter(files, key)
    ensures (exists i :: 0 <= i < |files| && Before(key, files[i].smallest) && !Before(key', files[i].smallest)) ==>
      CountAfter(files, key') < CountAfter(files, key)
  {
    if files != [] {
      CountAfterShrinks(files[1..], key, key');
      assert forall i :: 1 <= i < |files| ==> files[i] == files[1..][i - 1];
    }
  }

  /** The files taken leave no gap: with two of them goes every file in between. */
  ghost predicate Convex(files: seq<File>, taken: seq<File>) {
    forall i, j, k :: 0 <= i < j < k < |files| && files[i] in taken && files[k] in taken ==> files[j] in taken
  }

  /** files[m] is the last file taken. */
  ghost predicate LastTaken(files: seq<File>, taken: seq<File>, m: int) {
    0 <= m < |files| && files[m] in taken && forall i :: m < i < |files| ==> files[i] !in taken
  }

  /** On a sorted level the boundary file is the very next one, so no gap opens. */
  lemma BoundaryIsNext(files: seq<File>, taken: seq<File>, m: nat, n: nat)
    requires DisjointLevel(files) && Convex(files, taken) && LastTaken(files, taken, m)
    requires n < |files| && IsBoundary(files[n], files[m].largest)
    requires forall i :: 0 <= i < |files| && IsBoundary(files[i], files[m].largest) ==>
              !Before(files[i].smallest, files[n].smallest)
    ensures n == m + 1
    ensures Convex(files, taken + [files[n]]) && LastTaken(files, taken + [files[n]], n)
  {
    if n < m {
      LargestIncreases(files, n, m);
    }
    if m + 1 < n {
      LargestIncreases(files, m + 1, n);
      FileOrder(files, m, m + 1);
      FileOrder(files, m + 1, n);
      BeforeIsStrictTotalOrder(files[m + 1].smallest, files[m + 1].largest, files[n].smallest);
      assert IsBoundary(files[m + 1], files[m].largest);
    }
    forall i | 0 <= i < |files| && files[i] == files[n]
      ensures i == n
    {
      SameFileSameIndex(files, i, n);
    }
  }

  lemma SameFileSameIndex(files: seq<File>, i: nat, j: nat)
    requires DisjointLevel(files) && i < |files| && j < |files| && files[i] == files[j]
    ensures i == j
  {
    if i < j {
      LargestIncreases(files, i, j);
    } else if j < i {
      LargestIncreases(files, j, i);
    }
  }

  ghost predicate Ranged(files: seq<File>) {
    forall i :: 0 <= i < |files| ==> !Before(files[i].largest, files[i].smallest)
  }

  lemma LargestIsLastTaken(files: seq<File>, taken: seq<File>, key: InternalKey) returns (m: nat)
    requires DisjointLevel(files) && IsLargestKey(taken, key)
    requires forall f :: f in taken ==> f in files
    ensures LastTaken(files, taken, m) && files[m].largest == key
  {
    var i :| 0 <= i < |taken| && taken[i].largest == key;
    assert taken[i] in files;
    m :| 0 <= m < |files| && files[m] == taken[i];
    forall j | m < j < |files|
      ensures files[j] !in taken
    {
      LargestIncreases(files, m, j);
    }
  }

  lemma LargestAfterAdding(taken: seq<File>, b: File, key: InternalKey)
    requires IsLargestKey(taken, key) && Before(key, b.smallest) && !Before(b.largest, b.smallest)
    ensures IsLargestKey(taken + [b], b.largest) && Before(key, b.largest)
  {
    var r := taken + [b];
    BeforeIsStrictTotalOrder(key, b.smallest, b.largest);
    assert r[|taken|] == b;
    forall i | 0 <= i < |r|
      ensures !Before(b.largest, r[i].largest)
    {
      if i < |taken| {
        assert r[i] == taken[i];
        BeforeIsStrictTotalOrder(key, b.largest, taken[i].largest);
      } else {
        BeforeIsStrictTotalOrder(b.largest, b.largest, b.largest);
      }
    }
  }

  /** Some file of `files` ends in the user key that `b` begins with. */
  ghost predicate Continues(files: seq<File>, b: File) {
    exists f :: f in files && f.largest.user == b.smallest.user
  }

  ghost predicate NoBoundary(files: seq<File>, key: InternalKey) {
    forall i :: 0 <= i < |files| ==> !IsBoundary(files[i], key)
  }

  /** `r` is `start` and then files of the level, none twice, each continuing what came before. */
  ghost predicate Extends(files: seq<File>, start: seq<File>, r: seq<File>) {
    && start <= r
    && forall i :: |start| <= i < |r| ==> r[i] in files && r[i] !in r[..i] && Continues(r[..i], r[i])
  }

  lemma ExtendsGrows(files: seq<File>, start: seq<File>, r: seq<File>, b: File)
    requires Extends(files, start, r) && b in files && b !in r && Continues(r, b)
    ensures Extends(files, start, r + [b])
  {
    var q := r + [b];
    forall i | |start| <= i < |q|
      ensures q[i] in files && q[i] !in q[..i] && Continues(q[..i], q[i])
    {
      if i < |r| {
        assert q[..i] == r[..i];
      } else {
        assert q[..i] == r;
      }
    }
  }

  /** A sorted level and, among its files, a gapless choice. */
  ghost predicate Gapless(files: seq<File>, taken: seq<File>) {
    DisjointLevel(files) && (forall f :: f in taken ==> f in files) && Convex(files, taken)
  }

  /** AddBoundaryInputs.  It stops with no file left that begins, after the largest key taken, with
      that key's user key; it adds no file twice; on a sorted level it opens no gap. */
  method AddBoundaryInputs(levelFiles: seq<File>, compactionFiles: seq<File>)
    returns (r: seq<File>, ghost largest: InternalKey)
    requires Ranged(levelFiles) && Ranged(compactionFiles)
    ensures Extends(levelFiles, compactionFiles, r)
    ensures compactionFiles == [] ==> r == []
    ensures compactionFiles != [] ==> IsLargestKey(r, largest) && NoBoundary(levelFiles, largest)
    ensures Gapless(levelFiles, compactionFiles) ==> Gapless(levelFiles, r)
  {
    r := compactionFiles;
    if compactionFiles == [] {
      largest := *;
      return;
    }
    var _, largestKey := GetRange(compactionFiles);
    ghost var sorted := Gapless(levelFiles, compactionFiles);
    ghost var m := 0;
    if sorted {
      m := LargestIsLastTaken(levelFiles, r, largestKey);
    }
    var searching := true;
    while searching
      invariant Extends(levelFiles, compactionFiles, r)
      invariant Ranged(r)
      invariant IsLargestKey(r, largestKey)
      invariant !searching ==> NoBoundary(levelFiles, largestKey)
      invariant sorted ==> Gapless(levelFiles, r) && LastTaken(levelFiles, r, m) && levelFiles[m].largest == largestKey
      decreases searching, CountAfter(levelFiles, largestKey)
    {
      var at := FindSmallestBoundaryFile(levelFiles, largestKey);
      if at.Some? {
        var b := levelFiles[at.value];
        TakeBoundary(levelFiles, r, largestKey, b);
        ExtendsGrows(levelFiles, compactionFiles, r, b);
        if sorted {
          BoundaryIsNext(levelFiles, r, m, at.value);
          m := at.value;
        }
        r := r + [b];
        largestKey := b.largest;
      } else {
        searching := false;
      }
    }
    largest := largestKey;
  }

  lemma TakeBoundary(files: seq<File>, taken: seq<File>, key: InternalKey, b: File)
    requires Ranged(files) && Ranged(taken) && b in files && IsLargestKey(taken, key) && IsBoundary(b, key)
    ensures b !in taken && Continues(taken, b) && Ranged(taken + [b])
    ensures IsLargestKey(taken + [b], b.largest)
    ensures CountAfter(files, b.largest) < CountAfter(files, key)
  {
    var n :| 0 <= n < |files| && files[n] == b;
    LargestAfterAdding(taken, b, key);
    CountAfterShrinks(files, key, b.largest);
    forall i | 0 <= i < |taken|
      ensures taken[i] != b
    {
      BeforeIsStrictTotalOrder(key, b.smallest, b.largest);
    }
  }
}
