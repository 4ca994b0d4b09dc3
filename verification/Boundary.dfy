/** What a compaction may uncover in the next level.  SetupOtherInputs looks for boundary files on the
    level that is compacted (LevelDB db/version_set.cc) but not on the next one, and this is exactly
    where a dropped deletion can be missed. */
module Boundary {
  import opened DbFormat
  import opened Tree
  import opened Inputs
  import opened Selection
  import opened Compaction
  import opened TreeSteps

  /** The boundary test that SetupOtherInputs makes for `level` but not for the next level. */
  ghost predicate NextLevelClosed(v: Version, level: nat, in1: seq<File>)
    requires level + 1 < NUM_LEVELS
  {
    in1 == [] || exists key :: IsLargestKey(in1, key) && NoBoundary(v[level + 1], key)
  }

  /** The file FindSmallestBoundaryFile finds. */
  ghost predicate IsFirstBoundary(files: seq<File>, key: InternalKey, n: int) {
    && 0 <= n < |files| && IsBoundary(files[n], key)
    && forall i :: 0 <= i < |files| && IsBoundary(files[i], key) ==> !Before(files[i].smallest, files[n].smallest)
  }

  /** The first boundary file left behind the largest key of `in1` begins with a value, and the
      compaction drops the deletion that a reader at the snapshot sees of its user key. */
  ghost predicate Uncovers(v: Version, above: set<Entry>, level: nat, in1: seq<File>, input: seq<Entry>,
                           snap: SequenceNumber)
    requires level + 1 < NUM_LEVELS
  {
    var files := v[level + 1];
    exists i, n, key ::
      && 0 <= i < |input| && IsLargestKey(in1, key) && IsFirstBoundary(files, key, n)
      && files[n].smallest.kind.Value? && Covers(v, above, level, input[i], key, snap)
  }

  ghost predicate Covers(v: Version, above: set<Entry>, level: nat, e: Entry, key: InternalKey, snap: SequenceNumber) {
    && e.k.user == key.user && ObsoleteDeletion(e, snap, BaseKeys(v, level))
    && IsNewest(above + VersionEntries(v), key.user, snap, e)
  }

  lemma {:induction false} LargestKeyExists(files: seq<File>) returns (key: InternalKey)
    requires files != []
    ensures IsLargestKey(files, key)
  {
    var n := |files| - 1;
    if n == 0 {
      key := files[0].largest;
      BeforeIsStrictTotalOrder(key, key, key);
    } else {
      var k := LargestKeyExists(files[..n]);
      key := if Before(k, files[n].largest) then files[n].largest else k;
      var j :| 0 <= j < n && files[..n][j].largest == k;
      assert files[j].largest == k;
      forall i | 0 <= i < |files|
        ensures !Before(key, files[i].largest)
      {
        assert i < n ==> files[i] == files[..n][i];
        BeforeIsStrictTotalOrder(k, key, files[i].largest);
        BeforeIsStrictTotalOrder(key, key, key);
      }
    }
  }

  lemma FirstBoundaryExists(files: seq<File>, key: InternalKey, m: nat) returns (n: nat)
    requires m <= |files| && exists i :: 0 <= i < m && IsBoundary(files[i], key)
    ensures n < m && IsBoundary(files[n], key)
    ensures forall i :: 0 <= i < m && IsBoundary(files[i], key) ==> !Before(files[i].smallest, files[n].smallest)
  {
    if exists i :: 0 <= i < m - 1 && IsBoundary(files[i], key) {
      n := FirstBoundaryExists(files, key, m - 1);
      if IsBoundary(files[m - 1], key) && Before(files[m - 1].smallest, files[n].smallest) {
        forall i | 0 <= i < m && IsBoundary(files[i], key)
          ensures !Before(files[i].smallest, files[m - 1].smallest)
        {
          BeforeIsStrictTotalOrder(files[i].smallest, files[m - 1].smallest, files[n].smallest);
          BeforeIsStrictTotalOrder(files[m - 1].smallest, files[m - 1].smallest, files[m - 1].smallest);
        }
        n := m - 1;
      } else {
        BeforeIsStrictTotalOrder(files[n].smallest, files[n].smallest, files[n].smallest);
      }
    } else {
      n := m - 1;
      BeforeIsStrictTotalOrder(files[n].smallest, files[n].smallest, files[n].smallest);
    }
  }

  /** A next-level file wholly before an input file holds only newer entries of its keys. */
  lemma BeforeIsNewer(g: File, f: File, e: Entry, x: Entry)
    requires Table(g) && Table(f) && Before(g.largest, f.smallest)
    requires e in g.entries && x in f.entries && e.k.user == x.k.user
    ensures Before(e.k, x.k) && x.k.sn <= e.k.sn
  {
    EntryInFileRange(g, e);
    EntryInFileRange(f, x);
    BeforeIsStrictTotalOrder(g.largest, f.smallest, x.k);
    BeforeIsStrictTotalOrder(e.k, g.largest, x.k);
  }

  lemma NoEntriesBelow(v: Version, level: nat, user: UserKey, l: nat, o: Entry)
    requires NoDataBelow(v, level, user) && level + 2 <= l < NUM_LEVELS && Tables(v[l]) && o in LevelEntries(v[l])
    ensures o.k.user != user
  {
    var f :| f in v[l] && o in f.entries;
    EntryInFileRange(f, o);
    var i :| 0 <= i < |v[l]| && v[l][i] == f;
    assert !InRange(v[l][i], user);
  }

  /** Outside the inputs, what is older than an input whose key has no data further down is left in the
      next level. */
  lemma OlderIsInNextLevel(v: Version, level: nat, in0: seq<File>, in1: seq<File>, x: Entry, o: Entry)
    requires Among(v, level, in0, in1) && TreeInv(v) && Newer(Rest(v[level], in0), LevelEntries(in0))
    requires x in InputEntries(in0, in1) && o in Outside(v, level, in0, in1)
    requires x.k.user == o.k.user && NoDataBelow(v, level, x.k.user) && o.k.sn < x.k.sn
    ensures o in Rest(v[level + 1], in1)
  {
    hide DisjointLevel, NewestByNumber, NoDataBelow, Table;
    LevelSplits(v[level], in0);
    LevelSplits(v[level + 1], in1);
    if l :| 0 <= l < NUM_LEVELS && l != level && l != level + 1 && o in LevelEntries(v[l]) {
      NoneAbove(v, level, l, x, o);
      NoEntriesBelow(v, level, x.k.user, l, o);
    }
  }

  lemma NoneAbove(v: Version, level: nat, l: nat, x: Entry, o: Entry)
    requires TreeInv(v) && level + 1 < NUM_LEVELS && l < NUM_LEVELS && o in LevelEntries(v[l])
    requires x in LevelEntries(v[level]) || x in LevelEntries(v[level + 1])
    requires x.k.user == o.k.user && o.k.sn < x.k.sn
    ensures l >= level
  {
  }

  lemma InputsLeave(v: Version, level: nat, in0: seq<File>, in1: seq<File>)
    requires TreeInv(v) && Distinct(VersionEntries(v)) && InputsOk(v, level, in0, in1)
    ensures Among(v, level, in0, in1) && level + 1 < NUM_LEVELS && Newer(Rest(v[level], in0), LevelEntries(in0))
  {
    hide TreeInv, Distinct, VersionEntries, Rest, LevelEntries;
    LeftIsNewer(v, level, in0);
  }

  /** A file left in the next level that shares a key with an input, and is older there, is a boundary
      file of the next level's inputs. */
  lemma OlderLeftIsBoundary(v: Version, level: nat, in0: seq<File>, in1: seq<File>, g: File, f: File, o: Entry,
                            x: Entry)
    returns (key: InternalKey)
    requires InputsOk(v, level, in0, in1) && Table(g) && Table(f)
    requires g in v[level + 1] && g !in in1 && (f in in0 || f in in1)
    requires o in g.entries && x in f.entries && o.k.user == x.k.user && o.k.sn < x.k.sn
    ensures f in in1 && IsLargestKey(in1, key) && IsBoundary(g, key) && key.user == x.k.user
  {
    assert SetAside(g, in0, in1);
    assert f in in0 + in1;
    EntryInFileRange(g, o);
    EntryInFileRange(f, x);
    if AllBefore(g, in0 + in1) {
      BeforeIsNewer(g, f, o, x);
    }
    assert f in in1;
    key := LargestKeyExists(in1);
    var i :| 0 <= i < |in1| && in1[i].largest == key;
    assert in1[i] in in0 + in1;
    var j :| 0 <= j < |in1| && in1[j] == f;
    assert !Before(key, in1[j].largest);
  }

  /** All that is outside the inputs, and older than one of them whose key has no data further down, is in
      a boundary file that the next level's inputs have missed. */
  lemma OlderIsBoundary(v: Version, level: nat, in0: seq<File>, in1: seq<File>, x: Entry, o: Entry)
    returns (g: File, key: InternalKey)
    requires TreeInv(v) && Distinct(VersionEntries(v)) && InputsOk(v, level, in0, in1)
    requires x in InputEntries(in0, in1) && o in Outside(v, level, in0, in1)
    requires x.k.user == o.k.user && NoDataBelow(v, level, x.k.user) && o.k.sn < x.k.sn
    ensures g in v[level + 1] && g !in in1 && o in g.entries && x in LevelEntries(in1)
    ensures IsLargestKey(in1, key) && IsBoundary(g, key) && key.user == x.k.user
  {
    InputsLeave(v, level, in0, in1);
    OlderIsInNextLevel(v, level, in0, in1, x, o);
    g :| g in v[level + 1] && g !in in1 && o in g.entries;
    var f :| (f in in0 || f in in1) && x in f.entries;
    assert Tables(v[level]) && Tables(v[level + 1]);
    hide TreeInv, Outside, NoDataBelow;
    key := OlderLeftIsBoundary(v, level, in0, in1, g, f, o, x);
  }

  /** Of a level's files, none that begins after the largest key of some is one of them. */
  lemma BoundaryIsLeft(in1: seq<File>, key: InternalKey, g: File)
    requires IsLargestKey(in1, key) && Table(g) && IsBoundary(g, key)
    ensures g !in in1 && g.entries[0] in g.entries && g.entries[0].k == g.smallest
  {
    EntryInFileRange(g, g.entries[0]);
    BeforeIsStrictTotalOrder(key, g.smallest, g.largest);
    assert Before(key, g.largest);
    forall j | 0 <= j < |in1|
      ensures in1[j] != g
    {
    }
  }

  lemma InputBeforeKey(in1: seq<File>, key: InternalKey, x: Entry, p: InternalKey)
    requires IsLargestKey(in1, key) && Tables(in1) && x in LevelEntries(in1)
    requires Before(key, p) && p.user == x.k.user
    ensures Before(x.k, p) && p.sn <= x.k.sn
  {
    var f :| f in in1 && x in f.entries;
    var j :| 0 <= j < |in1| && in1[j] == f;
    EntryInFileRange(f, x);
    BeforeIsStrictTotalOrder(x.k, f.largest, key);
    BeforeIsStrictTotalOrder(x.k, key, p);
  }

  /** The first entry of a boundary file is outside the inputs, and older than their entries of its key. */
  lemma BoundaryIsOlder(v: Version, level: nat, in0: seq<File>, in1: seq<File>, key: InternalKey, n: nat, x: Entry)
    requires TreeInv(v) && Distinct(VersionEntries(v)) && Among(v, level, in0, in1)
    requires IsLargestKey(in1, key) && n < |v[level + 1]| && IsBoundary(v[level + 1][n], key)
    requires x in InputEntries(in0, in1) && x.k.user == key.user
    ensures var g := v[level + 1][n];
            && Table(g) && g !in in1 && g.entries[0] in Outside(v, level, in0, in1) && g.entries[0].k.sn < x.k.sn
  {
    var g := v[level + 1][n];
    assert g in v[level + 1] && Tables(v[level + 1]) && Newer(LevelEntries(v[level]), LevelEntries(v[level + 1]));
    assert Tables(in1);
    hide TreeInv, Distinct, Table;
    BoundaryIsLeft(in1, key, g);
    LevelSplits(v[level], in0);
    LevelSplits(v[level + 1], in1);
    assert Table(g);
    assert g.entries[0] in Rest(v[level + 1], in1);
    if x in LevelEntries(in1) {
      InputBeforeKey(in1, key, x, g.smallest);
      OneLevelOlder(v, level + 1, x, g.entries[0]);
    }
  }

  lemma OneLevelOlder(v: Version, l: nat, x: Entry, p: Entry)
    requires Distinct(VersionEntries(v)) && l < NUM_LEVELS && x in LevelEntries(v[l]) && p in LevelEntries(v[l])
    requires x.k.user == p.k.user && Before(x.k, p.k)
    ensures p.k.sn < x.k.sn
  {
    assert x in VersionEntries(v) && p in VersionEntries(v);
    BeforeIsStrictTotalOrder(x.k, p.k, x.k);
  }

  // ---------------------------------------------------------------------------------------------
  // The exact condition

  /** A tree, what is newer in memory, and inputs of a compaction. */
  ghost predicate Ready(v: Version, above: set<Entry>, level: nat, in0: seq<File>, in1: seq<File>) {
    TreeInv(v) && Distinct(above + VersionEntries(v)) && Newer(above, VersionEntries(v)) && InputsOk(v, level, in0, in1)
  }

  lemma ReadyMeans(v: Version, above: set<Entry>, level: nat, in0: seq<File>, in1: seq<File>)
    requires Ready(v, above, level, in0, in1)
    ensures TreeInv(v) && InputsOk(v, level, in0, in1) && Among(v, level, in0, in1) && Distinct(VersionEntries(v))
    ensures Distinct(above + VersionEntries(v)) && Newer(above, VersionEntries(v))
    ensures Tables(v[level + 1])
  {
    hide DisjointLevel, NewestByNumber, Layered, VersionEntries, Tables;
  }

  /** What is inside the inputs, in the tree outside of them, outside of them at all, and everything. */
  datatype Parts = Parts(inside: set<Entry>, outside: set<Entry>, rest: set<Entry>, all: set<Entry>)

  ghost predicate Split(v: Version, above: set<Entry>, level: nat, in0: seq<File>, in1: seq<File>, p: Parts) {
    && Ready(v, above, level, in0, in1) && level + 1 < NUM_LEVELS
    && p.inside == InputEntries(in0, in1) && p.outside == Outside(v, level, in0, in1)
    && p.rest == above + p.outside && p.all == above + VersionEntries(v)
  }

  lemma SplitMeans(v: Version, above: set<Entry>, level: nat, in0: seq<File>, in1: seq<File>, p: Parts)
    requires Split(v, above, level, in0, in1, p)
    ensures TreeInv(v) && InputsOk(v, level, in0, in1) && Among(v, level, in0, in1) && Distinct(VersionEntries(v))
    ensures level + 1 < NUM_LEVELS && Tables(v[level + 1])
    ensures p.inside == InputEntries(in0, in1) && p.outside == Outside(v, level, in0, in1)
    ensures p.rest == above + p.outside && p.all == p.inside + p.rest && p.inside !! p.rest
    ensures Distinct(p.all) && Newer(above, p.inside + p.outside)
  {
    hide InputEntries, Outside, TreeInv, InputsOk, VersionEntries, LevelEntries;
    ReadyMeans(v, above, level, in0, in1);
    InputsAndOutside(v, level, in0, in1);
    OutsideIsDisjoint(v, level, in0, in1);
  }

  lemma InputsAndOutside(v: Version, level: nat, in0: seq<File>, in1: seq<File>)
    requires Among(v, level, in0, in1)
    ensures VersionEntries(v) == InputEntries(in0, in1) + Outside(v, level, in0, in1)
  {
    LevelSplits(v[level], in0);
    LevelSplits(v[level + 1], in1);
    SplitByLevel(v, level);
    hide LevelEntries, Rest, VersionEntries, Among;
  }

  /** Where a reader sees an input, what is outside and visible is older, and so it is in the tree. */
  lemma OutsideIsOlder(above: set<Entry>, p: Parts, x: Entry, user: UserKey, snap: SequenceNumber, o: Entry)
    requires p.rest == above + p.outside && p.all == p.inside + p.rest && p.inside !! p.rest
    requires Distinct(p.all) && Newer(above, p.inside + p.outside)
    requires x in p.inside && IsNewest(p.all, user, snap, x) && o in p.rest && Visible(o, user, snap)
    ensures o in p.outside && o.k.sn < x.k.sn && o.k.user == x.k.user
  {
  }

  lemma FirstEntryIsNewest(files: seq<File>, key: InternalKey, n: nat, g: File, o: Entry)
    requires IsFirstBoundary(files, key, n) && Tables(files) && g in files && IsBoundary(g, key)
    requires o in g.entries && o.k.user == key.user
    ensures files[n].entries != [] && o.k.sn <= files[n].entries[0].k.sn
  {
    assert Table(files[n]);
    EntryInFileRange(g, o);
    BeforeIsStrictTotalOrder(g.smallest, o.k, files[n].smallest);
  }

  lemma NotNewerThanFirst(v: Version, above: set<Entry>, level: nat, in0: seq<File>, in1: seq<File>, p: Parts,
                          key: InternalKey, n: nat, x: Entry, snap: SequenceNumber, o: Entry)
    requires level + 1 < NUM_LEVELS && n < |v[level + 1]|
    requires Split(v, above, level, in0, in1, p) && x in p.inside && x.k.user == key.user
    requires NoDataBelow(v, level, key.user) && IsNewest(p.all, key.user, snap, x)
    requires IsLargestKey(in1, key) && IsFirstBoundary(v[level + 1], key, n)
    requires o in p.rest && Visible(o, key.user, snap)
    ensures v[level + 1][n].entries != [] && o.k.sn <= v[level + 1][n].entries[0].k.sn
  {
    hide *;
    SplitMeans(v, above, level, in0, in1, p);
    OutsideIsOlder(above, p, x, key.user, snap, o);
    var g, key' := OlderIsBoundary(v, level, in0, in1, x, o);
    OneLargestKey(in1, key, key');
    FirstEntryIsNewest(v[level + 1], key, n, g, o);
  }

  lemma FirstIsBoundary(files: seq<File>, key: InternalKey, n: int)
    requires IsFirstBoundary(files, key, n) && Tables(files)
    ensures 0 <= n < |files| && IsBoundary(files[n], key)
    ensures files[n].entries != [] && files[n].entries[0].k == files[n].smallest && files[n].smallest.user == key.user
  {
    assert Table(files[n]);
  }

  lemma NewestIs(es: set<Entry>, user: UserKey, s: SequenceNumber, e: Entry, x: Entry, all: set<Entry>)
    requires e in es && e.k.user == user && IsNewest(all, user, s, x) && e.k.sn < x.k.sn
    requires forall o :: o in es && Visible(o, user, s) ==> o.k.sn <= e.k.sn
    ensures IsNewest(es, user, s, e)
  {
  }

  /** Of all that is outside and visible, the first entry of the first boundary file is the newest. */
  lemma FirstIsNewest(v: Version, above: set<Entry>, level: nat, in0: seq<File>, in1: seq<File>, p: Parts,
                      key: InternalKey, n: nat, x: Entry, snap: SequenceNumber)
    requires level + 1 < NUM_LEVELS && n < |v[level + 1]|
    requires Split(v, above, level, in0, in1, p) && x in p.inside && x.k.user == key.user
    requires NoDataBelow(v, level, key.user) && IsNewest(p.all, key.user, snap, x)
    requires IsLargestKey(in1, key) && IsFirstBoundary(v[level + 1], key, n)
    ensures v[level + 1][n].entries != [] && v[level + 1][n].entries[0].k == v[level + 1][n].smallest
    ensures IsNewest(p.rest, key.user, snap, v[level + 1][n].entries[0])
  {
    hide *;
    SplitMeans(v, above, level, in0, in1, p);
    FirstIsBoundary(v[level + 1], key, n);
    BoundaryIsOlder(v, level, in0, in1, key, n, x);
    forall o | o in p.rest && Visible(o, key.user, snap)
      ensures o.k.sn <= v[level + 1][n].entries[0].k.sn
    {
      NotNewerThanFirst(v, above, level, in0, in1, p, key, n, x, snap, o);
    }
    NewestIs(p.rest, key.user, snap, v[level + 1][n].entries[0], x, p.all);
  }

  lemma OneNewest(es: set<Entry>, all: set<Entry>, user: UserKey, s: SequenceNumber, a: Entry, b: Entry)
    requires es <= all && Distinct(all) && IsNewest(es, user, s, a) && IsNewest(es, user, s, b)
    ensures a == b
  {
  }

  lemma NewestIsIn(es: set<Entry>, user: UserKey, s: SequenceNumber, e: Entry)
    requires IsNewest(es, user, s, e)
    ensures e in es && Visible(e, user, s)
  {
  }

  /** What a dropped deletion uncovers is the first entry of the first boundary file. */
  lemma UncoveredIsBoundary(v: Version, above: set<Entry>, level: nat, in0: seq<File>, in1: seq<File>, p: Parts,
                            x: Entry, snap: SequenceNumber, o: Entry)
    returns (key: InternalKey, n: nat)
    requires Split(v, above, level, in0, in1, p) && x in p.inside
    requires NoDataBelow(v, level, x.k.user) && IsNewest(p.all, x.k.user, snap, x)
    requires IsNewest(p.rest, x.k.user, snap, o)
    ensures level + 1 < NUM_LEVELS
    ensures IsLargestKey(in1, key) && IsFirstBoundary(v[level + 1], key, n) && key.user == x.k.user
    ensures v[level + 1][n].smallest == o.k
  {
    hide *;
    SplitMeans(v, above, level, in0, in1, p);
    NewestIsIn(p.rest, x.k.user, snap, o);
    OutsideIsOlder(above, p, x, x.k.user, snap, o);
    var g;
    g, key := OlderIsBoundary(v, level, in0, in1, x, o);
    n := FirstOf(v[level + 1], key, g);
    FirstIsNewest(v, above, level, in0, in1, p, key, n, x, snap);
    OneNewest(p.rest, p.all, x.k.user, snap, o, v[level + 1][n].entries[0]);
  }

  lemma FirstOf(files: seq<File>, key: InternalKey, g: File) returns (n: nat)
    requires g in files && IsBoundary(g, key)
    ensures IsFirstBoundary(files, key, n)
  {
    var i :| 0 <= i < |files| && files[i] == g;
    n := FirstBoundaryExists(files, key, |files|);
  }

  lemma UncoveredResurrects(v: Version, above: set<Entry>, level: nat, in0: seq<File>, in1: seq<File>, p: Parts,
                            input: seq<Entry>, snap: SequenceNumber) returns (i: nat)
    requires Split(v, above, level, in0, in1, p) && SetOf(input) == p.inside
    requires Uncovers(v, above, level, in1, input, snap)
    ensures i < |input| && Resurrects(input, p.rest, i, snap, BaseKeys(v, level))
  {
    var files := v[level + 1];
    var i', n, key :|
      && 0 <= i' < |input| && IsLargestKey(in1, key) && IsFirstBoundary(files, key, n)
      && files[n].smallest.kind.Value? && Covers(v, above, level, input[i'], key, snap);
    i := i';
    hide Ready, TreeInv, InputEntries, Outside, VersionEntries, IsFirstBoundary, IsLargestKey, NoDataBelow, Distinct;
    hide Newer, IsNewest;
    SplitMeans(v, above, level, in0, in1, p);
    assert input[i] in SetOf(input);
    FirstIsNewest(v, above, level, in0, in1, p, key, n, input[i], snap);
  }

  /** A dropped deletion uncovers an older value outside the inputs exactly if the boundary file that
      the test would have found begins with one. */
  lemma ResurrectsIffUncovers(v: Version, above: set<Entry>, level: nat, in0: seq<File>, in1: seq<File>, p: Parts,
                              input: seq<Entry>, snap: SequenceNumber)
    requires Split(v, above, level, in0, in1, p) && SetOf(input) == p.inside
    ensures level + 1 < NUM_LEVELS
    ensures (exists i :: 0 <= i < |input| && Resurrects(input, p.rest, i, snap, BaseKeys(v, level)))
      <==> Uncovers(v, above, level, in1, input, snap)
  {
    hide Ready, TreeInv, InputEntries, Outside, VersionEntries, IsFirstBoundary, IsLargestKey, NoDataBelow, Distinct;
    hide Newer, IsNewest;
    SplitMeans(v, above, level, in0, in1, p);
    if i :| 0 <= i < |input| && Resurrects(input, p.rest, i, snap, BaseKeys(v, level)) {
      assert input[i] in SetOf(input);
      var o :| IsNewest(p.rest, input[i].k.user, snap, o) && o.k.kind.Value?;
      var key, n := UncoveredIsBoundary(v, above, level, in0, in1, p, input[i], snap, o);
      assert Covers(v, above, level, input[i], key, snap);
    }
    if Uncovers(v, above, level, in1, input, snap) {
      var i := UncoveredResurrects(v, above, level, in0, in1, p, input, snap);
    }
  }

  /** A compaction of a tree keeps every read at every snapshot it must keep, if and only if no value
      begins the first boundary file left behind, under a deletion that readers see and that is dropped. */
  lemma TreeKeepsReadsIff(v: Version, above: set<Entry>, level: nat, in0: seq<File>, in1: seq<File>, input: seq<Entry>,
                          snap: SequenceNumber)
    requires Ready(v, above, level, in0, in1) && level + 1 < NUM_LEVELS && SortedRun(input)
    requires SetOf(input) == InputEntries(in0, in1)
    ensures (forall user, s: SequenceNumber :: snap <= s ==>
               Read(SetOf(Kept(input, |input|, snap, BaseKeys(v, level))) + (above + Outside(v, level, in0, in1)),
                    user, s)
               == Read(above + VersionEntries(v), user, s))
      <==> !Uncovers(v, above, level, in1, input, snap)
  {
    var p := Parts(SetOf(input), Outside(v, level, in0, in1), above + Outside(v, level, in0, in1),
                   above + VersionEntries(v));
    assert Split(v, above, level, in0, in1, p);
    hide *;
    SplitMeans(v, above, level, in0, in1, p);
    ResurrectsIffUncovers(v, above, level, in0, in1, p, input, snap);
    CompactionKeepsReadsIff(input, p.rest, snap, BaseKeys(v, level));
  }

  /** With the boundary test, nothing is uncovered. */
  lemma ClosedUncoversNothing(v: Version, above: set<Entry>, level: nat, in1: seq<File>, input: seq<Entry>,
                              snap: SequenceNumber)
    requires level + 1 < NUM_LEVELS && NextLevelClosed(v, level, in1)
    ensures !Uncovers(v, above, level, in1, input, snap)
  {
    hide Covers;
    if in1 != [] {
      var key :| IsLargestKey(in1, key) && NoBoundary(v[level + 1], key);
      forall key' | IsLargestKey(in1, key')
        ensures key' == key
      {
        OneLargestKey(in1, key, key');
      }
    }
  }
}
