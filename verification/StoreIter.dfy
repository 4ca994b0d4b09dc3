/** Iterating over a whole store (LevelDB db/db_impl.cc, NewInternalIterator; db/version_set.cc,
    AddIterators): the user iterator over the memtables and the tree shows what Get answers. */
module StoreIter {
  import opened Options
  import opened DbFormat
  import opened Tree
  import opened Selection
  import opened Compaction
  import opened Builder
  import opened Database
  import opened Background
  import opened DbIter

  /** The files of level 0 merged, and below it each level's files one after the other. */
  function MergeLevels(v: Version, n: nat): seq<Entry>
    requires 1 <= n <= NUM_LEVELS
  {
    if n == 1 then MergeFiles(v[0]) else Merge(MergeLevels(v, n - 1), Concat(v[n - 1]))
  }

  /** What the merging iterator over all children of a store walks through. */
  function Children(db: Db): seq<Entry> {
    Merge(Merge(db.mem, Imm(db)), MergeLevels(db.v, NUM_LEVELS))
  }

  lemma NewerIsApart(a: seq<Entry>, b: seq<Entry>)
    requires Newer(SetOf(a), SetOf(b))
    ensures KeysApart(a, b) && KeysApart(b, a)
  {
    forall x, y | x in a && y in b
      ensures x.k != y.k
    {
      assert x in SetOf(a) && y in SetOf(b);
    }
  }

  lemma {:induction false} ConcatIsSorted(files: seq<File>)
    requires Tables(files) && DisjointLevel(files)
    ensures SortedRun(Concat(files))
  {
    if files != [] {
      var n := |files| - 1;
      ConcatIsSorted(files[..n]);
      ConcatEntries(files[..n]);
      var front, last := Concat(files[..n]), files[n].entries;
      assert files[n] in files;
      forall x, y | x in front && y in last
        ensures Before(x.k, y.k)
      {
        assert x in SetOf(front);
        var f :| f in files[..n] && x in f.entries;
        var i :| 0 <= i < n && files[i] == f;
        EntryOrder(files, i, n, x, y);
      }
      RunsInOrder(front, last);
    }
  }

  lemma RunsInOrder(a: seq<Entry>, b: seq<Entry>)
    requires SortedRun(a) && SortedRun(b) && forall x, y :: x in a && y in b ==> Before(x.k, y.k)
    ensures SortedRun(a + b)
  {
    var r := a + b;
    forall i, j | 0 <= i < j < |r|
      ensures Before(r[i].k, r[j].k)
    {
      if i < |a| <= j {
        assert r[i] in a && r[j] in b;
      }
    }
  }

  lemma Level0IsApart(v: Version, nextFile: nat)
    requires TreeInv(v) && FilesInv(v, nextFile)
    ensures Tables(v[0]) && FilesApart(v[0])
  {
    forall i, j | 0 <= i < j < |v[0]|
      ensures KeysApart(v[0][i].entries, v[0][j].entries)
    {
      var f, g := v[0][i], v[0][j];
      assert f in v[0] && g in v[0] && BySmallest(f, g);
      BySmallestIsStrictOrder(f, f, f);
      if g.number < f.number {
        NewerIsApart(f.entries, g.entries);
      } else {
        NewerIsApart(g.entries, f.entries);
      }
    }
  }

  /** The entries of the first n levels. */
  ghost function UpTo(v: Version, n: nat): set<Entry>
    requires n <= NUM_LEVELS
  {
    set l, e | 0 <= l < n && e in LevelEntries(v[l]) :: e
  }

  lemma OneMoreLevel(v: Version, n: nat)
    requires n < NUM_LEVELS
    ensures UpTo(v, n + 1) == UpTo(v, n) + LevelEntries(v[n])
  {
  }

  lemma UpperIsNewer(v: Version, n: nat)
    requires Layered(v) && n < NUM_LEVELS
    ensures Newer(UpTo(v, n), LevelEntries(v[n]))
  {
    forall x, y | x in UpTo(v, n) && y in LevelEntries(v[n]) && x.k.user == y.k.user
      ensures y.k.sn < x.k.sn
    {
      var l :| 0 <= l < n && x in LevelEntries(v[l]);
      assert Newer(LevelEntries(v[l]), LevelEntries(v[n]));
    }
  }

  /** Merging a run with an older one. */
  lemma MergedRuns(a: seq<Entry>, b: seq<Entry>)
    requires SortedRun(a) && SortedRun(b) && Newer(SetOf(a), SetOf(b))
    ensures SortedRun(Merge(a, b)) && SetOf(Merge(a, b)) == SetOf(a) + SetOf(b)
  {
    hide *;
    NewerIsApart(a, b);
    MergeIsSorted(a, b);
    MergeEntries(a, b);
  }

  lemma LevelIsRun(v: Version, n: nat)
    requires TreeInv(v) && 1 <= n < NUM_LEVELS
    ensures SortedRun(Concat(v[n])) && SetOf(Concat(v[n])) == LevelEntries(v[n])
    ensures Newer(UpTo(v, n), LevelEntries(v[n]))
  {
    hide SortedRun, LevelEntries, NewestByNumber, Table, Newer, Concat, UpTo;
    ConcatIsSorted(v[n]);
    ConcatEntries(v[n]);
    UpperIsNewer(v, n);
  }

  lemma Level0IsRun(v: Version, nextFile: nat)
    requires TreeInv(v) && FilesInv(v, nextFile)
    ensures SortedRun(MergeFiles(v[0])) && SetOf(MergeFiles(v[0])) == UpTo(v, 1)
  {
    hide TreeInv, FilesInv, SortedRun, LevelEntries, Tables, FilesApart, MergeFiles;
    Level0IsApart(v, nextFile);
    MergeFilesIsSorted(v[0]);
    OneMoreLevel(v, 0);
  }

  lemma {:induction false} LevelsAreSorted(v: Version, nextFile: nat, n: nat)
    requires TreeInv(v) && FilesInv(v, nextFile) && 1 <= n <= NUM_LEVELS
    ensures SortedRun(MergeLevels(v, n)) && SetOf(MergeLevels(v, n)) == UpTo(v, n)
    decreases n
  {
    hide TreeInv, FilesInv, SortedRun, SetOf, LevelEntries, UpTo, Merge, MergeFiles, Concat, Newer;
    if n == 1 {
      Level0IsRun(v, nextFile);
    } else {
      LevelsAreSorted(v, nextFile, n - 1);
      LevelIsRun(v, n - 1);
      OneMoreLevel(v, n - 1);
      MergedRuns(MergeLevels(v, n - 1), Concat(v[n - 1]));
    }
  }

  /** The children of a store hold all its entries, each once, in order. */
  lemma ChildrenAreAll(w: World)
    requires Inv(w)
    ensures SortedRun(Children(w.db)) && SetOf(Children(w.db)) == AllEntries(w.db) && Distinct(AllEntries(w.db))
  {
    var db := w.db;
    hide TreeInv, FilesInv, SortedRun, HistoryInv, ReadsHistory, SnapshotsOk, MergeLevels, Distinct, Merge, Newer;
    hide SetOf;
    LevelsAreSorted(db.v, db.nextFile, NUM_LEVELS);
    assert UpTo(db.v, NUM_LEVELS) == VersionEntries(db.v);
    hide UpTo, VersionEntries;
    TreeEntriesDistinct(w);
    NewerFirst(SetOf(db.mem), SetOf(Imm(db)), VersionEntries(db.v));
    MergedRuns(db.mem, Imm(db));
    MergedRuns(Merge(db.mem, Imm(db)), MergeLevels(db.v, NUM_LEVELS));
  }

  lemma NewerFirst(a: set<Entry>, b: set<Entry>, c: set<Entry>)
    requires Newer(a, b + c) && Newer(b, c)
    ensures Newer(a, b) && Newer(a + b, c)
  {
  }

  /** The keys that have a value at the snapshot, in order, each with the value that is read. */
  ghost predicate IsLive(live: seq<(UserKey, Bytes)>, history: set<Entry>, s: SequenceNumber) {
    && (forall c, d :: 0 <= c < d < |live| ==> live[c].0 < live[d].0)
    && forall user, value :: (user, value) in live <==> Read(history, user, s) == Some(value)
  }

  /** In every reachable state and at every live snapshot, any sequence of operations on an iterator over
      the store shows what a cursor over the live keys and values of its history shows. */
  method IterateStore(db: Db, ghost w: World, s: SequenceNumber, ops: seq<Op>)
    returns (shown: seq<Option<(UserKey, Bytes)>>, ghost live: seq<(UserKey, Bytes)>, ghost cursors: seq<int>)
    requires Inv(w) && w.db == db && SmallestSnapshot(db) <= s
    ensures IsLive(live, w.history, s) && CursorRun(live, ops, cursors) && |shown| == |ops|
    ensures forall n :: 0 <= n < |ops| ==> Shows(live, cursors[n + 1], shown[n])
  {
    ChildrenAreAll(w);
    live := Live(Children(db), s);
    LiveIsWhatIsRead(Children(db), s);
    HistoryIsRead(w, s);
    hide *;
    shown, cursors := RunOps(Children(db), s, ops);
  }

  lemma HistoryIsRead(w: World, s: SequenceNumber)
    requires Inv(w) && SmallestSnapshot(w.db) <= s
    ensures forall user :: Read(AllEntries(w.db), user, s) == Read(w.history, user, s)
  {
    hide TreeInv, FilesInv, MemInv, HistoryInv, SnapshotsOk, Read, AllEntries;
  }
}
