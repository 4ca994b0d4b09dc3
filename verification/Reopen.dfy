/** Opening a store again after a crash (LevelDB db/db_impl.cc, Recover): what the log has kept becomes
    level-0 tables and a memtable, and the store goes on from a state it has been in. */
module Reopen {
  import opened Options
  import opened DbFormat
  import opened LogFormat
  import opened Log
  import opened WriteBatches
  import opened Tree
  import opened Compaction
  import opened Builder
  import opened TreeSteps
  import opened Database
  import opened Background
  import opened Durable
  import opened Manifest
  import Recovery

  // ---------------------------------------------------------------------------------------------
  // Recovered tables in level 0

  /** Each table takes a new number; WriteLevel0Table adds those that are not empty. */
  function RecoveredFiles(tables: seq<seq<Entry>>, first: nat, sizeOf: seq<Entry> -> nat, n: nat): seq<(nat, File)>
    requires n <= |tables|
  {
    if n == 0 then []
    else RecoveredFiles(tables, first, sizeOf, n - 1)
         + if tables[n - 1] == [] then [] else [(0, OutputFile(first + n - 1, sizeOf(tables[n - 1]), tables[n - 1]))]
  }

  function OpenEdit(tables: seq<seq<Entry>>, first: nat, sizeOf: seq<Entry> -> nat, n: nat): Edit
    requires n <= |tables|
  {
    Edit([], RecoveredFiles(tables, first, sizeOf, n))
  }

  /** Numbers are all new, and ascend. */
  ghost predicate NewNumbers(added: seq<(nat, File)>, first: nat, next: nat) {
    && (forall i :: 0 <= i < |added| ==> added[i].0 == 0 && first <= added[i].1.number < next)
    && forall i, j :: 0 <= i < j < |added| ==> added[i].1.number < added[j].1.number
  }

  lemma OneMoreNumber(added: seq<(nat, File)>, first: nat, next: nat, f: File)
    requires NewNumbers(added, first, next) && first <= next == f.number
    ensures NewNumbers(added + [(0, f)], first, next + 1)
  {
  }

  lemma NumbersBelow(added: seq<(nat, File)>, first: nat, next: nat)
    requires NewNumbers(added, first, next)
    ensures NewNumbers(added, first, next + 1)
  {
  }

  lemma {:induction false} RecoveredNumbers(tables: seq<seq<Entry>>, first: nat, sizeOf: seq<Entry> -> nat, n: nat)
    requires n <= |tables|
    ensures NewNumbers(RecoveredFiles(tables, first, sizeOf, n), first, first + n)
  {
    hide NewNumbers, OutputFile;
    if n == 0 {
      NoNumbers(first);
    } else {
      var before, t := RecoveredFiles(tables, first, sizeOf, n - 1), tables[n - 1];
      RecoveredNumbers(tables, first, sizeOf, n - 1);
      if t == [] {
        NumbersBelow(before, first, first + n - 1);
        assert before + [] == before;
      } else {
        OutputNumber(first + n - 1, sizeOf(t), t);
        OneMoreNumber(before, first, first + n - 1, OutputFile(first + n - 1, sizeOf(t), t));
      }
    }
  }

  lemma NoNumbers(first: nat)
    ensures NewNumbers([], first, first)
  {
  }

  lemma OpenAddsNewNumbers(v: Version, nextFile: nat, tables: seq<seq<Entry>>, sizeOf: seq<Entry> -> nat)
    requires FilesInv(v, nextFile)
    ensures AddsNewNumbers(v, OpenEdit(tables, nextFile, sizeOf, |tables|))
  {
    var edit := OpenEdit(tables, nextFile, sizeOf, |tables|);
    RecoveredNumbers(tables, nextFile, sizeOf, |tables|);
    hide RecoveredFiles;
    forall i | 0 <= i < |edit.added|
      ensures NumberFree(FileSet(v[edit.added[i].0]), edit.added[i].1.number)
    {
      NumbersAreFree(v, nextFile, 0, edit.added[i].1.number);
    }
  }

  lemma AddedBySteps(tables: seq<seq<Entry>>, first: nat, sizeOf: seq<Entry> -> nat, n: nat, l: nat)
    requires n < |tables|
    ensures var a, b := OpenEdit(tables, first, sizeOf, n), OpenEdit(tables, first, sizeOf, n + 1);
            AddedFiles(b, |b.added|, l) == AddedFiles(a, |a.added|, l)
              + if l == 0 && tables[n] != [] then {OutputFile(first + n, sizeOf(tables[n]), tables[n])} else {}
  {
    var a, b := OpenEdit(tables, first, sizeOf, n), OpenEdit(tables, first, sizeOf, n + 1);
    SameAdded(a, b, |a.added|, l);
  }

  /** The tables come after all of the tree. */
  ghost predicate AllAfter(v: Version, tables: seq<seq<Entry>>) {
    && (forall i :: 0 <= i < |tables| ==> SortedRun(tables[i]))
    && (forall i, x, e :: 0 <= i < |tables| && x in tables[i] && e in VersionEntries(v) ==> e.k.sn < x.k.sn)
    && (forall i, j, x, y :: 0 <= i < j < |tables| && x in tables[i] && y in tables[j] ==> x.k.sn < y.k.sn)
  }

  lemma InsertIsFlushed(v: Version, nextFile: nat, f: File)
    requires FilesInv(v, nextFile) && f.number == nextFile
    ensures Flushed(v, v[0 := InsertSorted(v[0], f)], 0, f)
    ensures FileSet(InsertSorted(v[0], f)) == FileSet(v[0]) + {f}
  {
    InsertSortedIsSorted(v[0], f);
    var files := InsertSorted(v[0], f);
    hide InsertSorted, BySmallest;
    assert forall g :: g in files <==> g in FileSet(files);
  }

  lemma OtherLevels(v: Version, files: seq<File>)
    ensures forall l :: 1 <= l < NUM_LEVELS ==> v[0 := files][l] == v[l]
    ensures v[0 := files][0] == files
  {
  }

  /** A tree with one more table in level 0. */
  lemma OneMoreInLevel0(v: Version, nextFile: nat, f: File) returns (v': Version)
    requires TreeInv(v) && FilesInv(v, nextFile) && Table(f) && f.number == nextFile
    requires Newer(SetOf(f.entries), VersionEntries(v))
    ensures TreeInv(v') && FilesInv(v', nextFile + 1) && VersionEntries(v') == VersionEntries(v) + SetOf(f.entries)
    ensures FileSet(v'[0]) == FileSet(v[0]) + {f} && forall l :: 1 <= l < NUM_LEVELS ==> v'[l] == v[l]
  {
    v' := v[0 := InsertSorted(v[0], f)];
    InsertIsFlushed(v, nextFile, f);
    assert forall g :: g in v[0] ==> g.number < f.number;
    OtherLevels(v, InsertSorted(v[0], f));
    assert LevelOk(v, 0, f);
    hide TreeInv, FilesInv, InsertSorted, Table, Newer, VersionEntries, Flushed, LevelOk, LevelEntries;
    FlushKeepsTree(v, v', 0, f);
    EntriesAfterFlush(v, v', 0, f);
    FlushNumbers(v, v', nextFile, 0, f);
  }

  lemma NextTableIsNewer(v: Version, v1: Version, tables: seq<seq<Entry>>, n: nat)
    requires AllAfter(v, tables) && n < |tables|
    requires VersionEntries(v1) == VersionEntries(v) + Recovery.TableEntries(tables[..n])
    ensures Newer(SetOf(tables[n]), VersionEntries(v1)) && SortedRun(tables[n])
  {
    forall x, y | x in SetOf(tables[n]) && y in VersionEntries(v1) && x.k.user == y.k.user
      ensures y.k.sn < x.k.sn
    {
      if y in Recovery.TableEntries(tables[..n]) {
        var i := FromTables(tables[..n], y);
        assert tables[..n][i] == tables[i];
      }
    }
  }

  lemma {:induction false} FromTables(tables: seq<seq<Entry>>, x: Entry) returns (i: nat)
    requires x in Recovery.TableEntries(tables)
    ensures i < |tables| && x in tables[i]
  {
    var n := |tables| - 1;
    if x in tables[n] {
      i := n;
    } else {
      i := FromTables(tables[..n], x);
    }
  }

  /** A tree with the first n tables of a log in level 0. */
  ghost predicate HasTables(v: Version, v': Version, nextFile: nat, tables: seq<seq<Entry>>, sizeOf: seq<Entry> -> nat,
                            n: nat)
    requires n <= |tables|
  {
    && TreeInv(v') && FilesInv(v', nextFile + n)
    && VersionEntries(v') == VersionEntries(v) + Recovery.TableEntries(tables[..n])
    && AddedTo(v, v', OpenEdit(tables, nextFile, sizeOf, n))
  }

  ghost predicate AddedTo(v: Version, v': Version, edit: Edit) {
    forall l :: 0 <= l < NUM_LEVELS ==> FileSet(v'[l]) == FileSet(v[l]) + AddedFiles(edit, |edit.added|, l)
  }

  lemma HasNoTables(v: Version, nextFile: nat, tables: seq<seq<Entry>>, sizeOf: seq<Entry> -> nat)
    requires TreeInv(v) && FilesInv(v, nextFile)
    ensures HasTables(v, v, nextFile, tables, sizeOf, 0)
  {
    hide TreeInv, FilesInv, VersionEntries, FileSet;
    NothingAdded(tables, nextFile, sizeOf);
  }

  lemma EmptyTable(v: Version, v1: Version, nextFile: nat, tables: seq<seq<Entry>>, sizeOf: seq<Entry> -> nat, n: nat)
    requires n < |tables| && tables[n] == [] && HasTables(v, v1, nextFile, tables, sizeOf, n)
    ensures HasTables(v, v1, nextFile, tables, sizeOf, n + 1)
  {
    hide TreeInv, FilesInv, VersionEntries, AddedTo, OpenEdit, Recovery.TableEntries, SetOf;
    OneMoreTableEntries(tables, n);
    NoEntriesIn(tables[n]);
    HigherNumbers(v1, nextFile + n, nextFile + n + 1);
    EmptyIsSkipped(tables, nextFile, sizeOf, n);
  }

  lemma EmptyIsSkipped(tables: seq<seq<Entry>>, first: nat, sizeOf: seq<Entry> -> nat, n: nat)
    requires n < |tables| && tables[n] == []
    ensures OpenEdit(tables, first, sizeOf, n + 1) == OpenEdit(tables, first, sizeOf, n)
  {
  }

  lemma OneMoreTableEntries(tables: seq<seq<Entry>>, n: nat)
    requires n < |tables|
    ensures Recovery.TableEntries(tables[..n + 1]) == Recovery.TableEntries(tables[..n]) + SetOf(tables[n])
  {
    hide Recovery.TableEntries, SetOf;
    assert tables[..n + 1] == tables[..n] + [tables[n]];
    Recovery.OneMoreTable(tables[..n], tables[n]);
  }

  lemma AddedOneMore(v: Version, v1: Version, v': Version, nextFile: nat, tables: seq<seq<Entry>>,
                     sizeOf: seq<Entry> -> nat, n: nat)
    requires n < |tables| && tables[n] != [] && AddedTo(v, v1, OpenEdit(tables, nextFile, sizeOf, n))
    requires FileSet(v'[0]) == FileSet(v1[0]) + {OutputFile(nextFile + n, sizeOf(tables[n]), tables[n])}
    requires forall l :: 1 <= l < NUM_LEVELS ==> v'[l] == v1[l]
    ensures AddedTo(v, v', OpenEdit(tables, nextFile, sizeOf, n + 1))
  {
    hide OpenEdit, FileSet, AddedFiles, OutputFile;
    var a, b := OpenEdit(tables, nextFile, sizeOf, n), OpenEdit(tables, nextFile, sizeOf, n + 1);
    forall l | 0 <= l < NUM_LEVELS
      ensures FileSet(v'[l]) == FileSet(v[l]) + AddedFiles(b, |b.added|, l)
    {
      AddedBySteps(tables, nextFile, sizeOf, n, l);
      assert FileSet(v1[l]) == FileSet(v[l]) + AddedFiles(a, |a.added|, l);
    }
  }

  lemma FullTable(v: Version, v1: Version, nextFile: nat, tables: seq<seq<Entry>>, sizeOf: seq<Entry> -> nat, n: nat)
    returns (v': Version)
    requires AllAfter(v, tables) && n < |tables| && tables[n] != [] && HasTables(v, v1, nextFile, tables, sizeOf, n)
    ensures HasTables(v, v', nextFile, tables, sizeOf, n + 1)
  {
    hide TreeInv, FilesInv, AllAfter, VersionEntries, AddedTo, OpenEdit, Recovery.TableEntries, SetOf, Newer, SortedRun;
    var f := OutputFile(nextFile + n, sizeOf(tables[n]), tables[n]);
    NextTableIsNewer(v, v1, tables, n);
    v' := OneMoreInLevel0(v1, nextFile + n, f);
    OneMoreTableEntries(tables, n);
    AddedOneMore(v, v1, v', nextFile, tables, sizeOf, n);
  }

  lemma {:induction false} AddTables(v: Version, nextFile: nat, tables: seq<seq<Entry>>, sizeOf: seq<Entry> -> nat,
                                     n: nat)
    returns (v': Version)
    requires TreeInv(v) && FilesInv(v, nextFile) && AllAfter(v, tables) && n <= |tables|
    ensures HasTables(v, v', nextFile, tables, sizeOf, n)
    decreases n
  {
    hide *;
    if n == 0 {
      HasNoTables(v, nextFile, tables, sizeOf);
      v' := v;
    } else {
      v' := AddTables(v, nextFile, tables, sizeOf, n - 1);
      if tables[n - 1] == [] {
        EmptyTable(v, v', nextFile, tables, sizeOf, n - 1);
      } else {
        v' := FullTable(v, v', nextFile, tables, sizeOf, n - 1);
      }
    }
  }

  lemma NoEntriesIn(t: seq<Entry>)
    requires t == []
    ensures SetOf(t) == {}
  {
  }

  lemma NothingAdded(tables: seq<seq<Entry>>, first: nat, sizeOf: seq<Entry> -> nat)
    ensures var edit := OpenEdit(tables, first, sizeOf, 0);
            (forall l :: AddedFiles(edit, |edit.added|, l) == {}) && Recovery.TableEntries(tables[..0]) == {}
  {
  }

  /** What holds of a tree holds of any other with the same files. */
  ghost predicate SameLevels(a: Version, b: Version) {
    forall l :: 0 <= l < NUM_LEVELS ==> FileSet(b[l]) == FileSet(a[l]) && SortedBySmallest(b[l])
  }

  lemma SameLevel(a: seq<File>, b: seq<File>)
    requires FileSet(b) == FileSet(a)
    ensures (forall f :: f in b <==> f in a) && LevelEntries(b) == LevelEntries(a) && (Tables(a) ==> Tables(b))
    ensures PairwiseDisjoint(a) ==> PairwiseDisjoint(b)
    ensures NewestByNumber(a) ==> NewestByNumber(b)
  {
    forall f
      ensures f in b <==> f in a
    {
      assert f in FileSet(b) <==> f in FileSet(a);
    }
    hide FileSet, Table, Newer, Before;
  }

  lemma SameTree(a: Version, b: Version)
    requires TreeInv(a) && SameLevels(a, b)
    ensures TreeInv(b) && VersionEntries(b) == VersionEntries(a)
  {
    forall l | 0 <= l < NUM_LEVELS
      ensures LevelEntries(b[l]) == LevelEntries(a[l]) && Tables(b[l]) && (1 <= l ==> DisjointLevel(b[l]))
      ensures NewestByNumber(a[l]) ==> NewestByNumber(b[l])
    {
      assert Tables(a[l]);
      hide Tables, NewestByNumber, LevelEntries, Layered, FileSet;
      SameLevel(a[l], b[l]);
      if 1 <= l {
        DisjointPairwise(a[l]);
        SortedDisjoint(b[l]);
      }
    }
    hide SameLevels, Tables, DisjointLevel, NewestByNumber, LevelEntries, FileSet;
  }

  lemma SameNumbers(a: Version, b: Version, nextFile: nat)
    requires FilesInv(a, nextFile) && SameLevels(a, b)
    ensures FilesInv(b, nextFile)
  {
    forall l, f | 0 <= l < NUM_LEVELS
      ensures f in b[l] <==> f in a[l]
    {
      assert f in FileSet(b[l]) <==> f in FileSet(a[l]);
    }
    hide FileSet, BySmallest;
  }

  lemma BuiltIsSame(v: Version, v1: Version, v': Version, edit: Edit)
    requires edit.deleted == [] && Built(v, edit, v') && AddedTo(v, v1, edit)
    ensures SameLevels(v1, v')
  {
  }

  lemma BuiltKeepsTree(v: Version, v': Version, nextFile: nat, tables: seq<seq<Entry>>, sizeOf: seq<Entry> -> nat)
    requires TreeInv(v) && FilesInv(v, nextFile) && AllAfter(v, tables)
    requires Built(v, OpenEdit(tables, nextFile, sizeOf, |tables|), v')
    ensures TreeInv(v') && FilesInv(v', nextFile + |tables|)
    ensures VersionEntries(v') == VersionEntries(v) + Recovery.TableEntries(tables)
  {
    hide TreeInv, FilesInv, AllAfter, VersionEntries, RecoveredFiles, Built, SameLevels, AddedTo, Recovery.TableEntries;
    var v1 := AddTables(v, nextFile, tables, sizeOf, |tables|);
    assert tables[..|tables|] == tables;
    BuiltIsSame(v, v1, v', OpenEdit(tables, nextFile, sizeOf, |tables|));
    SameTree(v1, v');
    SameNumbers(v1, v', nextFile + |tables|);
  }

  // ---------------------------------------------------------------------------------------------
  // The recovered state

  /** What the log adds to a store in which all is in tables. */
  ghost predicate Adds(w: World, wrote: set<Entry>, last: SequenceNumber) {
    Recovery.NumberedOnce(wrote, w.db.lastSequence + 1, last + 1) && w.db.lastSequence <= last < MAX_SEQUENCE_NUMBER
  }

  lemma TreeIsOlder(w: World)
    requires Inv(w)
    ensures TreeInv(w.db.v) && FilesInv(w.db.v, w.db.nextFile)
    ensures forall e :: e in VersionEntries(w.db.v) ==> e.k.sn <= w.db.lastSequence
  {
    hide TreeInv, FilesInv, MemInv, SnapshotsOk, ReadsHistory, Distinct, VersionEntries;
  }

  lemma TablesComeAfter(v: Version, wrote: set<Entry>, from: nat, to: nat, tables: seq<seq<Entry>>, held: seq<Entry>)
    requires Recovery.NumberedOnce(wrote, from, to) && Recovery.TableEntries(tables) + SetOf(held) == wrote
    requires forall e :: e in VersionEntries(v) ==> e.k.sn < from
    requires Recovery.Ascending(tables, held) && forall i :: 0 <= i < |tables| ==> SortedRun(tables[i])
    ensures AllAfter(v, tables)
    ensures forall x, y :: x in held && y in VersionEntries(v) + Recovery.TableEntries(tables) ==> y.k.sn < x.k.sn
  {
    hide SortedRun, VersionEntries, Recovery.TableEntries;
    forall i, x | 0 <= i < |tables| && x in tables[i]
      ensures x in wrote
    {
      Recovery.InTables(tables, i, x);
    }
    forall x, y | x in held && y in Recovery.TableEntries(tables)
      ensures y.k.sn < x.k.sn
    {
      var i := FromTables(tables, y);
    }
    assert forall x :: x in held ==> x in SetOf(held);
  }

  lemma HistoryGrows(w: World, wrote: set<Entry>, last: SequenceNumber)
    requires HistoryInv(w) && Adds(w, wrote, last)
    ensures Distinct(w.history + wrote)
  {
  }

  /** The store opened again satisfies the invariant, and what survived is in its history. */
  lemma ReopenedKeepsInv(w: World, w': World, wrote: set<Entry>, last: SequenceNumber, end: SequenceNumber,
                         tables: seq<seq<Entry>>, held: seq<Entry>)
    requires Inv(w) && w.db.mem == [] && w.db.imm == None && Adds(w, wrote, last)
    requires Recovery.TableEntries(tables) + SetOf(held) == wrote && SortedRun(held)
    requires forall x, y :: x in held && y in VersionEntries(w.db.v) + Recovery.TableEntries(tables) ==> y.k.sn < x.k.sn
    requires TreeInv(w'.db.v) && FilesInv(w'.db.v, w'.db.nextFile)
    requires VersionEntries(w'.db.v) == VersionEntries(w.db.v) + Recovery.TableEntries(tables)
    requires w' == World(Db(held, None, w'.db.v, w'.db.nextFile, end, []), w.history + wrote)
    requires last <= end < MAX_SEQUENCE_NUMBER
    ensures Inv(w')
  {
    hide TreeInv, FilesInv, VersionEntries, Recovery.TableEntries, Read;
    HistoryGrows(w, wrote, last);
    assert AllEntries(w.db) == VersionEntries(w.db.v) && AllEntries(w'.db) == AllEntries(w.db) + wrote;
    hide AllEntries, SetOf;
    assert Newer(SetOf(held), VersionEntries(w'.db.v)) by {
      HeldIsNewer(held, VersionEntries(w'.db.v));
    }
    hide Distinct, Newer;
    forall user, s: SequenceNumber | end <= s
      ensures Read(AllEntries(w'.db), user, s) == Read(w'.history, user, s)
    {
      assert SmallestSnapshot(w.db) <= s;
      NewerReadTheSame(AllEntries(w.db), w.history, wrote, user, s);
    }
  }

  lemma HeldIsNewer(held: seq<Entry>, below: set<Entry>)
    requires forall x, y :: x in held && y in below ==> y.k.sn < x.k.sn
    ensures Newer(SetOf(held), below)
  {
  }

  /** What Recover makes of the replayed logs: their tables come into level 0, in one edit, and what is left
      stays in memory; the last sequence number is the manifest's, or the highest one replayed. */
  method OpenStore(v0: Version, nextFile: nat, lastSequence: SequenceNumber, tables: seq<seq<Entry>>, held: seq<Entry>,
                   highest: nat, sizeOf: seq<Entry> -> nat, ghost w: World, ghost wrote: set<Entry>,
                   ghost last: SequenceNumber)
    returns (db': Db)
    requires Inv(w) && w.db.mem == [] && w.db.imm == None && v0 == w.db.v && nextFile == w.db.nextFile
    requires w.db.lastSequence <= lastSequence < MAX_SEQUENCE_NUMBER && highest <= last
    requires Adds(w, wrote, last) && last == (if w.db.lastSequence < highest then highest else w.db.lastSequence)
    requires Recovery.TableEntries(tables) + SetOf(held) == wrote && SortedRun(held) && Recovery.Ascending(tables, held)
    requires forall i :: 0 <= i < |tables| ==> SortedRun(tables[i])
    ensures Inv(World(db', w.history + wrote))
    ensures db'.lastSequence == if lastSequence < highest then highest else lastSequence
  {
    hide Inv, TreeInv, FilesInv, SortedRun, AddsNewNumbers, Built, Recovery.TableEntries, Recovery.Ascending;
    hide VersionEntries;
    hide AllAfter, Recovery.NumberedOnce, SortedBySmallest, RecoveredFiles, SetOf;
    ReadyToApply(w);
    OpenAddsNewNumbers(v0, nextFile, tables, sizeOf);
    TreeIsOlder(w);
    TablesComeAfter(v0, wrote, w.db.lastSequence + 1, last + 1, tables, held);
    var v := LogAndApply(v0, OpenEdit(tables, nextFile, sizeOf, |tables|));
    BuiltKeepsTree(v0, v, nextFile, tables, sizeOf);
    var end: SequenceNumber := if lastSequence < highest then highest else lastSequence;
    db' := Db(held, None, v, nextFile + |tables|, end, []);
    ReopenedKeepsInv(w, World(db', w.history + wrote), wrote, last, end, tables, held);
  }

  // ---------------------------------------------------------------------------------------------
  // What the logs of the memtables hold

  /** The batches of a log are numbered from `first` up to, not including, `next`, and wrote these entries. */
  ghost predicate LogHolds(order: Order, batches: seq<seq<Op>>, first: nat, next: nat, es: set<Entry>) {
    && Recovery.Writable(batches, first) && Recovery.Next(first, Recovery.Numbered(batches, first)) == next
    && Recovery.Wrote(order, Recovery.Numbered(batches, first)) == es
  }

  /** The highest number replayed, or the one before the log, is the last of the batches replayed. */
  lemma HighestIsLast(order: Order, commits: seq<Recovery.Commit>, reps: seq<Bytes>, first: nat, n: nat, max: nat)
    requires Recovery.Logged(first, commits, reps) && n <= |commits| && max < first
    ensures var next, h := Recovery.Next(first, commits[..n]), Recovery.Highest(max, first, commits[..n]);
            first <= next && max <= h < next && (if h < first - 1 then first - 1 else h) == next - 1
  {
    Recovery.BatchesAreNumbered(order, commits, reps, first, n);
    if n == 0 {
      Recovery.NoBatch(order, commits, first);
    }
    hide Recovery.Next, Recovery.Wrote, Recovery.NumberedOnce, Recovery.Logged;
  }

  /** The entries of the first n batches are those with numbers before the next one. */
  lemma {:induction false} WroteBefore(order: Order, commits: seq<Recovery.Commit>, reps: seq<Bytes>, first: nat,
                                       n: nat, m: nat)
    requires Recovery.Logged(first, commits, reps) && n <= m <= |commits|
    ensures Recovery.Next(first, commits[..n]) <= Recovery.Next(first, commits[..m])
    ensures Recovery.Wrote(order, commits[..n]) <= Recovery.Wrote(order, commits[..m])
    ensures forall x :: x in Recovery.Wrote(order, commits[..m]) ==>
              (x in Recovery.Wrote(order, commits[..n]) <==> x.k.sn < Recovery.Next(first, commits[..n]))
    decreases m
  {
    hide Recovery.Logged, Recovery.Next, Recovery.Wrote, EntriesOf, SetOf;
    Recovery.BatchesAreNumbered(order, commits, reps, first, n);
    if n < m {
      var c := commits[m - 1];
      WroteBefore(order, commits, reps, first, n, m - 1);
      Recovery.LastBatch(order, commits, reps, first, m - 1);
      Recovery.OpsAreNumbered(order, c.ops, c.first);
    }
  }

  /** What was written up to the last number that survives. */
  lemma Survivors(order: Order, history: set<Entry>, frozen: nat, commits: seq<Recovery.Commit>, reps: seq<Bytes>,
                  n: nat)
    requires Recovery.Logged(frozen + 1, commits, reps) && n <= |commits|
    requires Recovery.Wrote(order, commits) == history - Upto(history, frozen)
    ensures Recovery.Next(frozen + 1, commits[..n]) > 0
    ensures Upto(history, Recovery.Next(frozen + 1, commits[..n]) - 1)
              == Upto(history, frozen) + Recovery.Wrote(order, commits[..n])
  {
    hide Recovery.Logged, Recovery.Next, Recovery.Wrote;
    var last := Recovery.Next(frozen + 1, commits[..n]) - 1;
    assert commits[..|commits|] == commits;
    WroteBefore(order, commits, reps, frozen + 1, n, |commits|);
    Recovery.BatchesAreNumbered(order, commits, reps, frozen + 1, n);
    forall x
      ensures x in Upto(history, last) <==> x in Upto(history, frozen) || x in Recovery.Wrote(order, commits[..n])
    {
      if x in history && x !in Upto(history, frozen) {
        assert x in Recovery.Wrote(order, commits);
      }
    }
  }

  lemma {:induction false} TablesJoin(a: seq<seq<Entry>>, b: seq<seq<Entry>>)
    ensures Recovery.TableEntries(a + b) == Recovery.TableEntries(a) + Recovery.TableEntries(b)
  {
    if b == [] {
      assert a + b == a;
    } else {
      var n := |b| - 1;
      TablesJoin(a, b[..n]);
      assert a + b == (a + b[..n]) + [b[n]] && b == b[..n] + [b[n]];
      hide Recovery.TableEntries;
      Recovery.OneMoreTable(a + b[..n], b[n]);
      Recovery.OneMoreTable(b[..n], b[n]);
    }
  }

  /** The tables of one log, then those of the next. */
  lemma AscendingJoin(a: seq<seq<Entry>>, b: seq<seq<Entry>>, held: seq<Entry>, mid: nat)
    requires Recovery.Ascending(a, []) && Recovery.Ascending(b, held)
    requires forall x :: x in Recovery.TableEntries(a) ==> x.k.sn < mid
    requires forall x :: x in Recovery.TableEntries(b) + SetOf(held) ==> mid <= x.k.sn
    ensures Recovery.Ascending(a + b, held)
  {
    forall i, x | 0 <= i < |a| && x in a[i]
      ensures x.k.sn < mid
    {
      Recovery.InTables(a, i, x);
    }
    forall i, x | 0 <= i < |b| && x in b[i]
      ensures mid <= x.k.sn
    {
      Recovery.InTables(b, i, x);
    }
    assert forall x :: x in held ==> x in SetOf(held);
    hide Recovery.TableEntries, SetOf;
  }

  // ---------------------------------------------------------------------------------------------
  // The crash

  /** The logs at the marks: that of the frozen memtable, if there is one, and that of the current one. */
  ghost predicate LogsHold(order: Order, older: seq<seq<Op>>, newer: seq<seq<Op>>, w: World, k: Marks) {
    && LogHolds(order, older, k.tables + 1, k.frozen + 1, SetOf(Imm(w.db)))
    && LogHolds(order, newer, k.frozen + 1, w.db.lastSequence + 1, SetOf(w.db.mem))
  }

  /** What replaying the logs gives of what was written after the tables. */
  ghost predicate Replayed(wrote: set<Entry>, k: Marks, tables: seq<seq<Entry>>, held: seq<Entry>, highest: nat,
                           last: nat) {
    && highest <= last && last == (if k.tables < highest then highest else k.tables)
    && Recovery.NumberedOnce(wrote, k.tables + 1, last + 1)
    && Recovery.TableEntries(tables) + SetOf(held) == wrote
    && Recovery.Ascending(tables, held) && SortedRun(held) && AllSorted(tables)
  }

  /** The log of the frozen memtable is whole, since it was closed before the newer one was begun. */
  method ReplayOlder(crc: Checksum, order: Order, older: seq<seq<Op>>, first: nat, paranoidChecks: bool,
                     full: set<Entry> -> bool, ghost next: nat, ghost es: set<Entry>)
    returns (tables: seq<seq<Entry>>, highest: nat)
    requires LogHolds(order, older, first, next, es)
    ensures Recovery.TableEntries(tables) == es && Recovery.Ascending(tables, [])
    ensures forall i :: 0 <= i < |tables| ==> SortedRun(tables[i])
    ensures 0 < first <= next && highest < next && (if highest < first - 1 then first - 1 else highest) == next - 1
    ensures Recovery.NumberedOnce(es, first, next)
  {
    hide Recovery.Writable, Recovery.Logged, Written, EndAt, Recovery.Wrote, Recovery.TableEntries;
    hide Recovery.Ascending, SortedRun;
    hide Recovery.Next, Recovery.Highest, Recovery.NumberedOnce, SetOf;
    ghost var commits := Recovery.Numbered(older, first);
    Positive(older, first);
    var log, ends;
    ghost var frames, bounds, reps;
    log, ends, frames, bounds, reps := Recovery.WriteLog(crc, older, first);
    var status, held;
    status, tables, held, highest :=
      Recovery.RecoverCut(crc, log, |log|, order, paranoidChecks, false, full, 0, frames, bounds, reps, ends, commits,
                          first);
    assert commits[..|commits|] == commits;
    HighestIsLast(order, commits, reps, first, |commits|, 0);
    Recovery.BatchesAreNumbered(order, commits, reps, first, |commits|);
    NoEntriesIn(held);
  }

  lemma Positive(batches: seq<seq<Op>>, first: nat)
    requires Recovery.Writable(batches, first)
    ensures 1 <= first
  {
  }

  lemma NoOlder(order: Order, older: seq<seq<Op>>, w: World, k: Marks)
    requires Settled(w, k) && w.db.imm.None?
    ensures SetOf(Imm(w.db)) == {} && k.tables == k.frozen
    ensures Recovery.TableEntries([]) == {} && Recovery.Ascending([], [])
    ensures Recovery.NumberedOnce({}, k.tables + 1, k.frozen + 1)
  {
    hide Upto, TablesRead, VersionEntries;
  }

  /** Of the batches of a log, n are left: the last number and the entries that they wrote. */
  ghost predicate Left(order: Order, batches: seq<seq<Op>>, first: nat, n: nat, last: nat, wrote: set<Entry>) {
    && n <= |batches|
    && var commits := Recovery.Numbered(batches, first)[..n];
    && last + 1 == Recovery.Next(first, commits) && wrote == Recovery.Wrote(order, commits)
  }

  lemma HighestOfBoth(tables: nat, frozen: nat, h1: nat, h2: nat, last: nat)
    requires frozen == (if h1 < tables then tables else h1) && last == (if h2 < frozen then frozen else h2) && h1 <= h2
    ensures last == (if tables < h2 then h2 else tables) && h2 <= last
  {
  }

  /** What a log with the newer batches holds when n of them are left. */
  lemma NewerSurvive(order: Order, w: World, k: Marks, newer: seq<seq<Op>>, reps: seq<Bytes>, n: nat, max: nat)
    returns (last: nat, wrote: set<Entry>)
    requires LogHolds(order, newer, k.frozen + 1, w.db.lastSequence + 1, SetOf(w.db.mem)) && n <= |newer|
    requires max <= k.frozen
    requires Recovery.Logged(k.frozen + 1, Recovery.Numbered(newer, k.frozen + 1), reps)
    ensures Left(order, newer, k.frozen + 1, n, last, wrote)
    ensures wrote == Recovery.Wrote(order, Recovery.Numbered(newer, k.frozen + 1)[..n])
    ensures var h := Recovery.Highest(max, k.frozen + 1, Recovery.Numbered(newer, k.frozen + 1)[..n]);
            max <= h && last == if h < k.frozen then k.frozen else h
    ensures k.frozen <= last <= w.db.lastSequence && (n == |newer| ==> last == w.db.lastSequence)
    ensures Recovery.NumberedOnce(wrote, k.frozen + 1, last + 1)
  {
    hide Recovery.Writable, Recovery.Logged, Recovery.Wrote, Recovery.Next, Recovery.Highest, Recovery.NumberedOnce;
    hide SetOf;
    var commits := Recovery.Numbered(newer, k.frozen + 1);
    HighestIsLast(order, commits, reps, k.frozen + 1, n, max);
    last, wrote := Recovery.Next(k.frozen + 1, commits[..n]) - 1, Recovery.Wrote(order, commits[..n]);
    assert commits[..|commits|] == commits;
    WroteBefore(order, commits, reps, k.frozen + 1, n, |commits|);
    Recovery.BatchesAreNumbered(order, commits, reps, k.frozen + 1, n);
  }

  /** The log of the frozen memtable, if there is one. */
  method ReplayFrozen(crc: Checksum, order: Order, older: seq<seq<Op>>, hasOlder: bool, tablesTo: nat,
                      paranoidChecks: bool, full: set<Entry> -> bool, ghost w: World, ghost k: Marks)
    returns (tables: seq<seq<Entry>>, highest: nat)
    requires Settled(w, k) && LogHolds(order, older, k.tables + 1, k.frozen + 1, SetOf(Imm(w.db)))
    requires hasOlder == w.db.imm.Some? && tablesTo == k.tables
    ensures Recovery.TableEntries(tables) == SetOf(Imm(w.db)) && Recovery.Ascending(tables, [])
    ensures forall i :: 0 <= i < |tables| ==> SortedRun(tables[i])
    ensures k.frozen == (if highest < k.tables then k.tables else highest) && highest <= k.frozen
    ensures k.tables <= k.frozen
    ensures Recovery.NumberedOnce(SetOf(Imm(w.db)), k.tables + 1, k.frozen + 1)
  {
    tables, highest := [], 0;
    if !hasOlder {
      NoOlder(order, older, w, k);
    }
    hide *;
    if hasOlder {
      tables, highest :=
        ReplayOlder(crc, order, older, tablesTo + 1, paranoidChecks, full, k.frozen + 1, SetOf(Imm(w.db)));
    }
  }

  /** Both logs, in the order in which they were made; the newer one is cut anywhere. */
  method ReplayLogs(crc: Checksum, order: Order, older: seq<seq<Op>>, newer: seq<seq<Op>>, hasOlder: bool,
                    tablesTo: nat, frozenTo: nat, cut: nat, paranoidChecks: bool, reuse: bool, full: set<Entry> -> bool,
                    ghost w: World, ghost k: Marks)
    returns (tables: seq<seq<Entry>>, held: seq<Entry>, highest: nat, log: Bytes, ends: seq<nat>, ghost last: nat,
             ghost wrote: set<Entry>, ghost frames: seq<Frame>, ghost bounds: seq<nat>, ghost reps: seq<Bytes>)
    requires Settled(w, k) && LogsHold(order, older, newer, w, k) && hasOlder == w.db.imm.Some?
    requires tablesTo == k.tables && frozenTo == k.frozen
    ensures Recovery.Logged(k.frozen + 1, Recovery.Numbered(newer, k.frozen + 1), reps)
    ensures Written(crc, log, frames) && EndAt(frames, bounds, reps, ends) && |ends| == |newer|
    ensures Left(order, newer, k.frozen + 1, WhollyBefore(ends, cut), last, wrote)
    ensures Replayed(SetOf(Imm(w.db)) + wrote, k, tables, held, highest, last)
    ensures k.frozen <= last <= w.db.lastSequence && (|log| <= cut ==> last == w.db.lastSequence)
  {
    hide *;
    NewerLog(order, older, newer, w, k);
    NewerIsWritable(order, newer, k.frozen + 1, w.db.lastSequence + 1, SetOf(w.db.mem));
    ghost var commits := Recovery.Numbered(newer, frozenTo + 1);
    var tables1, highest1 := ReplayFrozen(crc, order, older, hasOlder, tablesTo, paranoidChecks, full, w, k);
    log, ends, frames, bounds, reps := Recovery.WriteLog(crc, newer, frozenTo + 1);
    var status, tables2;
    status, tables2, held, highest :=
      Recovery.RecoverCut(crc, log, cut, order, paranoidChecks, reuse, full, highest1, frames, bounds, reps, ends,
                          commits, frozenTo + 1);
    last, wrote := NewerSurvive(order, w, k, newer, reps, WhollyBefore(ends, cut), highest1);
    HighestOfBoth(k.tables, k.frozen, highest1, highest, last);
    tables := tables1 + tables2;
    Sorted(tables1);
    Sorted(tables2);
    BothReplayed(SetOf(Imm(w.db)), wrote, k, highest, last, tables1, tables2, held);
  }

  lemma NewerLog(order: Order, older: seq<seq<Op>>, newer: seq<seq<Op>>, w: World, k: Marks)
    requires LogsHold(order, older, newer, w, k)
    ensures LogHolds(order, older, k.tables + 1, k.frozen + 1, SetOf(Imm(w.db)))
    ensures LogHolds(order, newer, k.frozen + 1, w.db.lastSequence + 1, SetOf(w.db.mem))
  {
    hide LogHolds;
  }

  lemma NewerIsWritable(order: Order, batches: seq<seq<Op>>, first: nat, next: nat, es: set<Entry>)
    requires LogHolds(order, batches, first, next, es)
    ensures Recovery.Writable(batches, first)
  {
  }

  ghost predicate AllSorted(tables: seq<seq<Entry>>) {
    forall i :: 0 <= i < |tables| ==> SortedRun(tables[i])
  }

  lemma BothSorted(a: seq<seq<Entry>>, b: seq<seq<Entry>>)
    requires AllSorted(a) && AllSorted(b)
    ensures AllSorted(a + b)
  {
    hide SortedRun;
  }

  lemma Sorted(tables: seq<seq<Entry>>)
    requires forall i :: 0 <= i < |tables| ==> SortedRun(tables[i])
    ensures AllSorted(tables)
  {
  }

  lemma AndHeld(es: set<Entry>, more: set<Entry>, held: set<Entry>, wrote: set<Entry>)
    requires more + held == wrote
    ensures (es + more) + held == es + wrote
  {
  }

  lemma NumbersApart(es: set<Entry>, wrote: set<Entry>, from: nat, mid: nat, to: nat)
    requires Recovery.NumberedOnce(es, from, mid) && Recovery.NumberedOnce(wrote, mid, to)
    ensures forall x :: x in es ==> x.k.sn < mid
    ensures forall x :: x in wrote ==> mid <= x.k.sn
  {
  }

  lemma BothReplayed(es: set<Entry>, wrote: set<Entry>, k: Marks, highest: nat, last: nat, a: seq<seq<Entry>>,
                     b: seq<seq<Entry>>, held: seq<Entry>)
    requires Recovery.TableEntries(a) == es && Recovery.TableEntries(b) + SetOf(held) == wrote
    requires Recovery.NumberedOnce(es, k.tables + 1, k.frozen + 1)
    requires Recovery.NumberedOnce(wrote, k.frozen + 1, last + 1)
    requires k.tables <= k.frozen <= last && highest <= last
    requires last == (if k.tables < highest then highest else k.tables)
    requires Recovery.Ascending(a, []) && Recovery.Ascending(b, held) && SortedRun(held)
    requires AllSorted(a) && AllSorted(b)
    ensures Replayed(es + wrote, k, a + b, held, highest, last)
  {
    hide Recovery.TableEntries, Recovery.Ascending, SetOf, SortedRun, AllSorted, Recovery.NumberedOnce;
    NumbersApart(es, wrote, k.tables + 1, k.frozen + 1, last + 1);
    Recovery.NumbersJoin(es, wrote, k.tables + 1, k.frozen + 1, last + 1);
    AscendingJoin(a, b, held, k.frozen + 1);
    TablesJoin(a, b);
    AndHeld(es, Recovery.TableEntries(b), SetOf(held), wrote);
    BothSorted(a, b);
  }

  /** The tables are a store, and the logs add to it what was written since. */
  lemma ToOpen(w: World, k: Marks, nextFile: nat, wrote: set<Entry>, tables: seq<seq<Entry>>, held: seq<Entry>,
               highest: nat, last: nat)
    returns (settled: World)
    requires Inv(w) && Settled(w, k) && Replayed(wrote, k, tables, held, highest, last) && last <= w.db.lastSequence
    requires w.db.nextFile <= nextFile
    ensures settled.db == Db([], None, w.db.v, nextFile, k.tables, []) && Inv(settled)
    ensures settled.history == Upto(w.history, k.tables)
    ensures last <= w.db.lastSequence < MAX_SEQUENCE_NUMBER && highest <= last && Adds(settled, wrote, last)
    ensures last == (if k.tables < highest then highest else k.tables)
    ensures Recovery.TableEntries(tables) + SetOf(held) == wrote && SortedRun(held) && Recovery.Ascending(tables, held)
    ensures forall i :: 0 <= i < |tables| ==> SortedRun(tables[i])
  {
    TablesAreAStore(w, k, nextFile);
    LastIsNumber(w);
    settled := World(Db([], None, w.db.v, nextFile, k.tables, []), Upto(w.history, k.tables));
    hide Inv, Recovery.TableEntries, Recovery.Ascending, Recovery.NumberedOnce, SortedRun, Settled, SetOf, Upto;
  }

  /** All that is in the history up to the last survivor. */
  lemma AllSurvivors(order: Order, history: set<Entry>, k: Marks, commits: seq<Recovery.Commit>, reps: seq<Bytes>,
                     n: nat, wrote: set<Entry>, last: nat)
    requires k.tables <= k.frozen && n <= |commits| && Recovery.Logged(k.frozen + 1, commits, reps)
    requires Recovery.Wrote(order, commits) == history - Upto(history, k.frozen)
    requires last + 1 == Recovery.Next(k.frozen + 1, commits[..n]) && wrote == Recovery.Wrote(order, commits[..n])
    ensures Upto(history, k.tables) + ((Upto(history, k.frozen) - Upto(history, k.tables)) + wrote)
          == Upto(history, last)
  {
    hide *;
    Survivors(order, history, k.frozen, commits, reps, n);
    UptoGrows(history, k.tables, k.frozen);
    BothEntries(Upto(history, k.tables), Upto(history, k.frozen), wrote);
  }

  lemma LeftMeans(order: Order, newer: seq<seq<Op>>, first: nat, next: nat, es: set<Entry>, n: nat, last: nat,
                  wrote: set<Entry>) returns (commits: seq<Recovery.Commit>)
    requires LogHolds(order, newer, first, next, es) && Left(order, newer, first, n, last, wrote)
    ensures commits == Recovery.Numbered(newer, first) && n <= |commits| && Recovery.Wrote(order, commits) == es
    ensures last + 1 == Recovery.Next(first, commits[..n]) && wrote == Recovery.Wrote(order, commits[..n])
  {
    hide Recovery.Writable, Recovery.Next, Recovery.Wrote;
    commits := Recovery.Numbered(newer, first);
  }

  lemma UptoGrows(history: set<Entry>, a: nat, b: nat)
    requires a <= b
    ensures Upto(history, a) <= Upto(history, b)
  {
  }

  lemma BothEntries(below: set<Entry>, upto: set<Entry>, wrote: set<Entry>)
    requires below <= upto
    ensures below + ((upto - below) + wrote) == upto + wrote
  {
  }

  lemma SettledSets(w: World, k: Marks)
    requires Settled(w, k)
    ensures SetOf(Imm(w.db)) == Upto(w.history, k.frozen) - Upto(w.history, k.tables)
    ensures SetOf(w.db.mem) == w.history - Upto(w.history, k.frozen)
    ensures k.tables <= k.frozen
  {
    hide Upto, TablesRead, VersionEntries, SetOf;
  }

  lemma LastIsNumber(w: World)
    requires Inv(w)
    ensures w.db.lastSequence < MAX_SEQUENCE_NUMBER
  {
    hide TreeInv, FilesInv, MemInv, ReadsHistory, SnapshotsOk, Distinct, AllEntries;
  }

  /** What there is when a store crashes in state w: its manifest and the logs of its memtables. */
  ghost predicate Crashed(order: Order, records: seq<Edit>, older: seq<seq<Op>>, newer: seq<seq<Op>>, w: World,
                          k: Marks, ws: seq<World>, actions: seq<Action>) {
    && IsDurable(ws, actions) && w == ws[|actions|] && k == MarksAt(ws, actions, |actions|)
    && IsManifest(records, ws, actions, |actions|) && LogsHold(order, older, newer, w, k)
  }

  lemma CrashedMeans(order: Order, records: seq<Edit>, older: seq<seq<Op>>, newer: seq<seq<Op>>, w: World, k: Marks,
                     ws: seq<World>, actions: seq<Action>)
    requires Crashed(order, records, older, newer, w, k, ws, actions)
    ensures |ws| == |actions| + 1 && w == ws[|actions|] && IsDurable(ws, actions) && IsPath(ws, actions) && Inv(ws[0])
    ensures records != [] && IsManifest(records, ws, actions, |actions|) && LogsHold(order, older, newer, w, k)
    ensures Inv(w) && Settled(w, k) && ws[0].db.lastSequence <= k.tables
  {
    hide Inv, Settled, DurableStep, MarksAt, Step, LogsHold;
    DurableIsPath(ws, actions);
    RunsSettle(ws, actions, |actions|);
    MarksGrow(ws, actions, |actions|);
  }

  /** A store takes any durable steps from when it was opened, and crashes.  It is opened again from its manifest,
      the log of a memtable that was being flushed, and the log of the current one, cut anywhere.  It then satisfies
      the invariant with exactly what had been written up to the last batch wholly before the cut: the history of
      a state that the store has been in. */
  method CrashAndReopen(crc: Checksum, order: Order, records: seq<Edit>, older: seq<seq<Op>>, newer: seq<seq<Op>>,
                        hasOlder: bool, tablesTo: SequenceNumber, frozenTo: SequenceNumber, nextFile: nat,
                        lastSequence: SequenceNumber, cut: nat, paranoidChecks: bool, reuse: bool,
                        full: set<Entry> -> bool, sizeOf: seq<Entry> -> nat, ghost w: World, ghost k: Marks,
                        ghost ws: seq<World>, ghost actions: seq<Action>)
    returns (db': Db, log: Bytes, ends: seq<nat>, ghost last: nat, ghost wrote: set<Entry>, ghost i: nat,
             ghost frames: seq<Frame>, ghost bounds: seq<nat>, ghost reps: seq<Bytes>)
    requires Crashed(order, records, older, newer, w, k, ws, actions)
    requires k == Marks(tablesTo, frozenTo) && hasOlder == w.db.imm.Some? && w.db.nextFile <= nextFile
    requires k.tables <= lastSequence <= w.db.lastSequence
    ensures Recovery.Logged(frozenTo + 1, Recovery.Numbered(newer, frozenTo + 1), reps)
    ensures Written(crc, log, frames) && EndAt(frames, bounds, reps, ends) && |ends| == |newer|
    ensures Left(order, newer, frozenTo + 1, WhollyBefore(ends, cut), last, wrote)
    ensures frozenTo <= last <= w.db.lastSequence && (|log| <= cut ==> last == w.db.lastSequence)
    ensures Inv(World(db', Upto(w.history, last)))
    ensures db'.lastSequence == if lastSequence < last then last else lastSequence
    ensures i <= |actions| < |ws| && ws[i].db.lastSequence == last && ws[i].history == Upto(w.history, last)
  {
    hide *;
    CrashedMeans(order, records, older, newer, w, k, ws, actions);
    var v;
    ghost var at;
    v, at := Manifest.Recover(records, records, ws, actions);
    var tables, held, highest;
    tables, held, highest, log, ends, last, wrote, frames, bounds, reps :=
      ReplayLogs(crc, order, older, newer, hasOlder, tablesTo, frozenTo, cut, paranoidChecks, reuse, full, w, k);
    ghost var all := SetOf(Imm(w.db)) + wrote;
    ghost var settled := ToOpen(w, k, nextFile, all, tables, held, highest, last);
    NewerLog(order, older, newer, w, k);
    SettledSets(w, k);
    ghost var n := WhollyBefore(ends, cut);
    ghost var commits := LeftMeans(order, newer, k.frozen + 1, w.db.lastSequence + 1, SetOf(w.db.mem), n, last, wrote);
    AllSurvivors(order, w.history, k, commits, reps, n, wrote, last);
    db' := OpenStore(v, nextFile, lastSequence, tables, held, highest, sizeOf, settled, all, last);
    i := WasAState(ws, actions, |actions|, last);
  }
}
