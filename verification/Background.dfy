/** The background work of the store (LevelDB db/db_impl.cc): each piece of it is a step of the
    state machine, a compaction exactly if it uncovers nothing in the next level. */
module Background {
  import opened Options
  import opened DbFormat
  import opened Tree
  import opened Inputs
  import opened Selection
  import opened OutputCuts
  import opened Compaction
  import opened Builder
  import opened TreeSteps
  import opened Boundary
  import opened Database

  // ---------------------------------------------------------------------------------------------
  // The merging iterator

  /** Of two sorted runs, always the smaller head next. */
  function Merge(a: seq<Entry>, b: seq<Entry>): seq<Entry> {
    if a == [] then b
    else if b == [] then a
    else if Before(b[0].k, a[0].k) then [b[0]] + Merge(a, b[1..])
    else [a[0]] + Merge(a[1..], b)
  }

  function MergeFiles(files: seq<File>): seq<Entry> {
    if files == [] then [] else Merge(MergeFiles(files[..|files| - 1]), files[|files| - 1].entries)
  }

  ghost predicate KeysApart(a: seq<Entry>, b: seq<Entry>) {
    forall x, y :: x in a && y in b ==> x.k != y.k
  }

  lemma {:induction false} MergeEntries(a: seq<Entry>, b: seq<Entry>)
    ensures SetOf(Merge(a, b)) == SetOf(a) + SetOf(b)
  {
    if a != [] && b != [] {
      if Before(b[0].k, a[0].k) {
        MergeEntries(a, b[1..]);
        SetOfConcat([b[0]], b[1..]);
        SetOfConcat([b[0]], Merge(a, b[1..]));
        assert b == [b[0]] + b[1..];
      } else {
        MergeEntries(a[1..], b);
        SetOfConcat([a[0]], a[1..]);
        SetOfConcat([a[0]], Merge(a[1..], b));
        assert a == [a[0]] + a[1..];
      }
    }
  }

  lemma HeadIsLeast(h: Entry, a: seq<Entry>, b: seq<Entry>, rest: seq<Entry>)
    requires SortedRun(rest) && SetOf(rest) == SetOf(a) + SetOf(b)
    requires forall x :: x in a || x in b ==> Before(h.k, x.k)
    ensures SortedRun([h] + rest)
  {
    forall i | 0 <= i < |rest|
      ensures Before(h.k, rest[i].k)
    {
      assert rest[i] in SetOf(rest);
      assert rest[i] in a || rest[i] in b;
    }
  }

  lemma RunHead(a: seq<Entry>, x: Entry)
    requires SortedRun(a) && a != [] && x in a
    ensures x == a[0] || (x in a[1..] && Before(a[0].k, x.k))
  {
  }

  lemma {:induction false} MergeIsSorted(a: seq<Entry>, b: seq<Entry>)
    requires SortedRun(a) && SortedRun(b) && KeysApart(a, b)
    ensures SortedRun(Merge(a, b))
  {
    if a != [] && b != [] {
      if Before(b[0].k, a[0].k) {
        MergeIsSorted(a, b[1..]);
        MergeEntries(a, b[1..]);
        forall x | x in a || x in b[1..]
          ensures Before(b[0].k, x.k)
        {
          if x in a {
            RunHead(a, x);
            BeforeIsStrictTotalOrder(b[0].k, a[0].k, x.k);
          }
        }
        HeadIsLeast(b[0], a, b[1..], Merge(a, b[1..]));
      } else {
        MergeIsSorted(a[1..], b);
        MergeEntries(a[1..], b);
        BeforeIsStrictTotalOrder(a[0].k, b[0].k, a[0].k);
        assert a[0] in a && b[0] in b;
        forall x | x in a[1..] || x in b
          ensures Before(a[0].k, x.k)
        {
          if x in b {
            RunHead(b, x);
            BeforeIsStrictTotalOrder(a[0].k, b[0].k, x.k);
          }
        }
        HeadIsLeast(a[0], a[1..], b, Merge(a[1..], b));
      }
    }
  }

  ghost predicate FilesApart(files: seq<File>) {
    forall i, j :: 0 <= i < j < |files| ==> KeysApart(files[i].entries, files[j].entries)
  }

  lemma {:induction false} MergeFilesIsSorted(files: seq<File>)
    requires Tables(files) && FilesApart(files)
    ensures SortedRun(MergeFiles(files)) && SetOf(MergeFiles(files)) == LevelEntries(files)
  {
    if files != [] {
      var n := |files| - 1;
      MergeFilesIsSorted(files[..n]);
      assert files[n] in files;
      forall x, y | x in MergeFiles(files[..n]) && y in files[n].entries
        ensures x.k != y.k
      {
        assert x in SetOf(MergeFiles(files[..n]));
        var f :| f in files[..n] && x in f.entries;
        var i :| 0 <= i < n && files[i] == f;
        assert KeysApart(files[i].entries, files[n].entries);
      }
      MergeIsSorted(MergeFiles(files[..n]), files[n].entries);
      MergeEntries(MergeFiles(files[..n]), files[n].entries);
      assert forall f :: f in files <==> f in files[..n] || f == files[n];
      assert LevelEntries(files) == LevelEntries(files[..n]) + SetOf(files[n].entries);
    }
  }

  /** No key is in two input files. */
  lemma InputsApart(v: Version, level: nat, in0: seq<File>, in1: seq<File>)
    requires TreeInv(v) && Distinct(VersionEntries(v)) && InputsOk(v, level, in0, in1)
    ensures FilesApart(in0 + in1) && Tables(in0 + in1)
    ensures LevelEntries(in0 + in1) == InputEntries(in0, in1)
  {
    assert Tables(v[level]) && Tables(v[level + 1]);
    var all := in0 + in1;
    forall i, j | 0 <= i < j < |all|
      ensures KeysApart(all[i].entries, all[j].entries)
    {
      forall x, y | x in all[i].entries && y in all[j].entries
        ensures x.k != y.k
      {
        ApartPair(v, level, in0, in1, i, j, x, y);
      }
    }
  }

  lemma ApartPair(v: Version, level: nat, in0: seq<File>, in1: seq<File>, i: nat, j: nat, x: Entry, y: Entry)
    requires TreeInv(v) && Distinct(VersionEntries(v)) && Among(v, level, in0, in1) && NoDuplicates(in0)
    requires NoDuplicates(in1)
    requires i < j < |in0 + in1| && x in (in0 + in1)[i].entries && y in (in0 + in1)[j].entries
    ensures x.k != y.k
  {
    var l, m := if i < |in0| then level else level + 1, if j < |in0| then level else level + 1;
    var f, g := (in0 + in1)[i], (in0 + in1)[j];
    assert f in (if i < |in0| then in0 else in1) && g in (if j < |in0| then in0 else in1);
    assert f in v[l] && g in v[m];
    hide TreeInv;
    assert x in LevelEntries(v[l]) && y in LevelEntries(v[m]);
    assert x in VersionEntries(v) && y in VersionEntries(v);
    if x == y {
      if l == m {
        OneFilePerEntry(v, l, f, g, x);
      } else {
        EntryOnOneLevel(v, l, m, x);
      }
    }
  }

  lemma EntryOnOneLevel(v: Version, l: nat, m: nat, e: Entry)
    requires TreeInv(v) && l < NUM_LEVELS && m < NUM_LEVELS && l != m && e in LevelEntries(v[l])
    ensures e !in LevelEntries(v[m])
  {
    OneLevelPerEntry(v, l, m, e);
  }

  // ---------------------------------------------------------------------------------------------
  // LogAndApply and the three pieces of background work

  ghost predicate AddsNewNumbers(base: Version, edit: Edit) {
    && ValidEdit(edit)
    && (forall i :: 0 <= i < |edit.added| ==> NumberFree(FileSet(base[edit.added[i].0]), edit.added[i].1.number))
    && (forall i, j :: 0 <= i < j < |edit.added| && edit.added[i].0 == edit.added[j].0 ==>
          edit.added[i].1.number != edit.added[j].1.number)
  }

  method LogAndApply(base: Version, edit: Edit) returns (v: Version)
    requires forall l :: 0 <= l < NUM_LEVELS ==> SortedBySmallest(base[l])
    requires AddsNewNumbers(base, edit)
    ensures Built(base, edit, v)
  {
    var builder := new VersionBuilder(base);
    assert forall l :: 0 <= l < NUM_LEVELS ==> FileSet(builder.addedFiles[l]) == {};
    builder.Apply(edit);
    v := builder.SaveTo();
  }

  lemma NumbersAreFree(v: Version, nextFile: nat, l: nat, number: nat)
    requires FilesInv(v, nextFile) && l < NUM_LEVELS && nextFile <= number
    ensures NumberFree(FileSet(v[l]), number)
  {
  }

  /** CompactMemTable: the memtable becomes a table at the level picked for it. */
  method CompactMemTable(w: World, size: nat, maxGrandParentOverlap: nat) returns (db': Db, a: Action)
    requires Inv(w) && w.db.imm.Some?
    ensures Step(w, a, World(db', w.history)) && a.FlushMemtable?
    ensures Imm(w.db) != [] ==>
              FirstStop(w.db.v, Imm(w.db)[0].k.user, Imm(w.db)[|Imm(w.db)| - 1].k.user, maxGrandParentOverlap, a.pick)
  {
    hide HistoryInv, SnapshotsOk, ReadsHistory, Layered, NewestByNumber, Tables, VersionEntries, FirstStop;
    var db := w.db;
    var imm := db.imm.value;
    if imm == [] {
      return db.(imm := None), FlushMemtable(0, size);
    }
    var f := OutputFile(db.nextFile, size, imm);
    var pick := PickLevelForMemTableOutput(db.v, f.smallest.user, f.largest.user, maxGrandParentOverlap);
    NumbersAreFree(db.v, db.nextFile, pick, f.number);
    var v := LogAndApply(db.v, Edit([], [(pick, f)]));
    db', a := db.(imm := None, v := v, nextFile := db.nextFile + 1), FlushMemtable(pick, size);
  }

  lemma ReadyToCompact(w: World, level: nat, in0: seq<File>, in1: seq<File>)
    requires Inv(w) && InputsOk(w.db.v, level, in0, in1)
    ensures SortedRun(MergeFiles(in0 + in1)) && SetOf(MergeFiles(in0 + in1)) == InputEntries(in0, in1)
    ensures forall l :: 1 <= l < NUM_LEVELS ==> DisjointLevel(w.db.v[l])
    ensures SmallestSnapshot(w.db) < MAX_SEQUENCE_NUMBER && level + 1 < NUM_LEVELS
  {
    hide Distinct, VersionEntries, Tables, FilesApart, LevelEntries, SortedRun;
    TreeEntriesDistinct(w);
    InputsApart(w.db.v, level, in0, in1);
    MergeFilesIsSorted(in0 + in1);
  }

  lemma ReadyToApply(w: World)
    requires Inv(w)
    ensures FilesInv(w.db.v, w.db.nextFile)
    ensures forall l :: 0 <= l < NUM_LEVELS ==> SortedBySmallest(w.db.v[l])
  {
  }

  lemma OutputsAddNewNumbers(v: Version, nextFile: nat, level: nat, in0: seq<File>, in1: seq<File>, outs: seq<File>)
    requires FilesInv(v, nextFile) && level + 1 < NUM_LEVELS && Numbered(outs, nextFile)
    ensures AddsNewNumbers(v, MoveEdit(level, in0, in1, outs))
  {
    forall i | 0 <= i < |outs|
      ensures NumberFree(FileSet(v[level + 1]), outs[i].number)
    {
      NumbersAreFree(v, nextFile, level + 1, outs[i].number);
    }
    hide FilesInv, NumberFree, FileSet, IsOutput;
  }

  lemma MovedFileIsNew(v: Version, nextFile: nat, level: nat, file: File)
    requires FilesInv(v, nextFile) && level + 1 < NUM_LEVELS && file in v[level]
    ensures AddsNewNumbers(v, MoveEdit(level, [file], [], [file]))
  {
    assert NumberFree(FileSet(v[level + 1]), file.number);
    hide FilesInv, NumberFree, FileSet;
  }

  /** IsTrivialMove's branch of BackgroundCompaction. */
  method MoveFile(w: World, level: nat, in0: seq<File>) returns (db': Db, a: Action)
    requires Inv(w) && InputsOk(w.db.v, level, in0, []) && |in0| == 1
    ensures a.TrivialMove? && a.level == level && a.file == in0[0]
    ensures Step(w, a, World(db', w.history))
  {
    hide Inv, InputsOk, Built, AddsNewNumbers, SortedBySmallest, FilesInv;
    var db, file := w.db, in0[0];
    assert in0 == [file] && file in in0;
    ReadyToApply(w);
    InputsAmong(db.v, level, in0, []);
    MovedFileIsNew(db.v, db.nextFile, level, file);
    var v := LogAndApply(db.v, MoveEdit(level, [file], [], [file]));
    db', a := db.(v := v), TrivialMove(level, file);
  }

  /** The files two levels down that may hold user keys between the inputs' first and last, in level order. */
  ghost predicate AreGrandparents(v: Version, level: nat, in0: seq<File>, in1: seq<File>, files: seq<File>) {
    && EndsAscend(files)
    && if level + 2 < NUM_LEVELS then
         forall f :: f in files <==>
           && f in v[level + 2]
           && exists g, h :: g in in0 + in1 && h in in0 + in1
                             && f.smallest.user <= g.largest.user && h.smallest.user <= f.largest.user
       else files == []
  }

  lemma {:induction false} OverlappingAscend(files: seq<File>, n: nat, lo: Option<UserKey>, hi: Option<UserKey>)
    requires DisjointLevel(files) && n <= |files|
    ensures EndsAscend(OverlappingAmong(files, n, lo, hi))
    ensures forall f, m :: f in OverlappingAmong(files, n, lo, hi) && n <= m < |files| ==>
              Before(f.largest, files[m].largest)
  {
    hide DisjointLevel, Overlaps;
    if n > 0 {
      OverlappingAscend(files, n - 1, lo, hi);
      forall m | n <= m < |files|
        ensures Before(files[n - 1].largest, files[m].largest)
      {
        LargestIncreases(files, n - 1, m);
      }
    }
  }

  lemma RangeMeets(inputs: seq<File>, smallest: InternalKey, largest: InternalKey, f: File)
    requires IsSmallestKey(inputs, smallest) && IsLargestKey(inputs, largest)
    ensures Overlaps(f, Some(smallest.user), Some(largest.user))
      <==> exists g, h :: g in inputs && h in inputs
                          && f.smallest.user <= g.largest.user && h.smallest.user <= f.largest.user
  {
    var i :| 0 <= i < |inputs| && inputs[i].smallest == smallest;
    var j :| 0 <= j < |inputs| && inputs[j].largest == largest;
    assert inputs[i] in inputs && inputs[j] in inputs;
  }

  /** What SetupOtherInputs notes for later: the grandparents of the inputs. */
  method Grandparents(v: Version, level: nat, in0: seq<File>, in1: seq<File>) returns (files: seq<File>)
    requires in0 != [] && forall l :: 1 <= l < NUM_LEVELS ==> DisjointLevel(v[l])
    ensures AreGrandparents(v, level, in0, in1, files)
  {
    hide DisjointLevel, Overlaps, OverlappingAmong;
    if level + 2 >= NUM_LEVELS {
      return [];
    }
    var smallest, largest := GetRange(in0 + in1);
    var next := v[level + 2];
    ghost var lo, hi;
    files, lo, hi := GetOverlappingInputs(level + 2, next, Some(smallest.user), Some(largest.user));
    OverlappingAscend(next, |next|, Some(smallest.user), Some(largest.user));
    assert next[..|next|] == next;
    forall f
      ensures f in files <==> f in next && Overlaps(f, Some(smallest.user), Some(largest.user))
    {
      InOverlapping(next, |next|, Some(smallest.user), Some(largest.user), f);
    }
    forall f
      ensures Overlaps(f, Some(smallest.user), Some(largest.user))
        <==> exists g, h :: g in in0 + in1 && h in in0 + in1
                            && f.smallest.user <= g.largest.user && h.smallest.user <= f.largest.user
    {
      RangeMeets(in0 + in1, smallest, largest, f);
    }
  }

  /** DoCompactionWork and InstallCompactionResults.  It is a step of the state machine, and keeps its
      invariant, exactly if it uncovers nothing in the next level. */
  method CompactFiles(w: World, level: nat, in0: seq<File>, in1: seq<File>, limits: Limits, sizeOf: seq<Entry> -> nat)
    returns (db': Db, a: Action)
    requires Inv(w) && InputsOk(w.db.v, level, in0, in1)
    requires AreGrandparents(w.db.v, level, in0, in1, limits.grandparents)
    ensures a.Compact? && a.level == level && a.in0 == in0 && a.in1 == in1 && a.input == MergeFiles(in0 + in1)
    ensures Compacted(w.db, db'.v, level, in0, in1, a.input, a.outs)
    ensures forall s :: OldestNeeded(w.db, s) ==> CompactsTo(a.input, Concat(a.outs), s, w.db.v, level)
    ensures WellCut(a.input, limits, a.outs)
    ensures db' == w.db.(v := db'.v, nextFile := w.db.nextFile + |a.outs|)
    ensures Step(w, a, World(db', w.history)) <==>
              !Uncovers(w.db.v, Above(w.db), level, in1, a.input, SmallestSnapshot(w.db))
    ensures Inv(World(db', w.history)) <==> Step(w, a, World(db', w.history))
  {
    hide Inv, InputsOk, Built, AddsNewNumbers, SortedBySmallest, FilesInv, SortedRun, DisjointLevel, Tables;
    hide InputEntries, Uncovers, Step, AreGrandparents, EndsAscend, WellCut;
    var db := w.db;
    GrandparentsAscend(db.v, level, in0, in1, limits.grandparents);
    ReadyToCompact(w, level, in0, in1);
    ReadyToApply(w);
    var input, snap := MergeFiles(in0 + in1), SmallestSnapshot(db);
    var outs := CompactRuns(db.v, level, input, snap, limits, db.nextFile, sizeOf);
    OutputsAddNewNumbers(db.v, db.nextFile, level, in0, in1, outs);
    var v := LogAndApply(db.v, MoveEdit(level, in0, in1, outs));
    db', a := db.(v := v, nextFile := db.nextFile + |outs|), Compact(level, in0, in1, input, outs);
    hide *;
    CompactionDone(w, a, db');
    forall s | OldestNeeded(w.db, s)
      ensures s == snap
    {
      BoundIsOldest(w, s);
    }
  }

  lemma BoundIsOldest(w: World, s: SequenceNumber)
    requires Inv(w) && OldestNeeded(w.db, s)
    ensures s == SmallestSnapshot(w.db)
  {
    OldestIsSmallest(w.db, s);
  }

  lemma CompactionDone(w: World, a: Action, db': Db)
    requires Inv(w) && a.Compact? && Compacted(w.db, db'.v, a.level, a.in0, a.in1, a.input, a.outs)
    requires db' == w.db.(v := db'.v, nextFile := w.db.nextFile + |a.outs|)
    ensures a.level + 1 < NUM_LEVELS
    ensures Step(w, a, World(db', w.history)) <==>
              !Uncovers(w.db.v, Above(w.db), a.level, a.in1, a.input, SmallestSnapshot(w.db))
    ensures Inv(World(db', w.history)) <==> Step(w, a, World(db', w.history))
  {
    hide *;
    StepUncoversNothing(w, a, World(db', w.history));
    CompactKeepsInvIff(w, a, World(db', w.history));
  }

  lemma GrandparentsAscend(v: Version, level: nat, in0: seq<File>, in1: seq<File>, files: seq<File>)
    requires AreGrandparents(v, level, in0, in1, files)
    ensures EndsAscend(files)
  {
  }

  method CompactRuns(v: Version, level: nat, input: seq<Entry>, snap: SequenceNumber, limits: Limits,
                     firstNumber: nat, sizeOf: seq<Entry> -> nat) returns (outs: seq<File>)
    requires forall l :: 1 <= l < NUM_LEVELS ==> DisjointLevel(v[l])
    requires SortedRun(input) && EndsAscend(limits.grandparents) && snap < MAX_SEQUENCE_NUMBER
    ensures Concat(outs) == Kept(input, |input|, snap, BaseKeys(v, level))
    ensures Numbered(outs, firstNumber) && Tables(outs) && DisjointLevel(outs)
    ensures CompactsTo(input, Concat(outs), snap, v, level)
    ensures WellCut(input, limits, outs)
  {
    hide WellCut, CompactsTo, SortedRun, DisjointLevel;
    var job := new Job(v, level);
    var watch := new Watch(limits.grandparents, limits.overlap);
    outs := DoCompactionWork(job, watch, input, snap, limits, firstNumber, sizeOf);
  }

  /** BackgroundCompaction once the inputs are chosen: a single file with nothing below it and little enough
      below that is moved, unless it was asked for; anything else is compacted. */
  method BackgroundCompaction(w: World, level: nat, in0: seq<File>, in1: seq<File>, isManual: bool, overlap: nat,
                              tableSize: seq<Entry> -> nat, fileSize: nat, sizeOf: seq<Entry> -> nat)
    returns (db': Db, a: Action, ghost grandparents: seq<File>)
    requires Inv(w) && InputsOk(w.db.v, level, in0, in1)
    ensures AreGrandparents(w.db.v, level, in0, in1, grandparents)
    ensures a.TrivialMove? || a.Compact?
    ensures a.TrivialMove? <==> !isManual && |in0| == 1 && in1 == [] && TotalFileSize(grandparents) <= overlap
    ensures a.TrivialMove? ==> a.level == level && a.file == in0[0]
    ensures a.TrivialMove? ==> Step(w, a, World(db', w.history))
    ensures a.Compact? ==>
              && a.level == level && a.in0 == in0 && a.in1 == in1
              && Compacted(w.db, db'.v, level, in0, in1, a.input, a.outs)
              && (forall s :: OldestNeeded(w.db, s) ==> CompactsTo(a.input, Concat(a.outs), s, w.db.v, level))
              && WellCut(a.input, Limits(grandparents, overlap, tableSize, fileSize), a.outs)
    ensures Inv(World(db', w.history)) <==> Step(w, a, World(db', w.history))
  {
    hide *;
    ReadyForGrandparents(w, level, in0, in1);
    var files := Grandparents(w.db.v, level, in0, in1);
    grandparents := files;
    if !isManual && |in0| == 1 && in1 == [] && TotalFileSize(files) <= overlap {
      db', a := MoveFile(w, level, in0);
      StepKeepsInv(w, a, World(db', w.history));
    } else {
      db', a := CompactFiles(w, level, in0, in1, Limits(files, overlap, tableSize, fileSize), sizeOf);
    }
  }

  lemma ReadyForGrandparents(w: World, level: nat, in0: seq<File>, in1: seq<File>)
    requires Inv(w) && InputsOk(w.db.v, level, in0, in1)
    ensures in0 != [] && forall l :: 1 <= l < NUM_LEVELS ==> DisjointLevel(w.db.v[l])
  {
  }
}
