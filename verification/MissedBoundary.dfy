/** A run of the store after which a compaction brings a deleted key back (LevelDB
    db/version_set.cc, SetupOtherInputs; db/db_impl.cc, DoCompactionWork). */
module MissedBoundary {
  import opened Options
  import opened DbFormat
  import opened MemTables
  import opened Tree
  import opened Inputs
  import opened Selection
  import opened OutputCuts
  import opened Compaction
  import opened Builder
  import opened TreeSteps
  import opened Boundary
  import opened Database
  import opened Background

  const OLDER: Entry := Entry(InternalKey(1.0, 1, Value), [1])
  const HIDDEN: Entry := Entry(InternalKey(5.0, 2, Value), [2])
  const DELETED: Entry := Entry(InternalKey(5.0, 3, Deletion), [])
  const NEWER: Entry := Entry(InternalKey(1.0, 4, Value), [4])

  /** Nothing below depends on sizes, nor on the values. */
  const SIZE: nat := 0x20_0000

  function TableOf(number: nat, entries: seq<Entry>): File
    requires entries != []
  {
    OutputFile(number, SIZE, entries)
  }

  const FIRST: File := TableOf(1, [OLDER, DELETED, HIDDEN])
  const BELOW: File := TableOf(2, [OLDER, DELETED])
  const CONTINUED: File := TableOf(3, [HIDDEN])
  const PICKED: File := TableOf(4, [NEWER])

  /** Levels 2 and 3 of a tree with nothing elsewhere. */
  function TwoLevels(two: seq<File>, three: seq<File>): Version {
    [[], [], two, three, [], [], []]
  }

  const EMPTY_TREE: Version := TwoLevels([], [])
  const FLUSHED: Version := TwoLevels([FIRST], [])
  const CUT: Version := TwoLevels([], [BELOW, CONTINUED])

  /** Level 2 holds key 1; level 3 holds key 1 and both entries of key 5, in two files. */
  const EXAMPLE: Version := TwoLevels([PICKED], [BELOW, CONTINUED])

  // ---------------------------------------------------------------------------------------------
  // The run that leads there

  function WorldAt(mem: seq<Entry>, imm: Option<seq<Entry>>, v: Version, nextFile: nat, last: SequenceNumber,
                   snapshots: seq<SequenceNumber>, history: set<Entry>): World {
    World(Db(mem, imm, v, nextFile, last, snapshots), history)
  }

  const RUN: seq<World> := [
    WorldAt([], None, EMPTY_TREE, 1, 0, [], {}),
    WorldAt([OLDER], None, EMPTY_TREE, 1, 1, [], {} + {OLDER}),
    WorldAt([OLDER, HIDDEN], None, EMPTY_TREE, 1, 2, [], {} + {OLDER} + {HIDDEN}),
    WorldAt([OLDER, HIDDEN], None, EMPTY_TREE, 1, 2, [2], {} + {OLDER} + {HIDDEN}),
    WorldAt([OLDER, DELETED, HIDDEN], None, EMPTY_TREE, 1, 3, [2], {} + {OLDER} + {HIDDEN} + {DELETED}),
    WorldAt([], Some([OLDER, DELETED, HIDDEN]), EMPTY_TREE, 1, 3, [2], {} + {OLDER} + {HIDDEN} + {DELETED}),
    WorldAt([], None, FLUSHED, 2, 3, [2], {} + {OLDER} + {HIDDEN} + {DELETED}),
    WorldAt([], None, CUT, 4, 3, [2], {} + {OLDER} + {HIDDEN} + {DELETED}),
    WorldAt([], None, CUT, 4, 3, [], {} + {OLDER} + {HIDDEN} + {DELETED}),
    WorldAt([NEWER], None, CUT, 4, 4, [], {} + {OLDER} + {HIDDEN} + {DELETED} + {NEWER}),
    WorldAt([], Some([NEWER]), CUT, 4, 4, [], {} + {OLDER} + {HIDDEN} + {DELETED} + {NEWER}),
    WorldAt([], None, EXAMPLE, 5, 4, [], {} + {OLDER} + {HIDDEN} + {DELETED} + {NEWER})
  ]

  /** A value, its deletion behind a snapshot, a flush, a compaction that is cut between the two, and a
      newer value of the other key.  The compaction is a manual one of level 2, as TEST_CompactRange starts
      it (db_impl.cc:585): of its own accord the store would move the one file down (db_impl.cc:718).  Outputs
      are cut when they have reached max_file_size, which is at least 1 MiB (db_impl.cc:104, 988): 5.0 stands
      for a user key of that length, so that its deletion alone fills an output, and the next one begins with
      the value. */
  const ACTIONS: seq<Action> := [
    Write(1.0, Value, [1]),
    Write(5.0, Value, [2]),
    GetSnapshot,
    Write(5.0, Deletion, []),
    SwitchMemtable,
    FlushMemtable(2, SIZE),
    Compact(2, [FIRST], [], [OLDER, DELETED, HIDDEN], [BELOW, CONTINUED]),
    ReleaseSnapshot(0),
    Write(1.0, Value, [4]),
    SwitchMemtable,
    FlushMemtable(2, SIZE)
  ]

  lemma MemInsertAt(mem: seq<Entry>, e: Entry, i: nat)
    requires i <= |mem| && (forall j :: 0 <= j < i ==> Before(mem[j].k, e.k)) && (i < |mem| ==> !Before(mem[i].k, e.k))
    ensures MemInsert(mem, e) == mem[..i] + [e] + mem[i..]
  {
  }

  lemma WriteIsAStep(w: World, w': World, e: Entry, i: nat)
    requires i <= |w.db.mem| && (forall j :: 0 <= j < i ==> Before(w.db.mem[j].k, e.k))
    requires i < |w.db.mem| ==> !Before(w.db.mem[i].k, e.k)
    requires e.k.sn == w.db.lastSequence + 1 < MAX_SEQUENCE_NUMBER
    requires w'.db == w.db.(mem := w.db.mem[..i] + [e] + w.db.mem[i..], lastSequence := w.db.lastSequence + 1)
    requires w'.history == w.history + {e}
    ensures Step(w, Write(e.k.user, e.k.kind, e.value), w')
  {
    MemInsertAt(w.db.mem, e, i);
    hide MemInsert, Before;
  }

  lemma WritesAreSteps()
    ensures Step(RUN[0], ACTIONS[0], RUN[1]) && Step(RUN[1], ACTIONS[1], RUN[2])
    ensures Step(RUN[3], ACTIONS[3], RUN[4]) && Step(RUN[8], ACTIONS[8], RUN[9])
  {
    hide Step;
    WriteIsAStep(RUN[0], RUN[1], OLDER, 0);
    WriteIsAStep(RUN[1], RUN[2], HIDDEN, 1);
    WriteIsAStep(RUN[3], RUN[4], DELETED, 1);
    WriteIsAStep(RUN[8], RUN[9], NEWER, 0);
  }

  lemma SnapshotsAndSwitchesAreSteps()
    ensures Step(RUN[2], ACTIONS[2], RUN[3]) && Step(RUN[4], ACTIONS[4], RUN[5])
    ensures Step(RUN[7], ACTIONS[7], RUN[8]) && Step(RUN[9], ACTIONS[9], RUN[10])
  {
  }

  lemma FlushIsBuilt(v: Version, v': Version, level: nat, f: File)
    requires Flushed(v, v', level, f)
    ensures Built(v, Edit([], [(level, f)]), v')
  {
    var edit := Edit([], [(level, f)]);
    forall l | 0 <= l < NUM_LEVELS
      ensures FileSet(v'[l]) == ApplyEdit(FileSet(v[l]), edit, l)
    {
      assert AddedFiles(edit, 1, l) == AddedFiles(edit, 0, l) + (if l == level then {f} else {});
    }
  }

  lemma FirstFlushIsAStep()
    ensures Step(RUN[5], ACTIONS[5], RUN[6])
  {
    FlushIsBuilt(EMPTY_TREE, FLUSHED, 2, FIRST);
    hide Built;
  }

  lemma NothingOverlapsPicked()
    ensures LevelOk(CUT, 2, PICKED)
  {
  }

  lemma LastFlushIsAStep()
    ensures Step(RUN[10], ACTIONS[10], RUN[11])
  {
    FlushIsBuilt(CUT, EXAMPLE, 2, PICKED);
    NothingOverlapsPicked();
    hide Built, LevelOk;
  }

  lemma MoveIsBuilt(v: Version, v': Version, nextFile: nat, level: nat, in0: seq<File>, in1: seq<File>, outs: seq<File>)
    requires FilesInv(v, nextFile) && Among(v, level, in0, in1) && Moved(v, v', level, in0, in1, outs)
    ensures Built(v, MoveEdit(level, in0, in1, outs), v')
  {
    var edit := MoveEdit(level, in0, in1, outs);
    forall l | 0 <= l < NUM_LEVELS
      ensures FileSet(v'[l]) == ApplyEdit(FileSet(v[l]), edit, l)
    {
      assert outs[..|outs|] == outs;
      MoveAdds(level, in0, in1, outs, |outs|, l);
      forall f | f in v[l]
        ensures Deletes(edit, |edit.deleted|, l, f.number) <==> (l == level && f in in0) || (l == level + 1 && f in in1)
      {
        MoveDeletes(v, nextFile, level, in0, in1, outs, l, f);
      }
    }
  }

  lemma FirstCompactionMoves()
    ensures Moved(FLUSHED, CUT, 2, [FIRST], [], [BELOW, CONTINUED])
  {
    assert SortedBySmallest([BELOW, CONTINUED]);
  }

  lemma FirstCompactionInputs()
    ensures FilesInv(FLUSHED, 2) && InputsOk(FLUSHED, 2, [FIRST], [])
  {
    OneFileFits(FLUSHED, 2, 2, FIRST);
  }

  lemma OneFileFits(v: Version, nextFile: nat, level: nat, f: File)
    requires level + 1 < NUM_LEVELS && v[level] == [f] && f.number < nextFile
    requires forall l :: 0 <= l < NUM_LEVELS && l != level ==> v[l] == []
    ensures FilesInv(v, nextFile) && InputsOk(v, level, [f], [])
  {
    assert Rest([f], [f]) == {};
    hide LevelEntries, Rest;
  }

  lemma SnapshotKeepsAll()
    ensures SortedRun([OLDER, DELETED, HIDDEN])
    ensures Kept([OLDER, DELETED, HIDDEN], 3, 2, BaseKeys(FLUSHED, 2)) == [OLDER, DELETED, HIDDEN]
  {
    var input, base := [OLDER, DELETED, HIDDEN], BaseKeys(FLUSHED, 2);
    hide BaseKeys;
    assert Kept(input, 0, 2, base) == [];
    assert Kept(input, 1, 2, base) == [OLDER];
    assert Kept(input, 2, 2, base) == [OLDER, DELETED];
  }

  lemma OutputsAreTables()
    ensures Numbered([BELOW, CONTINUED], 2) && Tables([BELOW, CONTINUED]) && DisjointLevel([BELOW, CONTINUED])
    ensures Concat([BELOW, CONTINUED]) == [OLDER, DELETED, HIDDEN]
  {
    CutsJoin(BELOW, CONTINUED);
    SnapshotKeepsAll();
    assert [OLDER, DELETED] + [HIDDEN] == [OLDER, DELETED, HIDDEN];
    assert forall i :: 0 <= i < 2 ==> IsOutput([BELOW, CONTINUED][i]);
    hide Concat, SortedRun, Tables, DisjointLevel, Kept, BaseKeys;
    CutsAreDisjoint([BELOW, CONTINUED]);
  }

  lemma CutsJoin(f: File, g: File)
    ensures Concat([f, g]) == f.entries + g.entries
  {
    assert [f, g][..1] == [f] && [f][..0] == [];
    assert Concat([f]) == Concat([]) + f.entries;
  }

  lemma OneFile(f: File)
    ensures LevelEntries([f]) == SetOf(f.entries) && LevelEntries([]) == {}
  {
    assert f in [f];
  }

  lemma CompactionIsDone(db: Db)
    requires db.v == FLUSHED && db.nextFile == 2 && db.snapshots == [2]
    ensures Compacted(db, CUT, 2, [FIRST], [], [OLDER, DELETED, HIDDEN], [BELOW, CONTINUED])
  {
    FirstCompactionMoves();
    FirstCompactionInputs();
    MoveIsBuilt(FLUSHED, CUT, 2, 2, [FIRST], [], [BELOW, CONTINUED]);
    SnapshotKeepsAll();
    OutputsAreTables();
    OneFile(FIRST);
    hide FilesInv, Moved, InputsOk, Built, Kept, BaseKeys, Concat, Numbered, Tables, DisjointLevel, SortedRun;
    hide LevelEntries, SetOf, MoveEdit;
  }

  lemma CompactionIsAStep()
    ensures Step(RUN[6], ACTIONS[6], RUN[7])
  {
    CompactionIsDone(RUN[6].db);
    hide Compacted, Uncovers, Above, Step, AllEntries;
    StepUncoversNothing(RUN[6], ACTIONS[6], RUN[7]);
    ClosedUncoversNothing(FLUSHED, Above(RUN[6].db), 2, [], [OLDER, DELETED, HIDDEN], 2);
  }

  /** The store comes to hold the example. */
  lemma ExampleIsReached()
    ensures IsRun(RUN, ACTIONS)
  {
    WritesAreSteps();
    SnapshotsAndSwitchesAreSteps();
    FirstFlushIsAStep();
    CompactionIsAStep();
    LastFlushIsAStep();
    hide Step;
    assert Init(RUN[0]) by {
      InitIsEmpty();
    }
    forall i | 0 <= i < |ACTIONS|
      ensures Step(RUN[i], ACTIONS[i], RUN[i + 1])
    {
      assert i == 0 || i == 1 || i == 2 || i == 3 || i == 4 || i == 5 || i == 6 || i == 7 || i == 8 || i == 9
          || i == 10;
    }
  }

  lemma InitIsEmpty()
    ensures Init(RUN[0])
  {
    assert EMPTY_TREE == seq(NUM_LEVELS, _ => []);
  }

  // ---------------------------------------------------------------------------------------------
  // The compaction that goes wrong

  /** All of level 2, and what overlaps it in level 3. */
  lemma ExampleOverlap()
    ensures Overlapping(EXAMPLE[3], Some(1.0), Some(1.0)) == [BELOW]
  {
    var files := [BELOW, CONTINUED];
    assert OverlappingAmong(files, 0, Some(1.0), Some(1.0)) == [];
    assert OverlappingAmong(files, 1, Some(1.0), Some(1.0)) == [BELOW];
  }

  lemma OnlyFile(f: File, files: seq<File>)
    requires files != [] && NoDuplicates(files) && forall g :: g in files ==> g in [f]
    ensures files == [f]
  {
    forall i | 0 <= i < |files|
      ensures files[i] == f
    {
      assert files[i] in files;
    }
    var last := files[|files| - 1];
    assert files[0] == f && last == f;
  }

  lemma ExamplePicks(in0: seq<File>, in1: seq<File>)
    requires InputsOk(EXAMPLE, 2, in0, in1) && NextOf(EXAMPLE[3], in0, in1)
    ensures in0 == [PICKED] && in1 == [BELOW]
  {
    assert Among(EXAMPLE, 2, in0, in1) && EXAMPLE[2] == [PICKED];
    OnlyFile(PICKED, in0);
    assert [PICKED][0].smallest == [PICKED][0].largest == NEWER.k;
    assert IsSmallestKey([PICKED], NEWER.k) && IsLargestKey([PICKED], NEWER.k);
    ExampleOverlap();
  }

  lemma ExampleMerges()
    ensures MergeFiles([PICKED, BELOW]) == [NEWER, OLDER, DELETED]
  {
    var a := [PICKED, BELOW];
    assert a[..1] == [PICKED] && [PICKED][..0] == [];
    assert MergeFiles([]) == [] && MergeFiles([PICKED]) == Merge([], [NEWER]) == [NEWER];
    assert [NEWER][1..] == [];
    assert Merge([NEWER], [OLDER, DELETED]) == [NEWER] + Merge([], [OLDER, DELETED]);
  }

  lemma ExampleOutside()
    ensures Outside(EXAMPLE, 2, [PICKED], [BELOW]) == {HIDDEN}
  {
    OneFile(CONTINUED);
    assert BELOW != CONTINUED && CONTINUED in EXAMPLE[3] && HIDDEN in CONTINUED.entries;
    assert Rest(EXAMPLE[2], [PICKED]) == {};
    assert Rest(EXAMPLE[3], [BELOW]) == {HIDDEN};
    hide Rest, LevelEntries;
  }

  lemma NothingFurtherDown()
    ensures NoDataBelow(EXAMPLE, 2, 5.0)
  {
  }

  lemma ThreeEntries(a: Entry, b: Entry, c: Entry)
    ensures SetOf([a, b, c]) == {a, b, c}
  {
  }

  lemma ExampleResurrects()
    ensures Resurrects([NEWER, OLDER, DELETED], {HIDDEN}, 2, 4, BaseKeys(EXAMPLE, 2))
    ensures IsNewest({HIDDEN}, 5.0, 4, HIDDEN)
    ensures SetOf([NEWER, OLDER, DELETED]) !! {HIDDEN} && SortedRun([NEWER, OLDER, DELETED])
    ensures Distinct(SetOf([NEWER, OLDER, DELETED]) + {HIDDEN})
  {
    ThreeEntries(NEWER, OLDER, DELETED);
    NothingFurtherDown();
    hide SetOf, NoDataBelow;
  }

  /** Where nothing is in memory, what a compaction uncovers in the tree is what is read afterwards. */
  lemma UncoveredIsRead(w: World, v': Version, level: nat, in0: seq<File>, in1: seq<File>, es: seq<Entry>,
                        outs: seq<File>, rest: set<Entry>, i: nat, o: Entry)
    requires Inv(w) && w.db.mem == [] && w.db.imm == None && Compacted(w.db, v', level, in0, in1, es, outs)
    requires level + 1 < NUM_LEVELS && rest == Outside(w.db.v, level, in0, in1) && i < |es|
    requires Resurrects(es, rest, i, SmallestSnapshot(w.db), BaseKeys(w.db.v, level))
    requires IsNewest(rest, es[i].k.user, SmallestSnapshot(w.db), o)
    ensures TreeInv(v') && Distinct(VersionEntries(v'))
    ensures Read(VersionEntries(v'), es[i].k.user, SmallestSnapshot(w.db)) == Shown(o)
    ensures Read(w.history, es[i].k.user, SmallestSnapshot(w.db)) == None
  {
    hide Outside, Kept, BaseKeys, Resurrects, IsNewest, Distinct, Read, TreeInv, FilesInv, Built, InputsOk;
    hide InputEntries, SortedRun, SnapshotsOk, VersionEntries;
    TreeEntriesDistinct(w);
    CompactKeepsTree(w.db, v', level, in0, in1, es, outs);
    CompactEntries(w.db, v', level, in0, in1, es, outs, SetOf([]) + SetOf([]) + rest);
    InputsAmong(w.db.v, level, in0, in1);
    NoMemory(w.db, v');
    assert SetOf([]) + SetOf([]) + rest == rest;
    OutsideIsDisjoint(w.db.v, level, in0, in1);
    hide SetOf, Compacted, HistoryInv, MemInv, AllEntries;
    assert Distinct(VersionEntries(v')) by {
      FewerAreDistinct(VersionEntries(v'), VersionEntries(w.db.v));
    }
    ResurrectedIsRead(es, rest, i, SmallestSnapshot(w.db), BaseKeys(w.db.v, level), o);
  }

  lemma FewerAreDistinct(a: set<Entry>, b: set<Entry>)
    requires a <= b && Distinct(b)
    ensures Distinct(a)
  {
  }

  lemma NoMemory(db: Db, v: Version)
    requires db.mem == [] && Imm(db) == []
    ensures SetOf([]) == {} && AllEntries(db) == VersionEntries(db.v) && AllEntries(db.(v := v)) == VersionEntries(v)
  {
    hide VersionEntries;
  }

  method CompactAndGet(w: World, level: nat, in0: seq<File>, in1: seq<File>, user: UserKey, limits: Limits,
                       sizeOf: seq<Entry> -> nat, ghost i: nat, ghost o: Entry)
    returns (before: Option<Bytes>, after: Option<Bytes>, db': Db, a: Action)
    requires Inv(w) && w.db.mem == [] && w.db.imm == None && InputsOk(w.db.v, level, in0, in1) && level + 1 < NUM_LEVELS
    requires AreGrandparents(w.db.v, level, in0, in1, limits.grandparents)
    requires i < |MergeFiles(in0 + in1)| && user == MergeFiles(in0 + in1)[i].k.user
    requires Resurrects(MergeFiles(in0 + in1), Outside(w.db.v, level, in0, in1), i, SmallestSnapshot(w.db),
          BaseKeys(w.db.v, level))
    requires IsNewest(Outside(w.db.v, level, in0, in1), user, SmallestSnapshot(w.db), o)
    ensures a.Compact? && Compacted(w.db, db'.v, level, in0, in1, a.input, a.outs)
    ensures before == Read(w.history, user, SmallestSnapshot(w.db)) == None
    ensures after == Read(VersionEntries(db'.v), user, SmallestSnapshot(w.db)) == Shown(o)
  {
    hide *;
    before := Database.Get(w.db, w, user, SmallestSnapshot(w.db));
    db', a := CompactFiles(w, level, in0, in1, limits, sizeOf);
    UncoveredIsRead(w, db'.v, level, in0, in1, a.input, a.outs, Outside(w.db.v, level, in0, in1), i, o);
    after := Tree.Get(db'.v, user, SmallestSnapshot(w.db));
  }

  lemma ExampleIsReady(w: World)
    requires w == RUN[11]
    ensures IsRun(RUN, ACTIONS) && Inv(w) && w.db.v == EXAMPLE && |EXAMPLE[2]| == 1 && w.db.mem == []
    ensures w.db.imm == None && SmallestSnapshot(w.db) == 4
    ensures TreeInv(EXAMPLE) && NoDuplicates(EXAMPLE[2]) && NoDuplicates(EXAMPLE[3])
    ensures |MergeFiles([PICKED] + [BELOW])| == 3 && MergeFiles([PICKED] + [BELOW])[2].k.user == 5.0
    ensures Resurrects(MergeFiles([PICKED] + [BELOW]), Outside(EXAMPLE, 2, [PICKED], [BELOW]), 2, 4,
          BaseKeys(EXAMPLE, 2))
    ensures IsNewest(Outside(EXAMPLE, 2, [PICKED], [BELOW]), 5.0, 4, HIDDEN)
  {
    ExampleIsReached();
    hide IsRun, Step, TreeInv, FilesInv, MemInv, HistoryInv, ReadsHistory, SnapshotsOk, Resurrects, Outside, BaseKeys;
    hide IsNewest, MergeFiles;
    RunsKeepInv(RUN, ACTIONS, 11);
    ExampleMerges();
    ExampleOutside();
    ExampleResurrects();
    assert [PICKED] + [BELOW] == [PICKED, BELOW];
  }

  /** From the state that the run reaches, the store answers that key 5 is deleted.  It then picks a
      compaction of level 2, with any limits, and answers with the deleted value. */
  method DeletedKeyComesBack(expandedLimit: nat, overlap: nat, tableSize: seq<Entry> -> nat, fileSize: nat,
                             sizeOf: seq<Entry> -> nat)
    returns (before: Option<Bytes>, after: Option<Bytes>, in0: seq<File>, in1: seq<File>, db': Db, a: Action)
    ensures IsRun(RUN, ACTIONS) && InputsOk(RUN[11].db.v, 2, in0, in1) && NextOf(RUN[11].db.v[3], in0, in1)
    ensures a.Compact? && Compacted(RUN[11].db, db'.v, 2, in0, in1, a.input, a.outs)
    ensures before == Read(RUN[11].history, 5.0, 4) == None
    ensures after == Read(VersionEntries(db'.v), 5.0, 4) == Some([2])
  {
    hide IsRun, Compacted, Read, VersionEntries, Inv, Resurrects, Outside, BaseKeys, IsNewest, MergeFiles, TreeInv;
    hide NoDuplicates, InputsOk, NextOf, Shown, SmallestSnapshot, ACTIONS, HIDDEN, PICKED, BELOW, TwoLevels;
    var w := RUN[11];
    hide RUN;
    ExampleIsReady(w);
    in0, in1 := PickCompaction(w.db.v, 2, 0, expandedLimit);
    ExamplePicks(in0, in1);
    ReadyForGrandparents(w, 2, in0, in1);
    var grandparents := Grandparents(w.db.v, 2, in0, in1);
    var limits := Limits(grandparents, overlap, tableSize, fileSize);
    before, after, db', a := CompactAndGet(w, 2, in0, in1, 5.0, limits, sizeOf, 2, HIDDEN);
    HiddenIsShown();
  }

  lemma HiddenIsShown()
    ensures Shown(HIDDEN) == Some([2])
  {
  }
}
