/** The whole store as a state machine (LevelDB db/db_impl.cc): writes, snapshots, memtable
    switches, flushes, trivial moves and compactions, and what Get answers in every reachable state. */
module Database {
  import opened Options
  import opened DbFormat
  import opened MemTables
  import opened Tree
  import opened Selection
  import opened Compaction
  import opened Builder
  import opened TreeSteps
  import opened Boundary

  datatype Db = Db(mem: seq<Entry>, imm: Option<seq<Entry>>, v: Version, nextFile: nat,
                   lastSequence: SequenceNumber, snapshots: seq<SequenceNumber>)

  /** The store and, for the specification, everything ever written to it. */
  datatype World = World(db: Db, history: set<Entry>)

  datatype Action =
    | Write(user: UserKey, kind: ValueType, value: Bytes)
    | GetSnapshot
    | ReleaseSnapshot(at: nat)
    | SwitchMemtable
    | FlushMemtable(pick: nat, size: nat)
    | TrivialMove(level: nat, file: File)
    | Compact(level: nat, in0: seq<File>, in1: seq<File>, input: seq<Entry>, outs: seq<File>)

  function Imm(db: Db): seq<Entry> {
    if db.imm.Some? then db.imm.value else []
  }

  ghost function AllEntries(db: Db): set<Entry> {
    SetOf(db.mem) + SetOf(Imm(db)) + VersionEntries(db.v)
  }

  /** What is newer than the tree. */
  ghost function Above(db: Db): set<Entry> {
    SetOf(db.mem) + SetOf(Imm(db))
  }

  /** DoCompactionWork's bound: the oldest live snapshot, or the last sequence number. */
  function SmallestSnapshot(db: Db): SequenceNumber {
    if db.snapshots == [] then db.lastSequence else db.snapshots[0]
  }

  function MoveEdit(level: nat, in0: seq<File>, in1: seq<File>, outs: seq<File>): Edit {
    Edit(seq(|in0|, i requires 0 <= i < |in0| => (level, in0[i].number))
         + seq(|in1|, i requires 0 <= i < |in1| => (level + 1, in1[i].number)),
         seq(|outs|, i requires 0 <= i < |outs| => (level + 1, outs[i])))
  }

  ghost predicate Step(w: World, a: Action, w': World) {
    var db, db' := w.db, w'.db;
    match a
    case Write(user, kind, value) =>
      && db.lastSequence + 1 < MAX_SEQUENCE_NUMBER
      && var e := Entry(InternalKey(user, db.lastSequence + 1, kind), value);
      && db' == db.(mem := MemInsert(db.mem, e), lastSequence := db.lastSequence + 1)
      && w'.history == w.history + {e}
    case GetSnapshot =>
      db' == db.(snapshots := db.snapshots + [db.lastSequence]) && w'.history == w.history
    case ReleaseSnapshot(at) =>
      && at < |db.snapshots|
      && db' == db.(snapshots := db.snapshots[..at] + db.snapshots[at + 1..]) && w'.history == w.history
    case SwitchMemtable =>
      db.imm.None? && db' == db.(mem := [], imm := Some(db.mem)) && w'.history == w.history
    case FlushMemtable(pick, size) =>
      && w'.history == w.history && db.imm.Some?
      && if db.imm.value == [] then db' == db.(imm := None)
         else
           var f := OutputFile(db.nextFile, size, db.imm.value);
           && LevelOk(db.v, pick, f)
           && Built(db.v, Edit([], [(pick, f)]), db'.v)
           && db' == db.(imm := None, v := db'.v, nextFile := db.nextFile + 1)
    case TrivialMove(level, file) =>
      && w'.history == w.history
      && InputsOk(db.v, level, [file], [])
      && Built(db.v, MoveEdit(level, [file], [], [file]), db'.v)
      && db' == db.(v := db'.v)
    case Compact(level, in0, in1, input, outs) =>
      && w'.history == w.history
      && Compacted(db, db'.v, level, in0, in1, input, outs)
      && !Uncovers(db.v, Above(db), level, in1, input, SmallestSnapshot(db))
      && db' == db.(v := db'.v, nextFile := db.nextFile + |outs|)
  }

  // ---------------------------------------------------------------------------------------------
  // The invariant

  /** File numbers are used once in the whole tree, and each level is in BySmallest order. */
  ghost predicate FilesInv(v: Version, nextFile: nat) {
    && (forall l :: 0 <= l < NUM_LEVELS ==> SortedBySmallest(v[l]))
    && (forall l, f :: 0 <= l < NUM_LEVELS && f in v[l] ==> f.number < nextFile)
    && (forall l, m, f, g :: 0 <= l < NUM_LEVELS && 0 <= m < NUM_LEVELS && f in v[l] && g in v[m] ==>
          f.number == g.number ==> l == m && f == g)
  }

  ghost predicate SnapshotsOk(db: Db) {
    && (forall i, j :: 0 <= i < j < |db.snapshots| ==> db.snapshots[i] <= db.snapshots[j])
    && (forall i :: 0 <= i < |db.snapshots| ==> db.snapshots[i] <= db.lastSequence)
  }

  ghost predicate MemInv(db: Db) {
    && SortedRun(db.mem) && SortedRun(Imm(db))
    && Newer(SetOf(db.mem), SetOf(Imm(db)) + VersionEntries(db.v))
    && Newer(SetOf(Imm(db)), VersionEntries(db.v))
  }

  ghost predicate HistoryInv(w: World) {
    && Distinct(w.history)
    && (forall e :: e in w.history ==> e.k.sn <= w.db.lastSequence)
    && AllEntries(w.db) <= w.history
    && w.db.lastSequence < MAX_SEQUENCE_NUMBER
  }

  /** Every snapshot a reader may still hold, now or later, reads what was written. */
  ghost predicate ReadsHistory(w: World) {
    forall user, s: SequenceNumber :: SmallestSnapshot(w.db) <= s ==>
      Read(AllEntries(w.db), user, s) == Read(w.history, user, s)
  }

  ghost predicate Inv(w: World) {
    && TreeInv(w.db.v) && FilesInv(w.db.v, w.db.nextFile)
    && MemInv(w.db) && HistoryInv(w) && SnapshotsOk(w.db)
    && ReadsHistory(w)
  }

  /** An empty store. */
  ghost predicate Init(w: World) {
    && w.db.mem == [] && w.db.imm == None && w.db.v == seq(NUM_LEVELS, _ => [])
    && w.db.lastSequence == 0 && w.db.snapshots == [] && w.history == {}
  }

  lemma EmptyTree(v: Version, nextFile: nat)
    requires forall l :: 0 <= l < NUM_LEVELS ==> v[l] == []
    ensures TreeInv(v) && FilesInv(v, nextFile) && VersionEntries(v) == {}
  {
    assert forall l :: 0 <= l < NUM_LEVELS ==> LevelEntries(v[l]) == {};
  }

  lemma InitHolds(w: World)
    requires Init(w)
    ensures Inv(w)
  {
    EmptyTree(w.db.v, w.db.nextFile);
    hide TreeInv, FilesInv, VersionEntries;
  }

  // ---------------------------------------------------------------------------------------------
  // Edits as moves

  lemma {:induction false} MoveAdds(level: nat, in0: seq<File>, in1: seq<File>, outs: seq<File>, n: nat, l: nat)
    requires n <= |outs|
    ensures AddedFiles(MoveEdit(level, in0, in1, outs), n, l) == if l == level + 1 then FileSet(outs[..n]) else {}
  {
    if n > 0 {
      MoveAdds(level, in0, in1, outs, n - 1, l);
      assert outs[..n] == outs[..n - 1] + [outs[n - 1]];
    }
  }

  lemma MoveDeletes(v: Version, nextFile: nat, level: nat, in0: seq<File>, in1: seq<File>, outs: seq<File>, l: nat,
                    f: File)
    requires FilesInv(v, nextFile) && Among(v, level, in0, in1) && l < NUM_LEVELS && f in v[l]
    ensures var edit := MoveEdit(level, in0, in1, outs);
      Deletes(edit, |edit.deleted|, l, f.number) <==> (l == level && f in in0) || (l == level + 1 && f in in1)
  {
    var edit := MoveEdit(level, in0, in1, outs);
    if l == level && f in in0 {
      var i :| 0 <= i < |in0| && in0[i] == f;
      assert edit.deleted[i] == (l, f.number);
    } else if l == level + 1 && f in in1 {
      var i :| 0 <= i < |in1| && in1[i] == f;
      assert edit.deleted[|in0| + i] == (l, f.number);
    } else {
      forall j | 0 <= j < |edit.deleted|
        ensures edit.deleted[j] != (l, f.number)
      {
        if j < |in0| {
          assert in0[j] in in0;
        } else {
          assert in1[j - |in0|] in in1;
        }
      }
    }
  }

  lemma BuiltAt(v: Version, v': Version, nextFile: nat, level: nat, in0: seq<File>, in1: seq<File>, outs: seq<File>,
                l: nat, f: File)
    requires FilesInv(v, nextFile) && Among(v, level, in0, in1) && Built(v, MoveEdit(level, in0, in1, outs), v')
    requires l < NUM_LEVELS
    ensures f in v'[l] <==>
      (f in v[l] && !((l == level && f in in0) || (l == level + 1 && f in in1))) || (l == level + 1 && f in outs)
  {
    var edit := MoveEdit(level, in0, in1, outs);
    assert outs[..|outs|] == outs;
    MoveAdds(level, in0, in1, outs, |outs|, l);
    assert f in v'[l] <==> f in ApplyEdit(FileSet(v[l]), edit, l);
    if f in v[l] {
      MoveDeletes(v, nextFile, level, in0, in1, outs, l, f);
    }
  }

  lemma BuiltIsMoved(v: Version, v': Version, nextFile: nat, level: nat, in0: seq<File>, in1: seq<File>,
                     outs: seq<File>)
    requires FilesInv(v, nextFile) && Among(v, level, in0, in1) && Built(v, MoveEdit(level, in0, in1, outs), v')
    ensures Moved(v, v', level, in0, in1, outs)
  {
    forall f
      ensures f in v'[level] <==> f in v[level] && f !in in0
      ensures f in v'[level + 1] <==> (f in v[level + 1] && f !in in1) || f in outs
    {
      BuiltAt(v, v', nextFile, level, in0, in1, outs, level, f);
      BuiltAt(v, v', nextFile, level, in0, in1, outs, level + 1, f);
    }
    forall l, f | 0 <= l < NUM_LEVELS && l != level && l != level + 1
      ensures f in v'[l] <==> f in v[l]
    {
      BuiltAt(v, v', nextFile, level, in0, in1, outs, l, f);
    }
  }

  /** Where a file of the moved tree comes from. */
  lemma MovedFrom(v: Version, v': Version, level: nat, in0: seq<File>, in1: seq<File>, outs: seq<File>, l: nat, f: File)
    requires Among(v, level, in0, in1) && Moved(v, v', level, in0, in1, outs) && l < NUM_LEVELS && f in v'[l]
    ensures (f in v[l] && !(l == level && f in in0)) || (l == level + 1 && f in outs)
  {
    if l != level && l != level + 1 {
      assert f in v[l];
    }
  }

  /** A trivial move keeps numbers unique. */
  lemma RenumberNothing(v: Version, v': Version, nextFile: nat, level: nat, file: File)
    requires FilesInv(v, nextFile) && Among(v, level, [file], []) && Moved(v, v', level, [file], [], [file])
    ensures FilesInv(v', nextFile)
  {
    assert file in [file];
    forall l, f | 0 <= l < NUM_LEVELS && f in v'[l]
      ensures f.number < nextFile
      ensures (f in v[l] && !(l == level && f == file)) || (l == level + 1 && f == file)
    {
      MovedFrom(v, v', level, [file], [], [file], l, f);
    }
    assert file in v[level];
    hide Moved, Among;
  }

  lemma NumberedOnce(outs: seq<File>, first: nat, f: File)
    requires Numbered(outs, first) && f in outs
    ensures first <= f.number < first + |outs|
    ensures forall g :: g in outs && g.number == f.number ==> g == f
  {
    var i :| 0 <= i < |outs| && outs[i] == f;
    forall g | g in outs && g.number == f.number
      ensures g == f
    {
      var j :| 0 <= j < |outs| && outs[j] == g;
    }
  }

  /** So do compaction outputs, which take new numbers. */
  lemma NewNumbersOnly(v: Version, v': Version, nextFile: nat, level: nat, in0: seq<File>, in1: seq<File>,
                       outs: seq<File>)
    requires FilesInv(v, nextFile) && Among(v, level, in0, in1) && Moved(v, v', level, in0, in1, outs)
    requires Numbered(outs, nextFile)
    ensures FilesInv(v', nextFile + |outs|)
  {
    forall l, f | 0 <= l < NUM_LEVELS && f in v'[l]
      ensures (f in v[l] && f.number < nextFile)
              || (l == level + 1 && f in outs && nextFile <= f.number < nextFile + |outs|)
    {
      MovedFrom(v, v', level, in0, in1, outs, l, f);
      if f in outs {
        NumberedOnce(outs, nextFile, f);
      }
    }
    hide Moved, Among, Numbered;
    forall l, m, f, g | 0 <= l < NUM_LEVELS && 0 <= m < NUM_LEVELS && f in v'[l] && g in v'[m] && f.number == g.number
      ensures l == m && f == g
    {
      if nextFile <= f.number {
        NumberedOnce(outs, nextFile, f);
      }
    }
  }

  // ---------------------------------------------------------------------------------------------
  // Each step keeps the invariant

  lemma WriteKeepsMem(db: Db, db': Db, e: Entry)
    requires MemInv(db) && (forall o :: o in AllEntries(db) ==> o.k.sn < e.k.sn)
    requires db' == db.(mem := MemInsert(db.mem, e), lastSequence := db'.lastSequence)
    ensures MemInv(db') && AllEntries(db') == AllEntries(db) + {e}
  {
    assert forall i :: 0 <= i < |db.mem| ==> db.mem[i] in SetOf(db.mem);
    MemInsertIsSorted(db.mem, e);
    MemInsertAdds(db.mem, e);
  }

  lemma WriteKeepsReads(all: set<Entry>, history: set<Entry>, e: Entry, snap: SequenceNumber)
    requires Distinct(history + {e}) && all <= history && (forall o :: o in history ==> o.k.sn < e.k.sn)
    requires forall user, s: SequenceNumber :: snap <= s ==> Read(all, user, s) == Read(history, user, s)
    ensures forall user, s: SequenceNumber :: snap <= s ==> Read(all + {e}, user, s) == Read(history + {e}, user, s)
  {
    forall user, s: SequenceNumber | snap <= s
      ensures Read(all + {e}, user, s) == Read(history + {e}, user, s)
    {
      ReadAfterWrite(all, e, user, s);
      ReadAfterWrite(history, e, user, s);
    }
  }

  lemma WriteKeepsInv(w: World, a: Action, w': World)
    requires Inv(w) && a.Write? && Step(w, a, w')
    ensures Inv(w')
  {
    hide TreeInv, FilesInv, MemInv, AllEntries, Read;
    var e := Entry(InternalKey(a.user, w.db.lastSequence + 1, a.kind), a.value);
    WriteKeepsMem(w.db, w'.db, e);
    WriteKeepsReads(AllEntries(w.db), w.history, e, SmallestSnapshot(w.db));
    assert SmallestSnapshot(w.db) <= SmallestSnapshot(w'.db);
  }

  lemma SameMemEntries(db: Db, db': Db)
    requires MemInv(db) && db'.v == db.v
    requires (db'.mem == db.mem && db'.imm == db.imm) || (db.imm.None? && db'.mem == [] && db'.imm == Some(db.mem))
    ensures AllEntries(db') == AllEntries(db) && MemInv(db')
  {
  }

  lemma SnapshotKeepsInv(w: World, a: Action, w': World)
    requires Inv(w) && (a.GetSnapshot? || a.ReleaseSnapshot? || a.SwitchMemtable?) && Step(w, a, w')
    ensures Inv(w')
  {
    hide TreeInv, FilesInv, Distinct, VersionEntries, Read, SortedRun;
    SameMemEntries(w.db, w'.db);
    hide AllEntries, MemInv, SetOf;
    assert SmallestSnapshot(w.db) <= SmallestSnapshot(w'.db);
  }

  lemma FlushedTable(db: Db, size: nat) returns (f: File)
    requires MemInv(db) && db.imm.Some? && db.imm.value != []
    ensures f == OutputFile(db.nextFile, size, db.imm.value) && Table(f)
  {
    f := OutputFile(db.nextFile, size, db.imm.value);
  }

  lemma BuiltIsFlushed(v: Version, v': Version, level: nat, f: File)
    requires level < NUM_LEVELS && Built(v, Edit([], [(level, f)]), v')
    ensures Flushed(v, v', level, f)
  {
    var edit := Edit([], [(level, f)]);
    forall l, g | 0 <= l < NUM_LEVELS
      ensures g in v'[l] <==> g in v[l] || (l == level && g == f)
    {
      assert AddedFiles(edit, 1, l) == AddedFiles(edit, 0, l) + (if l == level then {f} else {});
      assert g in v'[l] <==> g in ApplyEdit(FileSet(v[l]), edit, l);
    }
  }

  lemma FlushMoves(db: Db, db': Db, pick: nat, size: nat)
    requires TreeInv(db.v) && FilesInv(db.v, db.nextFile) && MemInv(db) && db.imm.Some? && db.imm.value != []
    requires LevelOk(db.v, pick, OutputFile(db.nextFile, size, db.imm.value))
    requires Built(db.v, Edit([], [(pick, OutputFile(db.nextFile, size, db.imm.value))]), db'.v)
    ensures TreeInv(db'.v) && FilesInv(db'.v, db.nextFile + 1)
    ensures VersionEntries(db'.v) == VersionEntries(db.v) + SetOf(db.imm.value)
  {
    var f := FlushedTable(db, size);
    BuiltIsFlushed(db.v, db'.v, pick, f);
    FlushKeepsTree(db.v, db'.v, pick, f);
    EntriesAfterFlush(db.v, db'.v, pick, f);
    FlushNumbers(db.v, db'.v, db.nextFile, pick, f);
  }

  lemma FlushNumbers(v: Version, v': Version, nextFile: nat, level: nat, f: File)
    requires FilesInv(v, nextFile) && Flushed(v, v', level, f) && f.number == nextFile
    ensures FilesInv(v', nextFile + 1)
  {
    forall l, g | 0 <= l < NUM_LEVELS && g in v'[l]
      ensures (g in v[l] && g.number < nextFile) || (l == level && g == f)
    {
    }
  }

  lemma FlushKeepsInv(w: World, a: Action, w': World)
    requires Inv(w) && a.FlushMemtable? && Step(w, a, w')
    ensures Inv(w')
  {
    hide TreeInv, FilesInv, HistoryInv, SnapshotsOk, ReadsHistory, VersionEntries, LevelOk, Built;
    if w.db.imm.value != [] {
      FlushMoves(w.db, w'.db, a.pick, a.size);
    }
    SameEntries(w, w');
    SnapshotsUnchanged(w.db, w'.db);
  }

  /** A step that only moves entries about keeps what readers see. */
  lemma SameEntries(w: World, w': World)
    requires HistoryInv(w) && ReadsHistory(w) && w'.history == w.history
    requires w'.db.lastSequence == w.db.lastSequence && w'.db.snapshots == w.db.snapshots
    requires SetOf(w'.db.mem) + SetOf(Imm(w'.db)) + VersionEntries(w'.db.v)
             == SetOf(w.db.mem) + SetOf(Imm(w.db)) + VersionEntries(w.db.v)
    ensures HistoryInv(w') && ReadsHistory(w')
  {
  }

  lemma MoveOne(db: Db, v': Version, level: nat, file: File)
    requires TreeInv(db.v) && FilesInv(db.v, db.nextFile) && Distinct(VersionEntries(db.v))
    requires InputsOk(db.v, level, [file], []) && Built(db.v, MoveEdit(level, [file], [], [file]), v')
    ensures TreeInv(v') && FilesInv(v', db.nextFile) && VersionEntries(v') == VersionEntries(db.v)
  {
    hide *;
    var files := [file];
    InputsAmong(db.v, level, files, []);
    BuiltIsMoved(db.v, v', db.nextFile, level, files, [], files);
    OneTable(db.v, level, file);
    OneFromItself(file);
    MoveKeepsTree(db.v, v', level, files, [], files);
    RenumberNothing(db.v, v', db.nextFile, level, file);
    TreeSplits(db.v, v', level, files, [], files);
  }

  lemma InputsAmong(v: Version, level: nat, in0: seq<File>, in1: seq<File>)
    requires InputsOk(v, level, in0, in1)
    ensures Among(v, level, in0, in1) && level + 1 < NUM_LEVELS
    ensures forall f :: f in in0 ==> f in v[level]
  {
  }

  lemma OneFromItself(f: File)
    ensures FromInputs([f], [], [f]) && InputEntries([f], []) == LevelEntries([f])
  {
    assert LevelEntries([]) == {};
  }

  lemma TrivialMoveKeepsInv(w: World, a: Action, w': World)
    requires Inv(w) && a.TrivialMove? && Step(w, a, w')
    ensures Inv(w')
  {
    hide TreeInv, FilesInv, HistoryInv, SnapshotsOk, ReadsHistory, VersionEntries, InputsOk, Built, SortedRun, Distinct;
    TreeEntriesDistinct(w);
    MoveOne(w.db, w'.db.v, a.level, a.file);
    SameEntries(w, w');
    SnapshotsUnchanged(w.db, w'.db);
  }

  lemma OneTable(v: Version, level: nat, f: File)
    requires TreeInv(v) && level < NUM_LEVELS && f in v[level]
    ensures Tables([f]) && DisjointLevel([f])
  {
    assert Tables(v[level]);
    EntryInFileRange(f, f.entries[0]);
  }

  lemma TreeEntriesDistinct(w: World)
    requires HistoryInv(w)
    ensures Distinct(AllEntries(w.db)) && Distinct(VersionEntries(w.db.v))
  {
  }

  /** What DoCompactionWork and InstallCompactionResults do. */
  ghost predicate Compacted(db: Db, v': Version, level: nat, in0: seq<File>, in1: seq<File>, input: seq<Entry>,
                            outs: seq<File>) {
    && InputsOk(db.v, level, in0, in1)
    && SortedRun(input) && SetOf(input) == InputEntries(in0, in1)
    && Concat(outs) == Kept(input, |input|, SmallestSnapshot(db), BaseKeys(db.v, level))
    && Numbered(outs, db.nextFile) && Tables(outs) && DisjointLevel(outs)
    && Built(db.v, MoveEdit(level, in0, in1, outs), v')
  }

  /** A compaction replaces its inputs by what it keeps of them and leaves the rest alone. */
  lemma CompactEntries(db: Db, v': Version, level: nat, in0: seq<File>, in1: seq<File>, input: seq<Entry>,
                       outs: seq<File>, rest: set<Entry>)
    requires FilesInv(db.v, db.nextFile) && Compacted(db, v', level, in0, in1, input, outs)
    requires rest == SetOf(db.mem) + SetOf(Imm(db)) + Outside(db.v, level, in0, in1)
    ensures AllEntries(db) == SetOf(input) + rest
    ensures AllEntries(db.(v := v')) == SetOf(Kept(input, |input|, SmallestSnapshot(db), BaseKeys(db.v, level))) + rest
    ensures VersionEntries(v') <= VersionEntries(db.v)
  {
    hide LevelEntries, Rest, Moved, FilesInv, InputsOk, Among, Built, Outside, VersionEntries, Numbered, Tables;
    hide DisjointLevel;
    InputsAmong(db.v, level, in0, in1);
    BuiltIsMoved(db.v, v', db.nextFile, level, in0, in1, outs);
    TreeSplits(db.v, v', level, in0, in1, outs);
    ConcatEntries(outs);
    KeptIsAmong(input, SmallestSnapshot(db), BaseKeys(db.v, level));
  }

  lemma ReadyInMemory(db: Db, level: nat, in0: seq<File>, in1: seq<File>)
    requires TreeInv(db.v) && MemInv(db) && Distinct(AllEntries(db)) && InputsOk(db.v, level, in0, in1)
    ensures Ready(db.v, Above(db), level, in0, in1) && level + 1 < NUM_LEVELS
  {
    hide TreeInv, SortedRun, VersionEntries, SetOf;
  }

  /** A compaction keeps every read at or above the smallest snapshot, if and only if it uncovers nothing
      that the next level's boundary test would have found. */
  lemma CompactKeepsReadsIff(db: Db, v': Version, level: nat, in0: seq<File>, in1: seq<File>, input: seq<Entry>,
                             outs: seq<File>)
    requires TreeInv(db.v) && FilesInv(db.v, db.nextFile) && MemInv(db) && Distinct(AllEntries(db))
    requires Compacted(db, v', level, in0, in1, input, outs)
    ensures level + 1 < NUM_LEVELS
    ensures (forall user, s: SequenceNumber :: SmallestSnapshot(db) <= s ==>
               Read(AllEntries(db.(v := v')), user, s) == Read(AllEntries(db), user, s))
      <==> !Uncovers(db.v, Above(db), level, in1, input, SmallestSnapshot(db))
  {
    ReadyInMemory(db, level, in0, in1);
    var rest := Above(db) + Outside(db.v, level, in0, in1);
    CompactEntries(db, v', level, in0, in1, input, outs, rest);
    assert AllEntries(db) == Above(db) + VersionEntries(db.v);
    hide Ready, Above, AllEntries, VersionEntries, Outside, Uncovers, Read, SortedRun, Kept, BaseKeys, TreeInv;
    hide FilesInv, MemInv;
    TreeKeepsReadsIff(db.v, Above(db), level, in0, in1, input, SmallestSnapshot(db));
  }

  lemma CompactKeepsTree(db: Db, v': Version, level: nat, in0: seq<File>, in1: seq<File>, input: seq<Entry>,
                         outs: seq<File>)
    requires TreeInv(db.v) && FilesInv(db.v, db.nextFile) && Distinct(VersionEntries(db.v))
    requires Compacted(db, v', level, in0, in1, input, outs)
    ensures TreeInv(v') && FilesInv(v', db.nextFile + |outs|)
  {
    BuiltIsMoved(db.v, v', db.nextFile, level, in0, in1, outs);
    ConcatEntries(outs);
    KeptIsAmong(input, SmallestSnapshot(db), BaseKeys(db.v, level));
    assert FromInputs(in0, in1, outs);
    MoveKeepsTree(db.v, v', level, in0, in1, outs);
    NewNumbersOnly(db.v, v', db.nextFile, level, in0, in1, outs);
  }

  lemma CompactKeepsInv(w: World, a: Action, w': World)
    requires Inv(w) && a.Compact? && Step(w, a, w')
    ensures Inv(w')
  {
    hide TreeInv, FilesInv, MemInv, HistoryInv, SnapshotsOk, ReadsHistory, Distinct, AllEntries, VersionEntries;
    hide SetOf, Read;
    hide InputsOk, Among, Built, Numbered, Tables, DisjointLevel, SortedRun, InputEntries;
    var db, v' := w.db, w'.db.v;
    TreeEntriesDistinct(w);
    InputsAmong(db.v, a.level, a.in0, a.in1);
    CompactKeepsTree(db, v', a.level, a.in0, a.in1, a.input, a.outs);
    CompactKeepsReadsIff(db, v', a.level, a.in0, a.in1, a.input, a.outs);
    var rest := SetOf(db.mem) + SetOf(Imm(db)) + Outside(db.v, a.level, a.in0, a.in1);
    CompactEntries(db, v', a.level, a.in0, a.in1, a.input, a.outs, rest);
    FewerEntries(w, w');
    SnapshotsUnchanged(db, w'.db);
  }

  lemma InvReads(w: World, w': World)
    requires Inv(w) && Inv(w') && w'.history == w.history && SmallestSnapshot(w'.db) == SmallestSnapshot(w.db)
    ensures TreeInv(w.db.v) && FilesInv(w.db.v, w.db.nextFile) && MemInv(w.db) && Distinct(AllEntries(w.db))
    ensures forall user, s: SequenceNumber :: SmallestSnapshot(w.db) <= s ==>
      Read(AllEntries(w'.db), user, s) == Read(AllEntries(w.db), user, s)
  {
    TreeEntriesDistinct(w);
    hide TreeInv, FilesInv, MemInv, SnapshotsOk, Distinct, AllEntries, Read, SmallestSnapshot;
  }

  lemma StepUncoversNothing(w: World, a: Action, w': World)
    requires a.Compact? && Compacted(w.db, w'.db.v, a.level, a.in0, a.in1, a.input, a.outs)
    requires w' == World(w.db.(v := w'.db.v, nextFile := w.db.nextFile + |a.outs|), w.history)
    ensures a.level + 1 < NUM_LEVELS && SmallestSnapshot(w'.db) == SmallestSnapshot(w.db)
    ensures AllEntries(w'.db) == AllEntries(w.db.(v := w'.db.v))
    ensures Step(w, a, w') <==> !Uncovers(w.db.v, Above(w.db), a.level, a.in1, a.input, SmallestSnapshot(w.db))
  {
    InputsAmong(w.db.v, a.level, a.in0, a.in1);
    hide Compacted, Uncovers, VersionEntries, SetOf;
  }

  /** Of all compactions, those that keep the invariant are exactly those that are steps. */
  lemma CompactKeepsInvIff(w: World, a: Action, w': World)
    requires Inv(w) && a.Compact? && Compacted(w.db, w'.db.v, a.level, a.in0, a.in1, a.input, a.outs)
    requires w' == World(w.db.(v := w'.db.v, nextFile := w.db.nextFile + |a.outs|), w.history)
    ensures Inv(w') <==> Step(w, a, w')
  {
    hide *;
    StepUncoversNothing(w, a, w');
    if Inv(w') {
      InvReads(w, w');
      CompactKeepsReadsIff(w.db, w'.db.v, a.level, a.in0, a.in1, a.input, a.outs);
    }
    if Step(w, a, w') {
      CompactKeepsInv(w, a, w');
    }
  }

  lemma FewerEntries(w: World, w': World)
    requires MemInv(w.db) && HistoryInv(w) && ReadsHistory(w) && w'.history == w.history
    requires w'.db == w.db.(v := w'.db.v, nextFile := w'.db.nextFile)
    requires VersionEntries(w'.db.v) <= VersionEntries(w.db.v)
    requires forall user, s: SequenceNumber :: SmallestSnapshot(w.db) <= s ==>
      Read(AllEntries(w.db.(v := w'.db.v)), user, s) == Read(AllEntries(w.db), user, s)
    ensures MemInv(w'.db) && HistoryInv(w') && ReadsHistory(w')
  {
    assert AllEntries(w'.db) == AllEntries(w.db.(v := w'.db.v));
  }

  lemma SnapshotsUnchanged(db: Db, db': Db)
    requires SnapshotsOk(db) && db'.snapshots == db.snapshots && db'.lastSequence == db.lastSequence
    ensures SnapshotsOk(db')
  {
  }

  /** Every step keeps the invariant. */
  lemma StepKeepsInv(w: World, a: Action, w': World)
    requires Inv(w) && Step(w, a, w')
    ensures Inv(w')
  {
    match a
    case Write(_, _, _) => WriteKeepsInv(w, a, w');
    case GetSnapshot => SnapshotKeepsInv(w, a, w');
    case ReleaseSnapshot(_) => SnapshotKeepsInv(w, a, w');
    case SwitchMemtable => SnapshotKeepsInv(w, a, w');
    case FlushMemtable(_, _) => FlushKeepsInv(w, a, w');
    case TrivialMove(_, _) => TrivialMoveKeepsInv(w, a, w');
    case Compact(_, _, _, _, _) => CompactKeepsInv(w, a, w');
  }

  // ---------------------------------------------------------------------------------------------
  // Whole runs

  ghost predicate IsPath(ws: seq<World>, actions: seq<Action>) {
    && |ws| == |actions| + 1
    && forall i :: 0 <= i < |actions| ==> Step(ws[i], actions[i], ws[i + 1])
  }

  ghost predicate IsRun(ws: seq<World>, actions: seq<Action>) {
    IsPath(ws, actions) && Init(ws[0])
  }

  lemma {:induction false} PathsKeepInv(ws: seq<World>, actions: seq<Action>, n: nat)
    requires IsPath(ws, actions) && n < |ws| && Inv(ws[0])
    ensures Inv(ws[n])
  {
    hide Inv, Step;
    if n > 0 {
      PathsKeepInv(ws, actions, n - 1);
      StepKeepsInv(ws[n - 1], actions[n - 1], ws[n]);
    }
  }

  lemma RunsKeepInv(ws: seq<World>, actions: seq<Action>, n: nat)
    requires IsRun(ws, actions) && n < |ws|
    ensures Inv(ws[n])
  {
    hide Inv, Step, Init;
    InitHolds(ws[0]);
    PathsKeepInv(ws, actions, n);
  }

  /** What has been read so far at a number no higher than the last one given out stays as it is. */
  lemma StepKeepsPast(w: World, a: Action, w': World, user: UserKey, s: SequenceNumber)
    requires Inv(w) && Inv(w') && Step(w, a, w') && s <= w.db.lastSequence
    ensures Read(w'.history, user, s) == Read(w.history, user, s) && s <= w'.db.lastSequence
  {
    hide TreeInv, FilesInv, MemInv, AllEntries, Read, ReadsHistory, SnapshotsOk, LevelOk, Built, Compacted, InputsOk;
    hide Uncovers, SmallestSnapshot;
    if a.Write? {
      var e := Entry(InternalKey(a.user, w.db.lastSequence + 1, a.kind), a.value);
      ReadAfterWrite(w.history, e, user, s);
    }
  }

  lemma {:induction false} PathKeepsPast(ws: seq<World>, actions: seq<Action>, i: nat, j: nat, user: UserKey,
                                         s: SequenceNumber)
    requires IsPath(ws, actions) && i <= j < |ws| && Inv(ws[0]) && s <= ws[i].db.lastSequence
    ensures Read(ws[j].history, user, s) == Read(ws[i].history, user, s) && s <= ws[j].db.lastSequence
  {
    hide Inv, Step, Read;
    if i < j {
      PathKeepsPast(ws, actions, i, j - 1, user, s);
      PathsKeepInv(ws, actions, j - 1);
      PathsKeepInv(ws, actions, j);
      StepKeepsPast(ws[j - 1], actions[j - 1], ws[j], user, s);
    }
  }

  lemma SmallestIsLeast(db: Db, s: SequenceNumber)
    requires SnapshotsOk(db) && s in db.snapshots
    ensures SmallestSnapshot(db) <= s
  {
  }

  /** A snapshot shows the store as it was when the snapshot was taken, whatever is written, flushed, moved
      or compacted, and whichever other snapshots are released, until it is released itself. */
  lemma SnapshotSeesItsMoment(ws: seq<World>, actions: seq<Action>, i: nat, j: nat, user: UserKey,
                              s: SequenceNumber)
    requires IsRun(ws, actions) && i <= j < |ws|
    requires s == ws[i].db.lastSequence && (s in ws[j].db.snapshots || s == ws[j].db.lastSequence)
    ensures Read(AllEntries(ws[j].db), user, s) == Read(ws[i].history, user, s)
  {
    RunsKeepInv(ws, actions, j);
    InitHolds(ws[0]);
    PathKeepsPast(ws, actions, i, j, user, s);
    SnapshotReads(ws[j], user, s);
  }

  lemma SnapshotReads(w: World, user: UserKey, s: SequenceNumber)
    requires Inv(w) && (s in w.db.snapshots || s == w.db.lastSequence)
    ensures Read(AllEntries(w.db), user, s) == Read(w.history, user, s)
  {
    hide TreeInv, FilesInv, MemInv, HistoryInv, AllEntries, Read;
    if s in w.db.snapshots {
      SmallestIsLeast(w.db, s);
    }
  }

  /** The bound below which nobody reads any more: the oldest snapshot held, or else the last number given out. */
  ghost predicate OldestNeeded(db: Db, s: SequenceNumber) {
    if db.snapshots == [] then s == db.lastSequence
    else s in db.snapshots && forall o :: o in db.snapshots ==> s <= o
  }

  lemma OldestIsSmallest(db: Db, s: SequenceNumber)
    requires SnapshotsOk(db) && OldestNeeded(db, s)
    ensures s == SmallestSnapshot(db)
  {
    if db.snapshots != [] {
      assert db.snapshots[0] in db.snapshots;
      SmallestIsLeast(db, s);
    }
  }

  /** DBImpl::Get: the memtable, then the one being flushed, then the tree. */
  method Get(db: Db, ghost w: World, user: UserKey, s: SequenceNumber) returns (r: Option<Bytes>)
    requires Inv(w) && w.db == db && SmallestSnapshot(db) <= s
    ensures r == Read(w.history, user, s)
  {
    TreeEntriesDistinct(w);
    RunGetFindsNewest(db.mem, user, s);
    var found := RunGet(db.mem, user, s);
    if found.Some? {
      FoundIn(db, SetOf(db.mem), SetOf(Imm(db)) + VersionEntries(db.v), {}, user, s, found.value);
      return Shown(found.value);
    }
    var imm := Imm(db);
    RunGetFindsNewest(imm, user, s);
    found := RunGet(imm, user, s);
    if found.Some? {
      FoundIn(db, SetOf(imm), VersionEntries(db.v), SetOf(db.mem), user, s, found.value);
      return Shown(found.value);
    }
    r := Tree.Get(db.v, user, s);
    OnlyInTree(db, user, s);
  }

  lemma FoundIn(db: Db, here: set<Entry>, below: set<Entry>, above: set<Entry>, user: UserKey, s: SequenceNumber,
                e: Entry)
    requires Distinct(AllEntries(db)) && AllEntries(db) == above + here + below
    requires Newer(here, below) && IsNewest(here, user, s, e)
    requires forall o :: o in above ==> !Visible(o, user, s)
    ensures Read(AllEntries(db), user, s) == Shown(e)
  {
    forall o | o in AllEntries(db) && Visible(o, user, s)
      ensures o.k.sn <= e.k.sn
    {
    }
    ReadOfNewest(AllEntries(db), user, s, e);
  }

  lemma OnlyInTree(db: Db, user: UserKey, s: SequenceNumber)
    requires Distinct(AllEntries(db))
    requires forall o :: o in SetOf(db.mem) + SetOf(Imm(db)) ==> !Visible(o, user, s)
    ensures Read(AllEntries(db), user, s) == Read(VersionEntries(db.v), user, s)
  {
    var tree := VersionEntries(db.v);
    if exists o :: o in tree && Visible(o, user, s) {
      var n := NewestExists(tree, user, s);
      ReadOfNewest(tree, user, s, n);
      ReadOfNewest(AllEntries(db), user, s, n);
    } else {
      ReadNone(tree, user, s);
      ReadNone(AllEntries(db), user, s);
    }
  }
}
