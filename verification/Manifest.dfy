/** The descriptor log (LevelDB db/version_set.cc): a snapshot of a version and the edits made since then,
    replayed through one builder when the store is opened, give back the version they led to. */
module Manifest {
  import opened DbFormat
  import opened Tree
  import opened Selection
  import opened Compaction
  import opened Builder
  import opened Boundary
  import opened Database
  import opened Background

  const NO_FILES: Version := [[], [], [], [], [], [], []]

  // ---------------------------------------------------------------------------------------------
  // What is logged

  /** An edit that makes a version from nothing. */
  ghost predicate IsSnapshot(edit: Edit, v: Version) {
    && edit.deleted == [] && AddsNewNumbers(NO_FILES, edit)
    && forall l :: 0 <= l < NUM_LEVELS ==> AddedFiles(edit, |edit.added|, l) == FileSet(v[l])
  }

  /** The edit of an action that changes the version; CompactMemTable logs one without files for an empty memtable. */
  function EditOf(db: Db, a: Action): seq<Edit> {
    match a
    case FlushMemtable(pick, size) =>
      if Imm(db) == [] then [Edit([], [])] else [Edit([], [(pick, OutputFile(db.nextFile, size, Imm(db)))])]
    case TrivialMove(level, file) => [MoveEdit(level, [file], [], [file])]
    case Compact(level, in0, in1, _, outs) => [MoveEdit(level, in0, in1, outs)]
    case _ => []
  }

  /** The edits of the first n actions. */
  function EditsOf(ws: seq<World>, actions: seq<Action>, n: nat): seq<Edit>
    requires n <= |actions| < |ws|
  {
    if n == 0 then [] else EditsOf(ws, actions, n - 1) + EditOf(ws[n - 1].db, actions[n - 1])
  }

  /** The descriptor log when n actions have been taken since it was begun. */
  ghost predicate IsManifest(records: seq<Edit>, ws: seq<World>, actions: seq<Action>, n: nat)
    requires n <= |actions| < |ws|
  {
    records != [] && IsSnapshot(records[0], ws[0].db.v) && records[1..] == EditsOf(ws, actions, n)
  }

  // ---------------------------------------------------------------------------------------------
  // WriteSnapshot

  lemma AddedToLevel(edit: Edit, f: File, level: nat, l: nat)
    ensures var more := Edit(edit.deleted, edit.added + [(level, f)]);
            AddedFiles(more, |more.added|, l) == AddedFiles(edit, |edit.added|, l) + if l == level then {f} else {}
  {
    SameAdded(edit, Edit(edit.deleted, edit.added + [(level, f)]), |edit.added|, l);
  }

  /** The files of a level that are listed when the loop is at the i-th file of `level`. */
  function Listed(v: Version, level: nat, i: nat, l: nat): seq<File>
    requires level < NUM_LEVELS && i <= |v[level]| && l < NUM_LEVELS
  {
    if l < level then v[l] else if l == level then v[l][..i] else []
  }

  ghost predicate Lists(edit: Edit, v: Version, level: nat, i: nat)
    requires level < NUM_LEVELS && i <= |v[level]|
  {
    && edit.deleted == [] && ValidEdit(edit)
    && (forall l :: 0 <= l < NUM_LEVELS ==> AddedFiles(edit, |edit.added|, l) == FileSet(Listed(v, level, i, l)))
    && forall j, k :: 0 <= j < k < |edit.added| && edit.added[j].0 == edit.added[k].0 ==>
         edit.added[j].1.number != edit.added[k].1.number
  }

  lemma ListedOneMore(v: Version, level: nat, i: nat, l: nat)
    requires level < NUM_LEVELS && i < |v[level]| && l < NUM_LEVELS
    ensures Listed(v, level, i + 1, l) == Listed(v, level, i, l) + if l == level then [v[level][i]] else []
  {
  }

  /** A file that comes later in a level has another number. */
  lemma NewInLevel(v: Version, nextFile: nat, level: nat, i: nat)
    requires FilesInv(v, nextFile) && level < NUM_LEVELS && i < |v[level]|
    ensures forall f :: f in v[level][..i] ==> f.number != v[level][i].number
  {
    forall f | f in v[level][..i]
      ensures f.number != v[level][i].number
    {
      var j :| 0 <= j < i && v[level][j] == f;
      BySmallestIsStrictOrder(f, f, f);
      assert BySmallest(v[level][j], v[level][i]);
    }
  }

  lemma FilesJoin(a: seq<File>, b: seq<File>)
    ensures FileSet(a + b) == FileSet(a) + FileSet(b)
  {
  }

  lemma OneFileSet(f: File)
    ensures FileSet([f]) == {f} && FileSet([]) == {}
  {
  }

  lemma FilesOneMore(edit: Edit, v: Version, level: nat, i: nat)
    requires level < NUM_LEVELS && i < |v[level]| && Lists(edit, v, level, i)
    ensures var more := Edit([], edit.added + [(level, v[level][i])]);
            forall l :: 0 <= l < NUM_LEVELS ==> AddedFiles(more, |more.added|, l) == FileSet(Listed(v, level, i + 1, l))
  {
    hide AddedFiles, FileSet, Listed;
    var f := v[level][i];
    var more := Edit([], edit.added + [(level, f)]);
    forall l | 0 <= l < NUM_LEVELS
      ensures AddedFiles(more, |more.added|, l) == FileSet(Listed(v, level, i + 1, l))
    {
      AddedToLevel(edit, f, level, l);
      ListedOneMore(v, level, i, l);
      FilesJoin(Listed(v, level, i, l), if l == level then [f] else []);
      OneFileSet(f);
    }
  }

  lemma {:induction false} IsAdded(edit: Edit, n: nat, j: nat)
    requires j < n <= |edit.added|
    ensures edit.added[j].1 in AddedFiles(edit, n, edit.added[j].0)
  {
    if j < n - 1 {
      IsAdded(edit, n - 1, j);
    }
  }

  lemma NumbersOneMore(edit: Edit, v: Version, nextFile: nat, level: nat, i: nat)
    requires FilesInv(v, nextFile) && level < NUM_LEVELS && i < |v[level]| && Lists(edit, v, level, i)
    ensures forall j :: 0 <= j < |edit.added| && edit.added[j].0 == level ==>
              edit.added[j].1.number != v[level][i].number
  {
    NewInLevel(v, nextFile, level, i);
    assert Listed(v, level, i, level) == v[level][..i];
    hide AddedFiles, FilesInv;
    forall j | 0 <= j < |edit.added| && edit.added[j].0 == level
      ensures edit.added[j].1 in v[level][..i]
    {
      IsAdded(edit, |edit.added|, j);
    }
  }

  lemma ListsOneMore(edit: Edit, v: Version, nextFile: nat, level: nat, i: nat)
    requires FilesInv(v, nextFile) && level < NUM_LEVELS && i < |v[level]| && Lists(edit, v, level, i)
    ensures Lists(Edit([], edit.added + [(level, v[level][i])]), v, level, i + 1)
  {
    NumbersOneMore(edit, v, nextFile, level, i);
    FilesOneMore(edit, v, level, i);
    hide FilesInv, AddedFiles, FileSet, Listed;
  }

  lemma ListsNext(edit: Edit, v: Version, level: nat)
    requires level + 1 < NUM_LEVELS && Lists(edit, v, level, |v[level]|)
    ensures Lists(edit, v, level + 1, 0)
  {
    hide AddedFiles, FileSet;
    forall l | 0 <= l < NUM_LEVELS
      ensures Listed(v, level + 1, 0, l) == Listed(v, level, |v[level]|, l)
    {
    }
  }

  lemma ListsNone(v: Version)
    ensures Lists(Edit([], []), v, 0, 0)
  {
  }

  lemma ListsAll(edit: Edit, v: Version)
    requires Lists(edit, v, NUM_LEVELS - 1, |v[NUM_LEVELS - 1]|)
    ensures IsSnapshot(edit, v)
  {
    hide AddedFiles;
    assert forall l :: 0 <= l < NUM_LEVELS ==> Listed(v, NUM_LEVELS - 1, |v[NUM_LEVELS - 1]|, l) == v[l];
  }

  /** WriteSnapshot: all files, level by level. */
  method WriteSnapshot(v: Version, ghost nextFile: nat) returns (edit: Edit)
    requires FilesInv(v, nextFile)
    ensures IsSnapshot(edit, v)
  {
    hide FilesInv, Lists, IsSnapshot;
    edit := Edit([], []);
    ListsNone(v);
    var level := 0;
    while level < NUM_LEVELS
      invariant level <= NUM_LEVELS
      invariant if level < NUM_LEVELS then Lists(edit, v, level, 0)
                else Lists(edit, v, NUM_LEVELS - 1, |v[NUM_LEVELS - 1]|)
    {
      for i := 0 to |v[level]|
        invariant Lists(edit, v, level, i)
      {
        ListsOneMore(edit, v, nextFile, level, i);
        edit := Edit([], edit.added + [(level, v[level][i])]);
      }
      if level + 1 < NUM_LEVELS {
        ListsNext(edit, v, level);
      }
      level := level + 1;
    }
    ListsAll(edit, v);
  }

  // ---------------------------------------------------------------------------------------------
  // The edits of a whole run

  /** The edits lead to a version, and a file number has only been on the levels down to where its file is. */
  ghost predicate Replays(edits: seq<Edit>, v: Version, nextFile: nat) {
    && NeverReadded(NO_FILES, edits)
    && (forall l :: 0 <= l < NUM_LEVELS ==> ApplyAll({}, edits, |edits|, l) == FileSet(v[l]))
    && OnlyDown(edits, v, nextFile)
  }

  ghost predicate OnlyDown(edits: seq<Edit>, v: Version, nextFile: nat) {
    forall l, f :: 0 <= l < NUM_LEVELS && f in AllAdded(edits, |edits|, l) ==>
      f.number < nextFile && forall m, g :: 0 <= m < NUM_LEVELS && g in v[m] && g.number == f.number ==> l <= m
  }

  /** What an edit adds has a new number, or comes from the level above. */
  ghost predicate NewOrDown(edit: Edit, v: Version, nextFile: nat) {
    forall i :: 0 <= i < |edit.added| ==>
      || nextFile <= edit.added[i].1.number
      || (0 < edit.added[i].0 <= NUM_LEVELS && edit.added[i].1 in v[edit.added[i].0 - 1])
  }

  lemma {:induction false} SameBefore(edits: seq<Edit>, more: seq<Edit>, files: set<File>, n: nat, l: nat)
    requires n <= |edits| && edits <= more
    ensures ApplyAll(files, more, n, l) == ApplyAll(files, edits, n, l) && AllAdded(more, n, l) == AllAdded(edits, n, l)
  {
    if n > 0 {
      SameBefore(edits, more, files, n - 1, l);
    }
  }

  lemma {:induction false} AddedIsAdded(edit: Edit, n: nat, l: nat, f: File) returns (i: nat)
    requires n <= |edit.added| && f in AddedFiles(edit, n, l)
    ensures i < n && edit.added[i] == (l, f)
  {
    if edit.added[n - 1] == (l, f) {
      i := n - 1;
    } else {
      i := AddedIsAdded(edit, n - 1, l, f);
    }
  }

  /** No number comes back to a level. */
  lemma NeverBack(edits: seq<Edit>, edit: Edit, v: Version, nextFile: nat, i: nat)
    requires OnlyDown(edits, v, nextFile) && NewOrDown(edit, v, nextFile) && ValidEdit(edit) && i < |edit.added|
    ensures NumberFree(AllAdded(edits, |edits|, edit.added[i].0), edit.added[i].1.number)
  {
    var (l, f) := edit.added[i];
    forall h | h in AllAdded(edits, |edits|, l)
      ensures h.number != f.number
    {
    }
  }

  lemma StillNew(edits: seq<Edit>, more: seq<Edit>, n: nat)
    requires n < |edits| && edits <= more && ValidEdit(edits[n]) && NewNumbers(NO_FILES, edits, n)
    ensures NewNumbers(NO_FILES, more, n)
  {
    hide AllAdded, NumberFree, FileSet, NO_FILES;
    assert more[n] == edits[n];
    forall i | 0 <= i < |more[n].added|
      ensures NumberFree(AllAdded(more, n, more[n].added[i].0), more[n].added[i].1.number)
    {
      SameBefore(edits, more, {}, n, more[n].added[i].0);
    }
  }

  /** The numbers that an edit adds were not added to their levels by the edits before. */
  ghost predicate NotAdded(edits: seq<Edit>, edit: Edit) {
    && ValidEdit(edit)
    && (forall i :: 0 <= i < |edit.added| ==>
          NumberFree(AllAdded(edits, |edits|, edit.added[i].0), edit.added[i].1.number))
    && forall i, j :: 0 <= i < j < |edit.added| && edit.added[i].0 == edit.added[j].0 ==>
         edit.added[i].1.number != edit.added[j].1.number
  }

  lemma LastIsNew(edits: seq<Edit>, edit: Edit)
    requires NotAdded(edits, edit)
    ensures NewNumbers(NO_FILES, edits + [edit], |edits|)
  {
    var more := edits + [edit];
    hide AllAdded;
    forall i | 0 <= i < |edit.added|
      ensures NumberFree(FileSet(NO_FILES[edit.added[i].0]), edit.added[i].1.number)
      ensures NumberFree(AllAdded(more, |edits|, edit.added[i].0), edit.added[i].1.number)
    {
      SameBefore(edits, more, {}, |edits|, edit.added[i].0);
    }
    hide NO_FILES, FileSet, NumberFree;
  }

  lemma NeverReaddedOneMore(edits: seq<Edit>, edit: Edit)
    requires NeverReadded(NO_FILES, edits) && NotAdded(edits, edit)
    ensures NeverReadded(NO_FILES, edits + [edit])
  {
    hide NewNumbers, NO_FILES;
    LastIsNew(edits, edit);
    forall n | 0 <= n < |edits|
      ensures NewNumbers(NO_FILES, edits + [edit], n)
    {
      StillNew(edits, edits + [edit], n);
    }
  }

  lemma ReplayOneMore(edits: seq<Edit>, edit: Edit, v: Version, v': Version, nextFile: nat, nextFile': nat)
    requires Replays(edits, v, nextFile) && NewOrDown(edit, v, nextFile) && AddsNewNumbers(v, edit)
    requires Built(v, edit, v')
    requires FilesInv(v', nextFile') && nextFile <= nextFile'
    ensures Replays(edits + [edit], v', nextFile')
  {
    hide NeverReadded, FilesInv;
    forall i | 0 <= i < |edit.added|
      ensures NumberFree(AllAdded(edits, |edits|, edit.added[i].0), edit.added[i].1.number)
    {
      NeverBack(edits, edit, v, nextFile, i);
    }
    NeverReaddedOneMore(edits, edit);
    forall l | 0 <= l < NUM_LEVELS
      ensures ApplyAll({}, edits + [edit], |edits| + 1, l) == FileSet(v'[l])
    {
      SameBefore(edits, edits + [edit], {}, |edits|, l);
    }
    StillDown(edits, edit, v, v', nextFile, nextFile');
  }

  lemma FromBefore(edit: Edit, v: Version, v': Version, m: nat, g: File)
    requires Built(v, edit, v') && m < NUM_LEVELS && g in v'[m]
    ensures g in v[m] || g in AddedFiles(edit, |edit.added|, m)
  {
    assert g in FileSet(v'[m]);
  }

  lemma StillDown(edits: seq<Edit>, edit: Edit, v: Version, v': Version, nextFile: nat, nextFile': nat)
    requires OnlyDown(edits, v, nextFile) && NewOrDown(edit, v, nextFile) && Built(v, edit, v')
    requires FilesInv(v', nextFile') && nextFile <= nextFile'
    ensures OnlyDown(edits + [edit], v', nextFile')
  {
    var more := edits + [edit];
    forall l, f | 0 <= l < NUM_LEVELS && f in AllAdded(more, |more|, l)
      ensures f.number < nextFile'
      ensures forall m, g :: 0 <= m < NUM_LEVELS && g in v'[m] && g.number == f.number ==> l <= m
    {
      SameBefore(edits, more, {}, |edits|, l);
      if f in AddedFiles(edit, |edit.added|, l) {
        AddedIsThere(edit, v, v', nextFile', l, f);
      } else {
        OldIsAbove(edits, edit, v, v', nextFile, l, f);
      }
    }
  }

  lemma AddedIsThere(edit: Edit, v: Version, v': Version, nextFile': nat, l: nat, f: File)
    requires Built(v, edit, v') && FilesInv(v', nextFile') && l < NUM_LEVELS && f in AddedFiles(edit, |edit.added|, l)
    ensures f.number < nextFile' && forall m, g :: 0 <= m < NUM_LEVELS && g in v'[m] && g.number == f.number ==> l <= m
  {
    assert f in FileSet(v'[l]);
  }

  lemma OldIsAbove(edits: seq<Edit>, edit: Edit, v: Version, v': Version, nextFile: nat, l: nat, f: File)
    requires OnlyDown(edits, v, nextFile) && NewOrDown(edit, v, nextFile) && Built(v, edit, v')
    requires l < NUM_LEVELS && f in AllAdded(edits, |edits|, l)
    ensures f.number < nextFile && forall m, g :: 0 <= m < NUM_LEVELS && g in v'[m] && g.number == f.number ==> l <= m
  {
    forall m, g | 0 <= m < NUM_LEVELS && g in v'[m] && g.number == f.number
      ensures l <= m
    {
      FromBefore(edit, v, v', m, g);
      if g !in v[m] {
        var i := AddedIsAdded(edit, |edit.added|, m, g);
      }
    }
  }

  // ---------------------------------------------------------------------------------------------
  // Every run

  lemma OneEdit(edit: Edit, l: nat)
    requires edit.deleted == []
    ensures ApplyAll({}, [edit], 1, l) == AddedFiles(edit, |edit.added|, l) == AllAdded([edit], 1, l)
  {
    hide AddedFiles;
    assert AllAdded([edit], 0, l) == {} && ApplyAll({}, [edit], 0, l) == {};
  }

  lemma SnapshotIsNew(edit: Edit, v: Version)
    requires IsSnapshot(edit, v)
    ensures NeverReadded(NO_FILES, [edit])
  {
    hide AddedFiles, FileSet;
    assert NotAdded([], edit) by {
      NothingAdded(edit);
    }
    hide *;
    NeverReaddedOneMore([], edit);
    assert [] + [edit] == [edit];
  }

  lemma NothingAdded(edit: Edit)
    ensures forall i :: 0 <= i < |edit.added| ==>
              NumberFree(AllAdded([], 0, edit.added[i].0), edit.added[i].1.number)
  {
  }

  lemma InLevel(v: Version, nextFile: nat, l: nat, f: File)
    requires FilesInv(v, nextFile) && l < NUM_LEVELS && f in FileSet(v[l])
    ensures f.number < nextFile
    ensures forall m, g :: 0 <= m < NUM_LEVELS && g in v[m] && g.number == f.number ==> l <= m
  {
    hide SortedBySmallest;
  }

  lemma SnapshotReplays(edit: Edit, v: Version, nextFile: nat)
    requires IsSnapshot(edit, v) && FilesInv(v, nextFile)
    ensures Replays([edit], v, nextFile)
  {
    SnapshotIsNew(edit, v);
    hide NeverReadded, FilesInv, AddsNewNumbers, AddedFiles, AllAdded, ApplyAll, FileSet;
    forall l | 0 <= l < NUM_LEVELS
      ensures ApplyAll({}, [edit], 1, l) == FileSet(v[l]) == AllAdded([edit], 1, l)
    {
      OneEdit(edit, l);
    }
    forall l, f | 0 <= l < NUM_LEVELS && f in AllAdded([edit], 1, l)
      ensures f.number < nextFile
      ensures forall m, g :: 0 <= m < NUM_LEVELS && g in v[m] && g.number == f.number ==> l <= m
    {
      InLevel(v, nextFile, l, f);
    }
  }

  lemma InvNumbers(w: World)
    requires Inv(w)
    ensures FilesInv(w.db.v, w.db.nextFile)
  {
  }

  lemma NothingLogged(w: World, a: Action, w': World)
    requires Step(w, a, w') && EditOf(w.db, a) == []
    ensures w'.db.v == w.db.v && w'.db.nextFile == w.db.nextFile
  {
  }

  /** What an edit is like that was logged for a step. */
  ghost predicate LoggedFor(edit: Edit, db: Db, db': Db) {
    && AddsNewNumbers(db.v, edit) && NewOrDown(edit, db.v, db.nextFile) && Built(db.v, edit, db'.v)
    && db.nextFile <= db'.nextFile
  }

  lemma LoggedWithoutFiles(db: Db, db': Db)
    requires FilesInv(db.v, db.nextFile) && db'.v == db.v && db'.nextFile == db.nextFile
    ensures LoggedFor(Edit([], []), db, db')
  {
    var none := Edit([], []);
    forall l | 0 <= l < NUM_LEVELS
      ensures ApplyEdit(FileSet(db.v[l]), none, l) == FileSet(db.v[l])
    {
    }
    hide FileSet;
  }

  lemma LoggedTable(db: Db, db': Db, pick: nat, f: File)
    requires FilesInv(db.v, db.nextFile) && pick < NUM_LEVELS && f.number == db.nextFile <= db'.nextFile
    requires Built(db.v, Edit([], [(pick, f)]), db'.v)
    ensures LoggedFor(Edit([], [(pick, f)]), db, db')
  {
    NumbersAreFree(db.v, db.nextFile, pick, f.number);
    hide FilesInv, NumberFree, Built;
  }

  lemma FlushIsLogged(w: World, a: Action, w': World)
    requires FilesInv(w.db.v, w.db.nextFile) && a.FlushMemtable? && Step(w, a, w')
    ensures |EditOf(w.db, a)| == 1 && LoggedFor(EditOf(w.db, a)[0], w.db, w'.db)
  {
    hide FilesInv, Built, LoggedFor, OutputFile;
    if Imm(w.db) == [] {
      LoggedWithoutFiles(w.db, w'.db);
    } else {
      var f := OutputFile(w.db.nextFile, a.size, Imm(w.db));
      OutputNumber(w.db.nextFile, a.size, Imm(w.db));
      LoggedTable(w.db, w'.db, a.pick, f);
    }
  }

  lemma OutputNumber(number: nat, size: nat, es: seq<Entry>)
    requires es != []
    ensures OutputFile(number, size, es).number == number
  {
  }

  lemma MoveIsLogged(w: World, a: Action, w': World)
    requires FilesInv(w.db.v, w.db.nextFile) && a.TrivialMove? && Step(w, a, w')
    ensures |EditOf(w.db, a)| == 1 && LoggedFor(EditOf(w.db, a)[0], w.db, w'.db)
  {
    InputsAmong(w.db.v, a.level, [a.file], []);
    assert a.file in [a.file];
    hide FilesInv, Built, AddsNewNumbers, InputsOk;
    MovedFileIsNew(w.db.v, w.db.nextFile, a.level, a.file);
  }

  lemma CompactionIsLogged(w: World, a: Action, w': World)
    requires FilesInv(w.db.v, w.db.nextFile) && a.Compact? && Step(w, a, w')
    ensures |EditOf(w.db, a)| == 1 && LoggedFor(EditOf(w.db, a)[0], w.db, w'.db)
  {
    hide FilesInv, Built, AddsNewNumbers, InputsOk, Uncovers, SortedRun, Tables, DisjointLevel, IsOutput;
    InputsAmong(w.db.v, a.level, a.in0, a.in1);
    OutputsAddNewNumbers(w.db.v, w.db.nextFile, a.level, a.in0, a.in1, a.outs);
  }

  /** What is logged is what the step applies. */
  lemma StepIsLogged(w: World, a: Action, w': World)
    requires FilesInv(w.db.v, w.db.nextFile) && Step(w, a, w') && EditOf(w.db, a) != []
    ensures |EditOf(w.db, a)| == 1 && LoggedFor(EditOf(w.db, a)[0], w.db, w'.db)
  {
    hide Step, FilesInv, LoggedFor;
    match a
    case FlushMemtable(_, _) => FlushIsLogged(w, a, w');
    case TrivialMove(_, _) => MoveIsLogged(w, a, w');
    case Compact(_, _, _, _, _) => CompactionIsLogged(w, a, w');
  }

  lemma StepReplays(w: World, a: Action, w': World, edits: seq<Edit>)
    requires Inv(w) && Step(w, a, w') && Replays(edits, w.db.v, w.db.nextFile)
    ensures Replays(edits + EditOf(w.db, a), w'.db.v, w'.db.nextFile)
  {
    hide Inv, Replays, Step, EditOf, FilesInv, AddsNewNumbers, NewOrDown, Built;
    StepKeepsInv(w, a, w');
    InvNumbers(w);
    InvNumbers(w');
    var logged := EditOf(w.db, a);
    if logged == [] {
      NothingLogged(w, a, w');
      assert edits + logged == edits;
    } else {
      StepIsLogged(w, a, w');
      assert logged == [logged[0]];
      ReplayOneMore(edits, logged[0], w.db.v, w'.db.v, w.db.nextFile, w'.db.nextFile);
    }
  }

  /** The records of a run replay to the version it has come to, and no record adds a file number to a level
      where it has been before. */
  lemma {:induction false} RunReplays(records: seq<Edit>, ws: seq<World>, actions: seq<Action>, n: nat)
    requires IsPath(ws, actions) && n <= |actions| && Inv(ws[0]) && IsManifest(records, ws, actions, n)
    ensures Replays(records, ws[n].db.v, ws[n].db.nextFile)
    decreases n
  {
    hide Inv, Replays, Step, EditOf, IsSnapshot;
    assert records == [records[0]] + records[1..];
    if n == 0 {
      assert records == [records[0]];
      InvNumbers(ws[0]);
      SnapshotReplays(records[0], ws[0].db.v, ws[0].db.nextFile);
    } else {
      var before := [records[0]] + EditsOf(ws, actions, n - 1);
      RunReplays(before, ws, actions, n - 1);
      PathsKeepInv(ws, actions, n - 1);
      StepReplays(ws[n - 1], actions[n - 1], ws[n], before);
      assert before + EditOf(ws[n - 1].db, actions[n - 1]) == records;
    }
  }

  /** At most one record is logged at a time, so every prefix of the log was once the whole log. */
  lemma {:induction false} EveryPrefix(records: seq<Edit>, ws: seq<World>, actions: seq<Action>, n: nat, k: nat)
    returns (i: nat)
    requires n <= |actions| < |ws| && IsManifest(records, ws, actions, n) && 0 < k <= |records|
    ensures i <= n && IsManifest(records[..k], ws, actions, i)
    decreases n
  {
    hide EditOf, IsSnapshot;
    if k == |records| {
      assert records[..k] == records;
      return n;
    }
    assert n > 0;
    var last := EditOf(ws[n - 1].db, actions[n - 1]);
    AtMostOne(ws[n - 1].db, actions[n - 1]);
    var before := records[..|records| - |last|];
    assert before[1..] == EditsOf(ws, actions, n - 1);
    assert before[0] == records[0];
    i := EveryPrefix(before, ws, actions, n - 1, k);
    assert before[..k] == records[..k];
  }

  lemma AtMostOne(db: Db, a: Action)
    ensures |EditOf(db, a)| <= 1
  {
  }

  lemma BothEmpty(a: seq<File>, b: seq<File>)
    requires FileSet(a) == FileSet(b)
    ensures a == [] <==> b == []
  {
    if a != [] {
      assert a[0] in FileSet(a);
    }
    if b != [] {
      assert b[0] in FileSet(b);
    }
  }

  lemma {:induction false} SameFiles(a: seq<File>, b: seq<File>)
    requires SortedBySmallest(a) && SortedBySmallest(b) && FileSet(a) == FileSet(b)
    ensures a == b
  {
    BothEmpty(a, b);
    if a != [] {
      SameFirst(a, b);
      SameAfterFirst(a, b);
      SameFiles(a[1..], b[1..]);
    }
  }

  lemma SameFirst(a: seq<File>, b: seq<File>)
    requires SortedBySmallest(a) && SortedBySmallest(b) && FileSet(a) == FileSet(b) && a != [] && b != []
    ensures a[0] == b[0]
  {
    assert a[0] in FileSet(b) && b[0] in FileSet(a);
    var i :| 0 <= i < |a| && a[i] == b[0];
    var j :| 0 <= j < |b| && b[j] == a[0];
    if i > 0 && j > 0 {
      BySmallestIsStrictOrder(a[0], b[0], a[0]);
    }
  }

  lemma SameAfterFirst(a: seq<File>, b: seq<File>)
    requires SortedBySmallest(a) && SortedBySmallest(b) && FileSet(a) == FileSet(b) && a != [] && b != []
    requires a[0] == b[0]
    ensures FileSet(a[1..]) == FileSet(b[1..])
  {
    FilesButFirst(a);
    FilesButFirst(b);
  }

  lemma FilesButFirst(a: seq<File>)
    requires SortedBySmallest(a) && a != []
    ensures FileSet(a[1..]) == FileSet(a) - {a[0]}
  {
    BySmallestIsStrictOrder(a[0], a[0], a[0]);
    assert a == [a[0]] + a[1..];
  }

  lemma SameVersion(a: Version, b: Version)
    requires forall l :: 0 <= l < NUM_LEVELS ==> SortedBySmallest(a[l]) && SortedBySmallest(b[l])
    requires forall l :: 0 <= l < NUM_LEVELS ==> FileSet(a[l]) == FileSet(b[l])
    ensures a == b
  {
    hide SortedBySmallest, FileSet;
    forall l | 0 <= l < NUM_LEVELS
      ensures a[l] == b[l]
    {
      SameFiles(a[l], b[l]);
    }
  }

  // ---------------------------------------------------------------------------------------------
  // Recover

  lemma NothingSorted()
    ensures forall l :: 0 <= l < NUM_LEVELS ==> SortedBySmallest(NO_FILES[l]) && FileSet(NO_FILES[l]) == {}
  {
  }

  lemma ReplayedVersion(records: seq<Edit>, v: Version, w: World)
    requires Inv(w) && Replays(records, w.db.v, w.db.nextFile)
    requires forall l :: 0 <= l < NUM_LEVELS ==>
      FileSet(v[l]) == ApplyAll(FileSet(NO_FILES[l]), records, |records|, l) && SortedBySmallest(v[l])
    ensures v == w.db.v
  {
    InvNumbers(w);
    NothingSorted();
    hide Inv, SortedBySmallest, NeverReadded, OnlyDown, NO_FILES, FileSet, ApplyAll;
    SameVersion(v, w.db.v);
  }

  /** VersionSet::Recover, of what is left of a descriptor log: one builder applies all records to a version
      without files, and what it saves is the version of the store at the last of these records. */
  method Recover(records: seq<Edit>, ghost all: seq<Edit>, ghost ws: seq<World>, ghost actions: seq<Action>)
    returns (v: Version, ghost i: nat)
    requires IsPath(ws, actions) && Inv(ws[0]) && IsManifest(all, ws, actions, |actions|)
    requires records != [] && records <= all
    ensures i <= |actions| && v == ws[i].db.v && IsManifest(records, ws, actions, i)
    ensures records == all ==> v == ws[|actions|].db.v
  {
    hide Inv, Step, IsManifest, NeverReadded, Built, ApplyAll, SortedBySmallest, NO_FILES;
    i := EveryPrefix(all, ws, actions, |actions|, |records|);
    assert all[..|records|] == records;
    RunReplays(records, ws, actions, i);
    PathsKeepInv(ws, actions, i);
    NothingSorted();
    v := Build(NO_FILES, records);
    ReplayedVersion(records, v, ws[i]);
    if records == all {
      RunReplays(records, ws, actions, |actions|);
      PathsKeepInv(ws, actions, |actions|);
      ReplayedVersion(records, v, ws[|actions|]);
    }
  }
}
