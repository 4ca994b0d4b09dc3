/** What a crash leaves of a store (LevelDB db/db_impl.cc, db/version_set.cc): the tables, which hold what was
    written up to some sequence number, and the logs of the memtables, which hold all that came after. */
module Durable {
  import opened Options
  import opened DbFormat
  import opened MemTables
  import opened Tree
  import opened Selection
  import opened Compaction
  import opened Builder
  import opened TreeSteps
  import opened Boundary
  import opened Database

  /** The last sequence number in tables, and the last one of the memtable that is being flushed. */
  datatype Marks = Marks(tables: SequenceNumber, frozen: SequenceNumber)

  function NextMarks(k: Marks, db: Db, a: Action): Marks {
    match a
    case SwitchMemtable => Marks(k.tables, db.lastSequence)
    case FlushMemtable(_, _) => Marks(k.frozen, k.frozen)
    case _ => k
  }

  /** The marks after n actions, from a store with nothing in memory. */
  function MarksAt(ws: seq<World>, actions: seq<Action>, n: nat): Marks
    requires n <= |actions| < |ws|
  {
    if n == 0 then Marks(ws[0].db.lastSequence, ws[0].db.lastSequence)
    else NextMarks(MarksAt(ws, actions, n - 1), ws[n - 1].db, actions[n - 1])
  }

  ghost function Upto(history: set<Entry>, n: nat): set<Entry> {
    set e | e in history && e.k.sn <= n
  }

  /** Every reader of the tables alone, at or after their last number, reads what was written up to it. */
  ghost predicate TablesRead(tree: set<Entry>, written: set<Entry>, last: SequenceNumber) {
    forall user, s: SequenceNumber :: last <= s ==> Read(tree, user, s) == Read(written, user, s)
  }

  /** Tables, the frozen memtable and the current one split what was written at the marks. */
  ghost predicate Settled(w: World, k: Marks) {
    && k.tables <= k.frozen <= w.db.lastSequence && (w.db.imm.None? ==> k.tables == k.frozen)
    && VersionEntries(w.db.v) <= Upto(w.history, k.tables)
    && SetOf(Imm(w.db)) == Upto(w.history, k.frozen) - Upto(w.history, k.tables)
    && SetOf(w.db.mem) == w.history - Upto(w.history, k.frozen)
    && TablesRead(VersionEntries(w.db.v), Upto(w.history, k.tables), k.tables)
  }

  /** A step whose compaction, if it is one, uncovers nothing in the tables alone: what is in memory may be lost. */
  ghost predicate DurableStep(w: World, a: Action, w': World) {
    && Step(w, a, w')
    && (a.Compact? ==>
          a.level + 1 < NUM_LEVELS && !Uncovers(w.db.v, {}, a.level, a.in1, a.input, SmallestSnapshot(w.db)))
  }

  /** Entries newer than all others are read the same over either of two sets that read the same. */
  lemma NewerReadTheSame(a: set<Entry>, h: set<Entry>, more: set<Entry>, user: UserKey, s: SequenceNumber)
    requires a <= h && Distinct(h + more) && Read(a, user, s) == Read(h, user, s)
    requires forall x, e :: x in more && e in h ==> e.k.sn < x.k.sn
    ensures Read(a + more, user, s) == Read(h + more, user, s)
  {
    if exists o :: o in more && Visible(o, user, s) {
      var n := NewestExists(more, user, s);
      ReadOfNewest(a + more, user, s, n);
      ReadOfNewest(h + more, user, s, n);
    } else {
      OnlyOld(a, more, user, s);
      OnlyOld(h, more, user, s);
    }
  }

  lemma OnlyOld(a: set<Entry>, more: set<Entry>, user: UserKey, s: SequenceNumber)
    requires Distinct(a + more) && forall o :: o in more ==> !Visible(o, user, s)
    ensures Read(a + more, user, s) == Read(a, user, s)
  {
    if exists o :: o in a && Visible(o, user, s) {
      var n := NewestExists(a, user, s);
      ReadOfNewest(a, user, s, n);
      ReadOfNewest(a + more, user, s, n);
    } else {
      ReadNone(a, user, s);
      ReadNone(a + more, user, s);
    }
  }

  // ---------------------------------------------------------------------------------------------
  // Each step keeps the split

  /** An entry with a number after the mark. */
  lemma UptoAfterWrite(history: set<Entry>, e: Entry, n: nat)
    requires n < e.k.sn
    ensures Upto(history + {e}, n) == Upto(history, n)
    ensures history + {e} - Upto(history, n) == (history - Upto(history, n)) + {e}
  {
  }

  lemma WriteSettles(w: World, a: Action, w': World, k: Marks)
    requires Inv(w) && Settled(w, k) && a.Write? && Step(w, a, w')
    ensures Settled(w', k)
  {
    var e := Entry(InternalKey(a.user, w.db.lastSequence + 1, a.kind), a.value);
    assert w'.db == w.db.(mem := MemInsert(w.db.mem, e), lastSequence := w.db.lastSequence + 1);
    assert w'.history == w.history + {e};
    hide Inv, Step, Upto, TablesRead, VersionEntries, MemInsert, SetOf;
    MemInsertAdds(w.db.mem, e);
    UptoAfterWrite(w.history, e, k.tables);
    UptoAfterWrite(w.history, e, k.frozen);
  }

  lemma SwitchSettles(w: World, a: Action, w': World, k: Marks)
    requires Inv(w) && Settled(w, k) && a.SwitchMemtable? && Step(w, a, w')
    ensures Settled(w', NextMarks(k, w.db, a))
  {
    assert Upto(w.history, w.db.lastSequence) == w.history by {
      AllBeforeLast(w);
    }
    hide Inv, Upto, TablesRead, VersionEntries;
  }

  lemma AllBeforeLast(w: World)
    requires Inv(w)
    ensures forall e :: e in w.history ==> e.k.sn <= w.db.lastSequence
    ensures Distinct(w.history)
  {
    hide TreeInv, FilesInv, MemInv, SnapshotsOk, ReadsHistory, AllEntries;
  }

  lemma UptoSplits(history: set<Entry>, a: nat, b: nat)
    requires a <= b
    ensures Upto(history, b) == Upto(history, a) + (Upto(history, b) - Upto(history, a))
    ensures forall x, e :: x in Upto(history, b) - Upto(history, a) && e in Upto(history, a) ==> e.k.sn < x.k.sn
    ensures Upto(history, b) <= history
  {
  }

  /** Tables that come to hold the next entries read as what was written up to them. */
  lemma MoreTablesRead(tree: set<Entry>, before: set<Entry>, imm: set<Entry>, last: SequenceNumber,
                       next: SequenceNumber)
    requires TablesRead(tree, before, last) && last <= next && tree <= before && Distinct(before + imm)
    requires forall x, e :: x in imm && e in before ==> e.k.sn < x.k.sn
    ensures TablesRead(tree + imm, before + imm, next)
  {
    hide Read, Distinct;
    forall user, s: SequenceNumber | next <= s
      ensures Read(tree + imm, user, s) == Read(before + imm, user, s)
    {
      NewerReadTheSame(tree, before, imm, user, s);
    }
  }

  lemma FewerDistinct(es: set<Entry>, more: set<Entry>)
    requires es <= more && Distinct(more)
    ensures Distinct(es)
  {
  }

  lemma FlushSettles(w: World, a: Action, w': World, k: Marks)
    requires Inv(w) && Settled(w, k) && a.FlushMemtable? && Step(w, a, w')
    ensures Settled(w', NextMarks(k, w.db, a))
  {
    FlushedEntries(w, a, w');
    AllBeforeLast(w);
    hide Inv, Step, VersionEntries, Upto, TablesRead, SetOf, Distinct;
    UptoSplits(w.history, k.tables, k.frozen);
    FewerDistinct(Upto(w.history, k.frozen), w.history);
    MoreTablesRead(VersionEntries(w.db.v), Upto(w.history, k.tables), SetOf(Imm(w.db)), k.tables, k.frozen);
    assert SetOf(Imm(w'.db)) == {} by {
      NoneFrozen(w'.db);
    }
  }

  lemma NoneFrozen(db: Db)
    requires db.imm.None?
    ensures SetOf(Imm(db)) == {}
  {
  }

  lemma FlushedEntries(w: World, a: Action, w': World)
    requires Inv(w) && a.FlushMemtable? && Step(w, a, w')
    ensures VersionEntries(w'.db.v) == VersionEntries(w.db.v) + SetOf(Imm(w.db))
    ensures w'.db == w.db.(imm := None, v := w'.db.v, nextFile := w'.db.nextFile) && w'.history == w.history
    ensures w.db.imm.Some?
  {
    hide TreeInv, FilesInv, HistoryInv, SnapshotsOk, ReadsHistory, VersionEntries, LevelOk, Built;
    if w.db.imm.value != [] {
      FlushMoves(w.db, w'.db, a.pick, a.size);
    }
  }

  lemma MoveSettles(w: World, a: Action, w': World, k: Marks)
    requires Inv(w) && Settled(w, k) && a.TrivialMove? && Step(w, a, w')
    ensures Settled(w', k)
  {
    hide TreeInv, FilesInv, HistoryInv, SnapshotsOk, ReadsHistory, VersionEntries, InputsOk, Built, SortedRun, Distinct;
    hide Upto, TablesRead;
    TreeEntriesDistinct(w);
    MoveOne(w.db, w'.db.v, a.level, a.file);
  }

  /** Readers that see everything see the same. */
  lemma AllVisible(es: set<Entry>, user: UserKey, s: SequenceNumber, t: SequenceNumber)
    requires (forall e :: e in es ==> e.k.sn <= s && e.k.sn <= t) && Distinct(es)
    ensures Read(es, user, s) == Read(es, user, t)
  {
    if exists o :: o in es && Visible(o, user, s) {
      var n := NewestExists(es, user, s);
      ReadOfNewest(es, user, s, n);
      ReadOfNewest(es, user, t, n);
    } else {
      ReadNone(es, user, s);
      ReadNone(es, user, t);
    }
  }

  /** The tables without what is in memory. */
  function TablesOnly(db: Db): Db {
    db.(mem := [], imm := None)
  }

  /** A compaction keeps the reads of the tables alone exactly if it uncovers nothing in them alone. */
  lemma TablesKeepReadsIff(w: World, a: Action, w': World)
    requires Inv(w) && a.Compact? && Step(w, a, w')
    ensures a.level + 1 < NUM_LEVELS && VersionEntries(w'.db.v) <= VersionEntries(w.db.v)
    ensures (forall user, s: SequenceNumber :: SmallestSnapshot(w.db) <= s ==>
               Read(VersionEntries(w'.db.v), user, s) == Read(VersionEntries(w.db.v), user, s))
      <==> !Uncovers(w.db.v, {}, a.level, a.in1, a.input, SmallestSnapshot(w.db))
  {
    var db, v' := TablesOnly(w.db), w'.db.v;
    TreeEntriesDistinct(w);
    OnlyTables(db, db.v);
    OnlyTables(db.(v := v'), v');
    hide TreeInv, FilesInv, HistoryInv, SnapshotsOk, ReadsHistory, Distinct, AllEntries, VersionEntries, Read, Uncovers;
    hide InputsOk, Built, Numbered, Tables, DisjointLevel, SortedRun, InputEntries;
    CompactKeepsReadsIff(db, v', a.level, a.in0, a.in1, a.input, a.outs);
    CompactEntries(db, v', a.level, a.in0, a.in1, a.input, a.outs,
                   SetOf(db.mem) + SetOf(Imm(db)) + Outside(db.v, a.level, a.in0, a.in1));
  }

  lemma OnlyTables(db: Db, v: Version)
    requires db.mem == [] && db.imm == None && db.v == v
    ensures AllEntries(db) == VersionEntries(v) && Above(db) == {} && MemInv(db)
  {
    hide VersionEntries;
  }

  /** Reads at or after the tables' last number are those of a snapshot that sees everything. */
  lemma StillRead(tree: set<Entry>, tree': set<Entry>, written: set<Entry>, last: SequenceNumber, snap: SequenceNumber)
    requires TablesRead(tree, written, last) && tree' <= tree && Distinct(tree)
    requires forall e :: e in tree ==> e.k.sn <= last
    requires forall user, s: SequenceNumber :: snap <= s ==> Read(tree', user, s) == Read(tree, user, s)
    ensures TablesRead(tree', written, last)
  {
    FewerDistinct(tree', tree);
    hide Read, Distinct;
    forall user, s: SequenceNumber | last <= s
      ensures Read(tree', user, s) == Read(written, user, s)
    {
      if s < snap {
        AllVisible(tree, user, s, snap);
        AllVisible(tree', user, s, snap);
      }
    }
  }

  lemma UptoIsBefore(es: set<Entry>, history: set<Entry>, n: nat)
    requires es <= Upto(history, n)
    ensures forall e :: e in es ==> e.k.sn <= n
  {
  }

  lemma CompactedDb(w: World, a: Action, w': World)
    requires a.Compact? && Step(w, a, w')
    ensures w'.history == w.history && w'.db == w.db.(v := w'.db.v, nextFile := w'.db.nextFile)
  {
    hide Compacted, Uncovers;
  }

  lemma CompactSettles(w: World, a: Action, w': World, k: Marks)
    requires Inv(w) && Settled(w, k) && a.Compact? && DurableStep(w, a, w')
    ensures Settled(w', k)
  {
    TablesKeepReadsIff(w, a, w');
    TreeEntriesDistinct(w);
    CompactedDb(w, a, w');
    hide Inv, Step, Uncovers, VersionEntries, Upto, TablesRead, SetOf, Distinct, Read, SmallestSnapshot;
    UptoIsBefore(VersionEntries(w.db.v), w.history, k.tables);
    StillRead(VersionEntries(w.db.v), VersionEntries(w'.db.v), Upto(w.history, k.tables), k.tables,
              SmallestSnapshot(w.db));
  }

  /** While no reader looks back behind the tables, it is exactly such compactions that keep the split. */
  lemma CompactSettlesIff(w: World, a: Action, w': World, k: Marks)
    requires Inv(w) && Settled(w, k) && a.Compact? && Step(w, a, w') && k.tables <= SmallestSnapshot(w.db)
    ensures Settled(w', k) <==> DurableStep(w, a, w')
  {
    if DurableStep(w, a, w') {
      CompactSettles(w, a, w', k);
    }
    CompactedDb(w, a, w');
    if Settled(w', k) {
      SettledUncoversNothing(w, a, w', k);
    }
  }

  lemma BothRead(tree: set<Entry>, tree': set<Entry>, written: set<Entry>, last: SequenceNumber, snap: SequenceNumber)
    requires TablesRead(tree, written, last) && TablesRead(tree', written, last) && last <= snap
    ensures forall user, s: SequenceNumber :: snap <= s ==> Read(tree', user, s) == Read(tree, user, s)
  {
    hide Read;
  }

  lemma SettledUncoversNothing(w: World, a: Action, w': World, k: Marks)
    requires Inv(w) && Settled(w, k) && a.Compact? && Step(w, a, w') && k.tables <= SmallestSnapshot(w.db)
    requires Settled(w', k) && w'.history == w.history
    ensures DurableStep(w, a, w')
  {
    TablesKeepReadsIff(w, a, w');
    hide Inv, Step, Uncovers, VersionEntries, Upto, TablesRead, SetOf, Read, SmallestSnapshot;
    BothRead(VersionEntries(w.db.v), VersionEntries(w'.db.v), Upto(w.history, k.tables), k.tables,
             SmallestSnapshot(w.db));
  }

  lemma StepSettles(w: World, a: Action, w': World, k: Marks)
    requires Inv(w) && Settled(w, k) && DurableStep(w, a, w')
    ensures Settled(w', NextMarks(k, w.db, a))
  {
    hide Inv;
    match a
    case Write(_, _, _) => WriteSettles(w, a, w', k);
    case SwitchMemtable => SwitchSettles(w, a, w', k);
    case FlushMemtable(_, _) => FlushSettles(w, a, w', k);
    case TrivialMove(_, _) => MoveSettles(w, a, w', k);
    case Compact(_, _, _, _, _) => CompactSettles(w, a, w', k);
    case _ =>
  }

  // ---------------------------------------------------------------------------------------------
  // Whole runs

  /** A run of durable steps from a store that has been opened and has nothing in memory. */
  ghost predicate IsDurable(ws: seq<World>, actions: seq<Action>) {
    && |ws| == |actions| + 1 && Inv(ws[0]) && ws[0].db.mem == [] && ws[0].db.imm == None
    && forall i :: 0 <= i < |actions| ==> DurableStep(ws[i], actions[i], ws[i + 1])
  }

  lemma DurableIsPath(ws: seq<World>, actions: seq<Action>)
    requires IsDurable(ws, actions)
    ensures IsPath(ws, actions) && Inv(ws[0]) && |ws| == |actions| + 1
  {
    hide Inv, Step, Uncovers;
  }

  lemma OpenedIsSettled(w: World)
    requires Inv(w) && w.db.mem == [] && w.db.imm == None
    ensures Settled(w, Marks(w.db.lastSequence, w.db.lastSequence))
  {
    OnlyTables(w.db, w.db.v);
    AllBeforeLast(w);
    assert Upto(w.history, w.db.lastSequence) == w.history;
    hide TreeInv, FilesInv, MemInv, VersionEntries, Upto, Read, Distinct;
  }

  lemma {:induction false} RunsSettle(ws: seq<World>, actions: seq<Action>, n: nat)
    requires IsDurable(ws, actions) && n <= |actions|
    ensures Settled(ws[n], MarksAt(ws, actions, n)) && Inv(ws[n])
  {
    hide Inv, Settled, DurableStep, NextMarks, Step;
    DurableIsPath(ws, actions);
    PathsKeepInv(ws, actions, n);
    if n == 0 {
      OpenedIsSettled(ws[0]);
    } else {
      RunsSettle(ws, actions, n - 1);
      StepSettles(ws[n - 1], actions[n - 1], ws[n], MarksAt(ws, actions, n - 1));
    }
  }

  lemma {:induction false} MarksGrow(ws: seq<World>, actions: seq<Action>, n: nat)
    requires IsDurable(ws, actions) && n <= |actions|
    ensures ws[0].db.lastSequence <= MarksAt(ws, actions, n).tables
  {
    hide Inv, DurableStep, Upto, TablesRead, VersionEntries;
    if n > 0 {
      MarksGrow(ws, actions, n - 1);
      RunsSettle(ws, actions, n - 1);
    }
  }

  lemma HigherNumbers(v: Version, nextFile: nat, higher: nat)
    requires FilesInv(v, nextFile) && nextFile <= higher
    ensures FilesInv(v, higher)
  {
    hide SortedBySmallest;
  }

  /** The tables alone are a store that holds what was written up to their mark; file numbers may have been
      given out since. */
  lemma TablesAreAStore(w: World, k: Marks, nextFile: nat)
    requires Inv(w) && Settled(w, k) && w.db.nextFile <= nextFile
    ensures Inv(World(Db([], None, w.db.v, nextFile, k.tables, []), Upto(w.history, k.tables)))
  {
    var w' := World(Db([], None, w.db.v, nextFile, k.tables, []), Upto(w.history, k.tables));
    OnlyTables(w'.db, w.db.v);
    AllBeforeLast(w);
    HigherNumbers(w.db.v, w.db.nextFile, nextFile);
    hide TreeInv, FilesInv, VersionEntries, Read, AllEntries, MemInv;
  }

  /** What had been written when the sequence number was n is the history of a state of the run. */
  lemma {:induction false} WasAState(ws: seq<World>, actions: seq<Action>, n: nat, last: nat) returns (i: nat)
    requires IsDurable(ws, actions) && n <= |actions| && ws[0].db.lastSequence <= last <= ws[n].db.lastSequence
    ensures i <= n && ws[i].db.lastSequence == last && ws[i].history == Upto(ws[n].history, last)
    decreases n
  {
    hide Inv, DurableStep, Upto;
    DurableIsPath(ws, actions);
    PathsKeepInv(ws, actions, n);
    AllBeforeLast(ws[n]);
    if last == ws[n].db.lastSequence {
      i := n;
      AllOfIt(ws[n].history, last);
    } else {
      PathsKeepInv(ws, actions, n - 1);
      StepAdds(ws[n - 1], actions[n - 1], ws[n], last);
      i := WasAState(ws, actions, n - 1, last);
    }
  }

  lemma AllOfIt(history: set<Entry>, n: nat)
    requires forall e :: e in history ==> e.k.sn <= n
    ensures Upto(history, n) == history
  {
  }

  lemma StepAdds(w: World, a: Action, w': World, last: nat)
    requires DurableStep(w, a, w') && last < w'.db.lastSequence
    ensures last <= w.db.lastSequence && Upto(w'.history, last) == Upto(w.history, last)
  {
  }
}
