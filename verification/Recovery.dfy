/** Crash recovery: replaying a log that was cut short (LevelDB db/db_impl.cc, RecoverLogFile). */
module Recovery {
  import opened DbFormat
  import opened Coding
  import opened LogFormat
  import opened Log
  import opened LogReader
  import opened MemTables
  import opened WriteBatches

  const TWO_64: nat := 0x1_0000_0000_0000_0000

  /** A batch that was logged, with the sequence number of its first operation. */
  datatype Commit = Commit(first: nat, ops: seq<Op>)

  ghost predicate IsCommit(rep: Bytes, c: Commit) {
    && |rep| >= HEADER && AllEncodable(c.ops) && |c.ops| < MAX_COUNT
    && rep[HEADER..] == OpsBytes(c.ops)
    && DecodeFixed(rep[..8]) == c.first && DecodeFixed(rep[8..HEADER]) == |c.ops|
    && 1 <= c.first && c.first + |c.ops| <= MAX_SEQUENCE_NUMBER + 1
  }

  /** A batch numbered by the store is such a commit, byte for byte. */
  lemma BatchIsCommit(b: WriteBatch)
    requires b.Valid() && 1 <= b.Sequence() && b.Sequence() + |b.ops| <= MAX_SEQUENCE_NUMBER + 1
    ensures IsCommit(b.rep, Commit(b.Sequence(), b.ops))
  {
  }

  /** The sequence number after those of the commits. */
  ghost function Next(first: nat, commits: seq<Commit>): nat {
    if commits == [] then first else commits[|commits| - 1].first + |commits[|commits| - 1].ops|
  }

  ghost predicate Logged(first: nat, commits: seq<Commit>, reps: seq<Bytes>) {
    && |commits| == |reps| && 1 <= first
    && (forall j :: 0 <= j < |reps| ==> IsCommit(reps[j], commits[j]))
    && forall j :: 0 <= j < |reps| ==> commits[j].first == Next(first, commits[..j])
  }

  /** What the commits wrote. */
  ghost function Wrote(order: Order, commits: seq<Commit>): set<Entry> {
    if commits == [] then {}
    else
      var last := commits[|commits| - 1];
      Wrote(order, commits[..|commits| - 1]) + SetOf(EntriesOf(order, last.ops, last.first))
  }

  ghost function TableEntries(tables: seq<seq<Entry>>): set<Entry> {
    if tables == [] then {} else TableEntries(tables[..|tables| - 1]) + SetOf(tables[|tables| - 1])
  }

  lemma OneMoreTable(tables: seq<seq<Entry>>, t: seq<Entry>)
    ensures TableEntries(tables + [t]) == TableEntries(tables) + SetOf(t)
  {
    assert (tables + [t])[..|tables|] == tables;
  }

  lemma OneMoreCommit(order: Order, commits: seq<Commit>, first: nat, n: nat)
    requires n < |commits|
    ensures Wrote(order, commits[..n + 1]) ==
            Wrote(order, commits[..n]) + SetOf(EntriesOf(order, commits[n].ops, commits[n].first))
    ensures Next(first, commits[..n + 1]) == commits[n].first + |commits[n].ops|
  {
    assert commits[..n + 1][..n] == commits[..n];
  }

  lemma {:induction false} CommitsAscend(commits: seq<Commit>, reps: seq<Bytes>, first: nat, n: nat)
    requires Logged(first, commits, reps) && n < |commits|
    ensures first <= commits[n].first == Next(first, commits[..n])
    ensures commits[n].first + |commits[n].ops| <= MAX_SEQUENCE_NUMBER + 1
    decreases n
  {
    assert IsCommit(reps[n], commits[n]);
    hide IsCommit;
    if n > 0 {
      CommitsAscend(commits, reps, first, n - 1);
    }
  }

  /** The entries of a set carry numbers from `from` on and below `to`, each number once. */
  ghost predicate NumberedOnce(es: set<Entry>, from: nat, to: nat) {
    && (forall x :: x in es ==> from <= x.k.sn < to)
    && forall x, y :: x in es && y in es && x.k.sn == y.k.sn ==> x == y
  }

  lemma EntryAt(order: Order, ops: seq<Op>, first: nat, i: nat)
    requires i < |ops| && first + |ops| <= MAX_SEQUENCE_NUMBER + 1
    ensures EntriesOf(order, ops, first)[i].k.sn == first + i
  {
  }

  lemma OpsAreNumbered(order: Order, ops: seq<Op>, first: nat)
    requires first + |ops| <= MAX_SEQUENCE_NUMBER + 1
    ensures NumberedOnce(SetOf(EntriesOf(order, ops, first)), first, first + |ops|)
  {
    var es := EntriesOf(order, ops, first);
    forall i | 0 <= i < |es|
      ensures es[i].k.sn == first + i
    {
      EntryAt(order, ops, first, i);
    }
    hide EntriesOf;
  }

  lemma NumbersJoin(a: set<Entry>, b: set<Entry>, from: nat, mid: nat, to: nat)
    requires NumberedOnce(a, from, mid) && NumberedOnce(b, mid, to) && from <= mid <= to
    ensures NumberedOnce(a + b, from, to)
  {
  }

  /** The last of n batches. */
  lemma LastBatch(order: Order, commits: seq<Commit>, reps: seq<Bytes>, first: nat, n: nat)
    requires Logged(first, commits, reps) && n < |commits|
    ensures var c := commits[n];
            && first <= c.first == Next(first, commits[..n]) && c.first + |c.ops| <= MAX_SEQUENCE_NUMBER + 1
            && Next(first, commits[..n + 1]) == c.first + |c.ops|
            && Wrote(order, commits[..n + 1]) == Wrote(order, commits[..n]) + SetOf(EntriesOf(order, c.ops, c.first))
  {
    hide Logged, EntriesOf;
    CommitsAscend(commits, reps, first, n);
    OneMoreCommit(order, commits, first, n);
  }

  lemma NoBatch(order: Order, commits: seq<Commit>, first: nat)
    ensures Wrote(order, commits[..0]) == {} && Next(first, commits[..0]) == first
  {
  }

  lemma {:induction false} BatchesAreNumbered(order: Order, commits: seq<Commit>, reps: seq<Bytes>, first: nat, n: nat)
    requires Logged(first, commits, reps) && n <= |commits|
    ensures first <= Next(first, commits[..n])
    ensures NumberedOnce(Wrote(order, commits[..n]), first, Next(first, commits[..n]))
    decreases n
  {
    hide Logged, Wrote, Next, EntriesOf, NumberedOnce;
    if n == 0 {
      NoBatch(order, commits, first);
      NoneNumbered(first);
    } else {
      var c := commits[n - 1];
      BatchesAreNumbered(order, commits, reps, first, n - 1);
      LastBatch(order, commits, reps, first, n - 1);
      OpsAreNumbered(order, c.ops, c.first);
      NumbersJoin(Wrote(order, commits[..n - 1]), SetOf(EntriesOf(order, c.ops, c.first)), first, c.first,
                  c.first + |c.ops|);
    }
  }

  lemma NoneNumbered(first: nat)
    ensures NumberedOnce({}, first, first)
  {
  }

  /** Tables made one after the other, and what came last: later ones hold later numbers. */
  ghost predicate Ascending(tables: seq<seq<Entry>>, held: seq<Entry>) {
    && (forall i, j, x, y :: 0 <= i < j < |tables| && x in tables[i] && y in tables[j] ==> x.k.sn < y.k.sn)
    && (forall i, x, y :: 0 <= i < |tables| && x in tables[i] && y in held ==> x.k.sn < y.k.sn)
  }

  lemma {:induction false} InTables(tables: seq<seq<Entry>>, i: nat, x: Entry)
    requires i < |tables| && x in tables[i]
    ensures x in TableEntries(tables)
  {
    if i < |tables| - 1 {
      InTables(tables[..|tables| - 1], i, x);
    }
  }

  lemma StaysAscending(order: Order, commits: seq<Commit>, reps: seq<Bytes>, first: nat, n: nat,
      tables: seq<seq<Entry>>, held: seq<Entry>, held': seq<Entry>)
    requires Logged(first, commits, reps) && n < |commits| && Ascending(tables, held)
    requires TableEntries(tables) + SetOf(held) == Wrote(order, commits[..n])
    requires SetOf(held') == SetOf(held) + SetOf(EntriesOf(order, commits[n].ops, commits[n].first))
    ensures Ascending(tables, held')
  {
    forall i, x, y | 0 <= i < |tables| && x in tables[i] && y in held'
      ensures x.k.sn < y.k.sn
    {
      InTables(tables, i, x);
      assert y in SetOf(held');
      hide EntriesOf, Logged, Wrote, TableEntries, Next;
      LastBatch(order, commits, reps, first, n);
      BatchesAreNumbered(order, commits, reps, first, n);
      OpsAreNumbered(order, commits[n].ops, commits[n].first);
    }
  }

  /** The highest sequence number replayed so far. */
  ghost function Highest(max: nat, first: nat, commits: seq<Commit>): nat
  {
    if commits == [] || Next(first, commits) <= max + 1 then max else Next(first, commits) - 1
  }

  ghost function Held(mem: MemTable?): seq<Entry>
    reads mem
  {
    if mem == null then [] else mem.table
  }

  /** One logged record, long enough to be a batch. */
  method ReplayRecord(record: Bytes, order: Order, paranoidChecks: bool, mem: MemTable, max: nat, ghost c: Commit)
    returns (status: bool, highest: nat)
    requires |record| >= HEADER
    modifies mem
    ensures IsCommit(record, c) ==>
              && status && highest == (if c.first + |c.ops| <= max + 1 then max else c.first + |c.ops| - 1)
              && SetOf(mem.table) == old(SetOf(mem.table)) + SetOf(EntriesOf(order, c.ops, c.first))
              && (old(InOrder(mem.table, c.first)) ==> InOrder(mem.table, c.first + |c.ops|))
  {
    hide OpsBytes, Parse, EntriesOf, SetOf, InOrder, DecodeFixed;
    if IsCommit(record, c) {
      ParseOfBytes(c.ops);
    }
    var batch := new WriteBatch();
    batch.SetContents(record, c.ops);
    status := batch.InsertInto(order, mem);
    highest := max;
    if !paranoidChecks {
      // The error is logged and ignored.
      status := true;
    }
    if status {
      var count := batch.Count();
      var signed := if count < MAX_COUNT then count else count - TWO_32;
      var lastSequence := (batch.Sequence() + signed - 1) % TWO_64;
      if lastSequence > highest {
        highest := lastSequence;
      }
    }
  }

  /** The state of the replay after n commits: tables and memtable together hold what they wrote. */
  ghost predicate Replayed(order: Order, commits: seq<Commit>, first: nat, n: nat, tables: seq<seq<Entry>>,
      held: seq<Entry>, max: nat, highest: nat)
  {
    && n <= |commits|
    && TableEntries(tables) + SetOf(held) == Wrote(order, commits[..n])
    && InOrder(held, Next(first, commits[..n])) && (forall i :: 0 <= i < |tables| ==> SortedRun(tables[i]))
    && Ascending(tables, held)
    && highest == Highest(max, first, commits[..n])
  }

  lemma ReplayedOne(order: Order, commits: seq<Commit>, reps: seq<Bytes>, first: nat, n: nat, tables: seq<seq<Entry>>,
      held: seq<Entry>, max: nat, highest: nat, held': seq<Entry>, highest': nat)
    requires Logged(first, commits, reps) && n < |commits|
    requires Replayed(order, commits, first, n, tables, held, max, highest)
    requires var c := commits[n];
      && SetOf(held') == SetOf(held) + SetOf(EntriesOf(order, c.ops, c.first))
      && (InOrder(held, c.first) ==> InOrder(held', c.first + |c.ops|))
      && highest' == (if c.first + |c.ops| <= highest + 1 then highest else c.first + |c.ops| - 1)
    ensures Replayed(order, commits, first, n + 1, tables, held', max, highest')
  {
    StaysAscending(order, commits, reps, first, n, tables, held, held');
    hide EntriesOf, SetOf, InOrder, SortedRun, TableEntries, OpsBytes, DecodeFixed, AllEncodable, Ascending;
    OneMoreCommit(order, commits, first, n);
    assert IsCommit(reps[n], commits[n]);
    hide IsCommit, Wrote;
  }

  lemma Flushed(order: Order, commits: seq<Commit>, first: nat, n: nat, tables: seq<seq<Entry>>, held: seq<Entry>,
      max: nat, highest: nat)
    requires Replayed(order, commits, first, n, tables, held, max, highest)
    ensures Replayed(order, commits, first, n, tables + [held], [], max, highest)
  {
    OneMoreTable(tables, held);
  }

  lemma NothingReplayed(order: Order, commits: seq<Commit>, first: nat, max: nat, frames: seq<Frame>, bounds: seq<nat>,
      reps: seq<Bytes>, ends: seq<nat>)
    requires EndAt(frames, bounds, reps, ends) && Logged(first, commits, reps)
    ensures Replayed(order, commits, first, 0, [], [], max, max)
    ensures |ends| == |reps| == |commits|
  {
  }

  /** The tables that n batches make, and what is left in memory: a table is made as soon as the memtable is
      full, and not before. */
  ghost function Cuts(order: Order, commits: seq<Commit>, full: set<Entry> -> bool, n: nat)
    : (r: (seq<set<Entry>>, set<Entry>))
    requires n <= |commits|
    ensures (forall t :: 0 <= t < |r.0| ==> full(r.0[t])) && (r.1 == {} || !full(r.1))
  {
    if n == 0 then ([], {})
    else
      var (tables, held) := Cuts(order, commits, full, n - 1);
      var held' := held + SetOf(EntriesOf(order, commits[n - 1].ops, commits[n - 1].first));
      if full(held') then (tables + [held'], {}) else (tables, held')
  }

  ghost function Sets(tables: seq<seq<Entry>>): seq<set<Entry>> {
    seq(|tables|, t requires 0 <= t < |tables| => SetOf(tables[t]))
  }

  ghost predicate CutWhenFull(order: Order, commits: seq<Commit>, full: set<Entry> -> bool, n: nat,
                              tables: seq<seq<Entry>>, held: seq<Entry>) {
    n <= |commits| && Cuts(order, commits, full, n) == (Sets(tables), SetOf(held))
  }

  lemma NothingCut(order: Order, commits: seq<Commit>, full: set<Entry> -> bool)
    ensures CutWhenFull(order, commits, full, 0, [], [])
  {
    assert SetOf([]) == {};
    assert Sets([]) == [];
  }

  lemma CutOne(order: Order, commits: seq<Commit>, full: set<Entry> -> bool, n: nat, tables: seq<seq<Entry>>,
               held: seq<Entry>, held': seq<Entry>)
    requires n < |commits| && CutWhenFull(order, commits, full, n, tables, held)
    requires SetOf(held') == SetOf(held) + SetOf(EntriesOf(order, commits[n].ops, commits[n].first))
    ensures if full(SetOf(held')) then CutWhenFull(order, commits, full, n + 1, tables + [held'], [])
            else CutWhenFull(order, commits, full, n + 1, tables, held')
  {
    assert Sets(tables + [held']) == Sets(tables) + [SetOf(held')];
    assert SetOf([]) == {};
  }

  /** What recovery leaves behind: if the log goes on being used and nothing was full, all of it stays in
      memory; otherwise what was left in memory became a table as well. */
  ghost predicate Left(order: Order, commits: seq<Commit>, full: set<Entry> -> bool, n: nat, reuse: bool,
                       tables: seq<seq<Entry>>, held: seq<Entry>) {
    && n <= |commits|
    && var (cut, rest) := Cuts(order, commits, full, n);
    if reuse && cut == [] then tables == [] && SetOf(held) == rest
    else held == [] && (Sets(tables) == cut + [rest] || (rest == {} && Sets(tables) == cut))
  }

  lemma LeftInMemory(order: Order, commits: seq<Commit>, full: set<Entry> -> bool, n: nat, reuse: bool,
                     tables: seq<seq<Entry>>, held: seq<Entry>)
    requires CutWhenFull(order, commits, full, n, tables, held)
    ensures if reuse && tables == [] then Left(order, commits, full, n, reuse, [], held)
            else Left(order, commits, full, n, reuse, tables + [held], [])
                 && (held == [] ==> Left(order, commits, full, n, reuse, tables, []))
  {
    hide Cuts;
    assert Sets(tables + [held]) == Sets(tables) + [SetOf(held)];
  }

  lemma CommitOf(first: nat, commits: seq<Commit>, reps: seq<Bytes>, n: nat)
    requires Logged(first, commits, reps) && n < |reps|
    ensures n < |commits| && IsCommit(reps[n], commits[n]) && |reps[n]| >= HEADER
  {
  }

  lemma SetOfIs(es: seq<Entry>)
    ensures SetOf(es) == set e | e in es
  {
  }

  /** Replays one record into the memtable, which becomes a table once it is full. */
  method ReplayInto(record: Bytes, order: Order, paranoidChecks: bool, full: set<Entry> -> bool, mem: MemTable?,
      tables: seq<seq<Entry>>, highest: nat, ghost commits: seq<Commit>, ghost reps: seq<Bytes>, ghost first: nat,
      ghost n: nat, ghost max: nat)
    returns (status: bool, mem': MemTable?, tables': seq<seq<Entry>>, highest': nat)
    requires |record| >= HEADER
    modifies if mem == null then {} else {mem}
    ensures mem' == mem || mem' == null || fresh(mem')
    ensures Logged(first, commits, reps) && n < |reps| && record == reps[n]
            && old(Replayed(order, commits, first, n, tables, Held(mem), max, highest))
            && old(CutWhenFull(order, commits, full, n, tables, Held(mem))) ==>
              && status && Replayed(order, commits, first, n + 1, tables', Held(mem'), max, highest')
              && CutWhenFull(order, commits, full, n + 1, tables', Held(mem'))
  {
    hide Logged, Replayed, IsCommit, InOrder, SetOf, EntriesOf, CutWhenFull;
    ghost var good := Logged(first, commits, reps) && n < |reps| && record == reps[n]
                      && Replayed(order, commits, first, n, tables, Held(mem), max, highest)
                      && CutWhenFull(order, commits, full, n, tables, Held(mem));
    ghost var c := Commit(0, []);
    if good {
      CommitOf(first, commits, reps, n);
      c := commits[n];
    }
    var m := mem;
    if m == null {
      m := new MemTable();
    }
    mem', tables' := m, tables;
    ghost var was := m.table;
    status, highest' := ReplayRecord(record, order, paranoidChecks, m, highest, c);
    if good {
      ReplayedOne(order, commits, reps, first, n, tables, was, max, highest, m.table, highest');
      CutOne(order, commits, full, n, tables, was, m.table);
    }
    SetOfIs(m.table);
    if status && full(set e | e in m.table) {
      if good {
        Flushed(order, commits, first, n + 1, tables, m.table, max, highest');
      }
      mem', tables' := null, tables + [m.table];
    }
  }

  /** Replays a log file.  Of a log cut short by a crash, every batch that lies wholly before the
      cut is replayed, nothing else is, and the highest sequence number is that of the last. */
  method RecoverLogFile(crc: Checksum, file: Bytes, order: Order, paranoidChecks: bool, reuse: bool,
      full: set<Entry> -> bool, max: nat, ghost frames: seq<Frame>, ghost bounds: seq<nat>, ghost reps: seq<Bytes>,
      ghost ends: seq<nat>, ghost commits: seq<Commit>, ghost first: nat)
    returns (status: bool, tables: seq<seq<Entry>>, held: seq<Entry>, highest: nat)
    ensures Survives(crc, file, frames) && EndAt(frames, bounds, reps, ends) && Logged(first, commits, reps) ==>
              && status && Replayed(order, commits, first, WhollyBefore(ends, |file|), tables, held, max, highest)
              && Left(order, commits, full, WhollyBefore(ends, |file|), reuse, tables, held)
    ensures held == [] || reuse
  {
    ghost var good := Survives(crc, file, frames) && EndAt(frames, bounds, reps, ends) && Logged(first, commits, reps);
    var reader := new Reader(crc, file, true, frames, bounds, reps);
    if good {
      EndsMatch(frames, bounds, reps, ends);
      NothingReplayed(order, commits, first, max, frames, bounds, reps, ends);
      NothingCut(order, commits, full);
    }
    hide *;
    var mem;
    ghost var n;
    status, mem, tables, highest, n := ReplayAll(reader, order, paranoidChecks, full, max, reps, ends, commits, first);
    tables, held := Finish(status, reuse, mem, tables, order, commits, first, n, max, highest, full);
  }

  /** The replay has come as far as batch n, and so has the reader. */
  ghost predicate Replaying(reader: Reader, n: nat, reps: seq<Bytes>, ends: seq<nat>, order: Order,
                            commits: seq<Commit>, first: nat, mem: MemTable?, tables: seq<seq<Entry>>, max: nat,
                            highest: nat, full: set<Entry> -> bool)
    reads reader, mem
  {
    && NextIs(reader, n, commits, reps, ends, first)
    && Replayed(order, commits, first, n, tables, Held(mem), max, highest)
    && CutWhenFull(order, commits, full, n, tables, Held(mem))
  }

  /** The loop over the records. */
  method ReplayAll(reader: Reader, order: Order, paranoidChecks: bool, full: set<Entry> -> bool, max: nat,
      ghost reps: seq<Bytes>, ghost ends: seq<nat>, ghost commits: seq<Commit>, ghost first: nat)
    returns (status: bool, mem: MemTable?, tables: seq<seq<Entry>>, highest: nat, ghost n: nat)
    requires reader.Shape()
    modifies reader
    ensures old(Replaying(reader, 0, reps, ends, order, commits, first, null, [], max, max, full)) ==>
              && status && n == WhollyBefore(ends, |reader.file|)
              && Replayed(order, commits, first, n, tables, Held(mem), max, highest)
              && CutWhenFull(order, commits, full, n, tables, Held(mem))
  {
    hide Replaying, NextIs, Replayed, WhollyBefore, Held, CutWhenFull;
    ghost var good := Replaying(reader, 0, reps, ends, order, commits, first, null, [], max, max, full);
    mem, status, tables, highest, n := null, true, [], max, 0;
    while true
      invariant reader.Shape() && (mem == null || fresh(mem))
      invariant good ==>
                status && Replaying(reader, n, reps, ends, order, commits, first, mem, tables, max, highest, full)
      decreases reader.Unread()
    {
      var ok;
      ok, status, mem, tables, highest, n :=
        ReplayNext(reader, order, paranoidChecks, full, status, mem, tables, highest, reps, ends, commits, first, n,
                   max);
      if !ok || !status {
        break;
      }
    }
  }

  method ReplayNext(reader: Reader, order: Order, paranoidChecks: bool, full: set<Entry> -> bool, status0: bool,
      mem0: MemTable?, tables0: seq<seq<Entry>>, highest0: nat, ghost reps: seq<Bytes>, ghost ends: seq<nat>,
      ghost commits: seq<Commit>, ghost first: nat, ghost n0: nat, ghost max: nat)
    returns (ok: bool, status: bool, mem: MemTable?, tables: seq<seq<Entry>>, highest: nat, ghost n: nat)
    requires reader.Shape()
    modifies reader, if mem0 == null then {} else {mem0}
    ensures reader.Shape() && (ok ==> reader.Unread() < old(reader.Unread()))
    ensures (mem == mem0 || mem == null || fresh(mem))
    ensures status0
            && old(Replaying(reader, n0, reps, ends, order, commits, first, mem0, tables0, max, highest0, full)) ==>
              && status
              && (ok ==> Replaying(reader, n, reps, ends, order, commits, first, mem, tables, max, highest, full))
              && (!ok ==> n == WhollyBefore(ends, |reader.file|)
                          && Replayed(order, commits, first, n, tables, Held(mem), max, highest)
                          && CutWhenFull(order, commits, full, n, tables, Held(mem)))
  {
    hide NextIs, Replayed, WhollyBefore, Logged, CutWhenFull;
    status, mem, tables, highest, n := status0, mem0, tables0, highest0, n0;
    var record;
    ok, record := ReadNext(reader, n, commits, reps, ends, first);
    status := status && (!paranoidChecks || reader.reports == []);
    if ok && status {
      if |record| < HEADER {
        reader.ReportCorruption(|record|);
        status := !paranoidChecks;
      } else {
        status, mem, tables, highest :=
          ReplayInto(record, order, paranoidChecks, full, mem, tables, highest, commits, reps, first, n, max);
        n := n + 1;
      }
    }
  }

  /** The reader stands before batch n, and those before it lie wholly before the cut. */
  ghost predicate NextIs(reader: Reader, n: nat, commits: seq<Commit>, reps: seq<Bytes>, ends: seq<nat>, first: nat)
    reads reader
  {
    && Logged(first, commits, reps) && EndAt(reader.frames, reader.bounds, reps, ends) && reader.records == reps
    && reader.AtRecord(n) && reader.reports == []
    && n <= |ends| == |reps| && forall i :: 0 <= i < n ==> ends[i] <= |reader.file|
  }

  method ReadNext(reader: Reader, ghost n: nat, ghost commits: seq<Commit>, ghost reps: seq<Bytes>,
      ghost ends: seq<nat>, ghost first: nat)
    returns (ok: bool, record: Bytes)
    requires reader.Shape()
    modifies reader
    ensures reader.Shape() && (ok ==> reader.Unread() < old(reader.Unread()))
    ensures old(NextIs(reader, n, commits, reps, ends, first)) ==>
              && reader.reports == []
              && (!ok ==> n == WhollyBefore(ends, |reader.file|))
              && (ok ==> n < |reps| && record == reps[n] && |record| >= HEADER && Logged(first, commits, reps)
                         && NextIs(reader, n + 1, commits, reps, ends, first))
  {
    ghost var good := NextIs(reader, n, commits, reps, ends, first);
    ok, record := reader.ReadRecord(n);
    hide Logged, EndAt, AreRecords;
    if good {
      WhatCameNext(reader, ends, n, ok, record);
      if ok {
        CommitOf(first, commits, reps, n);
      } else {
        BeforeAndNotBefore(ends, |reader.file|, n);
      }
    }
  }

  /** What is in memory at the end becomes a table too, unless the log goes on being used and no
      table has been made from it yet. */
  method Finish(status: bool, reuse: bool, mem: MemTable?, tables: seq<seq<Entry>>, ghost order: Order,
      ghost commits: seq<Commit>, ghost first: nat, ghost n: nat, ghost max: nat, ghost highest: nat,
      ghost full: set<Entry> -> bool)
    returns (tables': seq<seq<Entry>>, held: seq<Entry>)
    ensures status && Replayed(order, commits, first, n, tables, Held(mem), max, highest) ==>
              Replayed(order, commits, first, n, tables', held, max, highest)
    ensures status && CutWhenFull(order, commits, full, n, tables, Held(mem)) ==>
              Left(order, commits, full, n, reuse, tables', held)
    ensures held == [] || (reuse && tables' == [])
  {
    hide Replayed, CutWhenFull, Left;
    if CutWhenFull(order, commits, full, n, tables, Held(mem)) {
      LeftInMemory(order, commits, full, n, reuse, tables, Held(mem));
    }
    tables', held := tables, [];
    if status && reuse && tables == [] {
      held := if mem == null then [] else mem.table;
    } else if mem != null && status {
      if Replayed(order, commits, first, n, tables, Held(mem), max, highest) {
        Flushed(order, commits, first, n, tables, mem.table, max, highest);
      }
      tables' := tables + [mem.table];
    }
  }

  // ---------------------------------------------------------------------------------------------
  // From batches to what a crash leaves of them

  /** The batches with consecutive sequence numbers from `first` on. */
  ghost function Numbered(batches: seq<seq<Op>>, first: nat): (commits: seq<Commit>)
    ensures |commits| == |batches|
  {
    if batches == [] then []
    else
      var before := Numbered(batches[..|batches| - 1], first);
      before + [Commit(Next(first, before), batches[|batches| - 1])]
  }

  ghost predicate Writable(batches: seq<seq<Op>>, first: nat) {
    && 1 <= first && Next(first, Numbered(batches, first)) <= MAX_SEQUENCE_NUMBER
    && forall j :: 0 <= j < |batches| ==> |batches[j]| < MAX_COUNT && AllEncodable(batches[j])
  }

  lemma {:induction false} NumberedPrefix(batches: seq<seq<Op>>, first: nat, n: nat)
    requires n <= |batches|
    ensures Numbered(batches, first)[..n] == Numbered(batches[..n], first)
    ensures Next(first, Numbered(batches[..n], first)) <= Next(first, Numbered(batches, first))
  {
    if n < |batches| {
      var init := batches[..|batches| - 1];
      NumberedPrefix(init, first, n);
      assert init[..n] == batches[..n];
      assert Numbered(batches, first)[..n] == Numbered(init, first)[..n];
    } else {
      assert batches[..n] == batches;
    }
  }

  lemma NothingNumbered(first: nat)
    ensures Next(first, Numbered([], first)) == first
  {
  }

  lemma OneNumbered(batches: seq<seq<Op>>, first: nat, j: nat)
    requires j < |batches|
    ensures Numbered(batches, first)[..j] == Numbered(batches[..j], first)
    ensures Numbered(batches, first)[j] == Commit(Next(first, Numbered(batches[..j], first)), batches[j])
    ensures Next(first, Numbered(batches[..j + 1], first)) == Next(first, Numbered(batches[..j], first)) + |batches[j]|
    ensures Next(first, Numbered(batches[..j + 1], first)) <= Next(first, Numbered(batches, first))
  {
    NumberedPrefix(batches, first, j);
    NumberedPrefix(batches, first, j + 1);
    assert batches[..j + 1][..j] == batches[..j];
    assert Numbered(batches, first)[j] == Numbered(batches, first)[..j + 1][j];
  }

  /** A batch filled operation by operation and numbered. */
  method MakeBatch(ops: seq<Op>, first: nat) returns (rep: Bytes)
    requires |ops| < MAX_COUNT && AllEncodable(ops) && 1 <= first && first + |ops| <= MAX_SEQUENCE_NUMBER
    ensures IsCommit(rep, Commit(first, ops))
  {
    hide OpsBytes, DecodeFixed;
    var b := new WriteBatch();
    for i := 0 to |ops|
      invariant fresh(b) && b.Valid() && b.ops == ops[..i]
    {
      match ops[i]
      case Put(key, value) => b.Put(key, value);
      case Delete(key) => b.Delete(key);
      assert ops[..i + 1] == ops[..i] + [ops[i]];
    }
    assert ops[..|ops|] == ops;
    b.SetSequence(first);
    BatchIsCommit(b);
    rep := b.rep;
  }

  /** Logs batches, from a sequence number on. */
  method WriteLog(crc: Checksum, batches: seq<seq<Op>>, first: nat)
    returns (log: Bytes, ends: seq<nat>, ghost frames: seq<Frame>, ghost bounds: seq<nat>, ghost reps: seq<Bytes>)
    requires Writable(batches, first)
    ensures Logged(first, Numbered(batches, first), reps) && Written(crc, log, frames)
    ensures EndAt(frames, bounds, reps, ends)
    ensures |log| == EndOf(frames)
  {
    var logged := LogBatches(batches, first);
    reps := logged;
    hide *;
    log, ends, frames, bounds := WriteRecords(crc, logged);
  }

  /** Replays a log that was cut anywhere: exactly the entries of the batches that lie wholly before the
      cut are rebuilt, under their own sequence numbers. */
  method RecoverCut(crc: Checksum, log: Bytes, cut: nat, order: Order, paranoidChecks: bool, reuse: bool,
      full: set<Entry> -> bool, max: nat, ghost frames: seq<Frame>, ghost bounds: seq<nat>, ghost reps: seq<Bytes>,
      ghost ends: seq<nat>, ghost commits: seq<Commit>, ghost first: nat)
    returns (status: bool, tables: seq<seq<Entry>>, held: seq<Entry>, highest: nat)
    requires Logged(first, commits, reps) && Written(crc, log, frames) && EndAt(frames, bounds, reps, ends)
    requires |log| == EndOf(frames)
    ensures status && |ends| == |commits| && (forall j :: 0 < j < |ends| ==> ends[j - 1] < ends[j])
    ensures |log| == if commits == [] then 0 else ends[|ends| - 1]
    ensures |log| <= cut ==> WhollyBefore(ends, cut) == |commits|
    ensures var survived := commits[..WhollyBefore(ends, cut)];
            && TableEntries(tables) + SetOf(held) == Wrote(order, survived)
            && highest == Highest(max, first, survived)
    ensures SortedRun(held) && (forall i :: 0 <= i < |tables| ==> SortedRun(tables[i])) && Ascending(tables, held)
    ensures held == [] || reuse
  {
    SameLength(first, commits, reps);
    hide *;
    var file := if cut < |log| then log[..cut] else log;
    CutOff(crc, log, frames, bounds, reps, ends, cut);
    status, tables, held, highest :=
      RecoverLogFile(crc, file, order, paranoidChecks, reuse, full, max, frames, bounds, reps, ends, commits, first);
    ReplayedMeans(order, commits, first, WhollyBefore(ends, cut), tables, held, max, highest);
  }

  lemma SameLength(first: nat, commits: seq<Commit>, reps: seq<Bytes>)
    requires Logged(first, commits, reps)
    ensures |commits| == |reps| && (commits == [] <==> reps == [])
  {
  }

  /** Whatever batches are logged, wherever the log is cut: recovery rebuilds exactly the entries of
      the batches that lie wholly before the cut, under their own sequence numbers. */
  method CrashAndRecover(crc: Checksum, order: Order, batches: seq<seq<Op>>, first: nat, cut: nat, paranoidChecks: bool,
      reuse: bool, full: set<Entry> -> bool, max: nat)
    returns (log: Bytes, ends: seq<nat>, status: bool, tables: seq<seq<Entry>>, held: seq<Entry>, highest: nat,
             ghost frames: seq<Frame>, ghost bounds: seq<nat>, ghost reps: seq<Bytes>)
    requires Writable(batches, first)
    ensures Logged(first, Numbered(batches, first), reps) && Written(crc, log, frames)
    ensures EndAt(frames, bounds, reps, ends)
    ensures |ends| == |batches| && (forall j :: 0 < j < |ends| ==> ends[j - 1] < ends[j])
    ensures |log| == if batches == [] then 0 else ends[|ends| - 1]
    ensures status
    ensures var survived := Numbered(batches, first)[..WhollyBefore(ends, cut)];
            && TableEntries(tables) + SetOf(held) == Wrote(order, survived)
            && highest == Highest(max, first, survived)
    ensures SortedRun(held) && (forall i :: 0 <= i < |tables| ==> SortedRun(tables[i])) && Ascending(tables, held)
  {
    hide *;
    log, ends, frames, bounds, reps := WriteLog(crc, batches, first);
    status, tables, held, highest :=
      RecoverCut(crc, log, cut, order, paranoidChecks, reuse, full, max, frames, bounds, reps, ends,
                 Numbered(batches, first), first);
  }

  lemma ReplayedMeans(order: Order, commits: seq<Commit>, first: nat, n: nat, tables: seq<seq<Entry>>, held: seq<Entry>,
      max: nat, highest: nat)
    requires Replayed(order, commits, first, n, tables, held, max, highest)
    ensures n <= |commits| && TableEntries(tables) + SetOf(held) == Wrote(order, commits[..n])
    ensures highest == Highest(max, first, commits[..n])
    ensures SortedRun(held) && (forall i :: 0 <= i < |tables| ==> SortedRun(tables[i])) && Ascending(tables, held)
  {
  }

  method LogBatches(batches: seq<seq<Op>>, first: nat) returns (reps: seq<Bytes>)
    requires Writable(batches, first)
    ensures Logged(first, Numbered(batches, first), reps) && |reps| == |batches|
  {
    hide IsCommit, Numbered, Next, AllEncodable;
    ghost var commits := Numbered(batches, first);
    NothingNumbered(first);
    assert batches[..0] == [] && batches[..|batches|] == batches;
    var next;
    reps, next := [], first;
    for j := 0 to |batches|
      invariant |reps| == j && 1 <= next == Next(first, Numbered(batches[..j], first))
      invariant forall i :: 0 <= i < j ==> IsCommit(reps[i], commits[i])
      invariant forall i :: 0 <= i < j ==> commits[i].first == Next(first, commits[..i])
    {
      OneNumbered(batches, first, j);
      var rep := MakeBatch(batches[j], next);
      reps, next := reps + [rep], next + |batches[j]|;
    }
  }
}
