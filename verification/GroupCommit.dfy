/** The writer queue: concurrent writers, one of whom logs a whole group (LevelDB db/db_impl.cc,
    Write and BuildBatchGroup).  A step is what one thread does while it holds the mutex, or one
    append to the log or memtable while it does not. */
module GroupCommit {
  import opened Options
  import opened WriteBatches

  /** A call of Write: no batch asks for a new memtable; `size` is the batch's size in bytes. */
  datatype Call = Call(batch: Option<seq<Op>>, size: nat, sync: bool)

  /** A log record: the calls from `lo` up to `hi` in one batch, numbered from `first` on. */
  datatype Record = Record(first: nat, ops: seq<Op>, lo: nat, hi: nat)

  datatype Leader =
    | Making(id: nat)
    | Writing(rec: Record, logged: bool, inserted: nat)

  /** A thread inside Write: whether it waits, was told that it is done, has returned. */
  datatype Thread = Thread(asleep: bool, done: bool, returned: bool)

  /** Calls are named by the order in which they entered the queue; `popped` have left it, and the first
      `synced` records of the log are on disk. */
  datatype State = State(calls: seq<Call>, threads: seq<Thread>, queue: seq<nat>, popped: nat,
                         leader: Option<Leader>, lastSequence: nat, log: seq<Record>, synced: nat,
                         mem: seq<(nat, Op)>)

  datatype Action =
    | Arrive(call: Call)
    | Wake(id: nat)
    | Lead(id: nat)
    | Build(hi: nat)
    | AppendToLog
    | InsertOne
    | Finish
    | Return(id: nat)

  // ---------------------------------------------------------------------------------------------
  // Which calls make a group

  function OpsOf(c: Call): seq<Op> {
    if c.batch.Some? then c.batch.value else []
  }

  /** The operations of the calls from `lo` up to `hi`, in order. */
  function Joined(calls: seq<Call>, lo: nat, hi: nat): seq<Op>
    requires lo <= hi <= |calls|
  {
    if lo == hi then [] else Joined(calls, lo, hi - 1) + OpsOf(calls[hi - 1])
  }

  function SizeOf(c: Call): nat {
    if c.batch.Some? then c.size else 0
  }

  function TotalSize(calls: seq<Call>, lo: nat, hi: nat): nat
    requires lo <= hi <= |calls|
  {
    if lo == hi then 0 else TotalSize(calls, lo, hi - 1) + SizeOf(calls[hi - 1])
  }

  function MaxSize(first: nat): nat {
    if first <= 0x2_0000 then first + 0x2_0000 else 0x10_0000
  }

  /** Call i may join a group led by `lo` to which all calls in between belong. */
  predicate Joins(calls: seq<Call>, lo: nat, i: nat)
    requires lo < i < |calls|
  {
    && !(calls[i].sync && !calls[lo].sync)
    && (calls[i].batch.Some? ==> TotalSize(calls, lo, i + 1) <= MaxSize(calls[lo].size))
  }

  /** The calls `lo` up to `hi` are the group `lo` leads: each joins it, and the next does not. */
  ghost predicate IsGroup(calls: seq<Call>, lo: nat, hi: nat) {
    && lo < hi <= |calls| && calls[lo].batch.Some?
    && (forall i :: lo < i < hi ==> Joins(calls, lo, i))
    && (hi < |calls| ==> !Joins(calls, lo, hi))
  }

  /** The bytes that a group may come to when its first batch has this many: 128 KiB more, if that has no more
      than 128 KiB itself, and 1 MiB otherwise. */
  ghost predicate WithinLimit(first: nat, total: nat) {
    if first <= 128 * 1024 then total <= first + 128 * 1024 else total <= 1024 * 1024
  }

  /** The rules for the calls `lo` up to `hi` in one record: no sync write is left to a leader that does not sync,
      and only a batch alone is larger than the limit. */
  ghost predicate FitTogether(calls: seq<Call>, lo: nat, hi: nat) {
    && lo < hi <= |calls|
    && (forall i :: lo <= i < hi && calls[i].sync ==> calls[lo].sync)
    && (WithinLimit(calls[lo].size, TotalSize(calls, lo, hi)) || forall i :: lo < i < hi ==> calls[i].batch.None?)
  }

  /** The next call is a sync write behind a leader that does not sync, or its batch would go beyond the limit. */
  ghost predicate EndsThere(calls: seq<Call>, lo: nat, hi: nat)
    requires lo < hi < |calls|
  {
    || (calls[hi].sync && !calls[lo].sync)
    || (calls[hi].batch.Some? && !WithinLimit(calls[lo].size, TotalSize(calls, lo, hi) + calls[hi].size))
  }

  lemma {:induction false} NullsAddNothing(calls: seq<Call>, lo: nat, hi: nat)
    requires lo < hi <= |calls| && forall i :: lo < i < hi ==> calls[i].batch.None?
    ensures TotalSize(calls, lo, hi) == TotalSize(calls, lo, lo + 1)
  {
    if lo + 1 < hi {
      NullsAddNothing(calls, lo, hi - 1);
    }
  }

  lemma {:induction false} SizesAdd(calls: seq<Call>, lo: nat, hi: nat)
    requires lo < hi <= |calls| && forall i :: lo < i < hi ==> Joins(calls, lo, i)
    ensures WithinLimit(calls[lo].size, TotalSize(calls, lo, hi)) || forall i :: lo < i < hi ==> calls[i].batch.None?
  {
    if lo + 1 < hi {
      SizesAdd(calls, lo, hi - 1);
      assert Joins(calls, lo, hi - 1);
    }
  }

  /** A group is as long as these rules let it be. */
  lemma GroupsFit(calls: seq<Call>, lo: nat, hi: nat)
    requires IsGroup(calls, lo, hi)
    ensures FitTogether(calls, lo, hi) && (hi < |calls| ==> EndsThere(calls, lo, hi))
  {
    SizesAdd(calls, lo, hi);
    forall i | lo <= i < hi && calls[i].sync
      ensures calls[lo].sync
    {
      assert i > lo ==> Joins(calls, lo, i);
    }
    assert hi < |calls| ==> !Joins(calls, lo, hi);
  }

  /** BuildBatchGroup, over the queue of calls `lo` and on. */
  method BuildBatchGroup(calls: seq<Call>, lo: nat) returns (result: seq<Op>, hi: nat)
    requires lo < |calls| && calls[lo].batch.Some?
    ensures IsGroup(calls, lo, hi) && result == Joined(calls, lo, hi)
    ensures FitTogether(calls, lo, hi) && (hi < |calls| ==> EndsThere(calls, lo, hi))
  {
    var first := calls[lo];
    result := first.batch.value;
    var size := first.size;
    var maxSize := 0x10_0000;
    if size <= 0x2_0000 {
      maxSize := size + 0x2_0000;
    }
    hi := lo + 1;
    assert Joined(calls, lo, lo) == [] && TotalSize(calls, lo, lo) == 0;
    while hi < |calls|
      invariant lo < hi <= |calls| && maxSize == MaxSize(calls[lo].size)
      invariant size == TotalSize(calls, lo, hi) && result == Joined(calls, lo, hi)
      invariant forall i :: lo < i < hi ==> Joins(calls, lo, i)
    {
      var w := calls[hi];
      if w.sync && !first.sync {
        // A sync write is not left to a writer that does not sync.
        break;
      }
      if w.batch.Some? {
        size := size + w.size;
        if size > maxSize {
          break;
        }
        result := result + w.batch.value;
      }
      hi := hi + 1;
    }
    GroupsFit(calls, lo, hi);
  }

  // ---------------------------------------------------------------------------------------------
  // The steps

  function Numbers(first: nat, ops: seq<Op>): (r: seq<(nat, Op)>)
    ensures |r| == |ops|
  {
    seq(|ops|, i requires 0 <= i < |ops| => (first + i, ops[i]))
  }

  /** Pops the queue through call `hi - 1`, tells those writers but the leader that they are done,
      and wakes the new front of the queue. */
  function Popped(s: State, hi: nat): State
    requires s.popped < hi <= |s.calls| && |s.queue| == |s.calls| - s.popped && |s.threads| == |s.calls|
  {
    s.(queue := s.queue[hi - s.popped..], popped := hi, leader := None,
       threads := seq(|s.threads|, id requires 0 <= id < |s.threads| =>
                        if id == s.popped then s.threads[id].(returned := true)
                        else if s.popped < id < hi then s.threads[id].(done := true, asleep := false)
                        else if id == hi then s.threads[id].(asleep := false)
                        else s.threads[id]))
  }

  ghost predicate Step(s: State, a: Action, s': State) {
    match a
    case Arrive(call) =>
      var id := |s.calls|;
      s' == s.(calls := s.calls + [call], queue := s.queue + [id],
               threads := s.threads + [Thread(s.queue != [], false, false)])
    case Wake(id) =>
      // A wake-up without cause: the writer looks again and, with nothing to do, waits on.
      && id < |s.threads| && s.threads[id].asleep
      && s' == if s.threads[id].done || (s.queue != [] && s.queue[0] == id)
               then s.(threads := s.threads[id := s.threads[id].(asleep := false)]) else s
    case Lead(id) =>
      && s.leader.None? && s.queue != [] && s.queue[0] == id
      && id < |s.threads| && !s.threads[id].asleep && !s.threads[id].done
      && s' == s.(leader := Some(Making(id)))
    case Build(hi) =>
      && s.leader.Some? && s.leader.value.Making? && |s.queue| == |s.calls| - s.popped && s.queue != []
      && |s.threads| == |s.calls|
      && var id := s.popped;
      && if s.calls[id].batch.None? then hi == id + 1 && s' == Popped(s, hi)
         else
           && IsGroup(s.calls, id, hi)
           && s' == s.(leader := Some(Writing(Record(s.lastSequence + 1, Joined(s.calls, id, hi), id, hi), false, 0)))
    case AppendToLog =>
      && s.leader.Some? && s.leader.value.Writing? && !s.leader.value.logged
      && var rec := s.leader.value.rec;
      && rec.lo < |s.calls|
      && s' == s.(log := s.log + [rec], synced := if s.calls[rec.lo].sync then |s.log| + 1 else s.synced,
                  leader := Some(s.leader.value.(logged := true)))
    case InsertOne =>
      && s.leader.Some? && s.leader.value.Writing? && s.leader.value.logged
      && var w := s.leader.value;
      && w.inserted < |w.rec.ops|
      && s' == s.(mem := s.mem + [(w.rec.first + w.inserted, w.rec.ops[w.inserted])],
                  leader := Some(w.(inserted := w.inserted + 1)))
    case Finish =>
      && s.leader.Some? && s.leader.value.Writing? && s.leader.value.logged
      && var w := s.leader.value;
      && |s.threads| == |s.calls|
      && w.inserted == |w.rec.ops| && s.popped < w.rec.hi <= |s.calls| && |s.queue| == |s.calls| - s.popped
      && s' == Popped(s.(lastSequence := s.lastSequence + |w.rec.ops|), w.rec.hi)
    case Return(id) =>
      && id < |s.threads| && s.threads[id].done && !s.threads[id].asleep && !s.threads[id].returned
      && s' == s.(threads := s.threads[id := s.threads[id].(returned := true)])
  }

  // ---------------------------------------------------------------------------------------------
  // What every step keeps

  ghost predicate AllNull(calls: seq<Call>, lo: nat, hi: nat) {
    forall i :: lo <= i < hi && i < |calls| ==> calls[i].batch.None?
  }

  function AllOps(log: seq<Record>): seq<Op> {
    if log == [] then [] else AllOps(log[..|log| - 1]) + log[|log| - 1].ops
  }

  function MemOf(log: seq<Record>): seq<(nat, Op)> {
    if log == [] then [] else MemOf(log[..|log| - 1]) + Numbers(log[|log| - 1].first, log[|log| - 1].ops)
  }

  /** The records are the groups of the calls before `end`, in queue order and numbered without a
      gap; only calls without a batch are in no group. */
  ghost predicate Groups(calls: seq<Call>, log: seq<Record>, start: nat, end: nat)
    requires end <= |calls|
  {
    if log == [] then AllNull(calls, 0, end)
    else
      var before, r := log[..|log| - 1], log[|log| - 1];
      && r.lo < r.hi <= end && AllNull(calls, r.hi, end)
      && r.ops == Joined(calls, r.lo, r.hi) && r.first == start + 1 + |AllOps(before)|
      && Groups(calls, before, start, r.lo)
  }

  /** The records whose groups have been popped. */
  function Finished(s: State): seq<Record> {
    if s.leader.Some? && s.leader.value.Writing? && s.leader.value.logged && s.log != [] then s.log[..|s.log| - 1]
    else s.log
  }

  ghost predicate QueueInv(s: State) {
    && s.popped <= |s.calls| && |s.queue| == |s.calls| - s.popped
    && (forall i :: 0 <= i < |s.queue| ==> s.queue[i] == s.popped + i)
    && |s.threads| == |s.calls|
    && (forall id :: 0 <= id < s.popped ==> (s.threads[id].done || s.threads[id].returned) && !s.threads[id].asleep)
    && (forall id :: s.popped <= id < |s.threads| ==> !s.threads[id].done && !s.threads[id].returned)
    && (s.queue != [] ==> !s.threads[s.popped].asleep)
    && (s.leader.Some? ==> s.queue != [])
    && (s.leader.Some? && s.leader.value.Making? ==> s.leader.value.id == s.popped)
  }

  ghost predicate WritingInv(s: State) {
    s.leader.Some? && s.leader.value.Writing? ==>
      var w := s.leader.value;
      && w.rec.lo == s.popped < w.rec.hi <= |s.calls| && w.rec.ops == Joined(s.calls, w.rec.lo, w.rec.hi)
      && w.rec.first == s.lastSequence + 1 && w.inserted <= |w.rec.ops|
      && (if w.logged then s.log != [] && s.log[|s.log| - 1] == w.rec else w.inserted == 0)
  }

  ghost predicate LogInv(s: State, start: nat) {
    && s.popped <= |s.calls|
    && Groups(s.calls, Finished(s), start, s.popped)
    && s.lastSequence == start + |AllOps(Finished(s))|
    && s.mem == MemOf(Finished(s)) +
                (if s.leader.Some? && s.leader.value.Writing? && s.leader.value.inserted <= |s.leader.value.rec.ops|
                 then Numbers(s.leader.value.rec.first, s.leader.value.rec.ops[..s.leader.value.inserted]) else [])
  }

  ghost predicate Inv(s: State, start: nat) {
    QueueInv(s) && WritingInv(s) && LogInv(s, start)
  }

  ghost predicate Init(s: State, start: nat) {
    s == State([], [], [], 0, None, start, [], 0, [])
  }

  // ---------------------------------------------------------------------------------------------
  // More calls change nothing about the groups before them

  lemma {:induction false} JoinedKept(calls: seq<Call>, c: Call, lo: nat, hi: nat)
    requires lo <= hi <= |calls|
    ensures Joined(calls + [c], lo, hi) == Joined(calls, lo, hi)
  {
    if lo < hi {
      JoinedKept(calls, c, lo, hi - 1);
    }
  }

  lemma {:induction false} GroupsKept(calls: seq<Call>, c: Call, log: seq<Record>, start: nat, end: nat)
    requires end <= |calls| && Groups(calls, log, start, end)
    ensures Groups(calls + [c], log, start, end)
  {
    if log != [] {
      var r := log[|log| - 1];
      JoinedKept(calls, c, r.lo, r.hi);
      GroupsKept(calls, c, log[..|log| - 1], start, r.lo);
    }
  }

  lemma ArriveKeepsInv(s: State, a: Action, s': State, start: nat)
    requires Inv(s, start) && a.Arrive? && Step(s, a, s')
    ensures Inv(s', start)
  {
    GroupsKept(s.calls, a.call, Finished(s), start, s.popped);
    if s.leader.Some? && s.leader.value.Writing? {
      JoinedKept(s.calls, a.call, s.leader.value.rec.lo, s.leader.value.rec.hi);
    }
    assert QueueInv(s');
  }

  lemma PoppedKeepsQueue(s: State, hi: nat)
    requires QueueInv(s) && s.popped < hi <= |s.calls|
    ensures QueueInv(Popped(s, hi))
  {
  }

  lemma MoreNull(calls: seq<Call>, log: seq<Record>, start: nat, end: nat)
    requires end < |calls| && Groups(calls, log, start, end) && calls[end].batch.None?
    ensures Groups(calls, log, start, end + 1)
  {
  }

  lemma BuildKeepsInv(s: State, a: Action, s': State, start: nat)
    requires Inv(s, start) && a.Build? && Step(s, a, s')
    ensures Inv(s', start)
  {
    var id := s.popped;
    hide Joined, MemOf, AllOps;
    if s.calls[id].batch.None? {
      PoppedKeepsQueue(s, id + 1);
      MoreNull(s.calls, s.log, start, id);
    }
  }

  lemma LogKeepsInv(s: State, a: Action, s': State, start: nat)
    requires Inv(s, start) && a.AppendToLog? && Step(s, a, s')
    ensures Inv(s', start)
  {
    assert Finished(s') == Finished(s);
  }

  lemma SameQueue(s: State, log: seq<Record>, mem: seq<(nat, Op)>, w: Leader)
    requires QueueInv(s) && s.leader.Some? && w.Writing?
    ensures QueueInv(s.(log := log, mem := mem, leader := Some(w)))
  {
  }

  lemma InsertKeepsLog(s: State, s': State, start: nat)
    requires WritingInv(s) && LogInv(s, start) && Step(s, InsertOne, s')
    ensures LogInv(s', start)
  {
    hide Groups, Joined, MemOf, AllOps, QueueInv, Numbers;
    var w := s.leader.value;
    assert Finished(s') == Finished(s);
    OneMoreNumber(w.rec.first, w.rec.ops, w.inserted);
  }

  lemma InsertKeepsInv(s: State, a: Action, s': State, start: nat)
    requires Inv(s, start) && a.InsertOne? && Step(s, a, s')
    ensures Inv(s', start)
  {
    var w := s.leader.value;
    SameQueue(s, s.log, s'.mem, w.(inserted := w.inserted + 1));
    InsertKeepsLog(s, s', start);
    hide LogInv, QueueInv, Joined;
    assert WritingInv(s');
  }

  lemma OneMoreNumber(first: nat, ops: seq<Op>, n: nat)
    requires n < |ops|
    ensures Numbers(first, ops[..n + 1]) == Numbers(first, ops[..n]) + [(first + n, ops[n])]
  {
  }

  lemma ThreadsKeepInv(s: State, a: Action, s': State, start: nat)
    requires Inv(s, start) && (a.Wake? || a.Lead? || a.Return?) && Step(s, a, s')
    ensures Inv(s', start)
  {
    hide Groups, Joined, MemOf, AllOps, Numbers;
  }

  lemma FinishedOne(s: State, start: nat)
    requires s.leader.Some? && s.leader.value.Writing? && s.leader.value.logged && WritingInv(s) && LogInv(s, start)
    ensures s.log != [] && Groups(s.calls, s.log, start, s.leader.value.rec.hi)
    ensures AllOps(s.log) == AllOps(Finished(s)) + s.leader.value.rec.ops
    ensures MemOf(s.log) == MemOf(Finished(s)) + Numbers(s.leader.value.rec.first, s.leader.value.rec.ops)
  {
  }

  lemma FinishKeepsInv(s: State, a: Action, s': State, start: nat)
    requires Inv(s, start) && a.Finish? && Step(s, a, s')
    ensures Inv(s', start)
  {
    var w := s.leader.value;
    hide Groups, Joined, MemOf, AllOps;
    PoppedKeepsQueue(s.(lastSequence := s'.lastSequence), w.rec.hi);
    hide QueueInv;
    FinishedOne(s, start);
    assert w.rec.ops[..w.inserted] == w.rec.ops;
    assert Finished(s') == s.log && Finished(s) == s.log[..|s.log| - 1];
  }

  /** Every step of every thread keeps the invariant. */
  lemma StepKeepsInv(s: State, a: Action, s': State, start: nat)
    requires Inv(s, start) && Step(s, a, s')
    ensures Inv(s', start)
  {
    hide Inv, Step;
    match a
    case Arrive(_) => ArriveKeepsInv(s, a, s', start);
    case Wake(_) => ThreadsKeepInv(s, a, s', start);
    case Lead(_) => ThreadsKeepInv(s, a, s', start);
    case Build(_) => BuildKeepsInv(s, a, s', start);
    case AppendToLog => LogKeepsInv(s, a, s', start);
    case InsertOne => InsertKeepsInv(s, a, s', start);
    case Finish => FinishKeepsInv(s, a, s', start);
    case Return(_) => ThreadsKeepInv(s, a, s', start);
  }

  // ---------------------------------------------------------------------------------------------
  // What holds in every interleaving

  ghost predicate IsRun(run: seq<State>, acts: seq<Action>, start: nat) {
    && |run| == |acts| + 1 && Init(run[0], start)
    && forall i :: 0 <= i < |acts| ==> Step(run[i], acts[i], run[i + 1])
  }

  lemma {:induction false} RunsKeepInv(run: seq<State>, acts: seq<Action>, start: nat, i: nat)
    requires IsRun(run, acts, start) && i < |run|
    ensures Inv(run[i], start)
  {
    if i > 0 {
      RunsKeepInv(run, acts, start, i - 1);
      StepKeepsInv(run[i - 1], acts[i - 1], run[i], start);
    }
  }

  ghost predicate InGroup(log: seq<Record>, i: int, id: nat) {
    0 <= i < |log| && log[i].lo <= id < log[i].hi
  }

  /** Each call with a batch that has left the queue is in exactly one group, no other call before
      the group's first one is, and the group holds its operations among those of its neighbours. */
  lemma {:induction false} InExactlyOneGroup(calls: seq<Call>, log: seq<Record>, start: nat, end: nat, id: nat)
    requires end <= |calls| && Groups(calls, log, start, end) && id < end && calls[id].batch.Some?
    ensures exists i :: InGroup(log, i, id)
    ensures forall i, j :: InGroup(log, i, id) && InGroup(log, j, id) ==> i == j
  {
    var before, r := log[..|log| - 1], log[|log| - 1];
    if id < r.lo {
      InExactlyOneGroup(calls, before, start, r.lo, id);
      var i :| InGroup(before, i, id);
      assert InGroup(log, i, id);
      assert forall j :: InGroup(log, j, id) ==> InGroup(before, j, id);
    } else {
      assert InGroup(log, |log| - 1, id);
      forall j | InGroup(log, j, id)
        ensures j == |log| - 1
      {
        if j < |log| - 1 {
          GroupsEnd(calls, before, start, r.lo, j);
        }
      }
    }
  }

  lemma {:induction false} GroupsEnd(calls: seq<Call>, log: seq<Record>, start: nat, end: nat, i: nat)
    requires end <= |calls| && Groups(calls, log, start, end) && i < |log|
    ensures log[i].lo < log[i].hi <= end && log[i].ops == Joined(calls, log[i].lo, log[i].hi)
  {
    if i < |log| - 1 {
      GroupsEnd(calls, log[..|log| - 1], start, log[|log| - 1].lo, i);
    }
  }

  lemma {:induction false} JoinedSplits(calls: seq<Call>, lo: nat, mid: nat, hi: nat)
    requires lo <= mid <= hi <= |calls|
    ensures Joined(calls, lo, hi) == Joined(calls, lo, mid) + Joined(calls, mid, hi)
  {
    if mid < hi {
      JoinedSplits(calls, lo, mid, hi - 1);
    }
  }

  lemma {:induction false} NullJoins(calls: seq<Call>, lo: nat, hi: nat)
    requires lo <= hi <= |calls| && AllNull(calls, lo, hi)
    ensures Joined(calls, lo, hi) == []
  {
    if lo < hi {
      NullJoins(calls, lo, hi - 1);
    }
  }

  /** The groups one after the other are the batches of the calls in the order they queued up. */
  lemma {:induction false} GroupsAreInQueueOrder(calls: seq<Call>, log: seq<Record>, start: nat, end: nat)
    requires end <= |calls| && Groups(calls, log, start, end)
    ensures AllOps(log) == Joined(calls, 0, end)
  {
    if log == [] {
      NullJoins(calls, 0, end);
    } else {
      var r := log[|log| - 1];
      GroupsAreInQueueOrder(calls, log[..|log| - 1], start, r.lo);
      JoinedSplits(calls, 0, r.lo, r.hi);
      JoinedSplits(calls, 0, r.hi, end);
      NullJoins(calls, r.hi, end);
    }
  }

  lemma NumbersConcat(first: nat, a: seq<Op>, b: seq<Op>)
    ensures Numbers(first, a + b) == Numbers(first, a) + Numbers(first + |a|, b)
  {
  }

  /** Their operations are numbered one by one from the first sequence number on. */
  lemma {:induction false} NumberedWithoutGap(calls: seq<Call>, log: seq<Record>, start: nat, end: nat)
    requires end <= |calls| && Groups(calls, log, start, end)
    ensures MemOf(log) == Numbers(start + 1, AllOps(log))
  {
    hide Numbers, Joined, AllNull;
    if log != [] {
      var before, r := log[..|log| - 1], log[|log| - 1];
      NumberedWithoutGap(calls, before, start, r.lo);
      NumbersConcat(start + 1, AllOps(before), r.ops);
    }
  }

  /** What a reader at snapshot `t` sees of a memtable. */
  function Seen(mem: seq<(nat, Op)>, t: nat): seq<(nat, Op)> {
    if mem == [] then []
    else
      var e := mem[|mem| - 1];
      Seen(mem[..|mem| - 1], t) + (if e.0 <= t then [e] else [])
  }

  lemma {:induction false} SeenOfNumbers(first: nat, ops: seq<Op>, t: nat)
    ensures Seen(Numbers(first, ops), t) ==
            Numbers(first, ops[..if t < first then 0 else if t - first < |ops| then t - first + 1 else |ops|])
  {
    if ops != [] {
      var init := ops[..|ops| - 1];
      SeenOfNumbers(first, init, t);
      assert Numbers(first, ops)[..|ops| - 1] == Numbers(first, init);
      var n := if t < first then 0 else if t - first < |ops| then t - first + 1 else |ops|;
      if n < |ops| {
        assert init[..n] == ops[..n];
      } else {
        assert ops[..n] == ops && init[..|init|] == init;
        assert Numbers(first, ops) == Numbers(first, init) + [(first + |init|, ops[|ops| - 1])];
      }
    }
  }

  /** All that has been inserted, as one numbered sequence. */
  lemma MemIsNumbered(s: State, start: nat) returns (more: seq<Op>)
    requires Inv(s, start)
    ensures s.mem == Numbers(start + 1, AllOps(Finished(s)) + more)
    ensures MemOf(Finished(s)) == Numbers(start + 1, AllOps(Finished(s)))
    ensures s.lastSequence == start + |AllOps(Finished(s))|
  {
    NumberedWithoutGap(s.calls, Finished(s), start, s.popped);
    more := if s.leader.Some? && s.leader.value.Writing? then s.leader.value.rec.ops[..s.leader.value.inserted] else [];
    NumbersConcat(start + 1, AllOps(Finished(s)), more);
  }

  lemma {:induction false} MemGrows(run: seq<State>, acts: seq<Action>, start: nat, i: nat, j: nat)
    requires IsRun(run, acts, start) && i <= j < |run|
    ensures run[i].mem <= run[j].mem
    decreases j
  {
    if i < j {
      MemGrows(run, acts, start, i, j - 1);
      assert Step(run[j - 1], acts[j - 1], run[j]);
    }
  }

  lemma StillSeen(m: seq<(nat, Op)>, x: seq<Op>, y: seq<Op>, z: seq<Op>, start: nat)
    requires m == Numbers(start + 1, z) && Numbers(start + 1, x + y) <= m
    ensures Seen(m, start + |x|) == Numbers(start + 1, x)
  {
    SeenOfNumbers(start + 1, z, start + |x|);
    assert |x| <= |z|;
    assert z[..|x|] == x by {
      forall k | 0 <= k < |x|
        ensures z[k] == x[k]
      {
        assert Numbers(start + 1, x + y)[k] == m[k];
      }
    }
    if |x| == 0 {
      assert z[..0] == x;
    }
  }

  /** A reader that takes its snapshot at one moment and looks at any later one sees exactly the
      groups that were finished when it took it: whole groups, whatever is being inserted. */
  lemma ReaderSeesWholeGroups(run: seq<State>, acts: seq<Action>, start: nat, i: nat, j: nat)
    requires IsRun(run, acts, start) && i <= j < |run|
    ensures Seen(run[j].mem, run[i].lastSequence) == MemOf(Finished(run[i]))
  {
    RunsKeepInv(run, acts, start, i);
    RunsKeepInv(run, acts, start, j);
    MemGrows(run, acts, start, i, j);
    hide *;
    var s := run[i];
    var more := MemIsNumbered(s, start);
    var later := MemIsNumbered(run[j], start);
    StillSeen(run[j].mem, AllOps(Finished(s)), more, AllOps(Finished(run[j])) + later, start);
  }

  /** A writer that has returned: its batch is in exactly one group, which is logged and inserted. */
  lemma ReturnedIsCommitted(s: State, start: nat, id: nat)
    requires Inv(s, start) && id < |s.calls| && (s.threads[id].returned || s.threads[id].done)
    requires s.calls[id].batch.Some?
    ensures id < s.popped && Finished(s) <= s.log
    ensures exists i :: InGroup(Finished(s), i, id)
    ensures forall i, j :: InGroup(Finished(s), i, id) && InGroup(Finished(s), j, id) ==> i == j
    ensures Numbers(start + 1, Joined(s.calls, 0, s.popped)) <= s.mem
    ensures s.lastSequence == start + |Joined(s.calls, 0, s.popped)|
  {
    InExactlyOneGroup(s.calls, Finished(s), start, s.popped, id);
    GroupsAreInQueueOrder(s.calls, Finished(s), start, s.popped);
    NumberedWithoutGap(s.calls, Finished(s), start, s.popped);
  }

  // ---------------------------------------------------------------------------------------------
  // Sync writes and sizes

  /** Every record keeps the rules, and those whose leader asked for it are on disk. */
  ghost predicate RulesInv(s: State) {
    && s.synced <= |s.log|
    && (forall i :: 0 <= i < |s.log| ==>
          && FitTogether(s.calls, s.log[i].lo, s.log[i].hi)
          && (s.calls[s.log[i].lo].sync ==> i < s.synced))
    && (s.leader.Some? && s.leader.value.Writing? ==>
          FitTogether(s.calls, s.leader.value.rec.lo, s.leader.value.rec.hi))
  }

  lemma {:induction false} TotalKept(calls: seq<Call>, c: Call, lo: nat, hi: nat)
    requires lo <= hi <= |calls|
    ensures TotalSize(calls + [c], lo, hi) == TotalSize(calls, lo, hi)
  {
    if lo < hi {
      TotalKept(calls, c, lo, hi - 1);
    }
  }

  lemma FitKept(calls: seq<Call>, c: Call, lo: nat, hi: nat)
    requires FitTogether(calls, lo, hi)
    ensures FitTogether(calls + [c], lo, hi)
  {
    TotalKept(calls, c, lo, hi);
    hide TotalSize, WithinLimit;
  }

  lemma ArriveKeepsRules(s: State, a: Action, s': State)
    requires RulesInv(s) && a.Arrive? && Step(s, a, s')
    ensures RulesInv(s')
  {
    hide FitTogether;
    forall i | 0 <= i < |s.log|
      ensures FitTogether(s'.calls, s.log[i].lo, s.log[i].hi) && s.log[i].lo < |s.calls|
    {
      assert FitTogether(s.calls, s.log[i].lo, s.log[i].hi);
      FitKept(s.calls, a.call, s.log[i].lo, s.log[i].hi);
      FitInside(s.calls, s.log[i].lo, s.log[i].hi);
    }
    if s.leader.Some? && s.leader.value.Writing? {
      FitKept(s.calls, a.call, s.leader.value.rec.lo, s.leader.value.rec.hi);
    }
  }

  lemma FitInside(calls: seq<Call>, lo: nat, hi: nat)
    requires FitTogether(calls, lo, hi)
    ensures lo < hi <= |calls|
  {
  }

  lemma StepKeepsRules(s: State, a: Action, s': State)
    requires RulesInv(s) && Step(s, a, s')
    ensures RulesInv(s')
  {
    if a.Arrive? {
      ArriveKeepsRules(s, a, s');
    } else if a.Build? && s.calls[s.popped].batch.Some? {
      GroupsFit(s.calls, s.popped, a.hi);
    }
    hide FitTogether, IsGroup, Joined;
  }

  lemma {:induction false} RunsKeepRules(run: seq<State>, acts: seq<Action>, start: nat, i: nat)
    requires IsRun(run, acts, start) && i < |run|
    ensures RulesInv(run[i])
  {
    hide RulesInv, Step, Init;
    if i == 0 {
      StartsWithRules(run[0], start);
    } else {
      RunsKeepRules(run, acts, start, i - 1);
      StepKeepsRules(run[i - 1], acts[i - 1], run[i]);
    }
  }

  lemma StartsWithRules(s: State, start: nat)
    requires Init(s, start)
    ensures RulesInv(s)
  {
  }

  /** No record of any run takes a sync write along with a leader that does not sync, or grows beyond the limit
      of its first batch, unless this is all there is in it. */
  lemma RecordsKeepTheRules(run: seq<State>, acts: seq<Action>, start: nat, n: nat, i: nat, id: nat)
    requires IsRun(run, acts, start) && n < |run| && i < |run[n].log| && run[n].log[i].lo <= id < run[n].log[i].hi
    ensures var r, calls := run[n].log[i], run[n].calls;
            && r.hi <= |calls| && (calls[id].sync ==> calls[r.lo].sync)
            && (|| TotalSize(calls, r.lo, r.hi) <= (if calls[r.lo].size <= 0x2_0000 then calls[r.lo].size + 0x2_0000
                                                     else 0x10_0000)
                || forall k :: r.lo < k < r.hi ==> calls[k].batch.None?)
  {
    RunsKeepRules(run, acts, start, n);
    assert FitTogether(run[n].calls, run[n].log[i].lo, run[n].log[i].hi);
    hide TotalSize, IsRun;
  }

  /** A sync write that has returned, or been told that it is done, is on disk: its batch is in a record that has
      been synced, and everything before it is too. */
  lemma SyncedWhenReturned(run: seq<State>, acts: seq<Action>, start: nat, n: nat, id: nat) returns (i: nat)
    requires IsRun(run, acts, start) && n < |run| && id < |run[n].calls| && run[n].calls[id].sync
    requires |run[n].threads| == |run[n].calls| && (run[n].threads[id].returned || run[n].threads[id].done)
    requires run[n].calls[id].batch.Some?
    ensures i < run[n].synced <= |run[n].log| && run[n].log[i].lo <= id < run[n].log[i].hi
  {
    var s := run[n];
    RunsKeepInv(run, acts, start, n);
    RunsKeepRules(run, acts, start, n);
    hide IsRun;
    ReturnedIsCommitted(s, start, id);
    hide Inv;
    var k :| InGroup(Finished(s), k, id);
    i := k;
    assert s.log[i] == Finished(s)[i];
    assert FitTogether(s.calls, s.log[i].lo, s.log[i].hi);
  }

  lemma GroupFrom(calls: seq<Call>, lo: nat, h: nat) returns (hi: nat)
    requires lo < h <= |calls| && calls[lo].batch.Some? && forall i :: lo < i < h ==> Joins(calls, lo, i)
    ensures IsGroup(calls, lo, hi)
    decreases |calls| - h
  {
    if h < |calls| && Joins(calls, lo, h) {
      hi := GroupFrom(calls, lo, h + 1);
    } else {
      hi := h;
    }
  }

  lemma LeaderCanMove(s: State, start: nat) returns (a: Action, s': State)
    requires Inv(s, start) && s.leader.Some?
    ensures Step(s, a, s') && !a.Arrive? && !a.Wake?
  {
    hide LogInv, Joined, TotalSize;
    var w, id := s.leader.value, s.popped;
    if w.Making? && s.calls[id].batch.None? {
      a, s' := Build(id + 1), Popped(s, id + 1);
    } else if w.Making? {
      var hi := GroupFrom(s.calls, id, id + 1);
      var rec := Record(s.lastSequence + 1, Joined(s.calls, id, hi), id, hi);
      a, s' := Build(hi), s.(leader := Some(Writing(rec, false, 0)));
    } else if !w.logged {
      a := AppendToLog;
      s' := s.(log := s.log + [w.rec], synced := if s.calls[w.rec.lo].sync then |s.log| + 1 else s.synced,
               leader := Some(w.(logged := true)));
    } else if w.inserted < |w.rec.ops| {
      a := InsertOne;
      s' := s.(mem := s.mem + [(w.rec.first + w.inserted, w.rec.ops[w.inserted])],
               leader := Some(w.(inserted := w.inserted + 1)));
    } else {
      a, s' := Finish, Popped(s.(lastSequence := s.lastSequence + |w.rec.ops|), w.rec.hi);
    }
  }

  /** No wake-up is lost: while some writer has not returned, some thread has a step to take that is
      neither a new call nor a wake-up without cause. */
  lemma SomeThreadCanMove(s: State, start: nat, id: nat) returns (a: Action, s': State)
    requires Inv(s, start) && id < |s.threads| && !s.threads[id].returned
    ensures Step(s, a, s') && !a.Arrive? && !a.Wake?
  {
    if s.leader.Some? {
      a, s' := LeaderCanMove(s, start);
    } else if id < s.popped {
      a, s' := Return(id), s.(threads := s.threads[id := s.threads[id].(returned := true)]);
    } else {
      a, s' := Lead(s.popped), s.(leader := Some(Making(s.popped)));
    }
  }
}
