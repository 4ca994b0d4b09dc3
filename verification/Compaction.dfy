/** Merging tables and dropping entries (LevelDB db/db_impl.cc DoCompactionWork, with
    Compaction::IsBaseLevelForKey of db/version_set.cc). */
module Compaction {
  import opened Options
  import opened DbFormat
  import opened Tree
  import opened Inputs
  import opened OutputCuts

  /** Rule (A): the entry before, of the same user key, is already at or below the snapshot. */
  ghost predicate HiddenByNewer(es: seq<Entry>, i: nat, snap: SequenceNumber)
    requires i < |es|
  {
    0 < i && es[i - 1].k.user == es[i].k.user && es[i - 1].k.sn <= snap
  }

  /** Rule (B): a deletion at or below the snapshot whose key has no data further down. */
  ghost predicate ObsoleteDeletion(e: Entry, snap: SequenceNumber, base: iset<UserKey>) {
    e.k.kind.Deletion? && e.k.sn <= snap && e.k.user in base
  }

  ghost predicate Dropped(es: seq<Entry>, i: nat, snap: SequenceNumber, base: iset<UserKey>)
    requires i < |es|
  {
    HiddenByNewer(es, i, snap) || ObsoleteDeletion(es[i], snap, base)
  }

  /** What a compaction keeps of the first `n` entries. */
  ghost function Kept(es: seq<Entry>, n: nat, snap: SequenceNumber, base: iset<UserKey>): seq<Entry>
    requires n <= |es|
  {
    if n == 0 then []
    else Kept(es, n - 1, snap, base) + (if Dropped(es, n - 1, snap, base) then [] else [es[n - 1]])
  }

  lemma {:induction false} InKept(es: seq<Entry>, n: nat, snap: SequenceNumber, base: iset<UserKey>, e: Entry)
    requires n <= |es|
    ensures e in Kept(es, n, snap, base) <==> exists i :: 0 <= i < n && es[i] == e && !Dropped(es, i, snap, base)
  {
    if n > 0 {
      InKept(es, n - 1, snap, base, e);
    }
  }

  lemma {:induction false} KeptIsSorted(es: seq<Entry>, n: nat, snap: SequenceNumber, base: iset<UserKey>)
    requires n <= |es| && SortedRun(es)
    ensures SortedRun(Kept(es, n, snap, base))
  {
    if n > 0 {
      KeptIsSorted(es, n - 1, snap, base);
      var kept := Kept(es, n - 1, snap, base);
      forall i | 0 <= i < |kept|
        ensures Before(kept[i].k, es[n - 1].k)
      {
        InKept(es, n - 1, snap, base, kept[i]);
      }
    }
  }

  // ---------------------------------------------------------------------------------------------
  // What the drop rule means to readers

  /** Older entries of a key are dropped once a newer one is at or below the snapshot. */
  lemma OlderIsHidden(es: seq<Entry>, i: nat, j: nat, snap: SequenceNumber)
    requires SortedRun(es) && i < j < |es| && es[i].k.user == es[j].k.user && es[i].k.sn <= snap
    ensures HiddenByNewer(es, j, snap)
  {
    if i < j - 1 {
      assert Before(es[i].k, es[j - 1].k) && Before(es[j - 1].k, es[j].k);
    }
  }

  /** Of what is kept and what is left, nothing visible is newer than a newest entry that was
      dropped; if it is kept it is still the newest. */
  lemma AfterDropping(es: seq<Entry>, rest: set<Entry>, snap: SequenceNumber, base: iset<UserKey>, user: UserKey,
                      s: SequenceNumber, i: nat)
    requires SortedRun(es) && Distinct(SetOf(es) + rest) && SetOf(es) !! rest && snap <= s && i < |es|
    requires IsNewest(SetOf(es) + rest, user, s, es[i])
    requires Dropped(es, i, snap, base)
    ensures ObsoleteDeletion(es[i], snap, base)
    ensures forall o :: o in SetOf(Kept(es, |es|, snap, base)) + rest && Visible(o, user, s) ==>
      o in rest && o.k.sn < es[i].k.sn
  {
    if HiddenByNewer(es, i, snap) {
      assert Before(es[i - 1].k, es[i].k);
      assert es[i - 1] in SetOf(es) + rest && es[i] in SetOf(es) + rest;
      assert Visible(es[i - 1], user, s);
    }
    forall o | o in SetOf(Kept(es, |es|, snap, base)) + rest && Visible(o, user, s)
      ensures o in rest && o.k.sn < es[i].k.sn
    {
      InKept(es, |es|, snap, base, o);
      assert o in SetOf(es) + rest;
      if o !in rest {
        var j :| 0 <= j < |es| && es[j] == o && !Dropped(es, j, snap, base);
        if o.k.sn < es[i].k.sn {
          assert i < j;
          OlderIsHidden(es, i, j, snap);
        }
      }
    }
  }

  /** A deletion dropped by rule (B) uncovers what `rest` holds: it is what a reader at the snapshot
      sees of its key, and the next older entry, in `rest`, is a value. */
  ghost predicate Resurrects(es: seq<Entry>, rest: set<Entry>, i: nat, snap: SequenceNumber, base: iset<UserKey>)
    requires i < |es|
  {
    && ObsoleteDeletion(es[i], snap, base)
    && IsNewest(SetOf(es) + rest, es[i].k.user, snap, es[i])
    && exists o :: IsNewest(rest, es[i].k.user, snap, o) && o.k.kind.Value?
  }

  lemma KeptIsAmong(es: seq<Entry>, snap: SequenceNumber, base: iset<UserKey>)
    ensures SetOf(Kept(es, |es|, snap, base)) <= SetOf(es)
  {
    forall e | e in Kept(es, |es|, snap, base)
      ensures e in es
    {
      InKept(es, |es|, snap, base, e);
    }
  }

  lemma ReadsUnlessResurrected(es: seq<Entry>, rest: set<Entry>, snap: SequenceNumber, base: iset<UserKey>,
                               user: UserKey, s: SequenceNumber)
    requires SortedRun(es) && Distinct(SetOf(es) + rest) && SetOf(es) !! rest && snap <= s
    requires forall i :: 0 <= i < |es| ==> !Resurrects(es, rest, i, snap, base)
    ensures Read(SetOf(Kept(es, |es|, snap, base)) + rest, user, s) == Read(SetOf(es) + rest, user, s)
  {
    var all, left := SetOf(es) + rest, SetOf(Kept(es, |es|, snap, base)) + rest;
    KeptIsAmong(es, snap, base);
    if exists o :: o in all && Visible(o, user, s) {
      var n := NewestExists(all, user, s);
      ReadOfNewest(all, user, s, n);
      if n in left {
        ReadOfNewest(left, user, s, n);
      } else {
        var i :| 0 <= i < |es| && es[i] == n;
        InKept(es, |es|, snap, base, n);
        AfterDropping(es, rest, snap, base, user, s, i);
        NothingUncovered(es, rest, snap, base, user, s, i);
      }
    } else {
      ReadNone(all, user, s);
      ReadNone(left, user, s);
    }
  }

  lemma NothingUncovered(es: seq<Entry>, rest: set<Entry>, snap: SequenceNumber, base: iset<UserKey>, user: UserKey,
                         s: SequenceNumber, i: nat)
    requires SortedRun(es) && Distinct(SetOf(es) + rest) && SetOf(es) !! rest && snap <= s && i < |es|
    requires IsNewest(SetOf(es) + rest, user, s, es[i]) && Dropped(es, i, snap, base)
    requires !Resurrects(es, rest, i, snap, base)
    ensures Read(SetOf(Kept(es, |es|, snap, base)) + rest, user, s) == None
  {
    var left := SetOf(Kept(es, |es|, snap, base)) + rest;
    KeptIsAmong(es, snap, base);
    AfterDropping(es, rest, snap, base, user, s, i);
    if exists o :: o in left && Visible(o, user, s) {
      var n := NewestExists(left, user, s);
      ReadOfNewest(left, user, s, n);
      assert IsNewest(SetOf(es) + rest, user, snap, es[i]);
      assert IsNewest(rest, user, snap, n);
    } else {
      ReadNone(left, user, s);
    }
  }

  /** What is uncovered is read. */
  lemma ResurrectedIsRead(es: seq<Entry>, rest: set<Entry>, i: nat, snap: SequenceNumber, base: iset<UserKey>, o: Entry)
    requires SortedRun(es) && Distinct(SetOf(es) + rest) && SetOf(es) !! rest && i < |es|
    requires Resurrects(es, rest, i, snap, base) && IsNewest(rest, es[i].k.user, snap, o)
    ensures Read(SetOf(es) + rest, es[i].k.user, snap) == None
    ensures Read(SetOf(Kept(es, |es|, snap, base)) + rest, es[i].k.user, snap) == Shown(o)
  {
    KeptIsAmong(es, snap, base);
    ReadOfNewest(SetOf(es) + rest, es[i].k.user, snap, es[i]);
    AfterDropping(es, rest, snap, base, es[i].k.user, snap, i);
    ReadOfNewest(SetOf(Kept(es, |es|, snap, base)) + rest, es[i].k.user, snap, o);
  }

  /** A compaction keeps every read at every snapshot it must keep, if and only if it drops no
      deletion that uncovers an older value outside its inputs. */
  lemma CompactionKeepsReadsIff(es: seq<Entry>, rest: set<Entry>, snap: SequenceNumber, base: iset<UserKey>)
    requires SortedRun(es) && Distinct(SetOf(es) + rest) && SetOf(es) !! rest
    ensures (forall user, s: SequenceNumber :: snap <= s ==>
               Read(SetOf(Kept(es, |es|, snap, base)) + rest, user, s) == Read(SetOf(es) + rest, user, s))
      <==> (forall i :: 0 <= i < |es| ==> !Resurrects(es, rest, i, snap, base))
  {
    var all, left := SetOf(es) + rest, SetOf(Kept(es, |es|, snap, base)) + rest;
    if i :| 0 <= i < |es| && Resurrects(es, rest, i, snap, base) {
      var user := es[i].k.user;
      var o :| IsNewest(rest, user, snap, o) && o.k.kind.Value?;
      ResurrectedIsRead(es, rest, i, snap, base, o);
      assert Read(left, user, snap) != Read(all, user, snap);
    } else {
      forall user, s: SequenceNumber | snap <= s
        ensures Read(left, user, s) == Read(all, user, s)
      {
        ReadsUnlessResurrected(es, rest, snap, base, user, s);
      }
    }
  }

  // ---------------------------------------------------------------------------------------------
  // The compaction itself

  /** No file two or more levels below `level` has `user` in its range. */
  ghost predicate NoDataBelow(v: Version, level: nat, user: UserKey) {
    forall l, i :: level + 2 <= l < NUM_LEVELS && 0 <= i < |v[l]| ==> !InRange(v[l][i], user)
  }

  predicate InRange(f: File, user: UserKey) {
    f.smallest.user <= user <= f.largest.user
  }

  ghost function BaseKeys(v: Version, level: nat): iset<UserKey> {
    iset user: UserKey | NoDataBelow(v, level, user)
  }

  /** Some file two or more levels further down has the key in its range. */
  ghost predicate FurtherDown(v: Version, level: nat, user: UserKey) {
    exists l, i ::
      level + 2 <= l < NUM_LEVELS && 0 <= i < |v[l]| && v[l][i].smallest.user <= user <= v[l][i].largest.user
  }

  /** What a compaction has to leave of its input, and no more: an entry with no newer one of its key at or below
      the snapshot, unless it is a deletion at or below it and nothing further down may hold the key. */
  ghost predicate CompactsTo(es: seq<Entry>, out: seq<Entry>, snap: SequenceNumber, v: Version, level: nat) {
    && SortedRun(out) && (forall e :: e in out ==> e in es)
    && forall i :: 0 <= i < |es| ==> (es[i] in out <==> StaysIn(es, i, snap, v, level))
  }

  ghost predicate StaysIn(es: seq<Entry>, i: nat, snap: SequenceNumber, v: Version, level: nat)
    requires i < |es|
  {
    && (forall j :: 0 <= j < i && es[j].k.user == es[i].k.user ==> snap < es[j].k.sn)
    && (es[i].k.kind.Deletion? && es[i].k.sn <= snap ==> FurtherDown(v, level, es[i].k.user))
  }

  lemma DroppedIff(es: seq<Entry>, i: nat, snap: SequenceNumber, v: Version, level: nat)
    requires SortedRun(es) && i < |es|
    ensures Dropped(es, i, snap, BaseKeys(v, level)) <==> !StaysIn(es, i, snap, v, level)
  {
    assert es[i].k.user in BaseKeys(v, level) <==> !FurtherDown(v, level, es[i].k.user) by {
      BaseIsNotDown(v, level, es[i].k.user);
    }
    hide BaseKeys, FurtherDown;
    forall j | 0 <= j < i && es[j].k.user == es[i].k.user && es[j].k.sn <= snap
      ensures HiddenByNewer(es, i, snap)
    {
      OlderIsHidden(es, j, i, snap);
    }
  }

  lemma BaseIsNotDown(v: Version, level: nat, user: UserKey)
    ensures user in BaseKeys(v, level) <==> !FurtherDown(v, level, user)
  {
    if user in BaseKeys(v, level) {
      assert NoDataBelow(v, level, user);
      forall l, i | level + 2 <= l < NUM_LEVELS && 0 <= i < |v[l]|
        ensures !(v[l][i].smallest.user <= user <= v[l][i].largest.user)
      {
        assert !InRange(v[l][i], user);
      }
    }
  }

  /** The rule by the entry before keeps exactly what has to be left. */
  lemma KeptCompacts(es: seq<Entry>, snap: SequenceNumber, v: Version, level: nat)
    requires SortedRun(es)
    ensures CompactsTo(es, Kept(es, |es|, snap, BaseKeys(v, level)), snap, v, level)
  {
    var base := BaseKeys(v, level);
    KeptIsSorted(es, |es|, snap, base);
    KeptIsAmong(es, snap, base);
    hide BaseKeys, Dropped, StaysIn;
    var out := Kept(es, |es|, snap, base);
    forall e | e in out
      ensures e in es
    {
      InKept(es, |es|, snap, base, e);
    }
    forall i | 0 <= i < |es|
      ensures es[i] in out <==> StaysIn(es, i, snap, v, level)
    {
      InKept(es, |es|, snap, base, es[i]);
      DroppedIff(es, i, snap, v, level);
      forall j | 0 <= j < |es| && es[j] == es[i]
        ensures j == i
      {
        OnceInRun(es, i, j);
      }
    }
  }

  lemma OnceInRun(es: seq<Entry>, i: nat, j: nat)
    requires SortedRun(es) && i < |es| && j < |es| && es[i] == es[j]
    ensures i == j
  {
    BeforeIsStrictTotalOrder(es[i].k, es[j].k, es[i].k);
  }

  /** So every entry that some reader may still ask for is there, of each key at most one entry at or below the
      snapshot is, and a deletion there still hides something. */
  lemma WhatIsLeft(es: seq<Entry>, out: seq<Entry>, snap: SequenceNumber, v: Version, level: nat)
    requires SortedRun(es) && CompactsTo(es, out, snap, v, level)
    ensures forall i :: 0 <= i < |es| && snap < es[i].k.sn ==> es[i] in out
    ensures forall i, j :: 0 <= i < j < |out| && out[i].k.user == out[j].k.user ==> snap < out[i].k.sn
    ensures forall i :: 0 <= i < |out| && out[i].k.kind.Deletion? && out[i].k.sn <= snap ==>
              FurtherDown(v, level, out[i].k.user)
  {
    hide FurtherDown;
    forall i | 0 <= i < |es| && snap < es[i].k.sn
      ensures es[i] in out
    {
      forall j | 0 <= j < i && es[j].k.user == es[i].k.user
        ensures snap < es[j].k.sn
      {
        assert Before(es[j].k, es[i].k);
      }
      assert StaysIn(es, i, snap, v, level);
    }
    forall i | 0 <= i < |out| && out[i].k.kind.Deletion? && out[i].k.sn <= snap
      ensures FurtherDown(v, level, out[i].k.user)
    {
      var k := IndexIn(es, out[i]);
      assert StaysIn(es, k, snap, v, level);
    }
    forall i, j | 0 <= i < j < |out| && out[i].k.user == out[j].k.user
      ensures snap < out[i].k.sn
    {
      var a := IndexIn(es, out[i]);
      var b := IndexIn(es, out[j]);
      assert StaysIn(es, b, snap, v, level);
      InSameOrder(es, out, a, b, i, j);
    }
  }

  lemma IndexIn(es: seq<Entry>, e: Entry) returns (i: nat)
    requires e in es
    ensures i < |es| && es[i] == e
  {
    i :| i < |es| && es[i] == e;
  }

  lemma InSameOrder(es: seq<Entry>, out: seq<Entry>, a: nat, b: nat, i: nat, j: nat)
    requires SortedRun(es) && SortedRun(out) && a < |es| && b < |es| && i < j < |out| && es[a] == out[i]
    requires es[b] == out[j]
    ensures a < b
  {
    assert Before(out[i].k, out[j].k);
    BeforeIsStrictTotalOrder(out[i].k, out[j].k, out[i].k);
  }

  function Concat(files: seq<File>): seq<Entry> {
    if files == [] then [] else Concat(files[..|files| - 1]) + files[|files| - 1].entries
  }

  class Job {
    const v: Version
    const level: nat
    const levelPtrs: array<nat>
    ghost var asked: Option<UserKey>

    /** Each pointer stands past only files that end before every key still to be asked. */
    ghost predicate Valid()
      reads this, levelPtrs
    {
      && levelPtrs.Length == NUM_LEVELS
      && (forall l :: 1 <= l < NUM_LEVELS ==> DisjointLevel(v[l]))
      && (forall l :: level + 2 <= l < NUM_LEVELS ==> Passed(l, levelPtrs[l]))
    }

    ghost predicate Passed(l: nat, p: nat)
      requires l < NUM_LEVELS
      reads this
    {
      p <= |v[l]| && forall i :: 0 <= i < p ==> asked.Some? && v[l][i].largest.user < asked.value
    }

    constructor (v: Version, level: nat)
      requires forall l :: 1 <= l < NUM_LEVELS ==> DisjointLevel(v[l])
      ensures Valid() && this.v == v && this.level == level && asked == None
      ensures fresh(levelPtrs)
    {
      this.v := v;
      this.level := level;
      asked := None;
      levelPtrs := new nat[NUM_LEVELS](_ => 0);
    }

    /** Compaction::IsBaseLevelForKey: the pointers only move forward, yet for keys asked in order
        the answer is that of a full scan. */
    method IsBaseLevelForKey(user: UserKey) returns (base: bool)
      requires Valid() && (asked.Some? ==> asked.value <= user)
      modifies this`asked, levelPtrs
      ensures Valid() && asked == Some(user)
      ensures base <==> NoDataBelow(v, level, user)
    {
      asked := Some(user);
      var lvl := level + 2;
      while lvl < NUM_LEVELS
        invariant level + 2 <= lvl
        invariant Valid() && asked == Some(user)
        invariant forall l, i :: level + 2 <= l < lvl && l < NUM_LEVELS && 0 <= i < |v[l]| ==> !InRange(v[l][i], user)
      {
        var past := false;
        while levelPtrs[lvl] < |v[lvl]| && !past
          invariant Valid() && asked == Some(user)
          invariant past ==> levelPtrs[lvl] < |v[lvl]| && user < v[lvl][levelPtrs[lvl]].smallest.user
          decreases !past, |v[lvl]| - levelPtrs[lvl]
        {
          var f := v[lvl][levelPtrs[lvl]];
          if user <= f.largest.user {
            if user >= f.smallest.user {
              assert InRange(v[lvl][levelPtrs[lvl]], user);
              return false;
            }
            past := true;
          } else {
            levelPtrs[lvl] := levelPtrs[lvl] + 1;
          }
        }
        OutOfRange(lvl, user);
        lvl := lvl + 1;
      }
      return true;
    }

    lemma OutOfRange(l: nat, user: UserKey)
      requires Valid() && asked == Some(user) && level + 2 <= l < NUM_LEVELS
      requires levelPtrs[l] < |v[l]| ==> user < v[l][levelPtrs[l]].smallest.user
      ensures forall i :: 0 <= i < |v[l]| ==> !InRange(v[l][i], user)
    {
      forall i | 0 <= i < |v[l]|
        ensures !InRange(v[l][i], user)
      {
        if levelPtrs[l] < i {
          FileOrder(v[l], levelPtrs[l], i);
        }
      }
    }
  }

  /** FinishCompactionOutputFile: the file made of what was added since it was opened. */
  function OutputFile(number: nat, size: nat, entries: seq<Entry>): File
    requires entries != []
  {
    File(number, size, entries[0].k, entries[|entries| - 1].k, entries)
  }

  ghost predicate IsOutput(f: File) {
    f.entries != [] && f == OutputFile(f.number, f.size, f.entries)
  }

  ghost predicate Numbered(files: seq<File>, first: nat) {
    forall i :: 0 <= i < |files| ==> IsOutput(files[i]) && files[i].number == first + i
  }

  /** Cut anywhere, a sorted run makes sorted tables in order, wholly before one another. */
  lemma {:induction false} CutsAreDisjoint(files: seq<File>)
    requires forall i :: 0 <= i < |files| ==> IsOutput(files[i])
    requires SortedRun(Concat(files))
    ensures Tables(files) && DisjointLevel(files)
  {
    if files != [] {
      var n := |files| - 1;
      var front, last := Concat(files[..n]), files[n].entries;
      forall i, j | 0 <= i < j < |last|
        ensures Before(last[i].k, last[j].k)
      {
        assert Before(Concat(files)[|front| + i].k, Concat(files)[|front| + j].k);
      }
      assert front == Concat(files)[..|front|];
      CutsAreDisjoint(files[..n]);
      TablesInOrder(files, n);
    }
  }

  lemma TablesInOrder(files: seq<File>, n: nat)
    requires |files| == n + 1 && Tables(files[..n]) && DisjointLevel(files[..n]) && IsOutput(files[n])
    requires SortedRun(files[n].entries) && SortedRun(Concat(files))
    ensures Tables(files) && DisjointLevel(files)
  {
    EntryInFileRange(files[n], files[n].entries[0]);
    forall i | 0 <= i < n
      ensures Before(files[i].largest, files[n].smallest) && !Before(files[i].largest, files[i].smallest)
    {
      assert files[..n][i] == files[i] && files[i] in files[..n];
      var last := files[i].entries[|files[i].entries| - 1];
      InConcat(files[..n], i, last);
      var p :| 0 <= p < |Concat(files[..n])| && Concat(files[..n])[p] == last;
      assert Before(Concat(files)[p].k, Concat(files)[|Concat(files[..n])|].k);
    }
    forall i, j | 0 <= i < j < n
      ensures Before(files[i].largest, files[j].smallest)
    {
      assert files[..n][i] == files[i] && files[..n][j] == files[j];
    }
    forall f | f in files
      ensures Table(f)
    {
      assert f == files[n] || f in files[..n];
    }
  }

  lemma {:induction false} InConcat(files: seq<File>, i: nat, e: Entry)
    requires i < |files| && e in files[i].entries
    ensures e in Concat(files)
  {
    var n := |files| - 1;
    if i < n {
      InConcat(files[..n], i, e);
    }
  }

  lemma {:induction false} ConcatEntries(files: seq<File>)
    ensures SetOf(Concat(files)) == LevelEntries(files)
  {
    if files != [] {
      var n := |files| - 1;
      ConcatEntries(files[..n]);
      assert forall f :: f in files <==> f in files[..n] || f == files[n];
      assert SetOf(Concat(files)) == SetOf(Concat(files[..n])) + SetOf(files[n].entries);
      assert LevelEntries(files) == LevelEntries(files[..n]) + SetOf(files[n].entries);
    }
  }

  /** The loop remembers the user key and sequence number of the entry before. */
  ghost predicate Remembered(job: Job, input: seq<Entry>, i: nat, current: Option<UserKey>,
                             lastSequence: SequenceNumber)
    requires i <= |input|
    reads job`asked
  {
    && (job.asked.Some? ==> 0 < i && job.asked.value <= input[i - 1].k.user)
    && current == (if i == 0 then None else Some(input[i - 1].k.user))
    && lastSequence == (if i == 0 then MAX_SEQUENCE_NUMBER else input[i - 1].k.sn)
  }

  method DecideDrop(job: Job, input: seq<Entry>, i: nat, current: Option<UserKey>, lastSequence: SequenceNumber,
                    snap: SequenceNumber)
    returns (drop: bool, current': Option<UserKey>, lastSequence': SequenceNumber)
    requires job.Valid() && SortedRun(input) && i < |input| && snap < MAX_SEQUENCE_NUMBER
    requires Remembered(job, input, i, current, lastSequence)
    modifies job`asked, job.levelPtrs
    ensures job.Valid() && Remembered(job, input, i + 1, current', lastSequence')
    ensures drop <==> Dropped(input, i, snap, BaseKeys(job.v, job.level))
  {
    var e := input[i];
    drop, current', lastSequence' := false, current, lastSequence;
    if current != Some(e.k.user) {
      current' := Some(e.k.user);
      lastSequence' := MAX_SEQUENCE_NUMBER;
    }
    assert 0 < i ==> Before(input[i - 1].k, e.k);
    if lastSequence' <= snap {
      drop := true;
    } else if e.k.kind.Deletion? && e.k.sn <= snap {
      drop := job.IsBaseLevelForKey(e.k.user);
    }
    lastSequence' := e.k.sn;
  }

  ghost function Finished(outputs: seq<File>, building: seq<Entry>, firstNumber: nat,
                          sizeOf: seq<Entry> -> nat): (f: File)
    ensures building != [] ==>
              MadeOf(f, building) && f == OutputFile(firstNumber + |outputs|, sizeOf(building), building)
  {
    if building == [] then File(0, 0, InternalKey(0.0, 0, Value), InternalKey(0.0, 0, Value), [])
    else OutputFile(firstNumber + |outputs|, sizeOf(building), building)
  }

  /** FinishCompactionOutputFile, if asked and if a file is open. */
  method FinishIf(cut: bool, outputs: seq<File>, building: seq<Entry>, firstNumber: nat, sizeOf: seq<Entry> -> nat)
    returns (r: seq<File>, rest: seq<Entry>)
    requires Numbered(outputs, firstNumber)
    ensures Numbered(r, firstNumber)
    ensures Concat(r) + rest == Concat(outputs) + building
    ensures if cut && building != [] then
              r == outputs + [Finished(outputs, building, firstNumber, sizeOf)] && rest == []
            else r == outputs && rest == building
  {
    if cut && building != [] {
      r, rest := outputs + [OutputFile(firstNumber + |outputs|, sizeOf(building), building)], [];
      assert r[..|r| - 1] == outputs;
    } else {
      r, rest := outputs, building;
    }
  }

  method StopBefore(stop: bool, input: seq<Entry>, limits: Limits, i: nat, outputs: seq<File>, building: seq<Entry>,
                    firstNumber: nat, sizeOf: seq<Entry> -> nat, ghost first: nat)
    returns (r: seq<File>, rest: seq<Entry>)
    requires SortedRun(input) && i < |input| && Cutting(input, limits, i, i, outputs, building, first)
    requires Numbered(outputs, firstNumber) && (stop <==> StopsAt(input, limits, i))
    ensures Numbered(r, firstNumber) && Concat(r) + rest == Concat(outputs) + building
    ensures Cutting(input, limits, i, i + 1, r, rest, first)
  {
    hide Cutting, StopsAt, SortedRun, MadeOf, Numbered;
    Asked(input, limits, i, outputs, building, first, Finished(outputs, building, firstNumber, sizeOf));
    r, rest := FinishIf(stop, outputs, building, firstNumber, sizeOf);
  }

  method AddEntry(input: seq<Entry>, limits: Limits, i: nat, outputs: seq<File>, building: seq<Entry>,
                  firstNumber: nat, sizeOf: seq<Entry> -> nat, ghost first: nat)
    returns (r: seq<File>, rest: seq<Entry>, ghost first': nat)
    requires SortedRun(input) && i < |input| && Cutting(input, limits, i, i + 1, outputs, building, first)
    requires Numbered(outputs, firstNumber)
    ensures Numbered(r, firstNumber) && Concat(r) + rest == Concat(outputs) + building + [input[i]]
    ensures Cutting(input, limits, i + 1, i + 1, r, rest, first')
  {
    hide Cutting, SortedRun, MadeOf, Numbered;
    var more := building + [input[i]];
    first' := if building == [] then i else first;
    Adds(input, limits, i, outputs, building, first, Finished(outputs, more, firstNumber, sizeOf));
    r, rest := FinishIf(limits.sizeOf(more) >= limits.fileSize, outputs, more, firstNumber, sizeOf);
    assert Concat(outputs) + more == Concat(outputs) + building + [input[i]];
  }

  method FinishLast(input: seq<Entry>, ghost limits: Limits, outputs: seq<File>, building: seq<Entry>,
                    firstNumber: nat, sizeOf: seq<Entry> -> nat, ghost first: nat)
    returns (r: seq<File>)
    requires SortedRun(input) && Cutting(input, limits, |input|, |input|, outputs, building, first)
    requires Numbered(outputs, firstNumber)
    ensures Numbered(r, firstNumber) && Concat(r) == Concat(outputs) + building
    ensures WellCut(input, limits, r)
  {
    hide Cutting, SortedRun, MadeOf, Numbered, WellCut;
    Ends(input, limits, outputs, building, first, Finished(outputs, building, firstNumber, sizeOf));
    ghost var rest;
    r, rest := FinishIf(true, outputs, building, firstNumber, sizeOf);
    assert Concat(r) + rest == Concat(r);
  }

  /** DoCompactionWork over the merged input.  `sizeOf` is the size of a finished table. */
  method DoCompactionWork(job: Job, watch: Watch, input: seq<Entry>, snap: SequenceNumber, limits: Limits,
                          firstNumber: nat, sizeOf: seq<Entry> -> nat)
    returns (outputs: seq<File>)
    requires job.Valid() && job.asked == None && Watched(watch, input, limits, 0)
    requires SortedRun(input) && snap < MAX_SEQUENCE_NUMBER
    modifies job`asked, job.levelPtrs, watch
    ensures Concat(outputs) == Kept(input, |input|, snap, BaseKeys(job.v, job.level))
    ensures Numbered(outputs, firstNumber)
    ensures Tables(outputs) && DisjointLevel(outputs)
    ensures CompactsTo(input, Concat(outputs), snap, job.v, job.level)
    ensures WellCut(input, limits, outputs)
  {
    hide Cutting, WellCut, StopsAt, Watched, SortedRun, MadeOf;
    ghost var base := BaseKeys(job.v, job.level);
    outputs := [];
    var building: seq<Entry> := [];
    var current: Option<UserKey> := None;
    var lastSequence: SequenceNumber := MAX_SEQUENCE_NUMBER;
    ghost var first := 0;
    NothingCut(input, limits);
    for i := 0 to |input|
      invariant job.Valid() && Remembered(job, input, i, current, lastSequence)
      invariant Concat(outputs) + building == Kept(input, i, snap, base)
      invariant Numbered(outputs, firstNumber)
      invariant Watched(watch, input, limits, i) && Cutting(input, limits, i, i, outputs, building, first)
    {
      var stop := Ask(watch, input, limits, i);
      outputs, building := StopBefore(stop, input, limits, i, outputs, building, firstNumber, sizeOf, first);
      var drop;
      drop, current, lastSequence := DecideDrop(job, input, i, current, lastSequence, snap);
      if !drop {
        outputs, building, first := AddEntry(input, limits, i, outputs, building, firstNumber, sizeOf, first);
      } else {
        Passes(input, limits, i, outputs, building, first);
      }
    }
    outputs := FinishLast(input, limits, outputs, building, firstNumber, sizeOf, first);
    hide Remembered;
    KeptIsSorted(input, |input|, snap, base);
    CutsAreDisjoint(outputs);
    KeptCompacts(input, snap, job.v, job.level);
  }
}
