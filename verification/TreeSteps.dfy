/** The three ways the tree changes (LevelDB db/db_impl.cc: CompactMemTable, the trivial move of
    BackgroundCompaction, InstallCompactionResults) keep its invariant. */
module TreeSteps {
  import opened Options
  import opened DbFormat
  import opened Tree
  import opened Inputs
  import opened Selection
  import opened Builder

  ghost predicate PairwiseDisjoint(files: seq<File>) {
    forall f, g :: f in files && g in files && f != g ==> Before(f.largest, g.smallest) || Before(g.largest, f.smallest)
  }

  lemma DisjointPairwise(files: seq<File>)
    requires DisjointLevel(files)
    ensures PairwiseDisjoint(files)
  {
    forall f, g | f in files && g in files && f != g
      ensures Before(f.largest, g.smallest) || Before(g.largest, f.smallest)
    {
      var i :| 0 <= i < |files| && files[i] == f;
      var j :| 0 <= j < |files| && files[j] == g;
      assert i != j;
    }
  }

  /** Sorted by smallest key, files that are disjoint in pairs are disjoint in order. */
  lemma SortedDisjoint(files: seq<File>)
    requires Tables(files) && SortedBySmallest(files) && PairwiseDisjoint(files)
    ensures DisjointLevel(files)
  {
    TablesAreRanged(files);
    forall i, j | 0 <= i < j < |files|
      ensures Before(files[i].largest, files[j].smallest)
    {
      assert BySmallest(files[i], files[j]);
      BySmallestIsStrictOrder(files[i], files[i], files[i]);
      assert files[i] in files && files[j] in files && files[i] != files[j];
      BeforeIsStrictTotalOrder(files[j].largest, files[i].smallest, files[j].smallest);
    }
  }

  /** `taken` files leave two neighbouring levels, `outs` come into the lower one. */
  ghost predicate Moved(v: Version, v': Version, level: nat, in0: seq<File>, in1: seq<File>, outs: seq<File>) {
    && level + 1 < NUM_LEVELS
    && (forall f :: f in v'[level] <==> f in v[level] && f !in in0)
    && (forall f :: f in v'[level + 1] <==> (f in v[level + 1] && f !in in1) || f in outs)
    && (forall l, f :: 0 <= l < NUM_LEVELS && l != level && l != level + 1 ==> (f in v'[l] <==> f in v[l]))
    && (forall l :: 0 <= l < NUM_LEVELS ==> SortedBySmallest(v'[l]))
  }

  ghost predicate FromInputs(in0: seq<File>, in1: seq<File>, outs: seq<File>) {
    forall e :: e in LevelEntries(outs) ==> e in LevelEntries(in0) || e in LevelEntries(in1)
  }

  lemma OneFilePerEntry(v: Version, l: nat, f: File, g: File, e: Entry)
    requires TreeInv(v) && l < NUM_LEVELS && f in v[l] && g in v[l] && e in f.entries && e in g.entries
    ensures f == g
  {
    if f != g {
      assert Tables(v[l]);
      EntryInFileRange(f, e);
      EntryInFileRange(g, e);
      if l != 0 {
        DisjointPairwise(v[l]);
      }
    }
  }

  /** What stays in a level beside the files taken is strictly newer, key by key. */
  lemma LeftIsNewer(v: Version, l: nat, taken: seq<File>)
    requires TreeInv(v) && Distinct(VersionEntries(v)) && l < NUM_LEVELS
    requires (forall f :: f in taken ==> f in v[l]) && NoOlder(Rest(v[l], taken), LevelEntries(taken))
    ensures Newer(Rest(v[l], taken), LevelEntries(taken))
  {
    hide TreeInv;
    forall e, x | e in Rest(v[l], taken) && x in LevelEntries(taken) && e.k.user == x.k.user
      ensures x.k.sn < e.k.sn
    {
      var f :| f in v[l] && f !in taken && e in f.entries;
      var g :| g in taken && x in g.entries;
      assert e in LevelEntries(v[l]) && x in LevelEntries(v[l]);
      if x.k.sn == e.k.sn {
        assert e in VersionEntries(v) && x in VersionEntries(v);
        OneFilePerEntry(v, l, f, g, e);
      }
    }
  }

  lemma EntriesAfterMove(v: Version, v': Version, level: nat, in0: seq<File>, in1: seq<File>, outs: seq<File>)
    requires Moved(v, v', level, in0, in1, outs)
    ensures LevelEntries(v'[level]) == Rest(v[level], in0)
    ensures LevelEntries(v'[level + 1]) == Rest(v[level + 1], in1) + LevelEntries(outs)
    ensures forall l :: 0 <= l < NUM_LEVELS && l != level && l != level + 1 ==>
              LevelEntries(v'[l]) == LevelEntries(v[l])
  {
    assert LevelEntries(v'[level + 1]) == Rest(v[level + 1], in1) + LevelEntries(outs);
    forall l | 0 <= l < NUM_LEVELS && l != level && l != level + 1
      ensures LevelEntries(v'[l]) == LevelEntries(v[l])
    {
    }
  }

  /** Where an entry of the new tree was before; from the compacted level it came with the inputs. */
  lemma Origin(v: Version, v': Version, level: nat, in0: seq<File>, in1: seq<File>, outs: seq<File>, l: nat, e: Entry)
    returns (o: nat)
    requires InputsOk(v, level, in0, in1) && Moved(v, v', level, in0, in1, outs) && FromInputs(in0, in1, outs)
    requires l < NUM_LEVELS && e in LevelEntries(v'[l])
    ensures o < NUM_LEVELS && e in LevelEntries(v[o])
    ensures o == l || (l == level + 1 && o == level && e in LevelEntries(in0))
  {
    EntriesAfterMove(v, v', level, in0, in1, outs);
    if l == level + 1 && e in LevelEntries(outs) && e in LevelEntries(in0) {
      o := level;
    } else {
      o := l;
    }
  }

  lemma NewerAfterMove(v: Version, v': Version, level: nat, in0: seq<File>, in1: seq<File>, outs: seq<File>, i: nat,
                       j: nat, x: Entry, y: Entry)
    requires InputsOk(v, level, in0, in1) && Moved(v, v', level, in0, in1, outs) && FromInputs(in0, in1, outs)
    requires Layered(v) && Newer(Rest(v[level], in0), LevelEntries(in0))
    requires i < j < NUM_LEVELS && x in LevelEntries(v'[i]) && y in LevelEntries(v'[j]) && x.k.user == y.k.user
    ensures y.k.sn < x.k.sn
  {
    var i' := Origin(v, v', level, in0, in1, outs, i, x);
    var j' := Origin(v, v', level, in0, in1, outs, j, y);
    if i' < j' {
      assert Newer(LevelEntries(v[i']), LevelEntries(v[j']));
    } else {
      EntriesAfterMove(v, v', level, in0, in1, outs);
      assert i == level && j == level + 1;
    }
  }

  lemma LayeredAfterMove(v: Version, v': Version, level: nat, in0: seq<File>, in1: seq<File>, outs: seq<File>)
    requires TreeInv(v) && Distinct(VersionEntries(v)) && InputsOk(v, level, in0, in1)
    requires Moved(v, v', level, in0, in1, outs) && FromInputs(in0, in1, outs)
    ensures Layered(v')
  {
    LeftIsNewer(v, level, in0);
    forall i, j, x, y | 0 <= i < j < NUM_LEVELS && x in LevelEntries(v'[i]) && y in LevelEntries(v'[j])
        && x.k.user == y.k.user
      ensures y.k.sn < x.k.sn
    {
      NewerAfterMove(v, v', level, in0, in1, outs, i, j, x, y);
    }
  }

  lemma OutputsAside(v: Version, level: nat, in0: seq<File>, in1: seq<File>, outs: seq<File>, g: File, o: File)
    requires TreeInv(v) && InputsOk(v, level, in0, in1) && FromInputs(in0, in1, outs) && Tables(outs)
    requires g in v[level + 1] && g !in in1 && o in outs
    ensures Before(g.largest, o.smallest) || Before(o.largest, g.smallest)
  {
    assert Tables(v[level]) && Tables(v[level + 1]) && SetAside(g, in0, in1);
    hide TreeInv, InputsOk, SortedRun;
    var f := InputHolding(in0, in1, outs, o, o.entries[0]);
    var h := InputHolding(in0, in1, outs, o, o.entries[|o.entries| - 1]);
    EntryInFileRange(f, o.entries[0]);
    EntryInFileRange(h, o.entries[|o.entries| - 1]);
    BeforeIsStrictTotalOrder(g.largest, f.smallest, o.smallest);
    BeforeIsStrictTotalOrder(o.largest, h.largest, g.smallest);
  }

  lemma InputHolding(in0: seq<File>, in1: seq<File>, outs: seq<File>, o: File, e: Entry) returns (f: File)
    requires FromInputs(in0, in1, outs) && o in outs && e in o.entries
    ensures f in in0 + in1 && (f in in0 || f in in1) && e in f.entries
  {
    assert e in LevelEntries(outs);
    if e in LevelEntries(in0) {
      f :| f in in0 && e in f.entries;
    } else {
      f :| f in in1 && e in f.entries;
    }
  }

  /** The files left in the next level and the outputs are disjoint. */
  lemma NextLevelDisjoint(v: Version, v': Version, level: nat, in0: seq<File>, in1: seq<File>, outs: seq<File>)
    requires TreeInv(v) && InputsOk(v, level, in0, in1) && Moved(v, v', level, in0, in1, outs)
    requires FromInputs(in0, in1, outs) && Tables(outs) && DisjointLevel(outs)
    ensures PairwiseDisjoint(v'[level + 1])
  {
    DisjointPairwise(v[level + 1]);
    DisjointPairwise(outs);
    forall f, g | f in v'[level + 1] && g in v'[level + 1] && f != g
      ensures Before(f.largest, g.smallest) || Before(g.largest, f.smallest)
    {
      var leftF, leftG := f in v[level + 1] && f !in in1, g in v[level + 1] && g !in in1;
      if leftF && !leftG {
        OutputsAside(v, level, in0, in1, outs, f, g);
      } else if leftG && !leftF {
        OutputsAside(v, level, in0, in1, outs, g, f);
      }
    }
  }

  /** A compaction install, or a trivial move, keeps the tree invariant. */
  lemma MoveKeepsTree(v: Version, v': Version, level: nat, in0: seq<File>, in1: seq<File>, outs: seq<File>)
    requires TreeInv(v) && Distinct(VersionEntries(v)) && InputsOk(v, level, in0, in1)
    requires Moved(v, v', level, in0, in1, outs) && FromInputs(in0, in1, outs)
    requires Tables(outs) && DisjointLevel(outs)
    ensures TreeInv(v')
  {
    LayeredAfterMove(v, v', level, in0, in1, outs);
    NextLevelDisjoint(v, v', level, in0, in1, outs);
    forall l | 0 <= l < NUM_LEVELS
      ensures Tables(v'[l]) && (1 <= l ==> DisjointLevel(v'[l]))
    {
      assert Tables(v[l]);
      if 1 <= l {
        DisjointPairwise(v[l]);
        SortedDisjoint(v'[l]);
      }
    }
    assert forall f :: f in v'[0] ==> f in v[0];
  }

  // ---------------------------------------------------------------------------------------------
  // What lies outside the inputs

  ghost function InputEntries(in0: seq<File>, in1: seq<File>): set<Entry> {
    LevelEntries(in0) + LevelEntries(in1)
  }

  /** All entries of the tree outside the inputs. */
  ghost function Outside(v: Version, level: nat, in0: seq<File>, in1: seq<File>): set<Entry>
    requires level + 1 < NUM_LEVELS
  {
    (set l, e | 0 <= l < NUM_LEVELS && l != level && l != level + 1 && e in LevelEntries(v[l]) :: e)
    + Rest(v[level], in0) + Rest(v[level + 1], in1)
  }

  lemma LevelSplits(files: seq<File>, taken: seq<File>)
    requires forall f :: f in taken ==> f in files
    ensures LevelEntries(files) == Rest(files, taken) + LevelEntries(taken)
  {
    forall e | e in LevelEntries(files)
      ensures e in Rest(files, taken) + LevelEntries(taken)
    {
      var f :| f in files && e in f.entries;
      if f in taken {
        assert e in LevelEntries(taken);
      }
    }
  }

  lemma TreeSplits(v: Version, v': Version, level: nat, in0: seq<File>, in1: seq<File>, outs: seq<File>)
    requires Among(v, level, in0, in1) && Moved(v, v', level, in0, in1, outs)
    ensures VersionEntries(v) == InputEntries(in0, in1) + Outside(v, level, in0, in1)
    ensures VersionEntries(v') == LevelEntries(outs) + Outside(v, level, in0, in1)
  {
    LevelSplits(v[level], in0);
    LevelSplits(v[level + 1], in1);
    EntriesAfterMove(v, v', level, in0, in1, outs);
    SplitByLevel(v, level);
    SplitByLevel(v', level);
    hide Moved, LevelEntries, Rest, VersionEntries, Among;
  }

  lemma SplitByLevel(v: Version, level: nat)
    requires level + 1 < NUM_LEVELS
    ensures VersionEntries(v) ==
      (set l, e | 0 <= l < NUM_LEVELS && l != level && l != level + 1 && e in LevelEntries(v[l]) :: e)
      + LevelEntries(v[level]) + LevelEntries(v[level + 1])
  {
  }

  lemma OneLevelPerEntry(v: Version, i: nat, j: nat, e: Entry)
    requires Layered(v) && i < NUM_LEVELS && j < NUM_LEVELS && i != j && e in LevelEntries(v[i])
    ensures e !in LevelEntries(v[j])
  {
    assert i < j ==> Newer(LevelEntries(v[i]), LevelEntries(v[j]));
    assert j < i ==> Newer(LevelEntries(v[j]), LevelEntries(v[i]));
  }

  lemma OutsideIsDisjoint(v: Version, level: nat, in0: seq<File>, in1: seq<File>)
    requires TreeInv(v) && Among(v, level, in0, in1)
    ensures InputEntries(in0, in1) !! Outside(v, level, in0, in1)
  {
    forall e | e in InputEntries(in0, in1)
      ensures e !in Outside(v, level, in0, in1)
    {
      InputIsNotOutside(v, level, in0, in1, e);
    }
  }

  lemma InputIsNotOutside(v: Version, level: nat, in0: seq<File>, in1: seq<File>, e: Entry)
    requires TreeInv(v) && Among(v, level, in0, in1)
    requires e in InputEntries(in0, in1)
    ensures e !in Outside(v, level, in0, in1)
  {
    if e in LevelEntries(in0) {
      LevelSplits(v[level], in0);
      NotBothTakenAndLeft(v, level, in0, e);
      InNoOtherLevel(v, level, e);
      NotOutside(v, level, in0, in1, level, e);
    } else {
      LevelSplits(v[level + 1], in1);
      NotBothTakenAndLeft(v, level + 1, in1, e);
      InNoOtherLevel(v, level + 1, e);
      NotOutside(v, level, in0, in1, level + 1, e);
    }
  }

  lemma NotOutside(v: Version, level: nat, in0: seq<File>, in1: seq<File>, l: nat, e: Entry)
    requires level + 1 < NUM_LEVELS && (l == level || l == level + 1)
    requires forall i :: 0 <= i < NUM_LEVELS && i != l ==> e !in LevelEntries(v[i])
    requires e !in Rest(v[l], if l == level then in0 else in1)
    ensures e !in Outside(v, level, in0, in1)
  {
  }

  lemma InNoOtherLevel(v: Version, l: nat, e: Entry)
    requires Layered(v) && l < NUM_LEVELS && e in LevelEntries(v[l])
    ensures forall i :: 0 <= i < NUM_LEVELS && i != l ==> e !in LevelEntries(v[i])
  {
    forall i | 0 <= i < NUM_LEVELS && i != l
      ensures e !in LevelEntries(v[i])
    {
      OneLevelPerEntry(v, l, i, e);
    }
  }

  lemma NotBothTakenAndLeft(v: Version, l: nat, taken: seq<File>, e: Entry)
    requires TreeInv(v) && l < NUM_LEVELS && (forall f :: f in taken ==> f in v[l]) && e in LevelEntries(taken)
    ensures e !in Rest(v[l], taken)
  {
    if e in Rest(v[l], taken) {
      var f :| f in v[l] && f !in taken && e in f.entries;
      var g :| g in taken && e in g.entries;
      OneFilePerEntry(v, l, f, g, e);
    }
  }

  // ---------------------------------------------------------------------------------------------
  // The memtable comes in as a new file

  ghost predicate Flushed(v: Version, v': Version, level: nat, f: File) {
    && level < NUM_LEVELS
    && (forall g :: g in v'[level] <==> g in v[level] || g == f)
    && (forall l, g :: 0 <= l < NUM_LEVELS && l != level ==> (g in v'[l] <==> g in v[l]))
    && (forall l :: 0 <= l < NUM_LEVELS ==> SortedBySmallest(v'[l]))
  }

  /** What PickLevelForMemTableOutput guarantees of the level it picks. */
  ghost predicate LevelOk(v: Version, level: nat, f: File) {
    && level <= MAX_MEM_COMPACT_LEVEL
    && (level > 0 ==> forall l, g :: 0 <= l <= level && g in v[l] ==>
          !Overlaps(g, Some(f.smallest.user), Some(f.largest.user)))
  }

  lemma NoSharedKeys(f: File, g: File, e: Entry, x: Entry)
    requires Table(f) && Table(g) && !Overlaps(g, Some(f.smallest.user), Some(f.largest.user))
    requires e in f.entries && x in g.entries
    ensures e.k.user != x.k.user
    ensures Before(f.largest, g.smallest) || Before(g.largest, f.smallest)
  {
    EntryInFileRange(f, e);
    EntryInFileRange(g, x);
  }

  lemma EntriesAfterFlush(v: Version, v': Version, level: nat, f: File)
    requires Flushed(v, v', level, f)
    ensures LevelEntries(v'[level]) == LevelEntries(v[level]) + SetOf(f.entries)
    ensures forall l :: 0 <= l < NUM_LEVELS && l != level ==> LevelEntries(v'[l]) == LevelEntries(v[l])
    ensures VersionEntries(v') == VersionEntries(v) + SetOf(f.entries)
  {
    assert LevelEntries(v'[level]) == LevelEntries(v[level]) + SetOf(f.entries);
    forall l | 0 <= l < NUM_LEVELS && l != level
      ensures LevelEntries(v'[l]) == LevelEntries(v[l])
    {
    }
    forall e | e in SetOf(f.entries)
      ensures e in VersionEntries(v')
    {
      assert e in LevelEntries(v'[level]);
    }
    forall e | e in VersionEntries(v)
      ensures e in VersionEntries(v')
    {
      var l :| 0 <= l < NUM_LEVELS && e in LevelEntries(v[l]);
      assert e in LevelEntries(v'[l]);
    }
  }

  lemma NewerAfterFlush(v: Version, v': Version, level: nat, f: File, i: nat, j: nat, x: Entry, y: Entry)
    requires Layered(v) && Table(f) && Flushed(v, v', level, f) && LevelOk(v, level, f)
    requires i < j < NUM_LEVELS && Tables(v[i])
    requires Newer(SetOf(f.entries), VersionEntries(v))
    requires x in LevelEntries(v'[i]) && y in LevelEntries(v'[j]) && x.k.user == y.k.user
    ensures y.k.sn < x.k.sn
  {
    EntriesAfterFlush(v, v', level, f);
    if y in LevelEntries(v[j]) {
      if x in LevelEntries(v[i]) {
        assert Newer(LevelEntries(v[i]), LevelEntries(v[j]));
      } else {
        assert y in VersionEntries(v);
      }
    } else {
      var g :| g in v[i] && x in g.entries;
      NoSharedKeys(f, g, y, x);
    }
  }

  lemma LayeredAfterFlush(v: Version, v': Version, level: nat, f: File)
    requires TreeInv(v) && Table(f) && Flushed(v, v', level, f) && LevelOk(v, level, f)
    requires Newer(SetOf(f.entries), VersionEntries(v))
    ensures Layered(v')
  {
    forall i, j, x, y | 0 <= i < j < NUM_LEVELS && x in LevelEntries(v'[i]) && y in LevelEntries(v'[j])
        && x.k.user == y.k.user
      ensures y.k.sn < x.k.sn
    {
      assert Tables(v[i]);
      NewerAfterFlush(v, v', level, f, i, j, x, y);
    }
  }

  lemma FlushKeepsTree(v: Version, v': Version, level: nat, f: File)
    requires TreeInv(v) && Table(f) && Flushed(v, v', level, f) && LevelOk(v, level, f)
    requires Newer(SetOf(f.entries), VersionEntries(v))
    requires forall g :: g in v[0] ==> g.number < f.number
    ensures TreeInv(v')
  {
    LayeredAfterFlush(v, v', level, f);
    forall l | 0 <= l < NUM_LEVELS
      ensures Tables(v'[l]) && (1 <= l ==> DisjointLevel(v'[l]))
    {
      assert Tables(v[l]);
      if 1 <= l {
        DisjointPairwise(v[l]);
        forall g | g in v[l] && l == level
          ensures Before(f.largest, g.smallest) || Before(g.largest, f.smallest)
        {
          NoSharedKeys(f, g, f.entries[0], g.entries[0]);
        }
        SortedDisjoint(v'[l]);
      }
    }
    forall g | g in v[0]
      ensures Newer(SetOf(f.entries), SetOf(g.entries))
    {
      forall e | e in SetOf(g.entries)
        ensures e in VersionEntries(v)
      {
        assert e in LevelEntries(v[0]);
      }
    }
  }
}
