/** The tree of table files and level-by-level lookup (LevelDB db/version_set.cc). */
module Tree {
  import opened Options
  import opened DbFormat

  const NUM_LEVELS: nat := 7

  /** FileMetaData with the entries of its table. */
  datatype File = File(number: nat, size: nat, smallest: InternalKey, largest: InternalKey, entries: seq<Entry>)

  /** A table is a non-empty sorted run, and its metadata name its first and last keys. */
  ghost predicate Table(f: File) {
    && f.entries != [] && SortedRun(f.entries)
    && f.smallest == f.entries[0].k && f.largest == f.entries[|f.entries| - 1].k
  }

  ghost predicate Tables(files: seq<File>) {
    forall f :: f in files ==> Table(f)
  }

  type Version = v: seq<seq<File>> | |v| == NUM_LEVELS witness seq(NUM_LEVELS, _ => [])

  ghost function LevelEntries(files: seq<File>): set<Entry> {
    set f, e | f in files && e in f.entries :: e
  }

  ghost function VersionEntries(v: Version): set<Entry> {
    set l, e | 0 <= l < NUM_LEVELS && e in LevelEntries(v[l]) :: e
  }

  /** Files in order, each wholly before the next: what every level but 0 keeps. */
  ghost predicate DisjointLevel(files: seq<File>) {
    && (forall i :: 0 <= i < |files| ==> !Before(files[i].largest, files[i].smallest))
    && forall i, j :: 0 <= i < j < |files| ==> Before(files[i].largest, files[j].smallest)
  }

  /** Every entry of `a` is newer than every entry of `b` that has its user key. */
  ghost predicate Newer(a: set<Entry>, b: set<Entry>) {
    forall x, y :: x in a && y in b && x.k.user == y.k.user ==> y.k.sn < x.k.sn
  }

  /** Level-0 files may overlap, but a higher number means newer data. */
  ghost predicate NewestByNumber(files: seq<File>) {
    && (forall f, g :: f in files && g in files && f.number == g.number ==> f == g)
    && (forall f, g :: f in files && g in files && g.number < f.number ==> Newer(SetOf(f.entries), SetOf(g.entries)))
  }

  ghost predicate Layered(v: Version) {
    forall i, j :: 0 <= i < j < NUM_LEVELS ==> Newer(LevelEntries(v[i]), LevelEntries(v[j]))
  }

  /** What every step of the tree keeps. */
  ghost predicate TreeInv(v: Version) {
    && (forall l :: 0 <= l < NUM_LEVELS ==> Tables(v[l]))
    && (forall l :: 1 <= l < NUM_LEVELS ==> DisjointLevel(v[l]))
    && NewestByNumber(v[0])
    && Layered(v)
  }

  lemma EntryInFileRange(f: File, e: Entry)
    requires Table(f) && e in f.entries
    ensures !Before(e.k, f.smallest) && !Before(f.largest, e.k)
    ensures f.smallest.user <= e.k.user <= f.largest.user
  {
    var i :| 0 <= i < |f.entries| && f.entries[i] == e;
    assert 0 < i ==> Before(f.entries[0].k, f.entries[i].k);
    assert i < |f.entries| - 1 ==> Before(f.entries[i].k, f.entries[|f.entries| - 1].k);
  }

  lemma LargestIncreases(files: seq<File>, i: nat, j: nat)
    requires DisjointLevel(files) && i < j < |files|
    ensures Before(files[i].largest, files[j].largest)
    ensures files[i].largest.user <= files[j].smallest.user
  {
    BeforeIsStrictTotalOrder(files[i].largest, files[j].smallest, files[j].largest);
  }

  /** The first file whose largest key is not before `key`. */
  method FindFile(files: seq<File>, key: InternalKey) returns (right: nat)
    requires DisjointLevel(files)
    ensures right <= |files|
    ensures forall i :: 0 <= i < right ==> Before(files[i].largest, key)
    ensures forall i :: right <= i < |files| ==> !Before(files[i].largest, key)
  {
    var left := 0;
    right := |files|;
    while left < right
      invariant 0 <= left <= right <= |files|
      invariant forall i :: 0 <= i < left ==> Before(files[i].largest, key)
      invariant forall i :: right <= i < |files| ==> !Before(files[i].largest, key)
    {
      var mid := (left + right) / 2;
      forall i, j | 0 <= i < j < |files|
        ensures Before(files[j].largest, key) ==> Before(files[i].largest, key)
      {
        LargestIncreases(files, i, j);
        BeforeIsStrictTotalOrder(files[i].largest, files[j].largest, key);
      }
      if Before(files[mid].largest, key) {
        left := mid + 1;
      } else {
        right := mid;
      }
    }
  }

  predicate SortedNewestFirst(files: seq<File>) {
    forall i, j :: 0 <= i < j < |files| ==> files[j].number <= files[i].number
  }

  function InsertNewestFirst(f: File, files: seq<File>): seq<File> {
    if files == [] || files[0].number <= f.number then [f] + files
    else [files[0]] + InsertNewestFirst(f, files[1..])
  }

  /** std::sort with NewestFirst. */
  function SortNewestFirst(files: seq<File>): seq<File> {
    if files == [] then [] else InsertNewestFirst(files[0], SortNewestFirst(files[1..]))
  }

  lemma {:induction false} InsertAdds(f: File, files: seq<File>)
    ensures multiset(InsertNewestFirst(f, files)) == multiset{f} + multiset(files)
  {
    if !(files == [] || files[0].number <= f.number) {
      InsertAdds(f, files[1..]);
      assert files == [files[0]] + files[1..];
    }
  }

  lemma {:induction false} InsertKeepsOrder(f: File, files: seq<File>)
    requires SortedNewestFirst(files)
    ensures SortedNewestFirst(InsertNewestFirst(f, files))
  {
    if !(files == [] || files[0].number <= f.number) {
      var rest := InsertNewestFirst(f, files[1..]);
      InsertKeepsOrder(f, files[1..]);
      InsertAdds(f, files[1..]);
      forall g | g in rest
        ensures g.number <= files[0].number
      {
        assert g in multiset(rest);
        assert g == f || g in files[1..];
      }
    }
  }

  lemma {:induction false} SortIsSorted(files: seq<File>)
    ensures SortedNewestFirst(SortNewestFirst(files))
    ensures multiset(SortNewestFirst(files)) == multiset(files)
  {
    if files != [] {
      SortIsSorted(files[1..]);
      InsertKeepsOrder(files[0], SortNewestFirst(files[1..]));
      InsertAdds(files[0], SortNewestFirst(files[1..]));
      assert files == [files[0]] + files[1..];
    }
  }

  /** What the files of one level contribute to a lookup: nothing visible, or the newest. */
  ghost predicate LevelAnswer(files: seq<File>, user: UserKey, s: SequenceNumber, found: Option<Entry>) {
    match found
    case None => forall e :: e in LevelEntries(files) ==> !Visible(e, user, s)
    case Some(e) => IsNewest(LevelEntries(files), user, s, e)
  }

  ghost predicate NothingVisible(f: File, user: UserKey, s: SequenceNumber) {
    forall e :: e in f.entries ==> !Visible(e, user, s)
  }

  lemma OlderFile(files: seq<File>, f: File, g: File, e: Entry, o: Entry)
    requires NewestByNumber(files) && f in files && g in files && g.number <= f.number && f != g
    requires e in SetOf(f.entries) && o in SetOf(g.entries) && e.k.user == o.k.user
    ensures o.k.sn < e.k.sn
  {
    assert g.number < f.number;
    assert Newer(SetOf(f.entries), SetOf(g.entries));
  }

  /** The newest file with a visible entry decides, since files with lower numbers are older. */
  lemma NewestFileDecides(files: seq<File>, user: UserKey, s: SequenceNumber, order: seq<File>, i: nat, e: Entry)
    requires NewestByNumber(files) && SortedNewestFirst(order) && i < |order|
    requires forall f :: f in order ==> f in files
    requires forall f :: f in files ==> f in order || NothingVisible(f, user, s)
    requires forall j :: 0 <= j < i ==> NothingVisible(order[j], user, s)
    requires IsNewest(SetOf(order[i].entries), user, s, e)
    ensures IsNewest(LevelEntries(files), user, s, e)
  {
    forall o | o in LevelEntries(files) && Visible(o, user, s)
      ensures o.k.sn <= e.k.sn
    {
      var f :| f in files && o in f.entries;
      assert f in order;
      var j :| 0 <= j < |order| && order[j] == f;
      assert o in SetOf(f.entries);
      if f != order[i] {
        assert !NothingVisible(f, user, s);
        OlderFile(files, order[i], f, e, o);
      }
    }
  }

  /** The level-0 files whose user-key range holds `user`, newest first. */
  method FilesHolding(files: seq<File>, user: UserKey) returns (tmp: seq<File>)
    ensures SortedNewestFirst(tmp)
    ensures forall f :: f in tmp <==> f in files && f.smallest.user <= user <= f.largest.user
  {
    var hits := [];
    for i := 0 to |files|
      invariant forall f :: f in hits <==> f in files[..i] && f.smallest.user <= user <= f.largest.user
    {
      var f := files[i];
      if user >= f.smallest.user && user <= f.largest.user {
        hits := hits + [f];
      }
      assert files[..i + 1] == files[..i] + [f];
    }
    assert files[..|files|] == files;
    SortIsSorted(hits);
    tmp := SortNewestFirst(hits);
    assert forall f :: f in tmp <==> f in multiset(tmp);
  }

  /** Version::Get on level 0: all files overlapping the key, newest first. */
  method GetLevel0(files: seq<File>, user: UserKey, s: SequenceNumber) returns (found: Option<Entry>)
    requires Tables(files) && NewestByNumber(files)
    ensures LevelAnswer(files, user, s, found)
  {
    var tmp := FilesHolding(files, user);
    forall f | f in files && f !in tmp
      ensures NothingVisible(f, user, s)
    {
      NothingOutsideRange(f, user, s);
    }
    for i := 0 to |tmp|
      invariant forall j :: 0 <= j < i ==> NothingVisible(tmp[j], user, s)
    {
      RunGetFindsNewest(tmp[i].entries, user, s);
      found := RunGet(tmp[i].entries, user, s);
      if found.Some? {
        NewestFileDecides(files, user, s, tmp, i, found.value);
        return;
      }
    }
    found := None;
    forall f | f in files
      ensures NothingVisible(f, user, s)
    {
    }
  }

  lemma NothingOutsideRange(f: File, user: UserKey, s: SequenceNumber)
    requires Table(f) && !(f.smallest.user <= user <= f.largest.user)
    ensures NothingVisible(f, user, s)
  {
    forall e | e in f.entries
      ensures !Visible(e, user, s)
    {
      EntryInFileRange(f, e);
    }
  }

  lemma EarlierFileMisses(f: File, user: UserKey, s: SequenceNumber)
    requires Table(f) && Before(f.largest, LookupKey(user, s))
    ensures NothingVisible(f, user, s)
  {
    forall e | e in f.entries
      ensures !Visible(e, user, s)
    {
      EntryInFileRange(f, e);
      BeforeIsStrictTotalOrder(e.k, f.largest, LookupKey(user, s));
    }
  }

  /** If a later file shows the key, the file found ends in a newer entry that shows it too. */
  lemma LaterFileFollows(files: seq<File>, i: nat, j: nat, e: Entry, user: UserKey, s: SequenceNumber)
    requires Tables(files) && DisjointLevel(files) && i < j < |files|
    requires !Before(files[i].largest, LookupKey(user, s)) && e in files[j].entries && Visible(e, user, s)
    ensures files[i].entries != [] && files[i].smallest.user <= user
    ensures var last := files[i].entries[|files[i].entries| - 1];
      Visible(last, user, s) && e.k.sn <= last.k.sn
  {
    assert Table(files[i]);
    EntryInFileRange(files[j], e);
    EntryInFileRange(files[i], files[i].entries[|files[i].entries| - 1]);
    LargestIncreases(files, i, j);
    LookupKeySeparates(files[i].largest, s);
    BeforeIsStrictTotalOrder(files[i].largest, files[j].smallest, e.k);
  }

  /** Version::Get on a deeper level: at most one file, found by binary search. */
  method GetDeeperLevel(files: seq<File>, user: UserKey, s: SequenceNumber) returns (found: Option<Entry>)
    requires Tables(files) && DisjointLevel(files)
    ensures LevelAnswer(files, user, s, found)
  {
    var index := FindFile(files, LookupKey(user, s));
    forall i | 0 <= i < index
      ensures NothingVisible(files[i], user, s)
    {
      EarlierFileMisses(files[i], user, s);
    }
    if index >= |files| {
      return None;
    }
    forall j, e | index < j < |files| && e in files[j].entries && Visible(e, user, s)
      ensures files[index].smallest.user <= user
      ensures exists last :: last in files[index].entries && Visible(last, user, s) && e.k.sn <= last.k.sn
    {
      LaterFileFollows(files, index, j, e, user, s);
    }
    var file := files[index];
    assert Table(file);
    if user < file.smallest.user {
      NothingOutsideRange(file, user, s);
      return None;
    }
    RunGetFindsNewest(file.entries, user, s);
    found := RunGet(file.entries, user, s);
    forall e | e in LevelEntries(files) && Visible(e, user, s)
      ensures found.Some? && e.k.sn <= found.value.k.sn
    {
      var f :| f in files && e in f.entries;
      var j :| 0 <= j < |files| && files[j] == f;
      if j != index {
        assert !NothingVisible(f, user, s);
        assert index < j;
      }
    }
  }

  ghost predicate NothingInLevel(files: seq<File>, user: UserKey, s: SequenceNumber) {
    LevelAnswer(files, user, s, None)
  }

  /** Entries never hop across levels: the first level that knows the key decides. */
  lemma FirstLevelDecides(v: Version, user: UserKey, s: SequenceNumber, level: nat, e: Entry)
    requires Layered(v) && level < NUM_LEVELS
    requires forall l :: 0 <= l < level ==> NothingInLevel(v[l], user, s)
    requires IsNewest(LevelEntries(v[level]), user, s, e)
    ensures IsNewest(VersionEntries(v), user, s, e)
  {
    forall o | o in VersionEntries(v) && Visible(o, user, s)
      ensures o.k.sn <= e.k.sn
    {
      var l :| 0 <= l < NUM_LEVELS && o in LevelEntries(v[l]);
      assert !(l < level);
      if level < l {
        assert Newer(LevelEntries(v[level]), LevelEntries(v[l]));
      }
    }
  }

  lemma NoLevelKnows(v: Version, user: UserKey, s: SequenceNumber)
    requires forall l :: 0 <= l < NUM_LEVELS ==> NothingInLevel(v[l], user, s)
    ensures Read(VersionEntries(v), user, s) == None
  {
    forall e | e in VersionEntries(v)
      ensures !Visible(e, user, s)
    {
      var l :| 0 <= l < NUM_LEVELS && e in LevelEntries(v[l]);
      assert NothingInLevel(v[l], user, s);
    }
    ReadNone(VersionEntries(v), user, s);
  }

  /** Version::Get: level by level, stopping at the first that knows the key. */
  method Get(v: Version, user: UserKey, s: SequenceNumber) returns (r: Option<Bytes>)
    requires TreeInv(v) && Distinct(VersionEntries(v))
    ensures r == Read(VersionEntries(v), user, s)
  {
    for level := 0 to NUM_LEVELS
      invariant forall l :: 0 <= l < level ==> NothingInLevel(v[l], user, s)
    {
      var found: Option<Entry>;
      if level == 0 {
        found := GetLevel0(v[0], user, s);
      } else {
        found := GetDeeperLevel(v[level], user, s);
      }
      if found.Some? {
        FirstLevelDecides(v, user, s, level, found.value);
        ReadOfNewest(VersionEntries(v), user, s, found.value);
        return Shown(found.value);
      }
    }
    NoLevelKnows(v, user, s);
    return None;
  }
}
