/** Building a version from a base version and a list of edits (LevelDB db/version_set.cc,
    VersionSet::Builder). */
module Builder {
  import opened DbFormat
  import opened Tree

  /** BySmallestKey: by smallest key, ties by file number. */
  predicate BySmallest(f: File, g: File) {
    Before(f.smallest, g.smallest) || (f.smallest == g.smallest && f.number < g.number)
  }

  ghost predicate SortedBySmallest(files: seq<File>) {
    forall i, j :: 0 <= i < j < |files| ==> BySmallest(files[i], files[j])
  }

  /** VersionEdit: files to delete by level and number, and files to add by level. */
  datatype Edit = Edit(deleted: seq<(nat, nat)>, added: seq<(nat, File)>)

  ghost predicate ValidEdit(edit: Edit) {
    && (forall i :: 0 <= i < |edit.deleted| ==> edit.deleted[i].0 < NUM_LEVELS)
    && (forall i :: 0 <= i < |edit.added| ==> edit.added[i].0 < NUM_LEVELS)
  }

  ghost predicate Deletes(edit: Edit, n: nat, l: nat, number: nat)
    requires n <= |edit.deleted|
  {
    exists j :: 0 <= j < n && edit.deleted[j] == (l, number)
  }

  ghost predicate NumberFree(files: set<File>, number: nat) {
    forall f :: f in files ==> f.number != number
  }

  ghost function FileSet(files: seq<File>): set<File> {
    set f | f in files
  }

  ghost function AddedFiles(edit: Edit, n: nat, l: nat): set<File>
    requires n <= |edit.added|
  {
    if n == 0 then {}
    else AddedFiles(edit, n - 1, l) + (if edit.added[n - 1].0 == l then {edit.added[n - 1].1} else {})
  }

  lemma {:induction false} SameAdded(a: Edit, b: Edit, n: nat, l: nat)
    requires n <= |a.added| && a.added <= b.added
    ensures AddedFiles(a, n, l) == AddedFiles(b, n, l)
  {
    if n > 0 {
      SameAdded(a, b, n - 1, l);
    }
  }

  /** One edit on the files of one level: delete, then add. */
  ghost function ApplyEdit(files: set<File>, edit: Edit, l: nat): set<File> {
    (set f | f in files && !Deletes(edit, |edit.deleted|, l, f.number)) + AddedFiles(edit, |edit.added|, l)
  }

  lemma BySmallestIsStrictOrder(f: File, g: File, h: File)
    ensures !BySmallest(f, f)
    ensures BySmallest(f, g) && BySmallest(g, h) ==> BySmallest(f, h)
    ensures f.number != g.number ==> BySmallest(f, g) || BySmallest(g, f)
    ensures Before(f.smallest, g.smallest) ==> BySmallest(f, g)
    ensures f.smallest == g.smallest ==> (BySmallest(f, g) <==> f.number < g.number)
  {
    BeforeIsStrictTotalOrder(f.smallest, g.smallest, h.smallest);
    BeforeIsStrictTotalOrder(f.smallest, f.smallest, f.smallest);
  }

  /** Insertion into a std::set ordered by BySmallest; an equivalent element is left in place. */
  function InsertSorted(files: seq<File>, f: File): seq<File> {
    if files == [] then [f]
    else if BySmallest(f, files[0]) then [f] + files
    else if BySmallest(files[0], f) then [files[0]] + InsertSorted(files[1..], f)
    else files
  }

  lemma {:induction false} InsertSortedIsSorted(files: seq<File>, f: File)
    requires SortedBySmallest(files)
    requires forall g :: g in files ==> g.number != f.number
    ensures SortedBySmallest(InsertSorted(files, f))
    ensures FileSet(InsertSorted(files, f)) == FileSet(files) + {f}
  {
    if files != [] {
      BySmallestIsStrictOrder(f, files[0], files[0]);
      if BySmallest(f, files[0]) {
        forall j | 1 <= j < |files|
          ensures BySmallest(f, files[j])
        {
          BySmallestIsStrictOrder(f, files[0], files[j]);
        }
      } else {
        InsertSortedIsSorted(files[1..], f);
        var rest := InsertSorted(files[1..], f);
        assert files == [files[0]] + files[1..];
        forall j | 0 <= j < |rest|
          ensures BySmallest(files[0], rest[j])
        {
          assert rest[j] in FileSet(rest);
          if rest[j] != f {
            var k :| 0 <= k < |files[1..]| && files[1..][k] == rest[j];
            assert files[k + 1] == rest[j];
          }
        }
      }
    }
  }

  class VersionBuilder {
    const base: Version
    const deletedFiles: array<set<nat>>
    const addedFiles: array<seq<File>>

    ghost predicate Valid()
      reads this, deletedFiles, addedFiles
    {
      && deletedFiles.Length == NUM_LEVELS && addedFiles.Length == NUM_LEVELS
      && (forall l :: 0 <= l < NUM_LEVELS ==> SortedBySmallest(base[l]) && SortedBySmallest(addedFiles[l]))
      && (forall l :: 0 <= l < NUM_LEVELS ==> forall f :: f in FileSet(addedFiles[l]) ==>
            NumberFree(FileSet(base[l]), f.number))
    }

    /** The files of a level that SaveTo will write. */
    ghost function Result(l: nat): set<File>
      requires l < NUM_LEVELS && Valid()
      reads this, deletedFiles, addedFiles
    {
      set f | f in FileSet(base[l]) + FileSet(addedFiles[l]) && f.number !in deletedFiles[l]
    }

    constructor (base: Version)
      requires forall l :: 0 <= l < NUM_LEVELS ==> SortedBySmallest(base[l])
      ensures Valid() && this.base == base && fresh(deletedFiles) && fresh(addedFiles)
      ensures forall l :: 0 <= l < NUM_LEVELS ==> Result(l) == FileSet(base[l]) && addedFiles[l] == []
    {
      this.base := base;
      deletedFiles := new set<nat>[NUM_LEVELS](_ => {});
      addedFiles := new seq<File>[NUM_LEVELS](_ => []);
    }

    /** No number is added at a level that the level, or an edit before, already used there. */
    ghost predicate FreshNumbers(edit: Edit)
      requires Valid() && ValidEdit(edit)
      reads this, addedFiles, deletedFiles
    {
      && (forall i :: 0 <= i < |edit.added| ==> Unused(edit.added[i].0, edit.added[i].1.number))
      && (forall i, j :: 0 <= i < j < |edit.added| && edit.added[i].0 == edit.added[j].0 ==>
            edit.added[i].1.number != edit.added[j].1.number)
    }

    ghost predicate Unused(l: nat, number: nat)
      requires l < NUM_LEVELS && addedFiles.Length == NUM_LEVELS
      reads addedFiles
    {
      NumberFree(FileSet(base[l]), number) && NumberFree(FileSet(addedFiles[l]), number)
    }

    method DeleteFile(level: nat, number: nat)
      requires Valid() && level < NUM_LEVELS
      modifies deletedFiles
      ensures Valid()
      ensures forall l :: 0 <= l < NUM_LEVELS && l != level ==> Result(l) == old(Result(l))
      ensures Result(level) == set f | f in old(Result(level)) && f.number != number
    {
      deletedFiles[level] := deletedFiles[level] + {number};
    }

    method AddFile(level: nat, f: File)
      requires Valid() && level < NUM_LEVELS && Unused(level, f.number)
      modifies deletedFiles, addedFiles
      ensures Valid()
      ensures forall l :: 0 <= l < NUM_LEVELS && l != level ==>
                Result(l) == old(Result(l)) && addedFiles[l] == old(addedFiles[l])
      ensures Result(level) == old(Result(level)) + {f}
      ensures FileSet(addedFiles[level]) == old(FileSet(addedFiles[level])) + {f}
      ensures forall l, n :: 0 <= l < NUM_LEVELS && old(Unused(l, n)) && (l != level || n != f.number) ==> Unused(l, n)
    {
      deletedFiles[level] := deletedFiles[level] - {f.number};
      forall g | g in addedFiles[level]
        ensures g.number != f.number
      {
        assert g in FileSet(addedFiles[level]);
      }
      InsertSortedIsSorted(addedFiles[level], f);
      addedFiles[level] := InsertSorted(addedFiles[level], f);
    }

    method ApplyDeletes(edit: Edit)
      requires Valid() && ValidEdit(edit)
      modifies deletedFiles
      ensures Valid()
      ensures forall l :: 0 <= l < NUM_LEVELS ==>
        Result(l) == set f | f in old(Result(l)) && !Deletes(edit, |edit.deleted|, l, f.number)
    {
      for i := 0 to |edit.deleted|
        invariant Valid()
        invariant forall l :: 0 <= l < NUM_LEVELS ==>
          Result(l) == set f | f in old(Result(l)) && !Deletes(edit, i, l, f.number)
      {
        DeleteFile(edit.deleted[i].0, edit.deleted[i].1);
      }
    }

    /** For each level, `files` and what the first `n` additions bring. */
    ghost predicate Holds(files: seq<set<File>>, added: seq<set<File>>, edit: Edit, n: nat)
      requires Valid() && |files| == |added| == NUM_LEVELS && n <= |edit.added|
      reads this, deletedFiles, addedFiles
    {
      forall l :: 0 <= l < NUM_LEVELS ==>
        HoldsAt(l, files[l] + AddedFiles(edit, n, l), added[l] + AddedFiles(edit, n, l))
    }

    ghost predicate HoldsAt(l: nat, files: set<File>, added: set<File>)
      requires Valid() && l < NUM_LEVELS
      reads this, deletedFiles, addedFiles
    {
      Result(l) == files && FileSet(addedFiles[l]) == added
    }

    method ApplyAdds(edit: Edit, ghost files: seq<set<File>>, ghost added: seq<set<File>>)
      requires Valid() && ValidEdit(edit) && FreshNumbers(edit)
      requires |files| == |added| == NUM_LEVELS && Holds(files, added, edit, 0)
      modifies deletedFiles, addedFiles
      ensures Valid() && Holds(files, added, edit, |edit.added|)
    {
      for i := 0 to |edit.added|
        invariant Valid()
        invariant forall j :: i <= j < |edit.added| ==> Unused(edit.added[j].0, edit.added[j].1.number)
        invariant Holds(files, added, edit, i)
      {
        AddNext(edit, i, files, added);
      }
    }

    method AddNext(edit: Edit, i: nat, ghost files: seq<set<File>>, ghost added: seq<set<File>>)
      requires Valid() && ValidEdit(edit) && i < |edit.added| && Unused(edit.added[i].0, edit.added[i].1.number)
      requires |files| == |added| == NUM_LEVELS && Holds(files, added, edit, i)
      modifies deletedFiles, addedFiles
      ensures Valid() && Holds(files, added, edit, i + 1)
      ensures forall l, n :: 0 <= l < NUM_LEVELS && old(Unused(l, n)) ==>
        (l != edit.added[i].0 || n != edit.added[i].1.number) ==> Unused(l, n)
    {
      var (level, f) := edit.added[i];
      AddFile(level, f);
      forall l | 0 <= l < NUM_LEVELS
        ensures HoldsAt(l, files[l] + AddedFiles(edit, i + 1, l), added[l] + AddedFiles(edit, i + 1, l))
      {
        assert old(HoldsAt(l, files[l] + AddedFiles(edit, i, l), added[l] + AddedFiles(edit, i, l)));
      }
    }

    /** Apply: as far as the files to be written go, the edit is applied to each level at once. */
    method Apply(edit: Edit)
      requires Valid() && ValidEdit(edit) && FreshNumbers(edit)
      modifies deletedFiles, addedFiles
      ensures Valid()
      ensures forall l :: 0 <= l < NUM_LEVELS ==> Result(l) == ApplyEdit(old(Result(l)), edit, l)
      ensures forall l :: 0 <= l < NUM_LEVELS ==>
        FileSet(addedFiles[l]) == old(FileSet(addedFiles[l])) + AddedFiles(edit, |edit.added|, l)
    {
      ApplyDeletes(edit);
      ghost var files := seq(NUM_LEVELS,
        l requires 0 <= l < NUM_LEVELS && Valid() reads this, deletedFiles, addedFiles => Result(l));
      ghost var added := seq(NUM_LEVELS,
        l requires 0 <= l < NUM_LEVELS && Valid() reads this, deletedFiles, addedFiles => FileSet(addedFiles[l]));
      ApplyAdds(edit, files, added);
      assert forall l :: 0 <= l < NUM_LEVELS ==>
        HoldsAt(l, files[l] + AddedFiles(edit, |edit.added|, l), added[l] + AddedFiles(edit, |edit.added|, l));
    }

    /** SaveTo on one level: merges the base files and the added ones, leaving out the deleted. */
    method SaveLevel(level: nat) returns (out: seq<File>)
      requires Valid() && level < NUM_LEVELS
      ensures FileSet(out) == Result(level) && SortedBySmallest(out)
    {
      var files, added := base[level], addedFiles[level];
      var gone := deletedFiles[level];
      out := [];
      var b := 0;
      for a := 0 to |added|
        invariant 0 <= b <= |files|
        invariant MergeState(out, files, b, added, a, gone)
      {
        while b < |files| && !BySmallest(added[a], files[b])
          invariant 0 <= b <= |files|
          invariant MergeState(out, files, b, added, a, gone)
        {
          DifferentNumbers(level, b, a);
          BySmallestIsStrictOrder(files[b], added[a], files[b]);
          BelowAll(files[b], added, a);
          Take(out, files, b, added, a, gone);
          out := MaybeAddFile(out, files[b], gone);
          b := b + 1;
        }
        BelowAll(added[a], files, b);
        MergeStateSwaps(out, files, b, added, a, gone);
        Take(out, added, a, files, b, gone);
        out := MaybeAddFile(out, added[a], gone);
        MergeStateSwaps(out, added, a + 1, files, b, gone);
      }
      while b < |files|
        invariant 0 <= b <= |files|
        invariant MergeState(out, files, b, added, |added|, gone)
      {
        Take(out, files, b, added, |added|, gone);
        out := MaybeAddFile(out, files[b], gone);
        b := b + 1;
      }
      assert files[..|files|] == files && added[..|added|] == added;
    }

    method SaveTo() returns (v: Version)
      requires Valid()
      ensures forall l :: 0 <= l < NUM_LEVELS ==> FileSet(v[l]) == Result(l) && SortedBySmallest(v[l])
    {
      var levels: seq<seq<File>> := [];
      for level := 0 to NUM_LEVELS
        invariant |levels| == level
        invariant forall l :: 0 <= l < level ==> FileSet(levels[l]) == Result(l) && SortedBySmallest(levels[l])
      {
        var files := SaveLevel(level);
        levels := levels + [files];
      }
      v := levels;
    }

    lemma DifferentNumbers(level: nat, b: nat, a: nat)
      requires Valid() && level < NUM_LEVELS && b < |base[level]| && a < |addedFiles[level]|
      ensures base[level][b].number != addedFiles[level][a].number
    {
      assert base[level][b] in FileSet(base[level]) && addedFiles[level][a] in FileSet(addedFiles[level]);
    }
  }

  function MaybeAddFile(out: seq<File>, f: File, gone: set<nat>): seq<File> {
    if f.number in gone then out else out + [f]
  }

  /** `out` holds, in order, what is not deleted of the first `x` and `y` files of two sorted lists,
      and comes before all the others. */
  ghost predicate MergeState(out: seq<File>, xs: seq<File>, x: nat, ys: seq<File>, y: nat, gone: set<nat>)
    requires x <= |xs| && y <= |ys|
  {
    && SortedBySmallest(out)
    && FileSet(out) == (set f | f in FileSet(xs[..x]) + FileSet(ys[..y]) && f.number !in gone)
    && (forall i, j :: 0 <= i < |out| && x <= j < |xs| ==> BySmallest(out[i], xs[j]))
    && (forall i, j :: 0 <= i < |out| && y <= j < |ys| ==> BySmallest(out[i], ys[j]))
  }

  lemma BelowAll(f: File, ys: seq<File>, y: nat)
    requires SortedBySmallest(ys) && y <= |ys| && (y < |ys| ==> BySmallest(f, ys[y]))
    ensures forall j :: y <= j < |ys| ==> BySmallest(f, ys[j])
  {
    forall j | y < j < |ys|
      ensures BySmallest(f, ys[j])
    {
      BySmallestIsStrictOrder(f, ys[y], ys[j]);
    }
  }

  lemma MergeStateSwaps(out: seq<File>, xs: seq<File>, x: nat, ys: seq<File>, y: nat, gone: set<nat>)
    requires x <= |xs| && y <= |ys| && MergeState(out, xs, x, ys, y, gone)
    ensures MergeState(out, ys, y, xs, x, gone)
  {
  }

  lemma Take(out: seq<File>, xs: seq<File>, x: nat, ys: seq<File>, y: nat, gone: set<nat>)
    requires x < |xs| && y <= |ys| && SortedBySmallest(xs)
    requires MergeState(out, xs, x, ys, y, gone)
    requires forall j :: y <= j < |ys| ==> BySmallest(xs[x], ys[j])
    ensures MergeState(MaybeAddFile(out, xs[x], gone), xs, x + 1, ys, y, gone)
  {
    assert xs[..x + 1] == xs[..x] + [xs[x]];
    assert FileSet(xs[..x + 1]) == FileSet(xs[..x]) + {xs[x]};
    assert FileSet(out + [xs[x]]) == FileSet(out) + {xs[x]};
    hide FileSet, BySmallest;
  }

  // ---------------------------------------------------------------------------------------------
  // Many edits through one builder

  /** The edits applied one after the other to the files of one level. */
  ghost function ApplyAll(files: set<File>, edits: seq<Edit>, n: nat, l: nat): set<File>
    requires n <= |edits|
  {
    if n == 0 then files else ApplyEdit(ApplyAll(files, edits, n - 1, l), edits[n - 1], l)
  }

  ghost function AllAdded(edits: seq<Edit>, n: nat, l: nat): set<File>
    requires n <= |edits|
  {
    if n == 0 then {} else AllAdded(edits, n - 1, l) + AddedFiles(edits[n - 1], |edits[n - 1].added|, l)
  }

  /** No file number is added at a level that the level had, or that an edit added there, before. */
  ghost predicate NeverReadded(base: Version, edits: seq<Edit>) {
    forall n :: 0 <= n < |edits| ==> ValidEdit(edits[n]) && NewNumbers(base, edits, n)
  }

  ghost predicate NewNumbers(base: Version, edits: seq<Edit>, n: nat)
    requires n < |edits| && ValidEdit(edits[n])
  {
    && (forall i :: 0 <= i < |edits[n].added| ==>
          && NumberFree(FileSet(base[edits[n].added[i].0]), edits[n].added[i].1.number)
          && NumberFree(AllAdded(edits, n, edits[n].added[i].0), edits[n].added[i].1.number))
    && (forall i, j :: 0 <= i < j < |edits[n].added| && edits[n].added[i].0 == edits[n].added[j].0 ==>
          edits[n].added[i].1.number != edits[n].added[j].1.number)
  }

  /** One builder fed all the edits writes what applying them one at a time gives, in order. */
  method Build(base: Version, edits: seq<Edit>) returns (v: Version)
    requires forall l :: 0 <= l < NUM_LEVELS ==> SortedBySmallest(base[l])
    requires NeverReadded(base, edits)
    ensures forall l :: 0 <= l < NUM_LEVELS ==>
      FileSet(v[l]) == ApplyAll(FileSet(base[l]), edits, |edits|, l) && SortedBySmallest(v[l])
  {
    var builder := new VersionBuilder(base);
    for n := 0 to |edits|
      invariant builder.Valid() && builder.base == base
      invariant fresh(builder) && fresh(builder.deletedFiles) && fresh(builder.addedFiles)
      invariant forall l :: 0 <= l < NUM_LEVELS ==> builder.Result(l) == ApplyAll(FileSet(base[l]), edits, n, l)
      invariant forall l :: 0 <= l < NUM_LEVELS ==> FileSet(builder.addedFiles[l]) == AllAdded(edits, n, l)
    {
      assert NewNumbers(base, edits, n);
      builder.Apply(edits[n]);
    }
    v := builder.SaveTo();
  }

  /** `v` is what LogAndApply makes of `base` and one edit. */
  ghost predicate Built(base: Version, edit: Edit, v: Version) {
    forall l :: 0 <= l < NUM_LEVELS ==> FileSet(v[l]) == ApplyEdit(FileSet(base[l]), edit, l) && SortedBySmallest(v[l])
  }
}
