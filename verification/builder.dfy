/** Version edits and VersionSet::Builder, which applies a run of edits without building the
    versions in between (version_set.cc, version_edit.h). */
module Builders {
  import opened Wrappers
  import opened Entries
  import opened Versions

  type LevelNumber = l: nat | l < NUM_LEVELS

  datatype VersionEdit = VersionEdit(
    compactPointers: seq<(LevelNumber, IKey)>,
    deletedFiles: set<(LevelNumber, nat)>,
    newFiles: seq<(LevelNumber, File)>)

  const EMPTY_EDIT := VersionEdit([], {}, [])

  // ---------------------------------------------------------------- specification

  ghost function FilesOf(files: Level): set<File> {
    set f | f in files
  }

  ghost function AddedAt(newFiles: seq<(LevelNumber, File)>, l: nat): set<File> {
    set p | p in newFiles && p.0 == l :: p.1
  }

  ghost function NumbersOf(files: set<File>): set<nat> {
    set f | f in files :: f.number
  }

  ghost function NumbersAt(deleted: set<(LevelNumber, nat)>, l: LevelNumber): set<nat> {
    set p | p in deleted && p.0 == l :: p.1
  }

  ghost function DeletedAt(edit: VersionEdit, l: LevelNumber): set<nat> {
    NumbersAt(edit.deletedFiles, l)
  }

  /** What installing one edit does to the files of a level. */
  ghost function ApplyToLevel(files: set<File>, edit: VersionEdit, l: LevelNumber): set<File> {
    (set f | f in files && f.number !in DeletedAt(edit, l)) + AddedAt(edit.newFiles, l)
  }

  /** The files of a level after installing the edits one at a time. */
  ghost function Replay(files: set<File>, edits: seq<VersionEdit>, l: LevelNumber): set<File> {
    if edits == [] then files
    else ApplyToLevel(Replay(files, edits[..|edits| - 1], l), edits[|edits| - 1], l)
  }

  /** Every file the level ever held. */
  ghost function EverAdded(files: set<File>, edits: seq<VersionEdit>, l: LevelNumber): set<File> {
    if edits == [] then files
    else EverAdded(files, edits[..|edits| - 1], l) + AddedAt(edits[|edits| - 1].newFiles, l)
  }

  ghost predicate DisjointNumbers(a: set<File>, b: set<File>) {
    forall f, g :: f in a && g in b ==> f.number != g.number
  }

  ghost predicate NoRepeats(newFiles: seq<(LevelNumber, File)>, l: LevelNumber) {
    forall i, j :: 0 <= i < j < |newFiles| && newFiles[i].0 == l && newFiles[j].0 == l
      ==> newFiles[i].1.number != newFiles[j].1.number
  }

  /** No (level, number) pair is added twice, nor one that the level held from the start. */
  ghost predicate AddsAreFresh(files: set<File>, edits: seq<VersionEdit>, l: LevelNumber) {
    edits == [] ||
    (&& AddsAreFresh(files, edits[..|edits| - 1], l)
     && NoRepeats(edits[|edits| - 1].newFiles, l)
     && DisjointNumbers(EverAdded(files, edits[..|edits| - 1], l), AddedAt(edits[|edits| - 1].newFiles, l)))
  }

  /** The numbers that Builder has marked deleted after applying all the edits. */
  ghost function Accumulated(edits: seq<VersionEdit>, l: LevelNumber): set<nat> {
    if edits == [] then {}
    else
      var last := edits[|edits| - 1];
      Accumulated(edits[..|edits| - 1], l) + DeletedAt(last, l) - NumbersOf(AddedAt(last.newFiles, l))
  }

  ghost function Surviving(files: set<File>, deleted: set<nat>): set<File> {
    set f | f in files && f.number !in deleted
  }

  /** Accumulating the edits and dropping the deleted files once gives the files that installing
      the edits one at a time gives. */
  lemma {:induction false} AccumulationIsReplay(files: set<File>, edits: seq<VersionEdit>, l: LevelNumber)
    requires AddsAreFresh(files, edits, l)
    ensures Surviving(EverAdded(files, edits, l), Accumulated(edits, l)) == Replay(files, edits, l)
  {
    if edits != [] {
      var front, last := edits[..|edits| - 1], edits[|edits| - 1];
      AccumulationIsReplay(files, front, l);
      var lhs := Surviving(EverAdded(files, edits, l), Accumulated(edits, l));
      forall f ensures f in lhs <==> f in Replay(files, edits, l) {
        if f in EverAdded(files, front, l) {
          assert f.number !in NumbersOf(AddedAt(last.newFiles, l));
          assert f in lhs <==> f in Replay(files, front, l) && f.number !in DeletedAt(last, l);
        }
      }
    }
  }

  /** A level has only one sorted listing. */
  lemma {:induction false} SortedListingIsUnique(a: Level, b: Level)
    requires SortedBySmallest(a) && SortedBySmallest(b) && FilesOf(a) == FilesOf(b)
    ensures a == b
  {
    if a == [] {
      forall f ensures f !in b {
        assert f !in FilesOf(b);
      }
    } else {
      assert a[0] in FilesOf(b);
      var j :| 0 <= j < |b| && b[j] == a[0];
      assert b[0] in FilesOf(a);
      var i :| 0 <= i < |a| && a[i] == b[0];
      assert i == 0 && j == 0;
      forall f ensures f in FilesOf(a[1..]) <==> f in FilesOf(b[1..]) {
        assert f in FilesOf(a) <==> f in FilesOf(b);
        if f in a[1..] {
          var k :| 0 <= k < |a[1..]| && a[1..][k] == f;
          assert a[k + 1] == f && BySmallestKey(a[0], f);
          var m :| 0 <= m < |b| && b[m] == f;
          assert m != 0;
          assert b[1..][m - 1] == f;
        }
        if f in b[1..] {
          var k :| 0 <= k < |b[1..]| && b[1..][k] == f;
          assert b[k + 1] == f && BySmallestKey(b[0], f);
          var m :| 0 <= m < |a| && a[m] == f;
          assert m != 0;
          assert a[1..][m - 1] == f;
        }
      }
      assert FilesOf(a[1..]) == FilesOf(b[1..]);
      SortedListingIsUnique(a[1..], b[1..]);
    }
  }

  // ---------------------------------------------------------------- the builder

  /** std::set::insert under BySmallestKey: an equivalent element already present is kept. */
  function InsertFile(files: Level, f: File): Level {
    if files == [] then [f]
    else if BySmallestKey(f, files[0]) then [f] + files
    else if BySmallestKey(files[0], f) then [files[0]] + InsertFile(files[1..], f)
    else files
  }

  lemma {:induction false} InsertFileIsInsertion(files: Level, f: File)
    requires SortedBySmallest(files) && forall g :: g in files ==> g.number != f.number
    ensures SortedBySmallest(InsertFile(files, f))
    ensures FilesOf(InsertFile(files, f)) == FilesOf(files) + {f}
  {
    if files != [] && !BySmallestKey(f, files[0]) {
      assert files[0] in files && BySmallestKey(files[0], f);
      var rest := InsertFile(files[1..], f);
      InsertFileIsInsertion(files[1..], f);
      forall k | 0 <= k < |rest| ensures BySmallestKey(files[0], rest[k]) {
        assert rest[k] in FilesOf(rest);
        if rest[k] != f {
          var m :| 0 <= m < |files[1..]| && files[1..][m] == rest[k];
          assert BySmallestKey(files[0], files[m + 1]);
        }
      }
      assert files == [files[0]] + files[1..];
    }
  }

  class Builder {
    const base: Version
    var deletedFiles: seq<set<nat>>
    var addedFiles: seq<Level>
    ghost var applied: seq<VersionEdit>

    ghost predicate Valid()
      reads this
    {
      && |deletedFiles| == |addedFiles| == NUM_LEVELS
      && forall l: LevelNumber ::
        && SortedBySmallest(base[l]) && SortedBySmallest(addedFiles[l])
        && AddsAreFresh(FilesOf(base[l]), applied, l)
        && DisjointNumbers(FilesOf(base[l]), FilesOf(addedFiles[l]))
        && EverAdded(FilesOf(base[l]), applied, l) == FilesOf(base[l]) + FilesOf(addedFiles[l])
        && deletedFiles[l] == Accumulated(applied, l)
    }

    constructor (base: Version)
      requires forall l: LevelNumber :: SortedBySmallest(base[l])
      ensures Valid() && applied == [] && this.base == base
    {
      this.base := base;
      deletedFiles := seq(NUM_LEVELS, _ => {});
      addedFiles := seq(NUM_LEVELS, _ => []);
      applied := [];
    }

    /** Builder::Apply, the file part: mark deletions, then add and un-delete the new files. */
    method Apply(edit: VersionEdit)
      requires Valid()
      requires forall l: LevelNumber :: AddsAreFresh(FilesOf(base[l]), applied + [edit], l)
      modifies this
      ensures Valid() && applied == old(applied) + [edit]
    {
      MarkDeleted(edit);
      AddFiles(edit);
      assert (applied + [edit])[..|applied|] == applied;
      applied := applied + [edit];
      forall l: LevelNumber
        ensures DisjointNumbers(FilesOf(base[l]), FilesOf(addedFiles[l]))
        ensures EverAdded(FilesOf(base[l]), applied, l) == FilesOf(base[l]) + FilesOf(addedFiles[l])
      {
        assert AddsAreFresh(FilesOf(base[l]), applied, l);
        assert FilesOf(base[l]) <= EverAdded(FilesOf(base[l]), old(applied), l);
      }
    }

    method AddFiles(edit: VersionEdit)
      requires |deletedFiles| == |addedFiles| == NUM_LEVELS
      requires forall l: LevelNumber :: SortedBySmallest(addedFiles[l]) && NoRepeats(edit.newFiles, l)
      requires forall l: LevelNumber :: DisjointNumbers(FilesOf(addedFiles[l]), AddedAt(edit.newFiles, l))
      modifies this`deletedFiles, this`addedFiles
      ensures |deletedFiles| == |addedFiles| == NUM_LEVELS
      ensures forall l: LevelNumber ::
        && SortedBySmallest(addedFiles[l])
        && FilesOf(addedFiles[l]) == FilesOf(old(addedFiles)[l]) + AddedAt(edit.newFiles, l)
        && deletedFiles[l] == old(deletedFiles)[l] - NumbersOf(AddedAt(edit.newFiles, l))
    {
      var newFiles := edit.newFiles;
      for i := 0 to |newFiles|
        invariant |deletedFiles| == |addedFiles| == NUM_LEVELS
        invariant forall l: LevelNumber ::
          && SortedBySmallest(addedFiles[l])
          && FilesOf(addedFiles[l]) == FilesOf(old(addedFiles)[l]) + AddedAt(newFiles[..i], l)
          && deletedFiles[l] == old(deletedFiles)[l] - NumbersOf(AddedAt(newFiles[..i], l))
      {
        var l, f := newFiles[i].0, newFiles[i].1;
        AddedAtNext(newFiles, i);
        assert f in AddedAt(newFiles, l);
        assert forall g :: g in addedFiles[l] ==> g in FilesOf(addedFiles[l]);
        deletedFiles := deletedFiles[l := deletedFiles[l] - {f.number}];
        InsertFileIsInsertion(addedFiles[l], f);
        addedFiles := addedFiles[l := InsertFile(addedFiles[l], f)];
      }
      assert newFiles[..|newFiles|] == newFiles;
    }

    method MarkDeleted(edit: VersionEdit)
      requires |deletedFiles| == NUM_LEVELS
      modifies this`deletedFiles
      ensures |deletedFiles| == NUM_LEVELS
      ensures forall l: LevelNumber :: deletedFiles[l] == old(deletedFiles)[l] + DeletedAt(edit, l)
    {
      var toDelete := edit.deletedFiles;
      while toDelete != {}
        invariant toDelete <= edit.deletedFiles
        invariant |deletedFiles| == NUM_LEVELS
        invariant forall l: LevelNumber ::
          deletedFiles[l] == old(deletedFiles)[l] + DeletedAt(edit.(deletedFiles := edit.deletedFiles - toDelete), l)
        decreases toDelete
      {
        var p :| p in toDelete;
        deletedFiles := deletedFiles[p.0 := deletedFiles[p.0] + {p.1}];
        toDelete := toDelete - {p};
      }
      assert edit.(deletedFiles := edit.deletedFiles - toDelete) == edit;
    }

    /** Builder::SaveTo merges the two sorted lists of each level and drops the deleted files. */
    method SaveTo() returns (v: Version)
      requires Valid()
      ensures forall l: LevelNumber :: SortedBySmallest(v[l])
      ensures forall l: LevelNumber :: FilesOf(v[l]) == Replay(FilesOf(base[l]), applied, l)
    {
      v := [[], [], [], [], [], [], []];
      for l := 0 to NUM_LEVELS
        invariant forall k: LevelNumber :: k < l ==>
          SortedBySmallest(v[k]) && FilesOf(v[k]) == Replay(FilesOf(base[k]), applied, k)
      {
        var files := MergeLevel(base[l], addedFiles[l], deletedFiles[l]);
        AccumulationIsReplay(FilesOf(base[l]), applied, l);
        v := v[l := files];
      }
    }
  }

  /** The version that installing one edit gives. */
  method ApplyEdit(base: Version, edit: VersionEdit) returns (v: Version)
    requires forall l: LevelNumber :: SortedBySmallest(base[l]) && AddsAreFresh(FilesOf(base[l]), [edit], l)
    ensures forall l: LevelNumber :: SortedBySmallest(v[l])
    ensures forall l: LevelNumber :: FilesOf(v[l]) == ApplyToLevel(FilesOf(base[l]), edit, l)
  {
    var builder := new Builder(base);
    builder.Apply(edit);
    assert [edit][..0] == [];
    assert forall l: LevelNumber :: Replay(FilesOf(base[l]), [], l) == FilesOf(base[l]);
    v := builder.SaveTo();
  }

  lemma AddedAtNext(newFiles: seq<(LevelNumber, File)>, i: nat)
    requires i < |newFiles|
    ensures forall l: LevelNumber ::
      AddedAt(newFiles[..i + 1], l) == AddedAt(newFiles[..i], l) + if newFiles[i].0 == l then {newFiles[i].1} else {}
  {
    assert newFiles[..i + 1] == newFiles[..i] + [newFiles[i]];
  }

  ghost predicate Merged(b: Level, a: Level, deleted: set<nat>, next: nat, i: nat, files: Level) {
    && next <= |b| && i <= |a|
    && SortedBySmallest(files)
    && FilesOf(files) == Surviving(FilesOf(b[..next]) + FilesOf(a[..i]), deleted)
    && (forall k, m :: 0 <= k < next && i <= m < |a| ==> BySmallestKey(b[k], a[m]))
    && (forall k, m :: 0 <= k < i && next <= m < |b| ==> BySmallestKey(a[k], b[m]))
  }

  lemma TakeBase(b: Level, a: Level, deleted: set<nat>, next: nat, i: nat, files: Level)
    requires SortedBySmallest(b) && SortedBySmallest(a)
    requires Merged(b, a, deleted, next, i, files) && next < |b|
    requires i < |a| ==> BySmallestKey(b[next], a[i])
    ensures forall g :: g in FilesOf(files) ==> BySmallestKey(g, b[next])
    ensures Merged(b, a, deleted, next + 1, i, MaybeAddFile(files, b[next], deleted))
  {
    FirstIsBefore(b[next], a, i);
    hide BySmallestKey;
    forall g | g in FilesOf(files) ensures BySmallestKey(g, b[next]) {
      assert g in FilesOf(b[..next]) + FilesOf(a[..i]);
    }
    OneMoreFile(b, next);
    SurvivingOneMore(FilesOf(b[..next]) + FilesOf(a[..i]), b[next], deleted);
    assert FilesOf(b[..next + 1]) + FilesOf(a[..i]) == FilesOf(b[..next]) + FilesOf(a[..i]) + {b[next]};
    hide MaybeAddFile, Surviving, FilesOf;
  }

  /** What comes before the first of the files to come comes before all of them. */
  lemma FirstIsBefore(f: File, files: Level, i: nat)
    requires SortedBySmallest(files) && (i < |files| ==> BySmallestKey(f, files[i]))
    ensures forall m :: i <= m < |files| ==> BySmallestKey(f, files[m])
  {
    forall m | i <= m < |files| ensures BySmallestKey(f, files[m]) {
      assert i < m ==> BySmallestKey(files[i], files[m]);
    }
  }

  lemma OneMoreFile(files: Level, n: nat)
    requires n < |files|
    ensures FilesOf(files[..n + 1]) == FilesOf(files[..n]) + {files[n]}
  {
    assert files[..n + 1] == files[..n] + [files[n]];
  }

  lemma SurvivingOneMore(files: set<File>, f: File, deleted: set<nat>)
    ensures Surviving(files + {f}, deleted) == Surviving(files, deleted) + Surviving({f}, deleted)
  {
  }

  lemma TakeAdded(b: Level, a: Level, deleted: set<nat>, next: nat, i: nat, files: Level)
    requires SortedBySmallest(b) && SortedBySmallest(a)
    requires Merged(b, a, deleted, next, i, files) && i < |a|
    requires next < |b| ==> BySmallestKey(a[i], b[next])
    ensures forall g :: g in FilesOf(files) ==> BySmallestKey(g, a[i])
    ensures Merged(b, a, deleted, next, i + 1, MaybeAddFile(files, a[i], deleted))
  {
    FirstIsBefore(a[i], b, next);
    hide BySmallestKey;
    forall g | g in FilesOf(files) ensures BySmallestKey(g, a[i]) {
      assert g in FilesOf(b[..next]) + FilesOf(a[..i]);
    }
    OneMoreFile(a, i);
    SurvivingOneMore(FilesOf(b[..next]) + FilesOf(a[..i]), a[i], deleted);
    assert FilesOf(b[..next]) + FilesOf(a[..i + 1]) == FilesOf(b[..next]) + FilesOf(a[..i]) + {a[i]};
    hide MaybeAddFile, Surviving, FilesOf;
  }

  method MergeLevel(b: Level, a: Level, deleted: set<nat>) returns (files: Level)
    requires SortedBySmallest(b) && SortedBySmallest(a) && DisjointNumbers(FilesOf(b), FilesOf(a))
    ensures SortedBySmallest(files)
    ensures FilesOf(files) == Surviving(FilesOf(b) + FilesOf(a), deleted)
  {
    files := [];
    var next := 0;
    for i := 0 to |a|
      invariant Merged(b, a, deleted, next, i, files)
    {
      while next < |b| && !BySmallestKey(a[i], b[next])
        invariant Merged(b, a, deleted, next, i, files)
      {
        assert b[next] in FilesOf(b) && a[i] in FilesOf(a);
        TakeBase(b, a, deleted, next, i, files);
        files := MaybeAddFile(files, b[next], deleted);
        next := next + 1;
      }
      TakeAdded(b, a, deleted, next, i, files);
      files := MaybeAddFile(files, a[i], deleted);
    }
    while next < |b|
      invariant Merged(b, a, deleted, next, |a|, files)
    {
      TakeBase(b, a, deleted, next, |a|, files);
      files := MaybeAddFile(files, b[next], deleted);
      next := next + 1;
    }
    assert b[..next] == b && a[..|a|] == a;
  }

  function MaybeAddFile(files: Level, f: File, deleted: set<nat>): (r: Level)
    requires SortedBySmallest(files) && forall g :: g in FilesOf(files) ==> BySmallestKey(g, f)
    ensures SortedBySmallest(r)
    ensures FilesOf(r) == FilesOf(files) + Surviving({f}, deleted)
  {
    assert forall k :: 0 <= k < |files| ==> files[k] in FilesOf(files);
    if f.number in deleted then files else files + [f]
  }
}
