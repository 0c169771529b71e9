/** Version well-formedness is kept by merge compaction, trivial move and memtable flush. */
module Invariants {
  import opened Wrappers
  import opened Entries
  import opened Versions
  import opened Inputs
  import opened Builders
  import opened VersionSets

  /** `a` lies entirely before or entirely after `b`. */
  predicate Apart(a: File, b: File) {
    Precedes(a.largest, b.smallest) || Precedes(b.largest, a.smallest)
  }

  lemma SortedApartIsDisjoint(files: Level)
    requires ValidFiles(files) && SortedBySmallest(files)
    requires forall f, g :: f in files && g in files && f != g ==> Apart(f, g)
    ensures DisjointSorted(files)
  {
    forall i, j | 0 <= i < j < |files| ensures Precedes(files[i].largest, files[j].smallest) {
      FileIsOrdered(files[i]);
      FileIsOrdered(files[j]);
      assert BySmallestKey(files[i], files[j]);
      assert files[i] in files && files[j] in files;
    }
  }

  lemma DisjointIsApart(files: Level)
    requires DisjointSorted(files)
    ensures forall f, g :: f in files && g in files && f != g ==> Apart(f, g)
  {
  }

  /** `after` is `before` with the files `gone` of level and level + 1 replaced by `added` at
      level + 1. */
  ghost predicate Replaces(before: Version, after: Version, level: nat, gone0: set<File>, gone1: set<File>,
                           added: set<File>)
    requires level + 1 < NUM_LEVELS
  {
    && (forall l :: 0 <= l < NUM_LEVELS ==> SortedBySmallest(after[l]))
    && (forall l :: 0 <= l < NUM_LEVELS && l != level && l != level + 1 ==> FilesOf(after[l]) == FilesOf(before[l]))
    && FilesOf(after[level]) == FilesOf(before[level]) - gone0
    && FilesOf(after[level + 1]) == FilesOf(before[level + 1]) - gone1 + added
  }

  /** No two levels share a file number. */
  ghost predicate NumbersAcrossLevels(v: Version) {
    forall k, l :: 0 <= k < l < NUM_LEVELS ==> DisjointNumbers(FilesOf(v[k]), FilesOf(v[l]))
  }

  lemma ReplacesKeepsNumbers(v: Version, w: Version, level: nat, gone0: set<File>, gone1: set<File>, added: set<File>)
    requires NumbersAcrossLevels(v) && level + 1 < NUM_LEVELS && Replaces(v, w, level, gone0, gone1, added)
    requires forall l :: 0 <= l < NUM_LEVELS ==>
      DisjointNumbers(FilesOf(v[l]) - if l == level then gone0 else {}, added)
    ensures NumbersAcrossLevels(w)
  {
  }

  /** The edit that a compaction installs deletes exactly its inputs and adds its outputs. */
  ghost predicate IsCompactionEdit(edit: VersionEdit, level: nat, inputs0: Level, inputs1: Level, outputs: Level)
    requires level + 1 < NUM_LEVELS
  {
    && DeletedAt(edit, level) == NumbersOf(FilesOf(inputs0))
    && DeletedAt(edit, level + 1) == NumbersOf(FilesOf(inputs1))
    && (forall l: LevelNumber :: l != level && l != level + 1 ==> DeletedAt(edit, l) == {})
    && edit.newFiles == seq(|outputs|, i requires 0 <= i < |outputs| => (level + 1, outputs[i]))
  }

  lemma AddedByEdit(edit: VersionEdit, level: nat, inputs0: Level, inputs1: Level, outputs: Level)
    requires level + 1 < NUM_LEVELS && IsCompactionEdit(edit, level, inputs0, inputs1, outputs)
    ensures forall l: LevelNumber :: AddedAt(edit.newFiles, l) == if l == level + 1 then FilesOf(outputs) else {}
  {
    forall f | f in FilesOf(outputs) ensures f in AddedAt(edit.newFiles, level + 1) {
      var i :| 0 <= i < |outputs| && outputs[i] == f;
      assert edit.newFiles[i] == (level + 1, f);
    }
    forall p | p in edit.newFiles ensures p.0 == level + 1 && p.1 in FilesOf(outputs) {
      var i :| 0 <= i < |edit.newFiles| && edit.newFiles[i] == p;
    }
  }

  lemma DeletingNumbersDeletesFiles(files: Level, gone: set<File>)
    requires DistinctNumbers(files) && gone <= FilesOf(files)
    ensures (set f | f in FilesOf(files) && f.number !in NumbersOf(gone)) == FilesOf(files) - gone
  {
    forall f | f in FilesOf(files) ensures f.number in NumbersOf(gone) <==> f in gone {
      if f.number in NumbersOf(gone) {
        var g :| g in gone && g.number == f.number;
        assert g in files;
      }
    }
  }

  /** Installing that edit replaces the inputs by the outputs. */
  lemma CompactionEditReplaces(v: Version, w: Version, edit: VersionEdit, level: nat, inputs0: Level, inputs1: Level,
                               outputs: Level)
    requires WellFormed(v) && GoodInputs(v, level, inputs0, inputs1)
    requires IsCompactionEdit(edit, level, inputs0, inputs1, outputs)
    requires forall l: LevelNumber :: SortedBySmallest(w[l]) && FilesOf(w[l]) == ApplyToLevel(FilesOf(v[l]), edit, l)
    ensures Replaces(v, w, level, FilesOf(inputs0), FilesOf(inputs1), FilesOf(outputs))
  {
    AddedByEdit(edit, level, inputs0, inputs1, outputs);
    DeletingNumbersDeletesFiles(v[level], FilesOf(inputs0));
    DeletingNumbersDeletesFiles(v[level + 1], FilesOf(inputs1));
  }

  /** A level-(L+1) file that was not chosen lies on one side of the level-L inputs ... */
  lemma UnchosenParentSide(v: Version, level: nat, inputs0: Level, inputs1: Level, g: File)
    requires WellFormed(v) && GoodInputs(v, level, inputs0, inputs1)
    requires g in v[level + 1] && g !in inputs1
    ensures g.largest.user < SmallestKey(inputs0).user || g.smallest.user > LargestKey(inputs0).user
  {
    FileIsOrdered(g);
  }

  lemma InputWithinRange(v: Version, level: nat, inputs0: Level, inputs1: Level, e: Entry)
    requires WellFormed(v) && GoodInputs(v, level, inputs0, inputs1) && e in LevelEntries(inputs0)
    ensures SmallestKey(inputs0).user <= e.user <= LargestKey(inputs0).user
  {
    var f :| f in inputs0 && e in f.entries;
    assert f in FilesOf(v[level]);
    EntriesWithinFile(f, e);
    SmallestKeyIs(inputs0);
    LargestKeyIs(inputs0);
  }

  lemma ParentIsApart(v: Version, level: nat, inputs0: Level, inputs1: Level, g: File, h: File, e: Entry)
    requires WellFormed(v) && GoodInputs(v, level, inputs0, inputs1)
    requires g in v[level + 1] && g !in inputs1 && h in inputs1 && e in h.entries
    ensures g.largest.user < SmallestKey(inputs0).user ==> Precedes(g.largest, e.Key())
    ensures g.smallest.user > LargestKey(inputs0).user ==> Precedes(e.Key(), g.smallest)
  {
    FileIsOrdered(g);
    EntriesWithinFile(h, e);
    FileIsOrdered(h);
    DisjointIsApart(v[level + 1]);
    assert Apart(g, h);
    assert Overlaps(h, Some(SmallestKey(inputs0).user), Some(LargestKey(inputs0).user));
  }

  /** ... and on that side of everything chosen. */
  lemma UnchosenParentIsApart(v: Version, level: nat, inputs0: Level, inputs1: Level, g: File, e: Entry)
    requires WellFormed(v) && GoodInputs(v, level, inputs0, inputs1)
    requires g in v[level + 1] && g !in inputs1
    requires e in LevelEntries(inputs0) + LevelEntries(inputs1)
    ensures g.largest.user < SmallestKey(inputs0).user ==> Precedes(g.largest, e.Key())
    ensures g.smallest.user > LargestKey(inputs0).user ==> Precedes(e.Key(), g.smallest)
  {
    if e in LevelEntries(inputs0) {
      InputWithinRange(v, level, inputs0, inputs1, e);
    } else {
      var h :| h in inputs1 && e in h.entries;
      ParentIsApart(v, level, inputs0, inputs1, g, h, e);
    }
  }

  lemma OutputIsApart(v: Version, level: nat, inputs0: Level, inputs1: Level, g: File, o: File)
    requires WellFormed(v) && GoodInputs(v, level, inputs0, inputs1)
    requires g in v[level + 1] && g !in inputs1 && o.Valid()
    requires FileEntries(o) <= LevelEntries(inputs0) + LevelEntries(inputs1)
    ensures Apart(g, o)
  {
    var first, last := o.entries[0], o.entries[|o.entries| - 1];
    assert first in FileEntries(o) && last in FileEntries(o);
    UnchosenParentSide(v, level, inputs0, inputs1, g);
    UnchosenParentIsApart(v, level, inputs0, inputs1, g, first);
    UnchosenParentIsApart(v, level, inputs0, inputs1, g, last);
  }

  /** Replacing the inputs of a compaction by any disjoint files that hold only input entries keeps
      the version well formed.  This covers merges (the kept entries, cut anywhere) and trivial
      moves (the input file itself). */
  lemma CompactionKeepsWellFormed(v: Version, w: Version, level: nat, inputs0: Level, inputs1: Level, outputs: Level)
    requires WellFormed(v) && GoodInputs(v, level, inputs0, inputs1)
    requires ValidFiles(outputs) && DisjointSorted(outputs) && DistinctNumbers(outputs)
    requires LevelEntries(outputs) <= LevelEntries(inputs0) + LevelEntries(inputs1)
    requires DisjointNumbers(FilesOf(v[level + 1]), FilesOf(outputs))
    requires Replaces(v, w, level, FilesOf(inputs0), FilesOf(inputs1), FilesOf(outputs))
    ensures WellFormed(w)
  {
    forall l | 0 <= l < NUM_LEVELS ensures ValidFiles(w[l]) && DistinctNumbers(w[l]) {
      forall f | f in w[l] ensures f in v[l] || (l == level + 1 && f in outputs) {
        assert f in FilesOf(w[l]);
      }
    }
    forall l | 1 <= l < NUM_LEVELS ensures DisjointSorted(w[l]) {
      CompactionKeepsDisjoint(v, w, level, inputs0, inputs1, outputs, l);
    }
    assert NewestFileFirst(w[0]) by {
      forall f | f in w[0] ensures f in v[0] {
        assert f in FilesOf(w[0]);
      }
    }
    CompactionKeepsShallowerNewer(v, w, level, inputs0, inputs1, outputs);
  }

  lemma CompactionKeepsDisjoint(v: Version, w: Version, level: nat, inputs0: Level, inputs1: Level, outputs: Level,
                                l: nat)
    requires WellFormed(v) && GoodInputs(v, level, inputs0, inputs1)
    requires ValidFiles(outputs) && DisjointSorted(outputs)
    requires LevelEntries(outputs) <= LevelEntries(inputs0) + LevelEntries(inputs1)
    requires Replaces(v, w, level, FilesOf(inputs0), FilesOf(inputs1), FilesOf(outputs))
    requires 1 <= l < NUM_LEVELS && ValidFiles(w[l])
    ensures DisjointSorted(w[l])
  {
    DisjointIsApart(v[l]);
    DisjointIsApart(outputs);
    forall f, g | f in w[l] && g in w[l] && f != g ensures Apart(f, g) {
      assert f in FilesOf(w[l]) && g in FilesOf(w[l]);
      if l == level + 1 {
        if f in outputs && g !in outputs {
          assert FileEntries(f) <= LevelEntries(outputs);
          OutputIsApart(v, level, inputs0, inputs1, g, f);
        } else if g in outputs && f !in outputs {
          assert FileEntries(g) <= LevelEntries(outputs);
          OutputIsApart(v, level, inputs0, inputs1, f, g);
        }
      }
    }
    SortedApartIsDisjoint(w[l]);
  }

  lemma CompactionKeepsShallowerNewer(v: Version, w: Version, level: nat, inputs0: Level, inputs1: Level,
                                      outputs: Level)
    requires WellFormed(v) && GoodInputs(v, level, inputs0, inputs1)
    requires LevelEntries(outputs) <= LevelEntries(inputs0) + LevelEntries(inputs1)
    requires Replaces(v, w, level, FilesOf(inputs0), FilesOf(inputs1), FilesOf(outputs))
    ensures ShallowerIsNewer(w)
  {
    hide WellFormed, GoodInputs, Replaces, LevelEntries;
    forall a, b, x, y | 0 <= a < b < NUM_LEVELS && x in LevelEntries(w[a]) && y in LevelEntries(w[b])
        && x.user == y.user
      ensures x.seqno > y.seqno
    {
      var p, f := Origin(v, w, level, inputs0, inputs1, outputs, a, x);
      var q, g := Origin(v, w, level, inputs0, inputs1, outputs, b, y);
      InLevel(v, p, f, x);
      InLevel(v, q, g, y);
      if p < q {
        DeeperIsOlder(v, p, q, x, y);
      } else {
        LeftBehindIsNewer(v, level, inputs0, inputs1, f, g, x, y);
      }
    }
  }

  lemma InLevel(v: Version, l: nat, f: File, x: Entry)
    requires l < NUM_LEVELS && f in v[l] && x in f.entries
    ensures x in LevelEntries(v[l])
  {
  }

  /** What stays at the level is newer than what is moved down from it. */
  lemma LeftBehindIsNewer(v: Version, level: nat, inputs0: Level, inputs1: Level, f: File, g: File, x: Entry, y: Entry)
    requires WellFormed(v) && GoodInputs(v, level, inputs0, inputs1) && f in v[level] && f !in inputs0 && g in inputs0
    requires x in f.entries && y in g.entries && x.user == y.user
    ensures x.seqno > y.seqno
  {
    assert x in FileEntries(f) && y in FileEntries(g);
    hide WellFormed;
  }

  /** Where an entry of the new version was in the old one. */
  lemma Origin(v: Version, w: Version, level: nat, inputs0: Level, inputs1: Level, outputs: Level, l: nat, x: Entry)
    returns (p: nat, f: File)
    requires GoodInputs(v, level, inputs0, inputs1)
    requires LevelEntries(outputs) <= LevelEntries(inputs0) + LevelEntries(inputs1)
    requires Replaces(v, w, level, FilesOf(inputs0), FilesOf(inputs1), FilesOf(outputs))
    requires l < NUM_LEVELS && x in LevelEntries(w[l])
    ensures p < NUM_LEVELS && f in v[p] && x in f.entries
    ensures p == l || (l == level + 1 && p == level && f in inputs0)
    ensures p == l == level ==> f !in inputs0
  {
    var h :| h in w[l] && x in h.entries;
    assert h in FilesOf(w[l]);
    if l == level + 1 && h in outputs {
      assert x in LevelEntries(outputs);
      if x in LevelEntries(inputs0) {
        f :| f in inputs0 && x in f.entries;
        assert f in FilesOf(v[level]);
        return level, f;
      }
      f :| f in inputs1 && x in f.entries;
      return l, f;
    }
    assert h in FilesOf(v[l]);
    return l, h;
  }

  // ---------------------------------------------------------------- memtable flush

  /** `after` is `before` with the file `f` added at a level. */
  ghost predicate Adds(before: Version, after: Version, level: nat, f: File) {
    && (forall l :: 0 <= l < NUM_LEVELS ==> SortedBySmallest(after[l]))
    && (forall l :: 0 <= l < NUM_LEVELS ==> FilesOf(after[l]) == FilesOf(before[l]) + if l == level then {f} else {})
  }

  /** A table pushed below level 0 meets no file on its way down. */
  ghost predicate MayPushTo(v: Version, level: nat, f: File) {
    level > 0 ==> forall l, g :: 0 <= l <= level < NUM_LEVELS && g in v[l] ==>
      !Overlaps(g, Some(f.smallest.user), Some(f.largest.user))
  }

  lemma PushedIsApart(v: Version, level: nat, f: File, l: nat)
    requires MayPushTo(v, level, f) && 0 < level < NUM_LEVELS && l <= level
    ensures forall g :: g in v[l] ==> g.largest.user < f.smallest.user || f.largest.user < g.smallest.user
  {
    forall g | g in v[l] ensures g.largest.user < f.smallest.user || f.largest.user < g.smallest.user {
      assert !Overlaps(g, Some(f.smallest.user), Some(f.largest.user));
    }
  }

  lemma FlushKeepsLevel(v: Version, w: Version, level: nat, f: File, l: nat)
    requires WellFormed(v) && l < NUM_LEVELS && level < NUM_LEVELS && f.Valid()
    requires Adds(v, w, level, f) && MayPushTo(v, level, f)
    requires forall g :: g in v[l] ==> g.number < f.number
    ensures ValidFiles(w[l]) && DistinctNumbers(w[l])
    ensures l > 0 ==> DisjointSorted(w[l])
  {
    forall g | g in w[l] ensures g in v[l] || (l == level && g == f) {
      assert g in FilesOf(w[l]);
    }
    if l > 0 {
      DisjointIsApart(v[l]);
      if l == level {
        PushedIsApart(v, level, f, l);
      }
      SortedApartIsDisjoint(w[l]);
    }
  }

  /** Adding a table of entries newer than the whole version, at a level it may be pushed to. */
  lemma FlushKeepsWellFormed(v: Version, w: Version, level: nat, f: File)
    requires WellFormed(v) && level < NUM_LEVELS && f.Valid()
    requires Adds(v, w, level, f) && MayPushTo(v, level, f)
    requires Newer(FileEntries(f), VersionEntries(v))
    requires forall l, g :: 0 <= l < NUM_LEVELS && g in v[l] ==> g.number < f.number
    ensures WellFormed(w)
  {
    forall l | 0 <= l < NUM_LEVELS
      ensures ValidFiles(w[l]) && DistinctNumbers(w[l]) && (l > 0 ==> DisjointSorted(w[l]))
    {
      FlushKeepsLevel(v, w, level, f, l);
    }
    FlushKeepsNewestFirst(v, w, level, f);
    forall a, b, x, y | 0 <= a < b < NUM_LEVELS && x in LevelEntries(w[a]) && y in LevelEntries(w[b])
        && x.user == y.user
      ensures x.seqno > y.seqno
    {
      FlushedPairInOrder(v, w, level, f, a, b, x, y);
    }
  }

  lemma FlushKeepsNewestFirst(v: Version, w: Version, level: nat, f: File)
    requires WellFormed(v) && level < NUM_LEVELS && Adds(v, w, level, f)
    requires Newer(FileEntries(f), VersionEntries(v))
    requires forall l, g :: 0 <= l < NUM_LEVELS && g in v[l] ==> g.number < f.number
    ensures NewestFileFirst(w[0])
  {
    forall g, h | g in w[0] && h in w[0] && g.number > h.number ensures Newer(FileEntries(g), FileEntries(h)) {
      assert g in FilesOf(w[0]) && h in FilesOf(w[0]);
      if g == f {
        forall y | y in FileEntries(h) ensures y in VersionEntries(v) {
          assert y in LevelEntries(v[0]);
        }
      }
    }
  }

  lemma NewerPair(a: set<Entry>, b: set<Entry>, x: Entry, y: Entry)
    requires Newer(a, b) && x in a && y in b && x.user == y.user
    ensures x.seqno > y.seqno
  {
  }

  lemma FlushedPairInOrder(v: Version, w: Version, level: nat, f: File, a: nat, b: nat, x: Entry, y: Entry)
    requires ShallowerIsNewer(v) && level < NUM_LEVELS && f.Valid() && a < b < NUM_LEVELS && ValidFiles(v[a])
    requires Adds(v, w, level, f) && MayPushTo(v, level, f)
    requires Newer(FileEntries(f), VersionEntries(v))
    requires x in LevelEntries(w[a]) && y in LevelEntries(w[b]) && x.user == y.user
    ensures x.seqno > y.seqno
  {
    var g :| g in w[a] && x in g.entries;
    var h :| h in w[b] && y in h.entries;
    assert g in FilesOf(w[a]) && h in FilesOf(w[b]);
    assert (g in v[a] || (g == f && a == level)) && (h in v[b] || (h == f && b == level));
    hide Adds, MayPushTo, ValidFiles, Newer;
    if h in v[b] {
      InLevel(v, b, h, y);
      if g in v[a] {
        InLevel(v, a, g, x);
        assert Newer(LevelEntries(v[a]), LevelEntries(v[b]));
        NewerPair(LevelEntries(v[a]), LevelEntries(v[b]), x, y);
      } else {
        assert x in FileEntries(f) && y in VersionEntries(v);
        NewerPair(FileEntries(f), VersionEntries(v), x, y);
      }
    } else {
      PushedIsApart(v, level, f, a);
      EntriesWithinFile(f, y);
      EntriesWithinFile(g, x);
    }
  }
}
