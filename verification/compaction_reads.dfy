/** When a compaction preserves reads: always, except for one family of inputs, characterised here
    exactly (db_impl.cc, version_set.cc). */
module CompactionReads {
  import opened Wrappers
  import opened Entries
  import opened Versions
  import opened Inputs
  import opened Builders
  import opened VersionSets
  import opened Compactions
  import opened Invariants

  /** Reads of two stores agree from the floor up. */
  ghost predicate AgreeFrom(floor: nat, a: set<Entry>, h: set<Entry>) {
    forall user, s :: s >= floor ==> Read(a, user, s) == Read(h, user, s)
  }

  ghost function InputEntries(inputs0: Level, inputs1: Level): set<Entry> {
    LevelEntries(inputs0) + LevelEntries(inputs1)
  }

  /** The entries of the files a compaction does not touch. */
  ghost function Untouched(v: Version, level: nat, inputs0: Level, inputs1: Level): set<Entry> {
    set l, f, e | 0 <= l < NUM_LEVELS && f in v[l] && e in f.entries && !IsInput(level, inputs0, inputs1, l, f) :: e
  }

  lemma UntouchedHome(v: Version, level: nat, inputs0: Level, inputs1: Level, e: Entry) returns (l: nat, f: File)
    requires e in Untouched(v, level, inputs0, inputs1)
    ensures l < NUM_LEVELS && f in v[l] && e in f.entries && !IsInput(level, inputs0, inputs1, l, f)
    ensures e in LevelEntries(v[l]) && e in VersionEntries(v)
  {
    l, f :| 0 <= l < NUM_LEVELS && f in v[l] && e in f.entries && !IsInput(level, inputs0, inputs1, l, f);
  }

  lemma InputHome(v: Version, level: nat, inputs0: Level, inputs1: Level, e: Entry) returns (l: nat, f: File)
    requires GoodInputs(v, level, inputs0, inputs1) && e in InputEntries(inputs0, inputs1)
    ensures l < NUM_LEVELS && f in v[l] && e in f.entries && IsInput(level, inputs0, inputs1, l, f)
    ensures e in LevelEntries(v[l]) && e in VersionEntries(v)
  {
    if e in LevelEntries(inputs0) {
      l := level;
      f :| f in inputs0 && e in f.entries;
      assert f in FilesOf(v[level]);
    } else {
      l := level + 1;
      f :| f in inputs1 && e in f.entries;
    }
  }

  /** The read of `user` that the compaction would change: its newest entry at the smallest snapshot
      is a dropped input marker, and below that marker an untouched put shows through. */
  ghost predicate Exposes(v: Version, level: nat, inputs: set<Entry>, rest: set<Entry>, snapshot: nat, user: UserKey) {
    var newest := Newest(rest + inputs, user, snapshot);
    && newest.Some?
    && newest.value in inputs
    && ObsoleteMarker(v, level, newest.value, snapshot)
    && Read(rest, user, snapshot).Some?
  }

  /** While the newest visible entry survives, the read is unchanged. */
  lemma SurvivingNewest(v: Version, level: nat, inputs: set<Entry>, rest: set<Entry>, snapshot: nat, user: UserKey,
                        s: nat)
    requires DistinctSequences(rest + inputs)
    requires var n := Newest(rest + inputs, user, s);
      n.None? || n.value in rest + Kept(v, level, inputs, snapshot)
    ensures Newest(rest + Kept(v, level, inputs, snapshot), user, s) == Newest(rest + inputs, user, s)
  {
    var kept, n := Kept(v, level, inputs, snapshot), Newest(rest + inputs, user, s);
    if n.None? {
      NewestNone(rest + inputs, user, s);
      NewestNone(rest + kept, user, s);
    } else {
      assert IsNewest(rest + inputs, user, s, n.value);
      assert IsNewest(rest + kept, user, s, n.value);
      NewestIs(rest + kept, user, s, n.value);
    }
  }

  /** When the newest visible entry is dropped it is an obsolete marker, everything older among the
      inputs goes with it, and the read falls through to the untouched entries. */
  lemma DroppedNewest(v: Version, level: nat, inputs: set<Entry>, rest: set<Entry>, snapshot: nat, user: UserKey,
                      s: nat, n: Entry)
    requires DistinctSequences(rest + inputs) && s >= snapshot
    requires IsNewest(rest + inputs, user, s, n) && n !in rest + Kept(v, level, inputs, snapshot)
    ensures ObsoleteMarker(v, level, n, snapshot)
    ensures Newest(rest + inputs, user, snapshot) == Newest(rest + inputs, user, s) == Some(n)
    ensures Newest(rest + Kept(v, level, inputs, snapshot), user, s) == Newest(rest, user, snapshot)
  {
    var all, kept := rest + inputs, Kept(v, level, inputs, snapshot);
    forall x | x in inputs ensures !(x.user == n.user && n.seqno < x.seqno <= snapshot) {
      assert x in all;
    }
    assert IsNewest(all, user, snapshot, n);
    NewestIs(all, user, snapshot, n);
    NewestIs(all, user, s, n);
    forall y | y in rest + kept && VisibleTo(y, user, s) ensures y in rest && VisibleTo(y, user, snapshot) {
      assert y in all && y.seqno <= n.seqno;
      assert y in inputs ==> Hidden(inputs, y, snapshot);
    }
    var m := Newest(rest, user, snapshot);
    if m.None? {
      NewestNone(rest, user, snapshot);
      NewestNone(rest + kept, user, s);
    } else {
      assert IsNewest(rest, user, snapshot, m.value);
      assert IsNewest(rest + kept, user, s, m.value);
      NewestIs(rest + kept, user, s, m.value);
    }
  }

  /** Replacing the inputs by what the merge loop keeps leaves every read at or above the smallest
      snapshot unchanged if and only if it exposes nothing. */
  lemma CompactionReadsExactly(v: Version, level: nat, inputs: set<Entry>, rest: set<Entry>, snapshot: nat)
    requires DistinctSequences(rest + inputs) && rest !! inputs
    ensures AgreeFrom(snapshot, rest + Kept(v, level, inputs, snapshot), rest + inputs)
       <==> !exists user :: Exposes(v, level, inputs, rest, snapshot, user)
  {
    var all, after := rest + inputs, rest + Kept(v, level, inputs, snapshot);
    if user :| Exposes(v, level, inputs, rest, snapshot, user) {
      var n := Newest(all, user, snapshot).value;
      assert IsNewest(all, user, snapshot, n);
      DroppedNewest(v, level, inputs, rest, snapshot, user, snapshot, n);
      assert Read(after, user, snapshot) != Read(all, user, snapshot);
    } else {
      forall user, s | s >= snapshot ensures Read(after, user, s) == Read(all, user, s) {
        var n := Newest(all, user, s);
        if n.None? || n.value in after {
          SurvivingNewest(v, level, inputs, rest, snapshot, user, s);
        } else {
          assert IsNewest(all, user, s, n.value);
          DroppedNewest(v, level, inputs, rest, snapshot, user, s, n.value);
          assert !Exposes(v, level, inputs, rest, snapshot, user);
        }
      }
    }
  }

  // ---------------------------------------------------------------- in terms of files

  /** A chosen level-(L+1) file ends with the user key that an unchosen one goes on with. */
  ghost predicate SplitKey(v: Version, level: nat, inputs1: Level, user: UserKey)
    requires level + 1 < NUM_LEVELS
  {
    exists g, h :: g in v[level + 1] && g !in inputs1 && h in inputs1 && h.largest.user == user
        && g.smallest.user == user
  }

  lemma EntriesBefore(v: Version, level: nat, inputs0: Level, inputs1: Level)
    requires GoodInputs(v, level, inputs0, inputs1)
    ensures VersionEntries(v) == Untouched(v, level, inputs0, inputs1) + InputEntries(inputs0, inputs1)
  {
    var all, rest, inputs := VersionEntries(v), Untouched(v, level, inputs0, inputs1), InputEntries(inputs0, inputs1);
    forall e | e in all ensures e in rest + inputs {
      var l :| 0 <= l < NUM_LEVELS && e in LevelEntries(v[l]);
      var f :| f in v[l] && e in f.entries;
    }
    forall e | e in rest ensures e in all {
      var l, f := UntouchedHome(v, level, inputs0, inputs1, e);
    }
    forall e | e in inputs ensures e in all {
      var l, f := InputHome(v, level, inputs0, inputs1, e);
    }
  }

  lemma EntriesAfter(v: Version, w: Version, level: nat, inputs0: Level, inputs1: Level, outputs: Level)
    requires GoodInputs(v, level, inputs0, inputs1)
    requires Replaces(v, w, level, FilesOf(inputs0), FilesOf(inputs1), FilesOf(outputs))
    ensures VersionEntries(w) == Untouched(v, level, inputs0, inputs1) + LevelEntries(outputs)
  {
    var all, rest := VersionEntries(w), Untouched(v, level, inputs0, inputs1);
    assert level + 1 < NUM_LEVELS;
    hide GoodInputs, Replaces, Untouched, VersionEntries;
    forall e | e in all ensures e in rest + LevelEntries(outputs) {
      EntryComesFrom(v, w, level, inputs0, inputs1, outputs, e);
    }
    forall e | e in rest ensures e in all {
      var l, f := UntouchedHome(v, level, inputs0, inputs1, e);
      FileStays(v, w, level, inputs0, inputs1, outputs, l, f, e);
    }
    forall e | e in LevelEntries(outputs) ensures e in all {
      OutputIsThere(v, w, level, inputs0, inputs1, outputs, e);
    }
  }

  lemma EntryComesFrom(v: Version, w: Version, level: nat, inputs0: Level, inputs1: Level, outputs: Level, e: Entry)
    requires GoodInputs(v, level, inputs0, inputs1) && e in VersionEntries(w)
    requires Replaces(v, w, level, FilesOf(inputs0), FilesOf(inputs1), FilesOf(outputs))
    ensures e in Untouched(v, level, inputs0, inputs1) + LevelEntries(outputs)
  {
    hide GoodInputs;
    var l :| 0 <= l < NUM_LEVELS && e in LevelEntries(w[l]);
    var f :| f in w[l] && e in f.entries;
    assert f in FilesOf(w[l]);
    assert f in FilesOf(v[l]) || f in outputs;
  }

  lemma FileStays(v: Version, w: Version, level: nat, inputs0: Level, inputs1: Level, outputs: Level,
                  l: nat, f: File, e: Entry)
    requires level + 1 < NUM_LEVELS
    requires Replaces(v, w, level, FilesOf(inputs0), FilesOf(inputs1), FilesOf(outputs))
    requires l < NUM_LEVELS && f in v[l] && e in f.entries && !IsInput(level, inputs0, inputs1, l, f)
    ensures e in VersionEntries(w)
  {
    assert f in FilesOf(v[l]) && f in FilesOf(w[l]);
    assert e in LevelEntries(w[l]);
  }

  lemma OutputIsThere(v: Version, w: Version, level: nat, inputs0: Level, inputs1: Level, outputs: Level, e: Entry)
    requires level + 1 < NUM_LEVELS && e in LevelEntries(outputs)
    requires Replaces(v, w, level, FilesOf(inputs0), FilesOf(inputs1), FilesOf(outputs))
    ensures e in VersionEntries(w)
  {
    var f :| f in outputs && e in f.entries;
    assert f in FilesOf(w[level + 1]);
    assert e in LevelEntries(w[level + 1]);
  }

  /** Two entries that agree lie in the same file. */
  lemma EntryHasOneFile(v: Version, k: nat, f: File, l: nat, g: File, e: Entry)
    requires WellFormed(v) && k < NUM_LEVELS && l < NUM_LEVELS
    requires f in v[k] && g in v[l] && e in f.entries && e in g.entries
    ensures k == l && f == g
  {
    assert e in LevelEntries(v[k]) && e in LevelEntries(v[l]);
    assert e in FileEntries(f) && e in FileEntries(g);
    assert k == l;
    if f != g {
      if k > 0 {
        DisjointIsApart(v[k]);
        EntriesWithinFile(f, e);
        EntriesWithinFile(g, e);
      }
    }
  }

  lemma InputsAreNotUntouched(v: Version, level: nat, inputs0: Level, inputs1: Level)
    requires WellFormed(v) && GoodInputs(v, level, inputs0, inputs1)
    ensures Untouched(v, level, inputs0, inputs1) !! InputEntries(inputs0, inputs1)
  {
    forall e | e in Untouched(v, level, inputs0, inputs1) && e in InputEntries(inputs0, inputs1) ensures false {
      var l, f := UntouchedHome(v, level, inputs0, inputs1, e);
      var k, g := InputHome(v, level, inputs0, inputs1, e);
      EntryHasOneFile(v, l, f, k, g, e);
    }
  }

  /** In a well-formed store the exposed put can only sit in an unchosen level-(L+1) file that
      continues the user key of a chosen one. */
  lemma ExposureNeedsSplitKey(v: Version, level: nat, inputs0: Level, inputs1: Level, above: set<Entry>,
                              snapshot: nat, user: UserKey)
    requires WellFormed(v) && GoodInputs(v, level, inputs0, inputs1)
    requires Newer(above, VersionEntries(v))
    requires Exposes(v, level, InputEntries(inputs0, inputs1), above + Untouched(v, level, inputs0, inputs1),
             snapshot, user)
    ensures SplitKey(v, level, inputs1, user)
  {
    hide *;
    var n, m := ExposedPair(v, level, inputs0, inputs1, above, snapshot, user);
    var k, h := InputHome(v, level, inputs0, inputs1, n);
    var l, g := UntouchedHome(v, level, inputs0, inputs1, m);
    ExposedFiles(v, level, inputs0, inputs1, n, k, h, l, g, m);
  }

  /** The marker and the put it hid. */
  lemma ExposedPair(v: Version, level: nat, inputs0: Level, inputs1: Level, above: set<Entry>, snapshot: nat,
                    user: UserKey)
    returns (n: Entry, m: Entry)
    requires WellFormed(v) && GoodInputs(v, level, inputs0, inputs1)
    requires Newer(above, VersionEntries(v))
    requires Exposes(v, level, InputEntries(inputs0, inputs1), above + Untouched(v, level, inputs0, inputs1),
             snapshot, user)
    ensures n in InputEntries(inputs0, inputs1) && m in Untouched(v, level, inputs0, inputs1)
    ensures n.user == m.user == user && m.seqno < n.seqno
    ensures level + 1 < NUM_LEVELS && IsBaseLevel(v, level, user)
  {
    var inputs, rest := InputEntries(inputs0, inputs1), above + Untouched(v, level, inputs0, inputs1);
    n, m := Newest(rest + inputs, user, snapshot).value, Newest(rest, user, snapshot).value;
    assert IsNewest(rest + inputs, user, snapshot, n) && IsNewest(rest, user, snapshot, m);
    assert n.op.Delete? && m.op.Put? && m.seqno <= n.seqno;
    hide WellFormed, GoodInputs, InputEntries, Untouched, IsBaseLevel, VersionEntries, Newest;
    VersionDistinct(v);
    var k, h := InputHome(v, level, inputs0, inputs1, n);
    if m in above {
      assert false;
    }
    var l, g := UntouchedHome(v, level, inputs0, inputs1, m);
  }

  lemma ExposedFiles(v: Version, level: nat, inputs0: Level, inputs1: Level,
                     n: Entry, k: nat, h: File, l: nat, g: File, m: Entry)
    requires WellFormed(v) && GoodInputs(v, level, inputs0, inputs1) && IsBaseLevel(v, level, n.user)
    requires k < NUM_LEVELS && h in v[k] && n in h.entries && IsInput(level, inputs0, inputs1, k, h)
    requires l < NUM_LEVELS && g in v[l] && m in g.entries && !IsInput(level, inputs0, inputs1, l, g)
    requires m.user == n.user && m.seqno < n.seqno
    ensures SplitKey(v, level, inputs1, n.user)
  {
    OlderUntouchedIsParent(v, level, inputs0, inputs1, n, k, h, l, g, m);
    assert h != g;
    OlderFileGoesOn(v, level + 1, h, g, n, m);
  }

  /** Where two files of a disjoint level share a user key, the older entry is in the later file. */
  lemma OlderFileGoesOn(v: Version, l: nat, h: File, g: File, n: Entry, m: Entry)
    requires WellFormed(v) && 1 <= l < NUM_LEVELS && h in v[l] && g in v[l] && h != g
    requires n in h.entries && m in g.entries && m.user == n.user && m.seqno < n.seqno
    ensures h.largest.user == n.user && g.smallest.user == n.user
  {
    EntriesWithinFile(h, n);
    EntriesWithinFile(g, m);
    var i :| 0 <= i < |v[l]| && v[l][i] == h;
    var j :| 0 <= j < |v[l]| && v[l][j] == g;
    assert DisjointSorted(v[l]);
    hide WellFormed;
    if i < j {
      assert Precedes(h.largest, g.smallest);
    } else {
      assert Precedes(g.largest, h.smallest);
    }
  }

  /** An untouched entry no newer than an input entry of a base-level key is in level L+1, and then
      so is the input entry. */
  lemma OlderUntouchedIsParent(v: Version, level: nat, inputs0: Level, inputs1: Level,
                               n: Entry, k: nat, h: File, l: nat, g: File, m: Entry)
    requires WellFormed(v) && GoodInputs(v, level, inputs0, inputs1) && IsBaseLevel(v, level, n.user)
    requires k < NUM_LEVELS && h in v[k] && n in h.entries && IsInput(level, inputs0, inputs1, k, h)
    requires l < NUM_LEVELS && g in v[l] && m in g.entries && !IsInput(level, inputs0, inputs1, l, g)
    requires m.user == n.user && m.seqno <= n.seqno
    ensures l == level + 1 && k == level + 1 && h in inputs1
  {
    assert n in LevelEntries(v[k]) && m in LevelEntries(v[l]);
    assert n in FileEntries(h) && m in FileEntries(g);
    EntriesWithinFile(g, m);
    assert l <= level + 1;
    assert k <= l;
    if k == level {
      assert n in LevelEntries(inputs0);
      InputWithinRange(v, level, inputs0, inputs1, n);
      if l == level + 1 {
        UnchosenParentSide(v, level, inputs0, inputs1, g);
      }
    }
  }

  /** The main result, for a version and the memtables above it.  A merge compaction preserves every
      read at or above the smallest snapshot if and only if it exposes nothing, and it exposes
      nothing unless a user key is split between chosen and unchosen level-(L+1) files. */
  lemma CompactionPreservesReads(v: Version, w: Version, level: nat, inputs0: Level, inputs1: Level, outputs: Level,
                                 above: set<Entry>, snapshot: nat)
    requires WellFormed(v) && GoodInputs(v, level, inputs0, inputs1)
    requires DistinctSequences(above) && Newer(above, VersionEntries(v))
    requires Replaces(v, w, level, FilesOf(inputs0), FilesOf(inputs1), FilesOf(outputs))
    requires LevelEntries(outputs) == Kept(v, level, InputEntries(inputs0, inputs1), snapshot)
    ensures AgreeFrom(snapshot, above + VersionEntries(w), above + VersionEntries(v))
       <==> !exists user :: Exposes(v, level, InputEntries(inputs0, inputs1),
                                    above + Untouched(v, level, inputs0, inputs1), snapshot, user)
    ensures forall user ::
      Exposes(v, level, InputEntries(inputs0, inputs1), above + Untouched(v, level, inputs0, inputs1), snapshot, user)
      ==> SplitKey(v, level, inputs1, user)
  {
    hide *;
    var inputs, rest := InputEntries(inputs0, inputs1), above + Untouched(v, level, inputs0, inputs1);
    EntriesBefore(v, level, inputs0, inputs1);
    EntriesAfter(v, w, level, inputs0, inputs1, outputs);
    assert above + VersionEntries(v) == rest + inputs;
    assert above + VersionEntries(w) == rest + Kept(v, level, inputs, snapshot);
    InputsAreApart(v, level, inputs0, inputs1, above);
    CompactionReadsExactly(v, level, inputs, rest, snapshot);
    forall user | Exposes(v, level, inputs, rest, snapshot, user) ensures SplitKey(v, level, inputs1, user) {
      ExposureNeedsSplitKey(v, level, inputs0, inputs1, above, snapshot, user);
    }
  }

  lemma InputsAreApart(v: Version, level: nat, inputs0: Level, inputs1: Level, above: set<Entry>)
    requires WellFormed(v) && GoodInputs(v, level, inputs0, inputs1)
    requires DistinctSequences(above) && Newer(above, VersionEntries(v))
    ensures var inputs, rest := InputEntries(inputs0, inputs1), above + Untouched(v, level, inputs0, inputs1);
      rest !! inputs && DistinctSequences(rest + inputs)
    ensures level + 1 < NUM_LEVELS
  {
    EntriesBefore(v, level, inputs0, inputs1);
    InputsAreNotUntouched(v, level, inputs0, inputs1);
    AboveIsNotInput(v, level, inputs0, inputs1, above);
    VersionDistinct(v);
    hide WellFormed, GoodInputs, VersionEntries, InputEntries, Untouched;
  }

  /** What can be checked before the merge: if no chosen level-(L+1) file ends with the user key that an
      unchosen one goes on with, every read at or above the smallest snapshot is preserved. */
  lemma UnsplitCompactionPreservesReads(v: Version, w: Version, level: nat, inputs0: Level, inputs1: Level,
                                        outputs: Level,
                                        above: set<Entry>, snapshot: nat)
    requires WellFormed(v) && GoodInputs(v, level, inputs0, inputs1)
    requires DistinctSequences(above) && Newer(above, VersionEntries(v))
    requires Replaces(v, w, level, FilesOf(inputs0), FilesOf(inputs1), FilesOf(outputs))
    requires LevelEntries(outputs) == Kept(v, level, InputEntries(inputs0, inputs1), snapshot)
    requires forall user :: !SplitKey(v, level, inputs1, user)
    ensures AgreeFrom(snapshot, above + VersionEntries(w), above + VersionEntries(v))
  {
    hide *;
    InputsAreApart(v, level, inputs0, inputs1, above);
    CompactionPreservesReads(v, w, level, inputs0, inputs1, outputs, above, snapshot);
  }

  lemma AboveIsNotInput(v: Version, level: nat, inputs0: Level, inputs1: Level, above: set<Entry>)
    requires GoodInputs(v, level, inputs0, inputs1) && Newer(above, VersionEntries(v))
    ensures above !! InputEntries(inputs0, inputs1)
  {
    forall e | e in above && e in InputEntries(inputs0, inputs1) ensures false {
      var l, f := InputHome(v, level, inputs0, inputs1, e);
    }
  }

  // ---------------------------------------------------------------- the failing input

  // Level 1 holds user key 1; level 2 holds a file with user keys 1 and 2, ending in a deletion
  // marker for 2, and a file that continues user key 2 with the older put the marker hides.
  const UPPER := File(30, 1, IKey(1.0, 9, 1), IKey(1.0, 9, 1), [Entry(1.0, 9, Put([7]))])
  const LEFT := File(10, 1, IKey(1.0, 4, 1), IKey(2.0, 7, 0), [Entry(1.0, 4, Put([6])), Entry(2.0, 7, Delete)])
  const RIGHT := File(11, 1, IKey(2.0, 3, 1), IKey(2.0, 3, 1), [Entry(2.0, 3, Put([5]))])
  const SPLIT_VERSION: Version := [[], [UPPER], [LEFT, RIGHT], [], [], [], []]

  lemma SplitFilesAreValid()
    ensures UPPER.Valid() && LEFT.Valid() && RIGHT.Valid()
    ensures FileEntries(UPPER) == {Entry(1.0, 9, Put([7]))}
    ensures FileEntries(LEFT) == {Entry(1.0, 4, Put([6])), Entry(2.0, 7, Delete)}
    ensures FileEntries(RIGHT) == {Entry(2.0, 3, Put([5]))}
  {
  }

  lemma SplitLevels()
    ensures forall l :: 0 <= l < NUM_LEVELS && l != 1 && l != 2 ==> SPLIT_VERSION[l] == []
    ensures SPLIT_VERSION[1] == [UPPER] && SPLIT_VERSION[2] == [LEFT, RIGHT]
    ensures LevelEntries([UPPER]) == FileEntries(UPPER) && LevelEntries([LEFT]) == FileEntries(LEFT)
    ensures LevelEntries([LEFT, RIGHT]) == FileEntries(LEFT) + FileEntries(RIGHT)
  {
    var v := SPLIT_VERSION;
    assert v[0] == [] && v[3] == [] && v[4] == [] && v[5] == [] && v[6] == [];
  }

  lemma SplitVersionIsWellFormed()
    ensures WellFormed(SPLIT_VERSION)
  {
    SplitFilesAreValid();
    SplitLevels();
    SplitPairsAreOrdered();
    SplitIsShallowerNewer();
    hide ShallowerIsNewer, SPLIT_VERSION;
  }

  lemma SplitPairsAreOrdered()
    ensures ValidFiles([UPPER]) && SortedBySmallest([UPPER]) && DistinctNumbers([UPPER]) && DisjointSorted([UPPER])
    ensures ValidFiles([LEFT, RIGHT]) && SortedBySmallest([LEFT, RIGHT]) && DistinctNumbers([LEFT, RIGHT])
    ensures DisjointSorted([LEFT, RIGHT])
  {
    SplitFilesAreValid();
  }

  lemma SplitIsShallowerNewer()
    ensures ShallowerIsNewer(SPLIT_VERSION)
  {
    SplitFilesAreValid();
    SplitLevels();
    forall a, b | 0 <= a < b < NUM_LEVELS ensures Newer(LevelEntries(SPLIT_VERSION[a]),
        LevelEntries(SPLIT_VERSION[b])) {
      if a == 1 && b == 2 {
        assert Newer(FileEntries(UPPER), FileEntries(LEFT) + FileEntries(RIGHT));
      } else {
        assert LevelEntries([]) == {};
      }
    }
  }

  lemma SplitInputsAreGood()
    ensures GoodInputs(SPLIT_VERSION, 1, [UPPER], [LEFT])
  {
    SplitFilesAreValid();
    SplitLevels();
    assert SmallestKey([UPPER]) == UPPER.smallest && LargestKey([UPPER]) == UPPER.largest;
    assert Overlaps(LEFT, Some(1.0), Some(1.0)) && !Overlaps(RIGHT, Some(1.0), Some(1.0));
  }

  lemma SplitUntouched()
    ensures Untouched(SPLIT_VERSION, 1, [UPPER], [LEFT]) == FileEntries(RIGHT)
  {
    SplitLevels();
    var v := SPLIT_VERSION;
    forall e | e in FileEntries(RIGHT) ensures e in Untouched(v, 1, [UPPER], [LEFT]) {
      assert v[2][1] == RIGHT && RIGHT in v[2] && !IsInput(1, [UPPER], [LEFT], 2, RIGHT);
    }
    forall e | e in Untouched(v, 1, [UPPER], [LEFT]) ensures e in FileEntries(RIGHT) {
      var l, f := UntouchedHome(v, 1, [UPPER], [LEFT], e);
    }
  }

  lemma ReadBehindMarker(v: Version, level: nat, inputs: set<Entry>, rest: set<Entry>, snapshot: nat, marker: Entry,
                         older: Entry)
    requires DistinctSequences(rest + inputs) && marker !in rest
    requires IsNewest(rest + inputs, marker.user, snapshot, marker) && ObsoleteMarker(v, level, marker, snapshot)
    requires IsNewest(rest, marker.user, snapshot, older)
    ensures Read(rest + inputs, marker.user, snapshot) == None
    ensures Read(rest + Kept(v, level, inputs, snapshot), marker.user, snapshot) == OpResult(Some(older))
  {
    NewestIs(rest + inputs, marker.user, snapshot, marker);
    assert Dropped(v, level, inputs, marker, snapshot);
    DroppedNewest(v, level, inputs, rest, snapshot, marker.user, snapshot, marker);
    NewestIs(rest, marker.user, snapshot, older);
  }

  lemma SplitEntries()
    ensures InputEntries([UPPER], [LEFT]) == {Entry(1.0, 9, Put([7])), Entry(1.0, 4, Put([6])), Entry(2.0, 7, Delete)}
    ensures Untouched(SPLIT_VERSION, 1, [UPPER], [LEFT]) == {Entry(2.0, 3, Put([5]))}
    ensures IsBaseLevel(SPLIT_VERSION, 1, 2.0)
  {
    SplitUntouched();
    SplitFilesAreValid();
    SplitLevels();
  }

  lemma SplitReads(inputs: set<Entry>, rest: set<Entry>, marker: Entry, older: Entry)
    requires marker == Entry(2.0, 7, Delete) && older == Entry(2.0, 3, Put([5]))
    requires inputs == {Entry(1.0, 9, Put([7])), Entry(1.0, 4, Put([6])), marker} && rest == {older}
    ensures DistinctSequences(rest + inputs) && marker !in rest
    ensures IsNewest(rest + inputs, 2.0, 10, marker) && IsNewest(rest, 2.0, 10, older)
  {
  }

  lemma SplitVersionEntries()
    ensures VersionEntries(SPLIT_VERSION) == Untouched(SPLIT_VERSION, 1, [UPPER], [LEFT])
            + InputEntries([UPPER], [LEFT])
  {
    SplitInputsAreGood();
    EntriesBefore(SPLIT_VERSION, 1, [UPPER], [LEFT]);
  }

  /** What merging UPPER and LEFT at snapshot 10 leaves. */
  const MERGED := File(40, 1, IKey(1.0, 9, 1), IKey(1.0, 9, 1), [Entry(1.0, 9, Put([7]))])
  const MERGED_VERSION: Version := [[], [], [MERGED, RIGHT], [], [], [], []]

  lemma MergedReplaces()
    ensures Replaces(SPLIT_VERSION, MERGED_VERSION, 1, FilesOf([UPPER]), FilesOf([LEFT]), FilesOf([MERGED]))
  {
    SplitLevels();
    var w := MERGED_VERSION;
    assert w[0] == [] && w[1] == [] && w[2] == [MERGED, RIGHT] && w[3] == [] && w[4] == [] && w[5] == [] && w[6] == [];
  }

  lemma MergedIsKept()
    ensures LevelEntries([MERGED]) == Kept(SPLIT_VERSION, 1, InputEntries([UPPER], [LEFT]), 10)
  {
    SplitEntries();
    var inputs := InputEntries([UPPER], [LEFT]);
    var a, b, c := Entry(1.0, 9, Put([7])), Entry(1.0, 4, Put([6])), Entry(2.0, 7, Delete);
    hide IsBaseLevel, InputEntries;
    assert Hidden(inputs, b, 10);
    assert ObsoleteMarker(SPLIT_VERSION, 1, c, 10);
    assert a in MERGED.entries;
    assert !Hidden(inputs, a, 10);
  }

  /** The inputs that level-1 selection chooses here make the deleted key 2 readable again in the
      version that the compaction installs. */
  lemma CompactionCanResurrectADeletedKey()
    ensures WellFormed(SPLIT_VERSION) && GoodInputs(SPLIT_VERSION, 1, [UPPER], [LEFT])
    ensures Replaces(SPLIT_VERSION, MERGED_VERSION, 1, FilesOf([UPPER]), FilesOf([LEFT]), FilesOf([MERGED]))
    ensures LevelEntries([MERGED]) == Kept(SPLIT_VERSION, 1, InputEntries([UPPER], [LEFT]), 10)
    ensures Read(VersionEntries(SPLIT_VERSION), 2.0, 10) == None
    ensures Read(VersionEntries(MERGED_VERSION), 2.0, 10) == Some([5])
  {
    hide *;
    SplitVersionIsWellFormed();
    SplitInputsAreGood();
    MergedReplaces();
    MergedIsKept();
    EntriesAfter(SPLIT_VERSION, MERGED_VERSION, 1, [UPPER], [LEFT], [MERGED]);
    SplitReadsDiffer();
  }

  lemma SplitReadsDiffer()
    ensures Read(VersionEntries(SPLIT_VERSION), 2.0, 10) == None
    ensures Read(Untouched(SPLIT_VERSION, 1, [UPPER], [LEFT]) +
                 Kept(SPLIT_VERSION, 1, InputEntries([UPPER], [LEFT]), 10), 2.0, 10) == Some([5])
  {
    var v := SPLIT_VERSION;
    var inputs, rest := InputEntries([UPPER], [LEFT]), Untouched(v, 1, [UPPER], [LEFT]);
    var marker, older := Entry(2.0, 7, Delete), Entry(2.0, 3, Put([5]));
    assert Read(VersionEntries(v), 2.0, 10) == None &&
           Read(rest + Kept(v, 1, inputs, 10), 2.0, 10) == OpResult(Some(older)) by {
      SplitVersionEntries();
      SplitEntries();
      SplitReads(inputs, rest, marker, older);
      ReadBehindMarker(v, 1, inputs, rest, 10, marker, older);
    }
  }
}
