/** VersionSet: picking compactions, and installing edits (version_set.cc). */
module VersionSets {
  import opened Wrappers
  import opened Entries
  import opened Versions
  import opened Inputs
  import opened Builders

  // ---------------------------------------------------------------- what a compaction may take

  /** A level-L file left behind holds only entries newer than those taken from level L. */
  ghost predicate LeavesOnlyNewer(files: Level, chosen: Level) {
    forall f, g :: f in chosen && g in files && g !in chosen ==> Newer(FileEntries(g), FileEntries(f))
  }

  /** `parents` are exactly the files that meet the user-key range of `chosen`. */
  ghost predicate AllOverlapping(files: Level, chosen: Level, parents: Level)
    requires chosen != []
  {
    forall g :: g in parents <==>
      g in files && Overlaps(g, Some(SmallestKey(chosen).user), Some(LargestKey(chosen).user))
  }

  predicate IsInput(level: nat, inputs0: Level, inputs1: Level, l: nat, f: File) {
    (l == level && f in inputs0) || (l == level + 1 && f in inputs1)
  }

  ghost predicate GoodInputs(v: Version, level: nat, inputs0: Level, inputs1: Level) {
    && level + 1 < NUM_LEVELS
    && inputs0 != []
    && FilesOf(inputs0) <= FilesOf(v[level])
    && LeavesOnlyNewer(v[level], inputs0)
    && AllOverlapping(v[level + 1], inputs0, inputs1)
  }

  /** The wider choice that is tried: the level's files over the whole range of the inputs, closed under
      boundary files. */
  ghost predicate IsExpansion(files: Level, level: nat, inputs0: Level, inputs1: Level, r: Level)
    requires inputs0 != []
  {
    var all := inputs0 + inputs1;
    exists candidate ::
      IsSearch(level, files, Some(SmallestKey(all).user), Some(LargestKey(all).user), candidate)
      && IsClosure(files, candidate, r)
  }

  /** These files are taken instead of the inputs if they bring in no more parents. */
  ghost predicate IsTaken(parents: Level, inputs0: Level, inputs1: Level, e0: Level, r0: Level, r1: Level)
    requires e0 != []
  {
    exists e1 ::
      && AllOverlapping(parents, e0, e1)
      && if |e1| == |inputs1| then r0 == e0 && r1 == e1 else r0 == inputs0 && r1 == inputs1
  }

  /** The wider choice is taken if it is one, stays below the limit together with the parents, and brings
      in no more of them; otherwise the inputs stay. */
  ghost predicate IsGrowth(files: Level, parents: Level, level: nat, inputs0: Level, inputs1: Level, limit: nat,
                           r0: Level, r1: Level)
    requires inputs0 != []
  {
    exists e0 ::
      && e0 != [] && IsExpansion(files, level, inputs0, inputs1, e0)
      && if |e0| > |inputs0| && TotalFileSize(inputs1) + TotalFileSize(e0) < limit
          then IsTaken(parents, inputs0, inputs1, e0, r0, r1) else r0 == inputs0 && r1 == inputs1
  }

  /** What becomes of the chosen files of a level: their boundary files join them, their parents are found,
      and if there are any, growing is tried. */
  ghost predicate ChosenFrom(files: Level, parents: Level, level: nat, chosen: Level, limit: nat, r0: Level, r1: Level)
  {
    exists base0, base1 ::
      && base0 != [] && IsClosure(files, chosen, base0) && AllOverlapping(parents, base0, base1)
      && if base1 == [] then r0 == base0 && r1 == base1
          else IsGrowth(files, parents, level, base0, base1, limit, r0, r1)
  }

  /** The file meets the user keys between the first and the last of the inputs. */
  predicate MeetsRangeOf(f: File, inputs: Level) {
    && (exists a :: a in inputs && a.smallest.user <= f.largest.user)
    && (exists b :: b in inputs && f.smallest.user <= b.largest.user)
  }

  /** The files two levels below a compaction that its inputs' range meets, in the order of their level. */
  ghost predicate AreGrandparents(v: Version, level: nat, inputs: Level, grandparents: Level) {
    if level + 2 < NUM_LEVELS then
      && IsRun(v[level + 2], grandparents)
      && forall f :: f in grandparents <==> f in v[level + 2] && MeetsRangeOf(f, inputs)
    else grandparents == []
  }

  lemma RangeMeets(f: File, inputs: Level)
    requires inputs != []
    ensures Overlaps(f, Some(SmallestKey(inputs).user), Some(LargestKey(inputs).user)) <==> MeetsRangeOf(f, inputs)
  {
    SmallestKeyIs(inputs);
    LargestKeyIs(inputs);
    hide SmallestKey, LargestKey;
  }

  lemma OverlapIsConvex(files: Level, lo: Option<UserKey>, hi: Option<UserKey>, a: nat, b: nat, c: nat)
    requires OrderedFiles(files) && DisjointSorted(files) && a <= b <= c < |files|
    requires Overlaps(files[a], lo, hi) && Overlaps(files[c], lo, hi)
    ensures Overlaps(files[b], lo, hi)
  {
    assert files[a] in files && files[b] in files && files[c] in files;
  }

  lemma OverlapFilterOfNone(lo: Option<UserKey>, hi: Option<UserKey>)
    ensures OverlapFilter([], lo, hi) == []
  {
  }

  lemma OverlapFilterSplits(files: Level, lo: Option<UserKey>, hi: Option<UserKey>)
    requires files != []
    ensures var n := |files| - 1;
      OverlapFilter(files, lo, hi) == OverlapFilter(files[..n], lo, hi)
          + if Overlaps(files[n], lo, hi) then [files[n]] else []
  {
    hide Overlaps;
  }

  lemma {:induction false} OverlapFilterIsSlice(files: Level, lo: Option<UserKey>, hi: Option<UserKey>, i: nat, j: nat)
    requires i <= j <= |files|
    requires forall k :: 0 <= k < |files| ==> (Overlaps(files[k], lo, hi) <==> i <= k < j)
    ensures OverlapFilter(files, lo, hi) == files[i..j]
  {
    hide Overlaps, OverlapFilter;
    if files == [] {
      OverlapFilterOfNone(lo, hi);
    } else {
      var n := |files| - 1;
      var front := files[..n];
      OverlapFilterSplits(files, lo, hi);
      assert forall k :: 0 <= k < n ==> front[k] == files[k];
      if j <= n {
        OverlapFilterIsSlice(front, lo, hi, i, j);
        SliceOfFront(files, n, i, j);
      } else {
        var start := if i <= n then i else n;
        OverlapFilterIsSlice(front, lo, hi, start, n);
        SliceOfFront(files, n, start, n);
        SliceToEnd(files, n, i);
      }
    }
  }

  lemma SliceOfFront(files: Level, n: nat, i: nat, j: nat)
    requires i <= j <= n <= |files|
    ensures files[..n][i..j] == files[i..j]
  {
  }

  lemma SliceToEnd(files: Level, n: nat, i: nat)
    requires |files| == n + 1 && i <= n + 1
    ensures files[i..n + 1] == if i <= n then files[i..n] + [files[n]] else []
    ensures files[n..n] == []
  {
  }

  /** In a disjoint level the files that meet a range of user keys are consecutive. */
  lemma OverlapFilterIsRun(files: Level, lo: Option<UserKey>, hi: Option<UserKey>)
    requires OrderedFiles(files) && DisjointSorted(files)
    ensures IsRun(files, OverlapFilter(files, lo, hi))
  {
    var i := 0;
    while i < |files| && !Overlaps(files[i], lo, hi)
      invariant i <= |files| && forall k :: 0 <= k < i ==> !Overlaps(files[k], lo, hi)
    {
      i := i + 1;
    }
    var j := i;
    while j < |files| && Overlaps(files[j], lo, hi)
      invariant i <= j <= |files| && forall k :: i <= k < j ==> Overlaps(files[k], lo, hi)
    {
      j := j + 1;
    }
    forall k | j <= k < |files| ensures !Overlaps(files[k], lo, hi) {
      if Overlaps(files[k], lo, hi) && i < j {
        OverlapIsConvex(files, lo, hi, i, j, k);
      }
    }
    OverlapFilterIsSlice(files, lo, hi, i, j);
  }

  lemma FilesAfterRunAreLater(files: Level, i: nat, j: nat, m: nat)
    requires ValidFiles(files) && DisjointSorted(files) && i < j <= m < |files|
    requires !HasBoundary(files, LargestKey(files[i..j]))
    ensures forall k :: i <= k < j ==> Newer(FileEntries(files[m]), FileEntries(files[k]))
  {
    var chosen, key := files[i..j], LargestKey(files[i..j]);
    LargestKeyIs(chosen);
    var w :| w in chosen && w.largest == key;
    var l :| i <= l < j && files[l] == w;
    assert Precedes(key, files[m].smallest);
    assert files[m] in files && !IsBoundary(files[m], key);
    forall k, x, y | i <= k < j && x in FileEntries(files[m]) && y in FileEntries(files[k])
      ensures x.user != y.user
    {
      assert files[k] == chosen[k - i];
      EntriesWithinFile(files[m], x);
      EntriesWithinFile(files[k], y);
    }
  }

  /** A run with no boundary file after it leaves only newer entries behind. */
  lemma ClosedRunLeavesOnlyNewer(files: Level, chosen: Level, i: nat, j: nat)
    requires ValidFiles(files) && DisjointSorted(files)
    requires i < j <= |files| && chosen == files[i..j] && !HasBoundary(files, LargestKey(chosen))
    ensures FilesOf(chosen) <= FilesOf(files) && LeavesOnlyNewer(files, chosen)
  {
    forall m | i <= m < j ensures files[m] in chosen {
      assert chosen[m - i] == files[m];
    }
    forall k, m | i <= k < j && 0 <= m < |files| && files[m] !in chosen
      ensures Newer(FileEntries(files[m]), FileEntries(files[k]))
    {
      if m < i {
        EarlierFileIsNewer(files, m, k);
      } else {
        FilesAfterRunAreLater(files, i, j, m);
      }
    }
  }

  /** At level 0, a closed range of files shares no user key with the rest. */
  lemma ClosedRangeLeavesOnlyNewer(files: Level, chosen: Level, lo: Option<UserKey>, hi: Option<UserKey>)
    requires ValidFiles(files) && ClosedRange(files, lo, hi) && chosen == OverlapFilter(files, lo, hi)
    ensures FilesOf(chosen) <= FilesOf(files) && LeavesOnlyNewer(files, chosen)
  {
    OverlapFilterMembers(files, lo, hi);
    forall f, g, x, y | f in chosen && g in files && g !in chosen && x in FileEntries(g) && y in FileEntries(f)
      ensures x.user != y.user
    {
      assert Overlaps(f, lo, hi) && !Overlaps(g, lo, hi);
      EntriesWithinFile(g, x);
      EntriesWithinFile(f, y);
    }
  }

  lemma ClosedRangeHasNoBoundary(files: Level, chosen: Level, lo: Option<UserKey>, hi: Option<UserKey>, key: IKey)
    requires OrderedFiles(files) && ClosedRange(files, lo, hi)
    requires forall f :: f in chosen <==> f in files && Overlaps(f, lo, hi)
    requires exists w :: w in chosen && w.largest == key
    requires forall f :: f in chosen ==> !Before(key, f.largest)
    ensures !HasBoundary(files, key)
  {
    var w :| w in chosen && w.largest == key;
    forall g | g in files ensures !IsBoundary(g, key) {
      if g in chosen {
        assert !Before(key, g.largest);
      } else {
        assert WithinRange(w, lo, hi) && !Overlaps(g, lo, hi);
      }
    }
  }

  /** What a set of level-L files must be for SetupOtherInputs to start from it: a closed range at
      level 0, consecutive files elsewhere. */
  ghost predicate Startable(files: Level, level: nat, chosen: Level) {
    && chosen != []
    && (level == 0 ==> exists lo, hi :: ClosedRange(files, lo, hi) && chosen == OverlapFilter(files, lo, hi))
    && (level > 0 ==> IsRun(files, chosen))
  }

  lemma ValidFilesAreOrdered(files: Level)
    requires ValidFiles(files)
    ensures OrderedFiles(files)
  {
    forall f | f in files ensures !Before(f.largest, f.smallest) {
      FileIsOrdered(f);
    }
  }

  /** `r` is what AddBoundaryInputs makes of `chosen`. */
  lemma BoundaryClosureLeavesOnlyNewer(files: Level, level: nat, chosen: Level, r: Level)
    requires ValidFiles(files) && (level > 0 ==> DisjointSorted(files))
    requires Startable(files, level, chosen) && r != [] && !HasBoundary(files, LargestKey(r))
    requires !HasBoundary(files, LargestKey(chosen)) ==> r == chosen
    requires level > 0 ==> IsRun(files, r)
    ensures FilesOf(r) <= FilesOf(files) && LeavesOnlyNewer(files, r)
  {
    if level == 0 {
      var lo, hi :| ClosedRange(files, lo, hi) && chosen == OverlapFilter(files, lo, hi);
      ValidFilesAreOrdered(files);
      OverlapFilterMembers(files, lo, hi);
      LargestKeyIs(chosen);
      ClosedRangeHasNoBoundary(files, chosen, lo, hi, LargestKey(chosen));
      ClosedRangeLeavesOnlyNewer(files, chosen, lo, hi);
    } else {
      var i, j :| 0 <= i <= j <= |files| && r == files[i..j];
      ClosedRunLeavesOnlyNewer(files, r, i, j);
    }
  }

  function TotalFileSize(files: Level): nat {
    if files == [] then 0 else files[0].size + TotalFileSize(files[1..])
  }

  // ---------------------------------------------------------------- the classes

  lemma DeepLevelIsSorted(v: Version, l: nat)
    requires WellFormed(v) && 1 <= l < NUM_LEVELS
    ensures OrderedFiles(v[l]) && DisjointSorted(v[l])
  {
    ValidFilesAreOrdered(v[l]);
    hide OrderedFiles, DisjointSorted;
  }

  lemma FirstFileDecides(files: Level, n: nat, user: UserKey)
    requires OrderedFiles(files) && DisjointSorted(files) && n < |files|
    requires forall i :: 0 <= i < n ==> files[i].largest.user < user
    requires user <= files[n].largest.user
    ensures (exists f :: f in files && InUserRange(f, user)) <==> user >= files[n].smallest.user
  {
    if user >= files[n].smallest.user {
      assert InUserRange(files[n], user);
    } else {
      forall i | n < i < |files| ensures files[i].smallest.user > user {
        assert files[n] in files;
        assert Precedes(files[n].largest, files[i].smallest);
      }
    }
  }

  lemma DeletedAtAdd(edit: VersionEdit, p: (LevelNumber, nat))
    ensures forall l: LevelNumber ::
      DeletedAt(edit.(deletedFiles := edit.deletedFiles + {p}), l) == DeletedAt(edit, l) +
          if p.0 == l then {p.1} else {}
  {
    var r := edit.(deletedFiles := edit.deletedFiles + {p});
    forall l: LevelNumber, n ensures n in DeletedAt(r, l) <==> n in DeletedAt(edit, l) || (p.0 == l && n == p.1) {
      assert n in DeletedAt(r, l) <==> (l, n) in r.deletedFiles;
      assert n in DeletedAt(edit, l) <==> (l, n) in edit.deletedFiles;
    }
  }

  method DeleteFiles(edit: VersionEdit, level: LevelNumber, files: Level) returns (r: VersionEdit)
    ensures r.newFiles == edit.newFiles && r.compactPointers == edit.compactPointers
    ensures forall l: LevelNumber ::
      DeletedAt(r, l) == DeletedAt(edit, l) + if l == level then NumbersOf(FilesOf(files)) else {}
  {
    r := edit;
    for i := 0 to |files|
      invariant r.newFiles == edit.newFiles && r.compactPointers == edit.compactPointers
      invariant forall l: LevelNumber ::
        DeletedAt(r, l) == DeletedAt(edit, l) + if l == level then NumbersOf(FilesOf(files[..i])) else {}
    {
      assert FilesOf(files[..i + 1]) == FilesOf(files[..i]) + {files[i]};
      assert NumbersOf(FilesOf(files[..i + 1])) == NumbersOf(FilesOf(files[..i])) + {files[i].number};
      var p: (LevelNumber, nat) := (level, files[i].number);
      DeletedAtAdd(r, p);
      r := r.(deletedFiles := r.deletedFiles + {p});
    }
    assert files[..|files|] == files;
  }

  /** Cursors into the levels that have passed only files that end before `user`. */
  ghost predicate AllBehind(ptrs: seq<nat>, v: Version, level: nat, user: UserKey) {
    |ptrs| == NUM_LEVELS && forall l :: level + 2 <= l < NUM_LEVELS ==> Behind(ptrs[l], v[l], user)
  }

  ghost predicate Behind(n: nat, files: Level, user: UserKey) {
    n <= |files| && forall i :: 0 <= i < n ==> files[i].largest.user < user
  }

  lemma BehindAt(ptrs: seq<nat>, v: Version, level: nat, user: UserKey, l: nat)
    requires AllBehind(ptrs, v, level, user) && level + 2 <= l < NUM_LEVELS
    ensures |ptrs| == NUM_LEVELS && Behind(ptrs[l], v[l], user)
  {
  }

  lemma BehindNext(ptrs: seq<nat>, v: Version, level: nat, user: UserKey, l: nat)
    requires AllBehind(ptrs, v, level, user) && level + 2 <= l < NUM_LEVELS
    requires |ptrs| == NUM_LEVELS && ptrs[l] < |v[l]| && v[l][ptrs[l]].largest.user < user
    ensures AllBehind(ptrs[l := ptrs[l] + 1], v, level, user)
  {
    assert Behind(ptrs[l], v[l], user);
    assert Behind(ptrs[l] + 1, v[l], user);
    hide Behind;
  }

  lemma NoneInRange(files: Level, user: UserKey)
    requires Behind(|files|, files, user)
    ensures forall f :: f in files ==> !InUserRange(f, user)
  {
  }

  class Compaction {
    const level: nat
    const inputVersion: Version
    const maxOutputFileSize: nat
    const maxGrandParentOverlapBytes: nat
    var inputs0: Level
    var inputs1: Level
    var grandparents: Level
    var edit: VersionEdit
    // State used to check for overlapping grandparent files
    var grandparentIndex: nat
    var seenKey: bool
    var overlappedBytes: nat
    // State for IsBaseLevelForKey: positions in the levels beyond the compaction's
    const levelPtrs: array<nat>

    constructor (level: nat, inputVersion: Version, maxFileSize: nat)
      ensures this.level == level && this.inputVersion == inputVersion
      ensures maxOutputFileSize == maxFileSize && maxGrandParentOverlapBytes == 10 * maxFileSize
      ensures inputs0 == [] && inputs1 == [] && grandparents == [] && edit == EMPTY_EDIT
      ensures fresh(levelPtrs) && Unstarted()
    {
      this.level, this.inputVersion := level, inputVersion;
      maxOutputFileSize, maxGrandParentOverlapBytes := maxFileSize, 10 * maxFileSize;
      inputs0, inputs1, grandparents, edit := [], [], [], EMPTY_EDIT;
      grandparentIndex, seenKey, overlappedBytes := 0, false, 0;
      levelPtrs := new nat[NUM_LEVELS](_ => 0);
    }

    /** The compaction loop has not begun: no cursor has moved. */
    ghost predicate Unstarted()
      reads this, levelPtrs
    {
      && levelPtrs.Length == NUM_LEVELS && (forall l :: 0 <= l < NUM_LEVELS ==> levelPtrs[l] == 0)
      && grandparentIndex == 0 && !seenKey && overlappedBytes == 0
    }

    /** Made for a level of a version, with these limits. */
    ghost predicate IsFor(v: Version, l: nat, maxFileSize: nat)
      reads this
    {
      && inputVersion == v && level == l
      && maxOutputFileSize == maxFileSize && maxGrandParentOverlapBytes == 10 * maxFileSize
      && edit.deletedFiles == {} && edit.newFiles == []
    }

    /** Its inputs are what becomes of the chosen files, and the grandparents are theirs. */
    ghost predicate HasInputsFrom(chosen: Level)
      requires level + 1 < NUM_LEVELS
      reads this
    {
      && GoodInputs(inputVersion, level, inputs0, inputs1)
      && ChosenFrom(inputVersion[level], inputVersion[level + 1], level, chosen, 25 * maxOutputFileSize, inputs0,
                    inputs1)
      && AreGrandparents(inputVersion, level, inputs0 + inputs1, grandparents)
    }

    /** Compaction::AddInputDeletions. */
    method AddInputDeletions()
      requires level + 1 < NUM_LEVELS && edit.deletedFiles == {}
      modifies this`edit
      ensures edit.newFiles == old(edit.newFiles) && edit.compactPointers == old(edit.compactPointers)
      ensures DeletedAt(edit, level) == NumbersOf(FilesOf(inputs0))
      ensures DeletedAt(edit, level + 1) == NumbersOf(FilesOf(inputs1))
      ensures forall l: LevelNumber :: l != level && l != level + 1 ==> DeletedAt(edit, l) == {}
    {
      edit := DeleteFiles(edit, level, inputs0);
      edit := DeleteFiles(edit, level + 1, inputs1);
    }

    predicate IsTrivialMove()
      reads this
    {
      |inputs0| == 1 && |inputs1| == 0 && TotalFileSize(grandparents) <= maxGrandParentOverlapBytes
    }

    /** The cursors have passed only files that end before `user`. */
    ghost predicate PtrsBehind(user: UserKey)
      reads levelPtrs
    {
      levelPtrs.Length == NUM_LEVELS && AllBehind(levelPtrs[..], inputVersion, level, user)
    }

    /** Compaction::IsBaseLevelForKey.  Because keys arrive in ascending order, moving the cursors
        forward only is enough for an exact answer. */
    method IsBaseLevelForKey(user: UserKey) returns (r: bool)
      requires WellFormed(inputVersion) && PtrsBehind(user) && level + 1 < NUM_LEVELS
      modifies levelPtrs
      ensures r <==> IsBaseLevel(inputVersion, level, user)
      ensures PtrsBehind(user)
    {
      for l := level + 2 to NUM_LEVELS
        invariant PtrsBehind(user)
        invariant forall k, f :: level + 2 <= k < l && f in inputVersion[k] ==> !InUserRange(f, user)
      {
        var found := LevelMayHold(l, user);
        if found {
          return false;
        }
      }
      return true;
    }

    method LevelMayHold(l: nat, user: UserKey) returns (r: bool)
      requires WellFormed(inputVersion) && PtrsBehind(user) && level + 2 <= l < NUM_LEVELS
      modifies levelPtrs
      ensures r <==> exists f :: f in inputVersion[l] && InUserRange(f, user)
      ensures PtrsBehind(user)
    {
      DeepLevelIsSorted(inputVersion, l);
      hide WellFormed, OrderedFiles, DisjointSorted, InUserRange, AllBehind;
      var files := inputVersion[l];
      BehindAt(levelPtrs[..], inputVersion, level, user, l);
      while levelPtrs[l] < |files| && user > files[levelPtrs[l]].largest.user
        invariant PtrsBehind(user) && levelPtrs[l] <= |files|
      {
        BehindNext(levelPtrs[..], inputVersion, level, user, l);
        ghost var after := levelPtrs[..][l := levelPtrs[l] + 1];
        levelPtrs[l] := levelPtrs[l] + 1;
        assert levelPtrs[..] == after;
      }
      BehindAt(levelPtrs[..], inputVersion, level, user, l);
      if levelPtrs[l] == |files| {
        NoneInRange(files, user);
        return false;
      }
      FirstFileDecides(files, levelPtrs[l], user);
      r := user >= files[levelPtrs[l]].smallest.user;
    }

    /** The bytes of the grandparents the cursor has passed since it stood at `start`. */
    ghost function PassedBytes(start: nat): nat
      reads this
    {
      if start <= grandparentIndex <= |grandparents| then TotalFileSize(grandparents[start..grandparentIndex]) else 0
    }

    /** Compaction::ShouldStopBefore: counts the grandparent bytes passed since the last output file
        began and cuts the output when they exceed the limit.  What is passed before the first key
        does not count. */
    method ShouldStopBefore(key: IKey) returns (r: bool)
      modifies this`grandparentIndex, this`seenKey, this`overlappedBytes
      ensures seenKey && grandparentIndex >= old(grandparentIndex)
      ensures old(grandparentIndex) <= |grandparents| ==> grandparentIndex <= |grandparents|
      ensures var overlapped := old(overlappedBytes) + if old(seenKey) then PassedBytes(old(grandparentIndex)) else 0;
              && r == (overlapped > maxGrandParentOverlapBytes)
              && overlappedBytes == if r then 0 else overlapped
      ensures forall i :: old(grandparentIndex) <= i < grandparentIndex && i < |grandparents|
                ==> Before(grandparents[i].largest, key)
      ensures grandparentIndex < |grandparents| ==> !Before(grandparents[grandparentIndex].largest, key)
    {
      while grandparentIndex < |grandparents| && Before(grandparents[grandparentIndex].largest, key)
        invariant grandparentIndex >= old(grandparentIndex) && seenKey == old(seenKey)
        invariant grandparentIndex > old(grandparentIndex) ==> grandparentIndex <= |grandparents|
        invariant overlappedBytes ==
                  old(overlappedBytes) + if old(seenKey) then PassedBytes(old(grandparentIndex)) else 0
        invariant forall i :: old(grandparentIndex) <= i < grandparentIndex && i < |grandparents|
                    ==> Before(grandparents[i].largest, key)
        decreases |grandparents| - grandparentIndex
      {
        PassOne(grandparents, old(grandparentIndex), grandparentIndex);
        if seenKey {
          overlappedBytes := overlappedBytes + grandparents[grandparentIndex].size;
        }
        grandparentIndex := grandparentIndex + 1;
      }
      seenKey := true;
      if overlappedBytes > maxGrandParentOverlapBytes {
        overlappedBytes := 0;
        return true;
      }
      return false;
    }
  }

  lemma PassOne(files: Level, start: nat, i: nat)
    requires start <= i < |files|
    ensures TotalFileSize(files[start..i + 1]) == TotalFileSize(files[start..i]) + files[i].size
    ensures TotalFileSize(files[start..start]) == 0
  {
    TotalOfPrefix(files[start..], i - start);
    assert files[start..][..i - start] == files[start..i] && files[start..][..i - start + 1] == files[start..i + 1];
  }

  /** No file at the levels below a level-L compaction covers the user key. */
  ghost predicate IsBaseLevel(v: Version, level: nat, user: UserKey) {
    forall l, f :: level + 2 <= l < NUM_LEVELS && f in v[l] ==> !InUserRange(f, user)
  }

  class VersionSet {
    var current: Version
    var nextFileNumber: nat
    var lastSequence: nat
    var compactPointer: seq<Option<IKey>>
    const maxFileSize: nat

    constructor (maxFileSize: nat)
      ensures current == [[], [], [], [], [], [], []] && lastSequence == 0
      ensures |compactPointer| == NUM_LEVELS
    {
      current, nextFileNumber, lastSequence := [[], [], [], [], [], [], []], 2, 0;
      compactPointer := seq(NUM_LEVELS, _ => None);
      this.maxFileSize := maxFileSize;
    }

    /** VersionSet::LogAndApply, the part that builds and installs the new version. */
    method LogAndApply(edit: VersionEdit)
      requires forall l: LevelNumber :: SortedBySmallest(current[l]) && AddsAreFresh(FilesOf(current[l]), [edit], l)
      modifies this`current
      ensures forall l: LevelNumber :: SortedBySmallest(current[l])
      ensures forall l: LevelNumber :: FilesOf(current[l]) == ApplyToLevel(FilesOf(old(current)[l]), edit, l)
    {
      current := ApplyEdit(current, edit);
    }

    /** VersionSet::PickCompaction around the file the policy picked. */
    method PickCompaction(level: nat, index: nat) returns (c: Compaction)
      requires WellFormed(current) && |compactPointer| == NUM_LEVELS
      requires level + 1 < NUM_LEVELS && index < |current[level]|
      modifies this`compactPointer
      ensures fresh(c) && fresh(c.levelPtrs) && c.IsFor(current, level, maxFileSize) && c.Unstarted()
      ensures exists chosen :: PickedFrom(current[level], level, index, chosen) && c.HasInputsFrom(chosen)
      ensures current[level][index] in c.inputs0
      ensures c.inputs0 != [] && compactPointer == old(compactPointer)[level := Some(LargestKey(c.inputs0))]
      ensures c.edit == EMPTY_EDIT.(compactPointers := [(level, LargestKey(c.inputs0))])
    {
      hide WellFormed, GoodInputs, ChosenFrom, AreGrandparents, PickedFrom, Startable, LargestKey, FilesOf;
      c := new Compaction(level, current, maxFileSize);
      c.inputs0 := PickFiles(current, level, index);
      ghost var chosen := c.inputs0;
      SetupOtherInputs(c);
      NoGrandparents(current, level, c.inputs0 + c.inputs1);
      StillIn(chosen, c.inputs0, current[level][index]);
      assert c.HasInputsFrom(chosen);
    }

    /** VersionSet::CompactRange, for a manual compaction. */
    method CompactRange(level: nat, begin: Option<UserKey>, end: Option<UserKey>) returns (c: Compaction?)
      requires WellFormed(current) && |compactPointer| == NUM_LEVELS && level + 1 < NUM_LEVELS
      modifies this`compactPointer
      ensures |compactPointer| == NUM_LEVELS && (c == null ==> compactPointer == old(compactPointer))
      ensures c == null <==> forall f :: f in current[level] ==> !Overlaps(f, begin, end)
      ensures c != null ==>
        && fresh(c) && fresh(c.levelPtrs) && c.IsFor(current, level, maxFileSize) && c.Unstarted()
        && (exists chosen ::
             RangeFrom(current[level], level, begin, end, maxFileSize, chosen) && c.HasInputsFrom(chosen))
        && (exists f :: f in c.inputs0 && Overlaps(f, begin, end))
        && compactPointer == old(compactPointer)[level := Some(LargestKey(c.inputs0))]
        && c.edit == EMPTY_EDIT.(compactPointers := [(level, LargestKey(c.inputs0))])
        && (level == 0 ==> forall f :: f in current[0] && Overlaps(f, begin, end) ==> f in c.inputs0)
    {
      hide WellFormed, GoodInputs, ChosenFrom, AreGrandparents, RangeFrom, Startable, LargestKey, FilesOf, Overlaps;
      ghost var found;
      var inputs;
      inputs, found := RangeFiles(current, level, begin, end, maxFileSize);
      if inputs == [] {
        return null;
      }
      c := new Compaction(level, current, maxFileSize);
      c.inputs0 := inputs;
      SetupOtherInputs(c);
      NoGrandparents(current, level, c.inputs0 + c.inputs1);
      StillChosen(level, found, inputs, c.inputs0, begin, end);
      assert c.HasInputsFrom(inputs);
    }

    /** VersionSet::SetupOtherInputs: close the chosen files under boundary files, add the parents
        they meet, then try to take more of the level without taking more parents; and find the
        grandparents. */
    method SetupOtherInputs(c: Compaction)
      requires WellFormed(current) && |compactPointer| == NUM_LEVELS
      requires c.level + 1 < NUM_LEVELS && Startable(current[c.level], c.level, c.inputs0)
      modifies this`compactPointer, c`inputs0, c`inputs1, c`grandparents, c`edit
      ensures GoodInputs(current, c.level, c.inputs0, c.inputs1)
      ensures FilesOf(old(c.inputs0)) <= FilesOf(c.inputs0)
      ensures ChosenFrom(current[c.level], current[c.level + 1], c.level, old(c.inputs0), 25 * maxFileSize,
                         c.inputs0, c.inputs1)
      ensures if c.level + 2 < NUM_LEVELS then
                AreGrandparents(current, c.level, c.inputs0 + c.inputs1, c.grandparents)
              else c.grandparents == old(c.grandparents)
      ensures compactPointer == old(compactPointer)[c.level := Some(LargestKey(c.inputs0))]
      ensures c.edit == old(c.edit).(compactPointers := old(c.edit).compactPointers
              + [(c.level, LargestKey(c.inputs0))])
    {
      hide *;
      c.inputs0, c.inputs1 := ChooseInputs(current, c.level, c.inputs0, 25 * maxFileSize);
      HasInputs(current, c.level, c.inputs0, c.inputs1);
      var smallest, largest := GetRange(c.inputs0);
      if c.level + 2 < NUM_LEVELS {
        c.grandparents := FindGrandparents(current, c.level, c.inputs0 + c.inputs1);
      }
      compactPointer := compactPointer[c.level := Some(largest)];
      c.edit := c.edit.(compactPointers := c.edit.compactPointers + [(c.level, largest)]);
    }
  }

  lemma HasInputs(v: Version, level: nat, inputs0: Level, inputs1: Level)
    requires GoodInputs(v, level, inputs0, inputs1)
    ensures inputs0 != [] && inputs0 + inputs1 != []
  {
    hide LeavesOnlyNewer, AllOverlapping;
  }

  method ChooseInputs(v: Version, level: nat, chosen: Level, limit: nat) returns (r0: Level, r1: Level)
    requires WellFormed(v) && level + 1 < NUM_LEVELS && Startable(v[level], level, chosen)
    ensures GoodInputs(v, level, r0, r1) && FilesOf(chosen) <= FilesOf(r0)
    ensures ChosenFrom(v[level], v[level + 1], level, chosen, limit, r0, r1)
  {
    LevelParts(v, level);
    hide *;
    var files, parents := v[level], v[level + 1];
    r0 := CloseUnderBoundary(files, level, chosen);
    var smallest, largest := GetRange(r0);
    r1 := FindParents(parents, level + 1, r0, smallest, largest);
    ghost var base0, base1 := r0, r1;
    if r1 != [] {
      r0, r1 := TryToGrow(files, parents, level, r0, r1, limit);
    }
    AreChosen(v, level, chosen, limit, base0, base1, r0, r1);
    AreGood(v, level, r0, r1);
  }

  lemma LevelParts(v: Version, level: nat)
    requires WellFormed(v) && level < NUM_LEVELS
    ensures ValidFiles(v[level]) && (level > 0 ==> DisjointSorted(v[level]))
  {
    hide ValidFiles, DisjointSorted;
  }

  lemma AreChosen(v: Version, level: nat, chosen: Level, limit: nat, base0: Level, base1: Level, r0: Level, r1: Level)
    requires level + 1 < NUM_LEVELS && base0 != [] && IsClosure(v[level], chosen, base0)
    requires AllOverlapping(v[level + 1], base0, base1)
    requires if base1 == [] then r0 == base0 && r1 == base1
             else IsGrowth(v[level], v[level + 1], level, base0, base1, limit, r0, r1)
    ensures ChosenFrom(v[level], v[level + 1], level, chosen, limit, r0, r1)
  {
    hide IsClosure, AllOverlapping, IsGrowth;
  }

  lemma AreGood(v: Version, level: nat, r0: Level, r1: Level)
    requires level + 1 < NUM_LEVELS && r0 != [] && FilesOf(r0) <= FilesOf(v[level])
    requires LeavesOnlyNewer(v[level], r0) && AllOverlapping(v[level + 1], r0, r1)
    ensures GoodInputs(v, level, r0, r1)
  {
    hide LeavesOnlyNewer, AllOverlapping;
  }

  method FindGrandparents(v: Version, level: nat, inputs: Level) returns (r: Level)
    requires WellFormed(v) && level + 2 < NUM_LEVELS && inputs != []
    ensures AreGrandparents(v, level, inputs, r)
  {
    LevelParts(v, level + 2);
    ValidFilesAreOrdered(v[level + 2]);
    var allStart, allLimit := GetRange(inputs);
    ghost var lo, hi;
    r, lo, hi := GetOverlappingInputs(level + 2, v[level + 2], Some(allStart.user), Some(allLimit.user));
    OverlapFilterIsRun(v[level + 2], lo, hi);
    OverlapFilterMembers(v[level + 2], lo, hi);
    hide WellFormed, OverlapFilter, SmallestKey, LargestKey, Overlaps, MeetsRangeOf, IsRun, OrderedFiles,
         DisjointSorted;
    forall f ensures f in r <==> f in v[level + 2] && MeetsRangeOf(f, inputs) {
      RangeMeets(f, inputs);
    }
  }

  lemma NoGrandparents(v: Version, level: nat, inputs: Level)
    ensures level + 2 >= NUM_LEVELS ==> AreGrandparents(v, level, inputs, [])
  {
  }

  lemma StillIn(chosen: Level, r: Level, f: File)
    requires FilesOf(chosen) <= FilesOf(r) && f in chosen
    ensures f in r
  {
    assert f in FilesOf(chosen);
  }

  /** The files PickCompaction starts from: the one that was picked, at level 0 with all it overlaps. */
  ghost predicate PickedFrom(files: Level, level: nat, index: nat, chosen: Level) {
    index < |files| &&
    if level == 0 then IsSearch(0, files, Some(files[index].smallest.user), Some(files[index].largest.user), chosen)
    else chosen == [files[index]]
  }

  method PickFiles(v: Version, level: nat, index: nat) returns (chosen: Level)
    requires WellFormed(v) && level < NUM_LEVELS && index < |v[level]|
    ensures PickedFrom(v[level], level, index, chosen) && Startable(v[level], level, chosen)
    ensures v[level][index] in chosen
  {
    var f := v[level][index];
    FileIsOrdered(f);
    chosen := [f];
    if level == 0 {
      var smallest, largest := GetRange(chosen);
      ghost var lo, hi;
      chosen, lo, hi := GetOverlappingInputs(0, v[0], Some(smallest.user), Some(largest.user));
      OverlapFilterMembers(v[0], lo, hi);
      assert f in chosen;
    } else {
      assert v[level][index..index + 1] == [f];
    }
  }

  /** The front of these files that reaches the limit, or all of them. */
  ghost predicate IsLimited(found: Level, limit: nat, r: Level) {
    && r <= found && (r == found || TotalFileSize(r) >= limit)
    && forall n :: 0 < n < |r| ==> TotalFileSize(r[..n]) < limit
  }

  /** The files a manual compaction starts from. */
  ghost predicate RangeFrom(files: Level, level: nat, begin: Option<UserKey>, end: Option<UserKey>, limit: nat,
                            chosen: Level)
  {
    exists found :: IsSearch(level, files, begin, end, found) &&
      if level == 0 then chosen == found else IsLimited(found, limit, chosen)
  }

  method RangeFiles(v: Version, level: nat, begin: Option<UserKey>, end: Option<UserKey>, limit: nat)
    returns (inputs: Level, ghost found: Level)
    requires WellFormed(v) && level < NUM_LEVELS
    ensures inputs == [] <==> forall f :: f in v[level] ==> !Overlaps(f, begin, end)
    ensures inputs != [] ==>
      && RangeFrom(v[level], level, begin, end, limit, inputs) && Startable(v[level], level, inputs)
      && inputs <= found && (if level == 0 then inputs == found else forall f :: f in found ==> Overlaps(f, begin, end))
      && (exists f :: f in found && Overlaps(f, begin, end))
      && forall f :: f in v[level] && Overlaps(f, begin, end) ==> f in found
  {
    var files := v[level];
    ghost var lo, hi;
    inputs, lo, hi := GetOverlappingInputs(level, files, begin, end);
    found := inputs;
    RangeIsCovered(level, files, inputs, lo, hi, begin, end);
    assert IsSearch(level, files, begin, end, inputs);
    LevelParts(v, level);
    hide WellFormed, IsSearch, IsLimited, Overlaps, ClosedRange, OverlapFilter, Extends, ValidFiles, DisjointSorted;
    if inputs != [] {
      if level > 0 {
        ValidFilesAreOrdered(files);
        OverlapFilterIsRun(files, lo, hi);
        inputs := LimitInputs(files, inputs, limit);
        LimitedIsFront(found, limit, inputs);
      }
    }
  }

  lemma LimitedIsFront(found: Level, limit: nat, r: Level)
    requires IsLimited(found, limit, r)
    ensures r <= found
  {
  }

  lemma PrefixOfSlice(files: Level, i: nat, j: nat, n: nat)
    requires i <= j <= |files| && n <= j - i
    ensures files[i..j][..n] == files[i..i + n]
  {
  }

  /** The inputs of a search hold whatever meets the range asked for, and something that does. */
  lemma RangeIsCovered(level: nat, files: Level, inputs: Level, lo: Option<UserKey>, hi: Option<UserKey>,
                       begin: Option<UserKey>, end: Option<UserKey>)
    requires inputs == OverlapFilter(files, lo, hi) && Extends(lo, hi, begin, end)
    requires level > 0 ==> lo == begin && hi == end
    requires level == 0 ==>
      forall a, b :: ClosedRange(files, a, b) && Extends(a, b, begin, end) ==> Extends(a, b, lo, hi)
    ensures forall f :: f in files && Overlaps(f, begin, end) ==> f in inputs
    ensures inputs != [] ==> exists f :: f in inputs && f in files && Overlaps(f, begin, end)
    ensures level > 0 ==> forall f :: f in inputs ==> Overlaps(f, begin, end)
  {
    OverlapFilterMembers(files, lo, hi);
    forall f | f in files && Overlaps(f, begin, end) ensures f in inputs {
      WiderMeetsToo(f, lo, hi, begin, end);
    }
    if inputs != [] {
      var f := inputs[0];
      assert f in inputs && Overlaps(f, lo, hi);
      if level == 0 && ClosedRange(files, begin, end) {
        assert Overlaps(f, begin, end);
      }
    }
  }

  lemma StillChosen(level: nat, found: Level, limited: Level, chosen: Level, begin: Option<UserKey>,
                    end: Option<UserKey>)
    requires limited != [] && limited <= found && FilesOf(limited) <= FilesOf(chosen)
    requires if level == 0 then limited == found else forall f :: f in found ==> Overlaps(f, begin, end)
    requires exists f :: f in found && Overlaps(f, begin, end)
    ensures exists f :: f in chosen && Overlaps(f, begin, end)
    ensures level == 0 ==> forall f :: f in found ==> f in chosen
  {
    hide Overlaps;
    forall f | f in limited ensures f in chosen {
      assert f in FilesOf(limited);
    }
    var f :| f in found && Overlaps(f, begin, end);
    var g := if level == 0 then f else limited[0];
    assert g in limited && g in found && Overlaps(g, begin, end);
  }

  /** Keeps files from the front until their sizes add up to the limit. */
  method LimitInputs(ghost files: Level, inputs: Level, limit: nat) returns (r: Level)
    requires inputs != [] && IsRun(files, inputs)
    ensures r != [] && IsRun(files, r) && IsLimited(inputs, limit, r)
  {
    hide IsLimited;
    ghost var i, j :| 0 <= i <= j <= |files| && inputs == files[i..j];
    AllBelow(inputs, limit);
    var total := 0;
    for n := 0 to |inputs|
      invariant total == TotalFileSize(inputs[..n])
      invariant forall m :: 0 < m <= n ==> TotalFileSize(inputs[..m]) < limit
    {
      TotalOfPrefix(inputs, n);
      total := total + inputs[n].size;
      if total >= limit {
        PrefixOfSlice(files, i, j, n + 1);
        LimitReached(inputs, limit, n);
        return inputs[..n + 1];
      }
    }
    return inputs;
  }

  lemma AllBelow(inputs: Level, limit: nat)
    ensures (forall m :: 0 < m <= |inputs| ==> TotalFileSize(inputs[..m]) < limit) ==> IsLimited(inputs, limit, inputs)
  {
    hide TotalFileSize;
  }

  lemma LimitReached(inputs: Level, limit: nat, n: nat)
    requires n < |inputs| && TotalFileSize(inputs[..n + 1]) >= limit
    requires forall m :: 0 < m <= n ==> TotalFileSize(inputs[..m]) < limit
    ensures IsLimited(inputs, limit, inputs[..n + 1])
  {
    hide TotalFileSize;
    var r := inputs[..n + 1];
    forall m | 0 < m < |r| ensures TotalFileSize(r[..m]) < limit {
      assert r[..m] == inputs[..m];
    }
  }

  lemma {:induction false} TotalOfPrefix(files: Level, n: nat)
    requires n < |files|
    ensures TotalFileSize(files[..n + 1]) == TotalFileSize(files[..n]) + files[n].size
  {
    if n > 0 {
      TotalOfPrefix(files[1..], n - 1);
      assert files[..n + 1][1..] == files[1..][..n] && files[..n][1..] == files[1..][..n - 1];
    }
  }

  ghost predicate ClearTo(v: Version, level: nat, lo: UserKey, hi: UserKey) {
    forall l, f :: 0 <= l <= level < NUM_LEVELS && f in v[l] ==> !Overlaps(f, Some(lo), Some(hi))
  }

  lemma ClearBelow(v: Version, level: nat, lo: UserKey, hi: UserKey)
    requires WellFormed(v) && level + 1 < NUM_LEVELS && ClearTo(v, level, lo, hi)
    ensures ValidFiles(v[level + 1]) && DisjointSorted(v[level + 1])
    ensures (forall f :: f in v[level + 1] ==> !Overlaps(f, Some(lo), Some(hi))) ==> ClearTo(v, level + 1, lo, hi)
  {
    hide ValidFiles, DisjointSorted, Overlaps;
  }

  /** Nothing in the next level meets the range, and what meets it in the level after is small enough. */
  ghost predicate MaySink(v: Version, level: nat, lo: UserKey, hi: UserKey, maxFileSize: nat)
    requires level + 2 < NUM_LEVELS
  {
    && (forall f :: f in v[level + 1] ==> !Overlaps(f, Some(lo), Some(hi)))
    && TotalFileSize(OverlapFilter(v[level + 2], Some(lo), Some(hi))) <= 10 * maxFileSize
  }

  lemma MaySinkIs(v: Version, level: nat, lo: UserKey, hi: UserKey, maxFileSize: nat)
    requires level + 2 < NUM_LEVELS
    ensures MaySink(v, level, lo, hi, maxFileSize) <==>
      && !(exists f :: f in v[level + 1] && Overlaps(f, Some(lo), Some(hi)))
      && TotalFileSize(OverlapFilter(v[level + 2], Some(lo), Some(hi))) <= 10 * maxFileSize
  {
    hide Overlaps, TotalFileSize, OverlapFilter;
  }

  lemma ClearToZero(v: Version, lo: UserKey, hi: UserKey)
    ensures ClearTo(v, 0, lo, hi) <==> !(exists f :: f in v[0] && Overlaps(f, Some(lo), Some(hi)))
  {
    hide Overlaps;
  }

  /** The table may sink from level to level down to this one, and no further. */
  ghost predicate SinksTo(v: Version, level: nat, lo: UserKey, hi: UserKey, maxFileSize: nat) {
    && level <= MAX_MEM_COMPACT_LEVEL
    && (forall l :: 0 <= l < level ==> MaySink(v, l, lo, hi, maxFileSize))
    && (level < MAX_MEM_COMPACT_LEVEL && ClearTo(v, 0, lo, hi) ==> !MaySink(v, level, lo, hi, maxFileSize))
  }

  /** Version::PickLevelForMemTableOutput: how deep a new table may be pushed.  It sinks from level to
      level as long as it may, down to MAX_MEM_COMPACT_LEVEL. */
  method PickLevelForMemTableOutput(v: Version, lo: UserKey, hi: UserKey, maxFileSize: nat) returns (level: nat)
    requires WellFormed(v)
    ensures level <= MAX_MEM_COMPACT_LEVEL
    ensures level > 0 ==> forall l, f :: 0 <= l <= level && f in v[l] ==> !Overlaps(f, Some(lo), Some(hi))
    ensures SinksTo(v, level, lo, hi, maxFileSize)
  {
    hide WellFormed, Overlaps, MaySink, OverlapFilter, TotalFileSize, ValidFiles, DisjointSorted;
    level := 0;
    var overlap := SomeFileOverlapsRange(false, v[0], Some(lo), Some(hi));
    if !overlap {
      ClearToZero(v, lo, hi);
      while level < MAX_MEM_COMPACT_LEVEL
        invariant level <= MAX_MEM_COMPACT_LEVEL && ClearTo(v, level, lo, hi)
        invariant forall l :: 0 <= l < level ==> MaySink(v, l, lo, hi, maxFileSize)
      {
        hide ClearTo;
        ClearBelow(v, level, lo, hi);
        MaySinkIs(v, level, lo, hi, maxFileSize);
        overlap := SomeFileOverlapsRange(true, v[level + 1], Some(lo), Some(hi));
        if overlap {
          break;
        }
        if level + 2 < NUM_LEVELS {
          var overlaps, _, _ := GetOverlappingInputs(level + 2, v[level + 2], Some(lo), Some(hi));
          if TotalFileSize(overlaps) > 10 * maxFileSize {
            break;
          }
        }
        level := level + 1;
      }
    }
  }

  method CloseUnderBoundary(files: Level, level: nat, chosen: Level) returns (r: Level)
    requires ValidFiles(files) && (level > 0 ==> DisjointSorted(files)) && Startable(files, level, chosen)
    ensures r != [] && FilesOf(chosen) <= FilesOf(r) <= FilesOf(files) && LeavesOnlyNewer(files, r)
    ensures IsClosure(files, chosen, r)
  {
    ValidFilesAreOrdered(files);
    r := AddBoundaryInputs(files, chosen);
    hide IsClosure;
    BoundaryClosureLeavesOnlyNewer(files, level, chosen, r);
    forall f | f in chosen ensures f in r {
      var k :| 0 <= k < |chosen| && chosen[k] == f;
      assert r[..|chosen|][k] == f;
    }
  }

  /** Takes more level-L files when that brings in no more level-(L+1) files and stays in the limit. */
  method TryToGrow(files: Level, parents: Level, level: nat, inputs0: Level, inputs1: Level, limit: nat)
    returns (r0: Level, r1: Level)
    requires ValidFiles(files) && (level > 0 ==> DisjointSorted(files))
    requires inputs0 != [] && FilesOf(inputs0) <= FilesOf(files)
    requires LeavesOnlyNewer(files, inputs0) && AllOverlapping(parents, inputs0, inputs1)
    ensures r0 != [] && FilesOf(inputs0) <= FilesOf(r0) <= FilesOf(files)
    ensures LeavesOnlyNewer(files, r0) && AllOverlapping(parents, r0, r1)
    ensures |r1| == |inputs1|
    ensures IsGrowth(files, parents, level, inputs0, inputs1, limit, r0, r1)
  {
    hide *;
    var allStart, allLimit := GetRange(inputs0 + inputs1);
    var expanded0 := Expand(files, level, inputs0, inputs1, allStart, allLimit);
    r0, r1 := inputs0, inputs1;
    if |expanded0| > |inputs0| && TotalFileSize(inputs1) + TotalFileSize(expanded0) < limit {
      var newStart, newLimit := GetRange(expanded0);
      var expanded1 := FindParents(parents, level + 1, expanded0, newStart, newLimit);
      if |expanded1| == |inputs1| {
        r0, r1 := expanded0, expanded1;
      }
      IsTakenBy(parents, inputs0, inputs1, expanded0, expanded1, r0, r1);
    }
    HasGrown(files, parents, level, inputs0, inputs1, limit, expanded0, r0, r1);
  }

  lemma IsTakenBy(parents: Level, inputs0: Level, inputs1: Level, e0: Level, e1: Level, r0: Level, r1: Level)
    requires e0 != [] && AllOverlapping(parents, e0, e1)
    requires if |e1| == |inputs1| then r0 == e0 && r1 == e1 else r0 == inputs0 && r1 == inputs1
    ensures IsTaken(parents, inputs0, inputs1, e0, r0, r1)
  {
    hide AllOverlapping;
  }

  lemma HasGrown(files: Level, parents: Level, level: nat, inputs0: Level, inputs1: Level, limit: nat,
                 e0: Level, r0: Level, r1: Level)
    requires inputs0 != [] && e0 != [] && IsExpansion(files, level, inputs0, inputs1, e0)
    requires if |e0| > |inputs0| && TotalFileSize(inputs1) + TotalFileSize(e0) < limit
             then IsTaken(parents, inputs0, inputs1, e0, r0, r1) else r0 == inputs0 && r1 == inputs1
    ensures IsGrowth(files, parents, level, inputs0, inputs1, limit, r0, r1)
  {
    hide IsExpansion, IsTaken, TotalFileSize;
  }

  method FindParents(files: Level, level: nat, chosen: Level, smallest: IKey, largest: IKey) returns (r: Level)
    requires level > 0 && chosen != [] && smallest == SmallestKey(chosen) && largest == LargestKey(chosen)
    ensures AllOverlapping(files, chosen, r)
  {
    ghost var lo, hi;
    r, lo, hi := GetOverlappingInputs(level, files, Some(smallest.user), Some(largest.user));
    OverlapFilterMembers(files, lo, hi);
  }

  method Expand(files: Level, level: nat, inputs0: Level, inputs1: Level, start: IKey, limit: IKey) returns (r: Level)
    requires ValidFiles(files) && (level > 0 ==> DisjointSorted(files))
    requires inputs0 != [] && FilesOf(inputs0) <= FilesOf(files)
    requires start == SmallestKey(inputs0 + inputs1) && limit == LargestKey(inputs0 + inputs1)
    ensures r != [] && FilesOf(inputs0) <= FilesOf(r) <= FilesOf(files) && LeavesOnlyNewer(files, r)
    ensures IsExpansion(files, level, inputs0, inputs1, r)
  {
    var candidate;
    ghost var lo, hi;
    candidate, lo, hi := GetOverlappingInputs(level, files, Some(start.user), Some(limit.user));
    ExpansionIsStartable(files, level, candidate, lo, hi, inputs0, inputs1, start, limit);
    assert IsSearch(level, files, Some(start.user), Some(limit.user), candidate);
    hide IsSearch, IsClosure, OverlapFilter, ClosedRange, Extends;
    r := CloseUnderBoundary(files, level, candidate);
  }

  /** The wider level-L range SetupOtherInputs tries keeps every file chosen so far. */
  lemma ExpansionIsStartable(files: Level, level: nat, candidate: Level, lo: Option<UserKey>, hi: Option<UserKey>,
                             inputs0: Level, inputs1: Level, start: IKey, limit: IKey)
    requires ValidFiles(files) && (level > 0 ==> DisjointSorted(files))
    requires candidate == OverlapFilter(files, lo, hi) && Extends(lo, hi, Some(start.user), Some(limit.user))
    requires level == 0 ==> ClosedRange(files, lo, hi)
    requires inputs0 != [] && FilesOf(inputs0) <= FilesOf(files)
    requires start == SmallestKey(inputs0 + inputs1) && limit == LargestKey(inputs0 + inputs1)
    ensures Startable(files, level, candidate)
    ensures FilesOf(inputs0) <= FilesOf(candidate)
  {
    ValidFilesAreOrdered(files);
    OverlapFilterMembers(files, lo, hi);
    SmallestKeyIs(inputs0 + inputs1);
    LargestKeyIs(inputs0 + inputs1);
    forall f | f in inputs0 ensures f in candidate {
      assert f in inputs0 + inputs1 && f in FilesOf(files);
    }
    assert inputs0[0] in candidate;
    if level > 0 {
      OverlapFilterIsRun(files, lo, hi);
    }
  }
}
