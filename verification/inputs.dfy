/** Choosing the input files of a compaction (version_set.cc). */
module Inputs {
  import opened Wrappers
  import opened Entries
  import opened Versions

  // ---------------------------------------------------------------- GetOverlappingInputs

  function OverlapFilter(files: Level, lo: Option<UserKey>, hi: Option<UserKey>): Level {
    if files == [] then []
    else
      var last := files[|files| - 1];
      OverlapFilter(files[..|files| - 1], lo, hi) + if Overlaps(last, lo, hi) then [last] else []
  }

  lemma {:induction false} OverlapFilterMembers(files: Level, lo: Option<UserKey>, hi: Option<UserKey>)
    ensures forall f :: f in OverlapFilter(files, lo, hi) <==> f in files && Overlaps(f, lo, hi)
  {
    if files != [] {
      var last := files[|files| - 1];
      OverlapFilterMembers(files[..|files| - 1], lo, hi);
      assert files == files[..|files| - 1] + [last];
    }
  }

  predicate WithinRange(f: File, lo: Option<UserKey>, hi: Option<UserKey>) {
    && (lo.Some? ==> lo.value <= f.smallest.user)
    && (hi.Some? ==> f.largest.user <= hi.value)
  }

  /** Every file that meets [lo, hi] lies inside it. */
  ghost predicate ClosedRange(files: Level, lo: Option<UserKey>, hi: Option<UserKey>) {
    forall f :: f in files && Overlaps(f, lo, hi) ==> WithinRange(f, lo, hi)
  }

  /** [lo, hi] extends [begin, end]; an unbounded end stays unbounded. */
  predicate Extends(lo: Option<UserKey>, hi: Option<UserKey>, begin: Option<UserKey>, end: Option<UserKey>) {
    && lo.Some? == begin.Some? && (lo.Some? ==> lo.value <= begin.value)
    && hi.Some? == end.Some? && (hi.Some? ==> end.value <= hi.value)
  }

  ghost function StartsBelow(files: Level, lo: Option<UserKey>): set<File> {
    set f | f in files && lo.Some? && f.smallest.user < lo.value
  }

  ghost function EndsAbove(files: Level, hi: Option<UserKey>): set<File> {
    set f | f in files && hi.Some? && f.largest.user > hi.value
  }

  /** Of the first i files, those that meet [lo, hi] are chosen; at level 0 none of them sticks out,
      and no smaller closed range extends [begin, end]. */
  ghost predicate Searched(level: nat, files: Level, i: nat, inputs: Level, lo: Option<UserKey>, hi: Option<UserKey>,
                           begin: Option<UserKey>, end: Option<UserKey>)
  {
    && i <= |files|
    && inputs == OverlapFilter(files[..i], lo, hi)
    && (level > 0 ==> lo == begin && hi == end)
    && (level == 0 ==> ClosedRange(files[..i], lo, hi))
    && Extends(lo, hi, begin, end)
    && forall a, b :: ClosedRange(files, a, b) && Extends(a, b, begin, end) ==> Extends(a, b, lo, hi)
  }

  lemma SearchedNext(level: nat, files: Level, i: nat, inputs: Level, lo: Option<UserKey>, hi: Option<UserKey>,
                     begin: Option<UserKey>, end: Option<UserKey>)
    requires Searched(level, files, i, inputs, lo, hi, begin, end) && i < |files|
    requires level == 0 && Overlaps(files[i], lo, hi) ==> WithinRange(files[i], lo, hi)
    ensures Searched(level, files, i + 1, if Overlaps(files[i], lo, hi) then inputs + [files[i]] else inputs, lo,
            hi, begin, end)
  {
    hide Overlaps, WithinRange, Extends;
    assert files[..i + 1][..i] == files[..i];
    assert files[..i + 1] == files[..i] + [files[i]];
  }

  /** A chosen level-0 file widens the range to its own ends, which every closed range must hold. */
  lemma SearchedAgain(files: Level, i: nat, inputs: Level, lo: Option<UserKey>, hi: Option<UserKey>,
                      begin: Option<UserKey>, end: Option<UserKey>)
    requires Searched(0, files, i, inputs, lo, hi, begin, end) && i < |files| && Overlaps(files[i], lo, hi)
    ensures lo.Some? && files[i].smallest.user < lo.value ==>
      Searched(0, files, 0, [], Some(files[i].smallest.user), hi, begin, end)
    ensures hi.Some? && files[i].largest.user > hi.value ==>
      Searched(0, files, 0, [], lo, Some(files[i].largest.user), begin, end)
  {
    var f := files[i];
    assert f in files;
    forall a, b | ClosedRange(files, a, b) && Extends(a, b, begin, end)
      ensures WithinRange(f, a, b) && Extends(a, b, lo, hi)
    {
      WiderMeetsToo(f, a, b, lo, hi);
    }
    hide Overlaps, ClosedRange;
    assert ClosedRange([], Some(f.smallest.user), hi) && ClosedRange([], lo, Some(f.largest.user)) by {
      NothingSticksOut(Some(f.smallest.user), hi);
      NothingSticksOut(lo, Some(f.largest.user));
    }
  }

  lemma NothingSticksOut(lo: Option<UserKey>, hi: Option<UserKey>)
    ensures ClosedRange([], lo, hi) && OverlapFilter([], lo, hi) == []
  {
  }

  lemma WiderMeetsToo(f: File, a: Option<UserKey>, b: Option<UserKey>, lo: Option<UserKey>, hi: Option<UserKey>)
    requires Extends(a, b, lo, hi) && Overlaps(f, lo, hi)
    ensures Overlaps(f, a, b)
  {
  }

  lemma FewerStickOut(files: Level, f: File, lo: Option<UserKey>, hi: Option<UserKey>)
    requires f in files
    ensures lo.Some? && f.smallest.user < lo.value ==>
      StartsBelow(files, Some(f.smallest.user)) < StartsBelow(files, lo)
    ensures hi.Some? && f.largest.user > hi.value ==> EndsAbove(files, Some(f.largest.user)) < EndsAbove(files, hi)
  {
    if lo.Some? && f.smallest.user < lo.value {
      assert f in StartsBelow(files, lo) && f !in StartsBelow(files, Some(f.smallest.user));
    }
    if hi.Some? && f.largest.user > hi.value {
      assert f in EndsAbove(files, hi) && f !in EndsAbove(files, Some(f.largest.user));
    }
  }

  /** The files found for [begin, end]: those that meet it, and at level 0 those that meet the least
      range that extends it and that none of them sticks out of. */
  ghost predicate IsSearch(level: nat, files: Level, begin: Option<UserKey>, end: Option<UserKey>, inputs: Level) {
    exists lo, hi ::
      && inputs == OverlapFilter(files, lo, hi) && Extends(lo, hi, begin, end)
      && (if level > 0 then lo == begin && hi == end else ClosedRange(files, lo, hi))
      && forall a, b :: ClosedRange(files, a, b) && Extends(a, b, begin, end) ==> Extends(a, b, lo, hi)
  }

  /** Version::GetOverlappingInputs.  From level 1 on the range searched is the one asked for.  At
      level 0 every chosen file that sticks out widens the range and restarts the search; the range
      reached is the least closed one that extends [begin, end]. */
  method GetOverlappingInputs(level: nat, files: Level, begin: Option<UserKey>, end: Option<UserKey>)
    returns (inputs: Level, ghost lo: Option<UserKey>, ghost hi: Option<UserKey>)
    ensures inputs == OverlapFilter(files, lo, hi)
    ensures level > 0 ==> lo == begin && hi == end
    ensures level == 0 ==> ClosedRange(files, lo, hi)
    ensures Extends(lo, hi, begin, end)
    ensures forall a, b :: ClosedRange(files, a, b) && Extends(a, b, begin, end) ==> Extends(a, b, lo, hi)
  {
    inputs := [];
    var userBegin, userEnd := begin, end;
    var i := 0;
    SearchStarts(level, files, begin, end);
    while i < |files|
      invariant Searched(level, files, i, inputs, userBegin, userEnd, begin, end)
      decreases StartsBelow(files, userBegin), EndsAbove(files, userEnd), |files| - i
    {
      hide Searched, StartsBelow, EndsAbove, WithinRange;
      var f := files[i];
      if AfterFile(userBegin, f) || BeforeFile(userEnd, f) {
        SearchedNext(level, files, i, inputs, userBegin, userEnd, begin, end);
        i := i + 1;
      } else {
        FewerStickOut(files, f, userBegin, userEnd);
        if level == 0 && userBegin.Some? && f.smallest.user < userBegin.value {
          SearchedAgain(files, i, inputs, userBegin, userEnd, begin, end);
          userBegin := Some(f.smallest.user);
          inputs, i := [], 0;
        } else if level == 0 && userEnd.Some? && f.largest.user > userEnd.value {
          SearchedAgain(files, i, inputs, userBegin, userEnd, begin, end);
          userEnd := Some(f.largest.user);
          inputs, i := [], 0;
        } else {
          if level == 0 {
            StaysInside(f, userBegin, userEnd);
          }
          SearchedNext(level, files, i, inputs, userBegin, userEnd, begin, end);
          inputs := inputs + [f];
          i := i + 1;
        }
      }
    }
    assert files[..i] == files;
    lo, hi := userBegin, userEnd;
  }

  lemma StaysInside(f: File, lo: Option<UserKey>, hi: Option<UserKey>)
    requires !(lo.Some? && f.smallest.user < lo.value) && !(hi.Some? && f.largest.user > hi.value)
    ensures WithinRange(f, lo, hi)
  {
  }

  lemma SearchStarts(level: nat, files: Level, begin: Option<UserKey>, end: Option<UserKey>)
    ensures Searched(level, files, 0, [], begin, end, begin, end)
  {
    assert files[..0] == [];
  }

  // ---------------------------------------------------------------- ranges of file lists

  function LargestKey(files: Level): IKey
    requires files != []
  {
    var last := files[|files| - 1];
    if |files| == 1 then last.largest
    else
      var k := LargestKey(files[..|files| - 1]);
      if Before(k, last.largest) then last.largest else k
  }

  function SmallestKey(files: Level): IKey
    requires files != []
  {
    var last := files[|files| - 1];
    if |files| == 1 then last.smallest
    else
      var k := SmallestKey(files[..|files| - 1]);
      if Before(last.smallest, k) then last.smallest else k
  }

  lemma {:induction false} LargestKeyIs(files: Level)
    requires files != []
    ensures exists f :: f in files && f.largest == LargestKey(files)
    ensures forall f :: f in files ==> !Before(LargestKey(files), f.largest)
  {
    var last := files[|files| - 1];
    assert last in files;
    if |files| > 1 {
      LargestKeyIs(files[..|files| - 1]);
      assert files == files[..|files| - 1] + [last];
    }
  }

  lemma {:induction false} SmallestKeyIs(files: Level)
    requires files != []
    ensures exists f :: f in files && f.smallest == SmallestKey(files)
    ensures forall f :: f in files ==> !Before(f.smallest, SmallestKey(files))
  {
    var last := files[|files| - 1];
    assert last in files;
    if |files| > 1 {
      SmallestKeyIs(files[..|files| - 1]);
      assert files == files[..|files| - 1] + [last];
    }
  }

  method GetRange(inputs: Level) returns (smallest: IKey, largest: IKey)
    requires inputs != []
    ensures smallest == SmallestKey(inputs) && largest == LargestKey(inputs)
  {
    smallest, largest := inputs[0].smallest, inputs[0].largest;
    for i := 1 to |inputs|
      invariant smallest == SmallestKey(inputs[..i]) && largest == LargestKey(inputs[..i])
    {
      assert inputs[..i + 1][..i] == inputs[..i];
      if Before(inputs[i].smallest, smallest) {
        smallest := inputs[i].smallest;
      }
      if Before(largest, inputs[i].largest) {
        largest := inputs[i].largest;
      }
    }
    assert inputs[..|inputs|] == inputs;
  }

  // ---------------------------------------------------------------- AddBoundaryInputs

  /** `f` starts after `key` with the same user key. */
  predicate IsBoundary(f: File, key: IKey) {
    Before(key, f.smallest) && f.smallest.user == key.user
  }

  ghost predicate HasBoundary(files: Level, key: IKey) {
    exists f :: f in files && IsBoundary(f, key)
  }

  ghost function StartsAfter(files: Level, key: IKey): set<File> {
    set f | f in files && Before(key, f.smallest)
  }

  /** The chosen files are consecutive in their level. */
  ghost predicate IsRun(files: Level, chosen: Level) {
    exists i, j :: 0 <= i <= j <= |files| && chosen == files[i..j]
  }

  method FindSmallestBoundaryFile(files: Level, largest: IKey) returns (r: Option<File>)
    ensures r.None? <==> !HasBoundary(files, largest)
    ensures r.Some? ==> r.value in files && IsBoundary(r.value, largest)
    ensures r.Some? ==> forall f :: f in files && IsBoundary(f, largest) ==> !Before(f.smallest, r.value.smallest)
  {
    r := None;
    for i := 0 to |files|
      invariant r.None? ==> forall f :: f in files[..i] ==> !IsBoundary(f, largest)
      invariant r.Some? ==> r.value in files && IsBoundary(r.value, largest)
      invariant r.Some? ==> forall f :: f in files[..i] && IsBoundary(f, largest)
                              ==> !Before(f.smallest, r.value.smallest)
    {
      var f := files[i];
      if Before(largest, f.smallest) && f.smallest.user == largest.user {
        if r.None? || Before(f.smallest, r.value.smallest) {
          r := Some(f);
        }
      }
    }
    assert files[..|files|] == files;
  }

  lemma LargestOfRun(files: Level, i: nat, j: nat)
    requires OrderedFiles(files) && DisjointSorted(files) && i < j <= |files|
    ensures LargestKey(files[i..j]) == files[j - 1].largest
  {
    LargestKeyIs(files[i..j]);
    hide LargestKey;
    var key := LargestKey(files[i..j]);
    var g :| g in files[i..j] && g.largest == key;
    var k :| i <= k < j && files[k] == g;
    assert files[i..j][j - 1 - i] == files[j - 1];
    assert files[j - 1] in files;
  }

  lemma NextFileIsTheBoundary(files: Level, i: nat, j: nat, f: File)
    requires OrderedFiles(files) && DisjointSorted(files) && i < j <= |files|
    requires f in files && IsBoundary(f, LargestKey(files[i..j]))
    requires forall g :: g in files && IsBoundary(g, LargestKey(files[i..j])) ==> !Before(g.smallest, f.smallest)
    ensures j < |files| && files[j] == f && files[i..j] + [f] == files[i..j + 1]
  {
    LargestOfRun(files, i, j);
    hide LargestKey;
    var key := LargestKey(files[i..j]);
    var m :| 0 <= m < |files| && files[m] == f;
    assert m >= j;
    if m > j {
      FileBetweenIsBoundary(files, j, m, key);
    }
  }

  lemma FileBetweenIsBoundary(files: Level, j: nat, m: nat, key: IKey)
    requires OrderedFiles(files) && DisjointSorted(files) && 0 < j < m < |files|
    requires files[j - 1].largest == key && IsBoundary(files[m], key)
    ensures files[j] in files && IsBoundary(files[j], key) && Before(files[j].smallest, files[m].smallest)
  {
    assert files[j] in files;
  }

  predicate OrderedFiles(files: Level) {
    forall f :: f in files ==> !Before(f.largest, f.smallest)
  }

  /** f continues the largest user key of these files, and starts before any other that does. */
  ghost predicate NextBoundary(levelFiles: Level, r: Level, f: File) {
    && r != [] && f in levelFiles && IsBoundary(f, LargestKey(r))
    && forall g :: g in levelFiles && IsBoundary(g, LargestKey(r)) ==> !Before(g.smallest, f.smallest)
  }

  /** Every file behind the chosen ones is the next boundary file of those before it. */
  ghost predicate AddsBoundaries(levelFiles: Level, chosen: Level, r: Level) {
    forall k :: |chosen| <= k < |r| ==> NextBoundary(levelFiles, r[..k], r[k])
  }

  /** The chosen files, and behind them one boundary file after another until there is none. */
  ghost predicate IsClosure(levelFiles: Level, chosen: Level, r: Level) {
    && |chosen| <= |r| && r[..|chosen|] == chosen && AddsBoundaries(levelFiles, chosen, r)
    && (r != [] ==> !HasBoundary(levelFiles, LargestKey(r)))
  }

  lemma AddsNextBoundary(levelFiles: Level, chosen: Level, r: Level, f: File)
    requires AddsBoundaries(levelFiles, chosen, r) && |chosen| <= |r| && NextBoundary(levelFiles, r, f)
    ensures AddsBoundaries(levelFiles, chosen, r + [f])
  {
    hide NextBoundary;
    var all := r + [f];
    forall k | |chosen| <= k < |all| ensures NextBoundary(levelFiles, all[..k], all[k]) {
      assert all[..k] == r[..k];
      assert k == |r| ==> all[..k] == r;
    }
  }

  /** Files of the level that AddBoundaryInputs may add to the chosen ones. */
  ghost predicate Grown(levelFiles: Level, chosen: Level, r: Level) {
    && AddsFrom(levelFiles, chosen, r) && AddsBoundaries(levelFiles, chosen, r)
    && (chosen != [] ==> r == chosen || HasBoundary(levelFiles, LargestKey(chosen)))
    && (DisjointSorted(levelFiles) && IsRun(levelFiles, chosen) ==> IsRun(levelFiles, r))
  }

  /** Nothing but files of the level is added, and none of them twice. */
  predicate AddsFrom(levelFiles: Level, chosen: Level, r: Level) {
    && |chosen| <= |r| && r[..|chosen|] == chosen
    && forall k :: |chosen| <= k < |r| ==> r[k] in levelFiles && r[k] !in r[..k]
  }

  lemma AddsOne(levelFiles: Level, chosen: Level, r: Level, f: File)
    requires AddsFrom(levelFiles, chosen, r) && f in levelFiles && f !in r
    ensures AddsFrom(levelFiles, chosen, r + [f])
  {
    var all := r + [f];
    assert all[..|chosen|] == r[..|chosen|];
    forall k | |chosen| <= k < |all| ensures all[k] in levelFiles && all[k] !in all[..k] {
      assert all[..k] == r[..k];
      assert k == |r| ==> all[..k] == r;
    }
  }

  lemma RunGrows(files: Level, r: Level, f: File)
    requires OrderedFiles(files) && DisjointSorted(files) && IsRun(files, r) && r != []
    requires f in files && IsBoundary(f, LargestKey(r))
    requires forall g :: g in files && IsBoundary(g, LargestKey(r)) ==> !Before(g.smallest, f.smallest)
    ensures IsRun(files, r + [f])
  {
    hide DisjointSorted, OrderedFiles, LargestKey, IsBoundary, Before;
    var i, j :| 0 <= i <= j <= |files| && r == files[i..j];
    NextFileIsTheBoundary(files, i, j, f);
  }

  lemma GrownByOne(levelFiles: Level, chosen: Level, r: Level, f: File)
    requires OrderedFiles(levelFiles) && Grown(levelFiles, chosen, r) && chosen != [] && r != []
    requires f in levelFiles && IsBoundary(f, LargestKey(r)) && f !in r
    requires forall g :: g in levelFiles && IsBoundary(g, LargestKey(r)) ==> !Before(g.smallest, f.smallest)
    ensures Grown(levelFiles, chosen, r + [f])
  {
    assert NextBoundary(levelFiles, r, f);
    hide DisjointSorted, OrderedFiles, LargestKey, IsRun, IsBoundary, Before, AddsBoundaries;
    AddsOne(levelFiles, chosen, r, f);
    AddsNextBoundary(levelFiles, chosen, r, f);
    hide AddsFrom;
    if DisjointSorted(levelFiles) && IsRun(levelFiles, chosen) {
      RunGrows(levelFiles, r, f);
    }
  }

  lemma BoundaryIsNew(r: Level, f: File)
    requires r != [] && IsBoundary(f, LargestKey(r)) && !Before(f.largest, f.smallest)
    ensures f !in r && LargestKey(r + [f]) == f.largest
  {
    LargestKeyIs(r);
    assert (r + [f])[..|r|] == r;
  }

  /** AddBoundaryInputs: keeps adding the file that continues the largest chosen user key.  It stops
      with no such file left in the level, adds no file twice and keeps a run of files a run. */
  method AddBoundaryInputs(levelFiles: Level, compactionFiles: Level) returns (r: Level)
    requires OrderedFiles(levelFiles)
    ensures compactionFiles == [] ==> r == []
    ensures |compactionFiles| <= |r| && r[..|compactionFiles|] == compactionFiles
    ensures forall k :: |compactionFiles| <= k < |r| ==> r[k] in levelFiles && r[k] !in r[..k]
    ensures r != [] ==> !HasBoundary(levelFiles, LargestKey(r))
    ensures compactionFiles != [] && !HasBoundary(levelFiles, LargestKey(compactionFiles)) ==> r == compactionFiles
    ensures DisjointSorted(levelFiles) && IsRun(levelFiles, compactionFiles) ==> IsRun(levelFiles, r)
    ensures IsClosure(levelFiles, compactionFiles, r)
  {
    r := compactionFiles;
    if compactionFiles == [] {
      return;
    }
    var smallestKey, largest := GetRange(compactionFiles);
    var continueSearching := true;
    while continueSearching
      invariant Grown(levelFiles, compactionFiles, r) && r != [] && largest == LargestKey(r)
      invariant !continueSearching ==> !HasBoundary(levelFiles, largest)
      decreases StartsAfter(levelFiles, largest), continueSearching
    {
      hide Grown, IsRun, DisjointSorted, LargestKey, IsBoundary, HasBoundary;
      var boundary := FindSmallestBoundaryFile(levelFiles, largest);
      if boundary.Some? {
        var f := boundary.value;
        BoundaryIsNew(r, f);
        GrownByOne(levelFiles, compactionFiles, r, f);
        FewerStartAfter(levelFiles, f, largest);
        r := r + [f];
        largest := f.largest;
      } else {
        continueSearching := false;
      }
    }
  }

  lemma FewerStartAfter(files: Level, f: File, key: IKey)
    requires f in files && IsBoundary(f, key) && !Before(f.largest, f.smallest)
    ensures StartsAfter(files, f.largest) < StartsAfter(files, key)
  {
    assert f in StartsAfter(files, key) && f !in StartsAfter(files, f.largest);
  }
}
