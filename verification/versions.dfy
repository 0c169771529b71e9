/** Table files, levels and versions, and the read path through them (version_set.cc). */
module Versions {
  import opened Wrappers
  import opened Entries

  const NUM_LEVELS := 7
  const MAX_MEM_COMPACT_LEVEL := 2

  /** FileMetaData, with the entries the table file stores. */
  datatype File = File(number: nat, size: nat, smallest: IKey, largest: IKey, entries: seq<Entry>) {
    predicate Valid() {
      && entries != []
      && Sorted(entries)
      && smallest == entries[0].Key()
      && largest == entries[|entries| - 1].Key()
      && forall e :: e in entries ==> e.seqno <= MAX_SEQUENCE
    }
  }

  type Level = seq<File>
  type Version = v: seq<Level> | |v| == NUM_LEVELS witness [[], [], [], [], [], [], []]

  predicate ValidFiles(files: Level) {
    forall f :: f in files ==> f.Valid()
  }

  ghost function FileEntries(f: File): set<Entry> {
    EntrySet(f.entries)
  }

  ghost function LevelEntries(files: Level): set<Entry> {
    set f, e | f in files && e in f.entries :: e
  }

  ghost function VersionEntries(v: Version): set<Entry> {
    set l, e | 0 <= l < NUM_LEVELS && e in LevelEntries(v[l]) :: e
  }

  predicate DisjointSorted(files: Level) {
    forall i, j :: 0 <= i < j < |files| ==> Precedes(files[i].largest, files[j].smallest)
  }

  /** VersionSet::Builder::BySmallestKey: by smallest key, ties broken by number. */
  predicate BySmallestKey(f: File, g: File) {
    Before(f.smallest, g.smallest) || (f.smallest == g.smallest && f.number < g.number)
  }

  predicate SortedBySmallest(files: Level) {
    forall i, j :: 0 <= i < j < |files| ==> BySmallestKey(files[i], files[j])
  }

  ghost predicate DistinctNumbers(files: Level) {
    forall f, g :: f in files && g in files && f.number == g.number ==> f == g
  }

  /** Higher-numbered level-0 files hold strictly newer entries. */
  ghost predicate NewestFileFirst(files: Level) {
    forall f, g :: f in files && g in files && f.number > g.number ==> Newer(FileEntries(f), FileEntries(g))
  }

  ghost predicate ShallowerIsNewer(v: Version) {
    forall a, b :: 0 <= a < b < NUM_LEVELS ==> Newer(LevelEntries(v[a]), LevelEntries(v[b]))
  }

  /** The invariant that Version::Get relies on. */
  ghost predicate WellFormed(v: Version) {
    && (forall l :: 0 <= l < NUM_LEVELS ==> ValidFiles(v[l]) && SortedBySmallest(v[l]) && DistinctNumbers(v[l]))
    && (forall l :: 1 <= l < NUM_LEVELS ==> DisjointSorted(v[l]))
    && NewestFileFirst(v[0])
    && ShallowerIsNewer(v)
  }

  predicate InUserRange(f: File, user: UserKey) {
    f.smallest.user <= user <= f.largest.user
  }

  lemma EntriesWithinFile(f: File, e: Entry)
    requires f.Valid() && e in f.entries
    ensures e.Key() == f.smallest || Precedes(f.smallest, e.Key())
    ensures e.Key() == f.largest || Precedes(e.Key(), f.largest)
    ensures InUserRange(f, e.user)
  {
    var i :| 0 <= i < |f.entries| && f.entries[i] == e;
  }

  lemma FileIsOrdered(f: File)
    requires f.Valid()
    ensures !Before(f.largest, f.smallest)
    ensures f.smallest.seqno <= MAX_SEQUENCE && f.largest.seqno <= MAX_SEQUENCE
  {
    EntriesWithinFile(f, f.entries[0]);
    assert f.entries[|f.entries| - 1] in f.entries;
  }

  // ---------------------------------------------------------------- searching one table

  function FirstAtOrAfter(entries: seq<Entry>, target: IKey): (n: nat)
    requires Sorted(entries)
    ensures IsFirstAtOrAfter(entries, target, n)
  {
    if entries == [] then 0
    else if Before(entries[|entries| - 1].Key(), target) then |entries|
    else FirstAtOrAfter(entries[..|entries| - 1], target)
  }

  /** TableCache::Get followed by SaveValue: the first entry at or after the lookup key, if it
      belongs to the user key. */
  function TableGet(f: File, user: UserKey, snapshot: nat): (r: Option<Entry>)
    requires f.Valid()
    ensures r == Newest(FileEntries(f), user, snapshot)
  {
    var n := FirstAtOrAfter(f.entries, SeekKey(user, snapshot));
    FirstAtOrAfterIsNewest(f.entries, user, snapshot, n);
    if n < |f.entries| && f.entries[n].user == user then Some(f.entries[n]) else None
  }

  lemma SortedIsDistinct(entries: seq<Entry>)
    requires Sorted(entries)
    ensures DistinctSequences(EntrySet(entries))
  {
    forall a, b | a in entries && b in entries && a.user == b.user && a.seqno == b.seqno ensures a == b {
      var i :| 0 <= i < |entries| && entries[i] == a;
      var j :| 0 <= j < |entries| && entries[j] == b;
    }
  }

  /** In internal-key order the seek target's successor is the newest visible entry, if any is. */
  lemma FirstAtOrAfterIsNewest(entries: seq<Entry>, user: UserKey, snapshot: nat, n: nat)
    requires Sorted(entries)
    requires IsFirstAtOrAfter(entries, SeekKey(user, snapshot), n)
    ensures Newest(EntrySet(entries), user, snapshot)
         == if n < |entries| && entries[n].user == user then Some(entries[n]) else None
  {
    SortedIsDistinct(entries);
    if n < |entries| && entries[n].user == user {
      NewestIs(EntrySet(entries), user, snapshot, entries[n]);
    } else {
      NewestNone(EntrySet(entries), user, snapshot);
    }
  }

  // ---------------------------------------------------------------- searching one level

  /** The least index whose file's largest key is at or after `key`; |files| when there is none. */
  method FindFile(files: Level, key: IKey) returns (index: nat)
    requires ValidFiles(files) && DisjointSorted(files)
    ensures index <= |files|
    ensures forall i :: 0 <= i < index ==> Before(files[i].largest, key)
    ensures forall i :: index <= i < |files| ==> !Before(files[i].largest, key)
  {
    forall i, j | 0 <= i < j < |files| ensures Before(files[i].largest, files[j].largest) {
      FileIsOrdered(files[j]);
    }
    var left, right := 0, |files|;
    while left < right
      invariant left <= right <= |files|
      invariant forall i :: 0 <= i < left ==> Before(files[i].largest, key)
      invariant forall i :: right <= i < |files| ==> !Before(files[i].largest, key)
    {
      var mid := (left + right) / 2;
      if Before(files[mid].largest, key) {
        left := mid + 1;
      } else {
        right := mid;
      }
    }
    return right;
  }

  /** None stands for a null user key, which lies before every key as a lower end ... */
  predicate AfterFile(user: Option<UserKey>, f: File) {
    user.Some? && user.value > f.largest.user
  }

  /** ... and after every key as an upper end. */
  predicate BeforeFile(user: Option<UserKey>, f: File) {
    user.Some? && user.value < f.smallest.user
  }

  /** `f` meets the range of user keys [lo, hi]. */
  predicate Overlaps(f: File, lo: Option<UserKey>, hi: Option<UserKey>) {
    !AfterFile(lo, f) && !BeforeFile(hi, f)
  }

  method SomeFileOverlapsRange(disjointSorted: bool, files: Level, lo: Option<UserKey>, hi: Option<UserKey>)
    returns (r: bool)
    requires disjointSorted ==> ValidFiles(files) && DisjointSorted(files)
    ensures r <==> exists f :: f in files && Overlaps(f, lo, hi)
  {
    if !disjointSorted {
      for i := 0 to |files|
        invariant forall k :: 0 <= k < i ==> !Overlaps(files[k], lo, hi)
      {
        if !(AfterFile(lo, files[i]) || BeforeFile(hi, files[i])) {
          assert Overlaps(files[i], lo, hi);
          return true;
        }
      }
      return false;
    }
    var index := 0;
    if lo.Some? {
      index := FindFile(files, SeekKey(lo.value, MAX_SEQUENCE));
    }
    forall i | 0 <= i < |files| ensures AfterFile(lo, files[i]) <==> i < index {
      FileIsOrdered(files[i]);
    }
    if index >= |files| {
      return false;
    }
    forall i | index < i < |files| ensures BeforeFile(hi, files[index]) ==> BeforeFile(hi, files[i]) {
      FileIsOrdered(files[index]);
    }
    r := !BeforeFile(hi, files[index]);
    assert r ==> Overlaps(files[index], lo, hi) && files[index] in files;
  }

  // ---------------------------------------------------------------- Version::Get

  /** NewestFirst: descending file number. */
  predicate NewestFirst(files: Level) {
    forall i, j :: 0 <= i < j < |files| ==> files[i].number > files[j].number
  }

  function InsertNewestFirst(f: File, files: Level): (r: Level)
    requires NewestFirst(files) && forall g :: g in files ==> g.number != f.number
    ensures NewestFirst(r)
    ensures forall g :: g in r <==> g == f || g in files
  {
    if files == [] || f.number > files[0].number then [f] + files
    else
      var rest := InsertNewestFirst(f, files[1..]);
      assert forall k :: 0 <= k < |rest| ==> rest[k] in rest && rest[k].number < files[0].number;
      [files[0]] + rest
  }

  /** The files of a level-0 list whose range holds `user`, newest first. */
  method OverlappingNewestFirst(files: Level, user: UserKey) returns (r: Level)
    requires SortedBySmallest(files) && DistinctNumbers(files)
    ensures NewestFirst(r)
    ensures forall f :: f in r <==> f in files && InUserRange(f, user)
  {
    r := [];
    for i := 0 to |files|
      invariant NewestFirst(r)
      invariant forall f :: f in r <==> f in files[..i] && InUserRange(f, user)
    {
      if InUserRange(files[i], user) {
        forall g | g in r ensures g.number != files[i].number {
          var k :| 0 <= k < i && files[k] == g;
          assert BySmallestKey(files[k], files[i]);
        }
        r := InsertNewestFirst(files[i], r);
      }
    }
    assert files[..|files|] == files;
  }

  lemma LevelHit(files: Level, f: File, user: UserKey, snapshot: nat, e: Entry)
    requires f in files && IsNewest(FileEntries(f), user, snapshot, e)
    requires forall g :: g in files && g != f ==>
      NoneVisible(FileEntries(g), user, snapshot) || Newer(FileEntries(f), FileEntries(g))
    ensures IsNewest(LevelEntries(files), user, snapshot, e)
  {
    forall x | x in LevelEntries(files) && VisibleTo(x, user, snapshot) ensures x.seqno <= e.seqno {
      var g :| g in files && x in g.entries;
      assert x in FileEntries(g);
    }
  }

  /** In a disjoint level, only the file found by FindFile can hold an entry visible to the read. */
  lemma OneFilePerLevel(files: Level, index: nat, user: UserKey, snapshot: nat)
    requires ValidFiles(files) && DisjointSorted(files) && index <= |files|
    requires forall i :: 0 <= i < index ==> Before(files[i].largest, SeekKey(user, snapshot))
    requires index < |files| ==> !Before(files[index].largest, SeekKey(user, snapshot))
    ensures forall i :: 0 <= i < index ==> NoneVisible(FileEntries(files[i]), user, snapshot)
    ensures index < |files| && (user < files[index].smallest.user
            || NoneVisible(FileEntries(files[index]), user, snapshot))
        ==> NoneVisible(LevelEntries(files), user, snapshot)
    ensures index == |files| ==> NoneVisible(LevelEntries(files), user, snapshot)
  {
    forall i, e | 0 <= i < index && e in FileEntries(files[i]) ensures !VisibleTo(e, user, snapshot) {
      EntriesWithinFile(files[i], e);
    }
    forall e | e in LevelEntries(files) && VisibleTo(e, user, snapshot)
      ensures index < |files| && user >= files[index].smallest.user
           && !NoneVisible(FileEntries(files[index]), user, snapshot)
    {
      var g :| g in files && e in g.entries;
      var i :| 0 <= i < |files| && files[i] == g;
      assert e in FileEntries(g);
      EntriesWithinFile(g, e);
      if i > index {
        assert files[index].Valid();
        var last := files[index].entries[|files[index].entries| - 1];
        assert last in FileEntries(files[index]);
        assert Precedes(last.Key(), e.Key());
      } else if i == index {
        assert files[index].Valid();
      }
    }
  }

  lemma OutsideRangeNoneVisible(f: File, user: UserKey, snapshot: nat)
    requires f.Valid() && !InUserRange(f, user)
    ensures NoneVisible(FileEntries(f), user, snapshot)
  {
    forall e | e in FileEntries(f) ensures !VisibleTo(e, user, snapshot) {
      EntriesWithinFile(f, e);
    }
  }

  /** A level-0 file that answers after every newer overlapping file missed holds the level's newest. */
  lemma LevelZeroHit(files: Level, hits: Level, i: nat, user: UserKey, snapshot: nat, e: Entry)
    requires ValidFiles(files) && NewestFileFirst(files) && DistinctNumbers(files)
    requires NewestFirst(hits) && forall f :: f in hits <==> f in files && InUserRange(f, user)
    requires i < |hits| && IsNewest(FileEntries(hits[i]), user, snapshot, e)
    requires forall k :: 0 <= k < i ==> NoneVisible(FileEntries(hits[k]), user, snapshot)
    ensures IsNewest(LevelEntries(files), user, snapshot, e)
  {
    forall g | g in files && g != hits[i]
      ensures NoneVisible(FileEntries(g), user, snapshot) || Newer(FileEntries(hits[i]), FileEntries(g))
    {
      if InUserRange(g, user) {
        assert g in hits;
        var k :| 0 <= k < |hits| && hits[k] == g;
        if k > i {
          assert hits[i].number > hits[k].number;
          assert hits[i] in files && hits[k] in files;
        }
      } else {
        OutsideRangeNoneVisible(g, user, snapshot);
      }
    }
    LevelHit(files, hits[i], user, snapshot, e);
  }

  lemma LevelZeroMiss(files: Level, hits: Level, user: UserKey, snapshot: nat)
    requires ValidFiles(files)
    requires forall f :: f in hits <==> f in files && InUserRange(f, user)
    requires forall k :: 0 <= k < |hits| ==> NoneVisible(FileEntries(hits[k]), user, snapshot)
    ensures NoneVisible(LevelEntries(files), user, snapshot)
  {
    forall e | e in LevelEntries(files) ensures !VisibleTo(e, user, snapshot) {
      var g :| g in files && e in g.entries;
      assert e in FileEntries(g);
      if InUserRange(g, user) {
        assert g in hits;
      } else {
        OutsideRangeNoneVisible(g, user, snapshot);
      }
    }
  }

  lemma DisjointHit(files: Level, index: nat, user: UserKey, snapshot: nat, e: Entry)
    requires ValidFiles(files) && DisjointSorted(files) && index < |files|
    requires forall i :: 0 <= i < index ==> NoneVisible(FileEntries(files[i]), user, snapshot)
    requires IsNewest(FileEntries(files[index]), user, snapshot, e)
    ensures IsNewest(LevelEntries(files), user, snapshot, e)
  {
    forall g | g in files && g != files[index]
      ensures NoneVisible(FileEntries(g), user, snapshot) || Newer(FileEntries(files[index]), FileEntries(g))
    {
      var j :| 0 <= j < |files| && files[j] == g;
      if index < j {
        EarlierFileIsNewer(files, index, j);
      }
    }
    LevelHit(files, files[index], user, snapshot, e);
  }

  lemma EarlierFileIsNewer(files: Level, i: nat, j: nat)
    requires ValidFiles(files) && DisjointSorted(files) && i < j < |files|
    ensures Newer(FileEntries(files[i]), FileEntries(files[j]))
  {
    forall x, y | x in FileEntries(files[i]) && y in FileEntries(files[j]) && x.user == y.user
      ensures x.seqno > y.seqno
    {
      EntriesWithinFile(files[i], x);
      EntriesWithinFile(files[j], y);
    }
  }

  lemma VersionHit(v: Version, level: nat, user: UserKey, snapshot: nat, e: Entry)
    requires WellFormed(v) && level < NUM_LEVELS
    requires forall l :: 0 <= l < level ==> NoneVisible(LevelEntries(v[l]), user, snapshot)
    requires IsNewest(LevelEntries(v[level]), user, snapshot, e)
    ensures IsNewest(VersionEntries(v), user, snapshot, e)
  {
    hide WellFormed, LevelEntries;
    assert e in VersionEntries(v);
    forall x | x in VersionEntries(v) && VisibleTo(x, user, snapshot) ensures x.seqno <= e.seqno {
      var l :| 0 <= l < NUM_LEVELS && x in LevelEntries(v[l]);
      if l > level {
        DeeperIsOlder(v, level, l, e, x);
      }
    }
  }

  lemma DeeperIsOlder(v: Version, a: nat, b: nat, x: Entry, y: Entry)
    requires WellFormed(v) && a < b < NUM_LEVELS
    requires x in LevelEntries(v[a]) && y in LevelEntries(v[b]) && x.user == y.user
    ensures x.seqno > y.seqno
  {
    hide LevelEntries;
    assert Newer(LevelEntries(v[a]), LevelEntries(v[b]));
  }

  lemma VersionDistinct(v: Version)
    requires WellFormed(v)
    ensures DistinctSequences(VersionEntries(v))
  {
    forall a, b | a in VersionEntries(v) && b in VersionEntries(v) && a.user == b.user && a.seqno == b.seqno
      ensures a == b
    {
      var k :| 0 <= k < NUM_LEVELS && a in LevelEntries(v[k]);
      var l :| 0 <= l < NUM_LEVELS && b in LevelEntries(v[l]);
      assert k == l;
      LevelDistinct(v[k], k);
    }
  }

  lemma LevelDistinct(files: Level, level: nat)
    requires ValidFiles(files)
    requires level == 0 ==> DistinctNumbers(files) && NewestFileFirst(files)
    requires level > 0 ==> DisjointSorted(files)
    ensures DistinctSequences(LevelEntries(files))
  {
    forall a, b | a in LevelEntries(files) && b in LevelEntries(files) && a.user == b.user && a.seqno == b.seqno
      ensures a == b
    {
      var i :| 0 <= i < |files| && a in files[i].entries;
      var j :| 0 <= j < |files| && b in files[j].entries;
      assert a in FileEntries(files[i]) && b in FileEntries(files[j]);
      if files[i] == files[j] {
        assert files[i].Valid();
        SortedIsDistinct(files[i].entries);
      } else if level == 0 {
      } else if i < j {
        EarlierFileIsNewer(files, i, j);
      } else {
        EarlierFileIsNewer(files, j, i);
      }
    }
  }

  /** The inner loop of Version::Get: the candidate files, in order, until one answers. */
  method SearchFiles(files: Level, user: UserKey, snapshot: nat) returns (r: Option<Entry>, ghost hit: nat)
    requires ValidFiles(files)
    ensures hit <= |files| && (r.Some? <==> hit < |files|)
    ensures forall k :: 0 <= k < hit ==> NoneVisible(FileEntries(files[k]), user, snapshot)
    ensures r.Some? ==> IsNewest(FileEntries(files[hit]), user, snapshot, r.value)
  {
    for i := 0 to |files|
      invariant forall k :: 0 <= k < i ==> NoneVisible(FileEntries(files[k]), user, snapshot)
    {
      assert files[i].Valid();
      r := TableGet(files[i], user, snapshot);
      NewestNone(FileEntries(files[i]), user, snapshot);
      if r.Some? {
        return r, i;
      }
    }
    return None, |files|;
  }

  method SearchLevelZero(files: Level, user: UserKey, snapshot: nat) returns (r: Option<Entry>)
    requires ValidFiles(files) && SortedBySmallest(files) && DistinctNumbers(files) && NewestFileFirst(files)
    ensures r == Newest(LevelEntries(files), user, snapshot)
  {
    var hits := OverlappingNewestFirst(files, user);
    ghost var hit;
    r, hit := SearchFiles(hits, user, snapshot);
    LevelDistinct(files, 0);
    if r.Some? {
      LevelZeroHit(files, hits, hit, user, snapshot, r.value);
      NewestIs(LevelEntries(files), user, snapshot, r.value);
    } else {
      LevelZeroMiss(files, hits, user, snapshot);
      NewestNone(LevelEntries(files), user, snapshot);
    }
  }

  method SearchDisjointLevel(files: Level, user: UserKey, snapshot: nat) returns (r: Option<Entry>)
    requires ValidFiles(files) && DisjointSorted(files)
    ensures r == Newest(LevelEntries(files), user, snapshot)
  {
    var index := FindFile(files, SeekKey(user, snapshot));
    OneFilePerLevel(files, index, user, snapshot);
    NewestNone(LevelEntries(files), user, snapshot);
    if index >= |files| || user < files[index].smallest.user {
      return None;
    }
    ghost var hit;
    r, hit := SearchFiles([files[index]], user, snapshot);
    if r.Some? {
      DisjointHit(files, index, user, snapshot, r.value);
      LevelDistinct(files, 1);
      NewestIs(LevelEntries(files), user, snapshot, r.value);
    } else {
      assert NoneVisible(FileEntries([files[index]][0]), user, snapshot);
    }
  }

  /** Version::Get reads level by level, one file per level from level 1 on, and stops at the first
      entry it finds; it answers exactly what a read of all the version's entries would. */
  method Get(v: Version, user: UserKey, snapshot: nat) returns (r: Option<Entry>)
    requires WellFormed(v)
    ensures r == Newest(VersionEntries(v), user, snapshot)
  {
    VersionDistinct(v);
    for level := 0 to NUM_LEVELS
      invariant forall l :: 0 <= l < level ==> NoneVisible(LevelEntries(v[l]), user, snapshot)
    {
      if level == 0 {
        r := SearchLevelZero(v[0], user, snapshot);
      } else {
        r := SearchDisjointLevel(v[level], user, snapshot);
      }
      if r.Some? {
        assert IsNewest(LevelEntries(v[level]), user, snapshot, r.value);
        VersionHit(v, level, user, snapshot, r.value);
        NewestIs(VersionEntries(v), user, snapshot, r.value);
        return;
      }
      NewestNone(LevelEntries(v[level]), user, snapshot);
    }
    forall e | e in VersionEntries(v) ensures !VisibleTo(e, user, snapshot) {
      var l :| 0 <= l < NUM_LEVELS && e in LevelEntries(v[l]);
    }
    NewestNone(VersionEntries(v), user, snapshot);
    r := None;
  }
}
