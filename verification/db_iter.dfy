/** DBIter: hides sequence numbers, older versions and deletion markers, in both directions
    (db_iter.cc). */
module DbIterators {
  import opened Wrappers
  import opened Entries
  import opened Versions

  // ---------------------------------------------------------------- what is iterated over

  predicate Visible(entries: seq<Entry>, snapshot: nat, i: nat)
    requires i < |entries|
  {
    entries[i].seqno <= snapshot
  }

  /** Entry i is what a reader at the snapshot sees for its user key: the newest visible entry of
      that key, and not a deletion marker. */
  ghost predicate Yields(entries: seq<Entry>, snapshot: nat, i: nat)
    requires i < |entries|
  {
    && Visible(entries, snapshot, i) && entries[i].op.Put?
    && forall j :: 0 <= j < i && entries[j].user == entries[i].user ==> !Visible(entries, snapshot, j)
  }

  ghost predicate NoneIn(entries: seq<Entry>, snapshot: nat, lo: nat, hi: nat)
    requires hi <= |entries|
  {
    forall k :: lo <= k < hi ==> !Yields(entries, snapshot, k)
  }

  /** The yielding entries are exactly the reads of the snapshot: one per live user key, in key
      order, with the value the read returns. */
  lemma YieldsAreReads(entries: seq<Entry>, snapshot: nat)
    requires Sorted(entries)
    ensures forall i :: 0 <= i < |entries| && Yields(entries, snapshot, i) ==>
      Read(EntrySet(entries), entries[i].user, snapshot) == Some(entries[i].op.value)
    ensures forall user :: Read(EntrySet(entries), user, snapshot).Some? ==>
      exists i :: 0 <= i < |entries| && entries[i].user == user && Yields(entries, snapshot, i)
    ensures forall i, j ::
      0 <= i < j < |entries| && Yields(entries, snapshot, i) && Yields(entries, snapshot, j) ==>
      entries[i].user < entries[j].user
  {
    SortedIsDistinct(entries);
    forall i | 0 <= i < |entries| && Yields(entries, snapshot, i)
      ensures Read(EntrySet(entries), entries[i].user, snapshot) == Some(entries[i].op.value)
    {
      YieldIsNewest(entries, snapshot, i);
    }
    forall user | Read(EntrySet(entries), user, snapshot).Some?
      ensures exists i :: 0 <= i < |entries| && entries[i].user == user && Yields(entries, snapshot, i)
    {
      var n := Newest(EntrySet(entries), user, snapshot).value;
      assert IsNewest(EntrySet(entries), user, snapshot, n);
      var i :| 0 <= i < |entries| && entries[i] == n;
      forall j | 0 <= j < i && entries[j].user == user ensures !Visible(entries, snapshot, j) {
        assert entries[j] in EntrySet(entries) && Precedes(entries[j].Key(), entries[i].Key());
      }
      assert Yields(entries, snapshot, i);
    }
    forall i, j | 0 <= i < j < |entries| && Yields(entries, snapshot, i) && Yields(entries, snapshot, j)
      ensures entries[i].user < entries[j].user
    {
      assert Precedes(entries[i].Key(), entries[j].Key());
    }
  }

  lemma YieldIsNewest(entries: seq<Entry>, snapshot: nat, i: nat)
    requires Sorted(entries) && i < |entries| && Yields(entries, snapshot, i)
    ensures Newest(EntrySet(entries), entries[i].user, snapshot) == Some(entries[i])
  {
    SortedIsDistinct(entries);
    forall x | x in EntrySet(entries) && VisibleTo(x, entries[i].user, snapshot) ensures x.seqno <= entries[i].seqno {
      var j :| 0 <= j < |entries| && entries[j] == x;
      if i < j {
        assert Precedes(entries[i].Key(), entries[j].Key());
      }
    }
    NewestIs(EntrySet(entries), entries[i].user, snapshot, entries[i]);
  }

  // ---------------------------------------------------------------- the internal iterator

  /** A cursor over entries in internal-key order.  It is not valid before the first call that
      positions it and after stepping off either end. */
  class InternalIterator {
    const entries: seq<Entry>
    var pos: nat

    constructor (entries: seq<Entry>)
      ensures this.entries == entries && !Valid()
    {
      this.entries := entries;
      pos := |entries|;
    }

    predicate Valid()
      reads this
    {
      pos < |entries|
    }

    method SeekToFirst()
      modifies this
      ensures pos == 0
    {
      pos := 0;
    }

    method SeekToLast()
      modifies this
      ensures pos == if |entries| > 0 then |entries| - 1 else 0
    {
      pos := if |entries| > 0 then |entries| - 1 else 0;
    }

    method Seek(target: IKey)
      requires Sorted(entries)
      modifies this
      ensures IsFirstAtOrAfter(entries, target, pos)
    {
      pos := FirstAtOrAfter(entries, target);
    }

    method Next()
      requires Valid()
      modifies this
      ensures pos == old(pos) + 1
    {
      pos := pos + 1;
    }

    method Prev()
      requires Valid()
      modifies this
      ensures pos == if old(pos) == 0 then |entries| else old(pos) - 1
    {
      pos := if pos == 0 then |entries| else pos - 1;
    }
  }

  // ---------------------------------------------------------------- DBIter

  datatype Direction = Forward | Reverse

  class DBIter {
    const iter: InternalIterator
    const snapshot: nat
    var savedKey: UserKey
    var savedValue: Value
    var direction: Direction
    var valid: bool
    /** The entry the iterator is at, when it is valid. */
    ghost var cur: nat

    /** Forward, the internal iterator is at the current entry.  In reverse it is before the entries
        of the current key, with only invisible entries in between. */
    ghost predicate Inv()
      reads this, iter
    {
      && Sorted(iter.entries)
      && iter.pos <= |iter.entries|
      && (valid ==>
        && cur < |iter.entries| && Yields(iter.entries, snapshot, cur)
        && (direction.Forward? ==> iter.pos == cur)
        && (direction.Reverse? ==>
          && savedKey == iter.entries[cur].user && savedValue == iter.entries[cur].op.value
          && JustBefore(iter.entries, snapshot, iter.pos, savedKey)))
    }

    constructor (iter: InternalIterator, snapshot: nat)
      requires Sorted(iter.entries) && iter.pos <= |iter.entries|
      ensures Inv() && !valid && this.iter == iter && this.snapshot == snapshot
    {
      this.iter, this.snapshot := iter, snapshot;
      savedKey, savedValue, direction, valid, cur := 0.0, [], Forward, false, 0;
    }

    function Key(): (k: UserKey)
      requires Inv() && valid
      reads this, iter
      ensures k == iter.entries[cur].user
    {
      if direction.Forward? then iter.entries[iter.pos].user else savedKey
    }

    function Value(): (v: Entries.Value)
      requires Inv() && valid
      reads this, iter
      ensures v == iter.entries[cur].op.value
    {
      if direction.Forward? then iter.entries[iter.pos].op.value else savedValue
    }

    /** The iterator is at the first yielding entry from `from` on; invalid when there is none. */
    ghost predicate AtFirstFrom(from: nat)
      reads this, iter
    {
      && from <= |iter.entries|
      && (valid ==> from <= cur < |iter.entries| && NoneIn(iter.entries, snapshot, from, cur))
      && (!valid ==> NoneIn(iter.entries, snapshot, from, |iter.entries|))
    }

    /** The iterator is at the last yielding entry before `to`; invalid when there is none. */
    ghost predicate AtLastBefore(to: nat)
      reads this, iter
    {
      && to <= |iter.entries|
      && (valid ==> cur < to && NoneIn(iter.entries, snapshot, cur + 1, to))
      && (!valid ==> NoneIn(iter.entries, snapshot, 0, to))
    }

    /** Scans forward to the first entry to yield, skipping keys up to savedKey when asked to. */
    method FindNextUserEntry(skipping: bool)
      requires Sorted(iter.entries) && iter.Valid() && direction.Forward?
      requires Unhidden(iter.entries, snapshot, iter.pos, skipping, savedKey)
      modifies this, iter
      ensures Inv() && direction.Forward?
      ensures AtFirstWanted(iter.entries, snapshot, old(iter.pos), skipping, old(savedKey), valid, cur)
    {
      var nowSkipping := skipping;
      ghost var start, skip := iter.pos, savedKey;
      while iter.Valid()
        invariant iter.pos <= |iter.entries| && start <= iter.pos && direction.Forward?
        invariant ScanForward(iter.entries, snapshot, start, iter.pos, skipping, skip, nowSkipping, savedKey)
        decreases |iter.entries| - iter.pos
      {
        var e := iter.entries[iter.pos];
        ScanForwardStep(iter.entries, snapshot, start, iter.pos, skipping, skip, nowSkipping, savedKey);
        if e.seqno <= snapshot {
          if e.op.Delete? {
            savedKey, nowSkipping := e.user, true;
          } else if nowSkipping && e.user <= savedKey {
          } else {
            valid, cur := true, iter.pos;
            return;
          }
        }
        iter.Next();
      }
      valid := false;
    }

    /** Scans backward for the last key with something to yield; its entries are read oldest first. */
    method FindPrevUserEntry()
      requires Sorted(iter.entries) && iter.pos <= |iter.entries| && direction.Reverse?
      modifies this, iter
      ensures Inv()
      ensures AtLastBefore(if old(iter.pos) < |iter.entries| then old(iter.pos) + 1 else 0)
    {
      ghost var entries := iter.entries;
      ghost var to := if iter.pos < |entries| then iter.pos + 1 else 0;
      var found := false;  // value_type != kTypeDeletion
      while iter.Valid()
        invariant iter.pos <= |entries| && direction.Reverse?
        invariant (if iter.pos < |entries| then iter.pos + 1 else 0) <= to
        invariant ScanBackward(entries, snapshot, if iter.pos < |entries| then iter.pos + 1 else 0, to,
                               found, savedKey, savedValue)
        decreases if iter.pos < |entries| then iter.pos + 1 else 0
      {
        var e := iter.entries[iter.pos];
        ScanBackwardStep(entries, snapshot, iter.pos, to, found, savedKey, savedValue);
        if e.seqno <= snapshot {
          if found && e.user < savedKey {
            break;
          }
          found := e.op.Put?;
          if found {
            savedKey, savedValue := e.user, e.op.value;
          }
        }
        iter.Prev();
      }
      if !found {
        valid, direction := false, Forward;
      } else {
        valid := true;
        cur := ScanBackwardDone(entries, snapshot, iter.pos, to, savedKey, savedValue);
      }
    }

    method Seek(target: UserKey)
      requires Inv()
      modifies this, iter
      ensures Inv()
      ensures valid ==> iter.entries[cur].user >= target
      ensures valid ==> forall k :: 0 <= k < cur && iter.entries[k].user >= target ==>
        !Yields(iter.entries, snapshot, k)
      ensures !valid ==> forall k :: 0 <= k < |iter.entries| && iter.entries[k].user >= target ==>
        !Yields(iter.entries, snapshot, k)
    {
      direction := Forward;
      savedKey := target;
      iter.Seek(SeekKey(target, snapshot));
      SeekStartsUnhidden(iter.entries, snapshot, target, iter.pos);
      ghost var start := iter.pos;
      if iter.Valid() {
        FindNextUserEntry(false);
        NothingSkipped(iter.entries, snapshot, start, target, valid, cur);
      } else {
        valid := false;
      }
    }

    method SeekToFirst()
      requires Inv()
      modifies this, iter
      ensures Inv() && AtFirstFrom(0)
    {
      direction := Forward;
      iter.SeekToFirst();
      ghost var skip := savedKey;
      if iter.Valid() {
        FindNextUserEntry(false);
        NothingSkipped(iter.entries, snapshot, 0, skip, valid, cur);
      } else {
        valid := false;
      }
    }

    method SeekToLast()
      requires Inv()
      modifies this, iter
      ensures Inv() && AtLastBefore(|iter.entries|)
    {
      direction := Reverse;
      iter.SeekToLast();
      FindPrevUserEntry();
    }

    /** Moves to the next live key, whichever way the iterator was moving. */
    method Next()
      requires Inv() && valid
      modifies this, iter
      ensures Inv() && AtFirstFrom(old(cur) + 1)
    {
      ghost var from := cur;
      if direction.Reverse? {
        direction := Forward;
        if !iter.Valid() {
          iter.SeekToFirst();
        } else {
          iter.Next();
        }
        assert iter.Valid();
        ReverseStartsUnhidden(iter.entries, snapshot, iter.pos, from);
      } else {
        savedKey := iter.entries[iter.pos].user;
        ForwardStartsUnhidden(iter.entries, snapshot, from);
      }
      ghost var start := iter.pos;
      FindNextUserEntry(true);
      FirstWantedIsNext(iter.entries, snapshot, start, from, valid, cur);
    }

    /** Moves to the previous live key, whichever way the iterator was moving. */
    method Prev()
      requires Inv() && valid
      modifies this, iter
      ensures Inv() && AtLastBefore(old(cur))
    {
      ghost var to := cur;
      if direction.Forward? {
        savedKey := iter.entries[iter.pos].user;
        while true
          invariant iter.Valid() && iter.pos <= to && valid && savedKey == iter.entries[to].user
          invariant forall k :: iter.pos <= k < to ==> iter.entries[k].user == savedKey
          decreases iter.pos
        {
          iter.Prev();
          if !iter.Valid() {
            OneYieldPerKey(iter.entries, snapshot, to, 0);
            valid := false;
            return;
          }
          if iter.entries[iter.pos].user < savedKey {
            break;
          }
          assert Precedes(iter.entries[iter.pos].Key(), iter.entries[to].Key());
        }
        direction := Reverse;
        OneYieldPerKey(iter.entries, snapshot, to, iter.pos + 1);
      } else {
        OneYieldPerKeyBefore(iter.entries, snapshot, to, iter.pos);
      }
      FindPrevUserEntry();
    }
  }

  /** Only invisible entries lie between the position and the entries of `user`. */
  ghost predicate JustBefore(entries: seq<Entry>, snapshot: nat, pos: nat, user: UserKey) {
    && pos <= |entries|
    && (pos < |entries| ==> entries[pos].user < user)
    && forall k :: (if pos < |entries| then pos + 1 else 0) <= k < |entries| && entries[k].user < user
         ==> !Visible(entries, snapshot, k)
  }

  /** A forward scan may start here: no entry at or after `pos` is hidden by one before it unless it
      is skipped, and nothing visible from here on comes before the skipped key. */
  ghost predicate Unhidden(entries: seq<Entry>, snapshot: nat, pos: nat, skipping: bool, skip: UserKey) {
    && (forall j, k ::
         0 <= j < pos <= k < |entries| && entries[j].user == entries[k].user && Visible(entries, snapshot, j) ==>
         skipping && entries[k].user <= skip)
    && (skipping ==> forall k :: pos <= k < |entries| && Visible(entries, snapshot, k) ==> skip <= entries[k].user)
  }

  ghost predicate Wanted(entries: seq<Entry>, snapshot: nat, skipping: bool, skip: UserKey, k: nat)
    requires k < |entries|
  {
    Yields(entries, snapshot, k) && !(skipping && entries[k].user <= skip)
  }

  ghost predicate AtFirstWanted(entries: seq<Entry>, snapshot: nat, start: nat, skipping: bool, skip: UserKey,
                                valid: bool, cur: nat) {
    && (valid ==>
      && start <= cur < |entries| && Wanted(entries, snapshot, skipping, skip, cur)
      && forall k :: start <= k < cur ==> !Wanted(entries, snapshot, skipping, skip, k))
    && (!valid ==> forall k :: start <= k < |entries| ==> !Wanted(entries, snapshot, skipping, skip, k))
  }

  /** What a forward scan knows at position i. */
  ghost predicate ScanForward(entries: seq<Entry>, snapshot: nat, start: nat, i: nat,
                              skipping0: bool, skip0: UserKey, skipping: bool, skip: UserKey) {
    && start <= i <= |entries|
    && (forall k :: start <= k < i ==> !Wanted(entries, snapshot, skipping0, skip0, k))
    && Unhidden(entries, snapshot, i, skipping, skip)
    && (skipping0 ==> skipping && skip0 <= skip)
    && (skipping ==> forall k ::
      i <= k < |entries| && Visible(entries, snapshot, k) && entries[k].user <= skip ==>
      !Wanted(entries, snapshot, skipping0, skip0, k))
  }

  lemma NothingSkipped(entries: seq<Entry>, snapshot: nat, start: nat, skip: UserKey, valid: bool, cur: nat)
    requires AtFirstWanted(entries, snapshot, start, false, skip, valid, cur)
    ensures valid ==> NoneIn(entries, snapshot, start, cur)
    ensures !valid ==> NoneIn(entries, snapshot, start, |entries|)
  {
    forall k | 0 <= k < |entries| ensures Wanted(entries, snapshot, false, skip, k) == Yields(entries, snapshot, k) {}
  }

  lemma LaterUsersAreNoSmaller(entries: seq<Entry>, i: nat)
    requires Sorted(entries) && i < |entries|
    ensures forall k :: i < k < |entries| ==> entries[i].user <= entries[k].user
  {
    forall k | i < k < |entries| ensures entries[i].user <= entries[k].user {
      assert Precedes(entries[i].Key(), entries[k].Key());
    }
  }

  /** One step of the forward scan, by what the entry at i is. */
  lemma ScanForwardStep(entries: seq<Entry>, snapshot: nat, start: nat, i: nat,
                        skipping0: bool, skip0: UserKey, skipping: bool, skip: UserKey)
    requires Sorted(entries) && i < |entries|
    requires ScanForward(entries, snapshot, start, i, skipping0, skip0, skipping, skip)
    ensures entries[i].seqno > snapshot || (entries[i].op.Put? && skipping && entries[i].user <= skip)
      ==> ScanForward(entries, snapshot, start, i + 1, skipping0, skip0, skipping, skip)
    ensures entries[i].seqno <= snapshot && entries[i].op.Delete?
      ==> ScanForward(entries, snapshot, start, i + 1, skipping0, skip0, true, entries[i].user)
    ensures entries[i].seqno <= snapshot && entries[i].op.Put? && !(skipping && entries[i].user <= skip)
      ==> Wanted(entries, snapshot, skipping0, skip0, i)
  {
    LaterUsersAreNoSmaller(entries, i);
    if entries[i].seqno <= snapshot && entries[i].op.Delete? {
      ScanPastDeletion(entries, snapshot, start, i, skipping0, skip0, skipping, skip);
    }
  }

  lemma ScanPastDeletion(entries: seq<Entry>, snapshot: nat, start: nat, i: nat,
                         skipping0: bool, skip0: UserKey, skipping: bool, skip: UserKey)
    requires i < |entries| && forall k :: i < k < |entries| ==> entries[i].user <= entries[k].user
    requires ScanForward(entries, snapshot, start, i, skipping0, skip0, skipping, skip)
    requires Visible(entries, snapshot, i) && entries[i].op.Delete?
    ensures ScanForward(entries, snapshot, start, i + 1, skipping0, skip0, true, entries[i].user)
  {
    forall k | i < k < |entries| && entries[k].user <= entries[i].user ensures !Yields(entries, snapshot, k) {}
  }

  /** The state of a backward scan that has read entries [i, to): `found` says whether
      the first visible of them is a put, which is then the saved key and value. */
  ghost predicate ScanBackward(entries: seq<Entry>, snapshot: nat, i: nat, to: nat, found: bool, key: UserKey,
                               value: Value) {
    && i <= to <= |entries|
    && (found ==> exists m: nat ::
      && IsFirstVisible(entries, snapshot, i, to, m)
      && entries[m].op == Put(value) && entries[m].user == key && NoneIn(entries, snapshot, m + 1, to))
    && (!found ==> NoneIn(entries, snapshot, i, to))
  }

  ghost predicate IsFirstVisible(entries: seq<Entry>, snapshot: nat, i: nat, to: nat, m: nat)
    requires to <= |entries|
  {
    i <= m < to && Visible(entries, snapshot, m) && forall k :: i <= k < m ==> !Visible(entries, snapshot, k)
  }

  lemma ScanBackwardStep(entries: seq<Entry>, snapshot: nat, p: nat, to: nat, found: bool, key: UserKey, value: Value)
    requires Sorted(entries) && p < |entries|
    requires ScanBackward(entries, snapshot, p + 1, to, found, key, value)
    ensures entries[p].seqno > snapshot ==> ScanBackward(entries, snapshot, p, to, found, key, value)
    ensures entries[p].seqno <= snapshot && !(found && entries[p].user < key) ==>
      ScanBackward(entries, snapshot, p, to, entries[p].op.Put?,
                   if entries[p].op.Put? then entries[p].user else key,
                   if entries[p].op.Put? then entries[p].op.value else value)
  {
    var e := entries[p];
    if found {
      var m: nat :| IsFirstVisible(entries, snapshot, p + 1, to, m)
        && entries[m].op == Put(value) && entries[m].user == key && NoneIn(entries, snapshot, m + 1, to);
      assert Precedes(entries[p].Key(), entries[m].Key());
      if e.seqno > snapshot {
        assert IsFirstVisible(entries, snapshot, p, to, m);
      } else if e.user == key {
        assert !Yields(entries, snapshot, m);
        assert NoneIn(entries, snapshot, p + 1, to);
      }
    }
    if e.seqno <= snapshot {
      assert IsFirstVisible(entries, snapshot, p, to, p);
    }
  }

  /** When the scan stops with a put saved, it is the last entry to yield before `to`. */
  lemma ScanBackwardDone(entries: seq<Entry>, snapshot: nat, pos: nat, to: nat, key: UserKey, value: Value)
    returns (m: nat)
    requires Sorted(entries) && pos <= |entries|
    requires ScanBackward(entries, snapshot, if pos < |entries| then pos + 1 else 0, to, true, key, value)
    requires pos < |entries| ==> entries[pos].user < key
    ensures m < to && Yields(entries, snapshot, m) && entries[m].user == key && entries[m].op == Put(value)
    ensures NoneIn(entries, snapshot, m + 1, to)
    ensures JustBefore(entries, snapshot, pos, key)
  {
    var i := if pos < |entries| then pos + 1 else 0;
    m :| IsFirstVisible(entries, snapshot, i, to, m)
      && entries[m].op == Put(value) && entries[m].user == key && NoneIn(entries, snapshot, m + 1, to);
    forall k | 0 <= k < |entries| && k != m ensures k < m ==> entries[k].user <= key
      ensures m < k ==> key <= entries[k].user
      ensures k < pos < |entries| ==> entries[k].user < key
    {
      assert Precedes(entries[k].Key(), entries[m].Key()) || Precedes(entries[m].Key(), entries[k].Key());
      if k < pos < |entries| {
        assert Precedes(entries[k].Key(), entries[pos].Key());
      }
    }
  }

  lemma SeekStartsUnhidden(entries: seq<Entry>, snapshot: nat, target: UserKey, pos: nat)
    requires Sorted(entries) && IsFirstAtOrAfter(entries, SeekKey(target, snapshot), pos)
    ensures Unhidden(entries, snapshot, pos, false, target)
    ensures forall k :: pos <= k < |entries| ==> entries[k].user >= target
    ensures forall k :: 0 <= k < pos && entries[k].user >= target ==> !Yields(entries, snapshot, k)
  {
    forall k | pos < k < |entries| ensures entries[k].user >= target {
      assert Precedes(entries[pos].Key(), entries[k].Key());
    }
  }

  lemma ForwardStartsUnhidden(entries: seq<Entry>, snapshot: nat, cur: nat)
    requires Sorted(entries) && cur < |entries| && Yields(entries, snapshot, cur)
    ensures Unhidden(entries, snapshot, cur, true, entries[cur].user)
  {
    forall k | 0 <= k < |entries| && k != cur
      ensures if k < cur then entries[k].user <= entries[cur].user else entries[cur].user <= entries[k].user
    {
      assert Precedes(entries[k].Key(), entries[cur].Key()) || Precedes(entries[cur].Key(), entries[k].Key());
    }
  }

  lemma ReverseStartsUnhidden(entries: seq<Entry>, snapshot: nat, pos: nat, cur: nat)
    requires Sorted(entries) && cur < |entries| && Yields(entries, snapshot, cur) && pos <= cur
    requires forall k :: pos <= k < |entries| && entries[k].user < entries[cur].user ==> !Visible(entries, snapshot, k)
    requires pos > 0 ==> entries[pos - 1].user < entries[cur].user
    ensures Unhidden(entries, snapshot, pos, true, entries[cur].user)
  {
    forall j, k | 0 <= j < pos <= k < |entries| && entries[j].user == entries[k].user
      ensures entries[k].user <= entries[cur].user
    {
      assert j == pos - 1 || Precedes(entries[j].Key(), entries[pos - 1].Key());
    }
  }

  /** After skipping the current key, the first wanted entry is the next one to yield. */
  lemma FirstWantedIsNext(entries: seq<Entry>, snapshot: nat, start: nat, from: nat, valid: bool, cur: nat)
    requires Sorted(entries) && from < |entries| && Yields(entries, snapshot, from) && start <= from
    requires AtFirstWanted(entries, snapshot, start, true, entries[from].user, valid, cur)
    ensures valid ==> from < cur && NoneIn(entries, snapshot, from + 1, cur)
    ensures !valid ==> NoneIn(entries, snapshot, from + 1, |entries|)
  {
    forall k | 0 <= k < |entries| && k != from
      ensures if k < from then entries[k].user <= entries[from].user else
              Yields(entries, snapshot, k) ==> Wanted(entries, snapshot, true, entries[from].user, k)
    {
      assert Precedes(entries[k].Key(), entries[from].Key()) || Precedes(entries[from].Key(), entries[k].Key());
    }
  }

  /** No entry of the current key before the current one yields. */
  lemma OneYieldPerKey(entries: seq<Entry>, snapshot: nat, cur: nat, first: nat)
    requires cur < |entries| && Yields(entries, snapshot, cur)
    requires forall k :: first <= k < cur ==> entries[k].user == entries[cur].user
    ensures NoneIn(entries, snapshot, first, cur)
  {
  }

  lemma OneYieldPerKeyBefore(entries: seq<Entry>, snapshot: nat, cur: nat, pos: nat)
    requires Sorted(entries) && cur < |entries| && Yields(entries, snapshot, cur)
    requires JustBefore(entries, snapshot, pos, entries[cur].user)
    ensures NoneIn(entries, snapshot, if pos < |entries| then pos + 1 else 0, cur)
    ensures pos < |entries| ==> pos < cur
  {
    forall k | 0 <= k < cur ensures entries[k].user <= entries[cur].user {
      assert Precedes(entries[k].Key(), entries[cur].Key());
    }
    LaterUsersAreNoSmaller(entries, cur);
  }
}
