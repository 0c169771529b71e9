/** Wrapper types shared by the other modules. */
module Wrappers {
  datatype Option<+T> = None | Some(value: T)

  type Byte = x: int | 0 <= x < 0x100

  /** No element twice. */
  predicate Distinct<T(==)>(s: seq<T>) {
    forall i, j :: 0 <= i < j < |s| ==> s[i] != s[j]
  }

  lemma Regroup<T>(a: seq<T>, b: seq<T>, c: seq<T>)
    ensures a + b + c == a + (b + c)
  {
  }
}

/** Internal keys, stored entries, and what a read at a snapshot means.

    User keys are only ever compared through the comparator, which is an arbitrary total order
    chosen by the client.  Every countable total order embeds in the rationals, so a user key is
    represented here by its place in that order. */
module Entries {
  import opened Wrappers

  type UserKey = real
  type Value = seq<Byte>

  /** kTypeValue carries a value; kTypeDeletion is a tombstone. */
  datatype Op = Delete | Put(value: Value)

  datatype Entry = Entry(user: UserKey, seqno: nat, op: Op) {
    function Key(): IKey {
      IKey(user, seqno, TypeCode(op))
    }
  }

  /** An internal key: the user key and the two parts of its packed (sequence << 8 | type) tag. */
  datatype IKey = IKey(user: UserKey, seqno: nat, code: nat)

  const MAX_SEQUENCE: nat := 0xFF_FFFF_FFFF_FFFF
  const TYPE_FOR_SEEK: nat := 1

  function TypeCode(op: Op): nat {
    if op.Delete? then 0 else 1
  }

  function PackSequenceAndType(seqno: nat, code: nat): nat {
    seqno * 0x100 + code
  }

  /** The internal key that a read of `user` at snapshot `seqno` seeks to. */
  function SeekKey(user: UserKey, seqno: nat): IKey {
    IKey(user, seqno, TYPE_FOR_SEEK)
  }

  /** InternalKeyComparator: user keys ascending, then packed tags descending. */
  predicate Before(a: IKey, b: IKey) {
    || a.user < b.user
    || (a.user == b.user && (a.seqno > b.seqno || (a.seqno == b.seqno && a.code > b.code)))
  }

  /** Comparing sequence and type one after the other is comparing the packed tags. */
  lemma PackedOrder(a: IKey, b: IKey)
    requires a.code < 0x100 && b.code < 0x100
    ensures Before(a, b) <==>
            (a.user < b.user ||
             (a.user == b.user && PackSequenceAndType(a.seqno, a.code) > PackSequenceAndType(b.seqno, b.code)))
  {
  }

  /** The order of stored entries.  Every entry has its own sequence number, so the type never
      decides between two of them. */
  predicate Precedes(a: IKey, b: IKey) {
    a.user < b.user || (a.user == b.user && a.seqno > b.seqno)
  }

  predicate Sorted(entries: seq<Entry>) {
    forall i, j :: 0 <= i < j < |entries| ==> Precedes(entries[i].Key(), entries[j].Key())
  }

  ghost function EntrySet(entries: seq<Entry>): set<Entry> {
    set e | e in entries
  }

  /** The index of the first entry at or after `target`, or |entries| when there is none. */
  ghost predicate IsFirstAtOrAfter(entries: seq<Entry>, target: IKey, n: nat) {
    && n <= |entries|
    && (forall i :: 0 <= i < n ==> Before(entries[i].Key(), target))
    && (n < |entries| ==> !Before(entries[n].Key(), target))
  }

  /** No two entries of one user key share a sequence number. */
  ghost predicate DistinctSequences(s: set<Entry>) {
    forall a, b :: a in s && b in s && a.user == b.user && a.seqno == b.seqno ==> a == b
  }

  /** Every entry of `a` is newer than every entry of `b` for the same user key. */
  ghost predicate Newer(a: set<Entry>, b: set<Entry>) {
    forall x, y :: x in a && y in b && x.user == y.user ==> x.seqno > y.seqno
  }

  predicate VisibleTo(e: Entry, user: UserKey, snapshot: nat) {
    e.user == user && e.seqno <= snapshot
  }

  /** `e` is the newest entry of `user` that a reader at `snapshot` may see. */
  ghost predicate IsNewest(s: set<Entry>, user: UserKey, snapshot: nat, e: Entry) {
    && e in s
    && VisibleTo(e, user, snapshot)
    && forall x :: x in s && VisibleTo(x, user, snapshot) ==> x.seqno <= e.seqno
  }

  ghost function Newest(s: set<Entry>, user: UserKey, snapshot: nat): Option<Entry> {
    if exists e :: IsNewest(s, user, snapshot, e) then
      var e :| IsNewest(s, user, snapshot, e);
      Some(e)
    else
      None
  }

  function OpResult(e: Option<Entry>): Option<Value> {
    if e.Some? && e.value.op.Put? then Some(e.value.op.value) else None
  }

  /** The specification of a read: the value of the newest visible entry, if that is a put. */
  ghost function Read(s: set<Entry>, user: UserKey, snapshot: nat): Option<Value> {
    OpResult(Newest(s, user, snapshot))
  }

  ghost predicate NoneVisible(s: set<Entry>, user: UserKey, snapshot: nat) {
    forall e :: e in s ==> !VisibleTo(e, user, snapshot)
  }

  /** A visible entry exists exactly when a newest one does. */
  lemma {:induction false} NewestExists(s: set<Entry>, user: UserKey, snapshot: nat, x: Entry)
    requires x in s && VisibleTo(x, user, snapshot)
    ensures Newest(s, user, snapshot).Some?
    decreases s
  {
    if y :| y in s && VisibleTo(y, user, snapshot) && y.seqno > x.seqno {
      var t := set e | e in s && e.seqno > x.seqno;
      assert y in t && x !in t;
      assert t < s;
      NewestExists(t, user, snapshot, y);
      var m :| IsNewest(t, user, snapshot, m);
      assert IsNewest(s, user, snapshot, m);
    } else {
      assert IsNewest(s, user, snapshot, x);
    }
  }

  lemma NewestIs(s: set<Entry>, user: UserKey, snapshot: nat, e: Entry)
    requires DistinctSequences(s) && IsNewest(s, user, snapshot, e)
    ensures Newest(s, user, snapshot) == Some(e)
  {
    var m := Newest(s, user, snapshot).value;
    assert IsNewest(s, user, snapshot, m);
  }

  lemma NewestNone(s: set<Entry>, user: UserKey, snapshot: nat)
    ensures NoneVisible(s, user, snapshot) <==> Newest(s, user, snapshot) == None
  {
    if NoneVisible(s, user, snapshot) {
      assert forall e :: !IsNewest(s, user, snapshot, e);
    } else {
      var e :| e in s && VisibleTo(e, user, snapshot);
      NewestExists(s, user, snapshot, e);
    }
  }

  /** Adding only entries that are older, or invisible, does not change a read that already
      finds an entry. */
  lemma NewestInUnion(a: set<Entry>, b: set<Entry>, user: UserKey, snapshot: nat)
    requires DistinctSequences(a + b) && Newer(a, b)
    ensures var n := Newest(a, user, snapshot);
      Newest(a + b, user, snapshot) == if n.Some? then n else Newest(b, user, snapshot)
  {
    var n := Newest(a, user, snapshot);
    var m := Newest(b, user, snapshot);
    if n.Some? {
      assert IsNewest(a, user, snapshot, n.value);
      assert IsNewest(a + b, user, snapshot, n.value);
      NewestIs(a + b, user, snapshot, n.value);
    } else {
      NewestNone(a, user, snapshot);
      NewestNone(b, user, snapshot);
      if m.Some? {
        assert IsNewest(b, user, snapshot, m.value);
        assert IsNewest(a + b, user, snapshot, m.value);
        NewestIs(a + b, user, snapshot, m.value);
      } else {
        NewestNone(a + b, user, snapshot);
      }
    }
  }
}
