/** A lookup in a table's bytes is the lookup that a version makes in a file's entries
    (db/table_cache.cc, db/version_set.cc SaveValue). */
module TableGets {
  import opened Wrappers
  import opened Coding
  import opened Comparators
  import opened Entries
  import opened UserKeys
  import opened Blocks
  import opened Tables
  import opened TableReaders
  import Versions

  /** A pair whose key is an internal key of a known type. */
  predicate Typed(p: Pair) {
    IsInternal(p.key) && KeyOf(p.key).code <= 1
  }

  /** The entry that a pair stores. */
  function EntryOf(p: Pair): Entry {
    Entry(KeyOf(p.key).user, KeyOf(p.key).seqno, if KeyOf(p.key).code == 1 then Put(p.value) else Delete)
  }

  function EntriesOf(pairs: seq<Pair>): (r: seq<Entry>)
    ensures |r| == |pairs|
  {
    seq(|pairs|, i requires 0 <= i < |pairs| => EntryOf(pairs[i]))
  }

  predicate AllTyped(pairs: seq<Pair>) {
    forall i :: 0 <= i < |pairs| ==> Typed(pairs[i])
  }

  lemma EntryKey(p: Pair)
    requires Typed(p)
    ensures EntryOf(p).Key() == KeyOf(p.key) && EntryOf(p).seqno <= MAX_SEQUENCE
  {
    hide KeyOf;
    TagsOf(p.key);
  }

  // ---------------------------------------------------------------- a table is a file of entries

  /** No two pairs are for the same user key and sequence number. */
  predicate OnePerSequence(pairs: seq<Pair>) {
    forall i, j :: 0 <= i < j < |pairs| ==>
      KeyOf(pairs[i].key).user != KeyOf(pairs[j].key).user || KeyOf(pairs[i].key).seqno != KeyOf(pairs[j].key).seqno
  }

  /** The file of these pairs. */
  function FileOf(number: nat, size: nat, pairs: seq<Pair>): Versions.File
    requires pairs != []
  {
    Versions.File(number, size, KeyOf(pairs[0].key), KeyOf(pairs[|pairs| - 1].key), EntriesOf(pairs))
  }

  lemma PairsInOrder(pairs: seq<Pair>, i: nat, j: nat)
    requires KeysOk(pairs) && AllTyped(pairs) && OnePerSequence(pairs) && i < j < |pairs|
    ensures Precedes(EntriesOf(pairs)[i].Key(), EntriesOf(pairs)[j].Key())
  {
    hide KeyOf, InternalLess, EntryOf;
    assert Typed(pairs[i]) && Typed(pairs[j]);
    EntryKey(pairs[i]);
    EntryKey(pairs[j]);
    SameOrder(pairs[i].key, pairs[j].key);
  }

  /** Whatever byte strings its user keys are, a table of typed entries, one per user key and sequence
      number, is a valid file of a version. */
  lemma TableIsFile(blocks: seq<TableBlock>, seps: seq<Bytes>, number: nat, size: nat)
    requires TableOk(blocks, seps) && blocks != []
    requires AllTyped(All(blocks)) && OnePerSequence(All(blocks))
    ensures All(blocks) != [] && FileOf(number, size, All(blocks)).Valid()
  {
    hide *;
    AllAscends(blocks, seps, |blocks|);
    assert blocks[..|blocks|] == blocks;
    PairsAreFile(number, size, All(blocks));
  }

  lemma PairsAreFile(number: nat, size: nat, pairs: seq<Pair>)
    requires KeysOk(pairs) && pairs != [] && AllTyped(pairs) && OnePerSequence(pairs)
    ensures FileOf(number, size, pairs).Valid()
  {
    hide KeyOf, InternalLess, KeysOk, OnePerSequence, Precedes;
    var entries := EntriesOf(pairs);
    forall i, j | 0 <= i < j < |entries| ensures Precedes(entries[i].Key(), entries[j].Key()) {
      PairsInOrder(pairs, i, j);
    }
    forall e | e in entries ensures e.seqno <= MAX_SEQUENCE {
      var i :| 0 <= i < |entries| && entries[i] == e;
      assert Typed(pairs[i]);
      EntryKey(pairs[i]);
    }
    var n := |pairs| - 1;
    assert Typed(pairs[0]) && Typed(pairs[n]);
    EntryKey(pairs[0]);
    EntryKey(pairs[n]);
  }

  // ---------------------------------------------------------------- searching

  /** A search of the pairs ends where a search of the entries does. */
  lemma SameSearch(pairs: seq<Pair>, target: Bytes, n: nat)
    requires AllTyped(pairs) && IsInternal(target) && FirstAtLeast(InternalLess, pairs, target, n)
    ensures IsFirstAtOrAfter(EntriesOf(pairs), KeyOf(target), n)
  {
    hide InternalLess, KeyOf, Before, EntryOf;
    var entries := EntriesOf(pairs);
    forall i | 0 <= i < |entries|
      ensures InternalLess(pairs[i].key, target) == Before(entries[i].Key(), KeyOf(target))
    {
      assert Typed(pairs[i]);
      EntryKey(pairs[i]);
      SameOrder(pairs[i].key, target);
    }
  }

  lemma OneFirst(entries: seq<Entry>, target: IKey, m: nat, n: nat)
    requires IsFirstAtOrAfter(entries, target, m) && IsFirstAtOrAfter(entries, target, n)
    ensures m == n
  {
  }

  /** Versions.TableGet, put in terms of where the search of the entries ends. */
  lemma TableGetIs(f: Versions.File, user: UserKey, snapshot: nat, n: nat)
    requires f.Valid() && IsFirstAtOrAfter(f.entries, SeekKey(user, snapshot), n)
    ensures Versions.TableGet(f, user, snapshot) ==
            if n < |f.entries| && f.entries[n].user == user then Some(f.entries[n]) else None
  {
    hide IsFirstAtOrAfter;
    OneFirst(f.entries, SeekKey(user, snapshot), n, Versions.FirstAtOrAfter(f.entries, SeekKey(user, snapshot)));
  }

  /** What SaveValue keeps of a pair: its operation, if it belongs to the user key. */
  datatype Saved = NotFound | Found(value: Bytes) | Deleted | Corrupt

  function SavedOf(e: Option<Entry>): Saved {
    if e.None? then NotFound else if e.value.op.Put? then Found(e.value.op.value) else Deleted
  }

  /** Of a pair of a known type, the entry's operation if the entry is the user key's. */
  method SaveValue(userKey: Bytes, pair: Pair) returns (saved: Saved)
    ensures Typed(pair) ==>
      saved == SavedOf(if EntryOf(pair).user == Number(userKey) then Some(EntryOf(pair)) else None)
    ensures !Typed(pair) <==> saved == Corrupt
  {
    hide Number, TagOf, UserKeyOf;
    if |pair.key| < 8 {
      return Corrupt;
    }
    var code := TagOf(pair.key) % 0x100;
    if code > 1 {
      return Corrupt;
    }
    NumbersDiffer(UserKeyOf(pair.key), userKey);
    if UserKeyOf(pair.key) == userKey {
      return if code == 1 then Found(pair.value) else Deleted;
    }
    return NotFound;
  }

  /** TableCache::Get with SaveValue, on a table that holds the entries of a file: what the file holds
      for the user key at the snapshot. */
  method Get(table: Table, userKey: Bytes, snapshot: nat, ghost f: Versions.File) returns (saved: Saved)
    requires table.Valid() && AllTyped(All(table.t.blocks))
    requires f.Valid() && f.entries == EntriesOf(All(table.t.blocks)) && snapshot <= MAX_SEQUENCE
    ensures saved == SavedOf(Versions.TableGet(f, Number(userKey), snapshot))
  {
    hide *;
    KeyReadBack(userKey, snapshot, 1);
    SeekIs(userKey, snapshot);
    var k := WithTag(userKey, PackSequenceAndType(snapshot, 1));
    var r, n := table.InternalGet(k);
    LookupIs(table.t.blocks, k, n, r);
    TableGetIs(f, Number(userKey), snapshot, n);
    NothingSaved();
    saved := NotFound;
    if n < |f.entries| {
      EntryAt(All(table.t.blocks), n);
    }
    if r.Some? {
      saved := SaveValue(userKey, r.value);
    } else if n < |f.entries| {
      OtherUser(All(table.t.blocks)[n], userKey);
    }
  }

  lemma OtherUser(p: Pair, userKey: Bytes)
    requires IsInternal(p.key)
    ensures EntryOf(p).user == Number(userKey) <==> UserKeyOf(p.key) == userKey
  {
    hide Number, UserKeyOf;
    NumbersDiffer(UserKeyOf(p.key), userKey);
  }

  lemma NothingSaved()
    ensures SavedOf(None) == NotFound
  {
  }

  lemma SeekIs(userKey: Bytes, snapshot: nat)
    ensures KeyBytes(userKey, snapshot, 1) == WithTag(userKey, PackSequenceAndType(snapshot, 1))
    ensures SeekKey(Number(userKey), snapshot) == IKey(Number(userKey), snapshot, 1)
  {
    hide Number, WithTag;
  }

  lemma EntryAt(pairs: seq<Pair>, n: nat)
    requires AllTyped(pairs) && n < |EntriesOf(pairs)|
    ensures n < |pairs| && Typed(pairs[n]) && IsInternal(pairs[n].key) && EntriesOf(pairs)[n] == EntryOf(pairs[n])
  {
    hide KeyOf;
  }

  /** What InternalGet promises, in terms of the entries. */
  lemma LookupIs(blocks: seq<TableBlock>, k: Bytes, n: nat, r: Option<Pair>)
    requires AllTyped(All(blocks)) && IsInternal(k)
    requires r.Some? ==> HitIsRight(blocks, k, n, r.value)
    requires r.None? ==> MissIsRight(blocks, k, n)
    ensures IsFirstAtOrAfter(EntriesOf(All(blocks)), KeyOf(k), n) && n <= |All(blocks)| == |EntriesOf(All(blocks))|
    ensures r.Some? ==> n < |All(blocks)| && r.value == All(blocks)[n]
    ensures r.None? && n < |All(blocks)| ==>
      IsInternal(All(blocks)[n].key) && UserKeyOf(All(blocks)[n].key) != UserKeyOf(k)
  {
    hide All, FirstAtLeast, UserKeyOf, EntryOf, AllTyped;
    SameSearch(All(blocks), k, n);
  }
}
