/** The memtable: entries as length-prefixed bytes in a skip list (db/memtable.cc). */
module MemTables {
  import opened Wrappers
  import opened Coding
  import opened Comparators
  import opened Entries
  import opened UserKeys
  import opened SkipLists
  import opened TableGets
  import Versions

  // ---------------------------------------------------------------- the order of internal keys

  /** The place of an internal key among all: that of its user key, and behind it the larger the
      smaller its tag. */
  function Place(user: Bytes, tag: nat): (r: real)
    requires tag < TWO_64
    ensures 0.0 <= r < 1.0
  {
    if user == [] then ((TWO_64 - 1 - tag) as real / TWO_64 as real) / 257.0
    else (user[0] as real + 1.0 + Place(user[1..], tag)) / 257.0
  }

  lemma {:induction false} PlaceKeepsOrder(u: Bytes, a: nat, v: Bytes, b: nat)
    requires a < TWO_64 && b < TWO_64
    ensures Place(u, a) < Place(v, b) <==> BytesLess(u, v) || (u == v && a > b)
  {
    if u != [] && v != [] {
      PlaceKeepsOrder(u[1..], a, v[1..], b);
      if u[0] < v[0] {
        assert u[0] as real + 1.0 <= v[0] as real;
      } else if v[0] < u[0] {
        assert v[0] as real + 1.0 <= u[0] as real;
      } else {
        assert u == [u[0]] + u[1..] && v == [v[0]] + v[1..];
      }
    }
  }

  function PlaceOf(k: Bytes): Key {
    if IsInternal(k) && TagOf(k) < TWO_64 then Place(UserKeyOf(k), TagOf(k)) else 0.0
  }

  /** KeyComparator compares what the length prefixes of two entries delimit. */
  function PlaceIn(entry: Bytes): Key {
    var key := GetLengthPrefixed(entry);
    if key.Some? then PlaceOf(key.value.0) else 0.0
  }

  lemma TagBelow(k: Bytes)
    requires IsInternal(k)
    ensures TagOf(k) < TWO_64
  {
    TagsOf(k);
    hide TagOf, KeyOf, Number;
  }

  lemma PlacesCompare(a: Bytes, b: Bytes)
    requires IsInternal(a) && IsInternal(b)
    ensures PlaceOf(a) < PlaceOf(b) <==> Before(KeyOf(a), KeyOf(b))
  {
    TagBelow(a);
    TagBelow(b);
    PlaceKeepsOrder(UserKeyOf(a), TagOf(a), UserKeyOf(b), TagOf(b));
    SameOrder(a, b);
    hide Place, BytesLess, TagOf, UserKeyOf, KeyOf, Before;
  }

  // ---------------------------------------------------------------- entries in bytes

  /** What Add is given. */
  datatype Record = Record(user: Bytes, seqno: nat, op: Op) {
    predicate Fits() {
      seqno <= MAX_SEQUENCE && |user| + 8 < TWO_32 && (op.Put? ==> |op.value| < TWO_32)
    }

    function InternalKey(): Bytes {
      KeyBytes(user, seqno, TypeCode(op))
    }

    function Value(): Bytes {
      if op.Put? then op.value else []
    }

    function Entry(): Entry {
      Entries.Entry(Number(user), seqno, op)
    }

    function InArena(): Bytes {
      LengthPrefixed(InternalKey()) + LengthPrefixed(Value())
    }
  }

  lemma RecordKey(r: Record)
    requires r.Fits()
    ensures IsInternal(r.InternalKey()) && UserKeyOf(r.InternalKey()) == r.user
    ensures KeyOf(r.InternalKey()) == r.Entry().Key() && |r.InternalKey()| < TWO_32
  {
    hide Number, WithTag, UserKeyOf, KeyOf;
    KeyReadBack(r.user, r.seqno, TypeCode(r.op));
    WithTagLength(r.user, PackSequenceAndType(r.seqno, TypeCode(r.op)));
  }

  lemma WithTagLength(user: Bytes, tag: nat)
    ensures |WithTag(user, tag)| == |user| + 8
  {
  }

  /** What is written is read back. */
  lemma RecordReadBack(r: Record)
    requires r.Fits()
    ensures GetLengthPrefixed(r.InArena()) == Some((r.InternalKey(), LengthPrefixed(r.Value())))
    ensures GetLengthPrefixed(LengthPrefixed(r.Value())) == Some((r.Value(), []))
    ensures PlaceIn(r.InArena()) == PlaceOf(r.InternalKey())
  {
    RecordKey(r);
    hide KeyBytes, GetLengthPrefixed, LengthPrefixed, PlaceOf, KeyOf, UserKeyOf;
    LengthPrefixedRoundTrip(r.InternalKey(), LengthPrefixed(r.Value()));
    LengthPrefixedRoundTrip(r.Value(), []);
    assert LengthPrefixed(r.Value()) + [] == LengthPrefixed(r.Value());
  }

  // ---------------------------------------------------------------- what a memtable holds

  function EntriesIn(records: seq<Record>): (r: seq<Entry>)
    ensures |r| == |records|
  {
    seq(|records|, i requires 0 <= i < |records| => records[i].Entry())
  }

  /** The nodes and the arena hold these records, in order. */
  ghost predicate Holds(nodes: seq<Node>, arena: map<Key, Bytes>, records: seq<Record>) {
    |nodes| == |records| && forall i :: 0 <= i < |records| ==> HeldAt(nodes[i].key, arena, records[i])
  }

  predicate HeldAt(key: Key, arena: map<Key, Bytes>, r: Record) {
    r.Fits() && key == PlaceOf(r.InternalKey()) && key in arena && arena[key] == r.InArena()
  }

  predicate OneEach(records: seq<Record>) {
    forall i, j :: 0 <= i < j < |records| ==>
      records[i].user != records[j].user || records[i].seqno != records[j].seqno
  }

  predicate IsNew(records: seq<Record>, user: Bytes, seqno: nat) {
    forall i :: 0 <= i < |records| ==> records[i].user != user || records[i].seqno != seqno
  }

  lemma RecordsCompare(a: Record, b: Record)
    requires a.Fits() && b.Fits()
    ensures PlaceOf(a.InternalKey()) < PlaceOf(b.InternalKey()) <==> Before(a.Entry().Key(), b.Entry().Key())
    ensures a.Entry().user == b.Entry().user <==> a.user == b.user
  {
    RecordKey(a);
    RecordKey(b);
    PlacesCompare(a.InternalKey(), b.InternalKey());
    NumbersDiffer(a.user, b.user);
    hide PlaceOf, Before, Number, KeyOf, KeyBytes;
  }

  lemma HeldIsSorted(nodes: seq<Node>, arena: map<Key, Bytes>, records: seq<Record>)
    requires Ascending(nodes) && Holds(nodes, arena, records) && OneEach(records)
    ensures Sorted(EntriesIn(records))
  {
    hide PlaceOf, KeyBytes, Number;
    forall i, j | 0 <= i < j < |records| ensures Precedes(records[i].Entry().Key(), records[j].Entry().Key()) {
      assert HeldAt(nodes[i].key, arena, records[i]) && HeldAt(nodes[j].key, arena, records[j]);
      RecordsCompare(records[i], records[j]);
    }
  }

  /** The place of a key in the list is its place among the entries. */
  lemma SeekFinds(nodes: seq<Node>, arena: map<Key, Bytes>, records: seq<Record>, target: Bytes, n: nat)
    requires Holds(nodes, arena, records) && IsInternal(target) && IsRank(nodes, PlaceOf(target), n)
    ensures IsFirstAtOrAfter(EntriesIn(records), KeyOf(target), n)
  {
    hide PlaceOf, KeyOf, Before, KeyBytes, Number;
    forall i | 0 <= i < |records|
      ensures nodes[i].key < PlaceOf(target) <==> Before(records[i].Entry().Key(), KeyOf(target))
    {
      assert HeldAt(nodes[i].key, arena, records[i]);
      RecordKey(records[i]);
      PlacesCompare(records[i].InternalKey(), target);
    }
  }

  lemma KeyIsFree(nodes: seq<Node>, arena: map<Key, Bytes>, records: seq<Record>, r: Record)
    requires Holds(nodes, arena, records) && r.Fits() && IsNew(records, r.user, r.seqno)
    ensures forall n :: n in nodes ==> n.key != PlaceOf(r.InternalKey())
  {
    hide PlaceOf, KeyBytes, Number;
    forall n | n in nodes ensures n.key != PlaceOf(r.InternalKey()) {
      var i :| 0 <= i < |nodes| && nodes[i] == n;
      assert HeldAt(nodes[i].key, arena, records[i]);
      RecordsCompare(records[i], r);
      RecordsCompare(r, records[i]);
    }
  }

  function Inserted(records: seq<Record>, n: nat, r: Record): seq<Record>
    requires n <= |records|
  {
    records[..n] + [r] + records[n..]
  }

  lemma HoldsOneMore(nodes: seq<Node>, arena: map<Key, Bytes>, records: seq<Record>, n: nat, x: Node, r: Record)
    requires Holds(nodes, arena, records) && OneEach(records) && n <= |nodes|
    requires r.Fits() && x.key == PlaceOf(r.InternalKey()) && IsNew(records, r.user, r.seqno)
    requires forall m :: m in nodes ==> m.key != x.key
    ensures Holds(InsertAt(nodes, n, x), arena[x.key := r.InArena()], Inserted(records, n, r))
    ensures OneEach(Inserted(records, n, r))
  {
    hide PlaceOf, KeyBytes, Record.InArena, Record.Fits;
    var after, more := InsertAt(nodes, n, x), Inserted(records, n, r);
    var bytes := arena[x.key := r.InArena()];
    forall i | 0 <= i < |more| ensures HeldAt(after[i].key, bytes, more[i]) {
      if i != n {
        var j := if i < n then i else i - 1;
        assert after[i] == nodes[j] && more[i] == records[j] && nodes[j] in nodes;
        assert HeldAt(nodes[j].key, arena, records[j]);
      }
    }
    forall i, j | 0 <= i < j < |more| ensures more[i].user != more[j].user || more[i].seqno != more[j].seqno {
      var k, l := if i < n then i else i - 1, if j < n then j else j - 1;
    }
  }

  lemma EntriesOneMore(records: seq<Record>, n: nat, r: Record)
    requires n <= |records|
    ensures EntrySet(EntriesIn(Inserted(records, n, r))) == EntrySet(EntriesIn(records)) + {r.Entry()}
  {
    var before, after := EntriesIn(records), EntriesIn(Inserted(records, n, r));
    hide Number;
    forall e ensures e in after <==> e in before || e == r.Entry() {
      if e in before {
        var i :| 0 <= i < |before| && before[i] == e;
        assert after[if i < n then i else i + 1] == e;
      }
      assert after[n] == r.Entry();
      if e in after {
        var i :| 0 <= i < |after| && after[i] == e;
        assert i < n ==> before[i] == e;
        assert i > n ==> before[i - 1] == e;
      }
    }
  }

  class MemTable {
    const table: SkipList
    /** The entries' bytes, by their place in the list. */
    var arena: map<Key, Bytes>
    ghost var records: seq<Record>

    ghost predicate Valid()
      reads this, table, table.nodes
    {
      table.Valid() && Holds(table.levels[0], arena, records) && OneEach(records)
    }

    constructor ()
      ensures Valid() && records == [] && fresh(table) && fresh(table.nodes)
    {
      table := new SkipList();
      arena, records := map[], [];
    }

    lemma Parts()
      requires Valid()
      ensures table.Valid() && |table.levels| == MAX_HEIGHT > 0 && Ascending(table.levels[0])
      ensures Holds(table.levels[0], arena, records) && OneEach(records) && |records| == |table.levels[0]|
    {
      table.ShapeOf(0);
      hide SkipList.Valid, Ascending, OneEach, HeldAt;
    }

    /** MemTable::Add; `height` is what RandomHeight returned.  An entry of a new sequence number goes
        in its place, as bytes. */
    method Add(user: Bytes, seqno: nat, op: Op, height: nat) returns (ghost n: nat)
      requires Valid() && Record(user, seqno, op).Fits() && 1 <= height <= MAX_HEIGHT
      requires IsNew(records, user, seqno)
      modifies this, table, table.nodes
      ensures Valid() && n <= |old(records)| && records == Inserted(old(records), n, Record(user, seqno, op))
      ensures EntrySet(EntriesIn(records)) == EntrySet(EntriesIn(old(records))) + {Record(user, seqno, op).Entry()}
      ensures fresh(table.nodes - old(table.nodes))
    {
      hide *;
      ghost var r := Record(user, seqno, op);
      Parts();
      RecordReadBack(r);
      KeyIsFree(table.levels[0], arena, records, r);
      var key := WithTag(user, PackSequenceAndType(seqno, TypeCode(op)));
      var buf := PutLengthPrefixedSlice([], key);
      buf := PutLengthPrefixedSlice(buf, if op.Put? then op.value else []);
      BufferIs(r, key, buf);
      ghost var nodes := table.levels[0];
      ghost var x;
      x, n := table.Insert(PlaceIn(buf), height);
      HoldsOneMore(nodes, arena, records, n, x, r);
      EntriesOneMore(records, n, r);
      HasLevels();
      arena := arena[PlaceIn(buf) := buf];
      records := Inserted(records, n, r);
      IsValid();
    }

    lemma HasLevels()
      requires table.Valid()
      ensures |table.levels| == MAX_HEIGHT > 0
    {
    }

    lemma IsValid()
      requires table.Valid() && |table.levels| == MAX_HEIGHT
      requires Holds(table.levels[0], arena, records) && OneEach(records)
      ensures Valid()
    {
      hide SkipList.Valid, Holds, OneEach;
    }

    /** MemTable::Get with a LookupKey: what the entries hold for the user key at the snapshot. */
    method Get(user: Bytes, snapshot: nat) returns (saved: Saved)
      requires Valid() && snapshot <= MAX_SEQUENCE && |user| + 8 < TWO_32
      ensures saved == SavedOf(Newest(EntrySet(EntriesIn(records)), Number(user), snapshot))
    {
      hide *;
      Parts();
      ghost var nodes := table.levels[0];
      ghost var target := Record(user, snapshot, Put([]));
      TargetFits(target);
      RecordReadBack(target);
      RecordKey(target);
      var key := WithTag(user, PackSequenceAndType(snapshot, TYPE_FOR_SEEK));
      var memKey := PutLengthPrefixedSlice([], key);
      PrefixIs(target, key, memKey);
      var iter := new Iterator(table);
      iter.Seek(PlaceIn(memKey));
      IteratorStands(iter);
      SeekFinds(nodes, arena, records, target.InternalKey(), iter.pos);
      HeldIsSorted(nodes, arena, records);
      NewestAt(records, target, iter.pos);
      NothingSaved();
      saved := NotFound;
      if iter.node != null {
        RecordAt(nodes, arena, records, iter.pos);
        saved := ReadEntry(arena[iter.node.key], user, records[iter.pos]);
      }
    }
  }

  lemma TargetFits(target: Record)
    requires target.seqno <= MAX_SEQUENCE && |target.user| + 8 < TWO_32 && target.op == Put([])
    ensures target.Fits() && target.Entry().Key() == SeekKey(Number(target.user), target.seqno)
  {
    hide Number;
  }

  /** A lookup key is what an entry would start with. */
  lemma PrefixIs(target: Record, key: Bytes, memKey: Bytes)
    requires target.Fits() && target.op == Put([])
    requires key == WithTag(target.user, PackSequenceAndType(target.seqno, TYPE_FOR_SEEK))
    requires memKey == [] + LengthPrefixed(key)
    ensures key == target.InternalKey() && PlaceIn(memKey) == PlaceOf(key)
  {
    RecordKey(target);
    hide LengthPrefixed, WithTag, PlaceOf, GetLengthPrefixed, UserKeyOf, KeyOf;
    LengthPrefixedRoundTrip(key, []);
    assert LengthPrefixed(key) + [] == memKey;
  }

  lemma IteratorStands(iter: Iterator)
    requires iter.Valid()
    ensures iter.list.Valid() && |iter.list.levels| == MAX_HEIGHT && iter.pos <= |iter.list.levels[0]|
    ensures iter.node == At(iter.list.levels[0], iter.pos)
    ensures iter.node != null <==> iter.pos < |iter.list.levels[0]|
    ensures iter.node != null ==> iter.node == iter.list.levels[0][iter.pos]
  {
    hide Shape, Linked;
  }

  /** The newest visible entry, in terms of where the search ends. */
  lemma NewestAt(records: seq<Record>, target: Record, n: nat)
    requires Sorted(EntriesIn(records)) && target.Fits() && target.op == Put([])
    requires IsFirstAtOrAfter(EntriesIn(records), KeyOf(target.InternalKey()), n)
    ensures n <= |records|
    ensures Newest(EntrySet(EntriesIn(records)), Number(target.user), target.seqno) ==
            if n < |records| && records[n].user == target.user then Some(records[n].Entry()) else None
  {
    RecordKey(target);
    TargetFits(target);
    if n < |records| {
      NumbersDiffer(records[n].user, target.user);
    }
    hide Number, KeyOf, KeyBytes, Sorted, Newest, UserKeyOf;
    Versions.FirstAtOrAfterIsNewest(EntriesIn(records), Number(target.user), target.seqno, n);
  }

  lemma RecordAt(nodes: seq<Node>, arena: map<Key, Bytes>, records: seq<Record>, n: nat)
    requires Holds(nodes, arena, records) && n < |nodes|
    ensures n < |records| && nodes[n].key in arena && arena[nodes[n].key] == records[n].InArena() && records[n].Fits()
  {
    hide PlaceOf, Record.InArena, Record.Fits;
    assert HeldAt(nodes[n].key, arena, records[n]);
  }

  /** The part of Get that looks at an entry's bytes. */
  method ReadEntry(entry: Bytes, user: Bytes, ghost r: Record) returns (saved: Saved)
    requires r.Fits() && entry == r.InArena()
    ensures saved == SavedOf(if r.user == user then Some(r.Entry()) else None)
  {
    hide *;
    RecordReadBack(r);
    RecordKey(r);
    SavedParts(r);
    var key := GetLengthPrefixedSlice(entry);
    saved := NotFound;
    if UserKeyOf(key.value.0) == user {
      if TagOf(key.value.0) % 0x100 == 1 {
        var value := GetLengthPrefixedSlice(key.value.1);
        saved := Found(value.value.0);
      } else {
        saved := Deleted;
      }
    }
  }

  lemma SavedParts(r: Record)
    requires r.Fits()
    ensures SavedOf(None) == NotFound
    ensures TagOf(r.InternalKey()) % 0x100 == 1 ==> SavedOf(Some(r.Entry())) == Found(r.Value())
    ensures TagOf(r.InternalKey()) % 0x100 != 1 ==> SavedOf(Some(r.Entry())) == Deleted
  {
    RecordKey(r);
    hide Number, TagOf, UserKeyOf, KeyBytes;
  }

  lemma BufferIs(r: Record, key: Bytes, buf: Bytes)
    requires key == WithTag(r.user, PackSequenceAndType(r.seqno, TypeCode(r.op)))
    requires buf == [] + LengthPrefixed(key) + LengthPrefixed(if r.op.Put? then r.op.value else [])
    ensures buf == r.InArena()
  {
    hide LengthPrefixed, WithTag;
  }
}
