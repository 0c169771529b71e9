/** Reading a table: one search of the index, one question to the filter, one search of one block
    (table/table.cc, db/dbformat.cc). */
module TableReaders {
  import opened Wrappers
  import opened Coding
  import opened Comparators
  import opened Blocks
  import opened TableFormats
  import opened Tables
  import opened TableFiles
  import F = FilterBlocks
  import B = BloomFilters

  // ---------------------------------------------------------------- what a reader relies on

  /** The hash looks at the user key only, as under InternalFilterPolicy. */
  ghost predicate UserKeyed(hash: B.Hash) {
    forall a, b :: IsInternal(a) && IsInternal(b) && UserKeyOf(a) == UserKeyOf(b) ==> hash(a) == hash(b)
  }

  /** InternalFilterPolicy: the user policy's hash of the user key. */
  function InternalHash(hash: B.Hash): B.Hash {
    k => HashOfUser(hash, k)
  }

  function HashOfUser(hash: B.Hash, k: Bytes): nat {
    if IsInternal(k) then hash(UserKeyOf(k)) else hash(k)
  }

  lemma InternalHashIsUserKeyed(hash: B.Hash)
    ensures UserKeyed(InternalHash(hash))
  {
  }

  /** Blocks have 32-bit sizes, the file 64-bit offsets. */
  ghost predicate Sized(file: Bytes, t: Image) {
    && |file| < TWO_64 && |t.index.data| < TWO_32 && |t.meta.data| < TWO_32 && |t.filter| < TWO_32
    && forall i :: 0 <= i < |t.blocks| ==> |t.blocks[i].layout.data| < TWO_32
  }

  /** A finished table that can be read. */
  ghost predicate Readable(file: Bytes, t: Image, policy: B.BloomFilterPolicy?, name: Bytes) {
    IsTable(file, t, policy, name) && Sized(file, t) && (policy != null ==> UserKeyed(policy.hash))
  }

  lemma ReadableParts(file: Bytes, t: Image, policy: B.BloomFilterPolicy?, name: Bytes)
    requires Readable(file, t, policy, name)
    ensures TableOk(t.blocks, t.seps) && Held(file, t.blocks) && |t.seps| == |t.blocks|
    ensures IndexOk(file, t) && MetaOk(file, t, policy, name) && FilterOk(file, t, policy) && FooterOk(file, t)
    ensures Sized(file, t) && (policy != null ==> UserKeyed(policy.hash))
  {
    hide Sized, UserKeyed, Held, IndexOk, MetaOk, FilterOk, FooterOk, SepsOk;
  }

  lemma SizedParts(file: Bytes, t: Image)
    requires Sized(file, t)
    ensures |file| < TWO_64 && |t.index.data| < TWO_32 && |t.meta.data| < TWO_32 && |t.filter| < TWO_32
    ensures forall i :: 0 <= i < |t.blocks| ==> |t.blocks[i].layout.data| < TWO_32
  {
  }

  lemma HandleFits(file: Bytes, h: Handle, contents: Bytes)
    requires Holds(file, h, contents) && |file| < TWO_64
    ensures HandleOk(h)
  {
    hide Trailer;
  }

  lemma BuiltIsBlock(l: Layout)
    requires Built(l) && |l.data| < TWO_32
    ensures l.Valid()
  {
    hide Formed, Contents;
  }

  lemma IndexIsBlock(file: Bytes, t: Image)
    requires TableOk(t.blocks, t.seps) && IndexOk(file, t) && |t.index.data| < TWO_32
    ensures t.index.Valid() && Ascending(InternalLess, t.index.entries) && |t.seps| == |t.blocks|
    ensures t.index.entries == IndexEntries(t.blocks, t.seps) && Holds(file, t.indexHandle, t.index.data)
  {
    hide *;
    TableParts(t.blocks, t.seps);
    IndexOkParts(file, t);
    BuiltIsBlock(t.index);
    IndexAscends(t.blocks, t.seps, []);
  }

  lemma IndexOkParts(file: Bytes, t: Image)
    requires IndexOk(file, t)
    ensures |t.seps| <= |t.blocks| && t.index.entries == IndexEntries(t.blocks, t.seps)
    ensures Built(t.index) && Holds(file, t.indexHandle, t.index.data)
  {
    hide IndexEntries, Built, Holds;
  }

  lemma DataIsBlock(file: Bytes, t: Image, i: nat)
    requires TableOk(t.blocks, t.seps) && Held(file, t.blocks) && Sized(file, t) && i < |t.blocks|
    ensures var b := t.blocks[i];
      b.layout.Valid() && Ascending(InternalLess, b.layout.entries) && Holds(file, b.handle, b.layout.data)
          && HandleOk(b.handle)
  {
    hide InternalLess, Formed, Contents, Ascending, SepOk, Holds;
    assert BlockOk(t.blocks[i]);
    HandleFits(file, t.blocks[i].handle, t.blocks[i].layout.data);
  }

  lemma MetaParts(file: Bytes, t: Image, policy: B.BloomFilterPolicy?, name: Bytes)
    requires MetaOk(file, t, policy, name) && |t.meta.data| < TWO_32
    ensures t.meta.Valid() && Holds(file, t.metaHandle, t.meta.data) && Ascending(BytesLess, t.meta.entries)
    ensures t.meta.entries == (if policy == null then [] else [Pair(FilterKey(name), EncodeHandle(t.filterHandle))])
  {
    hide Holds, EncodeHandle, FilterKey, BytesLess, Formed, Contents;
    BuiltIsBlock(t.meta);
  }

  lemma FilterParts(file: Bytes, t: Image, policy: B.BloomFilterPolicy?)
    requires FilterOk(file, t, policy) && policy != null
    ensures Holds(file, t.filterHandle, t.filter) && F.IsFilterBlock(t.filter, t.groups, policy)
            && Covered(t.blocks, t.groups)
  {
    hide Holds, F.IsFilterBlock, Covered;
  }

  lemma FooterParts(file: Bytes, t: Image)
    requires FooterOk(file, t)
    ensures |file| >= FOOTER && file[|file| - FOOTER..] == EncodeFooter(t.metaHandle, t.indexHandle)
  {
    hide EncodeFooter;
  }

  // ---------------------------------------------------------------- where a lookup ends

  /** Every search of some entries ends somewhere. */
  lemma {:induction false} SearchEnds(entries: seq<Pair>, k: Bytes, from: nat) returns (j: nat)
    requires from <= |entries| && AllBelow(InternalLess, entries, k, from)
    ensures j <= |entries| && FirstAtLeast(InternalLess, entries, k, j)
    decreases |entries| - from
  {
    hide InternalLess;
    if from < |entries| && InternalLess(entries[from].key, k) {
      j := SearchEnds(entries, k, from + 1);
    } else {
      j := from;
    }
  }

  /** n is where the first key not below k stands among all; a lookup that finds nothing may stop there
      only if that key has another user key. */
  ghost predicate MissIsRight(blocks: seq<TableBlock>, k: Bytes, n: nat)
    requires IsInternal(k)
  {
    && n <= |All(blocks)| && FirstAtLeast(InternalLess, All(blocks), k, n)
    && (n < |All(blocks)| ==> IsInternal(All(blocks)[n].key) && UserKeyOf(All(blocks)[n].key) != UserKeyOf(k))
  }

  ghost predicate HitIsRight(blocks: seq<TableBlock>, k: Bytes, n: nat, e: Pair) {
    && n < |All(blocks)| && FirstAtLeast(InternalLess, All(blocks), k, n) && e == All(blocks)[n]
  }

  lemma IndexMiss(t: Image, k: Bytes)
    requires TableOk(t.blocks, t.seps) && |t.seps| == |t.blocks| && IsInternal(k)
    requires FirstAtLeast(InternalLess, IndexEntries(t.blocks, t.seps), k, |t.blocks|)
    ensures MissIsRight(t.blocks, k, |All(t.blocks)|)
  {
    hide All, TableOk, InternalLess, IndexEntries, FirstAtLeast;
    SeekPastIndex(t.blocks, t.seps, k);
  }

  /** The filter says no: no key of the block has k's user key. */
  lemma FilterMiss(t: Image, policy: B.BloomFilterPolicy, k: Bytes, i: nat) returns (n: nat)
    requires TableOk(t.blocks, t.seps) && |t.seps| == |t.blocks| && IsInternal(k) && i < |t.blocks|
    requires FirstAtLeast(InternalLess, IndexEntries(t.blocks, t.seps), k, i)
    requires Covered(t.blocks, t.groups) && UserKeyed(policy.hash)
    requires var g := t.blocks[i].handle.offset / F.FILTER_BASE;
      g < |t.groups| ==> !F.Present(t.groups[g], policy.hash, k)
    ensures MissIsRight(t.blocks, k, n)
  {
    hide *;
    var entries := t.blocks[i].layout.entries;
    NothingBelow(entries, k);
    var j := SearchEnds(entries, k, 0);
    n := StartOf(t.blocks, i) + j;
    OneBlockIsEnough(t.blocks, t.seps, k, i, j);
    if j < |entries| {
      KeyIsNotThere(t, policy, k, i, j);
    }
    IsMiss(t.blocks, k, n);
  }

  lemma IsMiss(blocks: seq<TableBlock>, k: Bytes, n: nat)
    requires IsInternal(k) && n <= |All(blocks)| && FirstAtLeast(InternalLess, All(blocks), k, n)
    requires n < |All(blocks)| ==> IsInternal(All(blocks)[n].key) && UserKeyOf(All(blocks)[n].key) != UserKeyOf(k)
    ensures MissIsRight(blocks, k, n)
  {
    hide All, FirstAtLeast;
  }

  lemma KeyIsNotThere(t: Image, policy: B.BloomFilterPolicy, k: Bytes, i: nat, j: nat)
    requires TableOk(t.blocks, t.seps) && IsInternal(k) && i < |t.blocks| && j < |t.blocks[i].layout.entries|
    requires Covered(t.blocks, t.groups) && UserKeyed(policy.hash)
    requires var g := t.blocks[i].handle.offset / F.FILTER_BASE;
      g < |t.groups| ==> !F.Present(t.groups[g], policy.hash, k)
    ensures var key := t.blocks[i].layout.entries[j].key; IsInternal(key) && UserKeyOf(key) != UserKeyOf(k)
  {
    hide InternalLess, SepOk, Formed, Contents;
    var key := t.blocks[i].layout.entries[j].key;
    assert BlockOk(t.blocks[i]) && CoveredAt(t.blocks[i], t.groups);
    var group := t.groups[t.blocks[i].handle.offset / F.FILTER_BASE];
    assert key in group;
    var m :| 0 <= m < |group| && group[m] == key;
  }

  lemma BlockMiss(t: Image, k: Bytes, i: nat) returns (n: nat)
    requires TableOk(t.blocks, t.seps) && |t.seps| == |t.blocks| && IsInternal(k) && i < |t.blocks|
    requires FirstAtLeast(InternalLess, IndexEntries(t.blocks, t.seps), k, i)
    requires FirstAtLeast(InternalLess, t.blocks[i].layout.entries, k, |t.blocks[i].layout.entries|)
    ensures MissIsRight(t.blocks, k, n)
  {
    hide *;
    n := StartOf(t.blocks, i) + |t.blocks[i].layout.entries|;
    OneBlockIsEnough(t.blocks, t.seps, k, i, |t.blocks[i].layout.entries|);
    IsMiss(t.blocks, k, n);
  }

  lemma BlockHit(t: Image, k: Bytes, i: nat, j: nat) returns (n: nat)
    requires TableOk(t.blocks, t.seps) && |t.seps| == |t.blocks| && IsInternal(k) && i < |t.blocks|
    requires FirstAtLeast(InternalLess, IndexEntries(t.blocks, t.seps), k, i)
    requires j < |t.blocks[i].layout.entries| && FirstAtLeast(InternalLess, t.blocks[i].layout.entries, k, j)
    ensures HitIsRight(t.blocks, k, n, t.blocks[i].layout.entries[j])
  {
    hide *;
    n := StartOf(t.blocks, i) + j;
    OneBlockIsEnough(t.blocks, t.seps, k, i, j);
    IsHit(t.blocks, k, n, t.blocks[i].layout.entries[j]);
  }

  lemma IsHit(blocks: seq<TableBlock>, k: Bytes, n: nat, e: Pair)
    requires n < |All(blocks)| && FirstAtLeast(InternalLess, All(blocks), k, n) && e == All(blocks)[n]
    ensures HitIsRight(blocks, k, n, e)
  {
    hide All, FirstAtLeast;
  }

  lemma SearchIsWithin(entries: seq<Pair>, k: Bytes, j: nat)
    requires FirstAtLeast(InternalLess, entries, k, j)
    ensures j <= |entries|
  {
  }

  // ---------------------------------------------------------------- the reader

  class Table {
    const file: Bytes
    const verifyChecksums: bool
    const indexData: Bytes
    const restarts: nat
    const numRestarts: nat
    const filter: F.FilterBlockReader?
    ghost const t: Image
    ghost const policy: B.BloomFilterPolicy?
    ghost const name: Bytes

    ghost predicate Valid() {
      && Readable(file, t, policy, name)
      && indexData == t.index.data && restarts == |Data(t.index.ds)| && numRestarts == |t.index.starts|
      && (filter != null ==> FilterIsRead(filter, t, policy))
    }

    constructor (file: Bytes, verifyChecksums: bool, indexData: Bytes, restarts: nat, numRestarts: nat,
                 filter: F.FilterBlockReader?, ghost t: Image, ghost policy: B.BloomFilterPolicy?, ghost name: Bytes)
      requires Readable(file, t, policy, name)
      requires indexData == t.index.data && restarts == |Data(t.index.ds)| && numRestarts == |t.index.starts|
      requires filter != null ==> FilterIsRead(filter, t, policy)
      ensures Valid() && this.file == file && this.t == t && this.policy == policy && this.filter == filter
    {
      hide Readable, Data, FilterIsRead;
      this.file, this.verifyChecksums, this.indexData := file, verifyChecksums, indexData;
      this.restarts, this.numRestarts, this.filter := restarts, numRestarts, filter;
      this.t, this.policy, this.name := t, policy, name;
    }

    lemma Parts()
      requires Valid()
      ensures Readable(file, t, policy, name)
      ensures indexData == t.index.data && restarts == |Data(t.index.ds)| && numRestarts == |t.index.starts|
      ensures filter != null ==> FilterIsRead(filter, t, policy)
    {
      hide Readable, Data, FilterIsRead;
    }

    /** An iterator over the index block. */
    method IndexIterator() returns (iter: BlockIter)
      requires Valid()
      ensures fresh(iter) && iter.Valid() && iter.b == t.index && iter.less == InternalLess
      ensures iter.pos == |t.index.entries|
    {
      hide *;
      Parts();
      ReadableParts(file, t, policy, name);
      SizedParts(file, t);
      IndexIsBlock(file, t);
      InternalIsTotalOrder();
      iter := new BlockIter(InternalLess, indexData, restarts, numRestarts, t.index);
    }

    /** An iterator over the block whose handle the i-th index entry holds. */
    method BlockReader(indexValue: Bytes, ghost i: nat) returns (iter: BlockIter?)
      requires Valid() && i < |t.blocks| && indexValue == EncodeHandle(t.blocks[i].handle)
      ensures iter != null && fresh(iter) && iter.Valid() && iter.b == t.blocks[i].layout && iter.less == InternalLess
      ensures iter.pos == |t.blocks[i].layout.entries|
    {
      hide *;
      Parts();
      ReadableParts(file, t, policy, name);
      DataIsBlock(file, t, i);
      SizedParts(file, t);
      ghost var b := t.blocks[i];
      HandleRoundTrip(b.handle, []);
      WithNothing(indexValue);
      InternalIsTotalOrder();
      var handle := DecodeHandle(indexValue).value.0;
      var block := ReadBlock(file, handle, verifyChecksums);
      var contents := block.value;
      var area := OpenBlock(contents, b.layout);
      iter := new BlockIter(InternalLess, contents, area.restarts, area.numRestarts, b.layout);
    }

    /** Hands out the first entry not below k in the one block that the index points at.  Whatever is
        handed out is the first entry not below k of the whole table, and nothing is handed out only if
        that entry does not have k's user key. */
    method InternalGet(k: Bytes) returns (r: Option<Pair>, ghost n: nat)
      requires Valid() && IsInternal(k)
      ensures r.Some? ==> HitIsRight(t.blocks, k, n, r.value)
      ensures r.None? ==> MissIsRight(t.blocks, k, n)
    {
      hide *;
      Parts();
      ReadableParts(file, t, policy, name);
      SizedParts(file, t);
      IndexIsBlock(file, t);
      IndexLength(t.blocks, t.seps);
      r, n := None, |All(t.blocks)|;
      var iiter := IndexIterator();
      iiter.Seek(k);
      ghost var i := iiter.pos;
      SearchIsWithin(t.index.entries, k, i);
      var found := iiter.AtEntry();
      if !found {
        IndexMiss(t, k);
        return;
      }
      IndexAt(t.blocks, t.seps, i);
      var handleValue := iiter.Value();
      if filter != null {
        var mayMatch := FilterMayMatch(handleValue, k, i);
        if !mayMatch {
          n := FilterMiss(t, policy, k, i);
          return;
        }
      }
      r, n := BlockGet(handleValue, k, i);
    }

    method FilterMayMatch(handleValue: Bytes, k: Bytes, ghost i: nat) returns (mayMatch: bool)
      requires Valid() && filter != null && i < |t.blocks| && handleValue == EncodeHandle(t.blocks[i].handle)
      ensures policy != null && Covered(t.blocks, t.groups) && UserKeyed(policy.hash)
      ensures !mayMatch ==>
        var g := t.blocks[i].handle.offset / F.FILTER_BASE;
        g < |t.groups| ==> !F.Present(t.groups[g], policy.hash, k)
    {
      hide *;
      Parts();
      ReadableParts(file, t, policy, name);
      DataIsBlock(file, t, i);
      FilterIsReadParts(filter, t, policy);
      FilterParts(file, t, policy);
      HandleRoundTrip(t.blocks[i].handle, []);
      WithNothing(handleValue);
      var handle := DecodeHandle(handleValue);
      mayMatch := true;
      if handle.Some? {
        mayMatch := filter.KeyMayMatch(handle.value.0.offset, k, t.groups);
      }
    }

    method BlockGet(handleValue: Bytes, k: Bytes, ghost i: nat) returns (r: Option<Pair>, ghost n: nat)
      requires Valid() && IsInternal(k) && i < |t.blocks| && handleValue == EncodeHandle(t.blocks[i].handle)
      requires |t.seps| == |t.blocks| && FirstAtLeast(InternalLess, IndexEntries(t.blocks, t.seps), k, i)
      ensures r.Some? ==> HitIsRight(t.blocks, k, n, r.value)
      ensures r.None? ==> MissIsRight(t.blocks, k, n)
    {
      hide *;
      Parts();
      ReadableParts(file, t, policy, name);
      r := None;
      var blockIter := BlockReader(handleValue, i);
      blockIter.Seek(k);
      ghost var j := blockIter.pos;
      SearchIsWithin(t.blocks[i].layout.entries, k, j);
      var found := blockIter.AtEntry();
      if found {
        var value := blockIter.Value();
        r := Some(Pair(blockIter.key, value));
        n := BlockHit(t, k, i, j);
        PairIs(t.blocks[i].layout.entries[j]);
      } else {
        n := BlockMiss(t, k, i);
      }
    }
  }

  lemma PairIs(e: Pair)
    ensures e == Pair(e.key, e.value)
  {
  }

  lemma WithNothing(s: Bytes)
    ensures s + [] == s
  {
  }

  ghost predicate FilterIsRead(filter: F.FilterBlockReader, t: Image, policy: B.BloomFilterPolicy?) {
    && policy != null && filter.policy == policy && filter.Reads(t.groups)
    && (filter.num > 0 ==> filter.offset + 4 * filter.num + 5 <= |filter.contents|)
  }

  lemma FilterIsReadParts(filter: F.FilterBlockReader, t: Image, policy: B.BloomFilterPolicy?)
    requires FilterIsRead(filter, t, policy)
    ensures policy != null && filter.policy == policy && filter.Reads(t.groups)
    ensures filter.num > 0 ==> filter.offset + 4 * filter.num + 5 <= |filter.contents|
  {
    hide F.FilterBlockReader.Reads;
  }

  // ---------------------------------------------------------------- opening

  /** Table::Open on a finished table: the footer, the index block, and the filters if the policy asks
      for them. */
  method OpenTable(file: Bytes, verifyChecksums: bool, policy: B.BloomFilterPolicy?, name: Bytes, ghost t: Image)
    returns (table: Table)
    requires Readable(file, t, policy, name)
    ensures table.Valid() && table.t == t && table.policy == policy
    ensures (table.filter == null) == (policy == null)
  {
    hide *;
    ReadableParts(file, t, policy, name);
    SizedParts(file, t);
    FooterParts(file, t);
    IndexIsBlock(file, t);
    MetaParts(file, t, policy, name);
    HandleFits(file, t.indexHandle, t.index.data);
    HandleFits(file, t.metaHandle, t.meta.data);
    FooterRoundTrip(t.metaHandle, t.indexHandle);
    FooterIsLong();
    var footer := DecodeFooter(file[|file| - FOOTER..]);
    var (metaHandle, indexHandle) := footer.value;
    var indexRead := ReadBlock(file, indexHandle, verifyChecksums);
    var indexContents := indexRead.value;
    var area := OpenBlock(indexContents, t.index);
    var filter := ReadMeta(file, verifyChecksums, policy, name, metaHandle, t);
    table := new Table(file, verifyChecksums, indexContents, area.restarts, area.numRestarts, filter, t, policy, name);
  }

  lemma FooterIsLong()
    ensures FOOTER == 48
  {
  }

  /** Looks the policy's name up in the metaindex, and reads the filters found there. */
  method ReadMeta(file: Bytes, verifyChecksums: bool, policy: B.BloomFilterPolicy?, name: Bytes, metaHandle: Handle,
                  ghost t: Image)
    returns (filter: F.FilterBlockReader?)
    requires Readable(file, t, policy, name) && metaHandle == t.metaHandle
    ensures (filter == null) == (policy == null)
    ensures filter != null ==> FilterIsRead(filter, t, policy)
  {
    hide *;
    filter := null;
    if policy == null {
      return;
    }
    ReadableParts(file, t, policy, name);
    SizedParts(file, t);
    MetaParts(file, t, policy, name);
    FilterParts(file, t, policy);
    BytewiseIsTotalOrder();
    var block := ReadBlock(file, metaHandle, verifyChecksums);
    var contents := block.value;
    var area := OpenBlock(contents, t.meta);
    var iter := new BlockIter(BytesLess, contents, area.restarts, area.numRestarts, t.meta);
    var key := FilterKey(name);
    iter.Seek(key);
    OnlyEntry(t.meta.entries, key, iter.pos);
    var valid := iter.AtEntry();
    if valid {
      var value := iter.Value();
      if iter.key == key {
        filter := ReadFilter(file, verifyChecksums, policy, value, t);
      }
    }
  }

  lemma OnlyEntry(entries: seq<Pair>, key: Bytes, i: nat)
    requires |entries| == 1 && entries[0].key == key && FirstAtLeast(BytesLess, entries, key, i)
    ensures i == 0
  {
    BytesLessIrreflexive(key);
  }

  method ReadFilter(file: Bytes, verifyChecksums: bool, policy: B.BloomFilterPolicy, value: Bytes, ghost t: Image)
    returns (filter: F.FilterBlockReader?)
    requires |file| < TWO_64 && |t.filter| < TWO_32 && value == EncodeHandle(t.filterHandle)
    requires Holds(file, t.filterHandle, t.filter) && F.IsFilterBlock(t.filter, t.groups, policy)
    ensures filter != null && FilterIsRead(filter, t, policy)
  {
    hide *;
    HandleFits(file, t.filterHandle, t.filter);
    HandleRoundTrip(t.filterHandle, []);
    WithNothing(value);
    var handle := DecodeHandle(value).value.0;
    var block := ReadBlock(file, handle, verifyChecksums);
    var contents := block.value;
    filter := new F.FilterBlockReader(policy, contents);
    FilterReads(filter, t, policy);
  }

  lemma FilterReads(filter: F.FilterBlockReader, t: Image, policy: B.BloomFilterPolicy)
    requires filter.policy == policy && filter.contents == t.filter && |t.filter| < TWO_32
    requires F.IsFilterBlock(t.filter, t.groups, policy)
    requires filter.num > 0 ==> filter.offset + 4 * filter.num + 5 <= |filter.contents|
    requires |filter.contents| >= 5 ==>
      var lastWord := DecodeFixed(filter.contents[|filter.contents| - 5..|filter.contents| - 1]);
      && filter.baseLg == filter.contents[|filter.contents| - 1]
      && (lastWord <= |filter.contents| - 5 ==>
           filter.offset == lastWord && filter.num == (|filter.contents| - 5 - lastWord) / 4)
    ensures FilterIsRead(filter, t, policy)
  {
    hide DecodeFixed, F.Filters;
    FilterIsLong(t.filter, t.groups, policy);
  }

  lemma FilterIsLong(contents: Bytes, groups: seq<seq<Bytes>>, policy: B.BloomFilterPolicy)
    requires F.IsFilterBlock(contents, groups, policy)
    ensures |contents| >= 5
  {
    hide F.Filters, FixedAll, Fixed;
  }
}
