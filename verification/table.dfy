/** What a table is: data blocks in key order, separators between them, and why one block is enough
    to look a key up (table/table_builder.cc, table/table.cc). */
module Tables {
  import opened Wrappers
  import opened Coding
  import opened Comparators
  import opened Blocks
  import opened TableFormats

  datatype TableBlock = TableBlock(layout: Layout, handle: Handle)

  /** All entries, block after block. */
  function All(blocks: seq<TableBlock>): seq<Pair> {
    if blocks == [] then [] else All(blocks[..|blocks| - 1]) + blocks[|blocks| - 1].layout.entries
  }

  /** Where the entries of a block start among all. */
  function StartOf(blocks: seq<TableBlock>, i: nat): nat
    requires i <= |blocks|
  {
    |All(blocks[..i])|
  }

  ghost predicate KeysOk(entries: seq<Pair>) {
    Ascending(InternalLess, entries) && forall i :: 0 <= i < |entries| ==> IsInternal(entries[i].key)
  }

  /** A data block: what a block builder made of some keys in order. */
  ghost predicate BlockOk(b: TableBlock) {
    var l := b.layout;
    && Formed(l.entries, l.ds, l.starts) && Fits(l.ds, l.starts) && l.data == Contents(l.ds, l.starts)
    && |l.entries| > 0 && KeysOk(l.entries)
  }

  function FirstKey(b: TableBlock): Bytes
    requires |b.layout.entries| > 0
  {
    b.layout.entries[0].key
  }

  function LastKey(b: TableBlock): Bytes
    requires |b.layout.entries| > 0
  {
    b.layout.entries[|b.layout.entries| - 1].key
  }

  ghost predicate BlocksOk(blocks: seq<TableBlock>) {
    forall i :: 0 <= i < |blocks| ==> BlockOk(blocks[i])
  }

  /** The key that follows the i-th block: in the next block, or in the entries not yet in a block. */
  function NextKey(blocks: seq<TableBlock>, next: seq<Pair>, i: nat): Option<Bytes>
    requires i < |blocks| && forall k :: 0 <= k < |blocks| ==> |blocks[k].layout.entries| > 0
  {
    if i + 1 < |blocks| then Some(FirstKey(blocks[i + 1])) else if next != [] then Some(next[0].key) else None
  }

  /** The separator behind the i-th block is not before its last key, and before the key that follows:
      it is the last key itself, or its user key lies strictly between theirs. */
  ghost predicate SepOk(blocks: seq<TableBlock>, seps: seq<Bytes>, next: seq<Pair>, i: nat)
    requires i < |seps| <= |blocks| && BlocksOk(blocks)
  {
    assert forall k :: 0 <= k < |blocks| ==> BlockOk(blocks[k]);
    && IsInternal(seps[i]) && !InternalLess(seps[i], LastKey(blocks[i]))
    && var key := NextKey(blocks, next, i);
      key.Some? ==>
        && IsInternal(key.value) && InternalLess(LastKey(blocks[i]), key.value)
        && IsInternal(LastKey(blocks[i])) && Separates(LastKey(blocks[i]), seps[i], key.value)
  }

  ghost predicate SepsOk(blocks: seq<TableBlock>, seps: seq<Bytes>, next: seq<Pair>) {
    BlocksOk(blocks) && |seps| <= |blocks| && forall i :: 0 <= i < |seps| ==> SepOk(blocks, seps, next, i)
  }

  function IndexEntries(blocks: seq<TableBlock>, seps: seq<Bytes>): seq<Pair>
    requires |seps| <= |blocks|
  {
    seq(|seps|, i requires 0 <= i < |seps| => Pair(seps[i], EncodeHandle(blocks[i].handle)))
  }

  ghost predicate TableOk(blocks: seq<TableBlock>, seps: seq<Bytes>) {
    |seps| == |blocks| && SepsOk(blocks, seps, [])
  }

  // ---------------------------------------------------------------- the order of internal keys

  lemma InternalIsTotalOrder()
    ensures TotalOrder(InternalLess)
  {
    hide InternalLess;
    forall a ensures !InternalLess(a, a) {
      InternalLessIrreflexive(a);
    }
    forall a, b | a != b ensures InternalLess(a, b) || InternalLess(b, a) {
      InternalLessTotal(a, b);
    }
    forall a, b, c | InternalLess(a, b) && InternalLess(b, c) ensures InternalLess(a, c) {
      InternalLessTransitive(a, b, c);
    }
  }

  lemma BytewiseIsTotalOrder()
    ensures TotalOrder(BytesLess)
  {
    hide BytesLess;
    forall a ensures !BytesLess(a, a) {
      BytesLessIrreflexive(a);
    }
    forall a, b | a != b ensures BytesLess(a, b) || BytesLess(b, a) {
      BytesLessTotal(a, b);
    }
    forall a, b, c | BytesLess(a, b) && BytesLess(b, c) ensures BytesLess(a, c) {
      BytesLessTransitive(a, b, c);
    }
  }

  /** a is not after b and b is before c. */
  lemma NotAfterThenBefore(a: Bytes, b: Bytes, c: Bytes)
    requires !InternalLess(b, a) && InternalLess(b, c)
    ensures InternalLess(a, c)
  {
    if a != b {
      InternalLessTotal(a, b);
      InternalLessTransitive(a, b, c);
    }
  }

  lemma BeforeThenNotAfter(a: Bytes, b: Bytes, c: Bytes)
    requires InternalLess(a, b) && !InternalLess(c, b)
    ensures InternalLess(a, c)
  {
    if b != c {
      InternalLessTotal(b, c);
      InternalLessTransitive(a, b, c);
    }
  }

  // ---------------------------------------------------------------- positions among all entries

  lemma {:induction false} AllSplits(blocks: seq<TableBlock>, i: nat)
    requires i < |blocks|
    ensures All(blocks[..i]) + blocks[i].layout.entries == All(blocks[..i + 1])
    ensures All(blocks[..i + 1]) <= All(blocks)
    ensures StartOf(blocks, i) + |blocks[i].layout.entries| == StartOf(blocks, i + 1) <= |All(blocks)|
    decreases |blocks|
  {
    assert blocks[..i + 1][..i] == blocks[..i];
    if i == |blocks| - 1 {
      assert blocks[..i + 1] == blocks;
    } else {
      var n := |blocks| - 1;
      AllSplits(blocks[..n], i);
      assert blocks[..n][..i + 1] == blocks[..i + 1] && blocks[..n][..i] == blocks[..i];
    }
  }

  lemma EntryAt(blocks: seq<TableBlock>, i: nat, j: nat)
    requires i < |blocks| && j < |blocks[i].layout.entries|
    ensures StartOf(blocks, i) + j < StartOf(blocks, i + 1) <= |All(blocks)|
    ensures All(blocks)[StartOf(blocks, i) + j] == blocks[i].layout.entries[j]
  {
    AllSplits(blocks, i);
    hide All;
    assert All(blocks)[StartOf(blocks, i) + j] == All(blocks[..i + 1])[StartOf(blocks, i) + j];
  }

  lemma StartsAndEnds(blocks: seq<TableBlock>)
    ensures StartOf(blocks, 0) == 0 && StartOf(blocks, |blocks|) == |All(blocks)|
  {
    assert blocks[..|blocks|] == blocks;
  }

  // ---------------------------------------------------------------- the index

  lemma SepAt(blocks: seq<TableBlock>, seps: seq<Bytes>, next: seq<Pair>, i: nat)
    requires SepsOk(blocks, seps, next) && i < |seps|
    ensures i < |blocks| && BlockOk(blocks[i]) && |blocks[i].layout.entries| > 0
    ensures IsInternal(seps[i]) && !InternalLess(seps[i], LastKey(blocks[i]))
    ensures i + 1 < |blocks| ==>
      && BlockOk(blocks[i + 1]) && |blocks[i + 1].layout.entries| > 0
      && IsInternal(LastKey(blocks[i])) && IsInternal(FirstKey(blocks[i + 1]))
      && InternalLess(LastKey(blocks[i]), FirstKey(blocks[i + 1]))
      && Separates(LastKey(blocks[i]), seps[i], FirstKey(blocks[i + 1]))
      && InternalLess(seps[i], FirstKey(blocks[i + 1]))
  {
    hide InternalLess, Separates, BytesLess, KeysOk, Formed, Contents;
    assert SepOk(blocks, seps, next, i);
    assert BlockOk(blocks[i]);
    if i + 1 < |blocks| {
      assert BlockOk(blocks[i + 1]);
      SeparatorIsOrdered(LastKey(blocks[i]), seps[i], FirstKey(blocks[i + 1]));
    }
  }

  lemma FirstNotAfterLast(b: TableBlock, j: nat)
    requires BlockOk(b) && j < |b.layout.entries|
    ensures !InternalLess(LastKey(b), b.layout.entries[j].key)
    ensures IsInternal(b.layout.entries[j].key)
  {
    hide InternalLess, Formed, Contents;
    var entries := b.layout.entries;
    var last := LastKey(b);
    InternalLessIrreflexive(last);
    if j < |entries| - 1 && InternalLess(last, entries[j].key) {
      InternalLessTransitive(last, entries[j].key, last);
    }
  }

  lemma {:induction false} SepsAscend(blocks: seq<TableBlock>, seps: seq<Bytes>, next: seq<Pair>, i: nat, j: nat)
    requires SepsOk(blocks, seps, next) && i < j < |seps|
    ensures InternalLess(seps[i], seps[j])
    decreases j - i
  {
    hide *;
    SepAt(blocks, seps, next, j - 1);
    SepAt(blocks, seps, next, j);
    FirstIs(blocks[j]);
    FirstNotAfterLast(blocks[j], 0);
    BeforeThenNotAfter(seps[j - 1], FirstKey(blocks[j]), LastKey(blocks[j]));
    BeforeThenNotAfter(seps[j - 1], LastKey(blocks[j]), seps[j]);
    if i < j - 1 {
      SepsAscend(blocks, seps, next, i, j - 1);
      InternalLessTransitive(seps[i], seps[j - 1], seps[j]);
    }
  }

  lemma IndexAscends(blocks: seq<TableBlock>, seps: seq<Bytes>, next: seq<Pair>)
    requires SepsOk(blocks, seps, next)
    ensures |seps| <= |blocks| && Ascending(InternalLess, IndexEntries(blocks, seps))
  {
    hide SepOk, InternalLess, EncodeHandle, BlocksOk;
    var index := IndexEntries(blocks, seps);
    forall i, j | 0 <= i < j < |index| ensures InternalLess(index[i].key, index[j].key) {
      SepsAscend(blocks, seps, next, i, j);
    }
  }

  // ---------------------------------------------------------------- all entries ascend

  lemma AppendAscends(a: seq<Pair>, b: seq<Pair>)
    requires KeysOk(a) && KeysOk(b)
    requires a != [] && b != [] ==> InternalLess(a[|a| - 1].key, b[0].key)
    ensures KeysOk(a + b)
  {
    hide InternalLess, IsInternal;
    var all := a + b;
    forall i, j | 0 <= i < j < |all| ensures InternalLess(all[i].key, all[j].key) {
      if i < |a| <= j {
        var x, y, z := all[i].key, a[|a| - 1].key, b[0].key;
        if i < |a| - 1 {
          InternalLessTransitive(x, y, z);
        }
        if j > |a| {
          InternalLessTransitive(x, z, all[j].key);
        }
      }
    }
  }

  lemma BlockKeys(blocks: seq<TableBlock>, seps: seq<Bytes>, i: nat)
    requires TableOk(blocks, seps) && i < |blocks|
    ensures KeysOk(blocks[i].layout.entries) && |blocks[i].layout.entries| > 0
    ensures i > 0 ==> |blocks[i - 1].layout.entries| > 0 && InternalLess(LastKey(blocks[i - 1]), FirstKey(blocks[i]))
  {
    hide InternalLess, KeysOk, Formed, Fits, Contents;
    assert BlockOk(blocks[i]);
    if i > 0 {
      assert BlockOk(blocks[i - 1]) && SepOk(blocks, seps, [], i - 1);
    }
  }

  /** The entries of a table ascend, across blocks too. */
  lemma {:induction false} AllAscends(blocks: seq<TableBlock>, seps: seq<Bytes>, n: nat)
    requires TableOk(blocks, seps) && n <= |blocks|
    ensures KeysOk(All(blocks[..n]))
    ensures n > 0 ==>
      var all := All(blocks[..n]);
      all != [] && |blocks[n - 1].layout.entries| > 0 && all[|all| - 1].key == LastKey(blocks[n - 1])
  {
    hide InternalLess, TableOk, KeysOk;
    if n == 0 {
      NoKeys();
    } else {
      AllAscends(blocks, seps, n - 1);
      assert blocks[..n][..n - 1] == blocks[..n - 1];
      BlockKeys(blocks, seps, n - 1);
      if n == 1 {
        assert All(blocks[..0]) == [];
      }
      AppendAscends(All(blocks[..n - 1]), blocks[n - 1].layout.entries);
    }
  }

  lemma NoKeys()
    ensures KeysOk([])
  {
  }

  // ---------------------------------------------------------------- one block is enough

  /** Everything in the blocks whose separators are below a key is below it. */
  lemma {:induction false} BelowSeparators(blocks: seq<TableBlock>, seps: seq<Bytes>, k: Bytes, i: nat)
    requires TableOk(blocks, seps) && i <= |blocks|
    requires forall n :: 0 <= n < i ==> InternalLess(seps[n], k)
    ensures AllBelow(InternalLess, All(blocks), k, StartOf(blocks, i))
  {
    hide *;
    TableParts(blocks, seps);
    if i == 0 {
      StartsAndEnds(blocks);
      NothingBelow(All(blocks), k);
    } else {
      BelowSeparators(blocks, seps, k, i - 1);
      SepAt(blocks, seps, [], i - 1);
      AllSplits(blocks, i - 1);
      var entries := blocks[i - 1].layout.entries;
      forall j | 0 <= j < |entries| ensures InternalLess(entries[j].key, k) {
        FirstNotAfterLast(blocks[i - 1], j);
        NotAfterThenBefore(LastKey(blocks[i - 1]), seps[i - 1], k);
        NotAfterThenBefore(entries[j].key, LastKey(blocks[i - 1]), k);
      }
      BelowBlock(blocks, k, i - 1, |entries|);
    }
  }

  lemma TableParts(blocks: seq<TableBlock>, seps: seq<Bytes>)
    requires TableOk(blocks, seps)
    ensures |seps| == |blocks| && SepsOk(blocks, seps, [])
  {
    hide SepsOk;
  }

  lemma NothingBelow(all: seq<Pair>, k: Bytes)
    ensures AllBelow(InternalLess, all, k, 0)
  {
  }

  /** Adds the first j entries of block i to what is below a key. */
  lemma BelowBlock(blocks: seq<TableBlock>, k: Bytes, i: nat, j: nat)
    requires i < |blocks| && j <= |blocks[i].layout.entries|
    requires AllBelow(InternalLess, All(blocks), k, StartOf(blocks, i))
    requires forall n :: 0 <= n < j ==> InternalLess(blocks[i].layout.entries[n].key, k)
    ensures AllBelow(InternalLess, All(blocks), k, StartOf(blocks, i) + j)
  {
    hide All, StartOf, InternalLess;
    AllSplits(blocks, i);
    var all, start := All(blocks), StartOf(blocks, i);
    forall n | 0 <= n < start + j ensures InternalLess(all[n].key, k) {
      if n >= start {
        EntryAt(blocks, i, n - start);
      }
    }
  }

  lemma FirstParts(entries: seq<Pair>, k: Bytes, j: nat)
    requires FirstAtLeast(InternalLess, entries, k, j)
    ensures j <= |entries| && AllBelow(InternalLess, entries, k, j)
    ensures j < |entries| ==> !InternalLess(entries[j].key, k)
  {
    hide InternalLess;
  }

  lemma IsFirst(entries: seq<Pair>, k: Bytes, j: nat)
    requires AllBelow(InternalLess, entries, k, j) && (j < |entries| ==> !InternalLess(entries[j].key, k))
    ensures FirstAtLeast(InternalLess, entries, k, j)
  {
    hide InternalLess;
  }

  lemma BelowAt(entries: seq<Pair>, k: Bytes, j: nat)
    requires AllBelow(InternalLess, entries, k, j)
    ensures j <= |entries| && forall n :: 0 <= n < j ==> InternalLess(entries[n].key, k)
  {
    hide InternalLess;
  }

  lemma IndexAt(blocks: seq<TableBlock>, seps: seq<Bytes>, i: nat)
    requires i < |seps| <= |blocks|
    ensures |IndexEntries(blocks, seps)| == |seps|
    ensures IndexEntries(blocks, seps)[i] == Pair(seps[i], EncodeHandle(blocks[i].handle))
  {
    hide EncodeHandle;
  }

  lemma IndexLength(blocks: seq<TableBlock>, seps: seq<Bytes>)
    requires |seps| <= |blocks|
    ensures |IndexEntries(blocks, seps)| == |seps|
  {
    hide EncodeHandle;
  }

  lemma BelowIndex(blocks: seq<TableBlock>, seps: seq<Bytes>, k: Bytes, i: nat)
    requires |seps| == |blocks| && FirstAtLeast(InternalLess, IndexEntries(blocks, seps), k, i)
    ensures i <= |blocks| && (forall n :: 0 <= n < i ==> InternalLess(seps[n], k))
    ensures i < |blocks| ==> !InternalLess(seps[i], k)
  {
    hide *;
    IndexLength(blocks, seps);
    FirstParts(IndexEntries(blocks, seps), k, i);
    BelowAt(IndexEntries(blocks, seps), k, i);
    forall n | 0 <= n < i ensures InternalLess(seps[n], k) {
      IndexAt(blocks, seps, n);
    }
    if i < |blocks| {
      IndexAt(blocks, seps, i);
    }
  }

  /** Past the last separator there is nothing left. */
  lemma SeekPastIndex(blocks: seq<TableBlock>, seps: seq<Bytes>, k: Bytes)
    requires TableOk(blocks, seps) && FirstAtLeast(InternalLess, IndexEntries(blocks, seps), k, |blocks|)
    requires |seps| == |blocks|
    ensures FirstAtLeast(InternalLess, All(blocks), k, |All(blocks)|)
  {
    hide *;
    BelowIndex(blocks, seps, k, |blocks|);
    BelowSeparators(blocks, seps, k, |blocks|);
    StartsAndEnds(blocks);
    IsFirst(All(blocks), k, |All(blocks)|);
  }

  /** The block that the index leads to decides: the first key not below k is where a search of that
      block ends; if that is the block's end, the key that follows has another user key than k. */
  lemma OneBlockIsEnough(blocks: seq<TableBlock>, seps: seq<Bytes>, k: Bytes, i: nat, j: nat)
    requires TableOk(blocks, seps) && |seps| == |blocks| && IsInternal(k)
    requires FirstAtLeast(InternalLess, IndexEntries(blocks, seps), k, i) && i < |blocks|
    requires FirstAtLeast(InternalLess, blocks[i].layout.entries, k, j)
    ensures StartOf(blocks, i) + j <= |All(blocks)|
    ensures FirstAtLeast(InternalLess, All(blocks), k, StartOf(blocks, i) + j)
    ensures j < |blocks[i].layout.entries| ==>
      StartOf(blocks, i) + j < |All(blocks)| && All(blocks)[StartOf(blocks, i) + j] == blocks[i].layout.entries[j]
    ensures j == |blocks[i].layout.entries| && i + 1 < |blocks| ==>
      && StartOf(blocks, i) + j < |All(blocks)|
      && IsInternal(All(blocks)[StartOf(blocks, i) + j].key)
      && UserKeyOf(All(blocks)[StartOf(blocks, i) + j].key) != UserKeyOf(k)
    ensures j == |blocks[i].layout.entries| && i + 1 == |blocks| ==> StartOf(blocks, i) + j == |All(blocks)|
  {
    hide *;
    var entries := blocks[i].layout.entries;
    TableParts(blocks, seps);
    BelowIndex(blocks, seps, k, i);
    FirstOfBlockIsFirst(blocks, seps, k, i, j);
    FirstParts(entries, k, j);
    BelowAt(entries, k, j);
    AllSplits(blocks, i);
    if j < |entries| {
      EntryAt(blocks, i, j);
    } else if i + 1 < |blocks| {
      SepAt(blocks, seps, [], i);
      LastIs(blocks[i]);
      EntryAt(blocks, i + 1, 0);
      FirstIs(blocks[i + 1]);
      NextUserKeyDiffers(LastKey(blocks[i]), seps[i], FirstKey(blocks[i + 1]), k);
    } else {
      StartsAndEnds(blocks);
    }
  }

  /** The same for any target, internal key or not: where the block's search ends, the table's does. */
  lemma FirstOfBlockIsFirst(blocks: seq<TableBlock>, seps: seq<Bytes>, k: Bytes, i: nat, j: nat)
    requires TableOk(blocks, seps) && |seps| == |blocks|
    requires FirstAtLeast(InternalLess, IndexEntries(blocks, seps), k, i) && i < |blocks|
    requires FirstAtLeast(InternalLess, blocks[i].layout.entries, k, j)
    ensures StartOf(blocks, i) + j <= |All(blocks)|
    ensures FirstAtLeast(InternalLess, All(blocks), k, StartOf(blocks, i) + j)
  {
    hide *;
    var entries, all := blocks[i].layout.entries, All(blocks);
    TableParts(blocks, seps);
    BelowIndex(blocks, seps, k, i);
    BelowSeparators(blocks, seps, k, i);
    FirstParts(entries, k, j);
    BelowAt(entries, k, j);
    BelowBlock(blocks, k, i, j);
    AllSplits(blocks, i);
    BelowAt(all, k, StartOf(blocks, i) + j);
    if j < |entries| {
      EntryAt(blocks, i, j);
    } else if i + 1 < |blocks| {
      SepAt(blocks, seps, [], i);
      EntryAt(blocks, i + 1, 0);
      FirstIs(blocks[i + 1]);
      NotBelowNext(seps[i], FirstKey(blocks[i + 1]), k);
    } else {
      StartsAndEnds(blocks);
    }
    IsFirst(all, k, StartOf(blocks, i) + j);
  }

  lemma NotBelowNext(sep: Bytes, first: Bytes, k: Bytes)
    requires InternalLess(sep, first) && !InternalLess(sep, k)
    ensures !InternalLess(first, k)
  {
    if InternalLess(first, k) {
      InternalLessTransitive(sep, first, k);
    }
  }

  lemma LastIs(b: TableBlock)
    requires |b.layout.entries| > 0
    ensures LastKey(b) == b.layout.entries[|b.layout.entries| - 1].key
  {
  }

  lemma FirstIs(b: TableBlock)
    requires |b.layout.entries| > 0
    ensures FirstKey(b) == b.layout.entries[0].key
  {
  }

  /** A key after a block's last key and not after its separator is before the next block's keys, and
      has another user key than those. */
  lemma NextUserKeyDiffers(last: Bytes, sep: Bytes, first: Bytes, k: Bytes)
    requires IsInternal(last) && IsInternal(sep) && IsInternal(first) && IsInternal(k)
    requires Separates(last, sep, first) && InternalLess(sep, first)
    requires InternalLess(last, k) && !InternalLess(sep, k)
    ensures !InternalLess(first, k) && UserKeyOf(first) != UserKeyOf(k)
  {
    hide BytesLess, DecodeFixed;
    if InternalLess(first, k) {
      InternalLessTransitive(sep, first, k);
    }
  }
}
