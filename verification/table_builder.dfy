/** Building a table: data blocks, a shortened key and a handle for each in the index, and filters for
    every 2 KB (table/table_builder.cc). */
module TableBuilders {
  import opened Wrappers
  import opened Coding
  import opened Comparators
  import opened Blocks
  import opened TableFormats
  import opened Tables
  import opened TableFiles
  import F = FilterBlocks
  import B = BloomFilters

  /** The blocks written, their separators so far, and the entries of the block being filled; the last
      separator is missing until the next key is known. */
  ghost predicate BuildOk(blocks: seq<TableBlock>, seps: seq<Bytes>, next: seq<Pair>) {
    && SepsOk(blocks, seps, next) && KeysOk(next)
    && |blocks| <= |seps| + 1
    && (|seps| < |blocks| ==> next == [])
    && (|seps| == |blocks| > 0 ==> next != [])
  }

  /** The key added last. */
  function LastAdded(blocks: seq<TableBlock>, next: seq<Pair>): Option<Bytes>
  {
    if next != [] then Some(next[|next| - 1].key)
    else if blocks != [] && blocks[|blocks| - 1].layout.entries != [] then Some(LastKey(blocks[|blocks| - 1]))
    else None
  }

  /** The group of keys for an offset: finished, or still being collected. */
  function GroupAt(g: nat, groups: seq<seq<Bytes>>, pending: seq<Bytes>): seq<Bytes> {
    if g < |groups| then groups[g] else pending
  }

  /** The keys of each block went into the filter of the 2 KB in which the block starts. */
  ghost predicate Filtered(blocks: seq<TableBlock>, groups: seq<seq<Bytes>>, pending: seq<Bytes>) {
    forall i :: 0 <= i < |blocks| ==> FilteredAt(blocks[i], groups, pending)
  }

  ghost predicate FilteredAt(b: TableBlock, groups: seq<seq<Bytes>>, pending: seq<Bytes>) {
    var g := b.handle.offset / F.FILTER_BASE;
    g <= |groups| && AllIn(b.layout.entries, GroupAt(g, groups, pending))
  }

  // ---------------------------------------------------------------- steps

  lemma NothingBuilt(file: Bytes, groups: seq<seq<Bytes>>)
    ensures BuildOk([], [], []) && Held(file, []) && Filtered([], groups, []) && AllIn([], [])
    ensures IndexEntries([], []) == [] && All([]) + [] == []
    ensures LastAdded([], []) == None
  {
  }

  /** A key behind all others: joins the block, after the separator it was needed for. */
  lemma AddStep(blocks: seq<TableBlock>, seps: seq<Bytes>, next: seq<Pair>, seps1: seq<Bytes>, e: Pair)
    requires BuildOk(blocks, seps, next) && IsInternal(e.key)
    requires LastAdded(blocks, next).Some? ==> InternalLess(LastAdded(blocks, next).value, e.key)
    requires |seps| == |blocks| ==> seps1 == seps
    requires |seps| < |blocks| ==>
      |blocks[|blocks| - 1].layout.entries| > 0 && IsInternal(LastKey(blocks[|blocks| - 1]))
    requires |seps| < |blocks| ==> |seps1| == |seps| + 1 && seps1[..|seps|] == seps && IsInternal(seps1[|seps|])
                                   && Separates(LastKey(blocks[|blocks| - 1]), seps1[|seps|], e.key)
    ensures BuildOk(blocks, seps1, next + [e])
    ensures LastAdded(blocks, next + [e]) == Some(e.key)
    ensures All(blocks) + (next + [e]) == All(blocks) + next + [e]
  {
    hide *;
    BuildParts(blocks, seps, next);
    NextIsLast(blocks, next, e);
    KeysGrow(next, e);
    SepsGrow(blocks, seps, next, seps1, e);
    BuildIs(blocks, seps1, next + [e]);
    assert All(blocks) + (next + [e]) == All(blocks) + next + [e];
  }

  lemma BuildIs(blocks: seq<TableBlock>, seps: seq<Bytes>, next: seq<Pair>)
    requires SepsOk(blocks, seps, next) && KeysOk(next) && |blocks| <= |seps| + 1 && next != []
    requires |seps| >= |blocks|
    ensures BuildOk(blocks, seps, next)
  {
    hide SepsOk, KeysOk;
  }

  lemma BuildParts(blocks: seq<TableBlock>, seps: seq<Bytes>, next: seq<Pair>)
    requires BuildOk(blocks, seps, next)
    ensures SepsOk(blocks, seps, next) && KeysOk(next) && |blocks| <= |seps| + 1
    ensures (|seps| < |blocks| ==> next == []) && (|seps| == |blocks| > 0 ==> next != []) && |seps| <= |blocks|
  {
    hide SepOk, KeysOk;
  }

  lemma NextIsLast(blocks: seq<TableBlock>, next: seq<Pair>, e: Pair)
    ensures LastAdded(blocks, next + [e]) == Some(e.key)
    ensures next != [] ==> LastAdded(blocks, next) == Some(next[|next| - 1].key)
  {
  }

  lemma KeysGrow(next: seq<Pair>, e: Pair)
    requires KeysOk(next) && IsInternal(e.key) && (next != [] ==> InternalLess(next[|next| - 1].key, e.key))
    ensures KeysOk(next + [e])
  {
    hide InternalLess;
    var all := next + [e];
    forall i, j | 0 <= i < j < |all| ensures InternalLess(all[i].key, all[j].key) {
      if j == |next| && i < |next| - 1 {
        assert InternalLess(next[i].key, next[|next| - 1].key);
        InternalLessTransitive(next[i].key, next[|next| - 1].key, e.key);
      }
    }
  }

  lemma SepsGrow(blocks: seq<TableBlock>, seps: seq<Bytes>, next: seq<Pair>, seps1: seq<Bytes>, e: Pair)
    requires BuildOk(blocks, seps, next) && IsInternal(e.key)
    requires LastAdded(blocks, next).Some? ==> InternalLess(LastAdded(blocks, next).value, e.key)
    requires |seps| == |blocks| ==> seps1 == seps
    requires |seps| < |blocks| ==>
      |blocks[|blocks| - 1].layout.entries| > 0 && IsInternal(LastKey(blocks[|blocks| - 1]))
    requires |seps| < |blocks| ==> |seps1| == |seps| + 1 && seps1[..|seps|] == seps && IsInternal(seps1[|seps|])
                                   && Separates(LastKey(blocks[|blocks| - 1]), seps1[|seps|], e.key)
    ensures SepsOk(blocks, seps1, next + [e])
  {
    hide InternalLess, Separates, BlockOk;
    forall i | 0 <= i < |seps1| ensures SepOk(blocks, seps1, next + [e], i) {
      if i < |seps| {
        assert SepOk(blocks, seps, next, i);
        assert seps1[i] == seps[i];
      } else {
        assert BlockOk(blocks[i]);
        SeparatorIsOrdered(LastKey(blocks[i]), seps1[i], e.key);
      }
    }
  }

  /** The block being filled becomes the last block. */
  lemma FlushStep(blocks: seq<TableBlock>, seps: seq<Bytes>, next: seq<Pair>, b: TableBlock)
    requires BuildOk(blocks, seps, next) && next != [] && b.layout.entries == next
    requires var l := b.layout;
      Formed(l.entries, l.ds, l.starts) && Fits(l.ds, l.starts) && l.data == Contents(l.ds, l.starts)
    ensures BuildOk(blocks + [b], seps, []) && |seps| == |blocks|
    ensures All(blocks + [b]) == All(blocks) + next
    ensures LastAdded(blocks + [b], []) == LastAdded(blocks, next)
  {
    hide InternalLess, Separates, Formed, Contents;
    assert BlockOk(b);
    assert (blocks + [b])[..|blocks|] == blocks;
    var bs := blocks + [b];
    hide BlockOk;
    forall i | 0 <= i < |bs| ensures BlockOk(bs[i]) {
      if i < |blocks| {
        assert BlockOk(blocks[i]);
      }
    }
    forall i | 0 <= i < |seps| ensures SepOk(bs, seps, [], i) {
      assert SepOk(blocks, seps, next, i);
      assert BlockOk(bs[i]);
    }
  }

  lemma IndexGrows(blocks: seq<TableBlock>, seps: seq<Bytes>, seps1: seq<Bytes>)
    requires |seps1| == |seps| + 1 <= |blocks| && seps1[..|seps|] == seps
    ensures IndexEntries(blocks, seps1) == IndexEntries(blocks, seps)
            + [Pair(seps1[|seps|], EncodeHandle(blocks[|seps|].handle))]
  {
    hide EncodeHandle;
  }

  lemma IndexOfMore(blocks: seq<TableBlock>, seps: seq<Bytes>, b: TableBlock)
    requires |seps| <= |blocks|
    ensures IndexEntries(blocks + [b], seps) == IndexEntries(blocks, seps)
  {
    hide EncodeHandle;
  }

  lemma AllInGrows(next: seq<Pair>, pending: seq<Bytes>, e: Pair)
    requires AllIn(next, pending)
    ensures AllIn(next + [e], pending + [e.key])
  {
  }

  lemma FilteredGrows(blocks: seq<TableBlock>, groups: seq<seq<Bytes>>, pending: seq<Bytes>, key: Bytes)
    requires Filtered(blocks, groups, pending)
    ensures Filtered(blocks, groups, pending + [key])
  {
    forall i | 0 <= i < |blocks| ensures FilteredAt(blocks[i], groups, pending + [key]) {
      assert FilteredAt(blocks[i], groups, pending);
    }
  }

  lemma FilteredBlock(blocks: seq<TableBlock>, groups: seq<seq<Bytes>>, pending: seq<Bytes>, b: TableBlock)
    requires Filtered(blocks, groups, pending) && AllIn(b.layout.entries, pending)
    requires |groups| == b.handle.offset / F.FILTER_BASE
    ensures Filtered(blocks + [b], groups, pending)
  {
    hide AllIn;
  }

  /** Filters were completed up to a new offset. */
  lemma FilteredAfterStart(blocks: seq<TableBlock>, groups: seq<seq<Bytes>>, pending: seq<Bytes>,
                           groups1: seq<seq<Bytes>>, pending1: seq<Bytes>)
    requires Filtered(blocks, groups, pending) && |groups| <= |groups1|
    requires |groups| == |groups1| ==> pending1 == pending && groups1 == groups
    requires |groups| < |groups1| ==>
      pending1 == [] && groups1 == groups + [pending] + F.NoGroups(|groups1| - |groups| - 1)
    ensures Filtered(blocks, groups1, pending1)
  {
    hide AllIn;
    forall i | 0 <= i < |blocks| ensures FilteredAt(blocks[i], groups1, pending1) {
      assert FilteredAt(blocks[i], groups, pending);
    }
  }

  // ---------------------------------------------------------------- where blocks end

  /** No entry was added to a block that had reached the block size; keys share all they can but at the restart
      points, which come every so many entries. */
  ghost predicate NotOverfull(ds: seq<Delta>, starts: seq<nat>, n: nat, blockSize: nat) {
    forall i :: 0 < i < n && i <= |ds| ==> SizeAt(ds, starts, i) < blockSize
  }

  /** A finished block, as it was being built. */
  ghost predicate IsOf(l: Layout, ds: seq<Delta>, starts: seq<nat>, interval: nat) {
    && l.ds == ds && l.starts == starts && |l.data| == SizeAt(ds, starts, |ds|)
    && Tight(l.entries, ds, starts) && exists counter :: Spaced(|ds|, starts, interval, counter)
  }

  lemma IsLayout(l: Layout, interval: nat, counter: nat)
    requires Tight(l.entries, l.ds, l.starts) && Spaced(|l.ds|, l.starts, interval, counter)
    ensures l.ds != [] && |l.data| == SizeAt(l.ds, l.starts, |l.ds|) ==> IsOf(l, l.ds, l.starts, interval)
  {
    hide Tight, Spaced, SizeAt;
  }

  ghost predicate FullSoFar(blocks: seq<TableBlock>, interval: nat, blockSize: nat) {
    forall k :: 0 <= k < |blocks| ==>
      IsCut(blocks[k].layout, interval, blockSize) && |blocks[k].layout.data| >= blockSize
  }

  ghost predicate IsCut(l: Layout, interval: nat, blockSize: nat) {
    && Tight(l.entries, l.ds, l.starts) && (exists counter :: Spaced(|l.ds|, l.starts, interval, counter))
    && NotOverfull(l.ds, l.starts, |l.ds|, blockSize)
  }

  /** Every block ends with the first entry that makes it as large as the block size; only the last may be
      smaller. */
  ghost predicate WellCut(blocks: seq<TableBlock>, interval: nat, blockSize: nat) {
    forall k :: 0 <= k < |blocks| ==>
      IsCut(blocks[k].layout, interval, blockSize) && (k < |blocks| - 1 ==> |blocks[k].layout.data| >= blockSize)
  }

  /** So far no block is smaller, and the one being filled has not reached the block size. */
  ghost predicate CutSoFar(blocks: seq<TableBlock>, ds: seq<Delta>, starts: seq<nat>, interval: nat, blockSize: nat) {
    && FullSoFar(blocks, interval, blockSize)
    && NotOverfull(ds, starts, |ds| + 1, blockSize)
  }

  lemma NothingCut(interval: nat, blockSize: nat)
    ensures CutSoFar([], [], [0], interval, blockSize)
  {
  }

  lemma EntryCut(blocks: seq<TableBlock>, ds0: seq<Delta>, starts0: seq<nat>, restart: bool, ds: seq<Delta>,
                 starts: seq<nat>, interval: nat, blockSize: nat)
    requires CutSoFar(blocks, ds0, starts0, interval, blockSize) && GrownTo(ds0, starts0, restart, ds, starts)
    ensures NotOverfull(ds, starts, |ds|, blockSize) && FullSoFar(blocks, interval, blockSize)
    ensures SizeAt(ds, starts, |ds|) < blockSize ==> CutSoFar(blocks, ds, starts, interval, blockSize)
  {
    hide SizeAt;
    var d := ds[|ds| - 1];
    assert ds == ds0 + [d];
    forall i | 0 < i < |ds| ensures SizeAt(ds, starts, i) < blockSize {
      SizeStays(ds0, starts0, restart, d, i);
    }
  }

  lemma BlockCut(blocks: seq<TableBlock>, b: TableBlock, ds: seq<Delta>, starts: seq<nat>, interval: nat,
                 blockSize: nat)
    requires FullSoFar(blocks, interval, blockSize) && IsOf(b.layout, ds, starts, interval)
    requires NotOverfull(ds, starts, |ds|, blockSize)
    ensures WellCut(blocks + [b], interval, blockSize)
    ensures SizeAt(ds, starts, |ds|) >= blockSize ==> CutSoFar(blocks + [b], [], [0], interval, blockSize)
  {
    assert IsCut(b.layout, interval, blockSize);
    assert NotOverfull([], [0], 1, blockSize);
    hide IsCut, NotOverfull, SizeAt, Tight, Spaced;
  }

  lemma AllCut(blocks: seq<TableBlock>, ds: seq<Delta>, starts: seq<nat>, interval: nat, blockSize: nat)
    requires CutSoFar(blocks, ds, starts, interval, blockSize)
    ensures WellCut(blocks, interval, blockSize) && FullSoFar(blocks, interval, blockSize)
    ensures NotOverfull(ds, starts, |ds|, blockSize)
  {
    hide IsCut, SizeAt;
  }

  // ---------------------------------------------------------------- the builder

  class TableBuilder {
    const blockSize: nat
    const policyName: Bytes
    const dataBlock: BlockBuilder
    const indexBlock: BlockBuilder
    const filterBlock: F.FilterBlockBuilder?
    var file: Bytes
    var offset: nat
    var lastKey: Bytes
    var numEntries: nat
    var closed: bool
    var pendingIndexEntry: bool
    var pendingHandle: Handle
    ghost var blocks: seq<TableBlock>
    ghost var seps: seq<Bytes>
    ghost var added: seq<Pair>

    ghost predicate Objects()
      reads this, dataBlock, indexBlock, filterBlock
    {
      && dataBlock != indexBlock
      && dataBlock.Valid() && !dataBlock.finished && dataBlock.interval >= 1
      && indexBlock.Valid() && !indexBlock.finished && indexBlock.interval >= 1
      && (filterBlock != null ==> filterBlock.Valid())
    }

    ghost predicate Values()
      reads this, dataBlock, indexBlock
    {
      && offset == |file| && BuildOk(blocks, seps, dataBlock.entries) && |seps| <= |blocks|
      && indexBlock.entries == IndexEntries(blocks, seps) && Held(file, blocks)
      && added == All(blocks) + dataBlock.entries && numEntries == |added|
      && pendingIndexEntry == (|seps| < |blocks|)
      && (pendingIndexEntry ==> pendingHandle == blocks[|blocks| - 1].handle)
      && (numEntries > 0 ==> LastAdded(blocks, dataBlock.entries) == Some(lastKey) && lastKey == added[|added| - 1].key)
      && (LastAdded(blocks, dataBlock.entries).Some? ==> numEntries > 0)
    }

    ghost predicate Filters()
      reads this, dataBlock, filterBlock
    {
      filterBlock != null ==>
        && |filterBlock.groups| == offset / F.FILTER_BASE
        && Filtered(blocks, filterBlock.groups, filterBlock.pending)
        && AllIn(dataBlock.entries, filterBlock.pending)
    }

    ghost predicate Valid()
      reads this, dataBlock, indexBlock, filterBlock
    {
      Objects() && Values() && Filters()
    }

    /** Blocks have ended only because they were full. */
    ghost predicate Cut()
      reads this, dataBlock
    {
      CutSoFar(blocks, dataBlock.ds, dataBlock.starts, dataBlock.interval, blockSize)
    }

    lemma IsCutSoFar()
      ensures Cut() == CutSoFar(blocks, dataBlock.ds, dataBlock.starts, dataBlock.interval, blockSize)
    {
      hide CutSoFar;
    }

    lemma Parts()
      requires Valid()
      ensures Objects() && Values() && Filters()
    {
      hide Objects, Values, Filters;
    }

    lemma ObjectParts()
      requires Objects()
      ensures dataBlock != indexBlock
      ensures dataBlock.Valid() && !dataBlock.finished && dataBlock.interval >= 1
      ensures indexBlock.Valid() && !indexBlock.finished && indexBlock.interval >= 1
      ensures filterBlock != null ==> filterBlock.Valid()
    {
      hide BlockBuilder.Valid, F.FilterBlockBuilder.Valid;
    }

    lemma AreObjects()
      requires dataBlock != indexBlock
      requires dataBlock.Valid() && !dataBlock.finished && dataBlock.interval >= 1
      requires indexBlock.Valid() && !indexBlock.finished && indexBlock.interval >= 1
      requires filterBlock != null ==> filterBlock.Valid()
      ensures Objects()
    {
    }

    lemma ValueParts()
      requires Values()
      ensures offset == |file| && BuildOk(blocks, seps, dataBlock.entries) && |seps| <= |blocks|
      ensures indexBlock.entries == IndexEntries(blocks, seps) && Held(file, blocks)
      ensures added == All(blocks) + dataBlock.entries && numEntries == |added|
      ensures pendingIndexEntry == (|seps| < |blocks|)
      ensures pendingIndexEntry ==> pendingHandle == blocks[|blocks| - 1].handle
      ensures numEntries > 0 ==>
        LastAdded(blocks, dataBlock.entries) == Some(lastKey) && lastKey == added[|added| - 1].key
      ensures LastAdded(blocks, dataBlock.entries).Some? ==> numEntries > 0
    {
      hide BuildOk, Held, All, LastAdded, IndexEntries;
    }

    lemma AreValues()
      requires offset == |file| && BuildOk(blocks, seps, dataBlock.entries) && |seps| <= |blocks|
      requires indexBlock.entries == IndexEntries(blocks, seps) && Held(file, blocks)
      requires added == All(blocks) + dataBlock.entries && numEntries == |added|
      requires pendingIndexEntry == (|seps| < |blocks|)
      requires pendingIndexEntry ==> pendingHandle == blocks[|blocks| - 1].handle
      requires numEntries > 0 ==>
        LastAdded(blocks, dataBlock.entries) == Some(lastKey) && lastKey == added[|added| - 1].key
      requires LastAdded(blocks, dataBlock.entries).Some? ==> numEntries > 0
      ensures Values()
    {
      hide BuildOk, Held, All, LastAdded, IndexEntries;
    }

    lemma FilterParts()
      requires Filters() && filterBlock != null
      ensures |filterBlock.groups| == offset / F.FILTER_BASE
      ensures Filtered(blocks, filterBlock.groups, filterBlock.pending)
      ensures AllIn(dataBlock.entries, filterBlock.pending)
    {
      hide Filtered, AllIn;
    }

    lemma AreFilters()
      requires filterBlock != null ==>
        && |filterBlock.groups| == offset / F.FILTER_BASE
        && Filtered(blocks, filterBlock.groups, filterBlock.pending)
        && AllIn(dataBlock.entries, filterBlock.pending)
      ensures Filters()
    {
      hide Filtered, AllIn;
    }

    lemma IsValid()
      requires Objects() && Values() && Filters()
      ensures Valid()
    {
    }

    constructor (blockSize: nat, interval: nat, policy: B.BloomFilterPolicy?, policyName: Bytes)
      requires interval >= 1 && (policy != null ==> 1 <= policy.k <= B.MAX_PROBES)
      ensures Valid() && Cut() && !closed && added == [] && this.policyName == policyName
      ensures this.blockSize == blockSize && dataBlock.interval == interval
      ensures (filterBlock == null) == (policy == null)
      ensures filterBlock != null ==> filterBlock.policy == policy
      ensures fresh(dataBlock) && fresh(indexBlock) && (filterBlock != null ==> fresh(filterBlock))
    {
      hide *;
      this.blockSize, this.policyName := blockSize, policyName;
      dataBlock := new BlockBuilder(interval);
      indexBlock := new BlockBuilder(1);
      if policy != null {
        var filters := new F.FilterBlockBuilder(policy);
        filterBlock := filters;
      } else {
        filterBlock := null;
      }
      file, offset, lastKey, numEntries, closed := [], 0, [], 0, false;
      pendingIndexEntry, pendingHandle := false, Handle(0, 0);
      blocks, seps, added := [], [], [];
      new;
      NothingBuilt(file, []);
      if filterBlock != null {
        NothingYet();
        filterBlock.StartBlock(0);
        NothingBuilt(file, filterBlock.groups);
      }
      AreObjects();
      AreValues();
      AreFilters();
      IsValid();
      NothingCut(interval, blockSize);
      IsCutSoFar();
    }

    lemma NothingYet()
      ensures 0 / F.FILTER_BASE == 0
    {
    }

    /** Adds a key that comes after all others; the block ends here if it has become large enough. */
    method Add(key: Bytes, value: Bytes)
      requires Valid() && !closed && IsInternal(key)
      requires added != [] ==> InternalLess(added[|added| - 1].key, key)
      modifies this, dataBlock, indexBlock, filterBlock
      ensures Valid() && !closed && added == old(added) + [Pair(key, value)]
      ensures old(Cut()) ==> Cut()
    {
      hide *;
      Parts();
      ObjectParts();
      ValueParts();
      ghost var next, seps0, e := dataBlock.entries, seps, Pair(key, value);
      ghost var ds0, starts0, restart := dataBlock.ds, dataBlock.starts, dataBlock.counter == dataBlock.interval;
      IsCutSoFar();
      if filterBlock != null {
        FilterParts();
      }
      LastIsAdded(blocks, next, seps);
      if pendingIndexEntry {
        AddIndexEntry(key);
      }
      if filterBlock != null {
        FilteredGrows(blocks, filterBlock.groups, filterBlock.pending, key);
        AllInGrows(next, filterBlock.pending, e);
        filterBlock.AddKey(key);
      }
      AddStep(blocks, seps0, next, seps, e);
      lastKey := key;
      numEntries := numEntries + 1;
      dataBlock.Add(key, value);
      added := added + [e];
      AreObjects();
      AreValues();
      AreFilters();
      IsValid();
      EndIfFull(old(Cut()), ds0, starts0, restart);
    }

    /** Ends the block being filled if its newest entry has made it large enough. */
    method EndIfFull(ghost cut: bool, ghost ds0: seq<Delta>, ghost starts0: seq<nat>, ghost restart: bool)
      requires Valid() && !closed && dataBlock.Grown(ds0, starts0, restart)
      requires cut ==> CutSoFar(blocks, ds0, starts0, dataBlock.interval, blockSize)
      modifies this, dataBlock, indexBlock, filterBlock
      ensures Valid() && !closed && added == old(added) && (cut ==> Cut())
    {
      hide *;
      Parts();
      ObjectParts();
      IsCutSoFar();
      dataBlock.SizeIs();
      dataBlock.GrownIs(ds0, starts0, restart);
      ghost var blocks0, ds, starts := blocks, dataBlock.ds, dataBlock.starts;
      if cut {
        EntryCut(blocks, ds0, starts0, restart, ds, starts, dataBlock.interval, blockSize);
      }
      var estimatedBlockSize := dataBlock.CurrentSizeEstimate();
      if estimatedBlockSize >= blockSize {
        ghost var b := Flush();
        IsCutSoFar();
        if cut {
          BlockCut(blocks0, b, ds, starts, dataBlock.interval, blockSize);
        }
      }
    }

    /** Now that the next key is known: the index entry of the last block, under a separator. */
    method AddIndexEntry(key: Bytes)
      requires pendingIndexEntry && IsInternal(key) && IsInternal(lastKey)
      requires indexBlock.Valid() && !indexBlock.finished && |seps| + 1 == |blocks|
      requires indexBlock.entries == IndexEntries(blocks, seps) && pendingHandle == blocks[|blocks| - 1].handle
      modifies this`lastKey, this`pendingIndexEntry, this`seps, indexBlock
      ensures indexBlock.Valid() && !indexBlock.finished && !pendingIndexEntry
      ensures |seps| == |old(seps)| + 1 && seps[..|old(seps)|] == old(seps) && IsInternal(seps[|old(seps)|])
      ensures Separates(old(lastKey), seps[|old(seps)|], key)
      ensures |seps| <= |blocks| && indexBlock.entries == IndexEntries(blocks, seps)
    {
      hide *;
      var sep := FindShortestInternalSeparator(lastKey, key);
      lastKey := sep;
      indexBlock.Add(sep, EncodeHandle(pendingHandle));
      pendingIndexEntry := false;
      ghost var seps1 := seps + [sep];
      assert seps1[..|seps|] == seps;
      IndexGrows(blocks, seps, seps1);
      seps := seps1;
    }

    /** Writes the block being filled, if it holds anything. */
    method Flush() returns (ghost b: TableBlock)
      requires Valid() && !closed
      modifies this, dataBlock, indexBlock, filterBlock
      ensures Valid() && !closed && added == old(added) && dataBlock.entries == []
      ensures dataBlock.ds == [] && dataBlock.starts == [0]
      ensures old(dataBlock.ds) == [] ==> blocks == old(blocks)
      ensures old(dataBlock.ds) != [] ==>
        blocks == old(blocks) + [b] && IsOf(b.layout, old(dataBlock.ds), old(dataBlock.starts), dataBlock.interval)
    {
      hide *;
      Parts();
      ObjectParts();
      ValueParts();
      dataBlock.EmptyIs();
      b := TableBlock(Layout([], [], [], []), Handle(0, 0));
      var empty := dataBlock.IsEmpty();
      if empty {
        return;
      }
      ghost var next, file0 := dataBlock.entries, file;
      if filterBlock != null {
        FilterParts();
      }
      ghost var layout;
      pendingHandle, layout := WriteBlock(dataBlock);
      b := TableBlock(layout, pendingHandle);
      FlushStep(blocks, seps, next, b);
      HeldGrows(file0, blocks, b);
      IndexOfMore(blocks, seps, b);
      pendingIndexEntry := true;
      if filterBlock != null {
        StartNext(b, next);
      }
      blocks := blocks + [b];
      AllOfNothing(blocks);
      NoneIn([]);
      AreObjects();
      AreValues();
      AreFilters();
      IsValid();
    }

    /** The last block ends where the table does. */
    method FlushLast()
      requires Valid() && !closed
      modifies this, dataBlock, indexBlock, filterBlock
      ensures Valid() && !closed && added == old(added) && dataBlock.entries == []
      ensures old(Cut()) ==> WellCut(blocks, dataBlock.interval, blockSize)
    {
      hide *;
      IsCutSoFar();
      if Cut() {
        AllCut(blocks, dataBlock.ds, dataBlock.starts, dataBlock.interval, blockSize);
      }
      ghost var blocks0, ds, starts := blocks, dataBlock.ds, dataBlock.starts;
      ghost var last := Flush();
      if old(Cut()) && ds != [] {
        BlockCut(blocks0, last, ds, starts, dataBlock.interval, blockSize);
      }
    }

    /** Completes the filters up to the block that comes next. */
    method StartNext(ghost b: TableBlock, ghost next: seq<Pair>)
      requires filterBlock != null && filterBlock.Valid() && b.layout.entries == next
      requires |filterBlock.groups| == b.handle.offset / F.FILTER_BASE && b.handle.offset <= offset
      requires Filtered(blocks, filterBlock.groups, filterBlock.pending) && AllIn(next, filterBlock.pending)
      modifies filterBlock
      ensures filterBlock.Valid() && |filterBlock.groups| == offset / F.FILTER_BASE
      ensures Filtered(blocks + [b], filterBlock.groups, filterBlock.pending)
      ensures AllIn([], filterBlock.pending)
    {
      hide *;
      FilteredBlock(blocks, filterBlock.groups, filterBlock.pending, b);
      ghost var groups, pending := filterBlock.groups, filterBlock.pending;
      OffsetsGrow(b.handle.offset, offset);
      filterBlock.StartBlock(offset);
      FilteredAfterStart(blocks + [b], groups, pending, filterBlock.groups, filterBlock.pending);
      NoneIn(filterBlock.pending);
    }

    function Policy(): B.BloomFilterPolicy? {
      if filterBlock == null then null else filterBlock.policy
    }

    lemma PolicyIs()
      ensures Policy() == if filterBlock == null then null else filterBlock.policy
    {
    }

    /** The last block, the filters, the metaindex, the index and the footer. */
    method Finish(interval: nat) returns (ghost t: Image)
      requires Valid() && !closed && interval >= 1
      modifies this, dataBlock, indexBlock, filterBlock
      ensures closed && IsTable(file, t, Policy(), policyName) && All(t.blocks) == old(added)
      ensures old(Cut()) ==> WellCut(t.blocks, dataBlock.interval, blockSize)
    {
      PolicyIs();
      hide *;
      FlushLast();
      Parts();
      ObjectParts();
      ValueParts();
      AllOfNothing(blocks);
      BuiltIsOrdered(blocks, seps);
      LastIsAdded(blocks, [], seps);
      if filterBlock != null {
        FilterParts();
      }
      closed := true;
      var filterHandle := Handle(0, 0);
      ghost var filter: Bytes, groups: seq<seq<Bytes>> := [], [];
      ghost var file0 := file;
      if filterBlock != null {
        filterHandle, filter, groups := WriteFilter();
      }
      AfterFilter(file0, file, filter, filterHandle, groups, blocks, Policy());
      ghost var file1 := file;
      var metaHandle;
      ghost var meta;
      metaHandle, meta := WriteMeta(interval, filterHandle);
      AppendTwo(file1, meta.data, Trailer(meta.data), blocks, filter, filterHandle, groups, Policy());
      ghost var file2 := file;
      if pendingIndexEntry {
        AddLastIndexEntry();
      }
      LastSeparator(blocks, seps);
      var indexHandle;
      ghost var index;
      indexHandle, index := WriteBlock(indexBlock);
      AppendTwo(file2, index.data, Trailer(index.data), blocks, filter, filterHandle, groups, Policy());
      HoldsNew(file2, index.data);
      HoldsStillTwice(file2, index.data, Trailer(index.data), metaHandle, meta.data);
      t := Image(blocks, seps, index, indexHandle, meta, metaHandle, filter, filterHandle, groups);
      ghost var file3 := file;
      var footer := EncodeFooter(metaHandle, indexHandle);
      file := file + footer;
      offset := offset + |footer|;
      IsFinished(file3, t, Policy(), policyName);
    }

    method WriteFilter() returns (handle: Handle, ghost filter: Bytes, ghost groups: seq<seq<Bytes>>)
      requires filterBlock != null && filterBlock.Valid() && offset == |file| && BlocksOk(blocks)
      requires Filtered(blocks, filterBlock.groups, filterBlock.pending)
      modifies this`file, this`offset, filterBlock
      ensures handle == Handle(|old(file)|, |filter|) && offset == |file|
              && file == old(file) + filter + Trailer(filter)
      ensures F.IsFilterBlock(filter, groups, filterBlock.policy) && Covered(blocks, groups)
    {
      hide *;
      ghost var groups0, pending := filterBlock.groups, filterBlock.pending;
      var contents := filterBlock.Finish();
      filter, groups := contents, filterBlock.groups;
      AllCovered(blocks, groups0, pending, groups);
      handle := WriteRawBlock(contents);
    }

    /** The metaindex: where the filters are, under the policy's name. */
    method WriteMeta(interval: nat, filterHandle: Handle) returns (handle: Handle, ghost meta: Layout)
      requires interval >= 1 && offset == |file|
      modifies this`file, this`offset
      ensures Built(meta) && handle == Handle(|old(file)|, |meta.data|) && offset == |file|
      ensures file == old(file) + meta.data + Trailer(meta.data) && Holds(file, handle, meta.data)
      ensures meta.entries == if filterBlock == null then [] else [Pair(FilterKey(policyName),
              EncodeHandle(filterHandle))]
    {
      hide *;
      ghost var file0 := file;
      var metaIndexBlock := new BlockBuilder(interval);
      if filterBlock != null {
        metaIndexBlock.Add(FilterKey(policyName), EncodeHandle(filterHandle));
      }
      handle, meta := WriteBlock(metaIndexBlock);
      IsBuilt(meta);
      HoldsNew(file0, meta.data);
    }

    /** The index entry of the last block, under a short successor of its last key. */
    method AddLastIndexEntry()
      requires pendingIndexEntry && indexBlock.Valid() && !indexBlock.finished && |seps| + 1 == |blocks|
      requires indexBlock.entries == IndexEntries(blocks, seps) && pendingHandle == blocks[|blocks| - 1].handle
      requires BuildOk(blocks, seps, []) && LastAdded(blocks, []) == Some(lastKey)
      modifies this`lastKey, this`pendingIndexEntry, this`seps, indexBlock
      ensures indexBlock.Valid() && !indexBlock.finished
      ensures |seps| == |blocks| && indexBlock.entries == IndexEntries(blocks, seps)
      ensures SepsOk(blocks, seps, [])
    {
      hide *;
      LastIsAdded(blocks, [], seps);
      ghost var last := lastKey;
      lastKey := FindShortInternalSuccessor(lastKey);
      indexBlock.Add(lastKey, EncodeHandle(pendingHandle));
      pendingIndexEntry := false;
      ghost var seps1 := seps + [lastKey];
      assert seps1[..|seps|] == seps;
      IndexGrows(blocks, seps, seps1);
      SuccessorStep(blocks, seps, seps1);
      seps := seps1;
    }

    /** Finishes a block and appends it with its trailer. */
    method WriteBlock(block: BlockBuilder) returns (handle: Handle, ghost layout: Layout)
      requires block.Valid() && !block.finished && block.interval >= 1 && offset == |file|
      modifies this`file, this`offset, block
      ensures block.Valid() && !block.finished && block.entries == []
      ensures block.ds == [] && block.starts == [0]
      ensures old(block.ds) != [] ==> IsOf(layout, old(block.ds), old(block.starts), block.interval)
      ensures layout.entries == old(block.entries) && Formed(layout.entries, layout.ds, layout.starts)
      ensures Fits(layout.ds, layout.starts) && layout.data == Contents(layout.ds, layout.starts)
      ensures handle == Handle(old(|file|), |layout.data|) && offset == |file| && old(|file|) <= |file|
      ensures file == old(file) + layout.data + Trailer(layout.data)
    {
      hide *;
      ghost var entries := block.entries;
      block.SizeIs();
      var raw := block.Finish();
      layout := Layout(raw, entries, block.ds, block.starts);
      IsLayout(layout, block.interval, block.counter);
      handle := WriteRawBlock(raw);
      block.Reset();
    }

    method WriteRawBlock(contents: Bytes) returns (handle: Handle)
      requires offset == |file|
      modifies this`file, this`offset
      ensures handle == Handle(old(|file|), |contents|) && offset == |file| && old(|file|) <= |file|
      ensures file == old(file) + contents + Trailer(contents)
    {
      hide Trailer;
      handle := Handle(offset, |contents|);
      file := file + contents;
      file := file + Trailer(contents);
      offset := offset + |contents| + 5;
    }
  }

  lemma OffsetsGrow(a: nat, b: nat)
    requires a <= b
    ensures a / F.FILTER_BASE <= b / F.FILTER_BASE
  {
  }

  lemma NoneIn(group: seq<Bytes>)
    ensures AllIn([], group)
  {
  }

  lemma AllOfNothing(blocks: seq<TableBlock>)
    ensures All(blocks) + [] == All(blocks)
  {
  }

  /** What is known of the last key when its index entry is still to come. */
  lemma LastIsAdded(blocks: seq<TableBlock>, next: seq<Pair>, seps: seq<Bytes>)
    requires BuildOk(blocks, seps, next)
    ensures |seps| < |blocks| ==>
      && |seps| + 1 == |blocks| && |blocks[|blocks| - 1].layout.entries| > 0
      && IsInternal(LastKey(blocks[|blocks| - 1]))
      && LastAdded(blocks, next) == Some(LastKey(blocks[|blocks| - 1]))
  {
    hide SepOk, InternalLess, Formed, Contents;
    if |seps| < |blocks| {
      assert BlockOk(blocks[|blocks| - 1]);
    }
  }

  lemma SuccessorStep(blocks: seq<TableBlock>, seps: seq<Bytes>, seps1: seq<Bytes>)
    requires BuildOk(blocks, seps, []) && |seps1| == |seps| + 1 == |blocks| && seps1[..|seps|] == seps
    requires |blocks[|seps|].layout.entries| > 0 && IsInternal(seps1[|seps|])
             && !InternalLess(seps1[|seps|], LastKey(blocks[|seps|]))
    ensures SepsOk(blocks, seps1, [])
  {
    hide InternalLess, Separates, BlockOk;
    forall i | 0 <= i < |seps1| ensures SepOk(blocks, seps1, [], i) {
      assert BlockOk(blocks[i]);
      if i < |seps| {
        assert SepOk(blocks, seps, [], i);
        assert seps1[i] == seps[i];
      }
    }
  }

  lemma BuiltIsOrdered(blocks: seq<TableBlock>, seps: seq<Bytes>)
    requires BuildOk(blocks, seps, [])
    ensures BlocksOk(blocks) && SepsOk(blocks, seps, []) && (|seps| == |blocks| || |seps| + 1 == |blocks|)
  {
    hide BlocksOk, SepOk;
  }

  lemma LastSeparator(blocks: seq<TableBlock>, seps: seq<Bytes>)
    requires SepsOk(blocks, seps, []) && |seps| == |blocks|
    ensures TableOk(blocks, seps)
  {
  }

  lemma IsBuilt(l: Layout)
    requires Formed(l.entries, l.ds, l.starts) && Fits(l.ds, l.starts) && l.data == Contents(l.ds, l.starts)
    ensures Built(l)
  {
  }

  lemma AllCovered(blocks: seq<TableBlock>, groups: seq<seq<Bytes>>, pending: seq<Bytes>, groups1: seq<seq<Bytes>>)
    requires BlocksOk(blocks) && Filtered(blocks, groups, pending)
    requires groups1 == if pending == [] then groups else groups + [pending]
    ensures Covered(blocks, groups1)
  {
    forall i | 0 <= i < |blocks| ensures CoveredAt(blocks[i], groups1) {
      assert BlockOk(blocks[i]) && FilteredAt(blocks[i], groups, pending);
      assert blocks[i].layout.entries[0].key in GroupAt(blocks[i].handle.offset / F.FILTER_BASE, groups, pending);
    }
  }

  /** What holds of the filter once it is written. */
  ghost predicate FilterThere(file: Bytes, filter: Bytes, handle: Handle, groups: seq<seq<Bytes>>,
                              blocks: seq<TableBlock>,
                              policy: B.BloomFilterPolicy?)
  {
    policy != null ==> Holds(file, handle, filter) && F.IsFilterBlock(filter, groups, policy) && Covered(blocks, groups)
  }

  lemma AfterFilter(file0: Bytes, file: Bytes, filter: Bytes, handle: Handle, groups: seq<seq<Bytes>>,
                    blocks: seq<TableBlock>, policy: B.BloomFilterPolicy?)
    requires Held(file0, blocks)
    requires policy == null ==> file == file0
    requires policy != null ==>
      && file == file0 + filter + Trailer(filter) && handle == Handle(|file0|, |filter|)
      && F.IsFilterBlock(filter, groups, policy) && Covered(blocks, groups)
    ensures Held(file, blocks) && FilterThere(file, filter, handle, groups, blocks, policy)
  {
    hide Held, Holds, Covered, F.IsFilterBlock, Trailer;
    if policy != null {
      HeldStill(file0, filter, blocks);
      HeldStill(file0 + filter, Trailer(filter), blocks);
      HoldsNew(file0, filter);
    }
  }

  lemma AppendTwo(file: Bytes, more: Bytes, trailer: Bytes, blocks: seq<TableBlock>,
                  filter: Bytes, handle: Handle, groups: seq<seq<Bytes>>, policy: B.BloomFilterPolicy?)
    requires Held(file, blocks) && FilterThere(file, filter, handle, groups, blocks, policy)
    ensures Held(file + more + trailer, blocks) && FilterThere(file + more + trailer, filter, handle, groups,
            blocks, policy)
  {
    hide Held, Holds, Covered, F.IsFilterBlock;
    HeldStill(file, more, blocks);
    HeldStill(file + more, trailer, blocks);
    if policy != null {
      HoldsStillTwice(file, more, trailer, handle, filter);
    }
  }

  lemma HoldsStillTwice(file: Bytes, more: Bytes, trailer: Bytes, handle: Handle, contents: Bytes)
    requires Holds(file, handle, contents)
    ensures Holds(file + more + trailer, handle, contents)
  {
    hide Holds;
    HoldsStill(file, more, handle, contents);
    HoldsStill(file + more, trailer, handle, contents);
  }

  /** The footer completes the table. */
  lemma IsFinished(file: Bytes, t: Image, policy: B.BloomFilterPolicy?, name: Bytes)
    requires TableOk(t.blocks, t.seps) && Held(file, t.blocks) && |t.seps| <= |t.blocks|
    requires t.index.entries == IndexEntries(t.blocks, t.seps) && Formed(t.index.entries, t.index.ds, t.index.starts)
    requires Fits(t.index.ds, t.index.starts) && t.index.data == Contents(t.index.ds, t.index.starts)
    requires Holds(file, t.indexHandle, t.index.data) && Built(t.meta) && Holds(file, t.metaHandle, t.meta.data)
    requires t.meta.entries == if policy == null then [] else [Pair(FilterKey(name), EncodeHandle(t.filterHandle))]
    requires FilterThere(file, t.filter, t.filterHandle, t.groups, t.blocks, policy)
    ensures IsTable(file + EncodeFooter(t.metaHandle, t.indexHandle), t, policy, name)
  {
    FooterLength(t.metaHandle, t.indexHandle);
    hide TableOk, Held, IndexEntries, Formed, Contents, Holds, EncodeFooter, Covered, F.IsFilterBlock, EncodeHandle;
    var footer := EncodeFooter(t.metaHandle, t.indexHandle);
    HeldStill(file, footer, t.blocks);
    HoldsStill(file, footer, t.indexHandle, t.index.data);
    HoldsStill(file, footer, t.metaHandle, t.meta.data);
    if policy != null {
      HoldsStill(file, footer, t.filterHandle, t.filter);
    }
    assert (file + footer)[|file + footer| - FOOTER..] == footer;
  }
}
