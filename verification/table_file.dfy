/** A finished table file: its blocks, its index, its filters and its footer (table/table_builder.cc). */
module TableFiles {
  import opened Wrappers
  import opened Coding
  import opened Blocks
  import opened TableFormats
  import opened Tables
  import F = FilterBlocks
  import B = BloomFilters

  /** The blocks are in the file, in order. */
  ghost predicate Held(file: Bytes, blocks: seq<TableBlock>) {
    && (forall i :: 0 <= i < |blocks| ==> Holds(file, blocks[i].handle, blocks[i].layout.data))
    && InFileOrder(blocks)
  }

  ghost predicate InFileOrder(blocks: seq<TableBlock>) {
    forall i, j :: 0 <= i < j < |blocks| ==> blocks[i].handle.offset < blocks[j].handle.offset
  }

  lemma HeldStill(file: Bytes, more: Bytes, blocks: seq<TableBlock>)
    requires Held(file, blocks)
    ensures Held(file + more, blocks)
  {
    hide Holds;
    forall i | 0 <= i < |blocks| ensures Holds(file + more, blocks[i].handle, blocks[i].layout.data) {
      HoldsStill(file, more, blocks[i].handle, blocks[i].layout.data);
    }
  }

  lemma HeldGrows(file: Bytes, blocks: seq<TableBlock>, b: TableBlock)
    requires Held(file, blocks) && b.handle == Handle(|file|, |b.layout.data|)
    ensures Held(file + b.layout.data + Trailer(b.layout.data), blocks + [b])
  {
    hide Holds, Trailer;
    var data := b.layout.data;
    HeldStill(file, data, blocks);
    HeldStill(file + data, Trailer(data), blocks);
    HoldsNew(file, data);
    forall i | 0 <= i < |blocks| ensures blocks[i].handle.offset < |file| {
      assert Holds(file, blocks[i].handle, blocks[i].layout.data);
      HoldsWithin(file, blocks[i].handle, blocks[i].layout.data);
    }
  }

  lemma HoldsWithin(file: Bytes, h: Handle, contents: Bytes)
    requires Holds(file, h, contents)
    ensures h.offset < |file|
  {
    hide Trailer;
  }

  ghost predicate AllIn(entries: seq<Pair>, group: seq<Bytes>) {
    forall j :: 0 <= j < |entries| ==> entries[j].key in group
  }

  /** The keys of each block are in the filter of the 2 KB in which the block starts. */
  ghost predicate Covered(blocks: seq<TableBlock>, groups: seq<seq<Bytes>>) {
    forall i :: 0 <= i < |blocks| ==> CoveredAt(blocks[i], groups)
  }

  ghost predicate CoveredAt(b: TableBlock, groups: seq<seq<Bytes>>) {
    var g := b.handle.offset / F.FILTER_BASE;
    g < |groups| && AllIn(b.layout.entries, groups[g])
  }

  /** Everything that was written. */
  datatype Image = Image(
    blocks: seq<TableBlock>, seps: seq<Bytes>,
    index: Layout, indexHandle: Handle,
    meta: Layout, metaHandle: Handle,
    filter: Bytes, filterHandle: Handle, groups: seq<seq<Bytes>>)

  /** A block as a builder finishes it. */
  ghost predicate Built(l: Layout) {
    Formed(l.entries, l.ds, l.starts) && Fits(l.ds, l.starts) && l.data == Contents(l.ds, l.starts)
  }

  /** "filter." and the policy's name. */
  function FilterKey(name: Bytes): Bytes {
    [0x66, 0x69, 0x6c, 0x74, 0x65, 0x72, 0x2e] + name
  }

  ghost predicate IndexOk(file: Bytes, t: Image) {
    && |t.seps| <= |t.blocks| && t.index.entries == IndexEntries(t.blocks, t.seps)
    && Built(t.index) && Holds(file, t.indexHandle, t.index.data)
  }

  ghost predicate MetaOk(file: Bytes, t: Image, policy: B.BloomFilterPolicy?, name: Bytes) {
    && Built(t.meta) && Holds(file, t.metaHandle, t.meta.data)
    && t.meta.entries == (if policy == null then [] else [Pair(FilterKey(name), EncodeHandle(t.filterHandle))])
  }

  ghost predicate FilterOk(file: Bytes, t: Image, policy: B.BloomFilterPolicy?) {
    policy != null ==>
      Holds(file, t.filterHandle, t.filter) && F.IsFilterBlock(t.filter, t.groups, policy)
          && Covered(t.blocks, t.groups)
  }

  ghost predicate FooterOk(file: Bytes, t: Image) {
    |file| >= FOOTER && file[|file| - FOOTER..] == EncodeFooter(t.metaHandle, t.indexHandle)
  }

  ghost predicate IsTable(file: Bytes, t: Image, policy: B.BloomFilterPolicy?, name: Bytes) {
    && TableOk(t.blocks, t.seps) && Held(file, t.blocks)
    && IndexOk(file, t) && MetaOk(file, t, policy, name) && FilterOk(file, t, policy) && FooterOk(file, t)
  }

}
