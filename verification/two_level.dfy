/** TwoLevelIterator: the blocks of a table as one sequence of entries, forwards and backwards
    (table/two_level_iterator.cc). */
module TwoLevelIterators {
  import opened Wrappers
  import opened Coding
  import opened Comparators
  import opened Blocks
  import opened TableFormats
  import opened Tables
  import opened TableFiles
  import opened TableReaders

  /** Different blocks have different handles. */
  lemma HandlesDiffer(file: Bytes, t: Image, i: nat, j: nat)
    requires TableOk(t.blocks, t.seps) && Held(file, t.blocks) && Sized(file, t)
    requires i < |t.blocks| && j < |t.blocks| && EncodeHandle(t.blocks[i].handle) == EncodeHandle(t.blocks[j].handle)
    ensures i == j
  {
    hide TableOk, Sized, Holds, EncodeHandle, DecodeHandle;
    DataIsBlock(file, t, i);
    DataIsBlock(file, t, j);
    HandleRoundTrip(t.blocks[i].handle, []);
    HandleRoundTrip(t.blocks[j].handle, []);
  }

  lemma BlockIsFilled(t: Image, i: nat)
    requires TableOk(t.blocks, t.seps) && i < |t.blocks|
    ensures |t.blocks[i].layout.entries| > 0
  {
    hide SepOk, KeysOk, Formed, Contents;
    assert BlockOk(t.blocks[i]);
  }

  /** Which block an iterator over one block stands for, and whether its handle is that block's. */
  ghost predicate Reads(iter: BlockIter, handle: Bytes, t: Image, block: nat)
    reads iter
  {
    && block < |t.blocks| && iter.Valid() && iter.b == t.blocks[block].layout && iter.less == InternalLess
    && handle == EncodeHandle(t.blocks[block].handle)
  }

  /** The entry among all that an index position and a data position stand for, going forwards: a data
      iterator past its block stands before the next one. */
  function Forward(blocks: seq<TableBlock>, block: nat, data: nat): nat
    requires block < |blocks|
  {
    StartOf(blocks, block) + data
  }

  /** ... and going backwards: a data iterator off its block stands on the last entry before it. */
  function Backward(blocks: seq<TableBlock>, block: nat, data: nat): nat
    requires block < |blocks|
  {
    if data < |blocks[block].layout.entries| then StartOf(blocks, block) + data
    else if StartOf(blocks, block) == 0 then |All(blocks)| else StartOf(blocks, block) - 1
  }

  /** Past the end of a block is the first entry of the next. */
  lemma NextBlockStarts(t: Image, block: nat)
    requires TableOk(t.blocks, t.seps) && block < |t.blocks|
    ensures var after := Forward(t.blocks, block, |t.blocks[block].layout.entries|);
      if block + 1 < |t.blocks| then after == Forward(t.blocks, block + 1, 0) else after == |All(t.blocks)|
  {
    hide All, TableOk;
    AllSplits(t.blocks, block);
    StartsAndEnds(t.blocks);
  }

  /** Before the start of a block is the last entry of the previous one. */
  lemma PreviousBlockEnds(t: Image, block: nat)
    requires TableOk(t.blocks, t.seps) && block < |t.blocks|
    ensures var before := Backward(t.blocks, block, |t.blocks[block].layout.entries|);
      if block == 0 then before == |All(t.blocks)|
      else
        var last := |t.blocks[block - 1].layout.entries|;
        last > 0 && before == Backward(t.blocks, block - 1, last - 1)
  {
    hide All, TableOk;
    StartsAndEnds(t.blocks);
    if block > 0 {
      AllSplits(t.blocks, block - 1);
      BlockIsFilled(t, block - 1);
    }
  }

  lemma InBlock(t: Image, block: nat, data: nat)
    requires block < |t.blocks| && data < |t.blocks[block].layout.entries|
    ensures Forward(t.blocks, block, data) == Backward(t.blocks, block, data) < |All(t.blocks)|
    ensures All(t.blocks)[Forward(t.blocks, block, data)] == t.blocks[block].layout.entries[data]
  {
    hide All;
    EntryAt(t.blocks, block, data);
  }

  class TwoLevelIterator {
    const table: Table
    const indexIter: BlockIter
    var dataIter: BlockIter?
    var dataBlockHandle: Bytes
    /** Which block the data iterator reads. */
    ghost var block: nat
    /** The entry among All(table.t.blocks) at which it stands, or their number. */
    ghost var pos: nat

    ghost predicate Objects()
      reads this, indexIter, dataIter
    {
      && table.Valid() && indexIter.Valid() && indexIter.b == table.t.index && indexIter.less == InternalLess
      && (dataIter != null ==> dataIter != indexIter && Reads(dataIter, dataBlockHandle, table.t, block))
    }

    ghost predicate Valid()
      reads this, indexIter, dataIter
    {
      && Objects() && pos <= |All(table.t.blocks)|
      && (if dataIter == null then pos == |All(table.t.blocks)| else
          && block < |table.t.blocks| && indexIter.pos == block
          && dataIter.pos < |table.t.blocks[block].layout.entries|
              && pos == Forward(table.t.blocks, block, dataIter.pos))
    }

    lemma ObjectParts()
      requires Objects()
      ensures table.Valid() && indexIter.Valid() && indexIter.b == table.t.index && indexIter.less == InternalLess
      ensures dataIter != null ==>
        && dataIter != indexIter && block < |table.t.blocks| && dataIter.Valid()
        && dataIter.b == table.t.blocks[block].layout && dataIter.less == InternalLess
        && dataBlockHandle == EncodeHandle(table.t.blocks[block].handle)
    {
      hide Table.Valid, BlockIter.Valid, EncodeHandle;
    }

    lemma AreObjects()
      requires table.Valid() && indexIter.Valid() && indexIter.b == table.t.index && indexIter.less == InternalLess
      requires dataIter != null ==>
        && dataIter != indexIter && block < |table.t.blocks| && dataIter.Valid()
        && dataIter.b == table.t.blocks[block].layout && dataIter.less == InternalLess
        && dataBlockHandle == EncodeHandle(table.t.blocks[block].handle)
      ensures Objects()
    {
      hide Table.Valid, BlockIter.Valid, EncodeHandle;
    }

    lemma ValidParts()
      requires Valid()
      ensures Objects() && pos <= |All(table.t.blocks)|
      ensures dataIter == null ==> pos == |All(table.t.blocks)|
      ensures dataIter != null ==>
        && block < |table.t.blocks| && indexIter.pos == block && dataIter.pos < |table.t.blocks[block].layout.entries|
        && pos == Forward(table.t.blocks, block, dataIter.pos)
    {
      hide Objects, All;
    }

    lemma IsValid()
      requires Objects() && pos <= |All(table.t.blocks)|
      requires dataIter == null ==> pos == |All(table.t.blocks)|
      requires dataIter != null ==>
        && block < |table.t.blocks| && indexIter.pos == block && dataIter.pos < |table.t.blocks[block].layout.entries|
        && pos == Forward(table.t.blocks, block, dataIter.pos)
      ensures Valid()
    {
      hide Objects, All;
    }

    /** What the table promises of its index and blocks. */
    lemma TableFacts()
      requires table.Valid()
      ensures TableOk(table.t.blocks, table.t.seps) && Held(table.file, table.t.blocks) && Sized(table.file, table.t)
      ensures |table.t.seps| == |table.t.blocks| == |table.t.index.entries|
      ensures table.t.index.entries == IndexEntries(table.t.blocks, table.t.seps)
    {
      hide *;
      table.Parts();
      ReadableParts(table.file, table.t, table.policy, table.name);
      SizedParts(table.file, table.t);
      IndexIsBlock(table.file, table.t);
      IndexLength(table.t.blocks, table.t.seps);
    }

    /** Table::NewIterator. */
    constructor (table: Table, indexIter: BlockIter)
      requires table.Valid() && indexIter.Valid() && indexIter.b == table.t.index && indexIter.less == InternalLess
      ensures Valid() && this.table == table && this.indexIter == indexIter
      ensures pos == |All(table.t.blocks)| && dataIter == null
    {
      hide *;
      this.table, this.indexIter := table, indexIter;
      dataIter, dataBlockHandle := null, [];
      block, pos := 0, |All(table.t.blocks)|;
      new;
      AreObjects();
      IsValid();
    }

    method AtEntry() returns (valid: bool)
      requires Valid()
      ensures valid == (pos < |All(table.t.blocks)|)
    {
      hide *;
      ValidParts();
      ObjectParts();
      valid := false;
      if dataIter != null {
        InBlock(table.t, block, dataIter.pos);
        valid := dataIter.AtEntry();
      }
    }

    method Entry() returns (e: Pair)
      requires Valid() && pos < |All(table.t.blocks)|
      ensures e == All(table.t.blocks)[pos]
    {
      hide *;
      ValidParts();
      ObjectParts();
      InBlock(table.t, block, dataIter.pos);
      PairIs(table.t.blocks[block].layout.entries[dataIter.pos]);
      var value := dataIter.Value();
      e := Pair(dataIter.key, value);
    }

    method SetDataIterator(iter: BlockIter?)
      modifies this`dataIter
      ensures dataIter == iter
    {
      dataIter := iter;
    }

    /** Lets the data iterator read the block at which the index stands; one that does already is kept. */
    method InitDataBlock()
      requires Objects()
      modifies this`dataIter, this`dataBlockHandle, this`block
      ensures Objects()
      ensures indexIter.pos <= |table.t.blocks|
      ensures indexIter.pos < |table.t.blocks| ==> dataIter != null && block == indexIter.pos
      ensures indexIter.pos == |table.t.blocks| ==> dataIter == null
      ensures dataIter == old(dataIter) || dataIter == null || fresh(dataIter)
    {
      hide *;
      ObjectParts();
      TableFacts();
      IndexStands();
      var valid := indexIter.AtEntry();
      if !valid {
        SetDataIterator(null);
        AreObjects();
        return;
      }
      IndexAt(table.t.blocks, table.t.seps, indexIter.pos);
      var handle := indexIter.Value();
      if dataIter != null && handle == dataBlockHandle {
        HandlesDiffer(table.file, table.t, indexIter.pos, block);
      } else {
        var iter := table.BlockReader(handle, indexIter.pos);
        dataBlockHandle := handle;
        block := indexIter.pos;
        SetDataIterator(iter);
        AreObjects();
      }
    }

    lemma IndexStands()
      requires indexIter.Valid()
      ensures indexIter.pos <= |indexIter.b.entries|
    {
      hide *;
      indexIter.ValidParts();
      indexIter.SaneParts();
      PastEndParts(indexIter.b, indexIter.pos, indexIter.Now());
    }

    lemma DataStands()
      requires dataIter != null && dataIter.Valid()
      ensures dataIter.pos <= |dataIter.b.entries|
    {
      hide *;
      dataIter.ValidParts();
      dataIter.SaneParts();
      PastEndParts(dataIter.b, dataIter.pos, dataIter.Now());
    }

    /** Goes on to later blocks while the data iterator stands at no entry. */
    method SkipEmptyDataBlocksForward(ghost goal: nat)
      requires Objects()
      requires dataIter == null ==> indexIter.pos == |table.t.blocks| && goal == |All(table.t.blocks)|
      requires dataIter != null ==>
        && block < |table.t.blocks| && indexIter.pos == block && goal == Forward(table.t.blocks, block, dataIter.pos)
      modifies this, indexIter, dataIter
      ensures Valid() && pos == goal && (dataIter == old(dataIter) || dataIter == null || fresh(dataIter))
    {
      hide *;
      var done := false;
      while !done
        invariant Objects() && (dataIter == old(dataIter) || dataIter == null || fresh(dataIter))
        invariant dataIter == null ==> indexIter.pos == |table.t.blocks| && goal == |All(table.t.blocks)|
        invariant dataIter != null ==>
          && block < |table.t.blocks| && indexIter.pos == block && goal == Forward(table.t.blocks, block, dataIter.pos)
        invariant done && dataIter != null ==> dataIter.pos < |table.t.blocks[block].layout.entries|
        decreases |table.t.blocks| - indexIter.pos, !done
      {
        ObjectParts();
        TableFacts();
        IndexStands();
        var there := false;
        if dataIter != null {
          DataStands();
          there := dataIter.AtEntry();
        }
        if there {
          done := true;
        } else {
          var more := indexIter.AtEntry();
          if !more {
            SetDataIterator(null);
            AreObjects();
            done := true;
          } else {
            NextBlockStarts(table.t, block);
            MoveIndexForward();
          }
        }
      }
      ObjectParts();
      pos := goal;
      AreObjects();
      if dataIter != null {
        InBlock(table.t, block, dataIter.pos);
      }
      IsValid();
    }

    method MoveIndexForward()
      requires Objects() && indexIter.pos < |table.t.blocks|
      modifies this`dataIter, this`dataBlockHandle, this`block, indexIter, dataIter
      ensures Objects() && indexIter.pos == old(indexIter.pos) + 1 <= |table.t.blocks|
      ensures dataIter == old(dataIter) || dataIter == null || fresh(dataIter)
      ensures (dataIter == null) == (indexIter.pos == |table.t.blocks|)
      ensures dataIter != null ==> block == indexIter.pos && dataIter.pos == 0
    {
      hide *;
      ObjectParts();
      TableFacts();
      indexIter.Next();
      AreObjects();
      InitDataBlock();
      ObjectParts();
      if dataIter != null {
        dataIter.SeekToFirst();
        AreObjects();
      }
    }

    /** Goes back to earlier blocks while the data iterator stands at no entry. */
    method SkipEmptyDataBlocksBackward(ghost goal: nat)
      requires Objects()
      requires dataIter == null ==> indexIter.pos == |table.t.blocks| && goal == |All(table.t.blocks)|
      requires dataIter != null ==>
        && block < |table.t.blocks| && indexIter.pos == block && goal == Backward(table.t.blocks, block, dataIter.pos)
      modifies this, indexIter, dataIter
      ensures Valid() && pos == goal && (dataIter == old(dataIter) || dataIter == null || fresh(dataIter))
    {
      hide *;
      var done := false;
      while !done
        invariant Objects() && (dataIter == old(dataIter) || dataIter == null || fresh(dataIter))
        invariant dataIter == null ==> indexIter.pos == |table.t.blocks| && goal == |All(table.t.blocks)|
        invariant dataIter != null ==>
          && block < |table.t.blocks| && indexIter.pos == block && goal == Backward(table.t.blocks, block, dataIter.pos)
        invariant done && dataIter != null ==> dataIter.pos < |table.t.blocks[block].layout.entries|
        decreases if dataIter == null then 0 else indexIter.pos + 1, !done
      {
        ObjectParts();
        TableFacts();
        IndexStands();
        var there := false;
        if dataIter != null {
          DataStands();
          there := dataIter.AtEntry();
        }
        if there {
          done := true;
        } else {
          var more := indexIter.AtEntry();
          if !more {
            SetDataIterator(null);
            AreObjects();
            done := true;
          } else {
            PreviousBlockEnds(table.t, block);
            MoveIndexBackward();
          }
        }
      }
      ObjectParts();
      pos := goal;
      AreObjects();
      if dataIter != null {
        InBlock(table.t, block, dataIter.pos);
      }
      IsValid();
    }

    method MoveIndexBackward()
      requires Objects() && indexIter.pos < |table.t.blocks|
      modifies this`dataIter, this`dataBlockHandle, this`block, indexIter, dataIter
      ensures Objects() && indexIter.pos == if old(indexIter.pos) == 0 then |table.t.blocks| else old(indexIter.pos) - 1
      ensures dataIter == old(dataIter) || dataIter == null || fresh(dataIter)
      ensures (dataIter == null) == (indexIter.pos == |table.t.blocks|)
      ensures dataIter != null ==>
        && block == indexIter.pos < |table.t.blocks| && |table.t.blocks[block].layout.entries| > 0
        && dataIter.pos == |table.t.blocks[block].layout.entries| - 1
    {
      hide *;
      ObjectParts();
      TableFacts();
      indexIter.Prev();
      AreObjects();
      InitDataBlock();
      ObjectParts();
      if dataIter != null {
        BlockIsFilled(table.t, block);
        dataIter.SeekToLast();
        AreObjects();
      }
    }

    /** The first entry not below the target. */
    method Seek(target: Bytes)
      requires Valid()
      modifies this, indexIter, dataIter
      ensures Valid() && FirstAtLeast(InternalLess, All(table.t.blocks), target, pos)
      ensures dataIter == old(dataIter) || dataIter == null || fresh(dataIter)
    {
      hide *;
      ValidParts();
      ObjectParts();
      TableFacts();
      indexIter.Seek(target);
      AreObjects();
      InitDataBlock();
      ObjectParts();
      if dataIter != null {
        dataIter.Seek(target);
        AreObjects();
        BlockSeek(table.t, target, block, dataIter.pos);
        SkipEmptyDataBlocksForward(Forward(table.t.blocks, block, dataIter.pos));
      } else {
        SeekPastIndex(table.t.blocks, table.t.seps, target);
        SkipEmptyDataBlocksForward(|All(table.t.blocks)|);
      }
    }

    method SeekToFirst()
      requires Valid()
      modifies this, indexIter, dataIter
      ensures Valid() && pos == 0
      ensures dataIter == old(dataIter) || dataIter == null || fresh(dataIter)
    {
      hide *;
      ValidParts();
      ObjectParts();
      TableFacts();
      StartsAndEnds(table.t.blocks);
      indexIter.SeekToFirst();
      AreObjects();
      InitDataBlock();
      ObjectParts();
      if dataIter != null {
        dataIter.SeekToFirst();
        AreObjects();
        FirstOfAll(table.t.blocks);
      }
      SkipEmptyDataBlocksForward(0);
    }

    method SeekToLast()
      requires Valid()
      modifies this, indexIter, dataIter
      ensures Valid() && pos == if |All(table.t.blocks)| == 0 then 0 else |All(table.t.blocks)| - 1
      ensures dataIter == old(dataIter) || dataIter == null || fresh(dataIter)
    {
      hide *;
      ValidParts();
      ObjectParts();
      TableFacts();
      StartsAndEnds(table.t.blocks);
      indexIter.SeekToLast();
      AreObjects();
      InitDataBlock();
      ObjectParts();
      if dataIter != null {
        BlockIsFilled(table.t, block);
        dataIter.SeekToLast();
        AreObjects();
        LastOfAll(table.t, block);
      }
      SkipEmptyDataBlocksBackward(if |All(table.t.blocks)| == 0 then 0 else |All(table.t.blocks)| - 1);
    }

    method Next()
      requires Valid() && pos < |All(table.t.blocks)|
      modifies this, indexIter, dataIter
      ensures Valid() && pos == old(pos) + 1
      ensures dataIter == old(dataIter) || dataIter == null || fresh(dataIter)
    {
      hide *;
      ValidParts();
      ObjectParts();
      ForwardIs(table.t.blocks, block, dataIter.pos);
      dataIter.Next();
      AreObjects();
      ForwardIs(table.t.blocks, block, dataIter.pos);
      SkipEmptyDataBlocksForward(old(pos) + 1);
    }

    method Prev()
      requires Valid() && pos < |All(table.t.blocks)|
      modifies this, indexIter, dataIter
      ensures Valid() && pos == if old(pos) == 0 then |All(table.t.blocks)| else old(pos) - 1
      ensures dataIter == old(dataIter) || dataIter == null || fresh(dataIter)
    {
      hide *;
      ValidParts();
      ObjectParts();
      StepBackIs(table.t.blocks, block, dataIter.pos);
      dataIter.Prev();
      AreObjects();
      SkipEmptyDataBlocksBackward(if old(pos) == 0 then |All(table.t.blocks)| else old(pos) - 1);
    }
  }

  /** Seeking the block that the index leads to, and going on past its end, seeks among all entries. */
  lemma BlockSeek(t: Image, target: Bytes, i: nat, j: nat)
    requires TableOk(t.blocks, t.seps) && |t.seps| == |t.blocks| && i < |t.blocks|
    requires FirstAtLeast(InternalLess, IndexEntries(t.blocks, t.seps), target, i)
    requires FirstAtLeast(InternalLess, t.blocks[i].layout.entries, target, j)
    ensures FirstAtLeast(InternalLess, All(t.blocks), target, Forward(t.blocks, i, j))
  {
    hide *;
    FirstOfBlockIsFirst(t.blocks, t.seps, target, i, j);
    ForwardIs(t.blocks, i, j);
  }

  lemma ForwardIs(blocks: seq<TableBlock>, block: nat, data: nat)
    requires block < |blocks|
    ensures Forward(blocks, block, data) == StartOf(blocks, block) + data
  {
  }

  lemma FirstOfAll(blocks: seq<TableBlock>)
    requires |blocks| > 0
    ensures Forward(blocks, 0, 0) == 0
  {
    StartsAndEnds(blocks);
  }

  lemma LastOfAll(t: Image, block: nat)
    requires TableOk(t.blocks, t.seps) && block + 1 == |t.blocks| && |t.blocks[block].layout.entries| > 0
    ensures |All(t.blocks)| > 0
    ensures Backward(t.blocks, block, |t.blocks[block].layout.entries| - 1) == |All(t.blocks)| - 1
  {
    hide All, TableOk;
    AllSplits(t.blocks, block);
    StartsAndEnds(t.blocks);
  }

  /** What Prev within a block does to the position among all. */
  lemma StepBackIs(blocks: seq<TableBlock>, block: nat, data: nat)
    requires block < |blocks| && data < |blocks[block].layout.entries|
    ensures var before := if data == 0 then |blocks[block].layout.entries| else data - 1;
      Backward(blocks, block, before) ==
      if Forward(blocks, block, data) == 0 then |All(blocks)| else Forward(blocks, block, data) - 1
  {
    hide All;
  }
}
