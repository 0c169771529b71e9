/** A table's iterator as an internal iterator: TwoLevelIterator under the contract that the children
    of a merging iterator have (db/version_set.cc AddIterators, table/merger.cc). */
module TableCursors {
  import opened Wrappers
  import opened Entries
  import opened Blocks
  import opened Tables
  import opened TableGets
  import opened UserKeys
  import opened Comparators
  import opened TwoLevelIterators
  import Coding

  /** The same methods with the same contracts as DbIterators.InternalIterator, over a table's bytes:
      iter stands at the pos-th of the file's entries. */
  class TableCursor {
    const iter: TwoLevelIterator
    ghost const entries: seq<Entry>
    ghost var pos: nat

    ghost predicate Ok()
      reads this, iter, iter.indexIter, iter.dataIter
    {
      && iter.Valid() && AllTyped(All(iter.table.t.blocks)) && entries == EntriesOf(All(iter.table.t.blocks))
      && pos == iter.pos <= |entries|
    }

    lemma Parts()
      requires Ok()
      ensures iter.Valid() && AllTyped(All(iter.table.t.blocks)) && entries == EntriesOf(All(iter.table.t.blocks))
      ensures pos == iter.pos <= |entries| == |All(iter.table.t.blocks)|
    {
      hide TwoLevelIterator.Valid, AllTyped, All, EntryOf;
    }

    lemma IsOk()
      requires iter.Valid() && AllTyped(All(iter.table.t.blocks)) && entries == EntriesOf(All(iter.table.t.blocks))
      requires pos == iter.pos <= |entries|
      ensures Ok()
    {
      hide TwoLevelIterator.Valid, AllTyped, EntriesOf, All;
    }

    /** Over any table of typed entries. */
    constructor (iter: TwoLevelIterator)
      requires iter.Valid() && AllTyped(All(iter.table.t.blocks)) && iter.pos == |All(iter.table.t.blocks)|
      ensures Ok() && entries == EntriesOf(All(iter.table.t.blocks)) && pos == |entries| && this.iter == iter
    {
      hide *;
      this.iter, this.entries, this.pos := iter, EntriesOf(All(iter.table.t.blocks)), iter.pos;
      new;
      IsOk();
    }

    method Valid() returns (valid: bool)
      requires Ok()
      ensures valid == (pos < |entries|)
    {
      hide *;
      Parts();
      valid := iter.AtEntry();
    }

    /** The entry's bytes. */
    method Current() returns (pair: Pair)
      requires Ok() && pos < |entries|
      ensures Typed(pair) && EntryOf(pair) == entries[pos]
    {
      hide *;
      Parts();
      TableGets.EntryAt(All(iter.table.t.blocks), pos);
      pair := iter.Entry();
    }

    method SeekToFirst()
      requires Ok()
      modifies this, iter, iter.indexIter, iter.dataIter
      ensures Ok() && pos == 0
      ensures iter.dataIter == old(iter.dataIter) || iter.dataIter == null || fresh(iter.dataIter)
    {
      hide *;
      Parts();
      iter.SeekToFirst();
      pos := iter.pos;
      IsOk();
    }

    method SeekToLast()
      requires Ok()
      modifies this, iter, iter.indexIter, iter.dataIter
      ensures Ok() && pos == if |entries| > 0 then |entries| - 1 else 0
      ensures iter.dataIter == old(iter.dataIter) || iter.dataIter == null || fresh(iter.dataIter)
    {
      hide *;
      Parts();
      iter.SeekToLast();
      pos := iter.pos;
      IsOk();
    }

    /** The target is given as its bytes. */
    method Seek(target: Coding.Bytes)
      requires Ok() && IsInternal(target)
      modifies this, iter, iter.indexIter, iter.dataIter
      ensures Ok() && IsFirstAtOrAfter(entries, KeyOf(target), pos)
      ensures iter.dataIter == old(iter.dataIter) || iter.dataIter == null || fresh(iter.dataIter)
    {
      hide *;
      Parts();
      iter.Seek(target);
      SameSearch(All(iter.table.t.blocks), target, iter.pos);
      pos := iter.pos;
      EndsWithin(entries, KeyOf(target), pos);
      IsOk();
    }

    method Next()
      requires Ok() && pos < |entries|
      modifies this, iter, iter.indexIter, iter.dataIter
      ensures Ok() && pos == old(pos) + 1
      ensures iter.dataIter == old(iter.dataIter) || iter.dataIter == null || fresh(iter.dataIter)
    {
      hide *;
      Parts();
      iter.Next();
      pos := iter.pos;
      IsOk();
    }

    method Prev()
      requires Ok() && pos < |entries|
      modifies this, iter, iter.indexIter, iter.dataIter
      ensures Ok() && pos == if old(pos) == 0 then |entries| else old(pos) - 1
      ensures iter.dataIter == old(iter.dataIter) || iter.dataIter == null || fresh(iter.dataIter)
    {
      hide *;
      Parts();
      iter.Prev();
      pos := iter.pos;
      IsOk();
    }
  }

  lemma EndsWithin(entries: seq<Entry>, key: IKey, n: nat)
    requires IsFirstAtOrAfter(entries, key, n)
    ensures n <= |entries|
  {
  }
}
