/** Damaged logs: a dropped part of a block never makes the reader return anything but whole,
    untouched records (log_reader.cc). */
module LogDamage {
  import opened Wrappers
  import opened Coding
  import opened Logs
  import opened LogRecovery

  /** In block b, everything from offset cuts[b] on is damaged. */
  type Cuts = map<nat, nat>

  predicate DroppedAt(cuts: Cuts, i: nat) {
    i / BLOCK in cuts && cuts[i / BLOCK] <= i % BLOCK
  }

  /** The first physical record of `rest` fails the length, zero-record or checksum test. */
  predicate Fails(rest: Bytes) {
    && |rest| >= HEADER
    && var length := LengthField(rest);
      || HEADER + length > |rest|
      || (rest[6] == ZERO && length == 0)
      || !ChecksumFits(rest[..4], rest[6], rest[HEADER..HEADER + length])
  }

  function BlockEnd(file: Bytes, b: nat): nat {
    if |file| < (b + 1) * BLOCK then |file| else (b + 1) * BLOCK
  }

  /** `damaged` differs from `log` only in the dropped suffixes of blocks, each of which fails. */
  ghost predicate Damage(log: Bytes, damaged: Bytes, cuts: Cuts) {
    && |damaged| == |log|
    && (forall i :: 0 <= i < |log| && !DroppedAt(cuts, i) ==> damaged[i] == log[i])
    && forall b :: b in cuts ==>
         && b * BLOCK + cuts[b] <= BlockEnd(damaged, b)
         && Fails(damaged[b * BLOCK + cuts[b]..BlockEnd(damaged, b)])
  }

  // ---------------------------------------------------------------- what ought to survive

  function StartBlock(b: nat, off: nat): nat
    requires off <= BLOCK
  {
    if BLOCK - off < HEADER then b + 1 else b
  }

  predicate Kept(cuts: Cuts, b: nat, off: nat, length: nat) {
    b in cuts ==> off + length <= cuts[b]
  }

  /** The block in which a record ends. */
  function EndBlock(b: nat, off: nat, data: Bytes): nat
    requires off <= BLOCK
    decreases |data|, if FragmentLength(off, data) == 0 then 1 else 0
  {
    var n := FragmentLength(off, data);
    if n == |data| then StartBlock(b, off) else EndBlock(StartBlock(b, off), NextOffset(off, data), data[n..])
  }

  /** No fragment of the record lies in a dropped suffix. */
  predicate Intact(b: nat, off: nat, data: Bytes, cuts: Cuts)
    requires off <= BLOCK
    decreases |data|, if FragmentLength(off, data) == 0 then 1 else 0
  {
    var n := FragmentLength(off, data);
    && Kept(cuts, StartBlock(b, off), StartOf(off), HEADER + n)
    && (n == |data| || Intact(StartBlock(b, off), NextOffset(off, data), data[n..], cuts))
  }

  function Survivors(b: nat, off: nat, records: seq<Bytes>, cuts: Cuts): seq<Bytes>
    requires off <= BLOCK
    decreases |records|
  {
    if records == [] then [] else
      (if Intact(b, off, records[0], cuts) then [records[0]] else [])
      + Survivors(EndBlock(b, off, records[0]), EndOffset(off, records[0]), records[1..], cuts)
  }

  /** A fragment is dropped whole or not at all: damage starts at a physical record. */
  predicate Whole(cuts: Cuts, b: nat, off: nat, length: nat) {
    b in cuts ==> cuts[b] <= off || off + length <= cuts[b]
  }

  predicate WholeFragments(b: nat, off: nat, data: Bytes, cuts: Cuts)
    requires off <= BLOCK
    decreases |data|, if FragmentLength(off, data) == 0 then 1 else 0
  {
    var n := FragmentLength(off, data);
    && Whole(cuts, StartBlock(b, off), StartOf(off), HEADER + n)
    && (n == |data| || WholeFragments(StartBlock(b, off), NextOffset(off, data), data[n..], cuts))
  }

  predicate DropsWholeFragments(b: nat, off: nat, records: seq<Bytes>, cuts: Cuts)
    requires off <= BLOCK
    decreases |records|
  {
    records == [] ||
    (&& WholeFragments(b, off, records[0], cuts)
     && DropsWholeFragments(EndBlock(b, off, records[0]), EndOffset(off, records[0]), records[1..], cuts))
  }

  // ---------------------------------------------------------------- the reader's position

  /** The physical records still ahead of a reader that has come to offset `off` of block b: past
      the cut it goes on with the next block. */
  function Ahead(file: Bytes, cuts: Cuts, b: nat, off: nat): seq<Item>
    requires off <= BLOCK && b * BLOCK + off <= |file|
  {
    if b in cuts && cuts[b] < off then
      if |file| < (b + 1) * BLOCK then [] else ItemsFrom(0, file[(b + 1) * BLOCK..])
    else
      ItemsFrom(off, file[b * BLOCK + off..])
  }

  /** Skipping a trailer. */
  lemma AheadOfStart(file: Bytes, cuts: Cuts, b: nat, off: nat)
    requires off <= BLOCK && b * BLOCK + off <= |file|
    requires StartBlock(b, off) * BLOCK + StartOf(off) <= |file|
    requires b in cuts ==> cuts[b] + HEADER <= BLOCK
    ensures Ahead(file, cuts, b, off) == Ahead(file, cuts, StartBlock(b, off), StartOf(off))
  {
    if BLOCK - off < HEADER {
      var bytes := file[b * BLOCK + off..];
      assert bytes[BLOCK - off..] == file[(b + 1) * BLOCK..];
      assert |bytes[..BLOCK - off]| < HEADER;
      assert BlockItems(bytes[..BLOCK - off], false) == [];
      hide BlockItems;
    }
  }

  /** These bytes stand in the log at offset `off` of block b. */
  ghost predicate LogAt(log: Bytes, b: nat, off: nat, bytes: Bytes) {
    BytesAt(log, b * BLOCK + off, bytes)
  }

  ghost predicate BytesAt(log: Bytes, pos: nat, bytes: Bytes) {
    pos + |bytes| <= |log| && forall i :: 0 <= i < |bytes| ==> log[pos + i] == bytes[i]
  }

  /** A kept fragment is read as it was written. */
  lemma AheadOfKept(log: Bytes, file: Bytes, cuts: Cuts, b: nat, off: nat, t: Byte, p: Bytes)
    requires Damage(log, file, cuts) && t != ZERO
    requires off + HEADER + |p| <= BLOCK && LogAt(log, b, off, Physical(t, p))
    requires Kept(cuts, b, off, HEADER + |p|)
    ensures Ahead(file, cuts, b, off) == [Item(t, p, None)] + Ahead(file, cuts, b, off + HEADER + |p|)
  {
    hide Physical, ItemsFrom, Fails;
    var from, to := b * BLOCK + off, b * BLOCK + off + HEADER + |p|;
    forall i | from <= i < to ensures file[i] == log[i] {
      assert i / BLOCK == b && i % BLOCK == i - b * BLOCK;
    }
    forall i | 0 <= i < HEADER + |p| ensures file[from + i] == Physical(t, p)[i] {
      assert log[from + i] == Physical(t, p)[i];
    }
    assert file[from..to] == Physical(t, p);
    assert file[from..] == Physical(t, p) + file[to..];
    FragmentItems(off, t, p, file[to..]);
  }

  predicate SameOutcome(f: Found, g: Found) {
    f.record == g.record && f.rest == g.rest
  }

  /** At the cut the reader gives up what it was reassembling and the rest of the block. */
  lemma AheadOfCut(log: Bytes, file: Bytes, cuts: Cuts, b: nat, off: nat, length: nat, inFragmented: bool,
                   scratch: Bytes)
    requires Damage(log, file, cuts) && b in cuts && cuts[b] <= off && 0 < length
    requires off + length <= BLOCK && b * BLOCK + off + length <= |file|
    requires !inFragmented ==> scratch == []
    requires cuts[b] < off ==> !inFragmented
    ensures SameOutcome(NextRecord(Ahead(file, cuts, b, off), inFragmented, scratch),
                        NextRecord(Ahead(file, cuts, b, off + length), false, []))
  {
    if cuts[b] == off {
      var last := |file| < (b + 1) * BLOCK;
      var items := BlockItems(file[b * BLOCK + off..BlockEnd(file, b)], last);
      var skip := Ahead(file, cuts, b, off + length);
      assert Ahead(file, cuts, b, off) == items + skip by {
        CutItemsAhead(file, b, off);
      }
      assert last ==> skip == [];
      FailedItems(file[b * BLOCK + off..BlockEnd(file, b)], last);
      hide *;
      AfterFailure(items, skip, last, inFragmented, scratch);
    }
  }

  lemma AfterFailure(items: seq<Item>, skip: seq<Item>, last: bool, inFragmented: bool, scratch: Bytes)
    requires (items == [] && skip == []) || (|items| == 1 && items[0].kind == BAD)
    requires !inFragmented ==> scratch == []
    ensures SameOutcome(NextRecord(items + skip, inFragmented, scratch), NextRecord(skip, false, []))
  {
    hide NextRecord;
    NoRecord(inFragmented, scratch);
    NoRecord(false, []);
    if items == [] {
      assert items + skip == [];
    } else {
      assert (items + skip)[0] == items[0] && (items + skip)[1..] == skip;
      AfterBad(items + skip, inFragmented, scratch);
    }
  }

  lemma FailedItems(rest: Bytes, last: bool)
    requires Fails(rest)
    ensures var items := BlockItems(rest, last);
      || (last && items == [])
      || (|items| == 1 && items[0].kind == BAD && items[0].payload == [])
  {
    hide ChecksumFits;
  }

  lemma CutItemsAhead(file: Bytes, b: nat, off: nat)
    requires off < BLOCK && b * BLOCK + off <= |file|
    ensures var last := |file| < (b + 1) * BLOCK;
      ItemsFrom(off, file[b * BLOCK + off..]) ==
      BlockItems(file[b * BLOCK + off..BlockEnd(file, b)], last)
          + if last then [] else ItemsFrom(0, file[(b + 1) * BLOCK..])
  {
    hide BlockItems;
    var bytes := file[b * BLOCK + off..];
    if |file| < (b + 1) * BLOCK {
      assert file[b * BLOCK + off..BlockEnd(file, b)] == bytes;
    } else {
      assert bytes[..BLOCK - off] == file[b * BLOCK + off..BlockEnd(file, b)];
      assert bytes[BLOCK - off..] == file[(b + 1) * BLOCK..];
    }
  }

  lemma AfterBad(items: seq<Item>, inFragmented: bool, scratch: Bytes)
    requires items != [] && items[0].kind == BAD && (!inFragmented ==> scratch == [])
    ensures SameOutcome(NextRecord(items, inFragmented, scratch), NextRecord(items[1..], false, []))
  {
  }

  // ---------------------------------------------------------------- records

  /** The first fragment of what is left of a record, and the bytes after it. */
  function Head(off: nat, data: Bytes, begin: bool): (r: Bytes)
    requires off <= BLOCK
    ensures |r| == HEADER + FragmentLength(off, data)
  {
    var n := FragmentLength(off, data);
    Physical(TypeOf(begin, n == |data|), data[..n])
  }

  function HeadItem(off: nat, data: Bytes, begin: bool): Item
    requires off <= BLOCK
  {
    var n := FragmentLength(off, data);
    Item(TypeOf(begin, n == |data|), data[..n], None)
  }

  function Tail(off: nat, data: Bytes): Bytes
    requires off <= BLOCK
  {
    var n := FragmentLength(off, data);
    if n == |data| then [] else Emit(NextOffset(off, data), data[n..], false)
  }

  lemma EmitParts(off: nat, data: Bytes, begin: bool)
    requires off <= BLOCK
    ensures Emit(off, data, begin) == Trailer(off) + Head(off, data, begin) + Tail(off, data)
  {
    hide Physical, Trailer;
  }

  /** From the bytes of a record to those of its first fragment and the rest. */
  lemma EmitAt(log: Bytes, b: nat, off: nat, data: Bytes, begin: bool)
    requires off <= BLOCK && LogAt(log, b, off, Emit(off, data, begin))
    ensures LogAt(log, StartBlock(b, off), StartOf(off), Head(off, data, begin))
    ensures LogAt(log, StartBlock(b, off), NextOffset(off, data), Tail(off, data))
  {
    hide Head, Tail, Trailer, Emit, BytesAt, FragmentLength;
    EmitParts(off, data, begin);
    BytesAtParts(log, b * BLOCK + off, Trailer(off), Head(off, data, begin), Tail(off, data));
  }

  lemma BytesAtParts(log: Bytes, pos: nat, a: Bytes, b: Bytes, c: Bytes)
    requires BytesAt(log, pos, a + b + c)
    ensures BytesAt(log, pos + |a|, b) && BytesAt(log, pos + |a| + |b|, c)
  {
    var s := a + b + c;
    forall i | 0 <= i < |b| ensures log[pos + |a| + i] == b[i] {
      assert log[pos + (|a| + i)] == s[|a| + i];
    }
    forall i | 0 <= i < |c| ensures log[pos + |a| + |b| + i] == c[i] {
      assert log[pos + (|a| + |b| + i)] == s[|a| + |b| + i];
    }
  }

  /** The reader's position after a fragment that was kept. */
  lemma KeptPiece(log: Bytes, file: Bytes, cuts: Cuts, b: nat, off: nat, data: Bytes, begin: bool)
    requires Damage(log, file, cuts) && off <= BLOCK && LogAt(log, b, off, Emit(off, data, begin))
    requires Kept(cuts, StartBlock(b, off), StartOf(off), HEADER + FragmentLength(off, data))
    ensures b * BLOCK + off <= |file| && StartBlock(b, off) * BLOCK + NextOffset(off, data) <= |file|
    ensures Ahead(file, cuts, b, off) ==
            [HeadItem(off, data, begin)] + Ahead(file, cuts, StartBlock(b, off), NextOffset(off, data))
  {
    hide *;
    var n := FragmentLength(off, data);
    HeadIs(off, data, begin);
    PieceFits(log, file, cuts, b, off, data, begin);
    AheadOfStart(file, cuts, b, off);
    AheadOfKept(log, file, cuts, StartBlock(b, off), StartOf(off), TypeOf(begin, n == |data|), data[..n]);
  }

  lemma HeadIs(off: nat, data: Bytes, begin: bool)
    requires off <= BLOCK
    ensures var n := FragmentLength(off, data);
      && TypeOf(begin, n == |data|) != ZERO && NextOffset(off, data) == StartOf(off) + HEADER + n
      && Head(off, data, begin) == Physical(TypeOf(begin, n == |data|), data[..n])
      && HeadItem(off, data, begin) == Item(TypeOf(begin, n == |data|), data[..n], None)
  {
  }

  /** Everything the next fragment needs lies within the file. */
  lemma PieceFits(log: Bytes, file: Bytes, cuts: Cuts, b: nat, off: nat, data: Bytes, begin: bool)
    requires Damage(log, file, cuts) && off <= BLOCK && LogAt(log, b, off, Emit(off, data, begin))
    ensures b in cuts ==> cuts[b] + HEADER <= BLOCK
    ensures b * BLOCK + off <= |file| && StartBlock(b, off) * BLOCK + StartOf(off) <= |file|
    ensures StartBlock(b, off) * BLOCK + NextOffset(off, data) <= |file|
    ensures LogAt(log, StartBlock(b, off), StartOf(off), Head(off, data, begin))
  {
    hide Head, Emit, Damage;
    EmitAt(log, b, off, data, begin);
    CutsAreEarly(log, file, cuts, b);
    SameLength(log, file, cuts);
    AtMost(log, b, off, Emit(off, data, begin));
    AtMost(log, StartBlock(b, off), StartOf(off), Head(off, data, begin));
  }

  lemma AtMost(log: Bytes, b: nat, off: nat, bytes: Bytes)
    requires LogAt(log, b, off, bytes)
    ensures b * BLOCK + off + |bytes| <= |log|
  {
  }

  lemma SameLength(log: Bytes, file: Bytes, cuts: Cuts)
    requires Damage(log, file, cuts)
    ensures |file| == |log|
  {
  }

  /** What fails holds at least a header. */
  lemma CutsAreEarly(log: Bytes, file: Bytes, cuts: Cuts, b: nat)
    requires Damage(log, file, cuts)
    ensures b in cuts ==> cuts[b] + HEADER <= BLOCK
  {
    if b in cuts {
      assert Fails(file[b * BLOCK + cuts[b]..BlockEnd(file, b)]);
    }
  }

  /** A record with all its fragments is read. */
  lemma {:induction false} IntactIsRead(log: Bytes, file: Bytes, cuts: Cuts, b: nat, off: nat, data: Bytes,
                                        begin: bool, scratch: Bytes)
    requires Damage(log, file, cuts) && off <= BLOCK && LogAt(log, b, off, Emit(off, data, begin))
    requires Intact(b, off, data, cuts) && (begin ==> scratch == [])
    ensures b * BLOCK + off <= |file| && EndBlock(b, off, data) * BLOCK + EndOffset(off, data) <= |file|
    ensures NextRecord(Ahead(file, cuts, b, off), !begin, scratch) ==
            Found(Some(scratch + data), Ahead(file, cuts, EndBlock(b, off, data), EndOffset(off, data)), [])
    decreases |data|, if FragmentLength(off, data) == 0 then 1 else 0
  {
    hide NextRecord, Damage, Emit, Ahead, LogAt;
    var n := FragmentLength(off, data);
    KeptPiece(log, file, cuts, b, off, data, begin);
    AfterPiece(off, data, begin, scratch, Ahead(file, cuts, b, off));
    if n < |data| {
      EmitAt(log, b, off, data, begin);
      IntactIsRead(log, file, cuts, StartBlock(b, off), NextOffset(off, data), data[n..], false, scratch + data[..n]);
      assert scratch + data[..n] + data[n..] == scratch + data;
    }
  }

  /** At a dropped fragment the reader forgets the record it was reassembling. */
  lemma DroppedPiece(log: Bytes, file: Bytes, cuts: Cuts, b: nat, off: nat, data: Bytes, begin: bool,
                     inFragmented: bool, scratch: Bytes)
    requires Damage(log, file, cuts) && off <= BLOCK && LogAt(log, b, off, Emit(off, data, begin))
    requires var c := StartBlock(b, off);
      c in cuts && cuts[c] <= StartOf(off) && (cuts[c] < StartOf(off) ==> !inFragmented)
    requires !inFragmented ==> scratch == []
    ensures b * BLOCK + off <= |file| && StartBlock(b, off) * BLOCK + NextOffset(off, data) <= |file|
    ensures SameOutcome(NextRecord(Ahead(file, cuts, b, off), inFragmented, scratch),
                        NextRecord(Ahead(file, cuts, StartBlock(b, off), NextOffset(off, data)), false, []))
  {
    PieceFits(log, file, cuts, b, off, data, begin);
    var n := FragmentLength(off, data);
    hide Emit, Damage, NextRecord, LogAt, Ahead, FragmentLength;
    AheadOfStart(file, cuts, b, off);
    AheadOfCut(log, file, cuts, StartBlock(b, off), StartOf(off), HEADER + n, inFragmented, scratch);
  }

  /** What remains of a record that lost a fragment is passed over. */
  lemma StrayPiece(items: seq<Item>, kind: nat, payload: Bytes, rest: seq<Item>)
    requires (kind == MIDDLE || kind == LAST) && items == [Item(kind, payload, None)] + rest
    ensures SameOutcome(NextRecord(items, false, []), NextRecord(rest, false, []))
  {
    assert items[1..] == rest;
  }

  /** The reader is in the middle of nothing, or has seen all of the record so far and no cut in
      this block. */
  predicate Tracking(cuts: Cuts, b: nat, off: nat, inFragmented: bool, scratch: Bytes) {
    if inFragmented then b in cuts ==> off <= cuts[b] else scratch == []
  }

  lemma {:induction false} StrayIsSkipped(log: Bytes, file: Bytes, cuts: Cuts, b: nat, off: nat, data: Bytes)
    requires Damage(log, file, cuts) && off <= BLOCK && LogAt(log, b, off, Emit(off, data, false))
    requires WholeFragments(b, off, data, cuts)
    ensures b * BLOCK + off <= |file| && EndBlock(b, off, data) * BLOCK + EndOffset(off, data) <= |file|
    ensures SameOutcome(NextRecord(Ahead(file, cuts, b, off), false, []),
                        NextRecord(Ahead(file, cuts, EndBlock(b, off, data), EndOffset(off, data)), false, []))
    decreases |data|, if FragmentLength(off, data) == 0 then 1 else 0
  {
    hide NextRecord, Damage, Emit, Ahead, LogAt;
    var n := FragmentLength(off, data);
    var c, o := StartBlock(b, off), NextOffset(off, data);
    if Kept(cuts, c, StartOf(off), HEADER + n) {
      KeptPiece(log, file, cuts, b, off, data, false);
      StrayPiece(Ahead(file, cuts, b, off), TypeOf(false, n == |data|), data[..n], Ahead(file, cuts, c, o));
    } else {
      DroppedPiece(log, file, cuts, b, off, data, false, false, []);
    }
    if n < |data| {
      EmitAt(log, b, off, data, false);
      StrayIsSkipped(log, file, cuts, c, o, data[n..]);
    }
  }

  /** A record that lost a fragment is not returned, nor any part of it. */
  lemma {:induction false} BrokenIsSkipped(log: Bytes, file: Bytes, cuts: Cuts, b: nat, off: nat, data: Bytes,
                                           begin: bool, scratch: Bytes)
    requires Damage(log, file, cuts) && off <= BLOCK && LogAt(log, b, off, Emit(off, data, begin))
    requires WholeFragments(b, off, data, cuts) && !Intact(b, off, data, cuts)
    requires Tracking(cuts, b, off, !begin, scratch)
    ensures b * BLOCK + off <= |file| && EndBlock(b, off, data) * BLOCK + EndOffset(off, data) <= |file|
    ensures SameOutcome(NextRecord(Ahead(file, cuts, b, off), !begin, scratch),
                        NextRecord(Ahead(file, cuts, EndBlock(b, off, data), EndOffset(off, data)), false, []))
    decreases |data|, if FragmentLength(off, data) == 0 then 1 else 0
  {
    hide NextRecord, Damage, Emit, Ahead, LogAt;
    var n := FragmentLength(off, data);
    var c, o := StartBlock(b, off), NextOffset(off, data);
    EmitAt(log, b, off, data, begin);
    if Kept(cuts, c, StartOf(off), HEADER + n) {
      KeptPiece(log, file, cuts, b, off, data, begin);
      AfterPiece(off, data, begin, scratch, Ahead(file, cuts, b, off));
      BrokenIsSkipped(log, file, cuts, c, o, data[n..], false, scratch + data[..n]);
    } else {
      DroppedPiece(log, file, cuts, b, off, data, begin, !begin, scratch);
      if n < |data| {
        StrayIsSkipped(log, file, cuts, c, o, data[n..]);
      }
    }
  }

  // ---------------------------------------------------------------- whole logs

  lemma LogParts(log: Bytes, b: nat, off: nat, records: seq<Bytes>)
    requires off <= BLOCK && records != [] && LogAt(log, b, off, LogOf(off, records))
    ensures LogAt(log, b, off, Emit(off, records[0], true))
    ensures LogAt(log, EndBlock(b, off, records[0]), EndOffset(off, records[0]),
            LogOf(EndOffset(off, records[0]), records[1..]))
  {
    hide Emit, EndOffset, EndBlock;
    var first, more := Emit(off, records[0], true), LogOf(EndOffset(off, records[0]), records[1..]);
    assert [] + first + more == LogOf(off, records);
    BytesAtParts(log, b * BLOCK + off, [], first, more);
    EmitEndsAt(b, off, records[0], true);
  }

  /** Where a record's last byte falls. */
  lemma {:induction false} EmitEndsAt(b: nat, off: nat, data: Bytes, begin: bool)
    requires off <= BLOCK
    ensures b * BLOCK + off + |Emit(off, data, begin)| == EndBlock(b, off, data) * BLOCK + EndOffset(off, data)
    decreases |data|, if FragmentLength(off, data) == 0 then 1 else 0
  {
    hide Physical, Trailer;
    var n := FragmentLength(off, data);
    if n < |data| {
      EmitEndsAt(StartBlock(b, off), NextOffset(off, data), data[n..], false);
    }
  }

  lemma SameRecords(items: seq<Item>, others: seq<Item>)
    requires SameOutcome(NextRecord(items, false, []), NextRecord(others, false, []))
    ensures Records(items) == Records(others)
  {
    hide NextRecord;
  }

  lemma FirstRecord(items: seq<Item>, data: Bytes, rest: seq<Item>)
    requires NextRecord(items, false, []) == Found(Some(data), rest, [])
    ensures Records(items) == [data] + Records(rest)
  {
    hide NextRecord;
  }

  lemma NothingAhead(file: Bytes, cuts: Cuts, b: nat, off: nat)
    requires off <= BLOCK && b * BLOCK + off == |file|
    ensures Records(Ahead(file, cuts, b, off)) == []
  {
    assert ItemsFrom(0, []) == [];
    assert ItemsFrom(off, []) == [];
    assert file[b * BLOCK + off..] == [];
  }

  lemma {:induction false} DamageNeverSplicesFrom(log: Bytes, file: Bytes, cuts: Cuts, b: nat, off: nat,
                                                  records: seq<Bytes>)
    requires Damage(log, file, cuts) && off <= BLOCK && LogAt(log, b, off, LogOf(off, records))
    requires b * BLOCK + off + |LogOf(off, records)| == |log|
    requires DropsWholeFragments(b, off, records, cuts)
    ensures b * BLOCK + off <= |file|
    ensures Records(Ahead(file, cuts, b, off)) == Survivors(b, off, records, cuts)
    decreases |records|
  {
    SameLength(log, file, cuts);
    hide NextRecord, Damage, Emit, Ahead, LogAt, Records, EndBlock, EndOffset, Intact, WholeFragments;
    if records == [] {
      NothingAhead(file, cuts, b, off);
    } else {
      var data := records[0];
      var c, o := EndBlock(b, off, data), EndOffset(off, data);
      LogParts(log, b, off, records);
      EmitEndsAt(b, off, data, true);
      DamageNeverSplicesFrom(log, file, cuts, c, o, records[1..]);
      if Intact(b, off, data, cuts) {
        IntactIsRead(log, file, cuts, b, off, data, true, []);
        assert [] + data == data;
        FirstRecord(Ahead(file, cuts, b, off), data, Ahead(file, cuts, c, o));
      } else {
        BrokenIsSkipped(log, file, cuts, b, off, data, true, []);
        SameRecords(Ahead(file, cuts, b, off), Ahead(file, cuts, c, o));
      }
    }
  }

  /** However the dropped suffixes of some blocks were overwritten, as long as each of them fails,
      the reader returns, in order and byte for byte, exactly the records with no fragment there. */
  lemma DamageNeverSplices(records: seq<Bytes>, file: Bytes, cuts: Cuts)
    requires Damage(LogOf(0, records), file, cuts) && DropsWholeFragments(0, 0, records, cuts)
    ensures Records(ItemsFrom(0, file)) == Survivors(0, 0, records, cuts)
  {
    var log := LogOf(0, records);
    assert LogAt(log, 0, 0, log);
    assert file[0..] == file;
    assert Ahead(file, cuts, 0, 0) == ItemsFrom(0, file);
    hide Damage, LogOf, DropsWholeFragments, Survivors, Ahead, ItemsFrom, Records;
    DamageNeverSplicesFrom(log, file, cuts, 0, 0, records);
  }

  /** An undamaged log loses nothing. */
  lemma {:induction false} NoDamageNoLoss(b: nat, off: nat, records: seq<Bytes>)
    requires off <= BLOCK
    ensures Survivors(b, off, records, map[]) == records
    decreases |records|
  {
    if records != [] {
      IntactWithoutCuts(b, off, records[0]);
      hide Intact, EndBlock, EndOffset;
      NoDamageNoLoss(EndBlock(b, off, records[0]), EndOffset(off, records[0]), records[1..]);
    }
  }

  lemma {:induction false} IntactWithoutCuts(b: nat, off: nat, data: Bytes)
    requires off <= BLOCK
    ensures Intact(b, off, data, map[])
    decreases |data|, if FragmentLength(off, data) == 0 then 1 else 0
  {
    var n := FragmentLength(off, data);
    if n < |data| {
      IntactWithoutCuts(StartBlock(b, off), NextOffset(off, data), data[n..]);
    }
  }
}
