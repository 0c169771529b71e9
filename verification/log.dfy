/** The log format: records cut into fragments that never cross a 32 KB block (log_writer.cc,
    log_reader.cc). */
module Logs {
  import opened Wrappers
  import opened Coding
  import opened Checksums
  import Crc32c

  const BLOCK: nat := 32768
  const HEADER: nat := 7

  const ZERO: Byte := 0
  const FULL: Byte := 1
  const FIRST: Byte := 2
  const MIDDLE: Byte := 3
  const LAST: Byte := 4
  /** Returned by the reader beside the stored types. */
  const EOF: nat := 5
  const BAD: nat := 6

  // ---------------------------------------------------------------- checksums

  function Checksum(t: Byte, payload: Bytes): bv32 {
    Crc32c.Value(AsBits([t] + payload))
  }

  function StoredChecksum(t: Byte, payload: Bytes): (r: Bytes)
    ensures |r| == 4
  {
    Fixed(Masked(Checksum(t, payload)), 4)
  }

  /** The reader unmasks the stored value and compares; Mask being a bijection (MaskIsUndone), that
      is comparing the stored value with the masked checksum. */
  predicate ChecksumFits(stored: Bytes, t: Byte, payload: Bytes)
    requires |stored| == 4
  {
    DecodeFixed(stored) == Masked(Checksum(t, payload))
  }

  /** The writer extends the checksum of the type; the reader computes it over type and payload. */
  lemma ChecksumExtendsType(t: Byte, payload: Bytes)
    ensures Crc32c.Extended(Crc32c.Value(AsBits([t])), AsBits(payload)) == Checksum(t, payload)
  {
    ValueOfMore([t], payload);
  }

  /** The stored checksum is the only one the reader accepts. */
  lemma StoredChecksumFits(stored: Bytes, t: Byte, payload: Bytes)
    requires |stored| == 4
    ensures ChecksumFits(stored, t, payload) <==> stored == StoredChecksum(t, payload)
  {
    hide Checksum, Masked, Fixed, DecodeFixed;
    MaskedFits(Checksum(t, payload));
    Fixed32RoundTrip(Masked(Checksum(t, payload)));
    DecodeFixedRoundTrip(stored);
  }

  // ---------------------------------------------------------------- what the writer emits

  function LowByte(n: nat): Byte {
    n % 0x100
  }

  function HighByte(n: nat): Byte
    requires n < 0x1_0000
  {
    n / 0x100
  }

  function Physical(t: Byte, p: Bytes): (r: Bytes)
    requires |p| < 0x1_0000
    ensures |r| == HEADER + |p|
  {
    StoredChecksum(t, p) + [LowByte(|p|), HighByte(|p|), t] + p
  }

  /** Where the next fragment starts: a header never crosses into the next block. */
  function StartOf(off: nat): nat
    requires off <= BLOCK
  {
    if BLOCK - off < HEADER then 0 else off
  }

  function Trailer(off: nat): (r: Bytes)
    requires off <= BLOCK
    ensures |r| == if BLOCK - off < HEADER then BLOCK - off else 0
  {
    if BLOCK - off < HEADER then seq(BLOCK - off, i => ZERO) else []
  }

  /** How much of the data goes into the next fragment: all of it, or as much as fills the block. */
  function FragmentLength(off: nat, data: Bytes): (n: nat)
    requires off <= BLOCK
    ensures n <= |data| && StartOf(off) + HEADER + n <= BLOCK
  {
    var avail := BLOCK - StartOf(off) - HEADER;
    if |data| < avail then |data| else avail
  }

  /** A fragment is the last of its record, or ends where its block does. */
  lemma FragmentsFillBlocks(off: nat, data: Bytes)
    requires off <= BLOCK
    ensures FragmentLength(off, data) == |data| || NextOffset(off, data) == BLOCK
  {
  }

  function TypeOf(begin: bool, end: bool): Byte {
    if begin && end then FULL else if begin then FIRST else if end then LAST else MIDDLE
  }

  /** Where a fragment leaves the block offset. */
  function NextOffset(off: nat, data: Bytes): (r: nat)
    requires off <= BLOCK
    ensures HEADER <= r <= BLOCK
  {
    StartOf(off) + HEADER + FragmentLength(off, data)
  }

  /** The bytes of one record, from block offset `off` on. */
  function Emit(off: nat, data: Bytes, begin: bool): Bytes
    requires off <= BLOCK
    decreases |data|, if FragmentLength(off, data) == 0 then 1 else 0
  {
    var n := FragmentLength(off, data);
    var bytes := Trailer(off) + Physical(TypeOf(begin, n == |data|), data[..n]);
    if n == |data| then bytes else bytes + Emit(NextOffset(off, data), data[n..], false)
  }

  function EndOffset(off: nat, data: Bytes): (r: nat)
    requires off <= BLOCK
    ensures r <= BLOCK
    decreases |data|, if FragmentLength(off, data) == 0 then 1 else 0
  {
    var n := FragmentLength(off, data);
    if n == |data| then NextOffset(off, data) else EndOffset(NextOffset(off, data), data[n..])
  }

  /** A whole log. */
  function LogOf(off: nat, records: seq<Bytes>): Bytes
    requires off <= BLOCK
    decreases |records|
  {
    if records == [] then [] else Emit(off, records[0], true) + LogOf(EndOffset(off, records[0]), records[1..])
  }

  predicate Aligned(length: nat, off: nat) {
    length % BLOCK == off % BLOCK
  }

  lemma AlignedMore(length: nat, off: nat, n: nat)
    ensures Aligned(length, off) ==> Aligned(length + n, off + n)
    ensures Aligned(length, off) && off + n == BLOCK ==> Aligned(length + n, 0)
  {
  }

  /** What a file takes of some bytes when there is room for only so many. */
  function Taken(bytes: Bytes, room: nat): Bytes {
    if |bytes| <= room then bytes else bytes[..room]
  }

  lemma TakenMore(before: Bytes, a: Bytes, b: Bytes, room: nat)
    ensures before + Taken(a, room) + Taken(b, room - |Taken(a, room)|) == before + Taken(a + b, room)
    ensures room - |Taken(a, room)| - |Taken(b, room - |Taken(a, room)|)| == room - |Taken(a + b, room)|
    ensures |b| > 0 ==> (|b| <= room - |Taken(a, room)| <==> |a + b| <= room)
  {
  }

  lemma TakenAll(bytes: Bytes, room: nat)
    ensures |Taken(bytes, room)| <= room
    ensures |bytes| <= room ==> Taken(bytes, room) == bytes
    ensures |bytes| > room ==> |Taken(bytes, room)| == room
  {
  }

  /** A trailer and a physical record. */
  function Piece(off: nat, data: Bytes, begin: bool): (r: Bytes)
    requires off <= BLOCK
    ensures |r| >= HEADER
  {
    var n := FragmentLength(off, data);
    Trailer(off) + Physical(TypeOf(begin, n == |data|), data[..n])
  }

  /** Where appending a record to a file with room for only so many bytes leaves the block offset:
      past the fragment that failed, as if that had been written. */
  function OffsetAfter(off: nat, data: Bytes, room: nat): (r: nat)
    requires off <= BLOCK
    ensures r <= BLOCK
    decreases |data|, if FragmentLength(off, data) == 0 then 1 else 0
  {
    var n := FragmentLength(off, data);
    var piece := |Trailer(off)| + HEADER + n;
    if n == |data| || room < piece then NextOffset(off, data)
    else OffsetAfter(NextOffset(off, data), data[n..], room - piece)
  }

  lemma {:induction false} EnoughRoom(off: nat, data: Bytes, begin: bool, room: nat)
    requires off <= BLOCK && |Emit(off, data, begin)| <= room
    ensures OffsetAfter(off, data, room) == EndOffset(off, data)
    decreases |data|, if FragmentLength(off, data) == 0 then 1 else 0
  {
    hide Emit, Piece, OffsetAfter;
    PieceUnfolds([], off, data, begin, room);
    var n := FragmentLength(off, data);
    if n < |data| {
      EnoughRoom(NextOffset(off, data), data[n..], false, room - |Piece(off, data, begin)|);
    }
  }

  /** One turn of the loop of AddRecord. */
  lemma PieceUnfolds(before: Bytes, off: nat, data: Bytes, begin: bool, room: nat)
    requires off <= BLOCK
    ensures var n := FragmentLength(off, data);
      var piece := Piece(off, data, begin);
      && (n == |data| ==> Emit(off, data, begin) == piece && OffsetAfter(off, data, room) == NextOffset(off, data))
      && (|piece| > room ==>
           && OffsetAfter(off, data, room) == NextOffset(off, data)
           && |Emit(off, data, begin)| > room
           && before + Taken(Emit(off, data, begin), room) == before + Taken(piece, room))
      && (n < |data| && |piece| <= room ==>
           var next := NextOffset(off, data);
           && OffsetAfter(off, data, room) == OffsetAfter(next, data[n..], room - |piece|)
           && before + Taken(Emit(off, data, begin), room)
              == before + piece + Taken(Emit(next, data[n..], false), room - |piece|)
           && (|Emit(off, data, begin)| <= room <==> |Emit(next, data[n..], false)| <= room - |piece|))
  {
    hide Physical, Trailer;
  }

  /** The checksum covers the type and the payload. */
  method FormatHeader(t: Byte, p: Bytes) returns (header: Bytes)
    requires |p| < 0x1_0000
    ensures |header| == HEADER && header + p == Physical(t, p)
  {
    var crc := Masked(Crc32c.Extended(Crc32c.Value(AsBits([t])), AsBits(p)));
    ChecksumExtendsType(t, p);
    header := Fixed(crc, 4) + [LowByte(|p|), HighByte(|p|), t];
    hide Fixed, AsBits, Checksum, Masked, LowByte, HighByte;
  }

  class Writer {
    var dest: Bytes
    var blockOffset: nat
    /** How many more bytes the file takes. */
    var room: nat

    predicate Valid()
      reads this
    {
      blockOffset <= BLOCK
    }

    /** The block offset is where the file ends: no append has failed. */
    predicate InStep()
      reads this
    {
      Aligned(|dest|, blockOffset)
    }

    constructor (dest: Bytes)
      ensures Valid() && InStep() && this.dest == dest && blockOffset == |dest| % BLOCK
    {
      this.dest := dest;
      blockOffset, room := |dest| % BLOCK, 0;
    }

    /** Appends a record to a file that takes `limit` bytes and then fails.  After a failure the
        block offset has moved on although the bytes are missing. */
    method AddRecord(slice: Bytes, limit: nat) returns (ok: bool)
      requires Valid()
      modifies this
      ensures Valid()
      ensures ok == (|Emit(old(blockOffset), slice, true)| <= limit)
      ensures dest == old(dest) + Taken(Emit(old(blockOffset), slice, true), limit)
      ensures blockOffset == OffsetAfter(old(blockOffset), slice, limit)
      ensures ok ==> blockOffset == EndOffset(old(blockOffset), slice)
      ensures ok && old(InStep()) ==> InStep()
    {
      hide Physical, Trailer, Emit, Aligned, OffsetAfter, Taken, Piece, EndOffset;
      room := limit;
      var left := slice;
      var begin := true;
      ghost var bytes := Emit(blockOffset, slice, true);
      ghost var after := OffsetAfter(blockOffset, slice, limit);
      while true
        invariant Valid() && (old(InStep()) ==> InStep())
        invariant dest + Taken(Emit(blockOffset, left, begin), room) == old(dest) + Taken(bytes, limit)
        invariant (|Emit(blockOffset, left, begin)| <= room) == (|bytes| <= limit)
        invariant OffsetAfter(blockOffset, left, room) == after
        decreases |left|, if FragmentLength(blockOffset, left) == 0 then 1 else 0
      {
        PieceUnfolds(dest, blockOffset, left, begin, room);
        TakenAll(Piece(blockOffset, left, begin), room);
        var length;
        ok, length := EmitFragment(left, begin);
        left := left[length..];
        begin := false;
        if !ok || left == [] {
          break;
        }
      }
      if ok {
        EnoughRoom(old(blockOffset), slice, true, limit);
      }
    }

    /** One turn of that loop: a trailer if there must be one, then a physical record. */
    method EmitFragment(left: Bytes, begin: bool) returns (ok: bool, length: nat)
      requires Valid()
      modifies this
      ensures Valid() && length == FragmentLength(old(blockOffset), left)
              && blockOffset == NextOffset(old(blockOffset), left)
      ensures var piece := Piece(old(blockOffset), left, begin);
        && ok == (|piece| <= old(room))
        && dest == old(dest) + Taken(piece, old(room))
        && room == old(room) - |Taken(piece, old(room))|
      ensures ok && old(InStep()) ==> InStep()
    {
      hide Physical, Trailer, Aligned, Taken;
      FillTrailer();
      var avail := BLOCK - blockOffset - HEADER;
      length := if |left| < avail then |left| else avail;
      var end := |left| == length;
      var t := if begin && end then FULL else if begin then FIRST else if end then LAST else MIDDLE;
      TakenMore(old(dest), Trailer(old(blockOffset)), Physical(t, left[..length]), old(room));
      TakenAll(Trailer(old(blockOffset)) + Physical(t, left[..length]), old(room));
      ok := EmitPhysicalRecord(t, left[..length]);
    }

    /** Switches to a new block when no header fits into this one; whether the file took the zeros
        is not looked at. */
    method FillTrailer()
      requires Valid()
      modifies this
      ensures Valid() && blockOffset == StartOf(old(blockOffset))
      ensures dest == old(dest) + Taken(Trailer(old(blockOffset)), old(room))
      ensures room == old(room) - |Taken(Trailer(old(blockOffset)), old(room))|
      ensures |Trailer(old(blockOffset))| <= old(room) && old(InStep()) ==> InStep()
    {
      hide Aligned;
      var leftover := BLOCK - blockOffset;
      if leftover < HEADER {
        AlignedMore(|dest|, blockOffset, leftover);
        if leftover > 0 {
          var _ := Append(seq(leftover, i => ZERO));
        }
        blockOffset := 0;
      }
    }

    method EmitPhysicalRecord(t: Byte, p: Bytes) returns (ok: bool)
      requires Valid() && blockOffset + HEADER + |p| <= BLOCK
      modifies this
      ensures Valid() && blockOffset == old(blockOffset) + HEADER + |p|
      ensures ok == (|Physical(t, p)| <= old(room))
      ensures dest == old(dest) + Taken(Physical(t, p), old(room))
      ensures room == old(room) - |Taken(Physical(t, p), old(room))|
      ensures ok && old(InStep()) ==> InStep()
    {
      var header := FormatHeader(t, p);
      hide Physical, Aligned, Taken;
      AlignedMore(|dest|, blockOffset, HEADER + |p|);
      TakenAll(header + p, room);
      ok := AppendBoth(header, p);
      blockOffset := blockOffset + HEADER + |p|;
    }

    method AppendBoth(header: Bytes, payload: Bytes) returns (ok: bool)
      modifies this`dest, this`room
      ensures ok == (|header + payload| <= old(room))
      ensures dest == old(dest) + Taken(header + payload, old(room))
      ensures room == old(room) - |Taken(header + payload, old(room))|
    {
      ok := Append(header);
      if ok {
        ok := Append(payload);
      }
      TakenMore(old(dest), header, payload, old(room));
    }

    /** WritableFile::Append to a file that may run out of room. */
    method Append(bytes: Bytes) returns (ok: bool)
      modifies this`dest, this`room
      ensures ok == (|bytes| <= old(room))
      ensures dest == old(dest) + Taken(bytes, old(room)) && room == old(room) - |Taken(bytes, old(room))|
    {
      ok := |bytes| <= room;
      var taken := if ok then bytes else bytes[..room];
      dest := dest + taken;
      room := room - |taken|;
    }
  }

  // ---------------------------------------------------------------- what the reader finds

  /** A physical record as ReadPhysicalRecord returns it, and how many bytes it reported dropped. */
  datatype Item = Item(kind: nat, payload: Bytes, dropped: Option<nat>)

  function LengthField(buffer: Bytes): nat
    requires |buffer| >= HEADER
  {
    var a: nat, b: nat := buffer[4], buffer[5];
    a + 0x100 * b
  }

  /** The physical records of one block; `last` when the file ends with it. */
  function BlockItems(buffer: Bytes, last: bool): seq<Item>
    decreases |buffer|
  {
    if |buffer| < HEADER then [] else
      var length := LengthField(buffer);
      if HEADER + length > |buffer| then
        if last then [] else [Item(BAD, [], Some(|buffer|))]
      else if buffer[6] == ZERO && length == 0 then
        [Item(BAD, [], None)]
      else if !ChecksumFits(buffer[..4], buffer[6], buffer[HEADER..HEADER + length]) then
        [Item(BAD, [], Some(|buffer|))]
      else
        [Item(buffer[6], buffer[HEADER..HEADER + length], None)] + BlockItems(buffer[HEADER + length..], last)
  }

  /** The physical records of a file, from block offset `off` on. */
  function ItemsFrom(off: nat, bytes: Bytes): seq<Item>
    requires off <= BLOCK
    decreases |bytes|, off
  {
    if |bytes| < BLOCK - off then BlockItems(bytes, true)
    else BlockItems(bytes[..BLOCK - off], false) + ItemsFrom(0, bytes[BLOCK - off..])
  }

  function Report(dropped: Option<nat>): seq<nat> {
    if dropped.Some? then [dropped.value] else []
  }

  function Partial(inFragmented: bool, scratch: Bytes): seq<nat> {
    if inFragmented && scratch != [] then [|scratch|] else []
  }

  /** What ReadRecord does with one physical record. */
  datatype Reaction =
    | Return(record: Bytes, reports: seq<nat>)
    | Stop(reports: seq<nat>)
    | Continue(inFragmented: bool, scratch: Bytes, reports: seq<nat>)

  function React(kind: nat, payload: Bytes, inFragmented: bool, scratch: Bytes): Reaction {
    if kind == FULL then
      Return(payload, Partial(inFragmented, scratch))
    else if kind == FIRST then
      Continue(true, payload, Partial(inFragmented, scratch))
    else if kind == MIDDLE then
      if inFragmented then Continue(true, scratch + payload, [])
      else Continue(false, scratch, [|payload|])
    else if kind == LAST then
      if inFragmented then Return(scratch + payload, [])
      else Continue(false, scratch, [|payload|])
    else if kind == EOF then
      Stop([])
    else if kind == BAD then
      if inFragmented then Continue(false, [], [|scratch|])
      else Continue(false, scratch, [])
    else
      Continue(false, [], [|payload| + if inFragmented then |scratch| else 0])
  }

  datatype Found = Found(record: Option<Bytes>, rest: seq<Item>, reports: seq<nat>)

  /** What ReadRecord makes of the physical records to come: a record, what remains after it, and
      the byte counts it reported as corrupt. */
  function NextRecord(items: seq<Item>, inFragmented: bool, scratch: Bytes): (f: Found)
    ensures f.record.Some? ==> |f.rest| < |items|
    decreases |items|
  {
    if items == [] then Found(None, [], []) else
      var d := Report(items[0].dropped);
      match React(items[0].kind, items[0].payload, inFragmented, scratch)
      case Return(record, reports) => Found(Some(record), items[1..], d + reports)
      case Stop(reports) => Found(None, items[1..], d + reports)
      case Continue(inFragmented, scratch, reports) =>
        var f := NextRecord(items[1..], inFragmented, scratch);
        f.(reports := d + reports + f.reports)
  }

  /** All records, and all reports, of reading to the end. */
  function Records(items: seq<Item>): seq<Bytes>
    decreases |items|
  {
    var f := NextRecord(items, false, []);
    if f.record.None? then [] else [f.record.value] + Records(f.rest)
  }

  function Reports(items: seq<Item>): seq<nat>
    decreases |items|
  {
    var f := NextRecord(items, false, []);
    f.reports + if f.record.None? then [] else Reports(f.rest)
  }

  class Reader {
    const file: Bytes
    var pos: nat
    var buffer: Bytes
    var eof: bool
    /** The byte counts handed to the reporter. */
    var corruptions: seq<nat>

    ghost predicate Valid()
      reads this
    {
      pos <= |file| && (eof ==> pos == |file|)
    }

    /** The physical records still to come. */
    ghost function Items(): seq<Item>
      requires Valid()
      reads this
    {
      BlockItems(buffer, eof) + if eof then [] else ItemsFrom(0, file[pos..])
    }

    constructor (file: Bytes)
      ensures Valid() && this.file == file && corruptions == [] && Items() == ItemsFrom(0, file)
    {
      this.file := file;
      pos, buffer, eof, corruptions := 0, [], false, [];
      new;
      assert file[0..] == file;
    }

    method ReadPhysicalRecord() returns (kind: nat, fragment: Bytes)
      requires Valid()
      modifies this
      ensures Valid()
      ensures old(Items()) == [] ==> kind == EOF && fragment == [] && Items() == [] && corruptions == old(corruptions)
      ensures old(Items()) != [] ==>
        var item := old(Items())[0];
        && kind == item.kind && fragment == item.payload && Items() == old(Items())[1..]
        && corruptions == old(corruptions) + Report(item.dropped)
    {
      hide ItemsFrom, ChecksumFits;
      fragment := [];
      while |buffer| < HEADER
        invariant Valid() && Items() == old(Items()) && corruptions == old(corruptions)
        decreases |file| - pos, !eof
      {
        if eof {
          buffer := [];
          return EOF, [];
        }
        NextBlock();
      }
      kind, fragment := ParseHeader();
    }

    /** Reads the next block of the file; what is left of the last one was its trailer. */
    method NextBlock()
      requires Valid() && |buffer| < HEADER && !eof
      modifies this
      ensures Valid() && Items() == old(Items()) && corruptions == old(corruptions)
      ensures pos > old(pos) || (pos == old(pos) && eof)
    {
      ghost var ahead := file[pos..];
      var n := if |file| - pos < BLOCK then |file| - pos else BLOCK;
      buffer := file[pos..pos + n];
      pos := pos + n;
      if |buffer| < BLOCK {
        eof := true;
      }
      assert |ahead| >= BLOCK ==> ahead[..BLOCK] == buffer && ahead[BLOCK..] == file[pos..];
      assert |ahead| < BLOCK ==> ahead == buffer;
      hide BlockItems;
    }

    method ParseHeader() returns (kind: nat, fragment: Bytes)
      requires Valid() && |buffer| >= HEADER
      modifies this
      ensures Valid()
      ensures old(Items()) == [] ==> kind == EOF && fragment == [] && Items() == [] && corruptions == old(corruptions)
      ensures old(Items()) != [] ==>
        var item := old(Items())[0];
        && kind == item.kind && fragment == item.payload && Items() == old(Items())[1..]
        && corruptions == old(corruptions) + Report(item.dropped)
    {
      hide BlockItems, ItemsFrom;
      ghost var more := if eof then [] else ItemsFrom(0, file[pos..]);
      ghost var items := BlockItems(buffer, eof);
      var dropped;
      kind, fragment, buffer, dropped := DecodeHeader(buffer, eof);
      if dropped.Some? {
        corruptions := corruptions + [dropped.value];
      }
      if items == [] {
        assert old(Items()) == [];
      } else {
        assert old(Items()) == items + more && (items + more)[0] == items[0]
               && (items + more)[1..] == items[1..] + more;
      }
    }

    method ReadRecord() returns (record: Option<Bytes>)
      requires Valid()
      modifies this
      ensures Valid()
      ensures var f := NextRecord(old(Items()), false, []);
        record == f.record && Items() == f.rest && corruptions == old(corruptions) + f.reports
    {
      hide BlockItems, ItemsFrom, NextRecord;
      var scratch: Bytes := [];
      var inFragmentedRecord := false;
      ghost var goal := NextRecord(Items(), false, []);
      while true
        invariant Valid()
        invariant var f := NextRecord(Items(), inFragmentedRecord, scratch);
          f.record == goal.record && f.rest == goal.rest && corruptions + f.reports == old(corruptions) + goal.reports
        decreases |Items()|
      {
        NextUnfolds(Items(), inFragmentedRecord, scratch, corruptions);
        var kind, fragment := ReadPhysicalRecord();
        var reports;
        record, inFragmentedRecord, scratch, reports := Reassemble(kind, fragment, inFragmentedRecord, scratch);
        corruptions := corruptions + reports;
        if record.Some? || kind == EOF {
          return;
        }
      }
    }
  }

  /** The switch in ReadRecord. */
  method Reassemble(kind: nat, fragment: Bytes, inFragmented: bool, scratch: Bytes)
    returns (record: Option<Bytes>, nowInFragmented: bool, nowScratch: Bytes, reports: seq<nat>)
    ensures match React(kind, fragment, inFragmented, scratch)
      case Return(r, d) => record == Some(r) && reports == d
      case Stop(d) => record == None && reports == d && kind == EOF
      case Continue(f, s, d) => record == None && nowInFragmented == f && nowScratch == s && reports == d && kind != EOF
  {
    record, nowInFragmented, nowScratch, reports := None, inFragmented, scratch, [];
    if kind == FULL {
      if inFragmented && scratch != [] {
        reports := [|scratch|];
      }
      record := Some(fragment);
    } else if kind == FIRST {
      if inFragmented && scratch != [] {
        reports := [|scratch|];
      }
      nowScratch := fragment;
      nowInFragmented := true;
    } else if kind == MIDDLE {
      if !inFragmented {
        reports := [|fragment|];
      } else {
        nowScratch := scratch + fragment;
      }
    } else if kind == LAST {
      if !inFragmented {
        reports := [|fragment|];
      } else {
        record := Some(scratch + fragment);
      }
    } else if kind == EOF {
    } else if kind == BAD {
      if inFragmented {
        reports := [|scratch|];
        nowInFragmented := false;
        nowScratch := [];
      }
    } else {
      reports := [|fragment| + if inFragmented then |scratch| else 0];
      nowInFragmented := false;
      nowScratch := [];
    }
  }

  lemma NextUnfolds(items: seq<Item>, inFragmented: bool, scratch: Bytes, before: seq<nat>)
    ensures var f := NextRecord(items, inFragmented, scratch);
      if items == [] then f == Found(None, [], []) && before + f.reports == before
      else
        var d := Report(items[0].dropped);
        match React(items[0].kind, items[0].payload, inFragmented, scratch)
        case Return(r, reports) => f.record == Some(r) && f.rest == items[1..]
            && before + f.reports == before + d + reports
        case Stop(reports) => f.record == None && f.rest == items[1..] && before + f.reports == before + d + reports
        case Continue(g, s, reports) =>
          var n := NextRecord(items[1..], g, s);
          f.record == n.record && f.rest == n.rest && before + f.reports == before + d + reports + n.reports
  {
    hide React, Report;
    if items != [] {
      var d := Report(items[0].dropped);
      match React(items[0].kind, items[0].payload, inFragmented, scratch)
      case Return(_, reports) => RegroupAll(before, d, reports, []);
      case Stop(reports) => RegroupAll(before, d, reports, []);
      case Continue(g, s, reports) => RegroupAll(before, d, reports, NextRecord(items[1..], g, s).reports);
    }
  }

  lemma RegroupAll<T>(a: seq<T>, b: seq<T>, c: seq<T>, d: seq<T>)
    ensures a + (b + c + d) == a + b + c + d && a + (b + c) == a + b + c && a + [] == a
  {
  }

  lemma NoItems(last: bool, more: seq<Item>)
    ensures BlockItems([], last) + more == more
  {
  }

  /** Parses the header at the front of the buffer. */
  method DecodeHeader(buffer: Bytes, last: bool) returns (kind: nat, fragment: Bytes, rest: Bytes, dropped: Option<nat>)
    requires |buffer| >= HEADER
    ensures var items := BlockItems(buffer, last);
      if items == [] then last && kind == EOF && fragment == [] && BlockItems(rest, last) == [] && dropped == None
      else Item(kind, fragment, dropped) == items[0] && BlockItems(rest, last) == items[1..]
  {
    hide ChecksumFits;
    fragment, rest, dropped := [], [], None;
    var length := LengthField(buffer);
    if HEADER + length > |buffer| {
      if !last {
        return BAD, [], [], Some(|buffer|);
      }
      return EOF, [], [], None;
    }
    if buffer[6] == ZERO && length == 0 {
      return BAD, [], [], None;
    }
    if !ChecksumFits(buffer[..4], buffer[6], buffer[HEADER..HEADER + length]) {
      return BAD, [], [], Some(|buffer|);
    }
    kind := buffer[6];
    fragment := buffer[HEADER..HEADER + length];
    rest := buffer[HEADER + length..];
  }
}
