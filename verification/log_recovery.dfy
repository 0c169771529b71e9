/** Reading back a log, whole, cut short, or damaged. */
module LogRecovery {
  import opened Wrappers
  import opened Coding
  import opened Logs

  // ---------------------------------------------------------------- fragments

  /** The physical records of one logical record. */
  function Fragments(off: nat, data: Bytes, begin: bool): (r: seq<Item>)
    requires off <= BLOCK
    ensures |r| > 0
    decreases |data|, if FragmentLength(off, data) == 0 then 1 else 0
  {
    var n := FragmentLength(off, data);
    var head := [Item(TypeOf(begin, n == |data|), data[..n], None)];
    if n == |data| then head else head + Fragments(NextOffset(off, data), data[n..], false)
  }

  lemma HeaderFields(t: Byte, p: Bytes, rest: Bytes)
    requires |p| < 0x1_0000
    ensures var b := Physical(t, p) + rest;
      && LengthField(b) == |p| && b[6] == t && b[..4] == StoredChecksum(t, p)
      && b[HEADER..HEADER + |p|] == p && b[HEADER + |p|..] == rest
  {
    hide StoredChecksum;
    var b := Physical(t, p) + rest;
    assert b[4] == LowByte(|p|) && b[5] == HighByte(|p|);
  }

  /** An intact physical record at the front of a block is found. */
  lemma BlockHead(t: Byte, p: Bytes, rest: Bytes, last: bool)
    requires |p| < 0x1_0000 && t != ZERO
    ensures BlockItems(Physical(t, p) + rest, last) == [Item(t, p, None)] + BlockItems(rest, last)
  {
    HeaderFields(t, p, rest);
    StoredChecksumFits(StoredChecksum(t, p), t, p);
    hide Physical, StoredChecksum, ChecksumFits, LengthField;
  }

  /** One cut short by the end of the file is not an error. */
  lemma BlockCut(t: Byte, p: Bytes, n: nat)
    requires |p| < 0x1_0000 && n < |Physical(t, p)|
    ensures BlockItems(Physical(t, p)[..n], true) == []
  {
    if n >= HEADER {
      HeaderFields(t, p, []);
      var b, cut := Physical(t, p) + [], Physical(t, p)[..n];
      hide Physical;
      assert cut[4] == b[4] && cut[5] == b[5];
    }
  }

  lemma ItemsUnfold(off: nat, bytes: Bytes)
    requires off <= BLOCK
    ensures var left := BLOCK - off;
      ItemsFrom(off, bytes) ==
      if |bytes| < left then BlockItems(bytes, true) else BlockItems(bytes[..left], false) + ItemsFrom(0, bytes[left..])
  {
    hide BlockItems;
  }

  lemma FragmentItems(off: nat, t: Byte, p: Bytes, rest: Bytes)
    requires off + HEADER + |p| <= BLOCK && t != ZERO
    ensures ItemsFrom(off, Physical(t, p) + rest) == [Item(t, p, None)] + ItemsFrom(off + HEADER + |p|, rest)
  {
    hide ItemsFrom, BlockItems, Physical;
    var bytes := Physical(t, p) + rest;
    var left := BLOCK - off - HEADER - |p|;
    ItemsUnfold(off, bytes);
    ItemsUnfold(off + HEADER + |p|, rest);
    if |rest| < left {
      BlockHead(t, p, rest, true);
    } else {
      BlockHead(t, p, rest[..left], false);
      assert bytes[..BLOCK - off] == Physical(t, p) + rest[..left];
      assert bytes[BLOCK - off..] == rest[left..];
      RegroupAll([Item(t, p, None)], BlockItems(rest[..left], false), ItemsFrom(0, rest[left..]), []);
    }
  }

  lemma TrailerItems(off: nat, rest: Bytes)
    requires off <= BLOCK
    ensures ItemsFrom(off, Trailer(off) + rest) == ItemsFrom(StartOf(off), rest)
  {
    if BLOCK - off < HEADER {
      var bytes := Trailer(off) + rest;
      assert bytes[..BLOCK - off] == Trailer(off);
      assert bytes[BLOCK - off..] == rest;
    } else {
      assert Trailer(off) + rest == rest;
    }
  }

  lemma PieceItems(off: nat, data: Bytes, begin: bool, rest: Bytes)
    requires off <= BLOCK
    ensures var n := FragmentLength(off, data);
      ItemsFrom(off, Piece(off, data, begin) + rest) ==
      [Item(TypeOf(begin, n == |data|), data[..n], None)] + ItemsFrom(NextOffset(off, data), rest)
  {
    var n := FragmentLength(off, data);
    var physical := Physical(TypeOf(begin, n == |data|), data[..n]);
    hide Physical, Trailer, ItemsFrom;
    assert Trailer(off) + physical + rest == Trailer(off) + (physical + rest);
    TrailerItems(off, physical + rest);
    FragmentItems(StartOf(off), TypeOf(begin, n == |data|), data[..n], rest);
  }

  /** The reader finds the fragments the writer emitted. */
  lemma {:induction false} EmitItems(off: nat, data: Bytes, begin: bool, rest: Bytes)
    requires off <= BLOCK
    ensures ItemsFrom(off, Emit(off, data, begin) + rest) == Fragments(off, data, begin)
            + ItemsFrom(EndOffset(off, data), rest)
    decreases |data|, if FragmentLength(off, data) == 0 then 1 else 0
  {
    hide Emit, Fragments, Piece, ItemsFrom;
    var n := FragmentLength(off, data);
    var head := Piece(off, data, begin);
    EmitIs(off, data, begin);
    FragmentsAre(off, data, begin);
    if n == |data| {
      PieceItems(off, data, begin, rest);
    } else {
      var next := NextOffset(off, data);
      var more := Emit(next, data[n..], false);
      assert Emit(off, data, begin) + rest == head + (more + rest);
      PieceItems(off, data, begin, more + rest);
      EmitItems(next, data[n..], false, rest);
    }
  }

  lemma EmitIs(off: nat, data: Bytes, begin: bool)
    requires off <= BLOCK
    ensures var n := FragmentLength(off, data);
      var next := NextOffset(off, data);
      && (n == |data| ==> Emit(off, data, begin) == Piece(off, data, begin))
      && (n < |data| ==> Emit(off, data, begin) == Piece(off, data, begin) + Emit(next, data[n..], false))
  {
    hide Trailer, Physical;
  }

  lemma FragmentsAre(off: nat, data: Bytes, begin: bool)
    requires off <= BLOCK
    ensures var n := FragmentLength(off, data);
      var item := Item(TypeOf(begin, n == |data|), data[..n], None);
      Fragments(off, data, begin) == [item] + if n == |data| then []
          else Fragments(NextOffset(off, data), data[n..], false)
  {
  }

  lemma CutAfter(head: Bytes, more: Bytes, n: nat)
    requires n <= |head + more|
    ensures n <= |head| ==> (head + more)[..n] == head[..n]
    ensures n >= |head| ==> (head + more)[..n] == head + more[..n - |head|]
  {
  }

  /** ... and of a record cut short, some of them. */
  lemma {:induction false} CutItems(off: nat, data: Bytes, begin: bool, n: nat) returns (k: nat)
    requires off <= BLOCK && n < |Emit(off, data, begin)|
    ensures k < |Fragments(off, data, begin)|
    ensures ItemsFrom(off, Emit(off, data, begin)[..n]) == Fragments(off, data, begin)[..k]
    decreases |data|, if FragmentLength(off, data) == 0 then 1 else 0
  {
    hide Emit, Fragments, Piece, ItemsFrom;
    var len := FragmentLength(off, data);
    var head := Piece(off, data, begin);
    EmitIs(off, data, begin);
    FragmentsAre(off, data, begin);
    if n < |head| {
      k := 0;
      if len < |data| {
        CutAfter(head, Emit(NextOffset(off, data), data[len..], false), n);
      }
      CutPiece(off, data, begin, n);
    } else {
      var next := NextOffset(off, data);
      var more := Emit(next, data[len..], false);
      CutAfter(head, more, n);
      PieceItems(off, data, begin, more[..n - |head|]);
      var j := CutItems(next, data[len..], false, n - |head|);
      k := j + 1;
    }
  }

  lemma CutPiece(off: nat, data: Bytes, begin: bool, n: nat)
    requires off <= BLOCK && n < |Piece(off, data, begin)|
    ensures ItemsFrom(off, Piece(off, data, begin)[..n]) == []
  {
    var len := FragmentLength(off, data);
    var t := TypeOf(begin, len == |data|);
    var physical := Physical(t, data[..len]);
    var m := |Trailer(off)|;
    hide Physical;
    CutAfter(Trailer(off), physical, n);
    if n >= m {
      TrailerItems(off, physical[..n - m]);
      BlockCut(t, data[..len], n - m);
      hide BlockItems, Trailer;
    }
  }

  // ---------------------------------------------------------------- reassembly

  lemma NextOfFragment(kind: nat, payload: Bytes, items: seq<Item>, inFragmented: bool, scratch: Bytes)
    requires items != [] && items[0] == Item(kind, payload, None)
    ensures match React(kind, payload, inFragmented, scratch)
      case Return(r, reports) => NextRecord(items, inFragmented, scratch) == Found(Some(r), items[1..], reports)
      case Stop(_) => true
      case Continue(f, s, reports) =>
        reports == [] ==> NextRecord(items, inFragmented, scratch) == NextRecord(items[1..], f, s)
  {
    hide React;
    match React(kind, payload, inFragmented, scratch)
    case Return(_, reports) => assert [] + reports == reports;
    case Stop(_) =>
    case Continue(f, s, reports) =>
      if reports == [] {
        assert [] + reports + NextRecord(items[1..], f, s).reports == NextRecord(items[1..], f, s).reports;
      }
  }

  /** The reader's state after a fragment that is not the last. */
  lemma AfterPiece(off: nat, data: Bytes, begin: bool, scratch: Bytes, items: seq<Item>)
    requires off <= BLOCK && (begin ==> scratch == [])
    requires var n := FragmentLength(off, data);
      items != [] && items[0] == Item(TypeOf(begin, n == |data|), data[..n], None)
    ensures var n := FragmentLength(off, data);
      NextRecord(items, !begin, scratch) ==
      if n == |data| then Found(Some(scratch + data), items[1..], [])
      else NextRecord(items[1..], true, scratch + data[..n])
  {
    var n := FragmentLength(off, data);
    NextOfFragment(TypeOf(begin, n == |data|), data[..n], items, !begin, scratch);
    hide NextRecord;
    assert n == |data| ==> data[..n] == data;
    assert begin ==> scratch + data[..n] == data[..n];
  }

  /** A record's fragments are put together again. */
  lemma {:induction false} WholeRecord(off: nat, data: Bytes, begin: bool, scratch: Bytes, rest: seq<Item>)
    requires off <= BLOCK && (begin ==> scratch == [])
    ensures NextRecord(Fragments(off, data, begin) + rest, !begin, scratch) == Found(Some(scratch + data), rest, [])
    decreases |data|, if FragmentLength(off, data) == 0 then 1 else 0
  {
    hide NextRecord;
    var n := FragmentLength(off, data);
    var items := Fragments(off, data, begin) + rest;
    assert items[0] == Item(TypeOf(begin, n == |data|), data[..n], None);
    AfterPiece(off, data, begin, scratch, items);
    if n == |data| {
      assert items[1..] == rest;
    } else {
      assert items[1..] == Fragments(NextOffset(off, data), data[n..], false) + rest;
      WholeRecord(NextOffset(off, data), data[n..], false, scratch + data[..n], rest);
      assert scratch + data[..n] + data[n..] == scratch + data;
    }
  }

  lemma NoRecord(inFragmented: bool, scratch: Bytes)
    ensures NextRecord([], inFragmented, scratch) == Found(None, [], [])
  {
  }

  /** Some of them make no record, and no corruption. */
  lemma {:induction false} CutRecord(off: nat, data: Bytes, begin: bool, scratch: Bytes, k: nat)
    requires off <= BLOCK && (begin ==> scratch == []) && k < |Fragments(off, data, begin)|
    ensures NextRecord(Fragments(off, data, begin)[..k], !begin, scratch) == Found(None, [], [])
    decreases |data|, if FragmentLength(off, data) == 0 then 1 else 0
  {
    hide NextRecord;
    NoRecord(!begin, scratch);
    if k > 0 {
      var n := FragmentLength(off, data);
      var items := Fragments(off, data, begin)[..k];
      assert items[0] == Item(TypeOf(begin, false), data[..n], None);
      assert items[1..] == Fragments(NextOffset(off, data), data[n..], false)[..k - 1];
      AfterPiece(off, data, begin, scratch, items);
      CutRecord(NextOffset(off, data), data[n..], false, scratch + data[..n], k - 1);
    }
  }

  // ---------------------------------------------------------------- a log cut short

  /** How many of the records lie wholly in the first n bytes. */
  function WholeRecords(off: nat, records: seq<Bytes>, n: nat): (k: nat)
    requires off <= BLOCK
    ensures k <= |records|
    decreases |records|
  {
    if records == [] || n < |Emit(off, records[0], true)| then 0
    else 1 + WholeRecords(EndOffset(off, records[0]), records[1..], n - |Emit(off, records[0], true)|)
  }

  lemma {:induction false} WholeRecordsFit(off: nat, records: seq<Bytes>, n: nat, k: nat)
    requires off <= BLOCK && k <= |records|
    ensures k <= WholeRecords(off, records, n) <==> |LogOf(off, records[..k])| <= n
    decreases |records|
  {
    hide Emit, EndOffset;
    if k > 0 {
      var e := |Emit(off, records[0], true)|;
      assert records[..k][1..] == records[1..][..k - 1];
      assert |LogOf(off, records[..k])| == e + |LogOf(EndOffset(off, records[0]), records[1..][..k - 1])|;
      if e <= n {
        WholeRecordsFit(EndOffset(off, records[0]), records[1..], n - e, k - 1);
      }
    }
  }

  /** Whatever byte the log ends at, reading it returns exactly the records that lie wholly in it,
      and reports no corruption. */
  lemma {:induction false} PrefixIsRecovered(off: nat, records: seq<Bytes>, n: nat)
    requires off <= BLOCK && n <= |LogOf(off, records)|
    ensures Records(ItemsFrom(off, LogOf(off, records)[..n])) == records[..WholeRecords(off, records, n)]
    ensures Reports(ItemsFrom(off, LogOf(off, records)[..n])) == []
    decreases |records|
  {
    hide Emit, EndOffset, NextRecord, Fragments, ItemsFrom;
    if records == [] {
      NothingIsFound(off);
    } else {
      var data := records[0];
      var bytes := Emit(off, data, true);
      var end := EndOffset(off, data);
      var more := LogOf(end, records[1..]);
      assert LogOf(off, records) == bytes + more;
      if n < |bytes| {
        assert (bytes + more)[..n] == bytes[..n];
        var k := CutItems(off, data, true, n);
        CutRecord(off, data, true, [], k);
      } else {
        var m := n - |bytes|;
        assert (bytes + more)[..n] == bytes + more[..m];
        FirstRecord(off, data, more[..m]);
        PrefixIsRecovered(end, records[1..], m);
        OneMoreRecord(ItemsFrom(off, bytes + more[..m]), data, ItemsFrom(end, more[..m]));
        assert records[..1 + WholeRecords(end, records[1..], m)]
               == [data] + records[1..][..WholeRecords(end, records[1..], m)];
      }
    }
  }

  /** Where a log leaves the block offset. */
  function AfterAll(off: nat, records: seq<Bytes>): (r: nat)
    requires off <= BLOCK
    ensures r <= BLOCK
    decreases |records|
  {
    if records == [] then off else AfterAll(EndOffset(off, records[0]), records[1..])
  }

  lemma {:induction false} LogOfMore(off: nat, records: seq<Bytes>, more: seq<Bytes>)
    requires off <= BLOCK
    ensures LogOf(off, records + more) == LogOf(off, records) + LogOf(AfterAll(off, records), more)
    ensures AfterAll(off, records + more) == AfterAll(AfterAll(off, records), more)
    decreases |records|
  {
    hide Emit, EndOffset;
    if records == [] {
      assert records + more == more;
    } else {
      assert (records + more)[1..] == records[1..] + more;
      LogOfMore(EndOffset(off, records[0]), records[1..], more);
    }
  }

  lemma LogOfOne(off: nat, data: Bytes)
    requires off <= BLOCK
    ensures LogOf(off, [data]) == Emit(off, data, true) && AfterAll(off, [data]) == EndOffset(off, data)
  {
    hide Emit, EndOffset;
    assert LogOf(EndOffset(off, data), [data][1..]) == [];
  }

  /** Appending a record to a log. */
  lemma LogOfNext(off: nat, records: seq<Bytes>, data: Bytes)
    requires off <= BLOCK
    ensures LogOf(off, records + [data]) == LogOf(off, records) + Emit(AfterAll(off, records), data, true)
    ensures AfterAll(off, records + [data]) == EndOffset(AfterAll(off, records), data)
  {
    hide Emit, EndOffset, LogOf, AfterAll;
    LogOfMore(off, records, [data]);
    LogOfOne(AfterAll(off, records), data);
  }

  /** A whole record at the front is read, whatever follows. */
  lemma FirstRecord(off: nat, data: Bytes, more: Bytes)
    requires off <= BLOCK
    ensures NextRecord(ItemsFrom(off, Emit(off, data, true) + more), false, []) ==
            Found(Some(data), ItemsFrom(EndOffset(off, data), more), [])
  {
    hide Emit, EndOffset, NextRecord, Fragments, ItemsFrom;
    EmitItems(off, data, true, more);
    WholeRecord(off, data, true, [], ItemsFrom(EndOffset(off, data), more));
    assert [] + data == data;
  }

  lemma NothingIsFound(off: nat)
    requires off <= BLOCK
    ensures Records(ItemsFrom(off, [])) == [] && Reports(ItemsFrom(off, [])) == []
  {
    assert ItemsFrom(0, []) == [];
    assert ItemsFrom(off, []) == [];
  }

  lemma OneMoreRecord(items: seq<Item>, data: Bytes, rest: seq<Item>)
    requires NextRecord(items, false, []) == Found(Some(data), rest, [])
    ensures Records(items) == [data] + Records(rest) && Reports(items) == Reports(rest)
  {
    hide NextRecord;
  }
}
