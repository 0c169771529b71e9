/** When a damaged log is reported as corrupt, and what follows for those who read logs (log_reader.cc,
    db_impl.cc RecoverLogFile, version_set.cc Recover). */
module LogReports {
  import opened Wrappers
  import opened Coding
  import opened Logs
  import opened LogRecovery
  import opened LogDamage

  // ---------------------------------------------------------------- quiet cuts

  /** The bytes of a block from its cut on. */
  function Suffix(file: Bytes, cuts: Cuts, b: nat): Bytes
    requires b in cuts && b * BLOCK + cuts[b] <= BlockEnd(file, b)
  {
    file[b * BLOCK + cuts[b]..BlockEnd(file, b)]
  }

  predicate IsLast(file: Bytes, b: nat) {
    |file| < (b + 1) * BLOCK
  }

  predicate TooLongFor(rest: Bytes) {
    |rest| >= HEADER && HEADER + LengthField(rest) > |rest|
  }

  predicate ZeroRecord(rest: Bytes) {
    |rest| >= HEADER && rest[6] == ZERO && LengthField(rest) == 0
  }

  /** The last block ends before the record that its cut begins: the end of the file. */
  predicate CutsShort(file: Bytes, cuts: Cuts, b: nat)
    requires b in cuts && b * BLOCK + cuts[b] <= BlockEnd(file, b)
  {
    IsLast(file, b) && TooLongFor(Suffix(file, cuts, b))
  }

  /** Nothing is reported at such a cut, if no record is being put together there. */
  predicate Silent(file: Bytes, cuts: Cuts, b: nat)
    requires b in cuts && b * BLOCK + cuts[b] <= BlockEnd(file, b)
  {
    if TooLongFor(Suffix(file, cuts, b)) then IsLast(file, b) else ZeroRecord(Suffix(file, cuts, b))
  }

  predicate CutsLie(file: Bytes, cuts: Cuts) {
    forall b :: b in cuts ==> b * BLOCK + cuts[b] <= BlockEnd(file, b)
  }

  // ---------------------------------------------------------------- quiet records

  /** What is left of a record of which a fragment was lost: every further one must be lost too. */
  predicate QuietlyLost(file: Bytes, cuts: Cuts, b: nat, off: nat, data: Bytes)
    requires off <= BLOCK && CutsLie(file, cuts)
    decreases |data|, if FragmentLength(off, data) == 0 then 1 else 0
  {
    var n := FragmentLength(off, data);
    var c := StartBlock(b, off);
    && !Kept(cuts, c, StartOf(off), HEADER + n)
    && (cuts[c] == StartOf(off) ==> Silent(file, cuts, c))
    && (n == |data| || QuietlyLost(file, cuts, c, NextOffset(off, data), data[n..]))
  }

  /** A record, or what is left of one whose fragments were all kept so far: it is kept, or it is lost
      from its first fragment on, or it runs into the end of the file. */
  predicate Quiet(file: Bytes, cuts: Cuts, b: nat, off: nat, data: Bytes, begin: bool)
    requires off <= BLOCK && CutsLie(file, cuts)
    decreases |data|, if FragmentLength(off, data) == 0 then 1 else 0
  {
    var n := FragmentLength(off, data);
    var c := StartBlock(b, off);
    if Kept(cuts, c, StartOf(off), HEADER + n) then
      n == |data| || Quiet(file, cuts, c, NextOffset(off, data), data[n..], false)
    else
      && (cuts[c] == StartOf(off) ==> Silent(file, cuts, c) && (begin || CutsShort(file, cuts, c)))
      && (n == |data| || QuietlyLost(file, cuts, c, NextOffset(off, data), data[n..]))
  }

  predicate AllQuiet(file: Bytes, cuts: Cuts, b: nat, off: nat, records: seq<Bytes>)
    requires off <= BLOCK && CutsLie(file, cuts)
    decreases |records|
  {
    records == [] ||
    (&& Quiet(file, cuts, b, off, records[0], true)
     && AllQuiet(file, cuts, EndBlock(b, off, records[0]), EndOffset(off, records[0]), records[1..]))
  }

  // ---------------------------------------------------------------- what the reader reports

  /** All reports of a reader that is in the middle of something. */
  function ReportsFrom(items: seq<Item>, inFragmented: bool, scratch: Bytes): seq<nat> {
    var f := NextRecord(items, inFragmented, scratch);
    f.reports + if f.record.None? then [] else Reports(f.rest)
  }

  predicate NoReports(items: seq<Item>, inFragmented: bool, scratch: Bytes) {
    ReportsFrom(items, inFragmented, scratch) == []
  }

  lemma ReportsStart(items: seq<Item>)
    ensures Reports(items) == [] <==> NoReports(items, false, [])
  {
    hide NextRecord;
  }

  lemma SameNext(items: seq<Item>, inFragmented: bool, scratch: Bytes, others: seq<Item>, otherIn: bool, other: Bytes)
    requires NextRecord(items, inFragmented, scratch) == NextRecord(others, otherIn, other)
    ensures NoReports(items, inFragmented, scratch) <==> NoReports(others, otherIn, other)
  {
    hide NextRecord, Reports;
  }

  lemma FoundNext(items: seq<Item>, inFragmented: bool, scratch: Bytes, data: Bytes, rest: seq<Item>)
    requires NextRecord(items, inFragmented, scratch) == Found(Some(data), rest, [])
    ensures NoReports(items, inFragmented, scratch) <==> NoReports(rest, false, [])
  {
    ReportsStart(rest);
    hide NextRecord, Reports;
    assert [] + Reports(rest) == Reports(rest);
  }

  lemma StrayIsReported(items: seq<Item>, kind: nat, payload: Bytes)
    requires (kind == MIDDLE || kind == LAST) && items != [] && items[0] == Item(kind, payload, None)
    ensures !NoReports(items, false, [])
  {
    hide Reports;
    var f := NextRecord(items[1..], false, []);
    assert NextRecord(items, false, []).reports == [] + [|payload|] + f.reports;
  }

  lemma FailureReports(rest: Bytes, last: bool, skip: seq<Item>, inFragmented: bool, scratch: Bytes)
    requires Fails(rest) && (!inFragmented ==> scratch == []) && (last ==> skip == [])
    ensures var items := BlockItems(rest, last) + skip;
      NoReports(items, inFragmented, scratch) <==>
      && (if TooLongFor(rest) then last else ZeroRecord(rest))
      && (!inFragmented || (last && TooLongFor(rest)))
      && NoReports(skip, false, [])
  {
    hide ChecksumFits, Reports;
    NoRecord(inFragmented, scratch);
    NoRecord(false, []);
    var items := BlockItems(rest, last) + skip;
    if TooLongFor(rest) && last {
      assert items == [];
    } else {
      var dropped := if !TooLongFor(rest) && ZeroRecord(rest) then None else Some(|rest|);
      assert BlockItems(rest, last) == [Item(BAD, [], dropped)];
      assert items[0] == Item(BAD, [], dropped) && items[1..] == skip;
      BadReports(items, dropped, skip, inFragmented, scratch);
    }
  }

  lemma BadReports(items: seq<Item>, dropped: Option<nat>, skip: seq<Item>, inFragmented: bool, scratch: Bytes)
    requires items != [] && items[0] == Item(BAD, [], dropped) && items[1..] == skip
    requires !inFragmented ==> scratch == []
    ensures NoReports(items, inFragmented, scratch) <==> dropped.None? && !inFragmented && NoReports(skip, false, [])
  {
    hide Reports;
    var f := NextRecord(skip, false, []);
    var d := Report(dropped);
    var reports := if inFragmented then [|scratch|] else [];
    assert NextRecord(items, inFragmented, scratch) == f.(reports := d + reports + f.reports);
    if dropped.Some? {
      assert (d + reports + f.reports)[0] == dropped.value;
    } else if inFragmented {
      assert (d + reports + f.reports)[0] == |scratch|;
    } else {
      assert d + reports + f.reports == f.reports;
    }
  }

  // ---------------------------------------------------------------- walking along the log

  lemma CutsLieIn(log: Bytes, file: Bytes, cuts: Cuts)
    requires Damage(log, file, cuts)
    ensures CutsLie(file, cuts)
  {
    hide Fails;
  }

  /** A dropped fragment: what the reader finds there, and behind it. */
  lemma DroppedReports(log: Bytes, file: Bytes, cuts: Cuts, b: nat, off: nat, data: Bytes, begin: bool,
                       inFragmented: bool, scratch: Bytes)
    requires Damage(log, file, cuts) && off <= BLOCK && LogAt(log, b, off, Emit(off, data, begin))
    requires var c := StartBlock(b, off);
      c in cuts && cuts[c] <= StartOf(off) && (cuts[c] < StartOf(off) ==> !inFragmented)
    requires !inFragmented ==> scratch == []
    ensures CutsLie(file, cuts)
    ensures b * BLOCK + off <= |file| && StartBlock(b, off) * BLOCK + NextOffset(off, data) <= |file|
    ensures var c := StartBlock(b, off);
      NoReports(Ahead(file, cuts, b, off), inFragmented, scratch) <==>
      && (cuts[c] == StartOf(off) ==> Silent(file, cuts, c) && (!inFragmented || CutsShort(file, cuts, c)))
      && NoReports(Ahead(file, cuts, c, NextOffset(off, data)), false, [])
  {
    CutsLieIn(log, file, cuts);
    PieceFits(log, file, cuts, b, off, data, begin);
    var n := FragmentLength(off, data);
    hide Emit, LogAt, FragmentLength, NoReports;
    AheadOfStart(file, cuts, b, off);
    CutReports(log, file, cuts, StartBlock(b, off), StartOf(off), HEADER + n, inFragmented, scratch);
  }

  lemma CutReports(log: Bytes, file: Bytes, cuts: Cuts, b: nat, off: nat, length: nat, inFragmented: bool,
                   scratch: Bytes)
    requires Damage(log, file, cuts) && CutsLie(file, cuts) && b in cuts && cuts[b] <= off && 0 < length
    requires off + length <= BLOCK && b * BLOCK + off + length <= |file|
    requires !inFragmented ==> scratch == []
    requires cuts[b] < off ==> !inFragmented
    ensures NoReports(Ahead(file, cuts, b, off), inFragmented, scratch) <==>
            && (cuts[b] == off ==> Silent(file, cuts, b) && (!inFragmented || CutsShort(file, cuts, b)))
            && NoReports(Ahead(file, cuts, b, off + length), false, [])
  {
    hide NoReports, Fails;
    if cuts[b] == off {
      var last := IsLast(file, b);
      var rest := Suffix(file, cuts, b);
      var skip := Ahead(file, cuts, b, off + length);
      assert Fails(rest);
      CutItemsAhead(file, b, off);
      assert Ahead(file, cuts, b, off) == BlockItems(rest, last) + skip;
      assert last ==> skip == [];
      hide BlockItems, Ahead;
      FailureReports(rest, last, skip, inFragmented, scratch);
    }
  }

  lemma {:induction false} LostReports(log: Bytes, file: Bytes, cuts: Cuts, b: nat, off: nat, data: Bytes)
    requires Damage(log, file, cuts) && off <= BLOCK && LogAt(log, b, off, Emit(off, data, false))
    requires WholeFragments(b, off, data, cuts) && CutsLie(file, cuts)
    ensures b * BLOCK + off <= |file| && EndBlock(b, off, data) * BLOCK + EndOffset(off, data) <= |file|
    ensures NoReports(Ahead(file, cuts, b, off), false, []) <==>
            && QuietlyLost(file, cuts, b, off, data)
            && NoReports(Ahead(file, cuts, EndBlock(b, off, data), EndOffset(off, data)), false, [])
    decreases |data|, if FragmentLength(off, data) == 0 then 1 else 0
  {
    hide NoReports, Damage, Emit, Ahead, LogAt, CutsShort, Silent;
    var n := FragmentLength(off, data);
    var c, o := StartBlock(b, off), NextOffset(off, data);
    StrayIsSkipped(log, file, cuts, b, off, data);
    if Kept(cuts, c, StartOf(off), HEADER + n) {
      KeptPiece(log, file, cuts, b, off, data, false);
      StrayIsReported(Ahead(file, cuts, b, off), TypeOf(false, n == |data|), data[..n]);
    } else {
      DroppedReports(log, file, cuts, b, off, data, false, false, []);
      if n < |data| {
        EmitAt(log, b, off, data, false);
        LostReports(log, file, cuts, c, o, data[n..]);
      }
    }
  }

  lemma {:induction false} RecordReports(log: Bytes, file: Bytes, cuts: Cuts, b: nat, off: nat, data: Bytes,
                                         begin: bool, scratch: Bytes)
    requires Damage(log, file, cuts) && off <= BLOCK && LogAt(log, b, off, Emit(off, data, begin))
    requires WholeFragments(b, off, data, cuts) && CutsLie(file, cuts) && (begin ==> scratch == [])
    requires Tracking(cuts, b, off, !begin, scratch)
    ensures b * BLOCK + off <= |file| && EndBlock(b, off, data) * BLOCK + EndOffset(off, data) <= |file|
    ensures NoReports(Ahead(file, cuts, b, off), !begin, scratch) <==>
            && Quiet(file, cuts, b, off, data, begin)
            && NoReports(Ahead(file, cuts, EndBlock(b, off, data), EndOffset(off, data)), false, [])
    decreases |data|, if FragmentLength(off, data) == 0 then 1 else 0
  {
    hide NoReports, Damage, Emit, Ahead, LogAt, CutsShort, Silent, NextRecord, QuietlyLost;
    var n := FragmentLength(off, data);
    var c, o := StartBlock(b, off), NextOffset(off, data);
    EmitAt(log, b, off, data, begin);
    if Kept(cuts, c, StartOf(off), HEADER + n) {
      KeptPiece(log, file, cuts, b, off, data, begin);
      AfterPiece(off, data, begin, scratch, Ahead(file, cuts, b, off));
      if n == |data| {
        FoundNext(Ahead(file, cuts, b, off), !begin, scratch, scratch + data, Ahead(file, cuts, c, o));
      } else {
        SameNext(Ahead(file, cuts, b, off), !begin, scratch, Ahead(file, cuts, c, o), true, scratch + data[..n]);
        RecordReports(log, file, cuts, c, o, data[n..], false, scratch + data[..n]);
      }
    } else {
      DroppedReports(log, file, cuts, b, off, data, begin, !begin, scratch);
      if n < |data| {
        LostReports(log, file, cuts, c, o, data[n..]);
      }
    }
  }

  lemma NothingReported(file: Bytes, cuts: Cuts, b: nat, off: nat)
    requires off <= BLOCK && b * BLOCK + off == |file|
    ensures NoReports(Ahead(file, cuts, b, off), false, [])
  {
    assert ItemsFrom(0, []) == [];
    assert ItemsFrom(off, []) == [];
    assert file[b * BLOCK + off..] == [];
  }

  lemma {:induction false} LogReportsFrom(log: Bytes, file: Bytes, cuts: Cuts, b: nat, off: nat, records: seq<Bytes>)
    requires Damage(log, file, cuts) && off <= BLOCK && LogAt(log, b, off, LogOf(off, records))
    requires b * BLOCK + off + |LogOf(off, records)| == |log|
    requires DropsWholeFragments(b, off, records, cuts) && CutsLie(file, cuts)
    ensures b * BLOCK + off <= |file|
    ensures NoReports(Ahead(file, cuts, b, off), false, []) <==> AllQuiet(file, cuts, b, off, records)
    decreases |records|
  {
    SameLength(log, file, cuts);
    hide NoReports, Damage, Emit, Ahead, LogAt, EndBlock, EndOffset, Quiet, WholeFragments;
    if records == [] {
      NothingReported(file, cuts, b, off);
    } else {
      var data := records[0];
      var c, o := EndBlock(b, off, data), EndOffset(off, data);
      LogParts(log, b, off, records);
      EmitEndsAt(b, off, data, true);
      LogReportsFrom(log, file, cuts, c, o, records[1..]);
      RecordReports(log, file, cuts, b, off, data, true, []);
    }
  }

  /** Reading a damaged log reports nothing if and only if every record is kept whole, or lost from its
      first fragment on, at cuts that are silent, or runs into the end of the file. */
  lemma QuietIffNoReports(records: seq<Bytes>, file: Bytes, cuts: Cuts)
    requires Damage(LogOf(0, records), file, cuts) && DropsWholeFragments(0, 0, records, cuts)
    ensures CutsLie(file, cuts)
    ensures Reports(ItemsFrom(0, file)) == [] <==> AllQuiet(file, cuts, 0, 0, records)
  {
    var log := LogOf(0, records);
    CutsLieIn(log, file, cuts);
    assert LogAt(log, 0, 0, log);
    assert file[0..] == file;
    assert Ahead(file, cuts, 0, 0) == ItemsFrom(0, file);
    hide Damage, LogOf, DropsWholeFragments, AllQuiet, Ahead, ItemsFrom, NoReports;
    LogReportsFrom(log, file, cuts, 0, 0, records);
    ReportsStart(ItemsFrom(0, file));
  }

  // ---------------------------------------------------------------- loud cuts, silent cuts

  /** A reader at this place has not come to the k-th block's cut yet. */
  predicate Pending(cuts: Cuts, k: nat, b: nat, off: nat) {
    k in cuts && b * BLOCK + off <= k * BLOCK + cuts[k]
  }

  lemma PendingAtStart(cuts: Cuts, k: nat, b: nat, off: nat)
    requires off <= BLOCK && Pending(cuts, k, b, off) && cuts[k] + HEADER <= BLOCK
    ensures Pending(cuts, k, StartBlock(b, off), StartOf(off))
  {
    if k <= b {
      assert k * BLOCK <= b * BLOCK;
    } else {
      assert k * BLOCK >= (b + 1) * BLOCK;
    }
  }

  /** The cut is where this fragment begins, or behind it. */
  lemma PendingNext(cuts: Cuts, k: nat, c: nat, o: nat, length: nat)
    requires Pending(cuts, k, c, o) && Whole(cuts, c, o, length) && o + length <= BLOCK
    requires cuts[k] + HEADER <= BLOCK
    ensures (k == c && cuts[c] == o) || Pending(cuts, k, c, o + length)
  {
    if k > c {
      assert k * BLOCK >= (c + 1) * BLOCK;
    }
  }

  lemma {:induction false} LoudStaysPending(file: Bytes, cuts: Cuts, k: nat, b: nat, off: nat, data: Bytes,
                                            begin: bool)
    requires off <= BLOCK && CutsLie(file, cuts) && WholeFragments(b, off, data, cuts)
    requires Pending(cuts, k, b, off) && cuts[k] + HEADER <= BLOCK && !Silent(file, cuts, k)
    ensures Quiet(file, cuts, b, off, data, begin) || QuietlyLost(file, cuts, b, off, data) ==>
      Pending(cuts, k, EndBlock(b, off, data), EndOffset(off, data))
    decreases |data|, if FragmentLength(off, data) == 0 then 1 else 0
  {
    hide Silent, CutsShort, CutsLie, Pending;
    var n := FragmentLength(off, data);
    var c, o := StartBlock(b, off), StartOf(off);
    PendingAtStart(cuts, k, b, off);
    PendingNext(cuts, k, c, o, HEADER + n);
    if !(k == c && cuts[c] == o) && n < |data| {
      LoudStaysPending(file, cuts, k, c, NextOffset(off, data), data[n..], false);
    }
  }

  lemma CutsAreInside(log: Bytes, file: Bytes, cuts: Cuts, k: nat)
    requires Damage(log, file, cuts) && k in cuts
    ensures CutsLie(file, cuts) && cuts[k] + HEADER <= BLOCK && k * BLOCK + cuts[k] + HEADER <= |file|
  {
    CutsLieIn(log, file, cuts);
    assert Fails(file[k * BLOCK + cuts[k]..BlockEnd(file, k)]);
  }

  lemma {:induction false} LoudIsNotQuiet(file: Bytes, cuts: Cuts, k: nat, b: nat, off: nat, records: seq<Bytes>)
    requires off <= BLOCK && CutsLie(file, cuts) && DropsWholeFragments(b, off, records, cuts)
    requires b * BLOCK + off + |LogOf(off, records)| == |file|
    requires Pending(cuts, k, b, off) && cuts[k] + HEADER <= BLOCK && k * BLOCK + cuts[k] + HEADER <= |file|
    requires !Silent(file, cuts, k)
    ensures !AllQuiet(file, cuts, b, off, records)
    decreases |records|
  {
    hide Silent, CutsLie, Quiet, WholeFragments, Emit, EndBlock, EndOffset;
    if records != [] && Quiet(file, cuts, b, off, records[0], true) {
      LoudStaysPending(file, cuts, k, b, off, records[0], true);
      EmitEndsAt(b, off, records[0], true);
      LoudIsNotQuiet(file, cuts, k, EndBlock(b, off, records[0]), EndOffset(off, records[0]), records[1..]);
    }
  }

  /** A cut that fails the checksum test, or the length test in a block that is not the last, is
      reported, whatever else is damaged. */
  lemma LoudCutIsReported(records: seq<Bytes>, file: Bytes, cuts: Cuts, k: nat)
    requires Damage(LogOf(0, records), file, cuts) && DropsWholeFragments(0, 0, records, cuts)
    requires k in cuts && CutsLie(file, cuts)
    requires var rest := Suffix(file, cuts, k);
      if TooLongFor(rest) then !IsLast(file, k) else !ZeroRecord(rest)
    ensures Reports(ItemsFrom(0, file)) != []
  {
    QuietIffNoReports(records, file, cuts);
    CutsAreInside(LogOf(0, records), file, cuts, k);
    SameLength(LogOf(0, records), file, cuts);
    assert Pending(cuts, k, 0, 0) && !Silent(file, cuts, k);
    hide Damage, LogOf, DropsWholeFragments, AllQuiet, ItemsFrom, Silent, CutsLie;
    LoudIsNotQuiet(file, cuts, k, 0, 0, records);
  }

  /** Every fragment of the record lies in a dropped suffix. */
  predicate Gone(b: nat, off: nat, data: Bytes, cuts: Cuts)
    requires off <= BLOCK
    decreases |data|, if FragmentLength(off, data) == 0 then 1 else 0
  {
    var n := FragmentLength(off, data);
    && !Kept(cuts, StartBlock(b, off), StartOf(off), HEADER + n)
    && (n == |data| || Gone(StartBlock(b, off), NextOffset(off, data), data[n..], cuts))
  }

  predicate AllOrNothing(b: nat, off: nat, records: seq<Bytes>, cuts: Cuts)
    requires off <= BLOCK
    decreases |records|
  {
    records == [] ||
    (&& (Intact(b, off, records[0], cuts) || Gone(b, off, records[0], cuts))
     && AllOrNothing(EndBlock(b, off, records[0]), EndOffset(off, records[0]), records[1..], cuts))
  }

  ghost predicate AllSilent(file: Bytes, cuts: Cuts)
    requires CutsLie(file, cuts)
  {
    forall b :: b in cuts ==> Silent(file, cuts, b)
  }

  lemma {:induction false} GoneIsQuiet(file: Bytes, cuts: Cuts, b: nat, off: nat, data: Bytes)
    requires off <= BLOCK && CutsLie(file, cuts) && AllSilent(file, cuts) && Gone(b, off, data, cuts)
    ensures QuietlyLost(file, cuts, b, off, data) && Quiet(file, cuts, b, off, data, true)
    decreases |data|, if FragmentLength(off, data) == 0 then 1 else 0
  {
    hide Silent, CutsShort, CutsLie;
    var n := FragmentLength(off, data);
    assert StartBlock(b, off) in cuts;
    if n < |data| {
      GoneIsQuiet(file, cuts, StartBlock(b, off), NextOffset(off, data), data[n..]);
    }
  }

  lemma {:induction false} IntactIsQuiet(file: Bytes, cuts: Cuts, b: nat, off: nat, data: Bytes, begin: bool)
    requires off <= BLOCK && CutsLie(file, cuts) && Intact(b, off, data, cuts)
    ensures Quiet(file, cuts, b, off, data, begin)
    decreases |data|, if FragmentLength(off, data) == 0 then 1 else 0
  {
    hide Silent, CutsShort, CutsLie;
    var n := FragmentLength(off, data);
    if n < |data| {
      IntactIsQuiet(file, cuts, StartBlock(b, off), NextOffset(off, data), data[n..], false);
    }
  }

  lemma {:induction false} AllOrNothingIsQuiet(file: Bytes, cuts: Cuts, b: nat, off: nat, records: seq<Bytes>)
    requires off <= BLOCK && CutsLie(file, cuts) && AllSilent(file, cuts) && AllOrNothing(b, off, records, cuts)
    ensures AllQuiet(file, cuts, b, off, records)
    decreases |records|
  {
    hide Silent, CutsLie, Quiet, Gone, Intact, EndBlock, EndOffset;
    if records != [] {
      if Intact(b, off, records[0], cuts) {
        IntactIsQuiet(file, cuts, b, off, records[0], true);
      } else {
        GoneIsQuiet(file, cuts, b, off, records[0]);
      }
      AllOrNothingIsQuiet(file, cuts, EndBlock(b, off, records[0]), EndOffset(off, records[0]), records[1..]);
    }
  }

  /** Nothing is reported where every cut begins a zero record, or a record too long for a last block, and
      every record is lost as a whole or not at all. */
  lemma SilentCutsAreNotReported(records: seq<Bytes>, file: Bytes, cuts: Cuts)
    requires Damage(LogOf(0, records), file, cuts) && DropsWholeFragments(0, 0, records, cuts)
    requires CutsLie(file, cuts) && AllSilent(file, cuts) && AllOrNothing(0, 0, records, cuts)
    ensures Reports(ItemsFrom(0, file)) == []
  {
    hide Damage, LogOf, DropsWholeFragments, AllQuiet, ItemsFrom, AllSilent, CutsLie, AllOrNothing;
    QuietIffNoReports(records, file, cuts);
    AllOrNothingIsQuiet(file, cuts, 0, 0, records);
  }
}
