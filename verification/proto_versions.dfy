/** A message read by a program that knows only some of its fields (nanopb/pb_encode.c, nanopb/pb_decode.c). */
module ProtoVersions {
  import opened Wrappers
  import opened Coding
  import opened Messages
  import opened ProtoDecode
  import opened ProtoRoundTrip
  import Streams = ProtoStreams

  // ---------------------------------------------------------------- unknown fields are skipped

  lemma {:induction false} VarintSkipped(v: nat, rest: Bytes)
    ensures SkipVarint(Varint(v) + rest) == Some(rest)
    decreases v
  {
    var s := Varint(v) + rest;
    if v < 0x80 {
      assert s[1..] == rest;
    } else {
      assert s[1..] == Varint(v / 0x80) + rest;
      VarintSkipped(v / 0x80, rest);
    }
  }

  lemma TakenAll(x: Bytes, rest: Bytes)
    ensures Rest(Take(x + rest, |x|)) == Some(rest)
  {
    assert (x + rest)[|x|..] == rest;
  }

  lemma DelimitedSkipped(x: Bytes, rest: Bytes)
    requires |x| < TWO_32
    ensures SkipField(WT_STRING, Delimited(x) + rest) == Some(rest)
  {
    hide TakeDelimited, Delimited;
    DelimitedReads(x, rest);
  }

  /** The wire type tells how far a value goes. */
  lemma ValueSkipped(t: LType, v: Datum, rest: Bytes)
    requires HasType(t, v) && |EncodeValue(t, v)| < TWO_32
    ensures SkipField(WireType(t), EncodeValue(t, v) + rest) == Some(rest)
  {
    hide HasType, TakeDelimited, SkipVarint, Varint, Fixed, EncodeFrom, ZigZag, CString;
    match v
    case Flag(on) =>
      TypedFlag(t, v);
      VarintSkipped(if on then 1 else 0, rest);
    case Number(n) =>
      TypedNumber(t, v);
      if t.Fixed32Type? || t.Fixed64Type? {
        TakenAll(EncodeValue(t, v), rest);
      } else {
        VarintSkipped(if t.SVarintType? then ZigZag(n) else n % TWO_64, rest);
      }
    case Octets(bytes) =>
      TypedOctets(t, v);
      var x := if t.StringType? then CString(bytes) else bytes;
      DelimitedLonger(x);
      DelimitedSkipped(x, rest);
    case Message(slots) =>
      TypedMessage(t, v);
      DelimitedLonger(EncodeFrom(t.desc, slots, 0));
      DelimitedSkipped(EncodeFrom(t.desc, slots, 0), rest);
  }

  lemma TypedFlag(t: LType, v: Datum)
    requires HasType(t, v) && v.Flag?
    ensures t.BoolType?
  {
  }

  lemma TypedNumber(t: LType, v: Datum)
    requires HasType(t, v) && v.Number?
    ensures t.VarintType? || t.UVarintType? || t.SVarintType? || t.Fixed32Type? || t.Fixed64Type?
  {
  }

  lemma TypedOctets(t: LType, v: Datum)
    requires HasType(t, v) && v.Octets?
    ensures t.BytesType? || t.StringType? || t.FixedLengthBytesType?
  {
  }

  lemma TypedMessage(t: LType, v: Datum)
    requires HasType(t, v) && v.Message?
    ensures t.MessageType?
  {
  }

  predicate Unknown(d: Desc, tag: nat) {
    forall i :: 0 <= i < |d.fields| ==> d.fields[i].tag != tag
  }

  lemma KeySkipped(d: Desc, dest: seq<Slot>, seen: set<nat>, tag: nat, wireType: nat, x: Bytes, rest: Bytes)
    requires DescOk(d) && StructHasType(d, dest) && Unknown(d, tag) && 0 < tag < MAX_TAG && wireType < 8
    requires SkipField(wireType, x) == Some(rest)
    ensures ReadRecords(d, dest, seen, Key(tag, wireType) + x) == ReadRecords(d, dest, seen, rest)
  {
    hide ReadRecords, SkipField, DescOk, StructHasType, Key;
    KeyReads(tag, wireType, x);
    Streams.NotFound(d, tag);
    Streams.RecordsAre(d, dest, seen, Key(tag, wireType) + x);
  }

  lemma RecordSkipped(d: Desc, dest: seq<Slot>, seen: set<nat>, f: Field, v: Datum, rest: Bytes)
    requires DescOk(d) && StructHasType(d, dest) && Unknown(d, f.tag) && 0 < f.tag < MAX_TAG
    requires HasType(f.ltype, v) && |Record(f, v)| < TWO_32
    ensures ReadRecords(d, dest, seen, Record(f, v) + rest) == ReadRecords(d, dest, seen, rest)
  {
    hide *;
    RecordIs(f, v, rest);
    WireTypes(f.ltype);
    ValueSkipped(f.ltype, v, rest);
    KeySkipped(d, dest, seen, f.tag, WireType(f.ltype), EncodeValue(f.ltype, v) + rest, rest);
  }

  lemma {:induction false} RecordsSkipped(d: Desc, dest: seq<Slot>, seen: set<nat>, f: Field, items: seq<Datum>,
                                          rest: Bytes)
    requires DescOk(d) && StructHasType(d, dest) && Unknown(d, f.tag) && 0 < f.tag < MAX_TAG
    requires forall i :: 0 <= i < |items| ==> HasType(f.ltype, items[i])
    requires |Records(f, items)| < TWO_32
    ensures ReadRecords(d, dest, seen, Records(f, items) + rest) == ReadRecords(d, dest, seen, rest)
    decreases |items|
  {
    hide *;
    if items == [] {
      NoItems(f, []);
      Chain([], [], rest);
    } else {
      FirstItem(f, [], items);
      Chain(Record(f, items[0]), Records(f, items[1..]), rest);
      RecordSkipped(d, dest, seen, f, items[0], Records(f, items[1..]) + rest);
      RecordsSkipped(d, dest, seen, f, items[1..], rest);
    }
  }

  /** What is written for a field that the reader does not know, it passes over. */
  lemma FieldSkipped(d: Desc, dest: seq<Slot>, seen: set<nat>, f: Field, slot: Slot, rest: Bytes)
    requires DescOk(d) && StructHasType(d, dest) && Unknown(d, f.tag)
    requires FieldOk(f) && 0 < f.tag < MAX_TAG && SlotHasType(f, slot) && SlotEncodable(f, slot)
    requires |EncodeField(f, slot)| < TWO_32
    ensures ReadRecords(d, dest, seen, EncodeField(f, slot) + rest) == ReadRecords(d, dest, seen, rest)
  {
    hide *;
    match FormOf(f, slot)
    case Absent =>
      AbsentField(f, slot);
      Chain([], [], rest);
    case Single(v) =>
      SingleRecord(f, slot, v);
      RecordSkipped(d, dest, seen, f, v, rest);
    case Several(items) =>
      SeveralField(f, slot);
      ItemsHaveType(f, items);
      if Packable(f.ltype) {
        var x := Values(f.ltype, items);
        WireTypeIsSmall();
        SmallerThan(Key(f.tag, WT_STRING), x);
        Chain(Key(f.tag, WT_STRING), Delimited(x), rest);
        DelimitedSkipped(x, rest);
        KeySkipped(d, dest, seen, f.tag, WT_STRING, Delimited(x) + rest, rest);
      } else {
        RecordsSkipped(d, dest, seen, f, items, rest);
      }
  }

  lemma SingleRecord(f: Field, slot: Slot, v: Datum)
    requires SlotHasType(f, slot) && FormOf(f, slot) == Single(v)
    ensures EncodeField(f, slot) == Record(f, v) && HasType(f.ltype, v)
  {
    hide HasType, IsZero, Record;
  }

  lemma ItemsHaveType(f: Field, items: seq<Datum>)
    requires SlotHasType(f, Items(items))
    ensures forall i :: 0 <= i < |items| ==> HasType(f.ltype, items[i])
  {
    hide HasType;
  }

  // ---------------------------------------------------------------- an older reader

  /** The reader's fields, from the j-th on, are among the writer's from the i-th on, in the same order, and
      hold the same; the reader knows none of the others. */
  predicate Older(d: Desc, mine: seq<Slot>, w: Desc, slots: seq<Slot>, j: nat, i: nat)
    requires |mine| == |d.fields| && |slots| == |w.fields| && j <= |mine| && i <= |slots|
    decreases |slots| - i
  {
    if i == |slots| then j == |mine|
    else if j < |mine| && d.fields[j] == w.fields[i] then
      mine[j] == slots[i] && Older(d, mine, w, slots, j + 1, i + 1)
    else Unknown(d, w.fields[i].tag) && Older(d, mine, w, slots, j, i + 1)
  }

  lemma OlderNext(d: Desc, mine: seq<Slot>, w: Desc, slots: seq<Slot>, j: nat, i: nat)
    requires |mine| == |d.fields| && |slots| == |w.fields| && j <= |mine| && i <= |slots|
    requires Older(d, mine, w, slots, j, i)
    ensures i == |slots| ==> j == |mine|
    ensures i < |slots| && j < |mine| && d.fields[j] == w.fields[i] ==>
              mine[j] == slots[i] && Older(d, mine, w, slots, j + 1, i + 1)
    ensures i < |slots| && !(j < |mine| && d.fields[j] == w.fields[i]) ==>
              Unknown(d, w.fields[i].tag) && Older(d, mine, w, slots, j, i + 1)
  {
    hide Unknown;
  }

  lemma {:induction false} OlderReads(d: Desc, mine: seq<Slot>, w: Desc, slots: seq<Slot>, j: nat, i: nat,
                                      seen: set<nat>)
    requires DescOk(d) && StructHasType(d, mine) && j <= |d.fields| == |mine|
    requires DescOk(w) && StructHasType(w, slots) && i <= |w.fields| == |slots|
    requires Older(d, mine, w, slots, j, i) && StructHasType(d, Partial(d, mine, j))
    requires StructEncodable(w, slots, i) && |EncodeFrom(w, slots, i)| < TWO_32
    ensures ReadRecords(d, Partial(d, mine, j), seen, EncodeFrom(w, slots, i)) ==
            if StructTerminated(d, mine, j) then Some((RestoredStruct(d, mine), SeenFrom(d, seen, j))) else None
    decreases |w.fields| - i
  {
    hide *;
    OlderNext(d, mine, w, slots, j, i);
    if i == |w.fields| {
      NothingFrom(d, mine, seen);
      NothingWritten(w, slots);
    } else {
      var f, slot, rest := w.fields[i], slots[i], EncodeFrom(w, slots, i + 1);
      FromSplits(w, slots, i, {});
      if j < |mine| && d.fields[j] == f {
        PartialTyped(d, mine, j + 1);
        SameField(d, mine, j, seen);
        FieldReads(d, mine, j, seen, rest);
        OlderReads(d, mine, w, slots, j + 1, i + 1, Marked(d, seen, j));
      } else {
        FieldIsOk(w, i);
        SlotIsTyped(w, slots, i);
        FieldSkipped(d, Partial(d, mine, j), seen, f, slot, rest);
        OlderReads(d, mine, w, slots, j, i + 1, seen);
      }
    }
  }

  lemma NothingWritten(w: Desc, slots: seq<Slot>)
    requires |slots| == |w.fields|
    ensures EncodeFrom(w, slots, |w.fields|) == []
  {
  }

  lemma SameField(d: Desc, mine: seq<Slot>, j: nat, seen: set<nat>)
    requires j < |d.fields| == |mine|
    ensures StructTerminated(d, mine, j) == (SlotTerminated(d.fields[j], mine[j]) && StructTerminated(d, mine, j + 1))
    ensures SeenFrom(d, seen, j) == SeenFrom(d, Marked(d, seen, j), j + 1)
  {
    hide SlotTerminated, Marked;
  }

  /** A reader that knows only some of the writer's fields reads those as the writer sent them, and passes
      over the rest; it refuses the message exactly when one of its own strings fills its buffer. */
  lemma OlderReaderReads(d: Desc, mine: seq<Slot>, w: Desc, slots: seq<Slot>)
    requires DescOk(d) && StructHasType(d, mine) && |mine| == |d.fields|
    requires DescOk(w) && StructHasType(w, slots) && |slots| == |w.fields|
    requires Older(d, mine, w, slots, 0, 0)
    requires StructEncodable(w, slots, 0) && |EncodeMessage(w, slots)| < TWO_32
    ensures var r := DecodeMessage(d, EncodeMessage(w, slots));
      && r.Some? == StructTerminated(d, mine, 0)
      && (r.Some? ==> StructHasType(d, r.value) && SameStruct(d, mine, r.value))
  {
    hide *;
    DefaultsTyped(d);
    PartialStarts(d, mine);
    PartialStarts(w, slots);
    OlderReads(d, mine, w, slots, 0, 0, {});
    NoneRequiredBefore(d);
    SeenHas(d, {}, 0);
    ReadMessageIs(d, Defaults(d), EncodeMessage(w, slots));
    DecodeIs(d, EncodeMessage(w, slots));
    RestoredStructSame(d, mine);
    RestoredStructTyped(d, mine);
  }

  // ---------------------------------------------------------------- a field that was widened

  /** A field of more bytes reads the number that a field of fewer was written with, signed or not. */
  lemma WiderFieldReads(t: LType, wider: LType, into: Datum, n: int, rest: Bytes)
    requires TypeOk(t) && TypeOk(wider) && HasType(t, Number(n))
    requires (t.VarintType? && wider.VarintType?) || (t.UVarintType? && wider.UVarintType?)
             || (t.SVarintType? && wider.SVarintType?)
    requires t.size <= wider.size
    ensures ReadValue(wider, into, EncodeValue(t, Number(n)) + rest) == Some((Number(n), rest))
  {
    Widens(t, wider, n);
    hide HasType, FitsSigned, FitsUnsigned, ReadValue, EncodeNumber;
    NumberReads(wider, into, Number(n), rest);
    SameNumber(t, wider, n);
  }

  lemma Widens(t: LType, wider: LType, n: int)
    requires TypeOk(t) && TypeOk(wider) && HasType(t, Number(n))
    requires (t.VarintType? && wider.VarintType?) || (t.UVarintType? && wider.UVarintType?)
             || (t.SVarintType? && wider.SVarintType?)
    requires t.size <= wider.size
    ensures HasType(wider, Number(n)) && Encodable(wider, Number(n))
  {
  }

  lemma SameNumber(t: LType, wider: LType, n: int)
    requires (t.VarintType? && wider.VarintType?) || (t.UVarintType? && wider.UVarintType?)
             || (t.SVarintType? && wider.SVarintType?)
    ensures EncodeValue(t, Number(n)) == EncodeValue(wider, Number(n))
  {
    hide Varint, ZigZag;
  }

  // ---------------------------------------------------------------- what is not set

  /** No field is always sent: none is required, and of those without a has_ flag none is a fixed-length byte
      string, nor a message with a field that is always sent. */
  predicate NothingAlwaysSent(d: Desc)
    decreases d
  {
    forall i :: 0 <= i < |d.fields| ==> !AlwaysSent(d.fields[i])
  }

  predicate AlwaysSent(f: Field)
    decreases f
  {
    || f.htype.Required?
    || (f.htype.Singular? && f.ltype.MessageType? && !NothingAlwaysSent(f.ltype.desc))
    || (f.htype.Singular? && f.ltype.FixedLengthBytesType? && f.ltype.size > 0)
  }

  /** A message as it is by default takes no bytes, unless it has a field that is always sent. */
  lemma {:induction false} DefaultsTakeNoBytes(d: Desc)
    requires DescOk(d)
    ensures EncodeMessage(d, Defaults(d)) == [] <==> NothingAlwaysSent(d)
    ensures NothingAlwaysSent(d) <==> forall i :: 0 <= i < |d.fields| ==> SlotIsZero(d.fields[i], Defaults(d)[i])
    decreases d
  {
    var slots := Defaults(d);
    forall i | 0 <= i < |d.fields|
      ensures SlotIsZero(d.fields[i], slots[i]) <==> !AlwaysSent(d.fields[i])
      ensures EncodeField(d.fields[i], slots[i]) == [] <==> !AlwaysSent(d.fields[i])
    {
      FieldIsOk(d, i);
      DefaultIsZero(d.fields[i]);
    }
    hide EncodeField, SlotIsZero, DefaultSlot, AlwaysSent;
    NothingFollows(d, slots, 0);
  }

  lemma {:induction false} DefaultIsZero(f: Field)
    requires FieldOk(f)
    ensures SlotIsZero(f, DefaultSlot(f)) <==> !AlwaysSent(f)
    ensures EncodeField(f, DefaultSlot(f)) == [] <==> !AlwaysSent(f)
    decreases f
  {
    if f.ltype.MessageType? {
      DefaultsTakeNoBytes(f.ltype.desc);
      SentIfNotZero(f, DefaultValue(f));
      DefaultMessage(f);
    } else {
      SentIfNotZero(f, f.initial);
      assert f.htype.Singular? ==> f.initial == ZeroOf(f.ltype);
    }
  }

  lemma DefaultMessage(f: Field)
    requires f.ltype.MessageType?
    ensures var slots := Defaults(f.ltype.desc);
      DefaultValue(f) == Message(slots)
      && (IsZero(f.ltype, Message(slots)) <==>
          forall i :: 0 <= i < |f.ltype.desc.fields| ==> SlotIsZero(f.ltype.desc.fields[i], slots[i]))
  {
    hide SlotIsZero, DefaultSlot;
  }

  lemma SentIfNotZero(f: Field, v: Datum)
    ensures Record(f, v) != []
  {
    hide Varint, EncodeValue;
  }

  lemma {:induction false} NothingFollows(d: Desc, slots: seq<Slot>, i: nat)
    requires |slots| == |d.fields|
    ensures EncodeFrom(d, slots, i) == [] <==>
            forall k :: i <= k < |d.fields| ==> EncodeField(d.fields[k], slots[k]) == []
    decreases |d.fields| - i
  {
    hide EncodeField;
    if i < |d.fields| {
      NothingFollows(d, slots, i + 1);
    }
  }
}
