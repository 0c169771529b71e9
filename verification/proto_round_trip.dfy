/** What the encoder writes, the decoder reads back: numbers, values, fields and whole messages. */
module ProtoRoundTrip {
  import opened Wrappers
  import opened Coding
  import opened Messages
  import opened Bits
  import opened ProtoDecode

  // ---------------------------------------------------------------- integers

  lemma Places()
    ensures Pow2(7) == 0x80 && Pow2(14) == 0x4000 && Pow2(21) == 0x20_0000 && Pow2(28) == 0x1000_0000
  {
    assert Pow2(4) == 0x10 && Pow2(8) == 0x100 && Pow2(12) == 0x1000 && Pow2(16) == 0x1_0000;
    assert Pow2(20) == 0x10_0000 && Pow2(24) == 0x100_0000;
  }

  lemma OrBitsAdds(result: nat, byte: Byte, bitpos: nat, low: nat)
    requires IsPlace(bitpos)
    requires result < Pow2(bitpos) && low == byte % 0x80 && (bitpos == 28 ==> low < 0x10)
    ensures result < TWO_32 && OrBits(result, byte, bitpos) == result + low * Pow2(bitpos)
  {
    hide *;
    LowFits(low, bitpos);
    OrAbove(result, low, bitpos);
    OrBitsIs(result, byte, bitpos);
  }

  lemma LowFits(low: nat, bitpos: nat)
    requires IsPlace(bitpos) && low < 0x80 && (bitpos == 28 ==> low < 0x10)
    ensures Pow2(bitpos) <= TWO_32 && low * Pow2(bitpos) < TWO_32
  {
    hide Pow2;
    Places();
  }

  lemma OrBitsIs(result: nat, byte: Byte, bitpos: nat)
    requires result < TWO_32 && byte % 0x80 * Pow2(bitpos) < TWO_32
    ensures OrBits(result, byte, bitpos) == Or(result, byte % 0x80 * Pow2(bitpos))
  {
    hide Or, Pow2;
    var shifted := byte % 0x80 * Pow2(bitpos);
    assert shifted % TWO_32 == shifted;
  }

  predicate IsPlace(bitpos: nat) {
    bitpos == 7 || bitpos == 14 || bitpos == 21 || bitpos == 28
  }

  lemma {:induction false} Varint32FromReads(v: nat, rest: Bytes, bitpos: nat, result: nat)
    requires IsPlace(bitpos) && result < Pow2(bitpos) && v * Pow2(bitpos) < TWO_32 && result < TWO_32
    ensures Varint32From(Varint(v) + rest, bitpos, result) == Some((result + v * Pow2(bitpos), rest))
    decreases v
  {
    hide Pow2, OrBits;
    Places();
    var s := Varint(v) + rest;
    LastPlace(v, bitpos);
    OrBitsAdds(result, s[0], bitpos, v % 0x80);
    if v < 0x80 {
      assert s[1..] == rest;
    } else {
      assert s[1..] == Varint(v / 0x80) + rest;
      var next := result + v % 0x80 * Pow2(bitpos);
      NextPlace(v, bitpos, result);
      Varint32FromReads(v / 0x80, rest, bitpos + 7, next);
    }
  }

  lemma LastPlace(v: nat, bitpos: nat)
    requires IsPlace(bitpos) && v * Pow2(bitpos) < TWO_32
    ensures bitpos == 28 ==> v < 0x10
  {
    hide Pow2;
    Places();
  }

  lemma NextPlace(v: nat, bitpos: nat, result: nat)
    requires IsPlace(bitpos) && result < Pow2(bitpos) && v * Pow2(bitpos) < TWO_32 && v >= 0x80
    ensures bitpos < 28 && IsPlace(bitpos + 7) && Pow2(bitpos + 7) == 0x80 * Pow2(bitpos)
    ensures result + v % 0x80 * Pow2(bitpos) < Pow2(bitpos + 7) <= TWO_32
    ensures v / 0x80 * Pow2(bitpos + 7) < TWO_32
    ensures result + v % 0x80 * Pow2(bitpos) + v / 0x80 * Pow2(bitpos + 7) == result + v * Pow2(bitpos)
  {
    hide Pow2;
    Places();
    assert v == v % 0x80 + v / 0x80 * 0x80;
  }

  lemma Varint32Reads(v: nat, rest: Bytes)
    requires v < TWO_32
    ensures ReadVarint32(Varint(v) + rest) == Some((v, rest))
  {
    hide Pow2, OrBits, Varint32From;
    var s := Varint(v) + rest;
    if v < 0x80 {
      assert s[1..] == rest;
    } else {
      assert s[1..] == Varint(v / 0x80) + rest;
      Places();
      Varint32FromReads(v / 0x80, rest, 7, v % 0x80);
      assert s[0] - 0x80 == v % 0x80;
    }
  }

  lemma Varint64Reads(v: nat, rest: Bytes)
    requires v < TWO_64
    ensures ReadVarint64(Varint(v) + rest) == Some((v, rest))
  {
    hide VarintAt;
    Varint64RoundTrip(v, rest);
  }

  /** Zigzag codes are 64-bit numbers, and decode to where they came from. */
  lemma ZigZagRoundTrip(n: int)
    requires 0 - TWO_64 / 2 <= n < TWO_64 / 2
    ensures 0 <= ZigZag(n) < TWO_64 && UnZigZag(ZigZag(n)) == n
  {
  }

  lemma UnZigZagRoundTrip(u: nat)
    requires u < TWO_64
    ensures 0 - TWO_64 / 2 <= UnZigZag(u) < TWO_64 / 2 && ZigZag(UnZigZag(u)) == u
  {
  }

  lemma CastIsExact(size: nat, n: int)
    requires SizeOk(size)
    ensures Cast(size, n) == if FitsSigned(size, n) then Some(n) else None
  {
  }

  lemma NumberRoundTrip(size: nat, n: int)
    requires SizeOk(size) && FitsSigned(size, n)
    ensures 0 <= n % TWO_64 < TWO_64 && NumberOf(size, n % TWO_64) == Some(n)
  {
    hide FitsSigned, ToSigned, Cast;
    LowHalf(n);
    if size == 8 {
      SignedBack(8, n);
    } else {
      FitsInFour(size, n);
      SignedBack(4, n);
      CastIsExact(size, n);
    }
  }

  lemma FitsInFour(size: nat, n: int)
    requires SizeOk(size) && size < 8 && FitsSigned(size, n)
    ensures FitsSigned(4, n)
  {
  }

  /** Reducing a number that fits, and taking it as signed again. */
  lemma SignedBack(size: nat, n: int)
    requires SizeOk(size) && FitsSigned(size, n)
    ensures 0 <= n % Span(size) < Span(size) && ToSigned(n % Span(size), size) == n
  {
    if size == 1 {
    } else if size == 2 {
    } else if size == 4 {
    } else {
      assert Span(8) == TWO_64;
    }
  }

  /** Taking 64 bits and then 32 of them. */
  lemma LowHalf(n: int)
    ensures 0 <= n % TWO_64 < TWO_64 && n % TWO_64 % TWO_32 == n % TWO_32
  {
  }

  lemma UnsignedRoundTrip(size: nat, n: int)
    requires SizeOk(size) && FitsUnsigned(size, n)
    ensures n % TWO_64 == n && UnsignedOf(size, n) == Some(n)
  {
  }

  // ---------------------------------------------------------------- lengths and keys

  lemma DelimitedReads(x: Bytes, rest: Bytes)
    requires |x| < TWO_32
    ensures TakeDelimited(Delimited(x) + rest) == Some((x, rest))
  {
    hide ReadVarint32, Varint;
    Varint32Reads(|x|, x + rest);
    assert Delimited(x) + rest == Varint(|x|) + (x + rest);
    assert (x + rest)[..|x|] == x && (x + rest)[|x|..] == rest;
  }

  lemma KeyReads(tag: nat, wireType: nat, rest: Bytes)
    requires 0 < tag < MAX_TAG && wireType < 8
    ensures ReadTag(Key(tag, wireType) + rest) == TagRead(tag, wireType, rest)
  {
    hide ReadVarint32, Varint;
    Varint32Reads(tag * 8 + wireType, rest);
  }

  lemma OctetsRead(x: Bytes, rest: Bytes)
    requires |x| < TWO_32
    ensures ReadVarint32(Delimited(x) + rest) == Some((|x|, x + rest))
    ensures ReadOctets(x + rest, |x|) == Some((Octets(x), rest))
  {
    hide ReadVarint32, Varint;
    Varint32Reads(|x|, x + rest);
    assert Delimited(x) + rest == Varint(|x|) + (x + rest);
    assert (x + rest)[..|x|] == x && (x + rest)[|x|..] == rest;
  }

  // ---------------------------------------------------------------- what comes back

  /** Every string that is sent leaves room for the NUL that the decoder appends. */
  predicate Terminated(t: LType, v: Datum)
    decreases t, 0
  {
    match v
    case Octets(bytes) => t.StringType? ==> |CString(bytes)| < t.size
    case Message(slots) => t.MessageType? ==> StructTerminated(t.desc, slots, 0)
    case _ => true
  }

  predicate AllTerminated(t: LType, items: seq<Datum>)
    decreases t, 1, |items|
  {
    items == [] || (Terminated(t, items[0]) && AllTerminated(t, items[1..]))
  }

  predicate SlotTerminated(f: Field, slot: Slot)
    decreases f
  {
    match slot
    case Always(v) => (f.htype.Singular? && IsZero(f.ltype, v)) || Terminated(f.ltype, v)
    case Maybe(has, v) => has ==> Terminated(f.ltype, v)
    case Items(items) => AllTerminated(f.ltype, items)
    case Member(chosen) => chosen.Some? ==> Terminated(f.ltype, chosen.value)
  }

  predicate StructTerminated(d: Desc, slots: seq<Slot>, i: nat)
    decreases d, |d.fields| - i
  {
    i >= |d.fields| || i >= |slots| || (SlotTerminated(d.fields[i], slots[i]) && StructTerminated(d, slots, i + 1))
  }

  /** The value as the decoder leaves it: absent fields hold defaults, strings end at their NUL. */
  function Restored(t: LType, v: Datum): Datum
    decreases t, 0
  {
    match v
    case Octets(bytes) => if t.StringType? then Octets(CString(bytes)) else v
    case Message(slots) => if t.MessageType? then Message(RestoredStruct(t.desc, slots)) else v
    case _ => v
  }

  function AllRestored(t: LType, items: seq<Datum>): seq<Datum>
    decreases t, 1
  {
    seq(|items|, k requires 0 <= k < |items| => Restored(t, items[k]))
  }

  function RestoredSlot(f: Field, slot: Slot): Slot
    decreases f
  {
    match slot
    case Always(v) => Always(if f.htype.Singular? && IsZero(f.ltype, v) then DefaultValue(f) else Restored(f.ltype, v))
    case Maybe(has, v) => Maybe(has, if has then Restored(f.ltype, v) else DefaultValue(f))
    case Items(items) => Items(AllRestored(f.ltype, items))
    case Member(chosen) => Member(if chosen.Some? then Some(Restored(f.ltype, chosen.value)) else None)
  }

  function RestoredStruct(d: Desc, slots: seq<Slot>): seq<Slot>
    decreases d
  {
    seq(|d.fields|, k requires 0 <= k < |d.fields| =>
        if k < |slots| then RestoredSlot(d.fields[k], slots[k]) else DefaultSlot(d.fields[k]))
  }

  /** Two values that say the same: equal flags, counts and choices, and equal data wherever it is set. */
  predicate Same(t: LType, a: Datum, b: Datum)
    decreases t
  {
    match a
    case Octets(bytes) => b.Octets? && if t.StringType? then CString(bytes) == CString(b.bytes) else bytes == b.bytes
    case Message(slots) => t.MessageType? && b.Message? && SameStruct(t.desc, slots, b.slots)
    case _ => a == b
  }

  predicate SameSlot(f: Field, a: Slot, b: Slot)
    decreases f
  {
    match a
    case Always(v) => b.Always? && Same(f.ltype, v, b.value)
    case Maybe(has, v) => b.Maybe? && b.has == has && (has ==> Same(f.ltype, v, b.value))
    case Items(items) =>
      b.Items? && |items| == |b.items| && forall k :: 0 <= k < |items| ==> Same(f.ltype, items[k], b.items[k])
    case Member(chosen) =>
      b.Member? && b.chosen.Some? == chosen.Some? && (chosen.Some? ==> Same(f.ltype, chosen.value, b.chosen.value))
  }

  predicate SameStruct(d: Desc, a: seq<Slot>, b: seq<Slot>)
    decreases d
  {
    |a| == |b| == |d.fields| && forall i :: 0 <= i < |a| ==> SameSlot(d.fields[i], a[i], b[i])
  }

  lemma {:induction false} CStringTwice(s: Bytes)
    ensures CString(CString(s)) == CString(s)
  {
    if s != [] && s[0] != 0 {
      CStringTwice(s[1..]);
      assert CString(s)[1..] == CString(s[1..]);
    }
  }

  /** Nothing that was set is lost. */
  lemma {:induction false} RestoredSame(t: LType, v: Datum)
    requires TypeOk(t) && HasType(t, v)
    ensures Same(t, v, Restored(t, v))
    decreases t
  {
    match v
    case Octets(bytes) => CStringTwice(bytes);
    case Message(slots) => RestoredStructSame(t.desc, slots);
    case _ =>
  }

  lemma {:induction false} RestoredSlotSame(f: Field, slot: Slot)
    requires FieldOk(f) && SlotHasType(f, slot)
    ensures SameSlot(f, slot, RestoredSlot(f, slot))
    decreases f
  {
    match slot
    case Always(v) =>
      if f.htype.Singular? && IsZero(f.ltype, v) {
        ZeroIsDefault(f, v);
      } else {
        RestoredSame(f.ltype, v);
      }
    case Maybe(has, v) =>
      RestoredSame(f.ltype, v);
    case Items(items) =>
      forall k | 0 <= k < |items| ensures Same(f.ltype, items[k], AllRestored(f.ltype, items)[k]) {
        RestoredSame(f.ltype, items[k]);
      }
    case Member(chosen) =>
      if chosen.Some? {
        RestoredSame(f.ltype, chosen.value);
      }
  }

  lemma {:induction false} RestoredStructSame(d: Desc, slots: seq<Slot>)
    requires DescOk(d) && StructHasType(d, slots)
    ensures SameStruct(d, slots, RestoredStruct(d, slots))
    decreases d
  {
    forall i | 0 <= i < |slots| ensures SameSlot(d.fields[i], slots[i], RestoredStruct(d, slots)[i]) {
      assert FieldOk(d.fields[i]) && SlotHasType(d.fields[i], slots[i]);
      RestoredSlotSame(d.fields[i], slots[i]);
    }
  }

  /** What proto3 leaves out is what the decoder starts from. */
  lemma {:induction false} ZeroIsDefault(f: Field, v: Datum)
    requires FieldOk(f) && f.htype.Singular? && HasType(f.ltype, v) && IsZero(f.ltype, v)
    ensures Same(f.ltype, v, DefaultValue(f))
    decreases f
  {
    if v.Message? {
      var d := f.ltype.desc;
      assert TypeOk(f.ltype) && DescOk(d) && StructHasType(d, v.slots);
      forall i | 0 <= i < |v.slots| ensures SameSlot(d.fields[i], v.slots[i], Defaults(d)[i]) {
        assert FieldOk(d.fields[i]) && SlotHasType(d.fields[i], v.slots[i]) && SlotIsZero(d.fields[i], v.slots[i]);
        if v.slots[i].Always? {
          ZeroIsDefault(d.fields[i], v.slots[i].value);
        }
      }
    }
  }

  // ---------------------------------------------------------------- values come back

  lemma SubOk(t: LType, v: Datum)
    requires TypeOk(t) && t.MessageType? && HasType(t, v)
    ensures DescOk(t.desc) && v.Message? && StructHasType(t.desc, v.slots)
    ensures EncodeValue(t, v) == Delimited(EncodeMessage(t.desc, v.slots))
    ensures Encodable(t, v) == StructEncodable(t.desc, v.slots, 0)
    ensures Terminated(t, v) == StructTerminated(t.desc, v.slots, 0)
    ensures Restored(t, v) == Message(RestoredStruct(t.desc, v.slots))
  {
    hide EncodeFrom, StructEncodable, StructTerminated, StructHasType, DescOk, Delimited, RestoredStruct;
  }

  /** A value and what follows it are read back; only a string without room for its NUL is refused. */
  lemma {:induction false} ValueReads(t: LType, into: Datum, v: Datum, rest: Bytes)
    requires TypeOk(t) && HasType(t, v) && Encodable(t, v) && |EncodeValue(t, v)| < TWO_32
    requires t.MessageType? ==> HasType(t, into) && into == Message(Defaults(t.desc))
    ensures ReadValue(t, into, EncodeValue(t, v) + rest) ==
            if Terminated(t, v) then Some((Restored(t, v), rest)) else None
    decreases t, 1
  {
    if t.MessageType? {
      MessageReads(t, into, v, rest);
    } else if t.Fixed32Type? || t.Fixed64Type? {
      FixedReads(t, into, v, rest);
    } else if v.Octets? {
      OctetsReads(t, into, v, rest);
    } else {
      NumberReads(t, into, v, rest);
    }
  }

  lemma NumberReads(t: LType, into: Datum, v: Datum, rest: Bytes)
    requires TypeOk(t) && HasType(t, v) && Encodable(t, v)
    requires t.BoolType? || t.VarintType? || t.UVarintType? || t.SVarintType?
    ensures ReadValue(t, into, EncodeValue(t, v) + rest) == Some((v, rest))
  {
    hide ReadVarint32, ReadVarint64, NumberOf, UnsignedOf, UnZigZag, ZigZag, Varint;
    match t
    case BoolType =>
      Varint32Reads(if v.on then 1 else 0, rest);
    case VarintType(size) =>
      NumberRoundTrip(size, v.n);
      Varint64Reads(v.n % TWO_64, rest);
    case UVarintType(size) =>
      UnsignedRoundTrip(size, v.n);
      Varint64Reads(v.n % TWO_64, rest);
    case SVarintType(size) =>
      ZigZagRoundTrip(v.n);
      CastIsExact(size, v.n);
      Varint64Reads(ZigZag(v.n), rest);
  }

  lemma FixedReads(t: LType, into: Datum, v: Datum, rest: Bytes)
    requires HasType(t, v) && (t.Fixed32Type? || t.Fixed64Type?)
    ensures ReadValue(t, into, EncodeValue(t, v) + rest) == Some((v, rest)) && Terminated(t, v)
  {
    hide DecodeFixed, Fixed;
    if t.Fixed32Type? {
      Fixed32RoundTrip(v.n);
    } else {
      Fixed64RoundTrip(v.n);
    }
    var bytes := EncodeValue(t, v);
    assert (bytes + rest)[..|bytes|] == bytes && (bytes + rest)[|bytes|..] == rest;
  }

  lemma OctetsReads(t: LType, into: Datum, v: Datum, rest: Bytes)
    requires TypeOk(t) && HasType(t, v) && Encodable(t, v) && v.Octets? && |EncodeValue(t, v)| < TWO_32
    ensures ReadValue(t, into, EncodeValue(t, v) + rest) ==
            if Terminated(t, v) then Some((Restored(t, v), rest)) else None
  {
    var x := if t.StringType? then CString(v.bytes) else v.bytes;
    assert |x| < |Delimited(x)|;
    OctetsRead(x, rest);
    hide ReadVarint32, Delimited, ReadOctets, CString;
    if t.FixedLengthBytesType? && |x| == 0 {
      assert v.bytes == Zeros(0) && x + rest == rest;
    }
  }

  lemma MessageReads(t: LType, into: Datum, v: Datum, rest: Bytes)
    requires TypeOk(t) && t.MessageType? && HasType(t, v) && Encodable(t, v) && |EncodeValue(t, v)| < TWO_32
    requires HasType(t, into) && into == Message(Defaults(t.desc))
    ensures ReadValue(t, into, EncodeValue(t, v) + rest) ==
            if Terminated(t, v) then Some((Restored(t, v), rest)) else None
    decreases t, 0
  {
    hide *;
    SubOk(t, v);
    SubOk(t, into);
    var bytes := EncodeMessage(t.desc, v.slots);
    DelimitedLonger(bytes);
    DelimitedReads(bytes, rest);
    StructReads(t.desc, v.slots);
    MessageIsRead(t, into, Delimited(bytes) + rest, bytes, rest);
  }

  lemma DelimitedLonger(x: Bytes)
    ensures |x| < |Delimited(x)|
  {
  }

  lemma MessageIsRead(t: LType, into: Datum, s: Bytes, sub: Bytes, rest: Bytes)
    requires TypeOk(t) && t.MessageType? && HasType(t, into) && DescOk(t.desc) && into.Message?
             && StructHasType(t.desc, into.slots)
    requires TakeDelimited(s) == Some((sub, rest))
    ensures ReadValue(t, into, s) ==
            var r := ReadMessage(t.desc, into.slots, sub); if r.Some? then Some((Message(r.value), rest)) else None
  {
    hide ReadMessage, TakeDelimited, HasType, TypeOk, DescOk, StructHasType;
  }

  // ---------------------------------------------------------------- fields come back

  /** The structure when the fields before the i-th have been read. */
  function Partial(d: Desc, slots: seq<Slot>, i: nat): seq<Slot>
    requires |slots| == |d.fields|
  {
    seq(|d.fields|, k requires 0 <= k < |d.fields| =>
        if k < i then RestoredSlot(d.fields[k], slots[k]) else DefaultSlot(d.fields[k]))
  }

  lemma {:induction false} RestoredTyped(t: LType, v: Datum)
    requires TypeOk(t) && HasType(t, v)
    ensures HasType(t, Restored(t, v))
    decreases t
  {
    if v.Message? {
      RestoredStructTyped(t.desc, v.slots);
    }
  }

  lemma {:induction false} RestoredSlotTyped(f: Field, slot: Slot)
    requires FieldOk(f) && SlotHasType(f, slot)
    ensures SlotHasType(f, RestoredSlot(f, slot)) && IsChosen(RestoredSlot(f, slot)) == IsChosen(slot)
    decreases f
  {
    DefaultTyped(f);
    match slot
    case Always(v) => RestoredTyped(f.ltype, v);
    case Maybe(_, v) => RestoredTyped(f.ltype, v);
    case Items(items) =>
      forall k | 0 <= k < |items| ensures HasType(f.ltype, AllRestored(f.ltype, items)[k]) {
        RestoredTyped(f.ltype, items[k]);
      }
    case Member(chosen) =>
      if chosen.Some? {
        RestoredTyped(f.ltype, chosen.value);
      }
  }

  lemma {:induction false} RestoredStructTyped(d: Desc, slots: seq<Slot>)
    requires DescOk(d) && StructHasType(d, slots)
    ensures StructHasType(d, RestoredStruct(d, slots))
    decreases d
  {
    PartialTyped(d, slots, |d.fields|);
    assert Partial(d, slots, |d.fields|) == RestoredStruct(d, slots);
  }

  lemma {:induction false} PartialTyped(d: Desc, slots: seq<Slot>, i: nat)
    requires DescOk(d) && StructHasType(d, slots) && i <= |d.fields|
    ensures StructHasType(d, Partial(d, slots, i))
    decreases d, 0
  {
    forall k | 0 <= k < |d.fields|
      ensures SlotHasType(d.fields[k], Partial(d, slots, i)[k])
      ensures IsChosen(Partial(d, slots, i)[k]) ==> IsChosen(slots[k])
    {
      assert FieldOk(d.fields[k]) && SlotHasType(d.fields[k], slots[k]);
      RestoredSlotTyped(d.fields[k], slots[k]);
      DefaultTyped(d.fields[k]);
    }
  }

  lemma ReadIs(d: Desc, dest: seq<Slot>, seen: set<nat>, s: Bytes, i: nat, wireType: nat, x: Bytes)
    requires DescOk(d) && StructHasType(d, dest) && |dest| == |d.fields| && i < |d.fields|
    requires FieldOk(d.fields[i]) && SlotHasType(d.fields[i], dest[i])
    requires ReadTag(s) == TagRead(d.fields[i].tag, wireType, x) && FindField(d, d.fields[i].tag, 0) == Some(i)
    ensures ReadRecords(d, dest, seen, s) ==
            var r := ReadField(d.fields[i], dest[i], wireType, x);
            if r.Some? then ReadRecords(d, Stored(d, dest, i, r.value.0), Marked(d, seen, i), r.value.1) else None
  {
    hide ReadTag, FindField, ReadField, Stored, Marked, SkipField, DescOk, StructHasType, FieldOk, SlotHasType;
  }

  /** A record with a known key goes to its field. */
  lemma RecordReads(d: Desc, dest: seq<Slot>, seen: set<nat>, i: nat, wireType: nat, x: Bytes)
    requires DescOk(d) && StructHasType(d, dest) && i < |d.fields| == |dest| && wireType < 8
    requires FieldOk(d.fields[i]) && SlotHasType(d.fields[i], dest[i])
    ensures ReadRecords(d, dest, seen, Key(d.fields[i].tag, wireType) + x) ==
            var r := ReadField(d.fields[i], dest[i], wireType, x);
            if r.Some? then ReadRecords(d, Stored(d, dest, i, r.value.0), Marked(d, seen, i), r.value.1) else None
  {
    hide *;
    FieldIsOk(d, i);
    KeyReads(d.fields[i].tag, wireType, x);
    FindsFrom(d, i, 0);
    ReadIs(d, dest, seen, Key(d.fields[i].tag, wireType) + x, i, wireType, x);
  }

  lemma WireTypes(t: LType)
    ensures WireType(t) < 8 && (WireType(t) == WT_STRING) == !Packable(t)
  {
  }

  lemma FieldIsRead(f: Field, slot: Slot, wireType: nat, s: Bytes)
    requires FieldOk(f) && SlotHasType(f, slot) && !(f.htype.Repeated? && wireType == WT_STRING && Packable(f.ltype))
    requires f.htype.Repeated? ==> slot.Items? && |slot.items| < f.htype.arraySize
    requires TypeOk(f.ltype) && (f.ltype.MessageType? ==> HasType(f.ltype, Into(f, slot)))
    ensures ReadField(f, slot, wireType, s) ==
            var r := ReadValue(f.ltype, Into(f, slot), s);
            if r.Some? then Some((Filled(f, slot, r.value.0), r.value.1)) else None
  {
    hide ReadValue, Into, Filled, HasType, FieldOk, SlotHasType, TypeOk, Packable;
  }

  lemma RecordIs(f: Field, v: Datum, rest: Bytes)
    ensures Record(f, v) + rest == Key(f.tag, WireType(f.ltype)) + (EncodeValue(f.ltype, v) + rest)
    ensures |EncodeValue(f.ltype, v)| <= |Record(f, v)|
  {
    hide Key, EncodeValue;
  }

  /** One value with its key. */
  lemma {:induction false} ValueRecord(d: Desc, dest: seq<Slot>, seen: set<nat>, i: nat, v: Datum, rest: Bytes)
    requires DescOk(d) && StructHasType(d, dest) && i < |d.fields| == |dest|
    requires FieldOk(d.fields[i]) && SlotHasType(d.fields[i], dest[i]) && TypeOk(d.fields[i].ltype)
    requires var f := d.fields[i];
      && HasType(f.ltype, v) && Encodable(f.ltype, v) && |Record(f, v)| < TWO_32
      && (f.htype.Repeated? ==> !Packable(f.ltype) && dest[i].Items? && |dest[i].items| < f.htype.arraySize)
      && (f.ltype.MessageType? ==> Into(f, dest[i]) == Message(Defaults(f.ltype.desc)))
    ensures var f := d.fields[i];
      && HasType(f.ltype, Restored(f.ltype, v))
      && ReadRecords(d, dest, seen, Record(f, v) + rest) ==
         if Terminated(f.ltype, v)
         then ReadRecords(d, Stored(d, dest, i, Filled(f, dest[i], Restored(f.ltype, v))), Marked(d, seen, i), rest)
         else None
    decreases d, 0, 0
  {
    hide *;
    var f := d.fields[i];
    RecordIs(f, v, rest);
    WireTypes(f.ltype);
    RestoredTyped(f.ltype, v);
    RecordReads(d, dest, seen, i, WireType(f.ltype), EncodeValue(f.ltype, v) + rest);
    FieldIsRead(f, dest[i], WireType(f.ltype), EncodeValue(f.ltype, v) + rest);
    ValueReads(f.ltype, Into(f, dest[i]), v, rest);
  }

  // ---------------------------------------------------------------- arrays come back

  lemma RepeatedSlot(d: Desc, dest: seq<Slot>, i: nat, slot: Slot)
    requires StructHasType(d, dest) && i < |d.fields| == |dest| && d.fields[i].htype.Repeated?
             && SlotHasType(d.fields[i], slot)
    ensures Stored(d, dest, i, slot) == dest[i := slot] && StructHasType(d, dest[i := slot])
  {
    hide SlotHasType;
    assert Stored(d, dest, i, slot) == dest[i := slot];
  }

  lemma NotMarked(d: Desc, seen: set<nat>, i: nat)
    requires i < |d.fields| && !d.fields[i].htype.Required?
    ensures Marked(d, seen, i) == seen
  {
  }

  lemma ItemsTyped(f: Field, done: seq<Datum>, items: seq<Datum>)
    requires f.htype.Repeated? && SlotHasType(f, Items(done)) && SlotHasType(f, Items(items))
    ensures SlotHasType(f, Items(done + items))
    ensures items != [] ==>
      HasType(f.ltype, items[0]) && SlotHasType(f, Items(items[1..])) && SlotHasType(f, Items(done + [items[0]]))
  {
    hide HasType;
  }

  lemma ItemTyped(f: Field, v: Datum)
    requires f.htype.Repeated? && HasType(f.ltype, v)
    ensures SlotHasType(f, Items([v]))
  {
    hide HasType;
  }

  lemma FirstItem(f: Field, done: seq<Datum>, items: seq<Datum>)
    requires items != []
    ensures Records(f, items) == Record(f, items[0]) + Records(f, items[1..])
    ensures Values(f.ltype, items) == EncodeValue(f.ltype, items[0]) + Values(f.ltype, items[1..])
    ensures AllEncodable(f.ltype, items) == (Encodable(f.ltype, items[0]) && AllEncodable(f.ltype, items[1..]))
    ensures AllTerminated(f.ltype, items) == (Terminated(f.ltype, items[0]) && AllTerminated(f.ltype, items[1..]))
    ensures done + AllRestored(f.ltype, items) == done + [Restored(f.ltype, items[0])]
            + AllRestored(f.ltype, items[1..])
  {
    hide Record, EncodeValue, Encodable, Terminated, Restored;
  }

  lemma NoItems(f: Field, done: seq<Datum>)
    ensures Records(f, []) == [] && Values(f.ltype, []) == [] && AllTerminated(f.ltype, [])
    ensures done + AllRestored(f.ltype, []) == done
  {
  }

  lemma Chain(a: Bytes, b: Bytes, c: Bytes)
    ensures a + b + c == a + (b + c) && [] + c == c && c + [] == c
  {
  }

  lemma IntoDefault(f: Field, slot: Slot)
    requires FieldOk(f) && SlotHasType(f, slot) && slot.Items? && f.ltype.MessageType?
    ensures Into(f, slot) == Message(Defaults(f.ltype.desc))
  {
    hide FieldOk, SlotHasType, Defaults;
  }

  lemma FilledItems(f: Field, slot: Slot, v: Datum)
    requires SlotHasType(f, slot) && HasType(f.ltype, v) && slot.Items?
    ensures Filled(f, slot, v) == Items(slot.items + [v])
  {
    hide SlotHasType, HasType;
  }

  lemma {:induction false} RecordsRead(d: Desc, dest: seq<Slot>, seen: set<nat>, i: nat, done: seq<Datum>,
                                       items: seq<Datum>, rest: Bytes)
    requires DescOk(d) && StructHasType(d, dest) && i < |d.fields| == |dest|
    requires var f := d.fields[i];
      && f.htype.Repeated? && !Packable(f.ltype) && dest[i] == Items(done) && SlotHasType(f, Items(done))
          && SlotHasType(f, Items(items))
      && AllEncodable(f.ltype, items) && |Records(f, items)| < TWO_32 && |done| + |items| <= f.htype.arraySize
    ensures ReadRecords(d, dest, seen, Records(d.fields[i], items) + rest) ==
            if AllTerminated(d.fields[i].ltype, items)
            then ReadArray(d, dest, seen, i, Items(done + AllRestored(d.fields[i].ltype, items)), rest)
            else None
    decreases d, 0, 1, |items|
  {
    hide *;
    var f := d.fields[i];
    FieldIsOk(d, i);
    if items == [] {
      NoItems(f, done);
      Chain([], [], rest);
      SameArray(d, dest, seen, i, Items(done), rest);
    } else {
      var v := items[0];
      FirstItem(f, done, items);
      ItemsTyped(f, done, items);
      Chain(Record(f, v), Records(f, items[1..]), rest);
      if f.ltype.MessageType? {
        IntoDefault(f, dest[i]);
      }
      ValueRecord(d, dest, seen, i, v, Records(f, items[1..]) + rest);
      var next := Items(done + [Restored(f.ltype, v)]);
      FilledItems(f, dest[i], Restored(f.ltype, v));
      NotMarked(d, seen, i);
      ItemTyped(f, Restored(f.ltype, v));
      ItemsTyped(f, done, [Restored(f.ltype, v)]);
      RepeatedSlot(d, dest, i, next);
      RecordsRead(d, dest[i := next], seen, i, next.items, items[1..], rest);
      SameArrayAfter(d, dest, seen, i, next, Items(done + AllRestored(f.ltype, items)), rest);
    }
  }

  /** Reading on with a new array in place. */
  function ReadArray(d: Desc, dest: seq<Slot>, seen: set<nat>, i: nat, slot: Slot, rest: Bytes): Option<(seq<Slot>,
                     set<nat>)>
    requires DescOk(d) && i < |dest|
  {
    if StructHasType(d, dest[i := slot]) then ReadRecords(d, dest[i := slot], seen, rest) else None
  }

  lemma SameArray(d: Desc, dest: seq<Slot>, seen: set<nat>, i: nat, slot: Slot, rest: Bytes)
    requires DescOk(d) && StructHasType(d, dest) && i < |dest| && dest[i] == slot
    ensures ReadArray(d, dest, seen, i, slot, rest) == ReadRecords(d, dest, seen, rest)
  {
    hide DescOk, StructHasType, ReadRecords;
    assert dest[i := slot] == dest;
  }

  lemma SameArrayAfter(d: Desc, dest: seq<Slot>, seen: set<nat>, i: nat, next: Slot, slot: Slot, rest: Bytes)
    requires DescOk(d) && i < |dest|
    ensures ReadArray(d, dest[i := next], seen, i, slot, rest) == ReadArray(d, dest, seen, i, slot, rest)
  {
    hide DescOk, StructHasType, ReadRecords;
    assert dest[i := next][i := slot] == dest[i := slot];
  }

  lemma ScalarItem(t: LType, into: Datum, v: Datum, rest: Bytes)
    requires TypeOk(t) && Packable(t) && HasType(t, v) && Encodable(t, v)
    ensures ReadValue(t, into, EncodeValue(t, v) + rest) == Some((v, rest)) && Terminated(t, v) && Restored(t, v) == v
    ensures EncodeValue(t, v) != []
  {
    hide ReadValue, EncodeNumber;
    if t.Fixed32Type? || t.Fixed64Type? {
      FixedReads(t, into, v, rest);
    } else {
      NumberReads(t, into, v, rest);
    }
    ScalarNotEmpty(t, v);
  }

  lemma ScalarNotEmpty(t: LType, v: Datum)
    requires Packable(t) && HasType(t, v)
    ensures EncodeValue(t, v) != []
  {
    hide Varint, Fixed;
  }

  lemma PackedIs(f: Field, done: seq<Datum>, s: Bytes, v: Datum, rest: Bytes)
    requires FieldOk(f) && f.htype.Repeated? && Packable(f.ltype) && SlotHasType(f, Items(done)) && TypeOk(f.ltype)
    requires |done| < f.htype.arraySize && s != [] && ReadValue(f.ltype, f.initial, s) == Some((v, rest))
    requires SlotHasType(f, Items(done + [v]))
    ensures ReadPacked(f, done, s) == ReadPacked(f, done + [v], rest)
  {
    hide FieldOk, SlotHasType, TypeOk, ReadValue, HasType;
  }

  lemma {:induction false} PackedReads(f: Field, done: seq<Datum>, items: seq<Datum>)
    requires FieldOk(f) && f.htype.Repeated? && Packable(f.ltype) && TypeOk(f.ltype)
    requires SlotHasType(f, Items(done)) && SlotHasType(f, Items(items))
    requires AllEncodable(f.ltype, items) && |done| + |items| <= f.htype.arraySize
    ensures ReadPacked(f, done, Values(f.ltype, items)) == Some(done + items)
    ensures AllTerminated(f.ltype, items) && AllRestored(f.ltype, items) == items
    decreases |items|
  {
    hide *;
    if items == [] {
      NoItems(f, done);
      NoItems(f, []);
      NothingPacked(f, done);
      assert done + items == done;
    } else {
      var v := items[0];
      FirstItem(f, done, items);
      FirstItem(f, [], items);
      ItemsTyped(f, done, items);
      ScalarItem(f.ltype, f.initial, v, Values(f.ltype, items[1..]));
      PackedIs(f, done, Values(f.ltype, items), v, Values(f.ltype, items[1..]));
      PackedReads(f, done + [v], items[1..]);
      assert done + [v] + items[1..] == done + items;
      assert [] + [v] + items[1..] == items && [] + AllRestored(f.ltype, items) == AllRestored(f.ltype, items);
    }
  }

  lemma NothingPacked(f: Field, done: seq<Datum>)
    requires FieldOk(f) && f.htype.Repeated? && Packable(f.ltype) && SlotHasType(f, Items(done))
    ensures ReadPacked(f, done, []) == Some(done)
  {
    hide FieldOk, SlotHasType;
  }

  lemma PackedFieldIs(f: Field, done: seq<Datum>, s: Bytes, sub: Bytes, rest: Bytes)
    requires FieldOk(f) && f.htype.Repeated? && Packable(f.ltype) && SlotHasType(f, Items(done))
    requires TakeDelimited(s) == Some((sub, rest))
    ensures ReadField(f, Items(done), WT_STRING, s) ==
            var r := ReadPacked(f, done, sub); if r.Some? then Some((Items(r.value), rest)) else None
  {
    hide FieldOk, SlotHasType, ReadPacked, TakeDelimited, ReadValue;
  }

  /** A packed array. */
  lemma PackedRecord(d: Desc, dest: seq<Slot>, seen: set<nat>, i: nat, items: seq<Datum>, rest: Bytes)
    requires DescOk(d) && StructHasType(d, dest) && i < |d.fields| == |dest|
    requires var f := d.fields[i];
      && f.htype.Repeated? && Packable(f.ltype) && dest[i] == Items([]) && SlotHasType(f, Items([]))
          && SlotHasType(f, Items(items))
      && AllEncodable(f.ltype, items) && |Values(f.ltype, items)| < TWO_32 && |items| <= f.htype.arraySize
    ensures var f := d.fields[i];
      && AllTerminated(f.ltype, items) && AllRestored(f.ltype, items) == items
      && ReadRecords(d, dest, seen, Key(f.tag, WT_STRING) + Delimited(Values(f.ltype, items)) + rest) ==
         ReadArray(d, dest, seen, i, Items(items), rest)
  {
    WireTypeIsSmall();
    hide *;
    var f := d.fields[i];
    var x := Values(f.ltype, items);
    FieldIsOk(d, i);
    Chain(Key(f.tag, WT_STRING), Delimited(x), rest);
    RecordReads(d, dest, seen, i, WT_STRING, Delimited(x) + rest);
    DelimitedReads(x, rest);
    PackedFieldIs(f, [], Delimited(x) + rest, x, rest);
    PackedReads(f, [], items);
    assert [] + items == items;
    RepeatedSlot(d, dest, i, Items(items));
    NotMarked(d, seen, i);
    ArrayRead(d, dest, seen, i, Items(items), rest);
  }

  lemma WireTypeIsSmall()
    ensures WT_STRING < 8
  {
  }

  lemma ArrayRead(d: Desc, dest: seq<Slot>, seen: set<nat>, i: nat, slot: Slot, rest: Bytes)
    requires DescOk(d) && i < |dest| && StructHasType(d, dest[i := slot])
    ensures ReadArray(d, dest, seen, i, slot, rest) == ReadRecords(d, dest[i := slot], seen, rest)
  {
    hide DescOk, StructHasType, ReadRecords;
  }

  // ---------------------------------------------------------------- messages come back

  lemma PartialParts(d: Desc, slots: seq<Slot>, i: nat)
    requires |slots| == |d.fields| && i < |d.fields|
    ensures |Partial(d, slots, i)| == |slots| && Partial(d, slots, i)[i] == DefaultSlot(d.fields[i])
    ensures Partial(d, slots, i + 1) == Partial(d, slots, i)[i := RestoredSlot(d.fields[i], slots[i])]
  {
    hide RestoredSlot, DefaultSlot;
  }

  /** The members of a union that are not chosen are already empty. */
  lemma StoredIsNext(d: Desc, slots: seq<Slot>, i: nat)
    requires DescOk(d) && StructHasType(d, slots) && i < |d.fields| == |slots|
    requires StructHasType(d, Partial(d, slots, i)) && SlotHasType(d.fields[i], RestoredSlot(d.fields[i], slots[i]))
    requires d.fields[i].htype.Oneof? ==> IsChosen(slots[i])
    ensures Stored(d, Partial(d, slots, i), i, RestoredSlot(d.fields[i], slots[i])) == Partial(d, slots, i + 1)
  {
    var dest := Partial(d, slots, i);
    forall k | 0 <= k < |dest| && k != i && SameUnion(d.fields[i], d.fields[k]) ensures dest[k] == Member(None) {
      assert !IsChosen(slots[k]);
      assert SlotHasType(d.fields[k], slots[k]);
    }
  }

  /** How a field goes out: not at all, as one record, or as an array. */
  datatype Form = Absent | Single(v: Datum) | Several(items: seq<Datum>)

  function FormOf(f: Field, slot: Slot): Form {
    match slot
    case Always(v) => if f.htype.Singular? && IsZero(f.ltype, v) then Absent else Single(v)
    case Maybe(has, v) => if has then Single(v) else Absent
    case Items(items) => if items == [] then Absent else Several(items)
    case Member(chosen) => if chosen.Some? then Single(chosen.value) else Absent
  }

  lemma AbsentField(f: Field, slot: Slot)
    requires SlotHasType(f, slot) && FormOf(f, slot).Absent?
    ensures EncodeField(f, slot) == [] && RestoredSlot(f, slot) == DefaultSlot(f) && SlotTerminated(f, slot)
    ensures !f.htype.Required?
  {
    hide DefaultValue, HasType, IsZero;
  }

  lemma SingleField(f: Field, slot: Slot)
    requires FieldOk(f) && SlotHasType(f, slot) && SlotEncodable(f, slot) && FormOf(f, slot).Single?
    requires SlotHasType(f, DefaultSlot(f)) && HasType(f.ltype, Restored(f.ltype, FormOf(f, slot).v))
    ensures var v := FormOf(f, slot).v;
      && EncodeField(f, slot) == Record(f, v) && HasType(f.ltype, v) && Encodable(f.ltype, v)
      && SlotTerminated(f, slot) == Terminated(f.ltype, v)
      && Filled(f, DefaultSlot(f), Restored(f.ltype, v)) == RestoredSlot(f, slot)
    ensures Into(f, DefaultSlot(f)) == DefaultValue(f) && !f.htype.Repeated?
    ensures f.htype.Oneof? ==> IsChosen(slot)
  {
    hide DefaultValue, HasType, IsZero, Record, Encodable, Terminated, Restored, FieldOk;
  }

  lemma SingleTyped(f: Field, slot: Slot)
    requires SlotHasType(f, slot) && FormOf(f, slot).Single?
    ensures HasType(f.ltype, FormOf(f, slot).v)
  {
    hide HasType, IsZero;
  }

  lemma SeveralField(f: Field, slot: Slot)
    requires SlotHasType(f, slot) && SlotEncodable(f, slot) && FormOf(f, slot).Several?
    ensures var items := FormOf(f, slot).items;
      && slot == Items(items) && f.htype.Repeated? && DefaultSlot(f) == Items([]) && SlotHasType(f, Items([]))
      && AllEncodable(f.ltype, items) && |items| <= f.htype.arraySize
      && EncodeField(f, slot) == (if Packable(f.ltype) then Key(f.tag, WT_STRING)
          + Delimited(Values(f.ltype, items)) else Records(f, items))
      && SlotTerminated(f, slot) == AllTerminated(f.ltype, items)
      && RestoredSlot(f, slot) == Items(AllRestored(f.ltype, items))
  {
    hide HasType, Key, Delimited, Values, Records, AllEncodable, AllTerminated, AllRestored, Packable;
  }

  lemma SmallerThan(a: Bytes, x: Bytes)
    ensures |x| <= |a + Delimited(x)|
  {
  }

  /** What one field wrote takes the decoder one field further. */
  lemma {:induction false} FieldReads(d: Desc, slots: seq<Slot>, i: nat, seen: set<nat>, rest: Bytes)
    requires DescOk(d) && StructHasType(d, slots) && i < |d.fields| == |slots|
    requires StructHasType(d, Partial(d, slots, i)) && StructHasType(d, Partial(d, slots, i + 1))
    requires SlotEncodable(d.fields[i], slots[i]) && |EncodeField(d.fields[i], slots[i])| < TWO_32
    ensures ReadRecords(d, Partial(d, slots, i), seen, EncodeField(d.fields[i], slots[i]) + rest) ==
            if SlotTerminated(d.fields[i], slots[i])
            then ReadRecords(d, Partial(d, slots, i + 1), Marked(d, seen, i), rest)
            else None
    decreases d, 0, 2
  {
    hide *;
    var f, slot := d.fields[i], slots[i];
    FieldIsOk(d, i);
    SlotIsTyped(d, slots, i);
    SlotIsTyped(d, Partial(d, slots, i), i);
    PartialParts(d, slots, i);
    match FormOf(f, slot)
    case Absent =>
      AbsentField(f, slot);
      NotMarked(d, seen, i);
      Chain([], [], rest);
      assert Partial(d, slots, i)[i := DefaultSlot(f)] == Partial(d, slots, i);
    case Single(v) =>
      SingleReads(d, slots, i, seen, v, rest);
    case Several(items) =>
      SeveralRead(d, slots, i, seen, items, rest);
  }

  lemma {:induction false} SingleReads(d: Desc, slots: seq<Slot>, i: nat, seen: set<nat>, v: Datum, rest: Bytes)
    requires DescOk(d) && StructHasType(d, slots) && i < |d.fields| == |slots|
    requires StructHasType(d, Partial(d, slots, i)) && StructHasType(d, Partial(d, slots, i + 1))
    requires SlotEncodable(d.fields[i], slots[i]) && |EncodeField(d.fields[i], slots[i])| < TWO_32
    requires FormOf(d.fields[i], slots[i]) == Single(v)
    ensures ReadRecords(d, Partial(d, slots, i), seen, EncodeField(d.fields[i], slots[i]) + rest) ==
            if SlotTerminated(d.fields[i], slots[i])
            then ReadRecords(d, Partial(d, slots, i + 1), Marked(d, seen, i), rest)
            else None
    decreases d, 0, 1
  {
    hide *;
    var f, slot, dest := d.fields[i], slots[i], Partial(d, slots, i);
    FieldIsOk(d, i);
    SlotIsTyped(d, slots, i);
    SlotIsTyped(d, dest, i);
    PartialParts(d, slots, i);
    SingleTyped(f, slot);
    RestoredTyped(f.ltype, v);
    RestoredSlotTyped(f, slot);
    SingleField(f, slot);
    StoredIsNext(d, slots, i);
    if f.ltype.MessageType? {
      DefaultIsMessage(f);
    }
    ValueRecord(d, dest, seen, i, v, rest);
  }

  lemma {:induction false} SeveralRead(d: Desc, slots: seq<Slot>, i: nat, seen: set<nat>, items: seq<Datum>,
                                       rest: Bytes)
    requires DescOk(d) && StructHasType(d, slots) && i < |d.fields| == |slots|
    requires StructHasType(d, Partial(d, slots, i)) && StructHasType(d, Partial(d, slots, i + 1))
    requires SlotEncodable(d.fields[i], slots[i]) && |EncodeField(d.fields[i], slots[i])| < TWO_32
    requires FormOf(d.fields[i], slots[i]) == Several(items)
    ensures ReadRecords(d, Partial(d, slots, i), seen, EncodeField(d.fields[i], slots[i]) + rest) ==
            if SlotTerminated(d.fields[i], slots[i])
            then ReadRecords(d, Partial(d, slots, i + 1), Marked(d, seen, i), rest)
            else None
    decreases d, 0, 1
  {
    hide *;
    var f, slot, dest := d.fields[i], slots[i], Partial(d, slots, i);
    SlotIsTyped(d, slots, i);
    SlotIsTyped(d, dest, i);
    PartialParts(d, slots, i);
    SeveralField(f, slot);
    NotMarked(d, seen, i);
    NoItems(f, AllRestored(f.ltype, items));
    assert [] + AllRestored(f.ltype, items) == AllRestored(f.ltype, items);
    if Packable(f.ltype) {
      SmallerThan(Key(f.tag, WT_STRING), Values(f.ltype, items));
      PackedRecord(d, dest, seen, i, items, rest);
    } else {
      RecordsRead(d, dest, seen, i, [], items, rest);
    }
    ArrayRead(d, dest, seen, i, RestoredSlot(f, slot), rest);
  }

  /** The required fields among those from the i-th on, added to the ones met before. */
  function SeenFrom(d: Desc, seen: set<nat>, i: nat): set<nat>
    requires i <= |d.fields|
    decreases |d.fields| - i
  {
    if i == |d.fields| then seen else SeenFrom(d, Marked(d, seen, i), i + 1)
  }

  lemma FromSplits(d: Desc, slots: seq<Slot>, i: nat, seen: set<nat>)
    requires i < |d.fields| == |slots|
    ensures EncodeFrom(d, slots, i) == EncodeField(d.fields[i], slots[i]) + EncodeFrom(d, slots, i + 1)
    ensures StructEncodable(d, slots, i) == (SlotEncodable(d.fields[i], slots[i]) && StructEncodable(d, slots, i + 1))
    ensures StructTerminated(d, slots, i) == (SlotTerminated(d.fields[i], slots[i])
            && StructTerminated(d, slots, i + 1))
    ensures SeenFrom(d, seen, i) == SeenFrom(d, Marked(d, seen, i), i + 1)
  {
    hide EncodeField, SlotEncodable, SlotTerminated, Marked;
  }

  lemma NothingFrom(d: Desc, slots: seq<Slot>, seen: set<nat>)
    requires DescOk(d) && |slots| == |d.fields| && StructHasType(d, Partial(d, slots, |d.fields|))
    ensures EncodeFrom(d, slots, |d.fields|) == [] && StructTerminated(d, slots, |d.fields|)
    ensures SeenFrom(d, seen, |d.fields|) == seen
    ensures ReadRecords(d, Partial(d, slots, |d.fields|), seen, []) == Some((RestoredStruct(d, slots), seen))
  {
    hide DescOk, StructHasType, RestoredSlot, DefaultSlot;
    assert Partial(d, slots, |d.fields|) == RestoredStruct(d, slots);
    assert ReadTag([]) == EndOfMessage;
  }

  lemma {:induction false} FromReads(d: Desc, slots: seq<Slot>, i: nat, seen: set<nat>)
    requires DescOk(d) && StructHasType(d, slots) && i <= |d.fields| == |slots|
    requires StructHasType(d, Partial(d, slots, i))
    requires StructEncodable(d, slots, i) && |EncodeFrom(d, slots, i)| < TWO_32
    ensures ReadRecords(d, Partial(d, slots, i), seen, EncodeFrom(d, slots, i)) ==
            if StructTerminated(d, slots, i) then Some((RestoredStruct(d, slots), SeenFrom(d, seen, i))) else None
    decreases d, 1, |d.fields| - i
  {
    hide *;
    if i == |d.fields| {
      NothingFrom(d, slots, seen);
    } else {
      PartialTyped(d, slots, i + 1);
      FromSplits(d, slots, i, seen);
      FieldReads(d, slots, i, seen, EncodeFrom(d, slots, i + 1));
      FromReads(d, slots, i + 1, Marked(d, seen, i));
    }
  }

  lemma {:induction false} SeenHas(d: Desc, seen: set<nat>, i: nat)
    requires i <= |d.fields|
    requires forall k :: 0 <= k < RequiredBefore(d, i) && k < MAX_REQUIRED_FIELDS ==> k in seen
    ensures AllRequired(d, SeenFrom(d, seen, i))
    decreases |d.fields| - i
  {
    if i < |d.fields| {
      assert RequiredBefore(d, i + 1) == RequiredBefore(d, i) + if d.fields[i].htype.Required? then 1 else 0;
      SeenHas(d, Marked(d, seen, i), i + 1);
    }
  }

  lemma NoneRequiredBefore(d: Desc)
    ensures RequiredBefore(d, 0) == 0
  {
  }

  lemma PartialStarts(d: Desc, slots: seq<Slot>)
    requires |slots| == |d.fields|
    ensures Partial(d, slots, 0) == Defaults(d) && EncodeMessage(d, slots) == EncodeFrom(d, slots, 0)
  {
    hide DefaultSlot, RestoredSlot, EncodeFrom;
  }

  /** The decoder, starting from the defaults, restores every message that the encoder sends, unless a
      string fills its whole buffer. */
  lemma {:induction false} StructReads(d: Desc, slots: seq<Slot>)
    requires DescOk(d) && StructHasType(d, slots)
    requires StructEncodable(d, slots, 0) && |EncodeMessage(d, slots)| < TWO_32
    requires StructHasType(d, Defaults(d))
    ensures ReadMessage(d, Defaults(d), EncodeMessage(d, slots)) ==
            if StructTerminated(d, slots, 0) then Some(RestoredStruct(d, slots)) else None
    decreases d, 2
  {
    hide *;
    StructLength(d, slots);
    PartialStarts(d, slots);
    FromReads(d, slots, 0, {});
    NoneRequiredBefore(d);
    SeenHas(d, {}, 0);
    ReadMessageIs(d, Defaults(d), EncodeMessage(d, slots));
  }

  /** The round trip: decoding what was encoded succeeds exactly when every string sent is shorter than
      its buffer, and then gives a structure that says the same. */
  lemma RoundTrip(d: Desc, slots: seq<Slot>)
    requires DescOk(d) && StructHasType(d, slots)
    requires StructEncodable(d, slots, 0) && |EncodeMessage(d, slots)| < TWO_32
    ensures var r := DecodeMessage(d, EncodeMessage(d, slots));
      && r.Some? == StructTerminated(d, slots, 0)
      && (r.Some? ==> StructHasType(d, r.value) && SameStruct(d, slots, r.value))
  {
    hide *;
    DefaultsTyped(d);
    StructReads(d, slots);
    DecodeIs(d, EncodeMessage(d, slots));
    RestoredStructSame(d, slots);
    RestoredStructTyped(d, slots);
  }
}
