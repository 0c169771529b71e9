/** What the decoder refuses: numbers too large for their field, and messages with a record that cannot
    be read (nanopb/pb_decode.c). */
module ProtoRefusals {
  import opened Wrappers
  import opened Coding
  import opened Bits
  import opened Messages
  import opened ProtoDecode
  import opened ProtoRoundTrip
  import Streams = ProtoStreams

  // ---------------------------------------------------------------- numbers

  /** An unsigned number is taken as it is, or refused when its field has no room for it. */
  lemma UnsignedIsExact(size: nat, u: nat)
    requires SizeOk(size)
    ensures UnsignedOf(size, u) == if u < Span(size) then Some(u) else None
  {
  }

  /** A signed field takes the one number it can hold that has the same low bits: 64 of them for a field of
      eight bytes, 32 for a smaller one, where a negative number may so be sent in 32 bits or in 64. */
  lemma SignedIsExact(size: nat, u: nat, n: int)
    requires SizeOk(size) && u < TWO_64
    ensures NumberOf(size, u) == Some(n) <==>
            FitsSigned(size, n) && (u - n) % (if size == 8 then TWO_64 else TWO_32) == 0
  {
    if size == 8 {
      SignedOf(8, u, n);
    } else {
      hide ToSigned, FitsSigned, Cast;
      var low := u % TWO_32;
      var signed := ToSigned(low, 4);
      CastIsExact(size, signed);
      SignedOf(4, low, n);
      SameLow(u, n);
      SignedOf(4, low, signed);
      if FitsSigned(size, n) {
        FitsInFour(size, n);
      }
    }
  }

  /** The signed number a bit pattern stands for is the one that fits and agrees with it. */
  lemma SignedOf(size: nat, u: nat, n: int)
    requires (size == 4 || size == 8) && u < Span(size)
    ensures ToSigned(u, size) == n <==> FitsSigned(size, n) && (u - n) % Span(size) == 0
  {
    if size == 4 {
      assert Span(4) == TWO_32;
      if FitsSigned(4, n) {
        Agree32(u, n);
      }
    } else {
      assert Span(8) == TWO_64;
      if FitsSigned(8, n) {
        Agree64(u, n);
      }
    }
  }

  lemma Agree32(u: nat, n: int)
    requires u < TWO_32 && 0 - TWO_32 / 2 <= n < TWO_32 / 2
    ensures (u - n) % TWO_32 == 0 <==> u - n == 0 || u - n == TWO_32
  {
  }

  lemma Agree64(u: nat, n: int)
    requires u < TWO_64 && 0 - TWO_64 / 2 <= n < TWO_64 / 2
    ensures (u - n) % TWO_64 == 0 <==> u - n == 0 || u - n == TWO_64
  {
  }

  lemma SameLow(u: nat, n: int)
    ensures (u % TWO_32 - n) % TWO_32 == (u - n) % TWO_32
  {
  }

  lemma NegativeEitherWay(size: nat, n: int)
    requires SizeOk(size) && size <= 4 && 0 - TWO_32 / 2 <= n < 0
    ensures NumberOf(size, n + TWO_32) == NumberOf(size, n + TWO_64) == if FitsSigned(size, n) then Some(n) else None
  {
    CastIsExact(size, n);
    hide Cast, FitsSigned;
    NegativeLow(n);
    assert Span(4) == TWO_32;
  }

  lemma NegativeLow(n: int)
    requires 0 - TWO_32 / 2 <= n < 0
    ensures (n + TWO_32) % TWO_32 == n + TWO_32 && (n + TWO_64) % TWO_32 == n + TWO_32
  {
  }

  /** A zigzag field takes the number whose code it reads, if it fits. */
  lemma ZigZagIsExact(size: nat, u: nat, n: int)
    requires SizeOk(size) && u < TWO_64
    ensures Cast(size, UnZigZag(u)) == Some(n) <==> FitsSigned(size, n) && u == if n >= 0 then 2 * n else -2 * n - 1
  {
    CastIsExact(size, UnZigZag(u));
  }

  /** Which numbers a field has no room for. */
  predicate TooLarge(t: LType, u: nat) {
    match t
    case VarintType(size) =>
      SizeOk(size) && size < 4 && Span(size) / 2 <= u % TWO_32 < TWO_32 - Span(size) / 2
    case UVarintType(size) => SizeOk(size) && u >= Span(size)
    case SVarintType(size) => SizeOk(size) && u >= Span(size)
    case _ => false
  }

  lemma NumberIsRefused(t: LType, u: nat)
    requires TypeOk(t) && u < TWO_64
    ensures t.VarintType? ==> (NumberOf(t.size, u).None? <==> TooLarge(t, u))
    ensures t.UVarintType? ==> (UnsignedOf(t.size, u).None? <==> TooLarge(t, u))
    ensures t.SVarintType? ==> (Cast(t.size, UnZigZag(u)).None? <==> TooLarge(t, u))
  {
    match t
    case VarintType(size) =>
      assert size < 8 ==> NumberOf(size, u) == Cast(size, ToSigned(u % TWO_32, 4));
      CastIsExact(size, ToSigned(u % TWO_32, 4));
    case UVarintType(size) => UnsignedIsExact(size, u);
    case SVarintType(size) => CastIsExact(size, UnZigZag(u));
    case _ =>
  }

  // ---------------------------------------------------------------- lengths, keys and flags of 32 bits

  /** What is left of a number above the 35th bit repeats the sign: groups of seven bits, each all zeros or
      all ones, up to the one bit of the tenth byte. */
  predicate RepeatsSign(high: nat, bitpos: nat)
    decreases 63 - bitpos
  {
    if bitpos >= 63 then high == 1
    else high >= 0x80 && (high % 0x80 == 0 || high % 0x80 == 0x7F) && RepeatsSign(high / 0x80, bitpos + 7)
  }

  lemma {:induction false} HighGroups(high: nat, rest: Bytes, bitpos: nat, result: nat)
    requires bitpos == 35 || bitpos == 42 || bitpos == 49 || bitpos == 56 || bitpos == 63
    requires 0 < high < Pow2(64 - bitpos) && result < TWO_32
    ensures Varint32From(Varint(high) + rest, bitpos, result) ==
            if result >= TWO_32 / 2 && RepeatsSign(high, bitpos) then Some((result, rest)) else None
    decreases high
  {
    hide Varint, Pow2, Varint32From, RepeatsSign;
    var s := Varint(high) + rest;
    VarintIs(high);
    HighFits(high, bitpos);
    HighStep(s, high, bitpos, result);
    if high < 0x80 {
      assert s[0] == high && s[1..] == rest;
    } else {
      assert s[0] == high % 0x80 + 0x80 && s[1..] == Varint(high / 0x80) + rest;
      HighGroups(high / 0x80, rest, bitpos + 7, result);
    }
  }

  /** One byte above the 32 bits. */
  lemma HighStep(s: Bytes, high: nat, bitpos: nat, result: nat)
    requires bitpos == 35 || bitpos == 42 || bitpos == 49 || bitpos == 56 || bitpos == 63
    requires s != [] && 0 < high && result < TWO_32 && (bitpos == 63 ==> high == 1)
    requires s[0] == if high < 0x80 then high else high % 0x80 + 0x80
    ensures high < 0x80 ==>
      Varint32From(s, bitpos, result) ==
      if result >= TWO_32 / 2 && high == 1 && bitpos == 63 then Some((result, s[1..])) else None
    ensures high < 0x80 ==> (RepeatsSign(high, bitpos) <==> bitpos == 63)
    ensures high >= 0x80 ==>
      (RepeatsSign(high, bitpos) <==> (high % 0x80 == 0 || high % 0x80 == 0x7F) && RepeatsSign(high / 0x80, bitpos + 7))
    ensures high >= 0x80 ==>
      Varint32From(s, bitpos, result) ==
      if high % 0x80 == 0 || (result >= TWO_32 / 2 && high % 0x80 == 0x7F)
          then Varint32From(s[1..], bitpos + 7, result) else None
  {
    assert result / 0x8000_0000 == 0 <==> result < TWO_32 / 2;
    hide OrBits;
  }

  lemma HighFits(high: nat, bitpos: nat)
    requires bitpos == 35 || bitpos == 42 || bitpos == 49 || bitpos == 56 || bitpos == 63
    requires 0 < high < Pow2(64 - bitpos)
    ensures bitpos == 63 ==> high == 1
    ensures high >= 0x80 ==> bitpos < 63 && 0 < high / 0x80 < Pow2(64 - (bitpos + 7))
  {
    Places();
    assert Pow2(64 - bitpos) == if bitpos < 63 then 0x80 * Pow2(64 - (bitpos + 7)) else 2;
  }

  /** What is read of a number of 64 bits: a number of 32 bits as it is; of a longer one its low 32 bits, if the
      others repeat the sign, as far as that is looked at; and else nothing. */
  function LowBits(v: nat, rest: Bytes): Option<(nat, Bytes)> {
    if v < TWO_32 then Some((v, rest))
    else if v % TWO_32 >= TWO_32 / 2 && RepeatsSign(v / 0x8_0000_0000, 35) then Some((v % TWO_32, rest))
    else None
  }

  lemma {:induction false} LowGroups(v: nat, rest: Bytes, bitpos: nat, result: nat)
    requires IsPlace(bitpos) && result < Pow2(bitpos) && result < TWO_32 && result + v * Pow2(bitpos) < TWO_64
    ensures Varint32From(Varint(v) + rest, bitpos, result) == LowBits(result + v * Pow2(bitpos), rest)
    decreases v
  {
    hide Pow2, OrBits, RepeatsSign, Varint, Varint32From, LowBits;
    var s := Varint(v) + rest;
    VarintIs(v);
    if bitpos == 28 {
      FifthGroup(v, rest, result);
    } else {
      NextGroup(v, bitpos, result);
      OrBitsAdds(result, s[0], bitpos, v % 0x80);
      Varint32Step(s, bitpos, result);
      if v < 0x80 {
        assert s[1..] == rest;
        SmallBits(result + v * Pow2(bitpos), rest);
      } else {
        assert s[1..] == Varint(v / 0x80) + rest;
        LowGroups(v / 0x80, rest, bitpos + 7, result + v % 0x80 * Pow2(bitpos));
      }
    }
  }

  lemma SmallBits(v: nat, rest: Bytes)
    requires v < TWO_32
    ensures LowBits(v, rest) == Some((v, rest))
  {
  }

  lemma Varint32Step(s: Bytes, bitpos: nat, result: nat)
    requires s != [] && IsPlace(bitpos) && result < TWO_32
    ensures Varint32From(s, bitpos, result) ==
            var next := OrBits(result, s[0], bitpos);
            if s[0] >= 0x80 then Varint32From(s[1..], bitpos + 7, next)
            else if bitpos == 28 && s[0] >= 0x10 then None else Some((next, s[1..]))
  {
    hide OrBits;
  }

  lemma NextGroup(v: nat, bitpos: nat, result: nat)
    requires IsPlace(bitpos) && bitpos < 28 && result < Pow2(bitpos)
    ensures IsPlace(bitpos + 7) && Pow2(bitpos + 7) == 0x80 * Pow2(bitpos)
    ensures result + v % 0x80 * Pow2(bitpos) < Pow2(bitpos + 7) <= TWO_32
    ensures result + v % 0x80 * Pow2(bitpos) + v / 0x80 * Pow2(bitpos + 7) == result + v * Pow2(bitpos)
  {
    hide Pow2;
    Places();
    assert v == v % 0x80 + v / 0x80 * 0x80;
  }

  /** The fifth byte holds the last four of the 32 bits. */
  lemma FifthGroup(v: nat, rest: Bytes, result: nat)
    requires result < Pow2(28) && result < TWO_32 && result + v * Pow2(28) < TWO_64
    ensures Varint32From(Varint(v) + rest, 28, result) == LowBits(result + v * Pow2(28), rest)
  {
    hide Pow2, OrBits, RepeatsSign, Varint, Varint32From;
    var s := Varint(v) + rest;
    VarintIs(v);
    Places();
    FourBits(result, s[0]);
    Varint32Step(s, 28, result);
    var next := OrBits(result, s[0], 28);
    SplitAt35(v, result);
    if v < 0x80 {
      assert s[1..] == rest;
      NoSign(35);
    } else {
      assert s[1..] == Varint(v / 0x80) + rest;
      Pow2Of29();
      HighGroups(v / 0x80, rest, 35, next);
    }
  }

  lemma FourBits(result: nat, byte: Byte)
    requires result < Pow2(28) && result < TWO_32
    ensures OrBits(result, byte, 28) == result + byte % 0x10 * 0x1000_0000
  {
    Places();
    hide Pow2, Or;
    assert byte % 0x80 * Pow2(28) % TWO_32 == byte % 0x10 * Pow2(28);
    OrAbove(result, byte % 0x10, 28);
  }

  lemma SplitAt35(v: nat, result: nat)
    requires result < 0x1000_0000
    ensures var total := result + v * 0x1000_0000;
      && (total < TWO_32 <==> v < 0x10)
      && total / 0x8_0000_0000 == v / 0x80
      && total % TWO_32 == result + v % 0x10 * 0x1000_0000
    ensures v >= 0x80 ==> (v % 0x80 + 0x80) % 0x10 == v % 0x10
  {
    var high, low := v / 0x80, v % 0x80;
    assert result + v * 0x1000_0000 == (result + low * 0x1000_0000) + high * 0x8_0000_0000;
    LowOf32(v / 0x10, result + v % 0x10 * 0x1000_0000);
    assert v == v / 0x10 * 0x10 + v % 0x10;
  }

  lemma LowOf32(high: nat, low: nat)
    requires low < TWO_32
    ensures (high * TWO_32 + low) % TWO_32 == low
  {
  }

  lemma NoSign(bitpos: nat)
    ensures bitpos == 35 ==> !RepeatsSign(0, bitpos)
  {
  }

  lemma Pow2Of29()
    ensures Pow2(29) == 0x2000_0000
  {
    Places();
  }

  /** A 32-bit varint read from what a number of up to 64 bits is written as. */
  lemma Varint32OfAny(v: nat, rest: Bytes)
    requires v < TWO_64
    ensures ReadVarint32(Varint(v) + rest) == LowBits(v, rest)
  {
    hide Pow2, OrBits, RepeatsSign, Varint, Varint32From, LowBits;
    var s := Varint(v) + rest;
    VarintIs(v);
    if v < 0x80 {
      assert s[1..] == rest;
      SmallBits(v, rest);
    } else {
      assert s[1..] == Varint(v / 0x80) + rest;
      Places();
      LowGroups(v / 0x80, rest, 7, v % 0x80);
    }
  }

  /** A length, key or flag is refused from 2^32 up to 2^63; a negative one counts with its low 32 bits. */
  lemma LongVarint32(v: nat, rest: Bytes)
    requires TWO_32 <= v < TWO_64
    ensures v < TWO_64 / 2 ==> ReadVarint32(Varint(v) + rest) == None
    ensures v >= TWO_64 - TWO_32 / 2 ==> ReadVarint32(Varint(v) + rest) == Some((v % TWO_32, rest))
  {
    hide ReadVarint32, Varint;
    Varint32OfAny(v, rest);
    var high := v / 0x8_0000_0000;
    if v < TWO_64 / 2 {
      assert high < 0x1000_0000;
      SignNeedsTenBytes(high);
    } else if v >= TWO_64 - TWO_32 / 2 {
      assert high == 0x1FFF_FFFF;
      assert RepeatsSign(1, 63) && RepeatsSign(0xFF, 56) && RepeatsSign(0x7FFF, 49) && RepeatsSign(0x3F_FFFF, 42);
    }
  }

  lemma SignNeedsTenBytes(high: nat)
    requires high < 0x1000_0000
    ensures !RepeatsSign(high, 35)
  {
    var a, b, c, d := high / 0x80, high / 0x80 / 0x80, high / 0x80 / 0x80 / 0x80, high / 0x80 / 0x80 / 0x80 / 0x80;
    assert d == 0;
    assert !RepeatsSign(d, 63);
    assert !RepeatsSign(c, 56);
    assert !RepeatsSign(b, 49);
    assert !RepeatsSign(a, 42);
  }

  // ---------------------------------------------------------------- values

  predicate VarintUnreadable(t: LType, s: Bytes) {
    var r := ReadVarint64(s);
    r.None? || TooLarge(t, r.value.0)
  }

  /** No length, or one the field refuses, or fewer bytes than it says. */
  predicate OctetsUnreadable(t: LType, s: Bytes) {
    var r := ReadVarint32(s);
    r.None? ||
    var n, rest := r.value.0, r.value.1;
    match t
    case BytesType(capacity) => n > capacity || |rest| < n
    case StringType(size) => n >= size || |rest| < n
    case FixedLengthBytesType(size) => n != 0 && (n != size || |rest| < n)
    case _ => false
  }

  predicate MessageUnreadable(t: LType, into: Datum, s: Bytes)
    requires TypeOk(t) && t.MessageType? && HasType(t, into)
  {
    var r := TakeDelimited(s);
    r.None? || ReadMessage(t.desc, into.slots, r.value.0).None?
  }

  /** The bytes no value of the type can be read from. */
  predicate Unreadable(t: LType, into: Datum, s: Bytes)
    requires TypeOk(t) && (t.MessageType? ==> HasType(t, into))
  {
    match t
    case BoolType => ReadVarint32(s).None?
    case VarintType(_) => VarintUnreadable(t, s)
    case UVarintType(_) => VarintUnreadable(t, s)
    case SVarintType(_) => VarintUnreadable(t, s)
    case Fixed32Type => |s| < 4
    case Fixed64Type => |s| < 8
    case BytesType(_) => OctetsUnreadable(t, s)
    case StringType(_) => OctetsUnreadable(t, s)
    case FixedLengthBytesType(_) => OctetsUnreadable(t, s)
    case MessageType(_) => MessageUnreadable(t, into, s)
  }

  lemma ValueIsRefused(t: LType, into: Datum, s: Bytes)
    requires TypeOk(t) && (t.MessageType? ==> HasType(t, into))
    ensures ReadValue(t, into, s).None? <==> Unreadable(t, into, s)
  {
    Streams.ValueIs(t, into, s);
    hide ReadValue, ReadVarint32, ReadVarint64, TakeDelimited, ReadMessage, NumberOf, UnsignedOf, Cast, UnZigZag,
         TooLarge, HasType;
    if t.VarintType? || t.UVarintType? || t.SVarintType? {
      var r := ReadVarint64(s);
      if r.Some? {
        NumberIsRefused(t, r.value.0);
      }
    }
  }

  // ---------------------------------------------------------------- the records of a message, one by one

  /** The structure so far, the required fields met, and the bytes ahead. */
  datatype Reading = Reading(dest: seq<Slot>, seen: set<nat>, ahead: Bytes)

  /** The record ahead put into the structure, if it can be. */
  function NextRecord(d: Desc, at: Reading): (r: Option<Reading>)
    requires DescOk(d) && StructHasType(d, at.dest)
    ensures r.Some? ==> StructHasType(d, r.value.dest) && |r.value.ahead| < |at.ahead|
  {
    match ReadTag(at.ahead)
    case BadTag => None
    case EndOfMessage => None
    case TagRead(tag, wireType, rest) =>
      match FindField(d, tag, 0)
      case None => (
        match SkipField(wireType, rest)
        case Some(ahead) => Some(at.(ahead := ahead))
        case None => None)
      case Some(i) =>
        match ReadField(d.fields[i], at.dest[i], wireType, rest)
        case Some((slot, ahead)) => Some(Reading(Stored(d, at.dest, i, slot), Marked(d, at.seen, i), ahead))
        case None => None
  }

  /** After so many records. */
  function After(d: Desc, at: Reading, n: nat): (r: Option<Reading>)
    requires DescOk(d) && StructHasType(d, at.dest)
    ensures r.Some? ==> StructHasType(d, r.value.dest)
    decreases n
  {
    if n == 0 then Some(at) else
      match NextRecord(d, at)
      case Some(next) => After(d, next, n - 1)
      case None => None
  }

  /** The record ahead cannot be read. */
  predicate Stuck(d: Desc, at: Reading)
    requires DescOk(d) && StructHasType(d, at.dest)
  {
    !ReadTag(at.ahead).EndOfMessage? && NextRecord(d, at).None?
  }

  lemma ReadsOn(d: Desc, at: Reading)
    requires DescOk(d) && StructHasType(d, at.dest)
    ensures ReadRecords(d, at.dest, at.seen, at.ahead) ==
            if ReadTag(at.ahead).EndOfMessage? then Some((at.dest, at.seen))
            else if Stuck(d, at) then None
            else var next := NextRecord(d, at).value; ReadRecords(d, next.dest, next.seen, next.ahead)
  {
    hide ReadTag, FindField, ReadField, Stored, Marked, SkipField, DescOk, StructHasType, FieldOk, SlotHasType;
  }

  lemma {:induction false} SameAfter(d: Desc, at: Reading, n: nat)
    requires DescOk(d) && StructHasType(d, at.dest) && After(d, at, n).Some?
    ensures var b := After(d, at, n).value;
      ReadRecords(d, at.dest, at.seen, at.ahead) == ReadRecords(d, b.dest, b.seen, b.ahead)
    decreases n
  {
    hide ReadRecords, NextRecord, DescOk, StructHasType, ReadTag;
    if n > 0 {
      NoNextAtEnd(d, at);
      ReadsOn(d, at);
      SameAfter(d, NextRecord(d, at).value, n - 1);
    }
  }

  lemma NoNextAtEnd(d: Desc, at: Reading)
    requires DescOk(d) && StructHasType(d, at.dest)
    ensures ReadTag(at.ahead).EndOfMessage? ==> NextRecord(d, at).None?
  {
    hide DescOk, StructHasType, ReadTag;
  }

  /** Every run ends: at the end of the message, or before a record that cannot be read. */
  lemma {:induction false} RunEnds(d: Desc, at: Reading) returns (n: nat, b: Reading)
    requires DescOk(d) && StructHasType(d, at.dest)
    ensures After(d, at, n) == Some(b) && StructHasType(d, b.dest)
    ensures ReadTag(b.ahead).EndOfMessage? || Stuck(d, b)
    decreases |at.ahead|
  {
    hide NextRecord, DescOk, StructHasType, ReadTag;
    if ReadTag(at.ahead).EndOfMessage? || Stuck(d, at) {
      n, b := 0, at;
    } else {
      var next := NextRecord(d, at).value;
      n, b := RunEnds(d, next);
      n := n + 1;
    }
  }

  function Start(d: Desc, s: Bytes): (at: Reading)
    requires DescOk(d)
    ensures StructHasType(d, at.dest)
  {
    DefaultsTyped(d);
    Reading(Defaults(d), {}, s)
  }

  /** The record ahead cannot be read, or the message ends without a required field. */
  predicate Fails(d: Desc, at: Reading)
    requires DescOk(d) && StructHasType(d, at.dest)
  {
    if ReadTag(at.ahead).EndOfMessage? then !AllRequired(d, at.seen) else Stuck(d, at)
  }

  /** Decoding fails exactly when, after some number of records, the next one cannot be read, or the message
      ends and a required field has not come. */
  lemma RefusedIff(d: Desc, s: Bytes)
    requires DescOk(d)
    ensures DecodeMessage(d, s).None? <==>
            exists n: nat :: After(d, Start(d, s), n).Some? && Fails(d, After(d, Start(d, s), n).value)
  {
    hide NextRecord, DescOk, StructHasType, ReadTag, ReadRecords, AllRequired, After, Stuck;
    var at := Start(d, s);
    DecodeReads(d, s);
    var n, b := RunEnds(d, at);
    FailsHere(d, at, n);
    forall m: nat | After(d, at, m).Some? && Fails(d, After(d, at, m).value) ensures DecodeMessage(d, s).None? {
      FailsHere(d, at, m);
    }
  }

  lemma DecodeReads(d: Desc, s: Bytes)
    requires DescOk(d)
    ensures var at := Start(d, s);
      DecodeMessage(d, s) ==
      var r := ReadRecords(d, at.dest, at.seen, at.ahead);
      if r.Some? && AllRequired(d, r.value.1) then Some(r.value.0) else None
  {
    hide ReadRecords, DescOk, StructHasType, Defaults;
    DefaultsTyped(d);
  }

  lemma FailsHere(d: Desc, at: Reading, n: nat)
    requires DescOk(d) && StructHasType(d, at.dest) && After(d, at, n).Some?
    ensures var b := After(d, at, n).value; var r := ReadRecords(d, at.dest, at.seen, at.ahead);
      && (Fails(d, b) ==> r.None? || !AllRequired(d, r.value.1))
      && (ReadTag(b.ahead).EndOfMessage? && !Fails(d, b) ==> r.Some? && AllRequired(d, r.value.1))
  {
    hide NextRecord, DescOk, StructHasType, ReadTag, ReadRecords, AllRequired, After;
    SameAfter(d, at, n);
    ReadsOn(d, After(d, at, n).value);
  }

  // ---------------------------------------------------------------- the record ahead

  /** A packed array holds more values than the field has room for, or one that cannot be read. */
  predicate PackedUnreadable(f: Field, items: seq<Datum>, s: Bytes)
    requires FieldOk(f) && f.htype.Repeated? && Packable(f.ltype) && SlotHasType(f, Items(items))
    decreases |s|
  {
    s != [] &&
    (|| |items| >= f.htype.arraySize || Unreadable(f.ltype, f.initial, s)
     || (ValueIsRefused(f.ltype, f.initial, s);
         var v := ReadValue(f.ltype, f.initial, s).value;
         PackedUnreadable(f, items + [v.0], v.1)))
  }

  lemma {:induction false} PackedIsRefused(f: Field, items: seq<Datum>, s: Bytes)
    requires FieldOk(f) && f.htype.Repeated? && Packable(f.ltype) && SlotHasType(f, Items(items))
    ensures ReadPacked(f, items, s).None? <==> PackedUnreadable(f, items, s)
    decreases |s|
  {
    hide ReadPacked, ReadValue, Unreadable, HasType;
    Streams.PackableInto(f);
    Streams.PackedIs(f, items, s);
    ValueIsRefused(f.ltype, f.initial, s);
    if s != [] && |items| < f.htype.arraySize && !Unreadable(f.ltype, f.initial, s) {
      var v := ReadValue(f.ltype, f.initial, s).value;
      PackedIsRefused(f, items + [v.0], v.1);
    }
  }

  predicate FieldUnreadable(f: Field, slot: Slot, wireType: nat, s: Bytes)
    requires FieldOk(f) && SlotHasType(f, slot)
  {
    if f.htype.Repeated? && wireType == WT_STRING && Packable(f.ltype) then
      var r := TakeDelimited(s);
      r.None? || PackedUnreadable(f, slot.items, r.value.0)
    else
      (f.htype.Repeated? && |slot.items| >= f.htype.arraySize) || Unreadable(f.ltype, Into(f, slot), s)
  }

  lemma FieldIsRefused(f: Field, slot: Slot, wireType: nat, s: Bytes)
    requires FieldOk(f) && SlotHasType(f, slot)
    ensures ReadField(f, slot, wireType, s).None? <==> FieldUnreadable(f, slot, wireType, s)
  {
    hide ReadField, ReadPacked, PackedUnreadable, ReadValue, Unreadable, HasType, TakeDelimited;
    Streams.FieldIs(f, slot, wireType, s);
    if f.htype.Repeated? && wireType == WT_STRING && Packable(f.ltype) {
      var r := TakeDelimited(s);
      if r.Some? {
        PackedIsRefused(f, slot.items, r.value.0);
      }
    } else {
      ValueIsRefused(f.ltype, Into(f, slot), s);
    }
  }

  /** What a record with an unknown key is not skipped over: a varint that does not end, too few bytes, and any
      other wire type. */
  predicate Unskippable(wireType: nat, s: Bytes) {
    match wireType
    case 0 => AllContinue(s)
    case 1 => |s| < 8
    case 2 => TakeDelimited(s).None?
    case 5 => |s| < 4
    case _ => true
  }

  lemma SkipIsRefused(wireType: nat, s: Bytes)
    ensures SkipField(wireType, s).None? <==> Unskippable(wireType, s)
  {
    EndlessVarint(s);
    hide SkipVarint, AllContinue, TakeDelimited;
  }

  lemma {:induction false} EndlessVarint(s: Bytes)
    ensures SkipVarint(s).None? <==> AllContinue(s)
  {
    if s != [] && s[0] >= 0x80 {
      EndlessVarint(s[1..]);
      assert s == [s[0]] + s[1..];
    }
  }

  /** The record ahead has no key, or is unknown and cannot be skipped, or belongs to a field that refuses it. */
  lemma StuckIff(d: Desc, at: Reading)
    requires DescOk(d) && StructHasType(d, at.dest)
    ensures Stuck(d, at) <==>
            match ReadTag(at.ahead)
            case EndOfMessage => false
            case BadTag => true
            case TagRead(tag, wireType, rest) =>
              if exists i :: 0 <= i < |d.fields| && d.fields[i].tag == tag then
                exists i :: 0 <= i < |d.fields| && d.fields[i].tag == tag
                            && FieldOk(d.fields[i]) && |at.dest| == |d.fields| && SlotHasType(d.fields[i], at.dest[i])
                            && FieldUnreadable(d.fields[i], at.dest[i], wireType, rest)
              else Unskippable(wireType, rest)
  {
    hide ReadTag, FindField, ReadField, SkipField, DescOk, StructHasType, FieldOk, SlotHasType, FieldUnreadable,
         Unskippable, Stored, Marked;
    var tag := ReadTag(at.ahead);
    if tag.TagRead? {
      SkipIsRefused(tag.wireType, tag.rest);
      if i :| 0 <= i < |d.fields| && d.fields[i].tag == tag.tag {
        FieldIsOk(d, i);
        FindsFrom(d, i, 0);
        SlotIsTyped(d, at.dest, i);
        FieldIsRefused(d.fields[i], at.dest[i], tag.wireType, tag.rest);
        forall j | 0 <= j < |d.fields| && d.fields[j].tag == tag.tag ensures j == i {
          FindsFrom(d, j, 0);
        }
      }
    }
  }

  /** After any number of records that can be read, a record of an unsigned field, with a number the field has
      no room for, makes decoding fail. */
  lemma LargeNumberIsRefused(d: Desc, s: Bytes, n: nat, i: nat, wireType: nat, rest: Bytes, u: nat)
    requires DescOk(d) && i < |d.fields| && After(d, Start(d, s), n).Some?
    requires ReadTag(After(d, Start(d, s), n).value.ahead) == TagRead(d.fields[i].tag, wireType, rest)
    requires d.fields[i].ltype.UVarintType? && !(d.fields[i].htype.Repeated? && wireType == WT_STRING)
    requires ReadVarint64(rest).Some? && ReadVarint64(rest).value.0 == u
    requires SizeOk(d.fields[i].ltype.size) ==> u >= Span(d.fields[i].ltype.size)
    ensures DecodeMessage(d, s) == None
  {
    hide DescOk, StructHasType, ReadTag, FieldOk, SlotHasType, ReadVarint64, After, Start, AllRequired, Stuck, Into;
    var at := After(d, Start(d, s), n).value;
    FieldIsOk(d, i);
    SlotIsTyped(d, at.dest, i);
    StuckIff(d, at);
    assert FieldUnreadable(d.fields[i], at.dest[i], wireType, rest);
    assert Fails(d, at);
    RefusedIff(d, s);
  }

  /** The first record, as an encoder for a wider field would write it. */
  lemma WiderFieldIsRefused(d: Desc, i: nat, u: nat, rest: Bytes)
    requires DescOk(d) && i < |d.fields| && d.fields[i].ltype.UVarintType? && u < TWO_64
    requires SizeOk(d.fields[i].ltype.size) ==> u >= Span(d.fields[i].ltype.size)
    ensures DecodeMessage(d, Key(d.fields[i].tag, 0) + Varint(u) + rest) == None
  {
    hide DescOk, StructHasType, ReadTag, FieldOk, SlotHasType, ReadVarint64, DecodeMessage, Varint, NextRecord, Key;
    var s := Key(d.fields[i].tag, 0) + Varint(u) + rest;
    assert s == Key(d.fields[i].tag, 0) + (Varint(u) + rest);
    FieldIsOk(d, i);
    KeyReads(d.fields[i].tag, 0, Varint(u) + rest);
    Varint64Reads(u, rest);
    LargeNumberIsRefused(d, s, 0, i, 0, Varint(u) + rest, u);
  }

  // ---------------------------------------------------------------- required fields

  /** The record ahead is one of the field. */
  predicate IsOf(d: Desc, at: Reading, i: nat)
    requires i < |d.fields|
  {
    var tag := ReadTag(at.ahead);
    tag.TagRead? && tag.tag == d.fields[i].tag
  }

  lemma {:induction false} NotSeen(d: Desc, at: Reading, i: nat, n: nat)
    requires DescOk(d) && StructHasType(d, at.dest) && i < |d.fields| && d.fields[i].htype.Required?
    requires After(d, at, n).Some? && RequiredBefore(d, i) !in at.seen
    requires forall m: nat :: m < n && After(d, at, m).Some? ==> !IsOf(d, After(d, at, m).value, i)
    ensures RequiredBefore(d, i) !in After(d, at, n).value.seen
    decreases n
  {
    hide DescOk, StructHasType, ReadTag, NextRecord;
    if n > 0 {
      assert After(d, at, 0) == Some(at);
      var next := NextRecord(d, at).value;
      NotMarkedByNext(d, at, i);
      forall m: nat | m < n - 1 && After(d, next, m).Some? ensures !IsOf(d, After(d, next, m).value, i) {
        assert After(d, at, m + 1) == After(d, next, m);
      }
      NotSeen(d, next, i, n - 1);
    }
  }

  lemma NotMarkedByNext(d: Desc, at: Reading, i: nat)
    requires DescOk(d) && StructHasType(d, at.dest) && i < |d.fields| && d.fields[i].htype.Required?
    requires NextRecord(d, at).Some? && RequiredBefore(d, i) !in at.seen && !IsOf(d, at, i)
    ensures RequiredBefore(d, i) !in NextRecord(d, at).value.seen
  {
    hide ReadTag, ReadField, SkipField, DescOk, StructHasType, FieldOk, SlotHasType, Stored, RequiredBefore;
    var tag := ReadTag(at.ahead);
    if tag.TagRead? && FindField(d, tag.tag, 0).Some? {
      var j := FindField(d, tag.tag, 0).value;
      if j < i {
        RequiredGrows(d, j, i);
      } else {
        RequiredGrows(d, i, j);
      }
    }
  }

  /** A message without one of its first 64 required fields is refused, whatever else it holds. */
  lemma MissingRequiredIsRefused(d: Desc, s: Bytes, i: nat)
    requires DescOk(d) && i < |d.fields| && d.fields[i].htype.Required? && RequiredBefore(d, i) < MAX_REQUIRED_FIELDS
    requires forall n: nat :: After(d, Start(d, s), n).Some? ==> !IsOf(d, After(d, Start(d, s), n).value, i)
    ensures DecodeMessage(d, s) == None
  {
    hide DescOk, StructHasType, ReadTag, After, Stuck, NextRecord, IsOf;
    var at := Start(d, s);
    var n, b := RunEnds(d, at);
    NotSeen(d, at, i, n);
    RequiredGrows(d, i, |d.fields|);
    RefusedIff(d, s);
  }
}
