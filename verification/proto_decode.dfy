/** What the decoder makes of any bytes: integers, keys, values, fields, messages
    (nanopb/pb_decode.c). */
module ProtoDecode {
  import opened Wrappers
  import opened Coding
  import opened Messages
  import opened Bits

  // ---------------------------------------------------------------- integers

  /** A varint of at most 32 bits; longer ones may only repeat the sign.  The bit position has 8 bits. */
  function ReadVarint32(s: Bytes): (r: Option<(nat, Bytes)>)
    ensures r.Some? ==> |r.value.1| < |s| && r.value.0 < TWO_32
  {
    if s == [] then None
    else if s[0] < 0x80 then Some((s[0], s[1..]))
    else Varint32From(s[1..], 7, s[0] - 0x80)
  }

  function Varint32From(s: Bytes, bitpos: nat, result: nat): (r: Option<(nat, Bytes)>)
    requires bitpos < 0x100 && result < TWO_32
    ensures r.Some? ==> |r.value.1| < |s| && r.value.0 < TWO_32
  {
    if s == [] then None
    else if bitpos >= 32 && Overflows(s[0], bitpos, result) then None
    else
      var next := if bitpos >= 32 then result else OrBits(result, s[0], bitpos);
      var after := (bitpos + 7) % 0x100;
      if s[0] >= 0x80 then Varint32From(s[1..], after, next)
      else if after == 35 && s[0] / 0x10 % 8 != 0 then None
      else Some((next, s[1..]))
  }

  /** The low seven bits of a byte put in their place; bits beyond the 32nd are lost. */
  function OrBits(result: nat, byte: Byte, bitpos: nat): (r: nat)
    requires result < TWO_32
    ensures r < TWO_32
  {
    Pow2Of32();
    OrBelow(result, byte % 0x80 * Pow2(bitpos) % TWO_32, 32);
    Or(result, byte % 0x80 * Pow2(bitpos) % TWO_32)
  }

  /** Past 32 bits a byte may be all zeros, or all ones after a number whose top bit is set. */
  predicate Overflows(byte: Byte, bitpos: nat, result: nat) {
    byte % 0x80 != 0 && (result / 0x8000_0000 == 0 || byte != if bitpos < 63 then 0xFF else 0x01)
  }

  /** A varint of at most ten bytes, of which 64 bits count. */
  function ReadVarint64(s: Bytes): (r: Option<(nat, Bytes)>)
    ensures r.Some? ==> |r.value.1| < |s| && r.value.0 < TWO_64
  {
    match VarintAt(s, 0, 10, 1, 0, TWO_64)
    case Some((v, n)) => VarintBelow(s, 0, 10, 1, 0, TWO_64); Some((v, s[n..]))
    case None => None
  }

  lemma {:induction false} VarintBelow(s: Bytes, i: nat, left: nat, weight: nat, acc: nat, width: nat)
    requires width > 0 && i <= |s|
    ensures var r := VarintAt(s, i, left, weight, acc, width); r.Some? ==> r.value.0 < width
    decreases left
  {
    if left > 0 && i < |s| && s[i] >= 0x80 {
      VarintBelow(s, i + 1, left - 1, weight * 0x80, acc + (s[i] - 0x80) * weight, width);
    }
  }

  function SkipVarint(s: Bytes): (r: Option<Bytes>)
    ensures r.Some? ==> |r.value| < |s|
  {
    if s == [] then None else if s[0] >= 0x80 then SkipVarint(s[1..]) else Some(s[1..])
  }

  function Take(s: Bytes, n: nat): (r: Option<(Bytes, Bytes)>)
    ensures r.Some? ==> |r.value.0| == n && |r.value.0| + |r.value.1| == |s|
  {
    if |s| < n then None else Some((s[..n], s[n..]))
  }

  /** A length, and so many bytes: a substream. */
  function TakeDelimited(s: Bytes): (r: Option<(Bytes, Bytes)>)
    ensures r.Some? ==> |r.value.0| + |r.value.1| < |s|
  {
    match ReadVarint32(s)
    case Some((n, rest)) => Take(rest, n)
    case None => None
  }

  // ---------------------------------------------------------------- keys

  datatype TagRead = BadTag | EndOfMessage | TagRead(tag: nat, wireType: nat, rest: Bytes)

  /** The end of the stream or a zero end the message. */
  function ReadTag(s: Bytes): (r: TagRead)
    ensures r.TagRead? ==> |r.rest| < |s|
  {
    if s == [] then EndOfMessage else
      match ReadVarint32(s)
      case None => BadTag
      case Some((key, rest)) => if key == 0 then EndOfMessage else TagRead(key / 8, key % 8, rest)
  }

  function SkipField(wireType: nat, s: Bytes): (r: Option<Bytes>)
    ensures r.Some? ==> |r.value| <= |s|
  {
    if wireType == 0 then SkipVarint(s)
    else if wireType == 1 then Rest(Take(s, 8))
    else if wireType == 2 then Rest(TakeDelimited(s))
    else if wireType == 5 then Rest(Take(s, 4))
    else None
  }

  function Rest(r: Option<(Bytes, Bytes)>): Option<Bytes> {
    if r.Some? then Some(r.value.1) else None
  }

  // ---------------------------------------------------------------- numbers in fields

  /** A bit pattern as a signed number of so many bytes. */
  function ToSigned(n: nat, size: nat): (r: int)
    requires SizeOk(size) && n < Span(size)
    ensures FitsSigned(size, r)
  {
    if n < Span(size) / 2 then n else n - Span(size)
  }

  /** Cuts a number to a field's size, and refuses one that does not fit. */
  function Cast(size: nat, n: int): (r: Option<int>)
    ensures r.Some? ==> SizeOk(size) && r.value == n && FitsSigned(size, n)
  {
    if !SizeOk(size) then None
    else
      var clamped := ToSigned(n % Span(size), size);
      if clamped == n then Some(n) else None
  }

  /** Fields of 32 bits and less take the low 32 bits, so that negative numbers may come sign-extended or not. */
  function NumberOf(size: nat, u: nat): (r: Option<int>)
    requires u < TWO_64
    ensures r.Some? ==> SizeOk(size) && FitsSigned(size, r.value)
  {
    if !SizeOk(size) then None
    else if size == 8 then Some(ToSigned(u, 8))
    else Cast(size, ToSigned(u % TWO_32, 4))
  }

  function UnsignedOf(size: nat, u: nat): (r: Option<int>)
    ensures r.Some? ==> SizeOk(size) && FitsUnsigned(size, r.value)
  {
    if !SizeOk(size) || u % Span(size) != u then None else Some(u)
  }

  function UnZigZag(u: nat): int {
    if u % 2 == 1 then -(u / 2) - 1 else u / 2
  }

  // ---------------------------------------------------------------- values

  function Zeros(n: nat): (r: Bytes)
    ensures |r| == n
  {
    seq(n, i => 0)
  }

  function AsDatum(n: Option<int>, rest: Bytes): Option<(Datum, Bytes)> {
    if n.Some? then Some((Number(n.value), rest)) else None
  }

  function ReadFixed(s: Bytes, n: nat): (r: Option<(Datum, Bytes)>)
    requires n == 4 || n == 8
    ensures r.Some? ==> |r.value.1| < |s| && HasType(if n == 4 then Fixed32Type else Fixed64Type, r.value.0)
  {
    match Take(s, n)
    case Some((bytes, rest)) => FixedFits(bytes); Some((Number(DecodeFixed(bytes)), rest))
    case None => None
  }

  lemma FixedFits(s: Bytes)
    ensures |s| == 4 ==> DecodeFixed(s) < TWO_32
    ensures |s| == 8 ==> DecodeFixed(s) < TWO_64
  {
    DecodeFixedRoundTrip(s);
    assert Power(0x100, 2) == 0x1_0000;
    assert Power(0x100, 4) == TWO_32;
    assert Power(0x100, 6) == TWO_32 * 0x1_0000;
    assert Power(0x100, 8) == TWO_64;
  }

  function ReadOctets(s: Bytes, n: nat): (r: Option<(Datum, Bytes)>)
    ensures r.Some? ==> r.value.0.Octets? && |r.value.0.bytes| == n && n + |r.value.1| == |s|
  {
    match Take(s, n)
    case Some((bytes, rest)) => Some((Octets(bytes), rest))
    case None => None
  }

  /** A value read from the front of s.  A message is merged into what is there. */
  function ReadValue(t: LType, into: Datum, s: Bytes): (r: Option<(Datum, Bytes)>)
    requires TypeOk(t) && (t.MessageType? ==> HasType(t, into))
    ensures r.Some? ==> HasType(t, r.value.0) && |r.value.1| < |s|
    decreases t, 1
  {
    match t
    case BoolType => (
      match ReadVarint32(s)
      case Some((u, rest)) => Some((Flag(u != 0), rest))
      case None => None)
    case VarintType(size) => (
      match ReadVarint64(s)
      case Some((u, rest)) => AsDatum(NumberOf(size, u), rest)
      case None => None)
    case UVarintType(size) => (
      match ReadVarint64(s)
      case Some((u, rest)) => AsDatum(UnsignedOf(size, u), rest)
      case None => None)
    case SVarintType(size) => (
      match ReadVarint64(s)
      case Some((u, rest)) => AsDatum(Cast(size, UnZigZag(u)), rest)
      case None => None)
    case Fixed32Type => ReadFixed(s, 4)
    case Fixed64Type => ReadFixed(s, 8)
    case BytesType(capacity) => (
      match ReadVarint32(s)
      case Some((n, rest)) => if n > capacity then None else ReadOctets(rest, n)
      case None => None)
    case StringType(size) => (
      match ReadVarint32(s)
      case Some((n, rest)) => if n + 1 > size then None else ReadOctets(rest, n)
      case None => None)
    case FixedLengthBytesType(size) => (
      match ReadVarint32(s)
      case Some((n, rest)) =>
        if n == 0 then Some((Octets(Zeros(size)), rest)) else if n != size then None else ReadOctets(rest, n)
      case None => None)
    case MessageType(desc) => (
      match TakeDelimited(s)
      case Some((sub, rest)) => (
        match ReadMessage(desc, into.slots, sub)
        case Some(slots) => Some((Message(slots), rest))
        case None => None)
      case None => None)
  }

  // ---------------------------------------------------------------- fields

  /** A packed array, up to the end of s. */
  function ReadPacked(f: Field, items: seq<Datum>, s: Bytes): (r: Option<seq<Datum>>)
    requires FieldOk(f) && f.htype.Repeated? && Packable(f.ltype) && SlotHasType(f, Items(items))
    ensures r.Some? ==> SlotHasType(f, Items(r.value))
    ensures r.Some? && |items| <= f.htype.arraySize ==> |r.value| <= f.htype.arraySize
    decreases f, 2, |s|
  {
    if s == [] then Some(items)
    else if |items| >= f.htype.arraySize then None
    else
      match ReadValue(f.ltype, f.initial, s)
      case Some((v, rest)) => ReadPacked(f, items + [v], rest)
      case None => None
  }

  /** Where a message is merged into: what the field holds, or a fresh message. */
  function Into(f: Field, slot: Slot): (v: Datum)
    requires FieldOk(f) && SlotHasType(f, slot)
    ensures f.ltype.MessageType? ==> HasType(f.ltype, v)
  {
    DefaultTyped(f);
    match slot
    case Always(v) => v
    case Maybe(_, v) => v
    case Items(_) => DefaultValue(f)
    case Member(chosen) => if chosen.Some? then chosen.value else DefaultValue(f)
  }

  /** decode_static_field: any wire type will do, except that a delimited scalar array is packed. */
  function ReadField(f: Field, slot: Slot, wireType: nat, s: Bytes): (r: Option<(Slot, Bytes)>)
    requires FieldOk(f) && SlotHasType(f, slot)
    ensures r.Some? ==> SlotHasType(f, r.value.0) && |r.value.1| <= |s|
    decreases f, 3
  {
    if f.htype.Repeated? && wireType == WT_STRING && Packable(f.ltype) then
      match TakeDelimited(s)
      case Some((sub, rest)) => (
        match ReadPacked(f, slot.items, sub)
        case Some(items) => Some((Items(items), rest))
        case None => None)
      case None => None
    else if f.htype.Repeated? && |slot.items| >= f.htype.arraySize then None
    else
      match ReadValue(f.ltype, Into(f, slot), s)
      case Some((v, rest)) => Some((Filled(f, slot, v), rest))
      case None => None
  }

  /** The field with a value read. */
  function Filled(f: Field, slot: Slot, v: Datum): (r: Slot)
    requires SlotHasType(f, slot) && HasType(f.ltype, v)
    ensures SlotHasType(f, r)
  {
    match slot
    case Always(_) => Always(v)
    case Maybe(_, _) => Maybe(true, v)
    case Items(items) => Items(items + [v])
    case Member(_) => Member(Some(v))
  }

  // ---------------------------------------------------------------- messages

  /** Field i takes its value; the other members of its union lose theirs. */
  function Stored(d: Desc, dest: seq<Slot>, i: nat, slot: Slot): (r: seq<Slot>)
    requires StructHasType(d, dest) && i < |d.fields| && SlotHasType(d.fields[i], slot)
    ensures StructHasType(d, r)
  {
    seq(|dest|, k requires 0 <= k < |dest| =>
      if k == i then slot else if SameUnion(d.fields[i], d.fields[k]) then Member(None) else dest[k])
  }

  function FindField(d: Desc, tag: nat, i: nat): (r: Option<nat>)
    requires i <= |d.fields|
    ensures r.Some? ==> r.value < |d.fields| && d.fields[r.value].tag == tag
    ensures r.None? ==> forall k :: i <= k < |d.fields| ==> d.fields[k].tag != tag
    decreases |d.fields| - i
  {
    if i == |d.fields| then None else if d.fields[i].tag == tag then Some(i) else FindField(d, tag, i + 1)
  }

  lemma {:induction false} FindsFrom(d: Desc, i: nat, k: nat)
    requires DescOk(d) && k <= i < |d.fields|
    ensures FindField(d, d.fields[i].tag, k) == Some(i)
    decreases i - k
  {
    hide FieldOk;
    if k < i {
      FindsFrom(d, i, k + 1);
    }
  }

  lemma FieldIsOk(d: Desc, i: nat)
    requires DescOk(d) && i < |d.fields|
    ensures FieldOk(d.fields[i]) && 0 < d.fields[i].tag < MAX_TAG && TypeOk(d.fields[i].ltype)
  {
    hide TypeOk, HasType;
  }

  lemma SlotIsTyped(d: Desc, slots: seq<Slot>, i: nat)
    requires StructHasType(d, slots) && i < |d.fields|
    ensures |slots| == |d.fields| && SlotHasType(d.fields[i], slots[i])
  {
    hide SlotHasType, OneOfEach;
  }

  const MAX_REQUIRED_FIELDS: nat := 64

  /** The required fields met so far, of those that are tracked. */
  function Marked(d: Desc, seen: set<nat>, i: nat): set<nat>
    requires i < |d.fields|
  {
    if d.fields[i].htype.Required? && RequiredBefore(d, i) < MAX_REQUIRED_FIELDS then seen
        + {RequiredBefore(d, i)} else seen
  }

  lemma {:induction false} RequiredGrows(d: Desc, i: nat, n: nat)
    requires i < n <= |d.fields|
    ensures RequiredBefore(d, i) + (if d.fields[i].htype.Required? then 1 else 0) <= RequiredBefore(d, n)
    decreases n
  {
    if i < n - 1 {
      RequiredGrows(d, i, n - 1);
    }
  }

  predicate AllRequired(d: Desc, seen: set<nat>) {
    forall k :: 0 <= k < RequiredBefore(d, |d.fields|) && k < MAX_REQUIRED_FIELDS ==> k in seen
  }

  /** Records until the message ends; unknown ones are skipped. */
  function ReadRecords(d: Desc, dest: seq<Slot>, seen: set<nat>, s: Bytes): (r: Option<(seq<Slot>, set<nat>)>)
    requires DescOk(d) && StructHasType(d, dest)
    ensures r.Some? ==> StructHasType(d, r.value.0)
    decreases d, 0, |s|
  {
    match ReadTag(s)
    case BadTag => None
    case EndOfMessage => Some((dest, seen))
    case TagRead(tag, wireType, rest) =>
      match FindField(d, tag, 0)
      case None => (
        match SkipField(wireType, rest)
        case Some(next) => ReadRecords(d, dest, seen, next)
        case None => None)
      case Some(i) =>
        match ReadField(d.fields[i], dest[i], wireType, rest)
        case Some((slot, next)) => ReadRecords(d, Stored(d, dest, i, slot), Marked(d, seen, i), next)
        case None => None
  }

  /** pb_decode_noinit: merges the records of s into a structure; every tracked required field must come. */
  function ReadMessage(d: Desc, dest: seq<Slot>, s: Bytes): (r: Option<seq<Slot>>)
    requires DescOk(d) && StructHasType(d, dest)
    ensures r.Some? ==> StructHasType(d, r.value)
    decreases d, 1
  {
    match ReadRecords(d, dest, {}, s)
    case Some((slots, seen)) => if AllRequired(d, seen) then Some(slots) else None
    case None => None
  }

  /** pb_decode: from the defaults. */
  function DecodeMessage(d: Desc, s: Bytes): (r: Option<seq<Slot>>)
    requires DescOk(d)
    ensures r.Some? ==> StructHasType(d, r.value)
  {
    DefaultsTyped(d);
    ReadMessage(d, Defaults(d), s)
  }

  // ---------------------------------------------------------------- defaults have their types

  lemma {:induction false} DefaultTyped(f: Field)
    requires FieldOk(f)
    ensures HasType(f.ltype, DefaultValue(f))
    decreases f, 0
  {
    if f.ltype.MessageType? {
      DefaultsTyped(f.ltype.desc);
    }
  }

  lemma {:induction false} DefaultsTyped(d: Desc)
    requires DescOk(d)
    ensures StructHasType(d, Defaults(d))
    decreases d
  {
    forall i | 0 <= i < |d.fields| ensures SlotHasType(d.fields[i], Defaults(d)[i]) {
      assert FieldOk(d.fields[i]);
      DefaultTyped(d.fields[i]);
    }
  }

  lemma DecodeIs(d: Desc, s: Bytes)
    requires DescOk(d) && StructHasType(d, Defaults(d))
    ensures DecodeMessage(d, s) == ReadMessage(d, Defaults(d), s)
  {
    hide DescOk, StructHasType, ReadMessage, Defaults;
  }

  lemma ReadMessageIs(d: Desc, dest: seq<Slot>, s: Bytes)
    requires DescOk(d) && StructHasType(d, dest)
    ensures ReadMessage(d, dest, s) ==
            var r := ReadRecords(d, dest, {}, s); if r.Some? && AllRequired(d, r.value.1) then Some(r.value.0) else None
  {
    hide DescOk, StructHasType, ReadRecords, AllRequired;
  }

  lemma DefaultIsMessage(f: Field)
    requires f.ltype.MessageType?
    ensures DefaultValue(f) == Message(Defaults(f.ltype.desc))
  {
    hide Defaults;
  }
}
