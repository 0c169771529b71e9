/** Protocol Buffers messages as nanopb describes them: field descriptors, and a structure with one
    slot per descriptor (nanopb/pb.h).  pb_size_t has 32 bits, as PB_FIELD_32BIT makes it. */
module Messages {
  import opened Wrappers
  import opened Coding

  type Word = x: int | 0 <= x < TWO_32

  /** The type of one value; sizes are those of the C fields, in bytes. */
  datatype LType =
    | BoolType
    | VarintType(size: nat)
    | UVarintType(size: nat)
    | SVarintType(size: nat)
    | Fixed32Type
    | Fixed64Type
    | BytesType(capacity: nat)
    | StringType(size: nat)
    | MessageType(desc: Desc)
    | FixedLengthBytesType(size: nat)

  /** Required, optional with a has_ flag, proto3 singular without one, counted array, union member. */
  datatype HType = Required | Optional | Singular | Repeated(arraySize: nat) | Oneof(union: nat)

  /** initial is what `ptr` points at for a value that is not a message, or zeros. */
  datatype Field = Field(tag: Word, htype: HType, ltype: LType, initial: Datum)

  datatype Desc = Desc(fields: seq<Field>)

  datatype Datum = Flag(on: bool) | Number(n: int) | Octets(bytes: Bytes) | Message(slots: seq<Slot>)

  /** What the structure holds for one descriptor; a union has at most one chosen member. */
  datatype Slot =
    | Always(value: Datum)
    | Maybe(has: bool, value: Datum)
    | Items(items: seq<Datum>)
    | Member(chosen: Option<Datum>)

  predicate SizeOk(size: nat) {
    size == 1 || size == 2 || size == 4 || size == 8
  }

  /** How many values an integer of so many bytes has. */
  function Span(size: nat): nat
    requires SizeOk(size)
  {
    if size == 1 then 0x100 else if size == 2 then 0x1_0000 else if size == 4 then TWO_32 else TWO_64
  }

  predicate FitsSigned(size: nat, n: int) {
    SizeOk(size) ==> 0 - Span(size) / 2 <= n < Span(size) / 2
  }

  predicate FitsUnsigned(size: nat, n: int) {
    SizeOk(size) ==> 0 <= n < Span(size)
  }

  predicate Packable(t: LType) {
    t.BoolType? || t.VarintType? || t.UVarintType? || t.SVarintType? || t.Fixed32Type? || t.Fixed64Type?
  }

  // ---------------------------------------------------------------- typed structures

  predicate HasType(t: LType, v: Datum)
    decreases t
  {
    match t
    case BoolType => v.Flag?
    case VarintType(size) => v.Number? && FitsSigned(size, v.n)
    case UVarintType(size) => v.Number? && FitsUnsigned(size, v.n)
    case SVarintType(size) => v.Number? && FitsSigned(size, v.n)
    case Fixed32Type => v.Number? && FitsUnsigned(4, v.n)
    case Fixed64Type => v.Number? && FitsUnsigned(8, v.n)
    case BytesType(_) => v.Octets? && |v.bytes| < TWO_32
    case StringType(size) => v.Octets? && |v.bytes| <= size
    case MessageType(desc) => v.Message? && StructHasType(desc, v.slots)
    case FixedLengthBytesType(size) => v.Octets? && |v.bytes| == size
  }

  predicate SlotHasType(f: Field, slot: Slot)
    decreases f
  {
    match f.htype
    case Required => slot.Always? && HasType(f.ltype, slot.value)
    case Optional => slot.Maybe? && HasType(f.ltype, slot.value)
    case Singular => slot.Always? && HasType(f.ltype, slot.value)
    case Repeated(_) => slot.Items? && forall i :: 0 <= i < |slot.items| ==> HasType(f.ltype, slot.items[i])
    case Oneof(_) => slot.Member? && (slot.chosen.Some? ==> HasType(f.ltype, slot.chosen.value))
  }

  predicate StructHasType(d: Desc, slots: seq<Slot>)
    decreases d
  {
    && |slots| == |d.fields| && (forall i :: 0 <= i < |d.fields| ==> SlotHasType(d.fields[i], slots[i]))
    && OneOfEach(d, slots)
  }

  lemma StructLength(d: Desc, slots: seq<Slot>)
    requires StructHasType(d, slots)
    ensures |slots| == |d.fields|
  {
    hide SlotHasType, OneOfEach;
  }

  predicate SameUnion(f: Field, g: Field) {
    f.htype.Oneof? && g.htype == f.htype
  }

  /** A union holds one member at most. */
  predicate OneOfEach(d: Desc, slots: seq<Slot>)
    requires |slots| == |d.fields|
  {
    forall i, j :: 0 <= i < j < |slots| && SameUnion(d.fields[i], d.fields[j]) ==>
      !IsChosen(slots[i]) || !IsChosen(slots[j])
  }

  predicate IsChosen(slot: Slot) {
    slot.Member? && slot.chosen.Some?
  }

  /** The C string in a buffer: what comes before its first NUL. */
  function CString(s: Bytes): (r: Bytes)
    ensures r <= s
  {
    if s == [] || s[0] == 0 then [] else [s[0]] + CString(s[1..])
  }

  // ---------------------------------------------------------------- what proto3 leaves out

  /** pb_check_proto3_default_value on a singular value. */
  predicate IsZero(t: LType, v: Datum)
    decreases t
  {
    match v
    case Flag(on) => !on
    case Number(n) => n == 0
    case Octets(bytes) => bytes == [] || (t.StringType? && bytes[0] == 0)
    case Message(slots) =>
      t.MessageType? && |slots| == |t.desc.fields|
      && forall i :: 0 <= i < |slots| ==> SlotIsZero(t.desc.fields[i], slots[i])
  }

  predicate SlotIsZero(f: Field, slot: Slot)
    decreases f
  {
    match slot
    case Always(v) => f.htype.Singular? && IsZero(f.ltype, v)
    case Maybe(has, _) => !has
    case Items(items) => items == []
    case Member(chosen) => chosen.None?
  }

  // ---------------------------------------------------------------- the wire format

  function WireType(t: LType): nat {
    match t
    case BoolType => 0
    case VarintType(_) => 0
    case UVarintType(_) => 0
    case SVarintType(_) => 0
    case Fixed32Type => 5
    case Fixed64Type => 1
    case _ => 2
  }

  const WT_STRING: nat := 2

  function Key(tag: nat, wireType: nat): Bytes {
    Varint(tag * 8 + wireType)
  }

  /** A length and as many bytes. */
  function Delimited(s: Bytes): Bytes {
    Varint(|s|) + s
  }

  /** Signed numbers with small magnitude get short varints. */
  function ZigZag(n: int): nat {
    if n < 0 then -2 * n - 1 else 2 * n
  }

  /** A value without its key. */
  function EncodeValue(t: LType, v: Datum): Bytes
    decreases t, 0
  {
    match v
    case Flag(on) => Varint(if on then 1 else 0)
    case Number(n) => EncodeNumber(t, n)
    case Octets(bytes) => Delimited(if t.StringType? then CString(bytes) else bytes)
    case Message(slots) => if t.MessageType? then Delimited(EncodeFrom(t.desc, slots, 0)) else []
  }

  function EncodeNumber(t: LType, n: int): Bytes {
    match t
    case VarintType(_) => Varint(n % TWO_64)
    case UVarintType(_) => Varint(n % TWO_64)
    case SVarintType(_) => Varint(ZigZag(n))
    case Fixed32Type => Fixed(n % TWO_32, 4)
    case Fixed64Type => Fixed(n % TWO_64, 8)
    case _ => []
  }

  function Record(f: Field, v: Datum): Bytes
    decreases f, 0
  {
    Key(f.tag, WireType(f.ltype)) + EncodeValue(f.ltype, v)
  }

  function Values(t: LType, items: seq<Datum>): Bytes
    decreases t, 1, |items|
  {
    if items == [] then [] else EncodeValue(t, items[0]) + Values(t, items[1..])
  }

  function Records(f: Field, items: seq<Datum>): Bytes
    decreases f, 1, |items|
  {
    if items == [] then [] else Record(f, items[0]) + Records(f, items[1..])
  }

  /** Scalars are packed into one record; everything else gets a record each. */
  function EncodeArray(f: Field, items: seq<Datum>): Bytes
    decreases f, 2
  {
    if items == [] then []
    else if Packable(f.ltype) then Key(f.tag, WT_STRING) + Delimited(Values(f.ltype, items))
    else Records(f, items)
  }

  function EncodeField(f: Field, slot: Slot): Bytes
    decreases f, 3
  {
    match slot
    case Always(v) => if f.htype.Singular? && IsZero(f.ltype, v) then [] else Record(f, v)
    case Maybe(has, v) => if has then Record(f, v) else []
    case Items(items) => EncodeArray(f, items)
    case Member(chosen) => if chosen.Some? then Record(f, chosen.value) else []
  }

  /** The fields from the i-th on. */
  function EncodeFrom(d: Desc, slots: seq<Slot>, i: nat): Bytes
    decreases d, |d.fields| - i
  {
    if i >= |d.fields| || i >= |slots| then []
    else EncodeField(d.fields[i], slots[i]) + EncodeFrom(d, slots, i + 1)
  }

  function EncodeMessage(d: Desc, slots: seq<Slot>): Bytes {
    EncodeFrom(d, slots, 0)
  }

  // ---------------------------------------------------------------- what the encoder refuses

  predicate Encodable(t: LType, v: Datum)
    decreases t, 0
  {
    match t
    case VarintType(size) => SizeOk(size)
    case UVarintType(size) => SizeOk(size)
    case SVarintType(size) => SizeOk(size)
    case BytesType(capacity) => v.Octets? && |v.bytes| <= capacity
    case MessageType(desc) => v.Message? && StructEncodable(desc, v.slots, 0)
    case _ => true
  }

  predicate AllEncodable(t: LType, items: seq<Datum>)
    decreases t, 1, |items|
  {
    items == [] || (Encodable(t, items[0]) && AllEncodable(t, items[1..]))
  }

  predicate SlotEncodable(f: Field, slot: Slot)
    decreases f
  {
    match slot
    case Always(v) => (f.htype.Singular? && IsZero(f.ltype, v)) || Encodable(f.ltype, v)
    case Maybe(has, v) => has ==> Encodable(f.ltype, v)
    case Items(items) => f.htype.Repeated? && |items| <= f.htype.arraySize && AllEncodable(f.ltype, items)
    case Member(chosen) => chosen.Some? ==> Encodable(f.ltype, chosen.value)
  }

  predicate StructEncodable(d: Desc, slots: seq<Slot>, i: nat)
    decreases d, |d.fields| - i
  {
    i >= |d.fields| || i >= |slots| || (SlotEncodable(d.fields[i], slots[i]) && StructEncodable(d, slots, i + 1))
  }

  // ---------------------------------------------------------------- defaults

  /** pb_field_set_to_default. */
  function DefaultValue(f: Field): Datum
    decreases f, 0
  {
    if f.ltype.MessageType? then Message(Defaults(f.ltype.desc)) else f.initial
  }

  function DefaultSlot(f: Field): Slot
    decreases f, 1
  {
    match f.htype
    case Required => Always(DefaultValue(f))
    case Optional => Maybe(false, DefaultValue(f))
    case Singular => Always(DefaultValue(f))
    case Repeated(_) => Items([])
    case Oneof(_) => Member(None)
  }

  /** pb_message_set_to_defaults. */
  function Defaults(d: Desc): seq<Slot>
    decreases d
  {
    seq(|d.fields|, i requires 0 <= i < |d.fields| => DefaultSlot(d.fields[i]))
  }

  // ---------------------------------------------------------------- descriptors a generator may emit

  const MAX_TAG: nat := 0x2000_0000

  /** Field numbers are distinct, not zero and below 2^29; sizes are those of C types. */
  predicate DescOk(d: Desc)
    decreases d
  {
    && (forall i :: 0 <= i < |d.fields| ==> FieldOk(d.fields[i]))
    && (forall i, j :: 0 <= i < j < |d.fields| ==> d.fields[i].tag != d.fields[j].tag)
  }

  predicate FieldOk(f: Field)
    decreases f
  {
    && 0 < f.tag < MAX_TAG && TypeOk(f.ltype)
    && (!f.ltype.MessageType? ==> HasType(f.ltype, f.initial))
    && (f.htype.Singular? && !f.ltype.MessageType? ==> f.initial == ZeroOf(f.ltype))
  }

  predicate TypeOk(t: LType)
    decreases t
  {
    match t
    case VarintType(size) => SizeOk(size)
    case UVarintType(size) => SizeOk(size)
    case SVarintType(size) => SizeOk(size)
    case StringType(size) => 0 < size <= TWO_32
    case MessageType(desc) => DescOk(desc)
    case FixedLengthBytesType(size) => size < TWO_32
    case _ => true
  }

  /** A value whose bytes are all zero. */
  function ZeroOf(t: LType): Datum {
    match t
    case BoolType => Flag(false)
    case BytesType(_) => Octets([])
    case StringType(_) => Octets([])
    case FixedLengthBytesType(size) => Octets(seq(size, i => 0))
    case MessageType(_) => Message([])
    case _ => Number(0)
  }

  // ---------------------------------------------------------------- walking over the descriptors

  /** How many of the first n fields are required. */
  function RequiredBefore(d: Desc, n: nat): nat
    requires n <= |d.fields|
  {
    if n == 0 then 0 else RequiredBefore(d, n - 1) + if d.fields[n - 1].htype.Required? then 1 else 0
  }

  /** pb_field_iter_t: a position that wraps around, and the required fields before it. */
  class FieldIter {
    const desc: Desc
    var pos: nat
    var requiredFieldIndex: nat

    ghost predicate Valid()
      reads this
    {
      (if |desc.fields| == 0 then pos == 0 else pos < |desc.fields|) && requiredFieldIndex == RequiredBefore(desc, pos)
    }

    constructor (desc: Desc)
      ensures Valid() && this.desc == desc && pos == 0
    {
      this.desc := desc;
      pos, requiredFieldIndex := 0, 0;
    }

    /** Steps on; false, and back at the beginning, after the last field. */
    method Next() returns (more: bool)
      requires Valid()
      modifies this
      ensures Valid() && more == (old(pos) + 1 < |desc.fields|) && pos == if more then old(pos) + 1 else 0
    {
      if |desc.fields| == 0 {
        return false;
      }
      var previous := desc.fields[pos];
      pos := pos + 1;
      if pos == |desc.fields| {
        pos, requiredFieldIndex := 0, 0;
        return false;
      }
      if previous.htype.Required? {
        requiredFieldIndex := requiredFieldIndex + 1;
      }
      return true;
    }

    /** Searches once around, from the current position, for a field number. */
    method Find(tag: nat) returns (found: bool)
      requires Valid()
      modifies this
      ensures Valid()
      ensures found ==> pos < |desc.fields| && desc.fields[pos].tag == tag
      ensures !found ==> pos == old(pos) && forall i :: 0 <= i < |desc.fields| ==> desc.fields[i].tag != tag
    {
      if |desc.fields| == 0 {
        return false;
      }
      var start := pos;
      ghost var seen := 0;
      while true
        invariant Valid() && 0 <= seen < |desc.fields| && pos == Around(start, seen, |desc.fields|)
        invariant forall k :: 0 <= k < seen ==> desc.fields[Around(start, k, |desc.fields|)].tag != tag
        decreases |desc.fields| - seen
      {
        if desc.fields[pos].tag == tag {
          return true;
        }
        seen := seen + 1;
        var _ := Next();
        if pos == start {
          AllSeen(desc, tag, start, seen);
          return false;
        }
      }
    }
  }

  /** Where k steps from start lead, around n fields. */
  function Around(start: nat, k: nat, n: nat): nat
    requires start < n
  {
    if start + k < n then start + k else start + k - n
  }

  lemma AllSeen(d: Desc, tag: nat, start: nat, seen: nat)
    requires start < |d.fields| && 0 < seen <= |d.fields| && Around(start, seen, |d.fields|) == start
    requires forall k :: 0 <= k < seen ==>
      0 <= Around(start, k, |d.fields|) < |d.fields| && d.fields[Around(start, k, |d.fields|)].tag != tag
    ensures forall i :: 0 <= i < |d.fields| ==> d.fields[i].tag != tag
  {
    forall i | 0 <= i < |d.fields| ensures d.fields[i].tag != tag {
      var k := if i >= start then i - start else i - start + |d.fields|;
      assert Around(start, k, |d.fields|) == i;
    }
  }
}
