/** The decoder at work: input streams, substreams, the field iterator and the bitmap of required
    fields (nanopb/pb_decode.c).  Every method computes what ProtoDecode says of the bytes ahead. */
module ProtoStreams {
  import opened Wrappers
  import opened Coding
  import opened Messages
  import opened Bits
  import opened ProtoDecode

  class IStream {
    const data: Bytes
    var pos: nat
    var bytesLeft: nat

    ghost predicate Valid()
      reads this
    {
      pos + bytesLeft <= |data|
    }

    ghost function Ahead(): Bytes
      requires Valid()
      reads this
    {
      data[pos..pos + bytesLeft]
    }

    ghost function End(): nat
      reads this
    {
      pos + bytesLeft
    }

    constructor (data: Bytes, pos: nat, bytesLeft: nat)
      requires pos + bytesLeft <= |data|
      ensures Valid() && this.data == data && this.pos == pos && this.bytesLeft == bytesLeft
    {
      this.data, this.pos, this.bytesLeft := data, pos, bytesLeft;
    }

    method ReadByte() returns (ok: bool, byte: Byte)
      requires Valid()
      modifies this
      ensures Valid() && End() == old(End()) && ok == (old(Ahead()) != [])
      ensures ok ==> byte == old(Ahead())[0] && Ahead() == old(Ahead())[1..]
    {
      byte := 0;
      if bytesLeft == 0 {
        return false, 0;
      }
      byte := data[pos];
      pos := pos + 1;
      bytesLeft := bytesLeft - 1;
      ok := true;
    }

    method Read(count: nat) returns (ok: bool, buf: Bytes)
      requires Valid()
      modifies this
      ensures Valid() && End() == old(End())
      ensures var r := Take(old(Ahead()), count); ok == r.Some? && (ok ==> buf == r.value.0 && Ahead() == r.value.1)
    {
      buf := [];
      if count == 0 {
        return true, [];
      }
      if bytesLeft < count {
        return false, [];
      }
      buf := data[pos..pos + count];
      pos := pos + count;
      bytesLeft := bytesLeft - count;
      ok := true;
    }
  }

  // ---------------------------------------------------------------- integers

  lemma FirstByte(s: Bytes)
    ensures s == [] ==> ReadVarint32(s) == None
    ensures s != [] && s[0] < 0x80 ==> ReadVarint32(s) == Some((s[0], s[1..]))
    ensures s != [] && s[0] >= 0x80 ==> ReadVarint32(s) == Varint32From(s[1..], 7, s[0] - 0x80)
  {
    hide Varint32From;
  }

  lemma NextByte(s: Bytes, bitpos: nat, result: nat)
    requires bitpos < 0x100 && result < TWO_32
    ensures s == [] ==> Varint32From(s, bitpos, result) == None
    ensures s != [] && bitpos >= 32 && Overflows(s[0], bitpos, result) ==> Varint32From(s, bitpos, result) == None
    ensures s != [] && !(bitpos >= 32 && Overflows(s[0], bitpos, result)) ==>
      var next := if bitpos >= 32 then result else OrBits(result, s[0], bitpos);
      var after := (bitpos + 7) % 0x100;
      Varint32From(s, bitpos, result) ==
      if s[0] >= 0x80 then Varint32From(s[1..], after, next)
      else if after == 35 && s[0] / 0x10 % 8 != 0 then None
      else Some((next, s[1..]))
  {
    hide OrBits, Overflows;
  }

  /** pb_decode_varint32_eof; eof is set when there was nothing to read at all. */
  method DecodeVarint32(stream: IStream) returns (ok: bool, value: nat, eof: bool)
    requires stream.Valid()
    modifies stream
    ensures stream.Valid() && stream.End() == old(stream.End()) && value < TWO_32
    ensures var r := ReadVarint32(old(stream.Ahead()));
      ok == r.Some? && (ok ==> value == r.value.0 && stream.Ahead() == r.value.1)
    ensures !ok ==> eof == (old(stream.Ahead()) == [])
  {
    hide *;
    FirstByte(stream.Ahead());
    value, eof := 0, false;
    Small();
    var byte;
    ok, byte := stream.ReadByte();
    if !ok {
      return false, 0, true;
    }
    if byte < 0x80 {
      return true, byte, false;
    }
    var bitpos: nat := 7;
    var result: nat := byte - 0x80;
    while true
      invariant stream.Valid() && stream.End() == old(stream.End()) && bitpos < 0x100 && result < TWO_32
      invariant Varint32From(stream.Ahead(), bitpos, result) == ReadVarint32(old(stream.Ahead()))
      decreases |stream.Ahead()|
    {
      NextByte(stream.Ahead(), bitpos, result);
      ok, byte := stream.ReadByte();
      if !ok {
        return;
      }
      if bitpos >= 32 {
        if Overflows(byte, bitpos, result) {
          return false, 0, false;
        }
      } else {
        result := OrBits(result, byte, bitpos);
      }
      bitpos := (bitpos + 7) % 0x100;
      if byte < 0x80 {
        break;
      }
    }
    if bitpos == 35 && byte / 0x10 % 8 != 0 {
      return false, 0, false;
    }
    return true, result, false;
  }

  lemma Small()
    ensures 0x80 < TWO_32
  {
  }

  lemma Varint64Is(s: Bytes)
    ensures var r := VarintAt(s, 0, 10, 1, 0, TWO_64);
      ReadVarint64(s) == if r.Some? then Some((r.value.0, s[r.value.1..])) else None
  {
    hide VarintAt;
  }

  lemma VarintStep(s: Bytes, i: nat, left: nat, weight: nat, acc: nat)
    requires i <= |s|
    ensures left == 0 || i == |s| ==> VarintAt(s, i, left, weight, acc, TWO_64) == None
    ensures left > 0 && i < |s| ==>
      var next := acc + s[i] % 0x80 * weight;
      VarintAt(s, i, left, weight, acc, TWO_64) ==
      if s[i] >= 0x80 then VarintAt(s, i + 1, left - 1, weight * 0x80, next, TWO_64) else Some((next % TWO_64, i + 1))
  {
  }

  lemma AddTruncated(acc: nat, result: nat, more: nat)
    requires result == acc % TWO_64
    ensures (result + more) % TWO_64 == (acc + more) % TWO_64
  {
  }

  /** pb_decode_varint.  The bits or'ed in lie above those of the result, so that they add up. */
  method DecodeVarint(stream: IStream) returns (ok: bool, value: nat)
    requires stream.Valid()
    modifies stream
    ensures stream.Valid() && stream.End() == old(stream.End()) && value < TWO_64
    ensures var r := ReadVarint64(old(stream.Ahead()));
      ok == r.Some? && (ok ==> value == r.value.0 && stream.Ahead() == r.value.1)
  {
    hide ReadVarint64, VarintAt;
    ghost var s := stream.Ahead();
    Varint64Is(s);
    value := 0;
    var left, weight: nat := 10, 1;
    ghost var i, acc: nat := 0, 0;
    while true
      invariant stream.Valid() && stream.End() == old(stream.End()) && i <= |s| && stream.Ahead() == s[i..]
      invariant value == acc % TWO_64 && 0 <= left <= 10
      invariant VarintAt(s, 0, 10, 1, 0, TWO_64) == VarintAt(s, i, left, weight, acc, TWO_64)
      decreases left
    {
      VarintStep(s, i, left, weight, acc);
      if left == 0 {
        return false, 0;
      }
      var byte;
      ok, byte := stream.ReadByte();
      if !ok {
        return false, 0;
      }
      AddTruncated(acc, value, byte % 0x80 * weight);
      value := (value + byte % 0x80 * weight) % TWO_64;
      acc := acc + byte % 0x80 * weight;
      weight := weight * 0x80;
      left := left - 1;
      i := i + 1;
      if byte < 0x80 {
        return true, value;
      }
    }
  }

  lemma SkipStep(s: Bytes)
    ensures SkipVarint(s) == if s == [] then None else if s[0] >= 0x80 then SkipVarint(s[1..]) else Some(s[1..])
  {
  }

  method SkipVarintBytes(stream: IStream) returns (ok: bool)
    requires stream.Valid()
    modifies stream
    ensures stream.Valid() && stream.End() == old(stream.End())
    ensures var r := SkipVarint(old(stream.Ahead())); ok == r.Some? && (ok ==> stream.Ahead() == r.value)
  {
    hide *;
    while true
      invariant stream.Valid() && stream.End() == old(stream.End())
      invariant SkipVarint(stream.Ahead()) == SkipVarint(old(stream.Ahead()))
      decreases |stream.Ahead()|
    {
      SkipStep(stream.Ahead());
      var byte;
      ok, byte := stream.ReadByte();
      if !ok || byte < 0x80 {
        return;
      }
    }
  }

  lemma DelimitedIs(s: Bytes)
    ensures TakeDelimited(s) == (match ReadVarint32(s) case Some((n, rest)) => Take(rest, n) case None => None)
  {
    hide ReadVarint32, Take;
  }

  method SkipString(stream: IStream) returns (ok: bool)
    requires stream.Valid()
    modifies stream
    ensures stream.Valid() && stream.End() == old(stream.End())
    ensures var r := TakeDelimited(old(stream.Ahead())); ok == r.Some? && (ok ==> stream.Ahead() == r.value.1)
  {
    hide *;
    DelimitedIs(stream.Ahead());
    var length, eof, buf;
    ok, length, eof := DecodeVarint32(stream);
    if !ok {
      return;
    }
    ok, buf := stream.Read(length);
  }

  lemma SkipIs(wireType: nat, s: Bytes)
    ensures wireType == 0 ==> SkipField(wireType, s) == SkipVarint(s)
    ensures wireType == 1 ==> SkipField(wireType, s) == Rest(Take(s, 8))
    ensures wireType == WT_STRING ==> SkipField(wireType, s) == Rest(TakeDelimited(s))
    ensures wireType == 5 ==> SkipField(wireType, s) == Rest(Take(s, 4))
    ensures wireType != 0 && wireType != 1 && wireType != WT_STRING && wireType != 5 ==> SkipField(wireType, s) == None
    ensures forall r :: Rest(r) == if r.Some? then Some(r.value.1) else None
  {
    hide SkipVarint, Take, TakeDelimited;
  }

  method SkipUnknown(stream: IStream, wireType: nat) returns (ok: bool)
    requires stream.Valid()
    modifies stream
    ensures stream.Valid() && stream.End() == old(stream.End())
    ensures var r := SkipField(wireType, old(stream.Ahead())); ok == r.Some? && (ok ==> stream.Ahead() == r.value)
  {
    SkipIs(wireType, stream.Ahead());
    hide SkipField, SkipVarint, Take, TakeDelimited, Rest;
    var buf;
    if wireType == 0 {
      ok := SkipVarintBytes(stream);
    } else if wireType == 1 {
      ok, buf := stream.Read(8);
    } else if wireType == WT_STRING {
      ok := SkipString(stream);
    } else if wireType == 5 {
      ok, buf := stream.Read(4);
    } else {
      ok := false;
    }
  }

  lemma TagIs(s: Bytes)
    ensures ReadTag(s) ==
      if s == [] then EndOfMessage else
        match ReadVarint32(s)
        case None => BadTag
        case Some((key, rest)) => if key == 0 then EndOfMessage else TagRead(key / 8, key % 8, rest)
  {
    hide ReadVarint32;
  }

  /** pb_decode_tag: fails with eof at the end of the stream and at a zero. */
  method DecodeTag(stream: IStream) returns (ok: bool, wireType: nat, tag: nat, eof: bool)
    requires stream.Valid()
    modifies stream
    ensures stream.Valid() && stream.End() == old(stream.End())
    ensures match ReadTag(old(stream.Ahead()))
      case BadTag => !ok && !eof
      case EndOfMessage => !ok && eof
      case TagRead(t, w, rest) => ok && tag == t && wireType == w && stream.Ahead() == rest
  {
    hide *;
    TagIs(stream.Ahead());
    wireType, tag := 0, 0;
    var temp;
    ok, temp, eof := DecodeVarint32(stream);
    if !ok {
      return;
    }
    if temp == 0 {
      return false, 0, 0, true;
    }
    return true, temp % 8, temp / 8, false;
  }

  // ---------------------------------------------------------------- substreams

  /** A stream over the bytes that the length ahead announces; the parent is short of them until closed. */
  method MakeSubstream(stream: IStream) returns (ok: bool, substream: IStream)
    requires stream.Valid()
    modifies stream
    ensures fresh(substream) && substream.Valid() && stream.Valid() && stream.End() <= old(stream.End())
    ensures var r := TakeDelimited(old(stream.Ahead()));
      && ok == r.Some?
      && (ok ==> substream.Ahead() == r.value.0 && Follows(stream, substream, r.value.1)
                 && substream.End() + stream.bytesLeft == old(stream.End()))
  {
    hide TakeDelimited, ReadVarint32, Take;
    DelimitedIs(stream.Ahead());
    var size, eof;
    ok, size, eof := DecodeVarint32(stream);
    TakeIs(stream.Ahead(), size);
    if !ok {
      substream := new IStream(stream.data, 0, 0);
      return;
    }
    if stream.bytesLeft < size {
      substream := new IStream(stream.data, 0, 0);
      return false, substream;
    }
    ghost var ahead := stream.Ahead();
    substream := new IStream(stream.data, stream.pos, size);
    stream.bytesLeft := stream.bytesLeft - size;
    assert substream.Ahead() == ahead[..size];
  }

  lemma TakeIs(s: Bytes, n: nat)
    ensures Take(s, n) == if |s| < n then None else Some((s[..n], s[n..]))
  {
  }

  /** Past the substream's end the parent will go on with `rest`. */
  ghost predicate Follows(stream: IStream, substream: IStream, rest: Bytes)
    reads stream, substream
  {
    && stream.data == substream.data && substream.End() + stream.bytesLeft <= |stream.data|
    && rest == stream.data[substream.End()..substream.End() + stream.bytesLeft]
  }

  /** Skips what the substream left, and lets the parent go on behind it. */
  method CloseSubstream(stream: IStream, substream: IStream, ghost rest: Bytes) returns (ok: bool)
    requires stream != substream && substream.Valid() && Follows(stream, substream, rest)
    modifies stream, substream
    ensures ok && stream.Valid() && stream.Ahead() == rest && stream.End() == old(substream.End() + stream.bytesLeft)
  {
    hide Take;
    TakeIs(substream.Ahead(), substream.bytesLeft);
    var buf;
    if substream.bytesLeft > 0 {
      ok, buf := substream.Read(substream.bytesLeft);
      if !ok {
        return;
      }
    }
    stream.pos := substream.pos;
    ok := true;
  }

  // ---------------------------------------------------------------- values

  method DecVarint(stream: IStream, size: nat) returns (ok: bool, n: int)
    requires stream.Valid()
    modifies stream
    ensures stream.Valid() && stream.End() == old(stream.End())
    ensures var r := ReadVarint64(old(stream.Ahead()));
      && ok == (r.Some? && NumberOf(size, r.value.0).Some?)
      && (ok ==> n == NumberOf(size, r.value.0).value && stream.Ahead() == r.value.1)
  {
    hide ReadVarint64, Span, ToSigned;
    n := 0;
    var value;
    ok, value := DecodeVarint(stream);
    if !ok {
      return;
    }
    if !(size == 1 || size == 2 || size == 4 || size == 8) {
      return false, 0;
    }
    SpanOf4();
    var svalue := if size == 8 then ToSigned(value, 8) else ToSigned(value % TWO_32, 4);
    CastOfSigned(value, size);
    var clamped := ToSigned(svalue % Span(size), size);
    if clamped != svalue {
      return false, 0;
    }
    return true, clamped;
  }

  lemma SpanOf4()
    ensures Span(4) == TWO_32 && Span(8) == TWO_64
    ensures forall size :: SizeOk(size) ==> Span(size) > 0
  {
  }

  lemma CastOfSigned(value: nat, size: nat)
    requires value < TWO_64 && SizeOk(size) && Span(8) == TWO_64
    ensures size == 8 ==> ToSigned(ToSigned(value, 8) % Span(8), 8) == ToSigned(value, 8)
  {
  }

  method DecUVarint(stream: IStream, size: nat) returns (ok: bool, n: int)
    requires stream.Valid()
    modifies stream
    ensures stream.Valid() && stream.End() == old(stream.End())
    ensures var r := ReadVarint64(old(stream.Ahead()));
      && ok == (r.Some? && UnsignedOf(size, r.value.0).Some?)
      && (ok ==> n == UnsignedOf(size, r.value.0).value && stream.Ahead() == r.value.1)
  {
    hide ReadVarint64, Span;
    n := 0;
    var value;
    ok, value := DecodeVarint(stream);
    if !ok {
      return;
    }
    if !(size == 1 || size == 2 || size == 4 || size == 8) {
      return false, 0;
    }
    SpanOf4();
    var clamped := value % Span(size);
    if clamped != value {
      return false, 0;
    }
    return true, clamped;
  }

  method DecSVarint(stream: IStream, size: nat) returns (ok: bool, n: int)
    requires stream.Valid()
    modifies stream
    ensures stream.Valid() && stream.End() == old(stream.End())
    ensures var r := ReadVarint64(old(stream.Ahead()));
      && ok == (r.Some? && Cast(size, UnZigZag(r.value.0)).Some?)
      && (ok ==> n == UnZigZag(r.value.0) && stream.Ahead() == r.value.1)
  {
    hide ReadVarint64, Span, ToSigned;
    n := 0;
    var coded;
    ok, coded := DecodeVarint(stream);
    if !ok {
      return;
    }
    var half: int := coded / 2;
    var value: int := if coded % 2 == 1 then -half - 1 else half;
    if !(size == 1 || size == 2 || size == 4 || size == 8) {
      return false, 0;
    }
    SpanOf4();
    var clamped := ToSigned(value % Span(size), size);
    if clamped != value {
      return false, 0;
    }
    return true, clamped;
  }

  method DecFixed(stream: IStream, size: nat) returns (ok: bool, n: nat)
    requires stream.Valid() && (size == 4 || size == 8)
    modifies stream
    ensures stream.Valid() && stream.End() == old(stream.End())
    ensures var r := ReadFixed(old(stream.Ahead()), size);
      ok == r.Some? && (ok ==> Number(n) == r.value.0 && stream.Ahead() == r.value.1)
  {
    FixedIs(stream.Ahead(), size);
    hide *;
    n := 0;
    var bytes;
    ok, bytes := stream.Read(size);
    if ok {
      n := DecodeFixed(bytes);
    }
  }

  lemma FixedIs(s: Bytes, size: nat)
    requires size == 4 || size == 8
    ensures ReadFixed(s, size) ==
            var r := Take(s, size); if r.Some? then Some((Number(DecodeFixed(r.value.0)), r.value.1)) else None
  {
    hide DecodeFixed, Take;
  }

  lemma OctetsAre(s: Bytes, n: nat)
    ensures ReadOctets(s, n) == var r := Take(s, n); if r.Some? then Some((Octets(r.value.0), r.value.1)) else None
  {
    hide Take;
  }

  /** A length no greater than `most`, and so many bytes. */
  method DecBytes(stream: IStream, most: nat) returns (ok: bool, bytes: Bytes)
    requires stream.Valid()
    modifies stream
    ensures stream.Valid() && stream.End() == old(stream.End())
    ensures var r := ReadBytes(old(stream.Ahead()), most);
      ok == r.Some? && (ok ==> Octets(bytes) == r.value.0 && stream.Ahead() == r.value.1)
  {
    BytesAre(stream.Ahead(), most);
    hide *;
    bytes := [];
    var size, eof;
    ok, size, eof := DecodeVarint32(stream);
    if !ok {
      return;
    }
    if size > most {
      return false, [];
    }
    OctetsAre(stream.Ahead(), size);
    ok, bytes := stream.Read(size);
  }

  function ReadBytes(s: Bytes, most: int): Option<(Datum, Bytes)> {
    match ReadVarint32(s)
    case Some((n, rest)) => if n > most then None else ReadOctets(rest, n)
    case None => None
  }

  lemma BytesAre(s: Bytes, most: int)
    ensures ReadBytes(s, most) ==
            match ReadVarint32(s)
            case Some((n, rest)) => if n > most then None else ReadOctets(rest, n)
            case None => None
  {
    hide ReadVarint32, ReadOctets;
  }

  /** Inline bytes: an empty string stands for zeros, any other must have the exact size. */
  method DecFixedLengthBytes(stream: IStream, size: nat) returns (ok: bool, bytes: Bytes)
    requires stream.Valid()
    modifies stream
    ensures stream.Valid() && stream.End() == old(stream.End())
    ensures var r := ReadInline(old(stream.Ahead()), size);
      ok == r.Some? && (ok ==> Octets(bytes) == r.value.0 && stream.Ahead() == r.value.1)
  {
    InlineIs(stream.Ahead(), size);
    hide *;
    bytes := [];
    var n, eof;
    ok, n, eof := DecodeVarint32(stream);
    if !ok {
      return;
    }
    if n == 0 {
      return true, Zeros(size);
    }
    if n != size {
      return false, [];
    }
    OctetsAre(stream.Ahead(), size);
    ok, bytes := stream.Read(size);
  }

  function ReadInline(s: Bytes, size: nat): Option<(Datum, Bytes)> {
    match ReadVarint32(s)
    case Some((n, rest)) =>
      if n == 0 then Some((Octets(Zeros(size)), rest)) else if n != size then None else ReadOctets(rest, n)
    case None => None
  }

  lemma InlineIs(s: Bytes, size: nat)
    ensures ReadInline(s, size) ==
            match ReadVarint32(s)
            case Some((n, rest)) =>
              if n == 0 then Some((Octets(Zeros(size)), rest)) else if n != size then None else ReadOctets(rest, n)
            case None => None
  {
    hide ReadVarint32, ReadOctets;
  }

  /** What a value of each type is read from. */
  lemma ValueIs(t: LType, into: Datum, s: Bytes)
    requires TypeOk(t) && (t.MessageType? ==> HasType(t, into))
    ensures t.BoolType? ==>
      ReadValue(t, into, s) == var r := ReadVarint32(s); if r.Some?
          then Some((Flag(r.value.0 != 0), r.value.1)) else None
    ensures t.VarintType? ==>
      ReadValue(t, into, s) == var r := ReadVarint64(s); if r.Some?
          then AsDatum(NumberOf(t.size, r.value.0), r.value.1) else None
    ensures t.UVarintType? ==>
      ReadValue(t, into, s) == var r := ReadVarint64(s); if r.Some?
          then AsDatum(UnsignedOf(t.size, r.value.0), r.value.1) else None
    ensures t.SVarintType? ==>
      ReadValue(t, into, s) == var r := ReadVarint64(s); if r.Some?
          then AsDatum(Cast(t.size, UnZigZag(r.value.0)), r.value.1) else None
    ensures t.Fixed32Type? ==> ReadValue(t, into, s) == ReadFixed(s, 4)
    ensures t.Fixed64Type? ==> ReadValue(t, into, s) == ReadFixed(s, 8)
    ensures t.BytesType? ==> ReadValue(t, into, s) == ReadBytes(s, t.capacity)
    ensures t.StringType? ==> t.size > 0 && ReadValue(t, into, s) == ReadBytes(s, t.size - 1)
    ensures t.FixedLengthBytesType? ==> ReadValue(t, into, s) == ReadInline(s, t.size)
    ensures t.MessageType? ==>
      && DescOk(t.desc) && into.Message? && StructHasType(t.desc, into.slots)
      && ReadValue(t, into, s) ==
         var r := TakeDelimited(s);
         if r.None? then None else
         var m := ReadMessage(t.desc, into.slots, r.value.0);
         if m.Some? then Some((Message(m.value), r.value.1)) else None
  {
    hide ReadVarint32, ReadVarint64, ReadFixed, ReadOctets, TakeDelimited, ReadMessage, NumberOf, UnsignedOf, Cast,
         UnZigZag;
    hide DescOk, StructHasType, AsDatum;
  }

  lemma DatumIs(n: Option<int>, rest: Bytes)
    ensures AsDatum(n, rest) == if n.Some? then Some((Number(n.value), rest)) else None
  {
  }

  lemma CastIs(size: nat, n: int)
    ensures Cast(size, n).Some? ==> Cast(size, n) == Some(n)
  {
    hide ToSigned, Span;
  }

  /** The decoder that PB_DECODERS holds for the type of a field. */
  method DecodeDatum(stream: IStream, f: Field, into: Datum) returns (ok: bool, v: Datum)
    requires stream.Valid() && FieldOk(f) && TypeOk(f.ltype) && HasType(f.ltype, into)
    requires f.htype.Repeated? ==> into == DefaultValue(f)
    modifies stream
    ensures stream.Valid() && stream.End() <= old(stream.End()) && (ok ==> stream.End() == old(stream.End()))
    ensures var r := ReadValue(f.ltype, into, old(stream.Ahead()));
      ok == r.Some? && (ok ==> v == r.value.0 && stream.Ahead() == r.value.1)
    decreases f, 1
  {
    hide *;
    ghost var s := stream.Ahead();
    ValueIs(f.ltype, into, s);
    v := into;
    match f.ltype
    case BoolType =>
      var u, eof;
      ok, u, eof := DecodeVarint32(stream);
      v := Flag(u != 0);
    case VarintType(size) =>
      ok, v := DecNumber(stream, f.ltype, into);
    case UVarintType(size) =>
      ok, v := DecNumber(stream, f.ltype, into);
    case SVarintType(size) =>
      ok, v := DecNumber(stream, f.ltype, into);
    case Fixed32Type =>
      var n;
      ok, n := DecFixed(stream, 4);
      v := Number(n);
    case Fixed64Type =>
      var n;
      ok, n := DecFixed(stream, 8);
      v := Number(n);
    case BytesType(capacity) =>
      var bytes;
      ok, bytes := DecBytes(stream, capacity);
      v := Octets(bytes);
    case StringType(size) =>
      var bytes;
      ok, bytes := DecBytes(stream, size - 1);
      v := Octets(bytes);
    case FixedLengthBytesType(size) =>
      var bytes;
      ok, bytes := DecFixedLengthBytes(stream, size);
      v := Octets(bytes);
    case MessageType(desc) =>
      ok, v := DecSubmessage(stream, f, into);
  }

  method DecNumber(stream: IStream, t: LType, into: Datum) returns (ok: bool, v: Datum)
    requires stream.Valid() && TypeOk(t) && (t.VarintType? || t.UVarintType? || t.SVarintType?)
    modifies stream
    ensures stream.Valid() && stream.End() <= old(stream.End()) && (ok ==> stream.End() == old(stream.End()))
    ensures var r := ReadValue(t, into, old(stream.Ahead()));
      ok == r.Some? && (ok ==> v == r.value.0 && stream.Ahead() == r.value.1)
  {
    hide *;
    ghost var s := stream.Ahead();
    ghost var r := ReadVarint64(s);
    ValueIs(t, into, s);
    var n;
    match t {
      case VarintType(size) =>
        ok, n := DecVarint(stream, size);
        if r.Some? {
          DatumIs(NumberOf(size, r.value.0), r.value.1);
        }
      case UVarintType(size) =>
        ok, n := DecUVarint(stream, size);
        if r.Some? {
          DatumIs(UnsignedOf(size, r.value.0), r.value.1);
        }
      case SVarintType(size) =>
        ok, n := DecSVarint(stream, size);
        if r.Some? {
          CastIs(size, UnZigZag(r.value.0));
          DatumIs(Cast(size, UnZigZag(r.value.0)), r.value.1);
        }
    }
    v := Number(n);
  }

  /** pb_dec_submessage: an array entry starts from the defaults, anything else is merged. */
  method DecSubmessage(stream: IStream, f: Field, into: Datum) returns (ok: bool, v: Datum)
    requires stream.Valid() && FieldOk(f) && TypeOk(f.ltype) && f.ltype.MessageType? && HasType(f.ltype, into)
    requires f.htype.Repeated? ==> into == DefaultValue(f)
    modifies stream
    ensures stream.Valid() && stream.End() <= old(stream.End()) && (ok ==> stream.End() == old(stream.End()))
    ensures var r := ReadValue(f.ltype, into, old(stream.Ahead()));
      ok == r.Some? && (ok ==> v == r.value.0 && stream.Ahead() == r.value.1)
    decreases f, 0
  {
    hide *;
    ghost var s := stream.Ahead();
    ValueIs(f.ltype, into, s);
    v := into;
    var substream;
    ok, substream := MakeSubstream(stream);
    if !ok {
      return;
    }
    ghost var rest := TakeDelimited(s).value.1;
    FollowsParts(stream, substream, rest);
    var status, slots;
    if f.htype.Repeated? {
      DefaultIsMessage(f);
      DefaultsTyped(f.ltype.desc);
      DecodeIs(f.ltype.desc, substream.Ahead());
      status, slots := Decode(substream, f.ltype.desc);
    } else {
      status, slots := DecodeNoInit(substream, f.ltype.desc, into.slots);
    }
    ghost var behind := stream.data[substream.End()..substream.End() + stream.bytesLeft];
    StillFollows(stream, substream, behind);
    ok := CloseSubstream(stream, substream, behind);
    ok := ok && status;
    v := Message(slots);
  }

  lemma FollowsParts(stream: IStream, substream: IStream, rest: Bytes)
    requires Follows(stream, substream, rest)
    ensures stream.data == substream.data && substream.End() + stream.bytesLeft <= |stream.data|
    ensures rest == stream.data[substream.End()..substream.End() + stream.bytesLeft]
  {
  }

  lemma StillFollows(stream: IStream, substream: IStream, rest: Bytes)
    requires stream.data == substream.data && substream.End() + stream.bytesLeft <= |stream.data|
    requires rest == stream.data[substream.End()..substream.End() + stream.bytesLeft]
    ensures Follows(stream, substream, rest)
  {
  }

  // ---------------------------------------------------------------- defaults

  method SetToDefaultValue(f: Field) returns (value: Datum)
    ensures value == DefaultValue(f)
    decreases f, 0
  {
    hide Defaults;
    value := f.initial;
    if f.ltype.MessageType? {
      var slots := SetToDefaults(f.ltype.desc);
      value := Message(slots);
    }
  }

  method SetToDefault(f: Field) returns (slot: Slot)
    ensures slot == DefaultSlot(f)
    decreases f, 1
  {
    hide DefaultValue;
    match f.htype {
      case Repeated(_) =>
        return Items([]);
      case Oneof(_) =>
        return Member(None);
      case _ =>
    }
    var value := SetToDefaultValue(f);
    slot := if f.htype.Optional? then Maybe(false, value) else Always(value);
  }

  method SetToDefaults(d: Desc) returns (slots: seq<Slot>)
    ensures slots == Defaults(d)
    decreases d
  {
    hide DefaultSlot;
    slots := [];
    if |d.fields| == 0 {
      return;
    }
    var iter := new FieldIter(d);
    var more := true;
    while more
      invariant iter.Valid() && iter.desc == d && |slots| <= |d.fields| && fresh(iter)
      invariant more == (|slots| < |d.fields|) && (more ==> iter.pos == |slots|)
      invariant forall k :: 0 <= k < |slots| ==> slots[k] == DefaultSlot(d.fields[k])
      decreases |d.fields| - |slots|
    {
      var slot := SetToDefault(d.fields[iter.pos]);
      slots := slots + [slot];
      more := iter.Next();
    }
  }

  // ---------------------------------------------------------------- required fields

  const ALL_BITS: nat := 0xFFFF_FFFF

  /** fields_seen: a bit for each required field, in two words of 32. */
  class FieldsSeen {
    var words: array<nat>
    ghost var seen: set<nat>

    ghost predicate Valid()
      reads this, words
    {
      && words.Length == 2 && words[0] < Pow2(32) && words[1] < Pow2(32)
      && (forall k :: 0 <= k < 32 ==> Bit(words[0], k) == (k in seen))
      && (forall k :: 0 <= k < 32 ==> Bit(words[1], k) == (k + 32 in seen))
    }

    constructor ()
      ensures Valid() && fresh(words) && seen == {}
    {
      words := new nat[2](i => 0);
      seen := {};
      new;
      hide Pow2;
      Pow2Of32();
      forall k: nat ensures !Bit(0, k) {
        NoBits(k);
      }
    }

    method Mark(index: nat)
      requires Valid() && index < MAX_REQUIRED_FIELDS
      modifies this, words
      ensures Valid() && words == old(words) && seen == old(seen) + {index}
    {
      hide Or, Pow2, Bit;
      var tmp := Pow2(index % 32);
      BelowWord(index % 32);
      ghost var before := words[..];
      OrBelow(words[index / 32], tmp, 32);
      words[index / 32] := Or(words[index / 32], tmp);
      seen := seen + {index};
      forall k: nat ensures Bit(Or(before[index / 32], tmp), k) == (Bit(before[index / 32], k) || k == index % 32) {
        OrBit(before[index / 32], tmp, k);
        Pow2Bit(index % 32, k);
      }
    }

    /** Whole words first, then the bits that remain. */
    method AllSeen(count: nat) returns (ok: bool)
      requires Valid() && count <= MAX_REQUIRED_FIELDS && forall k :: k in seen ==> k < count
      ensures ok == forall k :: 0 <= k < count ==> k in seen
    {
      hide Or, Pow2, Bit;
      Pow2Of32();
      for i := 0 to count / 32
        invariant forall k :: 0 <= k < 32 * i ==> k in seen
      {
        OnesAre(words[i], 32, 32);
        if words[i] != ALL_BITS {
          Missing(words[i], 32);
          ghost var k :| 0 <= k < 32 && !Bit(words[i], k);
          assert k + 32 * i !in seen;
          return false;
        }
        AllBits(words[i], 32);
        forall k | 32 * i <= k < 32 * i + 32 ensures k in seen {
          assert Bit(words[i], k - 32 * i);
        }
      }
      var left := count % 32;
      if left != 0 {
        OnesAre(words[count / 32], left, 32);
        LowOnes(left);
        if words[count / 32] != ALL_BITS / Pow2(32 - left) {
          Missing(words[count / 32], left);
          ghost var k :| 0 <= k < left && !Bit(words[count / 32], k);
          assert k + 32 * (count / 32) !in seen;
          return false;
        }
        AllBits(words[count / 32], left);
        forall k | 32 * (count / 32) <= k < count ensures k in seen {
          assert Bit(words[count / 32], k - 32 * (count / 32));
        }
      }
      ok := true;
    }
  }

  lemma BelowWord(n: nat)
    requires n < 32
    ensures Pow2(n) < Pow2(32)
  {
    Pow2Grows(n, 31);
    Pow2Of32();
  }

  lemma Missing(w: nat, n: nat)
    requires !AllSet(w, n)
    ensures exists k :: 0 <= k < n && !Bit(w, k)
  {
  }

  lemma AllBits(w: nat, n: nat)
    requires AllSet(w, n)
    ensures forall k :: 0 <= k < n ==> Bit(w, k)
  {
  }

  lemma {:induction false} PowersMultiply(a: nat, b: nat)
    ensures Pow2(a + b) == Pow2(a) * Pow2(b)
    decreases a
  {
    if a > 0 {
      PowersMultiply(a - 1, b);
      assert Pow2(a + b) == 2 * (Pow2(a - 1) * Pow2(b)) == 2 * Pow2(a - 1) * Pow2(b);
    }
  }

  /** All ones shifted right. */
  lemma LowOnes(n: nat)
    requires n < 32
    ensures Pow2(32 - n) >= 1 && ALL_BITS / Pow2(32 - n) == Pow2(n) - 1
  {
    hide Pow2;
    Pow2Of32();
    PowersMultiply(n, 32 - n);
    Pow2Grows(0, 32 - n);
    Pow2Grows(0, n);
    QuotientOf(Pow2(n), Pow2(32 - n));
  }

  lemma QuotientOf(a: nat, b: nat)
    requires a >= 1 && b >= 1
    ensures (a * b - 1) / b == a - 1
  {
    assert a * b - 1 == (a - 1) * b + (b - 1);
    RemainderFits(a * b - 1, b, a - 1, b - 1);
  }

  lemma RemainderFits(x: int, b: nat, q: int, r: nat)
    requires b > 0 && x == q * b + r && r < b
    ensures x / b == q
  {
    var e, m := x / b, x % b;
    assert x == e * b + m;
    SmallMultiple(e - q, b, r - m);
  }

  lemma SmallMultiple(t: int, b: int, difference: int)
    requires b > 0 && t * b == difference && 0 - b < difference < b
    ensures t == 0
  {
  }

  // ---------------------------------------------------------------- fields

  lemma PackedIs(f: Field, items: seq<Datum>, s: Bytes)
    requires FieldOk(f) && f.htype.Repeated? && Packable(f.ltype) && SlotHasType(f, Items(items)) && TypeOk(f.ltype)
    ensures s == [] ==> ReadPacked(f, items, s) == Some(items)
    ensures s != [] && |items| >= f.htype.arraySize ==> ReadPacked(f, items, s) == None
    ensures s != [] && |items| < f.htype.arraySize ==>
      var r := ReadValue(f.ltype, f.initial, s);
      && (r.None? ==> ReadPacked(f, items, s) == None)
      && (r.Some? ==> SlotHasType(f, Items(items + [r.value.0]))
                      && ReadPacked(f, items, s) == ReadPacked(f, items + [r.value.0], r.value.1))
  {
    hide FieldOk, ReadValue, HasType;
  }

  lemma PackableInto(f: Field)
    requires FieldOk(f) && Packable(f.ltype)
    ensures TypeOk(f.ltype) && HasType(f.ltype, f.initial) && DefaultValue(f) == f.initial
  {
    hide HasType;
  }

  /** The items of a packed array, while the array has room. */
  method DecodePacked(stream: IStream, f: Field, start: seq<Datum>) returns (ok: bool, items: seq<Datum>)
    requires stream.Valid() && FieldOk(f) && f.htype.Repeated? && Packable(f.ltype) && SlotHasType(f, Items(start))
    modifies stream
    ensures stream.Valid() && stream.End() <= old(stream.End()) && (ok ==> stream.End() == old(stream.End()))
    ensures var r := ReadPacked(f, start, old(stream.Ahead())); ok == r.Some? && (ok ==> items == r.value)
    decreases f, 2
  {
    hide *;
    PackableInto(f);
    items := start;
    var status := true;
    AheadLength(stream);
    while stream.bytesLeft > 0 && |items| < f.htype.arraySize
      invariant stream.Valid() && stream.End() == old(stream.End()) && SlotHasType(f, Items(items)) && status
      invariant ReadPacked(f, items, stream.Ahead()) == ReadPacked(f, start, old(stream.Ahead()))
      invariant stream.bytesLeft == |stream.Ahead()|
      decreases |stream.Ahead()|
    {
      PackedIs(f, items, stream.Ahead());
      var v;
      status, v := DecodeDatum(stream, f, f.initial);
      if !status {
        return false, items;
      }
      AheadLength(stream);
      items := items + [v];
    }
    PackedIs(f, items, stream.Ahead());
    ok := stream.bytesLeft == 0;
  }

  lemma AheadLength(stream: IStream)
    requires stream.Valid()
    ensures |stream.Ahead()| == stream.bytesLeft
  {
  }

  lemma FieldIs(f: Field, slot: Slot, wireType: nat, s: Bytes)
    requires FieldOk(f) && SlotHasType(f, slot)
    ensures TypeOk(f.ltype) && (f.htype.Repeated? ==> slot.Items?)
    ensures f.htype.Repeated? && wireType == WT_STRING && Packable(f.ltype) ==>
      var r := TakeDelimited(s);
      && (r.None? ==> ReadField(f, slot, wireType, s) == None)
      && (r.Some? ==> var m := ReadPacked(f, slot.items, r.value.0);
                      ReadField(f, slot, wireType, s) == if m.Some? then Some((Items(m.value), r.value.1)) else None)
    ensures f.htype.Repeated? && !(wireType == WT_STRING && Packable(f.ltype)) && |slot.items| >= f.htype.arraySize ==>
      ReadField(f, slot, wireType, s) == None
    ensures !(f.htype.Repeated? && ((wireType == WT_STRING && Packable(f.ltype))
            || |slot.items| >= f.htype.arraySize)) ==>
      && (f.ltype.MessageType? ==> HasType(f.ltype, Into(f, slot)))
      && var r := ReadValue(f.ltype, Into(f, slot), s);
         ReadField(f, slot, wireType, s) == if r.Some? then Some((Filled(f, slot, r.value.0), r.value.1)) else None
  {
    hide ReadValue, ReadPacked, TakeDelimited, Into, HasType, Packable, Filled;
  }

  /** decode_static_field on what the field holds so far. */
  method DecodeField(stream: IStream, f: Field, slot: Slot, wireType: nat) returns (ok: bool, r: Slot)
    requires stream.Valid() && FieldOk(f) && SlotHasType(f, slot)
    modifies stream
    ensures stream.Valid() && stream.End() <= old(stream.End()) && (ok ==> stream.End() == old(stream.End()))
    ensures var x := ReadField(f, slot, wireType, old(stream.Ahead()));
      ok == x.Some? && (ok ==> r == x.value.0 && stream.Ahead() == x.value.1)
    decreases f, 4
  {
    hide *;
    ghost var s := stream.Ahead();
    FieldIs(f, slot, wireType, s);
    r := slot;
    if f.htype.Repeated? {
      if wireType == WT_STRING && Packable(f.ltype) {
        ok, r := DecodePackedField(stream, f, slot);
        return;
      }
      if |slot.items| >= f.htype.arraySize {
        return false, slot;
      }
    }
    ok, r := DecodeSingle(stream, f, slot);
  }

  method DecodePackedField(stream: IStream, f: Field, slot: Slot) returns (ok: bool, r: Slot)
    requires stream.Valid() && FieldOk(f) && f.htype.Repeated? && Packable(f.ltype) && SlotHasType(f, slot)
    modifies stream
    ensures stream.Valid() && stream.End() <= old(stream.End()) && (ok ==> stream.End() == old(stream.End()))
    ensures var x := ReadField(f, slot, WT_STRING, old(stream.Ahead()));
      ok == x.Some? && (ok ==> r == x.value.0 && stream.Ahead() == x.value.1)
    decreases f, 3
  {
    hide *;
    ghost var s := stream.Ahead();
    FieldIs(f, slot, WT_STRING, s);
    ItemsAre(f, slot);
    r := slot;
    var substream;
    ok, substream := MakeSubstream(stream);
    if !ok {
      return;
    }
    ghost var rest := TakeDelimited(s).value.1;
    FollowsParts(stream, substream, rest);
    var status, items := DecodePacked(substream, f, slot.items);
    if !status {
      return false, slot;
    }
    StillFollows(stream, substream, rest);
    ok := CloseSubstream(stream, substream, rest);
    return ok, Items(items);
  }

  lemma ItemsAre(f: Field, slot: Slot)
    requires f.htype.Repeated? && SlotHasType(f, slot)
    ensures slot.Items? && slot == Items(slot.items)
  {
    hide HasType;
  }

  lemma TypedInto(f: Field, slot: Slot)
    requires FieldOk(f) && SlotHasType(f, slot)
    ensures HasType(f.ltype, Into(f, slot))
    ensures f.htype.Required? || f.htype.Singular? ==> slot.Always? && Into(f, slot) == slot.value
    ensures f.htype.Optional? ==> slot.Maybe? && Into(f, slot) == slot.value
    ensures f.htype.Repeated? ==> slot.Items? && Into(f, slot) == DefaultValue(f)
    ensures f.htype.Oneof? ==>
      slot.Member? && Into(f, slot) == if slot.chosen.Some? then slot.chosen.value else DefaultValue(f)
  {
    hide HasType, FieldOk;
    DefaultTyped(f);
  }

  lemma FilledIs(f: Field, slot: Slot, v: Datum)
    requires SlotHasType(f, slot) && HasType(f.ltype, v)
    ensures f.htype.Required? || f.htype.Singular? ==> Filled(f, slot, v) == Always(v)
    ensures f.htype.Optional? ==> Filled(f, slot, v) == Maybe(true, v)
    ensures f.htype.Repeated? ==> slot.Items? && Filled(f, slot, v) == Items(slot.items + [v])
    ensures f.htype.Oneof? ==> Filled(f, slot, v) == Member(Some(v))
  {
    hide HasType;
  }

  /** One value into the field: sets the flag, adds to the array, or chooses the union member. */
  method DecodeSingle(stream: IStream, f: Field, slot: Slot) returns (ok: bool, r: Slot)
    requires stream.Valid() && FieldOk(f) && TypeOk(f.ltype) && SlotHasType(f, slot)
    requires f.ltype.MessageType? ==> HasType(f.ltype, Into(f, slot))
    modifies stream
    ensures stream.Valid() && stream.End() <= old(stream.End()) && (ok ==> stream.End() == old(stream.End()))
    ensures var x := ReadValue(f.ltype, Into(f, slot), old(stream.Ahead()));
      ok == x.Some? && (ok ==> r == Filled(f, slot, x.value.0) && stream.Ahead() == x.value.1)
    decreases f, 3
  {
    hide *;
    ghost var s := stream.Ahead();
    TypedInto(f, slot);
    var into: Datum, v: Datum := f.initial, f.initial;
    match f.htype {
      case Required =>
        into := slot.value;
      case Optional =>
        into := slot.value;
      case Singular =>
        into := slot.value;
      case Repeated(_) =>
        into := SetToDefaultValue(f);
      case Oneof(_) =>
        if slot.chosen.Some? {
          into := slot.chosen.value;
        } else {
          into := SetToDefaultValue(f);
        }
    }
    ok, v := DecodeDatum(stream, f, into);
    r := slot;
    if !ok {
      return;
    }
    FilledIs(f, slot, v);
    match f.htype {
      case Required =>
        r := Always(v);
      case Optional =>
        r := Maybe(true, v);
      case Singular =>
        r := Always(v);
      case Repeated(_) =>
        r := Items(slot.items + [v]);
      case Oneof(_) =>
        r := Member(Some(v));
    }
  }

  // ---------------------------------------------------------------- messages

  lemma RecordsAre(d: Desc, dest: seq<Slot>, seen: set<nat>, s: Bytes)
    requires DescOk(d) && StructHasType(d, dest)
    ensures ReadTag(s).BadTag? ==> ReadRecords(d, dest, seen, s) == None
    ensures ReadTag(s).EndOfMessage? ==> ReadRecords(d, dest, seen, s) == Some((dest, seen))
    ensures ReadTag(s).TagRead? && FindField(d, ReadTag(s).tag, 0).None? ==>
      var r := SkipField(ReadTag(s).wireType, ReadTag(s).rest);
      ReadRecords(d, dest, seen, s) == if r.Some? then ReadRecords(d, dest, seen, r.value) else None
  {
    hide ReadTag, FindField, ReadField, Stored, Marked, SkipField, DescOk, StructHasType;
  }

  lemma KnownRecord(d: Desc, dest: seq<Slot>, seen: set<nat>, s: Bytes, i: nat)
    requires DescOk(d) && StructHasType(d, dest) && ReadTag(s).TagRead? && i < |d.fields| == |dest|
    requires FieldOk(d.fields[i]) && SlotHasType(d.fields[i], dest[i])
    requires d.fields[i].tag == ReadTag(s).tag && FindField(d, d.fields[i].tag, 0) == Some(i)
    ensures var r := ReadField(d.fields[i], dest[i], ReadTag(s).wireType, ReadTag(s).rest);
      ReadRecords(d, dest, seen, s) ==
      if r.Some? then ReadRecords(d, Stored(d, dest, i, r.value.0), Marked(d, seen, i), r.value.1) else None
  {
    hide ReadTag, FindField, ReadField, Stored, Marked, SkipField, DescOk, StructHasType, FieldOk, SlotHasType;
  }

  lemma NotFound(d: Desc, tag: nat)
    requires forall i :: 0 <= i < |d.fields| ==> d.fields[i].tag != tag
    ensures FindField(d, tag, 0) == None
  {
  }

  lemma MarkedIs(d: Desc, seen: set<nat>, i: nat)
    requires i < |d.fields|
    ensures Marked(d, seen, i) ==
            if d.fields[i].htype.Required? && RequiredBefore(d, i) < MAX_REQUIRED_FIELDS then seen
                + {RequiredBefore(d, i)} else seen
    ensures d.fields[i].htype.Required? ==> RequiredBefore(d, i) < RequiredBefore(d, |d.fields|)
  {
    hide RequiredBefore;
    RequiredGrows(d, i, |d.fields|);
  }

  lemma IterAt(iter: FieldIter)
    requires iter.Valid()
    ensures iter.pos <= |iter.desc.fields| && iter.requiredFieldIndex == RequiredBefore(iter.desc, iter.pos)
    ensures |iter.desc.fields| > 0 ==> iter.pos < |iter.desc.fields|
  {
  }

  ghost predicate Tracked(d: Desc, seen: set<nat>) {
    forall k :: k in seen ==> k < RequiredBefore(d, |d.fields|) && k < MAX_REQUIRED_FIELDS
  }

  lemma StillTracked(d: Desc, seen: set<nat>, i: nat)
    requires i < |d.fields| && Tracked(d, seen)
    ensures Tracked(d, Marked(d, seen, i))
  {
    hide RequiredBefore, Marked;
    MarkedIs(d, seen, i);
  }

  lemma NoneTracked(d: Desc)
    ensures Tracked(d, {})
  {
  }

  /** The records of a message, one after the other. */
  method DecodeRecords(stream: IStream, d: Desc, dest: seq<Slot>, seen: FieldsSeen, iter: FieldIter)
    returns (ok: bool, slots: seq<Slot>)
    requires stream.Valid() && DescOk(d) && StructHasType(d, dest) && seen.Valid() && seen.seen == {}
    requires iter.Valid() && iter.desc == d
    modifies stream, seen, seen.words, iter
    ensures stream.Valid() && stream.End() <= old(stream.End()) && (ok ==> stream.End() == old(stream.End()))
    ensures seen.Valid() && iter.Valid()
    ensures var r := ReadRecords(d, dest, {}, old(stream.Ahead()));
      ok == r.Some? && (ok ==> slots == r.value.0 && seen.seen == r.value.1 && Tracked(d, seen.seen))
    decreases d, 1
  {
    hide *;
    slots := dest;
    ok := true;
    NoneTracked(d);
    AheadLength(stream);
    while stream.bytesLeft > 0
      invariant stream.Valid() && stream.End() == old(stream.End()) && seen.Valid() && iter.Valid() && ok
      invariant seen.words == old(seen.words)
      invariant StructHasType(d, slots) && Tracked(d, seen.seen) && stream.bytesLeft == |stream.Ahead()|
      invariant ReadRecords(d, slots, seen.seen, stream.Ahead()) == ReadRecords(d, dest, {}, old(stream.Ahead()))
      decreases |stream.Ahead()|
    {
      ghost var s := stream.Ahead();
      RecordsAre(d, slots, seen.seen, s);
      var wireType, tag, eof;
      ok, wireType, tag, eof := DecodeTag(stream);
      if !ok {
        ok := eof;
        return;
      }
      var found := iter.Find(tag);
      if !found {
        NotFound(d, tag);
        ok := SkipUnknown(stream, wireType);
        if !ok {
          return;
        }
        AheadLength(stream);
        continue;
      }
      ok, slots := DecodeKnown(stream, d, slots, seen, iter, s, wireType);
      if !ok {
        return;
      }
      AheadLength(stream);
    }
    RecordsAre(d, slots, seen.seen, stream.Ahead());
    EmptyEnds(stream.Ahead());
  }

  lemma EmptyEnds(s: Bytes)
    requires |s| == 0
    ensures ReadTag(s).EndOfMessage?
  {
  }

  /** A record whose field the iterator has found: notes a required field, then decodes it. */
  method DecodeKnown(stream: IStream, d: Desc, dest: seq<Slot>, seen: FieldsSeen, iter: FieldIter, ghost s: Bytes,
                     wireType: nat)
    returns (ok: bool, slots: seq<Slot>)
    requires stream.Valid() && DescOk(d) && StructHasType(d, dest) && seen.Valid() && Tracked(d, seen.seen)
    requires iter.Valid() && iter.desc == d && iter.pos < |d.fields|
    requires ReadTag(s) == TagRead(d.fields[iter.pos].tag, wireType, stream.Ahead())
    modifies stream, seen, seen.words
    ensures stream.Valid() && stream.End() <= old(stream.End()) && (ok ==> stream.End() == old(stream.End()))
    ensures seen.Valid() && seen.words == old(seen.words)
    ensures ok ==> StructHasType(d, slots) && Tracked(d, seen.seen) && |stream.Ahead()| <= old(|stream.Ahead()|)
    ensures !ok ==> ReadRecords(d, dest, old(seen.seen), s) == None
    ensures ok ==> ReadRecords(d, dest, old(seen.seen), s) == ReadRecords(d, slots, seen.seen, stream.Ahead())
    decreases d, 0
  {
    hide *;
    var i := iter.pos;
    var f := d.fields[i];
    FieldIsOk(d, i);
    SlotIsTyped(d, dest, i);
    FindsFrom(d, i, 0);
    KnownRecord(d, dest, seen.seen, s, i);
    MarkedIs(d, seen.seen, i);
    StillTracked(d, seen.seen, i);
    IterAt(iter);
    if f.htype.Required? {
      if iter.requiredFieldIndex < MAX_REQUIRED_FIELDS {
        seen.Mark(iter.requiredFieldIndex);
      }
    }
    var slot;
    ok, slot := DecodeField(stream, f, dest[i], wireType);
    slots := dest;
    if ok {
      slots := Stored(d, dest, i, slot);
    }
  }

  /** How many required fields there are, found by walking to the last field. */
  method CountRequired(iter: FieldIter) returns (count: nat)
    requires iter.Valid()
    modifies iter
    ensures iter.Valid() && count == RequiredBefore(iter.desc, |iter.desc.fields|)
  {
    var d := iter.desc;
    if |d.fields| == 0 {
      return 0;
    }
    var last := d.fields[iter.pos];
    count := iter.requiredFieldIndex;
    var more := iter.Next();
    ghost var at := old(iter.pos);
    while more
      invariant iter.Valid() && at < |d.fields| && more == (at + 1 < |d.fields|) && (more ==> iter.pos == at + 1)
      invariant count == RequiredBefore(d, at) && last == d.fields[at]
      decreases |d.fields| - at
    {
      count := iter.requiredFieldIndex;
      last := d.fields[iter.pos];
      at := iter.pos;
      more := iter.Next();
    }
    if last.htype.Required? {
      count := count + 1;
    }
  }

  lemma RequiredAre(d: Desc, seen: set<nat>, count: nat)
    requires Tracked(d, seen)
    requires count == if RequiredBefore(d, |d.fields|) > MAX_REQUIRED_FIELDS
             then MAX_REQUIRED_FIELDS else RequiredBefore(d, |d.fields|)
    ensures forall k :: k in seen ==> k < count
    ensures AllRequired(d, seen) == forall k :: 0 <= k < count ==> k in seen
  {
    hide RequiredBefore;
  }

  /** pb_decode_noinit. */
  method DecodeNoInit(stream: IStream, d: Desc, dest: seq<Slot>) returns (ok: bool, slots: seq<Slot>)
    requires stream.Valid() && DescOk(d) && StructHasType(d, dest)
    modifies stream
    ensures stream.Valid() && stream.End() <= old(stream.End()) && (ok ==> stream.End() == old(stream.End()))
    ensures var r := ReadMessage(d, dest, old(stream.Ahead())); ok == r.Some? && (ok ==> slots == r.value)
    decreases d, 2
  {
    hide *;
    ReadMessageIs(d, dest, stream.Ahead());
    var seen := new FieldsSeen();
    var iter := new FieldIter(d);
    ok, slots := DecodeRecords(stream, d, dest, seen, iter);
    if !ok {
      return;
    }
    var required := CountRequired(iter);
    Limit();
    var count := if required > 64 then 64 else required;
    RequiredAre(d, seen.seen, count);
    ok := seen.AllSeen(count);
  }

  lemma Limit()
    ensures MAX_REQUIRED_FIELDS == 64
  {
  }

  /** pb_decode. */
  method Decode(stream: IStream, d: Desc) returns (ok: bool, slots: seq<Slot>)
    requires stream.Valid() && DescOk(d)
    modifies stream
    ensures stream.Valid() && stream.End() <= old(stream.End()) && (ok ==> stream.End() == old(stream.End()))
    ensures var r := DecodeMessage(d, old(stream.Ahead())); ok == r.Some? && (ok ==> slots == r.value)
    decreases d, 3
  {
    hide *;
    DefaultsTyped(d);
    DecodeIs(d, stream.Ahead());
    var defaults := SetToDefaults(d);
    ok, slots := DecodeNoInit(stream, d, defaults);
  }
}
