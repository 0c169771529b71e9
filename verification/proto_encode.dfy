/** The encoder: streams that write or only count, and the two passes over submessages
    (nanopb/pb_encode.c). */
module ProtoEncode {
  import opened Wrappers
  import opened Coding
  import opened Messages

  /** What an output stream holds; a sizing stream has no callback and only counts. */
  datatype Sink = Sink(sizing: bool, maxSize: nat, written: nat, output: Bytes)

  predicate SinkOk(s: Sink) {
    s.sizing || s.written <= s.maxSize
  }

  predicate Room(s: Sink, n: nat) {
    s.sizing || s.written + n <= s.maxSize
  }

  /** The bytes went out if and only if the data is fit to be encoded and there was room for all of
      them; whatever happened, the count is exact and no byte went beyond max_size. */
  ghost predicate Sent(a: Sink, b: Sink, bytes: Bytes, fit: bool, ok: bool) {
    && b.sizing == a.sizing && b.maxSize == a.maxSize && SinkOk(b)
    && ok == (fit && Room(a, |bytes|))
    && a.output <= b.output && a.written <= b.written
    && |b.output| - |a.output| == (if a.sizing then 0 else b.written - a.written)
    && (ok ==> b.written == a.written + |bytes| && (!a.sizing ==> b.output == a.output + bytes))
  }

  lemma SentThen(a: Sink, b: Sink, c: Sink, x: Bytes, y: Bytes, fitX: bool, fitY: bool, ok: bool)
    requires Sent(a, b, x, fitX, true) && Sent(b, c, y, fitY, ok)
    ensures Sent(a, c, x + y, fitX && fitY, ok)
  {
  }

  lemma SentNot(a: Sink, b: Sink, x: Bytes, y: Bytes, fitX: bool, fitY: bool)
    requires Sent(a, b, x, fitX, false)
    ensures Sent(a, b, x + y, fitX && fitY, false)
  {
  }

  lemma SentNothing(a: Sink, fit: bool)
    requires SinkOk(a)
    ensures Sent(a, a, [], fit, fit)
  {
  }

  lemma Refused(a: Sink, x: Bytes)
    requires SinkOk(a)
    ensures Sent(a, a, x, false, false)
  {
  }

  lemma SentOk(a: Sink, b: Sink, x: Bytes, fit: bool, ok: bool)
    requires Sent(a, b, x, fit, ok)
    ensures SinkOk(b) && b.sizing == a.sizing && b.maxSize == a.maxSize
    ensures ok ==> fit && b.written == a.written + |x|
  {
  }

  lemma AllFit(a: Sink, b: Sink, x: Bytes, fit: bool, ok: bool)
    requires Sent(a, b, x, fit, ok)
    ensures a.sizing ==> ok == fit
  {
  }

  class OStream {
    const sizing: bool
    const maxSize: nat
    var written: nat
    var output: Bytes

    ghost function Now(): Sink
      reads this
    {
      Sink(sizing, maxSize, written, output)
    }

    /** PB_OSTREAM_SIZING. */
    constructor Sizing()
      ensures Now() == Sink(true, 0, 0, [])
    {
      sizing, maxSize, written, output := true, 0, 0, [];
    }

    /** A stream whose callback appends to what `output` already holds. */
    constructor Bounded(maxSize: nat, output: Bytes)
      ensures Now() == Sink(false, maxSize, 0, output)
    {
      sizing, written := false, 0;
      this.maxSize, this.output := maxSize, output;
    }

    method Write(buf: Bytes) returns (ok: bool)
      requires SinkOk(Now())
      modifies this
      ensures Sent(old(Now()), Now(), buf, true, ok)
    {
      if |buf| > 0 && !sizing {
        if written + |buf| > maxSize {
          return false;
        }
        output := output + buf;
      }
      written := written + |buf|;
      ok := true;
    }

    /** Writing so many bytes to a stream that only counts. */
    method Count(size: nat)
      requires sizing
      modifies this
      ensures Now() == old(Now()).(written := old(written) + size)
    {
      written := written + size;
    }
  }

  lemma Counted(a: Sink, b: Sink, x: Bytes)
    requires a.sizing && b == a.(written := a.written + |x|)
    ensures Sent(a, b, x, true, true)
  {
  }

  // ---------------------------------------------------------------- integers

  /** Groups of seven bits, all marked as continued. */
  function Groups(v: nat): Bytes {
    if v == 0 then [] else [v % 0x80 + 0x80] + Groups(v / 0x80)
  }

  lemma {:induction false} LastGroupEnds(v: nat)
    requires v > 0
    ensures var g := Groups(v); |g| > 0 && g[|g| - 1] >= 0x80 && Varint(v) == g[..|g| - 1] + [g[|g| - 1] - 0x80]
  {
    if v >= 0x80 {
      LastGroupEnds(v / 0x80);
      var g, h := Groups(v), Groups(v / 0x80);
      assert g == [v % 0x80 + 0x80] + h && g[..|g| - 1] == [v % 0x80 + 0x80] + h[..|h| - 1];
    } else {
      assert Groups(v / 0x80) == [];
    }
  }

  method EncodeVarint(stream: OStream, value: nat) returns (ok: bool)
    requires SinkOk(stream.Now())
    modifies stream
    ensures Sent(old(stream.Now()), stream.Now(), Varint(value), true, ok)
  {
    hide Sent, SinkOk;
    if value <= 0x7F {
      ok := stream.Write([value]);
      return;
    }
    var buffer: Bytes := [];
    var rest := value;
    while rest > 0
      invariant buffer + Groups(rest) == Groups(value)
    {
      assert buffer + Groups(rest) == buffer + [rest % 0x80 + 0x80] + Groups(rest / 0x80);
      buffer := buffer + [rest % 0x80 + 0x80];
      rest := rest / 0x80;
    }
    LastGroupEnds(value);
    buffer := buffer[|buffer| - 1 := buffer[|buffer| - 1] - 0x80];
    assert buffer == Varint(value);
    ok := stream.Write(buffer);
  }

  /** The cast to a 64-bit pattern, a shift and a complement: the zigzag code of every 64-bit value. */
  method EncodeSVarint(stream: OStream, value: int) returns (ok: bool)
    requires SinkOk(stream.Now()) && 0 - TWO_64 / 2 <= value < TWO_64 / 2
    modifies stream
    ensures Sent(old(stream.Now()), stream.Now(), Varint(ZigZag(value)), true, ok)
  {
    hide Sent, SinkOk, Varint;
    var shifted := value % TWO_64 * 2 % TWO_64;
    var zigzagged := if value < 0 then TWO_64 - 1 - shifted else shifted;
    ok := EncodeVarint(stream, zigzagged);
  }

  method EncodeFixed32(stream: OStream, value: nat) returns (ok: bool)
    requires SinkOk(stream.Now())
    modifies stream
    ensures Sent(old(stream.Now()), stream.Now(), Fixed(value, 4), true, ok)
  {
    Fixed32Is(value);
    hide *;
    var bytes := [value % 0x100, value / 0x100 % 0x100, value / 0x1_0000 % 0x100, value / 0x100_0000 % 0x100];
    ok := stream.Write(bytes);
  }

  method EncodeFixed64(stream: OStream, value: nat) returns (ok: bool)
    requires SinkOk(stream.Now())
    modifies stream
    ensures Sent(old(stream.Now()), stream.Now(), Fixed(value, 8), true, ok)
  {
    Fixed64Is(value);
    hide Fixed, Sent, SinkOk;
    var bytes := [
      value % 0x100, value / 0x100 % 0x100, value / 0x1_0000 % 0x100, value / 0x100_0000 % 0x100,
      value / TWO_32 % 0x100, value / (TWO_32 * 0x100) % 0x100,
      value / (TWO_32 * 0x1_0000) % 0x100, value / (TWO_32 * 0x100_0000) % 0x100];
    ok := stream.Write(bytes);
  }

  lemma Fixed32Is(v: nat)
    ensures Fixed(v, 4) == [v % 0x100, v / 0x100 % 0x100, v / 0x1_0000 % 0x100, v / 0x100_0000 % 0x100]
  {
    FixedUnfolds(v, 4);
    FixedUnfolds(v / 0x100, 3);
    FixedUnfolds(v / 0x100 / 0x100, 2);
    FixedUnfolds(v / 0x100 / 0x100 / 0x100, 1);
    hide Fixed;
    assert v / 0x100 / 0x100 == v / 0x1_0000 && v / 0x1_0000 / 0x100 == v / 0x100_0000;
    FixedNone(v / 0x100_0000 / 0x100);
  }

  lemma FixedUnfolds(v: nat, n: nat)
    requires n > 0
    ensures Fixed(v, n) == [v % 0x100] + Fixed(v / 0x100, n - 1)
  {
  }

  lemma FixedNone(v: nat)
    ensures Fixed(v, 0) == []
  {
  }

  lemma FixedTakes(v: nat)
    ensures Fixed(v, 8) == Fixed(v, 4) + Fixed(v / TWO_32, 4)
  {
    FixedUnfolds(v, 8);
    FixedUnfolds(v / 0x100, 7);
    FixedUnfolds(v / 0x100 / 0x100, 6);
    FixedUnfolds(v / 0x100 / 0x100 / 0x100, 5);
    Fixed32Is(v);
    hide Fixed;
    assert v / 0x100 / 0x100 == v / 0x1_0000 && v / 0x1_0000 / 0x100 == v / 0x100_0000
           && v / 0x100_0000 / 0x100 == v / TWO_32;
  }

  lemma Fixed64Is(v: nat)
    ensures Fixed(v, 8) == [
      v % 0x100, v / 0x100 % 0x100, v / 0x1_0000 % 0x100, v / 0x100_0000 % 0x100,
      v / TWO_32 % 0x100, v / (TWO_32 * 0x100) % 0x100,
      v / (TWO_32 * 0x1_0000) % 0x100, v / (TWO_32 * 0x100_0000) % 0x100]
  {
    hide Fixed;
    FixedTakes(v);
    Fixed32Is(v);
    Fixed32Is(v / TWO_32);
    assert v / TWO_32 / 0x100 == v / (TWO_32 * 0x100) && v / TWO_32 / 0x1_0000 == v / (TWO_32 * 0x1_0000);
    assert v / TWO_32 / 0x100_0000 == v / (TWO_32 * 0x100_0000);
  }

  method EncodeTag(stream: OStream, wireType: nat, tag: nat) returns (ok: bool)
    requires SinkOk(stream.Now())
    modifies stream
    ensures Sent(old(stream.Now()), stream.Now(), Key(tag, wireType), true, ok)
  {
    hide Sent, SinkOk;
    ok := EncodeVarint(stream, tag * 8 + wireType);
  }

  /** A length, and the bytes. */
  method EncodeString(stream: OStream, buffer: Bytes) returns (ok: bool)
    requires SinkOk(stream.Now())
    modifies stream
    ensures Sent(old(stream.Now()), stream.Now(), Delimited(buffer), true, ok)
  {
    hide Sent, SinkOk, Varint;
    ghost var start := stream.Now();
    ok := EncodeVarint(stream, |buffer|);
    ghost var middle := stream.Now();
    if !ok {
      SentNot(start, middle, Varint(|buffer|), buffer, true, true);
      return;
    }
    SentOk(start, middle, Varint(|buffer|), true, true);
    ok := stream.Write(buffer);
    SentThen(start, middle, stream.Now(), Varint(|buffer|), buffer, true, true, ok);
  }

  /** How long the C string in a buffer is. */
  method StringSize(buffer: Bytes) returns (size: nat)
    ensures size <= |buffer| && buffer[..size] == CString(buffer)
  {
    hide *;
    size := 0;
    StringStarts(buffer);
    while size < |buffer| && buffer[size] != 0
      invariant size <= |buffer| && buffer[..size] + CString(buffer[size..]) == CString(buffer)
    {
      StringGoesOn(buffer, size);
      size := size + 1;
    }
    StringEnds(buffer, size);
  }

  lemma StringStarts(s: Bytes)
    ensures s[..0] + CString(s[0..]) == CString(s)
  {
    assert s[0..] == s;
  }

  lemma StringGoesOn(s: Bytes, i: nat)
    requires i < |s| && s[i] != 0
    ensures s[..i] + CString(s[i..]) == s[..i + 1] + CString(s[i + 1..])
  {
    NextChar(s, i);
    hide CString;
    assert s[..i + 1] == s[..i] + [s[i]];
    Regroup(s[..i], [s[i]], CString(s[i + 1..]));
  }

  lemma NextChar(s: Bytes, i: nat)
    requires i < |s| && s[i] != 0
    ensures CString(s[i..]) == [s[i]] + CString(s[i + 1..])
  {
    assert s[i..][1..] == s[i + 1..];
  }

  lemma StringEnds(s: Bytes, i: nat)
    requires i <= |s| && (i == |s| || s[i] == 0)
    ensures s[..i] + CString(s[i..]) == s[..i]
  {
    assert CString(s[i..]) == [];
  }

  // ---------------------------------------------------------------- values

  method EncVarint(stream: OStream, size: nat, n: int) returns (ok: bool)
    requires SinkOk(stream.Now())
    modifies stream
    ensures Sent(old(stream.Now()), stream.Now(), Varint(n % TWO_64), SizeOk(size), ok)
  {
    hide Sent, SinkOk, Varint;
    if !(size == 1 || size == 2 || size == 4 || size == 8) {
      Refused(stream.Now(), Varint(n % TWO_64));
      return false;
    }
    ok := EncodeVarint(stream, n % TWO_64);
  }

  method EncSVarint(stream: OStream, size: nat, n: int) returns (ok: bool)
    requires SinkOk(stream.Now()) && FitsSigned(size, n)
    modifies stream
    ensures Sent(old(stream.Now()), stream.Now(), Varint(ZigZag(n)), SizeOk(size), ok)
  {
    hide Sent, SinkOk, Varint, ZigZag;
    if !(size == 1 || size == 2 || size == 4 || size == 8) {
      Refused(stream.Now(), Varint(ZigZag(n)));
      return false;
    }
    ok := EncodeSVarint(stream, n);
  }

  method EncBytes(stream: OStream, capacity: nat, bytes: Bytes) returns (ok: bool)
    requires SinkOk(stream.Now())
    modifies stream
    ensures Sent(old(stream.Now()), stream.Now(), Delimited(bytes), |bytes| <= capacity, ok)
  {
    hide Sent, SinkOk, Delimited;
    if |bytes| > capacity {
      Refused(stream.Now(), Delimited(bytes));
      return false;
    }
    ok := EncodeString(stream, bytes);
  }

  /** What each type asks of its value, and what it looks like on the wire. */
  lemma ValueIs(t: LType, v: Datum)
    requires HasType(t, v)
    ensures match t
      case BoolType => v.Flag? && EncodeValue(t, v) == Varint(if v.on then 1 else 0) && Encodable(t, v)
      case VarintType(size) => v.Number? && EncodeValue(t, v) == Varint(v.n % TWO_64) && Encodable(t, v) == SizeOk(size)
      case UVarintType(size) => v.Number? && EncodeValue(t, v) == Varint(v.n % TWO_64)
          && Encodable(t, v) == SizeOk(size)
      case SVarintType(size) =>
        v.Number? && FitsSigned(size, v.n) && EncodeValue(t, v) == Varint(ZigZag(v.n))
            && Encodable(t, v) == SizeOk(size)
      case Fixed32Type => v.Number? && v.n >= 0 && EncodeValue(t, v) == Fixed(v.n, 4) && Encodable(t, v)
      case Fixed64Type => v.Number? && v.n >= 0 && EncodeValue(t, v) == Fixed(v.n, 8) && Encodable(t, v)
      case BytesType(capacity) =>
        v.Octets? && EncodeValue(t, v) == Delimited(v.bytes) && Encodable(t, v) == (|v.bytes| <= capacity)
      case StringType(_) => v.Octets? && EncodeValue(t, v) == Delimited(CString(v.bytes)) && Encodable(t, v)
      case MessageType(desc) => v.Message? && StructHasType(desc, v.slots)
        && EncodeValue(t, v) == Delimited(EncodeMessage(desc, v.slots))
        && Encodable(t, v) == StructEncodable(desc, v.slots, 0)
      case FixedLengthBytesType(_) => v.Octets? && EncodeValue(t, v) == Delimited(v.bytes) && Encodable(t, v)
  {
    hide Varint, Delimited, Fixed, CString, StructHasType, StructEncodable, EncodeFrom, ZigZag;
  }

  /** The encoder that PB_ENCODERS holds for the type. */
  method EncodeDatum(stream: OStream, t: LType, v: Datum) returns (ok: bool)
    requires SinkOk(stream.Now()) && HasType(t, v)
    modifies stream
    ensures Sent(old(stream.Now()), stream.Now(), EncodeValue(t, v), Encodable(t, v), ok)
    decreases t, 1
  {
    hide *;
    ValueIs(t, v);
    match t
    case BoolType =>
      ok := EncodeVarint(stream, if v.on then 1 else 0);
    case VarintType(size) =>
      ok := EncVarint(stream, size, v.n);
    case UVarintType(size) =>
      ok := EncVarint(stream, size, v.n);
    case SVarintType(size) =>
      ok := EncSVarint(stream, size, v.n);
    case Fixed32Type =>
      ok := EncodeFixed32(stream, v.n);
    case Fixed64Type =>
      ok := EncodeFixed64(stream, v.n);
    case BytesType(capacity) =>
      ok := EncBytes(stream, capacity, v.bytes);
    case StringType(_) =>
      var size := StringSize(v.bytes);
      ok := EncodeString(stream, v.bytes[..size]);
    case MessageType(desc) =>
      ok := EncodeSubmessage(stream, desc, v.slots);
    case FixedLengthBytesType(_) =>
      ok := EncodeString(stream, v.bytes);
  }

  /** Sizes the message, writes the length, and writes the message into a substream of that length. */
  method EncodeSubmessage(stream: OStream, d: Desc, slots: seq<Slot>) returns (ok: bool)
    requires SinkOk(stream.Now()) && StructHasType(d, slots)
    modifies stream
    ensures Sent(old(stream.Now()), stream.Now(), Delimited(EncodeMessage(d, slots)), StructEncodable(d, slots, 0), ok)
    decreases d, 1
  {
    hide *;
    ghost var start := stream.Now();
    ghost var bytes, fit := EncodeMessage(d, slots), StructEncodable(d, slots, 0);
    DelimitedIs(bytes);
    var sizer := new OStream.Sizing();
    SizingOk();
    ghost var zero := sizer.Now();
    ok := Encode(sizer, d, slots);
    AllFit(zero, sizer.Now(), bytes, fit, ok);
    if !ok {
      Refused(start, Delimited(bytes));
      return;
    }
    SentOk(zero, sizer.Now(), bytes, fit, ok);
    var size := sizer.written;
    NowIs(sizer);
    NowIs(stream);
    ok := EncodeVarint(stream, size);
    NowIs(stream);
    ghost var middle := stream.Now();
    if !ok {
      SentNot(start, middle, Varint(|bytes|), bytes, true, fit);
      return;
    }
    SentOk(start, middle, Varint(|bytes|), true, true);
    if stream.sizing {
      stream.Count(size);
      Counted(middle, stream.Now(), bytes);
      SentThen(start, middle, stream.Now(), Varint(|bytes|), bytes, true, true, true);
      return;
    }
    if stream.written + size > stream.maxSize {
      NoRoomAfter(start, middle, Varint(|bytes|), bytes, fit);
      return false;
    }
    ok := EncodeSized(stream, d, slots, size);
    SentThen(start, middle, stream.Now(), Varint(|bytes|), bytes, true, fit, ok);
  }

  /** The second pass, into a substream that allows no more than the first one counted. */
  method EncodeSized(stream: OStream, d: Desc, slots: seq<Slot>, size: nat) returns (ok: bool)
    requires SinkOk(stream.Now()) && StructHasType(d, slots) && StructEncodable(d, slots, 0)
    requires !stream.sizing && size == |EncodeMessage(d, slots)| && stream.written + size <= stream.maxSize
    modifies stream
    ensures ok && Sent(old(stream.Now()), stream.Now(), EncodeMessage(d, slots), StructEncodable(d, slots, 0), ok)
    decreases d, 1, 0
  {
    hide *;
    ghost var bytes := EncodeMessage(d, slots);
    ghost var start := stream.Now();
    NowIs(stream);
    var substream := new OStream.Bounded(size, stream.output);
    ghost var zero := substream.Now();
    BoundedOk(size, stream.output);
    var status := Encode(substream, d, slots);
    ExactRoom(zero, substream.Now(), bytes, status);
    NowIs(substream);
    stream.written := stream.written + substream.written;
    stream.output := substream.output;
    NowIs(stream);
    Continued(start, zero, substream.Now(), stream.Now(), bytes);
    if substream.written != size {
      return false;
    }
    ok := status;
  }

  lemma DelimitedIs(s: Bytes)
    ensures Delimited(s) == Varint(|s|) + s
  {
  }

  lemma SizingOk()
    ensures SinkOk(Sink(true, 0, 0, []))
  {
  }

  lemma BoundedOk(maxSize: nat, output: Bytes)
    ensures SinkOk(Sink(false, maxSize, 0, output))
  {
  }

  lemma NowIs(stream: OStream)
    ensures stream.Now() == Sink(stream.sizing, stream.maxSize, stream.written, stream.output)
  {
  }

  lemma NoRoomAfter(a: Sink, b: Sink, x: Bytes, y: Bytes, fit: bool)
    requires Sent(a, b, x, true, true) && !b.sizing && b.written + |y| > b.maxSize
    ensures Sent(a, b, x + y, fit, false)
  {
  }

  /** A stream with exactly the room that the first pass asked for is filled exactly. */
  lemma ExactRoom(a: Sink, b: Sink, x: Bytes, ok: bool)
    requires Sent(a, b, x, true, ok) && a == Sink(false, |x|, 0, a.output)
    ensures ok && b.written == |x| && b.output == a.output + x
  {
  }

  lemma Continued(start: Sink, zero: Sink, sub: Sink, end: Sink, x: Bytes)
    requires !start.sizing && start.written + |x| <= start.maxSize
    requires zero.output == start.output && sub.written == |x| && sub.output == zero.output + x
    requires end == start.(written := start.written + sub.written, output := sub.output)
    ensures Sent(start, end, x, true, true)
  {
  }

  // ---------------------------------------------------------------- fields

  lemma ValuesSplit(t: LType, items: seq<Datum>, i: nat)
    requires i < |items|
    ensures Values(t, items[i..]) == EncodeValue(t, items[i]) + Values(t, items[i + 1..])
    ensures AllEncodable(t, items[i..]) == (Encodable(t, items[i]) && AllEncodable(t, items[i + 1..]))
  {
    hide EncodeValue, Encodable;
    assert items[i..][1..] == items[i + 1..];
  }

  lemma RecordsSplit(f: Field, items: seq<Datum>, i: nat)
    requires i < |items|
    ensures Records(f, items[i..]) == Record(f, items[i]) + Records(f, items[i + 1..])
    ensures AllEncodable(f.ltype, items[i..]) == (Encodable(f.ltype, items[i]) && AllEncodable(f.ltype, items[i + 1..]))
  {
    hide EncodeValue, Encodable, Record;
    assert items[i..][1..] == items[i + 1..];
  }

  lemma NoValuesLeft(t: LType, items: seq<Datum>)
    ensures Values(t, items[|items|..]) == [] && AllEncodable(t, items[|items|..]) && items[0..] == items
  {
  }

  lemma NoRecordsLeft(f: Field, items: seq<Datum>)
    ensures Records(f, items[|items|..]) == [] && AllEncodable(f.ltype, items[|items|..]) && items[0..] == items
  {
  }

  /** Every item of a packed array, one after the other. */
  method EncodeItems(stream: OStream, t: LType, items: seq<Datum>) returns (ok: bool)
    requires SinkOk(stream.Now()) && forall i :: 0 <= i < |items| ==> HasType(t, items[i])
    modifies stream
    ensures Sent(old(stream.Now()), stream.Now(), Values(t, items), AllEncodable(t, items), ok)
    decreases t, 2
  {
    hide *;
    ghost var start := stream.Now();
    ghost var sent: Bytes, fit := [], true;
    NoValuesLeft(t, items);
    SentNothing(start, true);
    for i := 0 to |items|
      invariant Sent(start, stream.Now(), sent, fit, true) && SinkOk(stream.Now())
      invariant sent + Values(t, items[i..]) == Values(t, items)
      invariant (fit && AllEncodable(t, items[i..])) == AllEncodable(t, items)
    {
      ghost var before := stream.Now();
      ghost var x, y := EncodeValue(t, items[i]), Values(t, items[i + 1..]);
      ValuesSplit(t, items, i);
      Regroup(sent, x, y);
      ok := EncodeDatum(stream, t, items[i]);
      if !ok {
        SentThen(start, before, stream.Now(), sent, x, fit, Encodable(t, items[i]), false);
        SentNot(start, stream.Now(), sent + x, y, fit && Encodable(t, items[i]), AllEncodable(t, items[i + 1..]));
        return;
      }
      SentThen(start, before, stream.Now(), sent, x, fit, Encodable(t, items[i]), true);
      SentOk(start, stream.Now(), sent + x, fit && Encodable(t, items[i]), true);
      sent, fit := sent + x, fit && Encodable(t, items[i]);
    }
    ok := true;
    assert sent + [] == sent;
  }

  /** The length of a packed array, by arithmetic or by a sizing pass. */
  method PackedSize(t: LType, items: seq<Datum>) returns (ok: bool, size: nat)
    requires Packable(t) && forall i :: 0 <= i < |items| ==> HasType(t, items[i])
    ensures ok == AllEncodable(t, items)
    ensures ok ==> size == |Values(t, items)|
    decreases t, 3
  {
    hide *;
    size := 0;
    if t.Fixed32Type? {
      FixedItems(t, items, 4);
      return true, 4 * |items|;
    }
    if t.Fixed64Type? {
      FixedItems(t, items, 8);
      return true, 8 * |items|;
    }
    var sizer := new OStream.Sizing();
    SizingOk();
    ghost var zero := sizer.Now();
    ok := EncodeItems(sizer, t, items);
    AllFit(zero, sizer.Now(), Values(t, items), AllEncodable(t, items), ok);
    SentOk(zero, sizer.Now(), Values(t, items), AllEncodable(t, items), ok);
    NowIs(sizer);
    size := sizer.written;
  }

  lemma {:induction false} FixedItems(t: LType, items: seq<Datum>, size: nat)
    requires (t.Fixed32Type? && size == 4) || (t.Fixed64Type? && size == 8)
    requires forall i :: 0 <= i < |items| ==> HasType(t, items[i])
    ensures |Values(t, items)| == size * |items| && AllEncodable(t, items)
  {
    if items != [] {
      assert HasType(t, items[0]);
      FixedItems(t, items[1..], size);
    }
  }

  /** Key and value of one item. */
  method EncodeRecord(stream: OStream, f: Field, v: Datum) returns (ok: bool)
    requires SinkOk(stream.Now()) && HasType(f.ltype, v)
    modifies stream
    ensures Sent(old(stream.Now()), stream.Now(), Record(f, v), Encodable(f.ltype, v), ok)
    decreases f, 0
  {
    hide *;
    ghost var start := stream.Now();
    ghost var x, y, fit := Key(f.tag, WireType(f.ltype)), EncodeValue(f.ltype, v), Encodable(f.ltype, v);
    RecordIs(f, v);
    ok := EncodeTag(stream, WireType(f.ltype), f.tag);
    ghost var middle := stream.Now();
    if !ok {
      SentNot(start, middle, x, y, true, fit);
      return;
    }
    SentOk(start, middle, x, true, true);
    ok := EncodeDatum(stream, f.ltype, v);
    SentThen(start, middle, stream.Now(), x, y, true, fit, ok);
  }

  lemma RecordIs(f: Field, v: Datum)
    ensures Record(f, v) == Key(f.tag, WireType(f.ltype)) + EncodeValue(f.ltype, v)
  {
    hide Key, EncodeValue;
  }

  /** A record for each item of an array that cannot be packed. */
  method EncodeRecords(stream: OStream, f: Field, items: seq<Datum>) returns (ok: bool)
    requires SinkOk(stream.Now()) && forall i :: 0 <= i < |items| ==> HasType(f.ltype, items[i])
    modifies stream
    ensures Sent(old(stream.Now()), stream.Now(), Records(f, items), AllEncodable(f.ltype, items), ok)
    decreases f, 1
  {
    hide *;
    ghost var start := stream.Now();
    ghost var sent: Bytes, fit := [], true;
    NoRecordsLeft(f, items);
    SentNothing(start, true);
    for i := 0 to |items|
      invariant Sent(start, stream.Now(), sent, fit, true) && SinkOk(stream.Now())
      invariant sent + Records(f, items[i..]) == Records(f, items)
      invariant (fit && AllEncodable(f.ltype, items[i..])) == AllEncodable(f.ltype, items)
    {
      ghost var before := stream.Now();
      ghost var x, y := Record(f, items[i]), Records(f, items[i + 1..]);
      ghost var next := Encodable(f.ltype, items[i]);
      RecordsSplit(f, items, i);
      Regroup(sent, x, y);
      ok := EncodeRecord(stream, f, items[i]);
      SentThen(start, before, stream.Now(), sent, x, fit, next, ok);
      if !ok {
        SentNot(start, stream.Now(), sent + x, y, fit && next, AllEncodable(f.ltype, items[i + 1..]));
        return;
      }
      SentOk(start, stream.Now(), sent + x, fit && next, true);
      sent, fit := sent + x, fit && next;
    }
    ok := true;
    assert sent + [] == sent;
  }

  /** One record with all the values. */
  method EncodePacked(stream: OStream, f: Field, items: seq<Datum>) returns (ok: bool)
    requires SinkOk(stream.Now()) && Packable(f.ltype) && forall i :: 0 <= i < |items| ==> HasType(f.ltype, items[i])
    modifies stream
    ensures Sent(old(stream.Now()), stream.Now(), Key(f.tag, WT_STRING) + Delimited(Values(f.ltype, items)),
              AllEncodable(f.ltype, items), ok)
    decreases f, 1
  {
    hide *;
    ghost var start := stream.Now();
    ghost var x, z, fit := Key(f.tag, WT_STRING), Values(f.ltype, items), AllEncodable(f.ltype, items);
    ghost var y := Varint(|z|);
    DelimitedIs(z);
    Regroup(x, y, z);
    ok := EncodeTag(stream, WT_STRING, f.tag);
    if !ok {
      SentNot(start, stream.Now(), x, y + z, true, fit);
      return;
    }
    ghost var afterKey := stream.Now();
    SentOk(start, afterKey, x, true, true);
    var size;
    ok, size := PackedSize(f.ltype, items);
    if !ok {
      Refused(afterKey, y + z);
      SentThen(start, afterKey, afterKey, x, y + z, true, false, false);
      return;
    }
    ok := EncodeVarint(stream, size);
    ghost var afterLength := stream.Now();
    SentThen(start, afterKey, afterLength, x, y, true, true, ok);
    if !ok {
      SentNot(start, afterLength, x + y, z, true, fit);
      return;
    }
    SentOk(start, afterLength, x + y, true, true);
    NowIs(stream);
    if stream.sizing {
      stream.Count(size);
      Counted(afterLength, stream.Now(), z);
      SentThen(start, afterLength, stream.Now(), x + y, z, true, true, true);
      return;
    }
    ok := EncodeItems(stream, f.ltype, items);
    SentThen(start, afterLength, stream.Now(), x + y, z, true, fit, ok);
  }

  method EncodeArrayField(stream: OStream, f: Field, items: seq<Datum>) returns (ok: bool)
    requires SinkOk(stream.Now()) && f.htype.Repeated? && forall i :: 0 <= i < |items| ==> HasType(f.ltype, items[i])
    modifies stream
    ensures Sent(old(stream.Now()), stream.Now(), EncodeArray(f, items), SlotEncodable(f, Items(items)), ok)
    decreases f, 2
  {
    hide *;
    ArrayIs(f, items);
    if |items| == 0 {
      SentNothing(stream.Now(), true);
      return true;
    }
    if |items| > f.htype.arraySize {
      Refused(stream.Now(), EncodeArray(f, items));
      return false;
    }
    if Packable(f.ltype) {
      ok := EncodePacked(stream, f, items);
    } else {
      ok := EncodeRecords(stream, f, items);
    }
  }

  lemma ArrayIs(f: Field, items: seq<Datum>)
    requires f.htype.Repeated?
    ensures items == [] ==> EncodeArray(f, items) == [] && SlotEncodable(f, Items(items))
    ensures items != [] && Packable(f.ltype) ==>
      EncodeArray(f, items) == Key(f.tag, WT_STRING) + Delimited(Values(f.ltype, items))
    ensures items != [] && !Packable(f.ltype) ==> EncodeArray(f, items) == Records(f, items)
    ensures SlotEncodable(f, Items(items)) == (|items| <= f.htype.arraySize && AllEncodable(f.ltype, items))
  {
    hide Key, Delimited, Values, Records, Packable;
  }

  /** One field: nothing for an absent value, otherwise its records. */
  method EncodeBasicField(stream: OStream, f: Field, slot: Slot) returns (ok: bool)
    requires SinkOk(stream.Now()) && SlotHasType(f, slot)
    modifies stream
    ensures Sent(old(stream.Now()), stream.Now(), EncodeField(f, slot), SlotEncodable(f, slot), ok)
    decreases f, 3
  {
    hide Sent, SinkOk, HasType, IsZero, Record, EncodeArray, Encodable, AllEncodable;
    SentNothing(stream.Now(), true);
    match f.htype
    case Required =>
      ok := EncodeRecord(stream, f, slot.value);
    case Optional =>
      ok := true;
      if slot.has {
        ok := EncodeRecord(stream, f, slot.value);
      }
    case Singular =>
      ok := true;
      if !IsZero(f.ltype, slot.value) {
        ok := EncodeRecord(stream, f, slot.value);
      }
    case Repeated(_) =>
      ok := EncodeArrayField(stream, f, slot.items);
    case Oneof(_) =>
      ok := true;
      if slot.chosen.Some? {
        ok := EncodeRecord(stream, f, slot.chosen.value);
      }
  }

  // ---------------------------------------------------------------- messages

  lemma FromSplits(d: Desc, slots: seq<Slot>, i: nat)
    requires i < |d.fields| == |slots|
    ensures EncodeFrom(d, slots, i) == EncodeField(d.fields[i], slots[i]) + EncodeFrom(d, slots, i + 1)
    ensures StructEncodable(d, slots, i) == (SlotEncodable(d.fields[i], slots[i]) && StructEncodable(d, slots, i + 1))
  {
    hide EncodeField, SlotEncodable;
  }

  lemma NothingFrom(d: Desc, slots: seq<Slot>)
    ensures EncodeFrom(d, slots, |d.fields|) == [] && StructEncodable(d, slots, |d.fields|)
    ensures EncodeMessage(d, slots) == EncodeFrom(d, slots, 0)
  {
  }

  lemma SlotTyped(d: Desc, slots: seq<Slot>, i: nat)
    requires StructHasType(d, slots) && i < |d.fields|
    ensures |slots| == |d.fields| && SlotHasType(d.fields[i], slots[i])
  {
    hide SlotHasType;
  }

  /** Every field in turn. */
  method Encode(stream: OStream, d: Desc, slots: seq<Slot>) returns (ok: bool)
    requires SinkOk(stream.Now()) && StructHasType(d, slots)
    modifies stream
    ensures Sent(old(stream.Now()), stream.Now(), EncodeMessage(d, slots), StructEncodable(d, slots, 0), ok)
    decreases d, 0
  {
    hide *;
    NothingFrom(d, slots);
    StructLength(d, slots);
    ghost var start := stream.Now();
    SentNothing(start, true);
    var iter := new FieldIter(d);
    if |d.fields| == 0 {
      return true;
    }
    ghost var i, sent: Bytes, fit := 0, [], true;
    ok := true;
    var more := true;
    while more
      invariant iter.Valid() && iter.desc == d && i <= |d.fields| && fresh(iter)
      invariant more == (i < |d.fields|) && (more ==> iter.pos == i) && ok
      invariant Sent(start, stream.Now(), sent, fit, true) && SinkOk(stream.Now())
      invariant sent + EncodeFrom(d, slots, i) == EncodeMessage(d, slots)
      invariant (fit && StructEncodable(d, slots, i)) == StructEncodable(d, slots, 0)
      decreases |d.fields| - i
    {
      ghost var before := stream.Now();
      ghost var x, y := EncodeField(d.fields[i], slots[i]), EncodeFrom(d, slots, i + 1);
      ghost var next := SlotEncodable(d.fields[i], slots[i]);
      FromSplits(d, slots, i);
      Regroup(sent, x, y);
      SlotTyped(d, slots, i);
      ok := EncodeBasicField(stream, d.fields[iter.pos], slots[iter.pos]);
      SentThen(start, before, stream.Now(), sent, x, fit, next, ok);
      if !ok {
        SentNot(start, stream.Now(), sent + x, y, fit && next, StructEncodable(d, slots, i + 1));
        return;
      }
      SentOk(start, stream.Now(), sent + x, fit && next, true);
      sent, fit, i := sent + x, fit && next, i + 1;
      more := iter.Next();
    }
    assert sent + [] == sent;
  }

  /** pb_get_encoded_size. */
  method EncodedSize(d: Desc, slots: seq<Slot>) returns (ok: bool, size: nat)
    requires StructHasType(d, slots)
    ensures ok == StructEncodable(d, slots, 0)
    ensures ok ==> size == |EncodeMessage(d, slots)|
  {
    hide *;
    var stream := new OStream.Sizing();
    SizingOk();
    ghost var zero := stream.Now();
    ok := Encode(stream, d, slots);
    AllFit(zero, stream.Now(), EncodeMessage(d, slots), StructEncodable(d, slots, 0), ok);
    SentOk(zero, stream.Now(), EncodeMessage(d, slots), StructEncodable(d, slots, 0), ok);
    NowIs(stream);
    size := stream.written;
  }
}
