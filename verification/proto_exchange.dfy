/** A message written to one stream and read from another (nanopb/pb_encode.c, nanopb/pb_decode.c). */
module ProtoExchange {
  import opened Wrappers
  import opened Coding
  import opened Messages
  import opened ProtoEncode
  import opened ProtoDecode
  import opened ProtoStreams
  import opened ProtoRoundTrip

  /** Into a buffer of maxSize bytes and out of it again.  Encoding succeeds exactly when every value
      can be encoded and the bytes fit; decoding those bytes then succeeds exactly when every string
      leaves room for its NUL, and gives back the same message. */
  method Exchange(d: Desc, slots: seq<Slot>, maxSize: nat) returns (encoded: bool, decoded: bool, result: seq<Slot>)
    requires DescOk(d) && StructHasType(d, slots) && maxSize < TWO_32
    ensures encoded == (StructEncodable(d, slots, 0) && |EncodeMessage(d, slots)| <= maxSize)
    ensures decoded == (encoded && StructTerminated(d, slots, 0))
    ensures decoded ==> StructHasType(d, result) && SameStruct(d, slots, result)
  {
    hide *;
    decoded, result := false, [];
    var output := new OStream.Bounded(maxSize, []);
    EmptyBuffer(maxSize);
    encoded := Encode(output, d, slots);
    Written(output, maxSize, EncodeMessage(d, slots), StructEncodable(d, slots, 0), encoded);
    if encoded {
      var input := new IStream(output.output, 0, |output.output|);
      AllAhead(input);
      RoundTrip(d, slots);
      decoded, result := Decode(input, d);
    }
  }

  lemma EmptyBuffer(maxSize: nat)
    ensures SinkOk(Sink(false, maxSize, 0, []))
  {
  }

  lemma Written(stream: OStream, maxSize: nat, bytes: Bytes, fit: bool, ok: bool)
    requires Sent(Sink(false, maxSize, 0, []), stream.Now(), bytes, fit, ok)
    ensures ok == (fit && |bytes| <= maxSize) && (ok ==> stream.output == bytes)
  {
    assert [] + bytes == bytes;
  }

  lemma AllAhead(stream: IStream)
    requires stream.pos == 0 && stream.bytesLeft == |stream.data|
    ensures stream.Valid() && stream.Ahead() == stream.data
  {
  }

  // ---------------------------------------------------------------- the message that does not come back

  const TWO_LETTERS: Field := Field(1, Required, StringType(2), Octets([]))

  /** A two-byte string field filled with two letters is encoded, and refused by the decoder. */
  lemma FullStringIsRefused()
    ensures var d, slots := Desc([TWO_LETTERS]), [Always(Octets([0x61, 0x62]))];
      && DescOk(d) && StructHasType(d, slots) && StructEncodable(d, slots, 0) && |EncodeMessage(d, slots)| < TWO_32
      && DecodeMessage(d, EncodeMessage(d, slots)) == None
  {
    var d, slots := Desc([TWO_LETTERS]), [Always(Octets([0x61, 0x62]))];
    FullString(d, slots);
    hide *;
    RoundTrip(d, slots);
  }

  lemma FullString(d: Desc, slots: seq<Slot>)
    requires d == Desc([TWO_LETTERS]) && slots == [Always(Octets([0x61, 0x62]))]
    ensures DescOk(d) && StructHasType(d, slots) && StructEncodable(d, slots, 0) && |EncodeMessage(d, slots)| < TWO_32
    ensures !StructTerminated(d, slots, 0)
  {
    var f, s: Bytes := d.fields[0], [0x61, 0x62];
    assert SlotHasType(f, slots[0]);
    assert s[1..] == [0x62] && s[1..][1..] == [];
    assert CString(s[1..]) == [0x62] && CString(s) == s;
    assert EncodeValue(f.ltype, slots[0].value) == Delimited(s);
    assert |Varint(10)| == 1 && |Varint(2)| == 1;
    assert |Record(f, slots[0].value)| == 4;
    assert EncodeField(f, slots[0]) == Record(f, slots[0].value);
    assert EncodeFrom(d, slots, 1) == [] && |EncodeFrom(d, slots, 0)| == 4;
  }
}
