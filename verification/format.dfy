/** How a table file refers to its blocks, and how a block is stored and read (table/format.cc). */
module TableFormats {
  import opened Wrappers
  import opened Coding
  import opened Checksums
  import Crc32c

  datatype Handle = Handle(offset: nat, size: nat)

  predicate HandleOk(h: Handle) {
    h.offset < TWO_64 && h.size < TWO_64
  }

  function EncodeHandle(h: Handle): Bytes {
    Varint(h.offset) + Varint(h.size)
  }

  function DecodeHandle(s: Bytes): Option<(Handle, Bytes)> {
    match GetVarint(s, 10, TWO_64)
    case None => None
    case Some((offset, rest)) =>
      match GetVarint(rest, 10, TWO_64)
      case None => None
      case Some((size, after)) => Some((Handle(offset, size), after))
  }

  lemma HandleRoundTrip(h: Handle, rest: Bytes)
    requires HandleOk(h)
    ensures DecodeHandle(EncodeHandle(h) + rest) == Some((h, rest))
  {
    hide GetVarint, Varint;
    assert EncodeHandle(h) + rest == Varint(h.offset) + (Varint(h.size) + rest);
    Varint64RoundTrip(h.offset, Varint(h.size) + rest);
    Varint64RoundTrip(h.size, rest);
  }

  lemma HandleIsShort(h: Handle)
    requires HandleOk(h)
    ensures |EncodeHandle(h)| <= 20
  {
    hide Varint;
    TenGroups();
    VarintIsShort(h.offset, 10);
    VarintIsShort(h.size, 10);
  }

  lemma TenGroups()
    ensures TWO_64 <= Power(0x80, 10)
  {
    assert Power(0x80, 2) == 0x4000 && Power(0x80, 4) == 0x1000_0000;
    assert Power(0x80, 6) == 0x400_0000_0000 && Power(0x80, 8) == 0x100_0000_0000_0000;
    assert Power(0x80, 10) == 0x40_0000_0000_0000_0000;
  }

  // ---------------------------------------------------------------- the footer

  const MAX_HANDLE: nat := 20
  const FOOTER: nat := 48
  const MAGIC: nat := 0xdb47_7524_8b80_fb57

  function Padding(n: nat): Bytes {
    seq(n, i => 0)
  }

  /** Two handles, padded to forty bytes, and the magic number. */
  function EncodeFooter(metaindex: Handle, index: Handle): Bytes {
    var handles := EncodeHandle(metaindex) + EncodeHandle(index);
    var padded := if |handles| <= 2 * MAX_HANDLE then handles
        + Padding(2 * MAX_HANDLE - |handles|) else handles[..2 * MAX_HANDLE];
    padded + Fixed(MAGIC % TWO_32, 4) + Fixed(MAGIC / TWO_32, 4)
  }

  lemma FooterLength(metaindex: Handle, index: Handle)
    ensures |EncodeFooter(metaindex, index)| == FOOTER
  {
    hide EncodeHandle, Fixed;
  }

  function DecodeFooter(s: Bytes): Option<(Handle, Handle)>
    requires |s| == FOOTER
  {
    if DecodeFixed(s[40..44]) + TWO_32 * DecodeFixed(s[44..48]) != MAGIC then None
    else
      match DecodeHandle(s)
      case None => None
      case Some((metaindex, rest)) =>
        match DecodeHandle(rest)
        case None => None
        case Some((index, _)) => Some((metaindex, index))
  }

  lemma FooterRoundTrip(metaindex: Handle, index: Handle)
    requires HandleOk(metaindex) && HandleOk(index)
    ensures |EncodeFooter(metaindex, index)| == FOOTER
    ensures DecodeFooter(EncodeFooter(metaindex, index)) == Some((metaindex, index))
  {
    HandleIsShort(metaindex);
    HandleIsShort(index);
    hide EncodeHandle, DecodeHandle, Fixed, DecodeFixed;
    var a, b := EncodeHandle(metaindex), EncodeHandle(index);
    var s := EncodeFooter(metaindex, index);
    var low, high := Fixed(MAGIC % TWO_32, 4), Fixed(MAGIC / TWO_32, 4);
    var pad := Padding(40 - |a + b|);
    FooterParts(a, b, pad, low, high, s);
    Fixed32RoundTrip(MAGIC % TWO_32);
    Fixed32RoundTrip(MAGIC / TWO_32);
    HandleRoundTrip(metaindex, b + (pad + low + high));
    HandleRoundTrip(index, pad + low + high);
  }

  /** A footer is read only if its last eight bytes are 57 fb 80 8b 24 75 47 db, and two handles come first. */
  lemma FooterIsRefused(s: Bytes)
    requires |s| == FOOTER
    ensures DecodeFooter(s).Some? <==>
            && s[40..] == [0x57, 0xfb, 0x80, 0x8b, 0x24, 0x75, 0x47, 0xdb]
            && DecodeHandle(s).Some? && DecodeHandle(DecodeHandle(s).value.1).Some?
  {
    var low, high := s[40..44], s[44..48];
    MagicWords(low, high);
    assert s[40..] == low + high;
    assert MAGIC_BYTES == MAGIC_BYTES[..4] + MAGIC_BYTES[4..];
    assert (low + high)[..4] == low && (low + high)[4..] == high;
    hide DecodeHandle, DecodeFixed;
  }

  const MAGIC_BYTES: Bytes := [0x57, 0xfb, 0x80, 0x8b, 0x24, 0x75, 0x47, 0xdb]

  lemma MagicWords(low: Bytes, high: Bytes)
    requires |low| == 4 && |high| == 4
    ensures DecodeFixed(low) + TWO_32 * DecodeFixed(high) == MAGIC <==>
            low == MAGIC_BYTES[..4] && high == MAGIC_BYTES[4..]
  {
    WordIs(MAGIC_BYTES[..4]);
    WordIs(MAGIC_BYTES[4..]);
    WordIs(low);
    WordIs(high);
    hide DecodeFixed, Fixed;
  }

  lemma WordIs(s: Bytes)
    requires |s| == 4
    ensures DecodeFixed(s) < TWO_32 && Fixed(DecodeFixed(s), 4) == s
    ensures s == MAGIC_BYTES[..4] ==> DecodeFixed(s) == MAGIC % TWO_32
    ensures s == MAGIC_BYTES[4..] ==> DecodeFixed(s) == MAGIC / TWO_32
  {
    DecodeFixedRoundTrip(s);
    assert Power(0x100, 2) == 0x1_0000 && Power(0x100, 4) == TWO_32;
    hide Fixed, Power;
    assert s[1..][1..][1..] == [s[3]] && s[1..][1..][1..][1..] == [];
    assert DecodeFixed(s[1..][1..][1..][1..]) == 0;
    assert DecodeFixed(s[1..][1..][1..]) == s[3];
    assert DecodeFixed(s[1..][1..]) == (s[2] as int) + 0x100 * (s[3] as int);
    assert DecodeFixed(s[1..]) == (s[1] as int) + 0x100 * ((s[2] as int) + 0x100 * (s[3] as int));
  }

  lemma FooterParts(a: Bytes, b: Bytes, pad: Bytes, low: Bytes, high: Bytes, s: Bytes)
    requires s == a + b + pad + low + high && |a + b + pad| == 40 && |low| == 4 && |high| == 4
    ensures |s| == 48 && s == a + (b + (pad + low + high)) && s[40..44] == low && s[44..48] == high
  {
  }

  // ---------------------------------------------------------------- blocks in the file

  const TRAILER: nat := 5

  /** The compression type (none) and the masked checksum of contents and type. */
  function Trailer(contents: Bytes): (r: Bytes)
    ensures |r| == TRAILER
  {
    [0] + Fixed(Masked(Crc32c.Value(AsBits(contents + [0]))), 4)
  }

  /** The handle's bytes in the file are these contents, followed by their trailer. */
  predicate Holds(file: Bytes, h: Handle, contents: Bytes) {
    && h.size == |contents| && h.offset + h.size + TRAILER <= |file|
    && file[h.offset..h.offset + h.size + TRAILER] == contents + Trailer(contents)
  }

  lemma HoldsStill(file: Bytes, more: Bytes, h: Handle, contents: Bytes)
    requires Holds(file, h, contents)
    ensures Holds(file + more, h, contents)
  {
    hide Trailer;
    var end := h.offset + h.size + TRAILER;
    assert (file + more)[h.offset..end] == file[h.offset..end];
  }

  lemma HoldsNew(file: Bytes, contents: Bytes)
    ensures Holds(file + contents + Trailer(contents), Handle(|file|, |contents|), contents)
  {
    hide Trailer;
    var all := file + contents + Trailer(contents);
    assert all == file + (contents + Trailer(contents));
  }

  lemma HeldParts(file: Bytes, h: Handle, contents: Bytes)
    requires Holds(file, h, contents)
    ensures h.offset + h.size + TRAILER <= |file|
    ensures file[h.offset..h.offset + h.size] == contents && file[h.offset + h.size] == 0
    ensures file[h.offset..h.offset + h.size + 1] == contents + [0]
    ensures DecodeFixed(file[h.offset + h.size + 1..h.offset + h.size + TRAILER])
            == Masked(Crc32c.Value(AsBits(contents + [0])))
  {
    assert Trailer(contents)[0] == 0;
    TrailerHoldsCrc(contents);
    hide Trailer, DecodeFixed, Masked, AsBits, Crc32c.Value;
    HeldAt(file, h.offset, contents, Trailer(contents));
  }

  lemma TrailerHoldsCrc(contents: Bytes)
    ensures DecodeFixed(Trailer(contents)[1..]) == Masked(Crc32c.Value(AsBits(contents + [0])))
  {
    var crc := Crc32c.Value(AsBits(contents + [0]));
    MaskedFits(crc);
    Fixed32RoundTrip(Masked(crc));
    hide Fixed, DecodeFixed, Masked, AsBits, Crc32c.Value;
    assert Trailer(contents)[1..] == Fixed(Masked(crc), 4);
  }

  lemma HeldAt(file: Bytes, at: nat, contents: Bytes, trailer: Bytes)
    requires at + |contents| + |trailer| <= |file| && |trailer| > 0 && trailer[0] == 0
    requires file[at..at + |contents| + |trailer|] == contents + trailer
    ensures var n := |contents|;
      && file[at..at + n] == contents && file[at + n] == 0 && file[at..at + n + 1] == contents + [0]
      && file[at + n + 1..at + n + |trailer|] == trailer[1..]
  {
    var n, all := |contents|, file[at..at + |contents| + |trailer|];
    assert trailer == [0] + trailer[1..];
    HeldSlices(all, contents, trailer[1..]);
    SubSlice(file, at, at + n + |trailer|, 0, n);
    SubSlice(file, at, at + n + |trailer|, 0, n + 1);
    SubSlice(file, at, at + n + |trailer|, n, n + 1);
    SubSlice(file, at, at + n + |trailer|, n + 1, n + |trailer|);
    assert all[..n] == all[0..n] && all[..n + 1] == all[0..n + 1] && all[n + 1..] == all[n + 1..n + |trailer|];
  }

  lemma SubSlice(s: Bytes, a: nat, b: nat, i: nat, j: nat)
    requires a <= b <= |s| && i <= j <= b - a
    ensures s[a..b][i..j] == s[a + i..a + j]
    ensures i < b - a ==> s[a..b][i] == s[a + i]
  {
    var x, y := s[a..b][i..j], s[a + i..a + j];
    assert |x| == |y| == j - i;
    forall k | 0 <= k < j - i ensures x[k] == y[k] {
      assert x[k] == s[a..b][i + k] == s[a + (i + k)];
    }
  }

  lemma HeldSlices(at: Bytes, contents: Bytes, crc: Bytes)
    requires at == contents + ([0] + crc)
    ensures at[..|contents|] == contents && at[|contents|] == 0 && at[..|contents| + 1] == contents + [0]
            && at[|contents| + 1..] == crc
  {
  }

  /** The file has the block and its trailer, which says that the block is not compressed and, if that is to be
      looked at, has its checksum. */
  predicate BlockIsSound(file: Bytes, h: Handle, verifyChecksums: bool) {
    var end := h.offset + h.size;
    && end + 5 <= |file| && file[end] == 0
    && (verifyChecksums ==>
         DecodeFixed(file[end + 1..end + 5]) == Masked(Crc32c.Value(AsBits(file[h.offset..end + 1]))))
  }

  /** Reads the bytes of a handle, checks them, and gives the contents; compressed blocks are not read.
      Mask being a bijection, the masked checksums are compared. */
  method ReadBlock(file: Bytes, h: Handle, verifyChecksums: bool) returns (r: Option<Bytes>)
    ensures r.Some? ==> h.offset + h.size + TRAILER <= |file| && r.value == file[h.offset..h.offset + h.size]
    ensures r.Some? <==> BlockIsSound(file, h, verifyChecksums)
    ensures forall contents :: Holds(file, h, contents) ==> r == Some(contents)
  {
    hide Fixed, DecodeFixed, Masked, Trailer;
    forall contents | Holds(file, h, contents)
      ensures h.offset + h.size + TRAILER <= |file|
      ensures file[h.offset..h.offset + h.size] == contents && file[h.offset + h.size] == 0
      ensures file[h.offset..h.offset + h.size + 1] == contents + [0]
      ensures DecodeFixed(file[h.offset + h.size + 1..h.offset + h.size + TRAILER])
              == Masked(Crc32c.Value(AsBits(contents + [0])))
    {
      HeldParts(file, h, contents);
    }
    var n := h.size;
    if h.offset + n + TRAILER > |file| {
      return None;
    }
    var data := file[h.offset..h.offset + n + TRAILER];
    assert data[n + 1..] == file[h.offset + n + 1..h.offset + n + TRAILER]
           && data[..n + 1] == file[h.offset..h.offset + n + 1];
    assert data[..n] == file[h.offset..h.offset + n] && data[n] == file[h.offset + n];
    if verifyChecksums {
      var crc := DecodeFixed(data[n + 1..]);
      var actual := Masked(Crc32c.Value(AsBits(data[..n + 1])));
      if actual != crc {
        return None;
      }
    }
    if data[n] != 0 {
      return None;
    }
    return Some(data[..n]);
  }
}
