/** Checksums of byte strings, and how they are stored (util/crc32c.h). */
module Checksums {
  import opened Wrappers
  import opened Coding
  import Crc32c

  function AsBits(s: Bytes): seq<bv8> {
    seq(|s|, i requires 0 <= i < |s| => s[i] as bv8)
  }

  /** What is stored of a checksum: masked, as a fixed32. */
  function Masked(crc: bv32): nat {
    Crc32c.Mask(crc) as nat
  }

  lemma ValueExtends(s: seq<bv8>)
    ensures Crc32c.Value(s) == Crc32c.Extended(0, s)
  {
  }

  lemma MaskedFits(crc: bv32)
    ensures Masked(crc) < TWO_32
  {
  }

  /** Extending a checksum is computing it over the longer string. */
  lemma ValueOfMore(a: Bytes, b: Bytes)
    ensures Crc32c.Extended(Crc32c.Value(AsBits(a)), AsBits(b)) == Crc32c.Value(AsBits(a + b))
  {
    hide Crc32c.Extended;
    assert AsBits(a + b) == AsBits(a) + AsBits(b);
    Crc32c.ExtendAppends(0, AsBits(a), AsBits(b));
    ValueExtends(AsBits(a));
    ValueExtends(AsBits(a + b));
  }
}
