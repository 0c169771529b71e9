/** Bloom filters: what was put in is always found (util/bloom.cc). */
module BloomFilters {
  import opened Wrappers
  import opened Coding
  import opened Bits

  /** The hash is any function into 32 bits. */
  type Hash = Bytes -> nat

  const MAX_PROBES: nat := 30

  /** Rotated right by 17 bits. */
  function Delta(h: nat): nat {
    h / 0x2_0000 + h * 0x8000 % TWO_32
  }

  /** The hash value at the j-th probe. */
  function Probe(h: nat, j: nat): nat {
    if j == 0 then h else (Probe(h, j - 1) + Delta(h)) % TWO_32
  }

  predicate BitAt(bitmap: Bytes, p: nat) {
    p / 8 < |bitmap| && Bit(bitmap[p / 8], p % 8)
  }

  /** Every probe for a hash value meets a set bit. */
  predicate AllSetFor(bitmap: Bytes, h: nat, k: nat)
    requires |bitmap| > 0
  {
    forall j :: 0 <= j < k ==> BitAt(bitmap, Probe(h, j) % (8 * |bitmap|))
  }

  /** p is where some probe for one of the first n hash values points. */
  ghost predicate Probed(hashes: seq<nat>, n: nat, k: nat, bits: nat, p: nat)
    requires n <= |hashes| && bits > 0
  {
    exists i, j :: 0 <= i < n && 0 <= j < k && Probe(hashes[i], j) % bits == p
  }

  function FilterBytes(n: nat, bitsPerKey: nat): (r: nat)
    ensures r >= 8
  {
    var bits := if n * bitsPerKey < 64 then 64 else n * bitsPerKey;
    (bits + 7) / 8
  }

  /** The filter at the end of dst: one bit for every probe of every key and no other, then the number of probes. */
  ghost predicate IsFilter(filter: Bytes, hash: Hash, keys: seq<Bytes>, bitsPerKey: nat, k: nat) {
    var bytes := FilterBytes(|keys|, bitsPerKey);
    && |filter| == bytes + 1 && filter[bytes] == k
    && forall p :: 0 <= p < 8 * bytes ==>
         BitAt(filter[..bytes], p) == Probed(Hashes(hash, keys), |keys|, k, 8 * bytes, p)
  }

  function Hashes(hash: Hash, keys: seq<Bytes>): seq<nat> {
    seq(|keys|, i requires 0 <= i < |keys| => hash(keys[i]))
  }

  /** KeyMayMatch. */
  predicate MayMatch(hash: Hash, key: Bytes, filter: Bytes) {
    var len := |filter|;
    len >= 2 && (filter[len - 1] > MAX_PROBES || AllSetFor(filter[..len - 1], hash(key), filter[len - 1]))
  }

  /** A filter matches every key that it was made from. */
  lemma NoFalseNegatives(filter: Bytes, hash: Hash, keys: seq<Bytes>, bitsPerKey: nat, k: nat, i: nat)
    requires IsFilter(filter, hash, keys, bitsPerKey, k) && i < |keys|
    ensures MayMatch(hash, keys[i], filter)
  {
    hide BitAt, Probe;
    var bytes := FilterBytes(|keys|, bitsPerKey);
    var hs := Hashes(hash, keys);
    forall j | 0 <= j < k ensures BitAt(filter[..bytes], Probe(hash(keys[i]), j) % (8 * bytes)) {
      var p := Probe(hash(keys[i]), j) % (8 * bytes);
      assert Probe(hs[i], j) % (8 * bytes) == p;
      assert Probed(hs, |keys|, k, 8 * bytes, p);
    }
  }

  /** Each probe for a hash value meets one for some key. */
  ghost predicate CoveredBy(hash: Hash, keys: seq<Bytes>, bitsPerKey: nat, k: nat, h: nat) {
    var bits := 8 * FilterBytes(|keys|, bitsPerKey);
    forall j: nat :: j < k ==> Probed(Hashes(hash, keys), |keys|, k, bits, Probe(h, j) % bits)
  }

  /** A filter matches a key exactly when every bit probed for it is probed for a key it was made from. */
  lemma MatchIsExact(filter: Bytes, hash: Hash, keys: seq<Bytes>, bitsPerKey: nat, k: nat, key: Bytes)
    requires IsFilter(filter, hash, keys, bitsPerKey, k) && k <= MAX_PROBES
    ensures MayMatch(hash, key, filter) <==> CoveredBy(hash, keys, bitsPerKey, k, hash(key))
  {
    hide BitAt, Probe, Probed;
    var bytes := FilterBytes(|keys|, bitsPerKey);
    var bitmap, bits := filter[..bytes], 8 * bytes;
    forall j: nat | j < k
      ensures BitAt(bitmap, Probe(hash(key), j) % bits)
              == Probed(Hashes(hash, keys), |keys|, k, bits, Probe(hash(key), j) % bits)
    {
      assert 0 <= Probe(hash(key), j) % bits < bits;
    }
  }

  /** What the probes step by is the hash value with its low 17 bits put in front. */
  lemma DeltaRotates(h: nat)
    requires h < TWO_32
    ensures Delta(h) == h / 0x2_0000 + h % 0x2_0000 * 0x8000
  {
    assert h == h / 0x2_0000 * 0x2_0000 + h % 0x2_0000;
    assert h * 0x8000 == h / 0x2_0000 * TWO_32 + h % 0x2_0000 * 0x8000;
  }

  lemma {:induction false} ProbesStep(h: nat, j: nat)
    requires h < TWO_32
    ensures Probe(h, j) == (h + j * Delta(h)) % TWO_32
  {
    hide Probe, Delta;
    if j == 0 {
      ProbeStarts(h);
    } else {
      ProbesStep(h, j - 1);
      ProbeNext(h, j - 1);
      OneStep(h, j, Delta(h), Probe(h, j - 1));
    }
  }

  lemma OneStep(h: nat, j: nat, delta: nat, before: nat)
    requires j > 0 && before == (h + (j - 1) * delta) % TWO_32
    ensures (before + delta) % TWO_32 == (h + j * delta) % TWO_32
  {
    assert j * delta == (j - 1) * delta + delta;
    ReducedSum(h + (j - 1) * delta, delta);
  }

  lemma ReducedSum(a: nat, b: nat)
    ensures (a % TWO_32 + b) % TWO_32 == (a + b) % TWO_32
  {
  }

  lemma ProbeStarts(h: nat)
    ensures Probe(h, 0) == h
  {
  }

  lemma ProbeNext(h: nat, j: nat)
    ensures Probe(h, j + 1) == (Probe(h, j) + Delta(h)) % 0x1_0000_0000
  {
  }

  // ---------------------------------------------------------------- building

  /** after has the bits of before and bit p. */
  ghost predicate WithBit(before: Bytes, after: Bytes, p: nat) {
    && |after| == |before|
    && forall q :: 0 <= q < 8 * |before| ==> BitAt(after, q) == (BitAt(before, q) || q == p)
  }

  ghost predicate HitBefore(h: nat, j: nat, bits: nat, p: nat)
    requires bits > 0
  {
    exists i :: 0 <= i < j && Probe(h, i) % bits == p
  }

  /** after has the bits of before and those of the first j probes. */
  ghost predicate AlsoProbed(before: Bytes, after: Bytes, h: nat, j: nat) {
    && |after| == |before| > 0
    && forall q :: 0 <= q < 8 * |before| ==> BitAt(after, q) == (BitAt(before, q) || HitBefore(h, j, 8 * |before|, q))
  }

  /** The bits are those of all probes of the first n hash values. */
  ghost predicate HasProbesOf(bitmap: Bytes, hashes: seq<nat>, n: nat, k: nat) {
    && |bitmap| > 0 && n <= |hashes|
    && forall q :: 0 <= q < 8 * |bitmap| ==> BitAt(bitmap, q) == Probed(hashes, n, k, 8 * |bitmap|, q)
  }

  lemma StartsEmpty(bitmap: Bytes, hashes: seq<nat>, k: nat)
    requires |bitmap| > 0 && forall i :: 0 <= i < |bitmap| ==> bitmap[i] == 0
    ensures HasProbesOf(bitmap, hashes, 0, k)
  {
    hide Bit;
    forall q | 0 <= q < 8 * |bitmap| ensures !BitAt(bitmap, q) {
      NoBits(q % 8);
    }
  }

  lemma NoProbesYet(bitmap: Bytes, h: nat)
    requires |bitmap| > 0
    ensures AlsoProbed(bitmap, bitmap, h, 0)
  {
  }

  lemma OneMoreProbe(before: Bytes, middle: Bytes, after: Bytes, h: nat, j: nat)
    requires AlsoProbed(before, middle, h, j) && WithBit(middle, after, Probe(h, j) % (8 * |before|))
    ensures AlsoProbed(before, after, h, j + 1)
  {
    hide BitAt, Probe;
    var bits := 8 * |before|;
    forall q | 0 <= q < bits ensures BitAt(after, q) == (BitAt(before, q) || HitBefore(h, j + 1, bits, q)) {
      HitsGrow(h, j, bits, q);
    }
  }

  lemma HitsGrow(h: nat, j: nat, bits: nat, q: nat)
    requires bits > 0
    ensures HitBefore(h, j + 1, bits, q) == (HitBefore(h, j, bits, q) || Probe(h, j) % bits == q)
  {
    hide Probe;
  }

  lemma ProbedGrows(hashes: seq<nat>, n: nat, k: nat, bits: nat, q: nat)
    requires n < |hashes| && bits > 0
    ensures Probed(hashes, n + 1, k, bits, q) == (Probed(hashes, n, k, bits, q) || HitBefore(hashes[n], k, bits, q))
  {
    hide Probe;
    if HitBefore(hashes[n], k, bits, q) {
      var j :| 0 <= j < k && Probe(hashes[n], j) % bits == q;
      assert Probe(hashes[n], j) % bits == q;
    }
  }

  lemma OneMoreKey(before: Bytes, after: Bytes, hashes: seq<nat>, n: nat, k: nat)
    requires n < |hashes| && HasProbesOf(before, hashes, n, k) && AlsoProbed(before, after, hashes[n], k)
    ensures HasProbesOf(after, hashes, n + 1, k)
  {
    hide BitAt, Probed, HitBefore;
    forall q | 0 <= q < 8 * |after| ensures BitAt(after, q) == Probed(hashes, n + 1, k, 8 * |after|, q) {
      ProbedGrows(hashes, n, k, 8 * |after|, q);
    }
  }

  lemma FilterIsMade(filter: Bytes, bitmap: Bytes, hash: Hash, keys: seq<Bytes>, bitsPerKey: nat, k: nat)
    requires k < 0x100 && filter == bitmap + [k] && |bitmap| == FilterBytes(|keys|, bitsPerKey)
    requires HasProbesOf(bitmap, Hashes(hash, keys), |keys|, k)
    ensures IsFilter(filter, hash, keys, bitsPerKey, k)
  {
    hide BitAt, Probed;
    assert filter[..|bitmap|] == bitmap;
  }

  lemma ByteOr(b: Byte, p: nat)
    requires p < 8
    ensures Or(b, Pow2(p)) < 0x100
    ensures forall q :: 0 <= q < 8 ==> Bit(Or(b, Pow2(p)), q) == (Bit(b, q) || q == p)
  {
    assert Pow2(8) == 0x100;
    hide Or, Bit;
    Pow2Grows(p, 7);
    assert Pow2(7) == 0x80;
    OrBelow(b, Pow2(p), 8);
    forall q | 0 <= q < 8 ensures Bit(Or(b, Pow2(p)), q) == (Bit(b, q) || q == p) {
      OrBit(b, Pow2(p), q);
      Pow2Bit(p, q);
    }
  }

  /** bitmap[p / 8] |= 1 << (p % 8). */
  method SetBit(bitmap: array<Byte>, p: nat)
    requires p < 8 * bitmap.Length
    modifies bitmap
    ensures WithBit(old(bitmap[..]), bitmap[..], p)
  {
    hide Or, Pow2, Bit;
    ByteOr(bitmap[p / 8], p % 8);
    ghost var before := bitmap[..];
    bitmap[p / 8] := Or(bitmap[p / 8], Pow2(p % 8));
    ghost var after := bitmap[..];
    forall q | 0 <= q < 8 * |before| ensures BitAt(after, q) == (BitAt(before, q) || q == p) {
      if q / 8 != p / 8 {
        assert after[q / 8] == before[q / 8];
      }
    }
  }

  class BloomFilterPolicy {
    const hash: Hash
    const bitsPerKey: nat
    const k: nat

    /** wanted is bits_per_key * 0.69 rounded down; it is kept between 1 and 30. */
    constructor (hash: Hash, bitsPerKey: nat, wanted: nat)
      ensures k == if wanted == 0 then 1 else if wanted <= MAX_PROBES then wanted else MAX_PROBES
      ensures this.hash == hash && this.bitsPerKey == bitsPerKey
    {
      this.hash, this.bitsPerKey := hash, bitsPerKey;
      k := if wanted < 1 then 1 else if wanted > 30 then 30 else wanted;
    }

    /** Appends the filter of some keys. */
    method CreateFilter(keys: seq<Bytes>, dst: Bytes) returns (r: Bytes)
      requires 1 <= k <= MAX_PROBES
      ensures dst <= r && IsFilter(r[|dst|..], hash, keys, bitsPerKey, k)
    {
      var bits := |keys| * bitsPerKey;
      if bits < 64 {
        bits := 64;
      }
      var bytes := (bits + 7) / 8;
      bits := bytes * 8;
      ghost var hs := Hashes(hash, keys);
      var bitmap := new Byte[bytes](i => 0);
      StartsEmpty(bitmap[..], hs, k);
      hide *;
      for i := 0 to |keys|
        invariant HasProbesOf(bitmap[..], hs, i, k)
      {
        var h := hash(keys[i]);
        ghost var before := bitmap[..];
        AddProbes(bitmap, h);
        OneMoreKey(before, bitmap[..], hs, i, k);
      }
      FilterIsMade(bitmap[..] + [k], bitmap[..], hash, keys, bitsPerKey, k);
      r := dst + (bitmap[..] + [k]);
    }

    /** Sets the bit of every probe for one hash value. */
    method AddProbes(bitmap: array<Byte>, h0: nat)
      requires bitmap.Length > 0
      modifies bitmap
      ensures AlsoProbed(old(bitmap[..]), bitmap[..], h0, k)
    {
      hide *;
      var bits := 8 * bitmap.Length;
      var h := h0;
      ghost var before := bitmap[..];
      var delta := Delta(h);
      NoProbesYet(before, h0);
      ProbeStarts(h0);
      for j := 0 to k
        invariant AlsoProbed(before, bitmap[..], h0, j) && h == Probe(h0, j)
      {
        ghost var middle := bitmap[..];
        var bitpos := h % bits;
        SetBit(bitmap, bitpos);
        OneMoreProbe(before, middle, bitmap[..], h0, j);
        ProbeNext(h0, j);
        h := (h + delta) % 0x1_0000_0000;
      }
    }

    method KeyMayMatch(key: Bytes, filter: Bytes) returns (r: bool)
      ensures r == MayMatch(hash, key, filter)
    {
      var len := |filter|;
      if len < 2 {
        return false;
      }
      var bits := (len - 1) * 8;
      var probes := filter[len - 1];
      if probes > 30 {
        return true;
      }
      var h := hash(key);
      var delta := Delta(h);
      ghost var h0 := h;
      for j := 0 to probes
        invariant h == Probe(h0, j)
        invariant forall i :: 0 <= i < j ==> BitAt(filter[..len - 1], Probe(h0, i) % bits)
      {
        var bitpos := h % bits;
        if !Bit(filter[bitpos / 8], bitpos % 8) {
          return false;
        }
        h := (h + delta) % TWO_32;
      }
      return true;
    }
  }
}
