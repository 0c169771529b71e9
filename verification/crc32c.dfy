/** CRC32C (section 12.1 of RFC 3720): the four-way strided loop of util/crc32c.cc computes the
    bit-serial checksum. */
module Crc32c {
  /** The polynomial 0x1EDC6F41, with its bits reflected. */
  const POLYNOMIAL: bv32 := 0x82F6_3B78
  const ONES: bv32 := 0xFFFF_FFFF

  // ---------------------------------------------------------------- definition

  function Xor(x: bv32, y: bv32): bv32 {
    x ^ y
  }

  function Low(x: bv32): bv32 {
    x & 1
  }

  function Half(x: bv32): bv32 {
    x >> 1
  }

  /** Shifts one message bit into the register. */
  function ShiftBit(l: bv32, bit: bv32): bv32 {
    if (l ^ bit) & 1 == 1 then (l >> 1) ^ POLYNOMIAL else l >> 1
  }

  /** Shifts the n low bits of d in, lowest first. */
  function ShiftBits(l: bv32, d: bv32, n: nat): bv32
    decreases n
  {
    if n == 0 then l else ShiftBits(ShiftBit(l, Low(d)), Half(d), n - 1)
  }

  function ShiftByte(l: bv32, b: bv8): bv32 {
    ShiftBits(l, b as bv32, 8)
  }

  /** Shifts a whole message in. */
  function Run(l: bv32, data: seq<bv8>): bv32 {
    if data == [] then l else ShiftByte(Run(l, data[..|data| - 1]), data[|data| - 1])
  }

  /** The checksum of some A extended by `data`, given the checksum of A. */
  function Extended(crc: bv32, data: seq<bv8>): bv32 {
    Xor(Run(Xor(crc, ONES), data), ONES)
  }

  function Value(data: seq<bv8>): bv32 {
    Extended(0, data)
  }

  lemma {:induction false} RunAppends(l: bv32, a: seq<bv8>, b: seq<bv8>)
    ensures Run(l, a + b) == Run(Run(l, a), b)
  {
    hide ShiftByte;
    if b == [] {
      assert a + b == a;
    } else {
      var n := |b| - 1;
      assert (a + b)[..|a| + n] == a + b[..n];
      RunAppends(l, a, b[..n]);
    }
  }

  /** Extending the checksum of a message by more data is the checksum of both together. */
  lemma ExtendAppends(crc: bv32, a: seq<bv8>, b: seq<bv8>)
    ensures Extended(Extended(crc, a), b) == Extended(crc, a + b)
  {
    hide Run, Xor;
    RunAppends(Xor(crc, ONES), a, b);
    XorTwice(Run(Xor(crc, ONES), a), ONES);
  }

  lemma XorTwice(x: bv32, y: bv32)
    ensures Xor(Xor(x, y), y) == x
  {
  }

  lemma XorZero(x: bv32)
    ensures Xor(x, 0) == x && Xor(0, x) == x
  {
  }

  lemma XorSwaps(x: bv32, y: bv32)
    ensures Xor(x, y) == Xor(y, x)
  {
  }

  lemma XorGroups(x: bv32, y: bv32, z: bv32)
    ensures Xor(Xor(x, y), z) == Xor(x, Xor(y, z))
  {
  }

  // ---------------------------------------------------------------- linearity

  /** The register after a zero byte. */
  function Zero(x: bv32): bv32 {
    ShiftBits(x, 0, 8)
  }

  /** ... after n of them. */
  function Zeros(x: bv32, n: nat): bv32 {
    if n == 0 then x else Zero(Zeros(x, n - 1))
  }

  lemma OddOdd(x: bv32, y: bv32)
    requires x & 1 == 1 && y & 1 == 1
    ensures ShiftBit(x ^ y, 0) == ShiftBit(x, 0) ^ ShiftBit(y, 0)
  {
  }

  lemma OddEven(x: bv32, y: bv32)
    requires x & 1 == 1 && y & 1 != 1
    ensures ShiftBit(x ^ y, 0) == ShiftBit(x, 0) ^ ShiftBit(y, 0)
  {
  }

  lemma EvenOdd(x: bv32, y: bv32)
    requires x & 1 != 1 && y & 1 == 1
    ensures ShiftBit(x ^ y, 0) == ShiftBit(x, 0) ^ ShiftBit(y, 0)
  {
  }

  lemma EvenEven(x: bv32, y: bv32)
    requires x & 1 != 1 && y & 1 != 1
    ensures ShiftBit(x ^ y, 0) == ShiftBit(x, 0) ^ ShiftBit(y, 0)
  {
  }

  lemma ShiftBitIsLinear(x: bv32, y: bv32)
    ensures ShiftBit(Xor(x, y), 0) == Xor(ShiftBit(x, 0), ShiftBit(y, 0))
  {
    hide ShiftBit;
    if x & 1 == 1 {
      if y & 1 == 1 {
        OddOdd(x, y);
      } else {
        OddEven(x, y);
      }
    } else if y & 1 == 1 {
      EvenOdd(x, y);
    } else {
      EvenEven(x, y);
    }
  }

  lemma ZeroBit()
    ensures Low(0) == 0 && Half(0) == 0
  {
  }

  lemma {:induction false} ShiftBitsIsLinear(x: bv32, y: bv32, n: nat)
    ensures ShiftBits(Xor(x, y), 0, n) == Xor(ShiftBits(x, 0, n), ShiftBits(y, 0, n))
    decreases n
  {
    hide ShiftBit, Xor, Low, Half;
    if n > 0 {
      ZeroBit();
      ShiftBitIsLinear(x, y);
      ShiftBitsIsLinear(ShiftBit(x, 0), ShiftBit(y, 0), n - 1);
    }
  }

  lemma {:induction false} ZerosAreLinear(x: bv32, y: bv32, n: nat)
    ensures Zeros(Xor(x, y), n) == Xor(Zeros(x, n), Zeros(y, n))
  {
    hide ShiftBits, Xor;
    if n > 0 {
      ZerosAreLinear(x, y, n - 1);
      ShiftBitsIsLinear(Zeros(x, n - 1), Zeros(y, n - 1), 8);
    }
  }

  lemma {:induction false} ZerosAdd(x: bv32, m: nat, n: nat)
    ensures Zeros(Zeros(x, m), n) == Zeros(x, m + n)
  {
    hide Zero;
    if n > 0 {
      ZerosAdd(x, m, n - 1);
    }
  }

  // ---------------------------------------------------------------- bytes and words

  lemma ShiftBitOdd(l: bv32, e: bv32)
    requires (l ^ e) & 1 == 1
    ensures ShiftBit(l, e & 1) ^ (e >> 1) == ShiftBit(l ^ e, 0)
  {
  }

  lemma ShiftBitEven(l: bv32, e: bv32)
    requires (l ^ e) & 1 != 1
    ensures ShiftBit(l, e & 1) ^ (e >> 1) == ShiftBit(l ^ e, 0)
  {
  }

  /** Shifting in the low bit of e, and keeping the rest of e aside, is adding e to the register
      first and shifting it through. */
  lemma ShiftBitAside(l: bv32, e: bv32)
    ensures Xor(ShiftBit(l, Low(e)), Half(e)) == ShiftBit(Xor(l, e), 0)
  {
    hide ShiftBit;
    if (l ^ e) & 1 == 1 {
      ShiftBitOdd(l, e);
    } else {
      ShiftBitEven(l, e);
    }
  }

  function Halves(x: bv32, n: nat): bv32
    decreases n
  {
    if n == 0 then x else Halves(Half(x), n - 1)
  }

  lemma {:induction false} ShiftBitsAside(l: bv32, d: bv32, n: nat)
    ensures Xor(ShiftBits(l, d, n), Halves(d, n)) == ShiftBits(Xor(l, d), 0, n)
    decreases n
  {
    hide ShiftBit, Xor, Low, Half;
    if n > 0 {
      ZeroBit();
      ShiftBitAside(l, d);
      ShiftBitsAside(ShiftBit(l, Low(d)), Half(d), n - 1);
    }
  }

  lemma FourHalves(x: bv32, n: nat)
    ensures Halves(x, n + 4) == Halves(Half(Half(Half(Half(x)))), n)
  {
    hide Half;
    assert Halves(x, n + 4) == Halves(Half(x), n + 3);
    assert Halves(Half(x), n + 3) == Halves(Half(Half(x)), n + 2);
    assert Halves(Half(Half(x)), n + 2) == Halves(Half(Half(Half(x))), n + 1);
  }

  lemma EightHalves(x: bv32)
    ensures Halves(x, 8) == x >> 8
  {
    Shifts(x);
    hide Half;
    FourHalves(x, 4);
    FourHalves(Half(Half(Half(Half(x)))), 0);
  }

  lemma Shifts(x: bv32)
    ensures Half(Half(Half(Half(Half(Half(Half(Half(x)))))))) == x >> 8
  {
  }

  lemma ByteIsLow(b: bv8)
    ensures (b as bv32) >> 8 == 0
  {
  }

  /** A byte may be added to the register first and shifted through afterwards. */
  lemma ShiftByteIsZero(l: bv32, b: bv8)
    ensures ShiftByte(l, b) == Zero(Xor(l, b as bv32))
  {
    hide Xor, ShiftBits, Halves;
    ShiftBitsAside(l, b as bv32, 8);
    EightHalves(b as bv32);
    ByteIsLow(b);
    XorZero(ShiftByte(l, b));
  }

  predicate LowClear(x: bv32, n: nat)
    decreases n
  {
    n == 0 || (Low(x) == 0 && LowClear(Half(x), n - 1))
  }

  lemma ZeroOfEven(x: bv32)
    requires Low(x) == 0
    ensures ShiftBit(x, 0) == Half(x)
  {
  }

  lemma {:induction false} ZeroOfClear(x: bv32, n: nat)
    requires LowClear(x, n)
    ensures ShiftBits(x, 0, n) == Halves(x, n)
    decreases n
  {
    hide ShiftBit, Low, Half;
    if n > 0 {
      ZeroBit();
      ZeroOfEven(x);
      ZeroOfClear(Half(x), n - 1);
    }
  }

  lemma FourLows(x: bv32, n: nat)
    requires Low(x) == 0 && Low(Half(x)) == 0 && Low(Half(Half(x))) == 0 && Low(Half(Half(Half(x)))) == 0
    requires LowClear(Half(Half(Half(Half(x)))), n)
    ensures LowClear(x, n + 4)
  {
    hide Low, Half;
    assert LowClear(Half(Half(Half(x))), n + 1);
    assert LowClear(Half(Half(x)), n + 2);
    assert LowClear(Half(x), n + 3);
  }

  lemma LowBits(x: bv32)
    requires x & 0xFF == 0
    ensures Low(x) == 0 && Low(Half(x)) == 0 && Low(Half(Half(x))) == 0 && Low(Half(Half(Half(x)))) == 0
    ensures Half(Half(Half(Half(x)))) & 0xF == 0
  {
  }

  lemma LowNibble(x: bv32)
    requires x & 0xF == 0
    ensures Low(x) == 0 && Low(Half(x)) == 0 && Low(Half(Half(x))) == 0 && Low(Half(Half(Half(x)))) == 0
  {
  }

  /** The three high bytes only move down. */
  lemma ZeroOfHighBytes(x: bv32)
    requires x & 0xFF == 0
    ensures Zero(x) == x >> 8
  {
    var h := Half(Half(Half(Half(x))));
    LowBits(x);
    LowNibble(h);
    EightHalves(x);
    hide Low, Half, Zero, Halves;
    FourLows(h, 0);
    FourLows(x, 4);
    assert Zero(x) == Halves(x, 8) by {
      ZeroIsHalves(x);
    }
  }

  lemma ZeroIsHalves(x: bv32)
    requires LowClear(x, 8)
    ensures Zero(x) == Halves(x, 8)
  {
    hide ShiftBits, Halves, LowClear;
    ZeroOfClear(x, 8);
  }

  // ---------------------------------------------------------------- tables

  /** kByteExtensionTable: the register after a byte, started at 0. */
  function ByteTable(c: bv32): bv32 {
    Zero(c)
  }

  /** kStrideExtensionTable0 to 3: a byte of the register, from the highest down, advanced over 16
      zero bytes. */
  function StrideTable0(i: bv32): bv32 {
    Zeros(i << 24, 16)
  }

  function StrideTable1(i: bv32): bv32 {
    Zeros(i << 16, 16)
  }

  function StrideTable2(i: bv32): bv32 {
    Zeros(i << 8, 16)
  }

  function StrideTable3(i: bv32): bv32 {
    Zeros(i, 16)
  }

  function Byte(x: bv32): bv32 {
    x & 0xFF
  }

  function Drop(x: bv32): bv32 {
    x >> 8
  }

  function Lift(x: bv32): bv32 {
    x << 8
  }

  lemma SplitByte(x: bv32)
    ensures x == Xor(Byte(x), Lift(Drop(x)))
    ensures Lift(Drop(x)) & 0xFF == 0 && Lift(Drop(x)) >> 8 == Drop(x)
  {
  }

  lemma TableStep(x: bv32)
    ensures Zero(x) == Xor(ByteTable(Byte(x)), Drop(x))
  {
    SplitByte(x);
    hide Xor, ShiftBits, Byte, Drop, Lift;
    ShiftBitsIsLinear(Byte(x), Lift(Drop(x)), 8);
    ZeroOfHighBytes(Lift(Drop(x)));
  }

  lemma ByteOfSum(l: bv32, b: bv8)
    ensures Byte(Xor(l, b as bv32)) == Xor(Byte(l), b as bv32) && Drop(Xor(l, b as bv32)) == Drop(l)
  {
  }

  /** STEP1: one byte through the table. */
  lemma Step1(l: bv32, b: bv8)
    ensures Xor(ByteTable(Xor(Byte(l), b as bv32)), Drop(l)) == ShiftByte(l, b)
  {
    ByteOfSum(l, b);
    hide Xor, Zero, Byte, Drop, ByteTable;
    TableStep(Xor(l, b as bv32));
    ShiftByteIsZero(l, b);
  }

  lemma SplitWord(x: bv32)
    ensures x == Xor(Xor(Xor(x & 0xFF, ((x >> 8) & 0xFF) << 8), ((x >> 16) & 0xFF) << 16), (x >> 24) << 24)
  {
  }

  /** STEP4: a word read in, and a stride's register advanced by 16 bytes through the tables. */
  function Step4(w: bv32, crc: bv32): bv32 {
    Xor(Xor(Xor(Xor(w, StrideTable3(crc & 0xFF)), StrideTable2((crc >> 8) & 0xFF)), StrideTable1((crc >> 16) & 0xFF)),
        StrideTable0(crc >> 24))
  }

  lemma XorFour(w: bv32, a: bv32, b: bv32, c: bv32, d: bv32)
    ensures Xor(Xor(Xor(Xor(w, a), b), c), d) == Xor(w, Xor(Xor(Xor(a, b), c), d))
  {
    hide Xor;
    XorGroups(w, Xor(Xor(a, b), c), d);
    XorGroups(w, Xor(a, b), c);
    XorGroups(w, a, b);
  }

  lemma Step4Advances(w: bv32, crc: bv32)
    ensures Step4(w, crc) == Xor(w, Zeros(crc, 16))
  {
    SplitWord(crc);
    hide Xor, Zeros;
    var a, b, c, d := crc & 0xFF, ((crc >> 8) & 0xFF) << 8, ((crc >> 16) & 0xFF) << 16, (crc >> 24) << 24;
    XorFour(w, Zeros(a, 16), Zeros(b, 16), Zeros(c, 16), Zeros(d, 16));
    ZerosAreLinear(Xor(Xor(a, b), c), d, 16);
    ZerosAreLinear(Xor(a, b), c, 16);
    ZerosAreLinear(a, b, 16);
  }

  /** A little-endian word. */
  function Word(b0: bv8, b1: bv8, b2: bv8, b3: bv8): bv32 {
    (b0 as bv32) | ((b1 as bv32) << 8) | ((b2 as bv32) << 16) | ((b3 as bv32) << 24)
  }

  lemma WordParts(b0: bv8, b1: bv8, b2: bv8, b3: bv8)
    ensures Byte(Word(b0, b1, b2, b3)) == b0 as bv32 && Drop(Word(b0, b1, b2, b3)) == Word(b1, b2, b3, 0)
    ensures Word(0, 0, 0, 0) == 0
  {
  }

  lemma WordByte(l: bv32, b0: bv8, b1: bv8, b2: bv8, b3: bv8)
    ensures Zero(Xor(l, Word(b0, b1, b2, b3))) == Xor(ShiftByte(l, b0), Word(b1, b2, b3, 0))
  {
    var w := Word(b0, b1, b2, b3);
    WordParts(b0, b1, b2, b3);
    hide Xor, ShiftBits, ShiftByte, Word, Byte, Drop;
    ShiftBitsIsLinear(l, w, 8);
    ShiftBitsIsLinear(l, b0 as bv32, 8);
    TableStep(w);
    ShiftByteIsZero(l, b0);
    XorGroups(Zero(l), ByteTable(Byte(w)), Drop(w));
  }

  /** Adds a word to the register and shifts it through. */
  function Push(l: bv32, w: bv32): bv32 {
    Zeros(Xor(w, l), 4)
  }

  lemma PushIsFourBytes(l: bv32, b0: bv8, b1: bv8, b2: bv8, b3: bv8)
    ensures Push(l, Word(b0, b1, b2, b3)) == ShiftByte(ShiftByte(ShiftByte(ShiftByte(l, b0), b1), b2), b3)
  {
    var l1 := ShiftByte(l, b0);
    var l2 := ShiftByte(l1, b1);
    var l3 := ShiftByte(l2, b2);
    var l4 := ShiftByte(l3, b3);
    WordParts(b0, b1, b2, b3);
    hide Xor, Zero, ShiftByte, Word;
    XorSwaps(Word(b0, b1, b2, b3), l);
    WordByte(l, b0, b1, b2, b3);
    WordByte(l1, b1, b2, b3, 0);
    WordByte(l2, b2, b3, 0, 0);
    WordByte(l3, b3, 0, 0, 0);
    XorZero(l4);
    var x := Xor(l, Word(b0, b1, b2, b3));
    assert Zeros(x, 2) == Zero(Zeros(x, 1)) && Zeros(x, 1) == Zero(Zeros(x, 0));
    assert Zeros(x, 4) == Zero(Zeros(x, 3)) && Zeros(x, 3) == Zero(Zeros(x, 2));
  }

  // ---------------------------------------------------------------- strides

  /** The four partial registers taken together. */
  function Combined(c0: bv32, c1: bv32, c2: bv32, c3: bv32): bv32 {
    Push(Push(Push(Push(0, c0), c1), c2), c3)
  }

  lemma PushIsSum(l: bv32, w: bv32, n: nat)
    ensures Zeros(Push(l, w), n) == Xor(Zeros(w, n + 4), Zeros(l, n + 4))
  {
    hide Xor, Zeros;
    ZerosAreLinear(w, l, 4);
    ZerosAreLinear(Zeros(w, 4), Zeros(l, 4), n);
    ZerosAdd(w, 4, n);
    ZerosAdd(l, 4, n);
  }

  lemma NoZeros(x: bv32)
    ensures Zeros(x, 0) == x
  {
  }

  lemma {:induction false} ZerosOfZero(n: nat)
    ensures Zeros(0, n) == 0
  {
    if n > 0 {
      ZerosOfZero(n - 1);
      ZeroOfHighBytes(0);
    }
  }

  lemma CombinedIsSum(c0: bv32, c1: bv32, c2: bv32, c3: bv32)
    ensures Combined(c0, c1, c2, c3) == Xor(Zeros(c3, 4), Xor(Zeros(c2, 8), Xor(Zeros(c1, 12), Zeros(c0, 16))))
  {
    hide Xor, Zeros, Push;
    PushIsSum(Push(Push(Push(0, c0), c1), c2), c3, 0);
    PushIsSum(Push(Push(0, c0), c1), c2, 4);
    PushIsSum(Push(0, c0), c1, 8);
    PushIsSum(0, c0, 12);
    ZerosOfZero(16);
    XorZero(Zeros(c0, 16));
    NoZeros(Combined(c0, c1, c2, c3));
  }

  lemma XorFive(a: bv32, b: bv32, c: bv32, d: bv32, e: bv32)
    ensures Xor(Xor(a, e), Xor(b, Xor(c, d))) == Xor(a, Xor(b, Xor(c, Xor(d, e))))
  {
    hide Xor;
    var rest := Xor(b, Xor(c, d));
    XorGroups(a, e, rest);
    XorSwaps(e, rest);
    XorGroups(b, Xor(c, d), e);
    XorGroups(c, d, e);
  }

  /** Advancing the first stride over a word and turning it into the last one pushes the word. */
  lemma StrideStep(c0: bv32, c1: bv32, c2: bv32, c3: bv32, w: bv32)
    ensures Combined(c1, c2, c3, Step4(w, c0)) == Push(Combined(c0, c1, c2, c3), w)
  {
    hide Xor, Zeros, Push, Combined, Step4;
    Step4Advances(w, c0);
    CombinedIsSum(c1, c2, c3, Step4(w, c0));
    ZerosAreLinear(w, Zeros(c0, 16), 4);
    ZerosAdd(c0, 16, 4);
    var sum := Combined(c0, c1, c2, c3);
    CombinedIsSum(c0, c1, c2, c3);
    PushIsSum(sum, w, 0);
    NoZeros(Push(sum, w));
    ZerosAreLinear(Zeros(c3, 4), Xor(Zeros(c2, 8), Xor(Zeros(c1, 12), Zeros(c0, 16))), 4);
    ZerosAreLinear(Zeros(c2, 8), Xor(Zeros(c1, 12), Zeros(c0, 16)), 4);
    ZerosAreLinear(Zeros(c1, 12), Zeros(c0, 16), 4);
    ZerosAdd(c3, 4, 4);
    ZerosAdd(c2, 8, 4);
    ZerosAdd(c1, 12, 4);
    XorFive(Zeros(w, 4), Zeros(c3, 8), Zeros(c2, 12), Zeros(c1, 16), Zeros(c0, 20));
  }

  // ---------------------------------------------------------------- the loops

  function WordAt(data: seq<bv8>, p: nat): bv32
    requires p + 4 <= |data|
  {
    Word(data[p], data[p + 1], data[p + 2], data[p + 3])
  }

  lemma RunByte(l: bv32, data: seq<bv8>, p: nat)
    requires p < |data|
    ensures Run(l, data[..p + 1]) == ShiftByte(Run(l, data[..p]), data[p])
  {
    hide ShiftByte;
    assert data[..p + 1][..p] == data[..p];
  }

  lemma RunWord(l: bv32, data: seq<bv8>, p: nat)
    requires p + 4 <= |data|
    ensures Run(l, data[..p + 4]) == Push(Run(l, data[..p]), WordAt(data, p))
  {
    hide ShiftByte, Run, Push, Word;
    RunByte(l, data, p);
    RunByte(l, data, p + 1);
    RunByte(l, data, p + 2);
    RunByte(l, data, p + 3);
    PushIsFourBytes(Run(l, data[..p]), data[p], data[p + 1], data[p + 2], data[p + 3]);
  }

  method Step4W(word: bv32, l: bv32) returns (r: bv32)
    ensures r == Push(l, word)
  {
    hide Zero, Xor, Byte, Drop;
    var w := Xor(word, l);
    for i := 0 to 4
      invariant w == Zeros(Xor(word, l), i)
    {
      TableStep(w);
      XorSwaps(ByteTable(Byte(w)), Drop(w));
      w := Xor(Drop(w), ByteTable(Byte(w)));
    }
    r := w;
  }

  /** Bytes p up to `end`, one at a time. */
  method Steps1(l: bv32, data: seq<bv8>, p: nat, end: nat) returns (r: bv32)
    requires p <= end <= |data|
    ensures forall start :: l == Run(start, data[..p]) ==> r == Run(start, data[..end])
  {
    hide *;
    r := l;
    for i := p to end
      invariant forall start :: l == Run(start, data[..p]) ==> r == Run(start, data[..i])
    {
      forall start | l == Run(start, data[..p]) ensures ShiftByte(r, data[i]) == Run(start, data[..i + 1]) {
        RunByte(start, data, i);
      }
      Step1(r, data[i]);
      r := Xor(ByteTable(Xor(Byte(r), data[i] as bv32)), Drop(r));
    }
  }

  lemma StartStrides(l: bv32, w0: bv32, w1: bv32, w2: bv32, w3: bv32)
    ensures Combined(Xor(w0, l), w1, w2, w3) == Push(Push(Push(Push(l, w0), w1), w2), w3)
  {
    hide Zeros, Xor;
    XorZero(Xor(w0, l));
    assert Push(0, Xor(w0, l)) == Push(l, w0);
  }

  /** `address` is where the data starts in memory. */
  method Extend(crc: bv32, data: seq<bv8>, address: nat) returns (r: bv32)
    ensures r == Extended(crc, data)
  {
    hide Run, Xor, Push, Combined, Step4, Word;
    ghost var start := Xor(crc, ONES);
    var p, e := 0, |data|;
    var l := Xor(crc, ONES);
    assert data[..0] == [];
    RunNothing(start);
    var x := (address + 3) / 4 * 4 - address;
    if x <= e {
      l := Steps1(l, data, p, x);
      p := x;
    }
    if e - p >= 16 {
      l, p := Strides(l, data, p, start);
    }
    l := Steps1(l, data, p, e);
    assert data[..e] == data;
    r := Xor(l, ONES);
  }

  lemma RunNothing(l: bv32)
    ensures Run(l, []) == l
  {
  }

  /** 16 bytes at a time, then 4 at a time. */
  method Strides(l: bv32, data: seq<bv8>, from: nat, ghost start: bv32) returns (r: bv32, p: nat)
    requires from + 16 <= |data| && l == Run(start, data[..from])
    ensures from <= p <= |data| && r == Run(start, data[..p])
  {
    hide Run, Xor, Push, Combined, Step4, Word;
    p := from;
    var crc0 := Xor(WordAt(data, p), l);
    var crc1 := WordAt(data, p + 4);
    var crc2 := WordAt(data, p + 8);
    var crc3 := WordAt(data, p + 12);
    StartStrides(l, WordAt(data, p), crc1, crc2, crc3);
    RunSwath(start, data, p);
    p := p + 16;
    while |data| - p >= 16
      invariant from <= p <= |data| && Combined(crc0, crc1, crc2, crc3) == Run(start, data[..p])
    {
      RunSwath(start, data, p);
      StrideStep(crc0, crc1, crc2, crc3, WordAt(data, p));
      crc0 := Step4(WordAt(data, p), crc0);
      StrideStep(crc1, crc2, crc3, crc0, WordAt(data, p + 4));
      crc1 := Step4(WordAt(data, p + 4), crc1);
      StrideStep(crc2, crc3, crc0, crc1, WordAt(data, p + 8));
      crc2 := Step4(WordAt(data, p + 8), crc2);
      StrideStep(crc3, crc0, crc1, crc2, WordAt(data, p + 12));
      crc3 := Step4(WordAt(data, p + 12), crc3);
      p := p + 16;
    }
    while |data| - p >= 4
      invariant from <= p <= |data| && Combined(crc0, crc1, crc2, crc3) == Run(start, data[..p])
    {
      RunWord(start, data, p);
      StrideStep(crc0, crc1, crc2, crc3, WordAt(data, p));
      crc0 := Step4(WordAt(data, p), crc0);
      var tmp := crc0;
      crc0 := crc1;
      crc1 := crc2;
      crc2 := crc3;
      crc3 := tmp;
      p := p + 4;
    }
    r := 0;
    r := Step4W(crc0, r);
    r := Step4W(crc1, r);
    r := Step4W(crc2, r);
    r := Step4W(crc3, r);
    CombinedIsPushed(crc0, crc1, crc2, crc3);
  }

  lemma CombinedIsPushed(c0: bv32, c1: bv32, c2: bv32, c3: bv32)
    ensures Combined(c0, c1, c2, c3) == Push(Push(Push(Push(0, c0), c1), c2), c3)
  {
  }

  lemma RunSwath(l: bv32, data: seq<bv8>, p: nat)
    requires p + 16 <= |data|
    ensures Run(l, data[..p + 16]) ==
            Push(Push(Push(Push(Run(l, data[..p]), WordAt(data, p)), WordAt(data, p + 4)), WordAt(data, p + 8)),
                WordAt(data, p + 12))
  {
    hide Run, Push, Word;
    RunWord(l, data, p);
    RunWord(l, data, p + 4);
    RunWord(l, data, p + 8);
    RunWord(l, data, p + 12);
  }

  // ---------------------------------------------------------------- masking

  const MASK_DELTA: bv32 := 0xA282_EAD8

  function Mask(crc: bv32): bv32 {
    ((crc >> 15) | (crc << 17)) + MASK_DELTA
  }

  function Unmask(masked: bv32): bv32 {
    var rot := masked - MASK_DELTA;
    (rot >> 17) | (rot << 15)
  }

  lemma MaskIsUndone(crc: bv32)
    ensures Unmask(Mask(crc)) == crc && Mask(Unmask(crc)) == crc
  {
  }

  /** The constants: a rotation by 15 bits to the right, and an offset. */
  lemma MaskRotates(crc: bv32)
    ensures Mask(crc) == crc.RotateRight(15) + 0xA282_EAD8
  {
  }

  // ---------------------------------------------------------------- known values

  /** A zero byte, bit by bit. */
  lemma Eight(a: bv32, b: bv32, c: bv32, d: bv32, e: bv32, f: bv32, g: bv32, h: bv32, r: bv32)
    requires b == ShiftBit(a, 0) && c == ShiftBit(b, 0) && d == ShiftBit(c, 0) && e == ShiftBit(d, 0)
    requires f == ShiftBit(e, 0) && g == ShiftBit(f, 0) && h == ShiftBit(g, 0) && r == ShiftBit(h, 0)
    ensures Zero(a) == r
  {
    hide ShiftBit, Low, Half;
    ZeroBit();
    assert ShiftBits(a, 0, 8) == ShiftBits(b, 0, 7) == ShiftBits(c, 0, 6) == ShiftBits(d, 0, 5) == ShiftBits(e, 0, 4);
    assert ShiftBits(e, 0, 4) == ShiftBits(f, 0, 3) == ShiftBits(g, 0, 2) == ShiftBits(h, 0, 1) == ShiftBits(r, 0, 0);
  }

  /** kByteExtensionTable at the powers of two, from which linearity gives the other entries. */
  lemma ByteTableBasis()
    ensures ByteTable(0x01) == 0xF26B_8303
    ensures ByteTable(0x02) == 0xE13B_70F7
    ensures ByteTable(0x04) == 0xC79A_971F
    ensures ByteTable(0x08) == 0x8AD9_58CF
    ensures ByteTable(0x10) == 0x105E_C76F
    ensures ByteTable(0x20) == 0x20BD_8EDE
    ensures ByteTable(0x40) == 0x417B_1DBC
    ensures ByteTable(0x80) == 0x82F6_3B78
  {
    hide Zero;
    Eight(0x01, 0x82F6_3B78, 0x417B_1DBC, 0x20BD_8EDE, 0x105E_C76F,
        0x8AD9_58CF, 0xC79A_971F, 0xE13B_70F7, 0xF26B_8303);
    Eight(0x02, 0x01, 0x82F6_3B78, 0x417B_1DBC, 0x20BD_8EDE,
        0x105E_C76F, 0x8AD9_58CF, 0xC79A_971F, 0xE13B_70F7);
    Eight(0x04, 0x02, 0x01, 0x82F6_3B78, 0x417B_1DBC,
        0x20BD_8EDE, 0x105E_C76F, 0x8AD9_58CF, 0xC79A_971F);
    Eight(0x08, 0x04, 0x02, 0x01, 0x82F6_3B78,
        0x417B_1DBC, 0x20BD_8EDE, 0x105E_C76F, 0x8AD9_58CF);
    Eight(0x10, 0x08, 0x04, 0x02, 0x01,
        0x82F6_3B78, 0x417B_1DBC, 0x20BD_8EDE, 0x105E_C76F);
    Eight(0x20, 0x10, 0x08, 0x04, 0x02,
        0x01, 0x82F6_3B78, 0x417B_1DBC, 0x20BD_8EDE);
    Eight(0x40, 0x20, 0x10, 0x08, 0x04,
        0x02, 0x01, 0x82F6_3B78, 0x417B_1DBC);
    Eight(0x80, 0x40, 0x20, 0x10, 0x08,
        0x04, 0x02, 0x01, 0x82F6_3B78);
  }

  lemma ByteTableIsLinear(x: bv32, y: bv32)
    ensures ByteTable(Xor(x, y)) == Xor(ByteTable(x), ByteTable(y))
  {
    hide ShiftBits, Xor;
    ShiftBitsIsLinear(x, y, 8);
  }

  lemma RunNext(l: bv32, data: seq<bv8>, n: nat, before: bv32, sum: bv32, after: bv32)
    requires n < |data| && Run(l, data[..n]) == before && Xor(before, data[n] as bv32) == sum && Zero(sum) == after
    ensures Run(l, data[..n + 1]) == after
  {
    hide Xor, Zero;
    assert data[..n + 1][..n] == data[..n];
    ShiftByteIsZero(before, data[n]);
  }

  lemma FirstFiveDigits(digits: seq<bv8>)
    requires digits == [0x31, 0x32, 0x33, 0x34, 0x35, 0x36, 0x37, 0x38, 0x39]
    ensures Run(ONES, digits[..5]) == 0xE72E_DCCA
  {
    hide Zero, Run;
    RunOfNone(ONES);
    Eight(0xFFFF_FFCE, 0x7FFF_FFE7, 0xBD09_C48B, 0xDC72_D93D, 0xECCF_57E6,
        0x7667_ABF3, 0xB9C5_EE81, 0xDE14_CC38, 0x6F0A_661C);
    assert digits[..0] == [];
    RunNext(ONES, digits, 0, 0xFFFF_FFFF, 0xFFFF_FFCE, 0x6F0A_661C);
    Eight(0x6F0A_662E, 0x3785_3317, 0x9934_A2F3, 0xCE6C_6A01, 0xE5C0_0E78,
        0x72E0_073C, 0x3970_039E, 0x1CB8_01CF, 0x8CAA_3B9F);
    RunNext(ONES, digits, 1, 0x6F0A_661C, 0x6F0A_662E, 0x8CAA_3B9F);
    Eight(0x8CAA_3BAC, 0x4655_1DD6, 0x232A_8EEB, 0x9363_7C0D, 0xCB47_857E,
        0x65A3_C2BF, 0xB027_DA27, 0xDAE5_D66B, 0xEF84_D04D);
    RunNext(ONES, digits, 2, 0x8CAA_3B9F, 0x8CAA_3BAC, 0xEF84_D04D);
    Eight(0xEF84_D079, 0xF534_5344, 0x7A9A_29A2, 0x3D4D_14D1, 0x9C50_B110,
        0x4E28_5888, 0x2714_2C44, 0x138A_1622, 0x09C5_0B11);
    RunNext(ONES, digits, 3, 0xEF84_D04D, 0xEF84_D079, 0x09C5_0B11);
    Eight(0x09C5_0B24, 0x04E2_8592, 0x0271_42C9, 0x83CE_9A1C, 0x41E7_4D0E,
        0x20F3_A687, 0x928F_E83B, 0xCBB1_CF65, 0xE72E_DCCA);
    RunNext(ONES, digits, 4, 0x09C5_0B11, 0x09C5_0B24, 0xE72E_DCCA);
  }

  /** The check value of CRC-32C: the digits 1 to 9. */
  lemma CheckValue()
    ensures Value([0x31, 0x32, 0x33, 0x34, 0x35, 0x36, 0x37, 0x38, 0x39]) == 0xE306_9283
  {
    hide Zero, Run;
    var digits: seq<bv8> := [0x31, 0x32, 0x33, 0x34, 0x35, 0x36, 0x37, 0x38, 0x39];
    FirstFiveDigits(digits);
    XorZero(ONES);
    Eight(0xE72E_DCFC, 0x7397_6E7E, 0x39CB_B73F, 0x9E13_E0E7, 0xCDFF_CB0B,
        0xE409_DEFD, 0xF0F2_D406, 0x7879_6A03, 0xBECA_8E79);
    RunNext(ONES, digits, 5, 0xE72E_DCCA, 0xE72E_DCFC, 0xBECA_8E79);
    Eight(0xBECA_8E4E, 0x5F65_4727, 0xAD44_98EB, 0xD454_770D, 0xE8DC_00FE,
        0x746E_007F, 0xB8C1_3B47, 0xDE96_A6DB, 0xEDBD_6815);
    RunNext(ONES, digits, 6, 0xBECA_8E79, 0xBECA_8E4E, 0xEDBD_6815);
    Eight(0xEDBD_682D, 0xF428_8F6E, 0x7A14_47B7, 0xBFFC_18A3, 0xDD08_3729,
        0xEC72_20EC, 0x7639_1076, 0x3B1C_883B, 0x9F78_7F65);
    RunNext(ONES, digits, 7, 0xEDBD_6815, 0xEDBD_682D, 0x9F78_7F65);
    Eight(0x9F78_7F5C, 0x4FBC_3FAE, 0x27DE_1FD7, 0x9119_3493, 0xCA7A_A131,
        0xE7CB_6BE0, 0x73E5_B5F0, 0x39F2_DAF8, 0x1CF9_6D7C);
    RunNext(ONES, digits, 8, 0x9F78_7F65, 0x9F78_7F5C, 0x1CF9_6D7C);
    assert digits[..9] == digits;
  }

  lemma RunOfNone(l: bv32)
    ensures Run(l, []) == l
  {
  }
}
