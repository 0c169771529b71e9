/** Varints, fixed-width integers and length-prefixed strings (util/coding.cc). */
module Coding {
  import opened Wrappers

  type Bytes = seq<Byte>

  const TWO_32: nat := 0x1_0000_0000
  const TWO_64: nat := 0x1_0000_0000_0000_0000

  // ---------------------------------------------------------------- fixed width

  /** The n low bytes of v, least significant first. */
  function Fixed(v: nat, n: nat): (r: Bytes)
    ensures |r| == n
  {
    if n == 0 then [] else [v % 0x100] + Fixed(v / 0x100, n - 1)
  }

  function DecodeFixed(s: Bytes): nat {
    if s == [] then 0 else s[0] + 0x100 * DecodeFixed(s[1..])
  }

  function Power(base: nat, n: nat): nat {
    if n == 0 then 1 else base * Power(base, n - 1)
  }

  lemma {:induction false} FixedRoundTrip(v: nat, n: nat)
    requires v < Power(0x100, n)
    ensures DecodeFixed(Fixed(v, n)) == v
  {
    if n > 0 {
      assert v / 0x100 < Power(0x100, n - 1);
      FixedRoundTrip(v / 0x100, n - 1);
      assert Fixed(v, n)[1..] == Fixed(v / 0x100, n - 1);
    }
  }

  lemma {:induction false} DecodeFixedRoundTrip(s: Bytes)
    ensures DecodeFixed(s) < Power(0x100, |s|) && Fixed(DecodeFixed(s), |s|) == s
  {
    if s != [] {
      DecodeFixedRoundTrip(s[1..]);
      assert DecodeFixed(s) / 0x100 == DecodeFixed(s[1..]) && DecodeFixed(s) % 0x100 == s[0];
    }
  }

  lemma Fixed32RoundTrip(v: nat)
    requires v < TWO_32
    ensures DecodeFixed(Fixed(v, 4)) == v
  {
    assert Power(0x100, 2) == 0x1_0000;
    assert Power(0x100, 4) == TWO_32;
    FixedRoundTrip(v, 4);
  }

  lemma Fixed64RoundTrip(v: nat)
    requires v < TWO_64
    ensures DecodeFixed(Fixed(v, 8)) == v
  {
    assert Power(0x100, 2) == 0x1_0000;
    assert Power(0x100, 4) == TWO_32;
    assert Power(0x100, 6) == TWO_32 * 0x1_0000;
    assert Power(0x100, 8) == TWO_64;
    FixedRoundTrip(v, 8);
  }

  /** The byte of a fixed-width number that stands for so many times 2^0, 2^8, 2^16 and so on. */
  lemma FixedIsLittleEndian(v: nat, n: nat)
    ensures n >= 4 ==> Fixed(v, n)[..4] == [v % 0x100, v / 0x100 % 0x100, v / 0x1_0000 % 0x100, v / 0x100_0000 % 0x100]
    ensures n >= 4 ==> Fixed(v, n)[4..] == Fixed(v / TWO_32, n - 4)
  {
    var a, b, c, d := v / 0x100, v / 0x1_0000, v / 0x100_0000, v / TWO_32;
    assert a / 0x100 == b && b / 0x100 == c && c / 0x100 == d;
    if n >= 4 {
      assert Fixed(v, n) == [v % 0x100] + Fixed(a, n - 1);
      assert Fixed(a, n - 1) == [a % 0x100] + Fixed(b, n - 2);
      assert Fixed(b, n - 2) == [b % 0x100] + Fixed(c, n - 3);
      assert Fixed(c, n - 3) == [c % 0x100] + Fixed(d, n - 4);
    }
  }

  /** A sequence of 32-bit numbers. */
  function FixedAll(ns: seq<nat>): Bytes {
    if ns == [] then [] else FixedAll(ns[..|ns| - 1]) + Fixed(ns[|ns| - 1] % TWO_32, 4)
  }

  lemma FixedNone()
    ensures FixedAll([]) == []
  {
  }

  lemma FixedOneMore(before: Bytes, ns: seq<nat>, i: nat)
    requires i < |ns|
    ensures before + FixedAll(ns[..i]) + Fixed(ns[i] % TWO_32, 4) == before + FixedAll(ns[..i + 1])
  {
    hide Fixed;
    assert ns[..i + 1][..i] == ns[..i];
  }

  lemma {:induction false} FixedAllLength(ns: seq<nat>)
    ensures |FixedAll(ns)| == 4 * |ns|
  {
    hide Fixed;
    if ns != [] {
      FixedAllLength(ns[..|ns| - 1]);
    }
  }

  lemma {:induction false} FixedAllAt(ns: seq<nat>, k: nat)
    requires k < |ns|
    ensures |FixedAll(ns)| == 4 * |ns|
    ensures FixedAll(ns)[4 * k..4 * k + 4] == Fixed(ns[k] % TWO_32, 4)
    decreases |ns|
  {
    hide Fixed;
    var n := |ns| - 1;
    FixedAllLength(ns);
    FixedAllLength(ns[..n]);
    if k < n {
      FixedAllAt(ns[..n], k);
      assert FixedAll(ns)[4 * k..4 * k + 4] == FixedAll(ns[..n])[4 * k..4 * k + 4];
    }
  }

  lemma NoWrap(v: nat)
    requires v < TWO_32
    ensures v % TWO_32 == v
  {
  }

  // ---------------------------------------------------------------- varints

  /** Seven bits to a byte, low bits first; every byte but the last has its high bit set. */
  function Varint(v: nat): (r: Bytes)
    ensures |r| >= 1
  {
    if v < 0x80 then [v] else [v % 0x80 + 0x80] + Varint(v / 0x80)
  }

  method EncodeVarint32(v: nat) returns (dst: Bytes)
    requires v < TWO_32
    ensures dst == Varint(v)
  {
    var B := 0x80;
    if v < 0x80 {
      dst := [v];
    } else if v < 0x4000 {
      dst := [v % B + B, v / 0x80];
    } else if v < 0x20_0000 {
      dst := [v % B + B, v / 0x80 % B + B, v / 0x4000];
      assert v / 0x80 / 0x80 == v / 0x4000;
    } else if v < 0x1000_0000 {
      dst := [v % B + B, v / 0x80 % B + B, v / 0x4000 % B + B, v / 0x20_0000];
      assert v / 0x80 / 0x80 == v / 0x4000 && v / 0x4000 / 0x80 == v / 0x20_0000;
    } else {
      dst := [v % B + B, v / 0x80 % B + B, v / 0x4000 % B + B, v / 0x20_0000 % B + B, v / 0x1000_0000];
      assert v / 0x80 / 0x80 == v / 0x4000 && v / 0x4000 / 0x80 == v / 0x20_0000
             && v / 0x20_0000 / 0x80 == v / 0x1000_0000;
    }
    VarintUnfolds(v, |dst|);
  }

  /** Varint, unfolded as often as a 32-bit value can need. */
  lemma VarintUnfolds(v: nat, n: nat)
    requires v < TWO_32
    ensures v >= 0x80 ==> Varint(v) == [v % 0x80 + 0x80] + Varint(v / 0x80)
    ensures v >= 0x4000 ==> Varint(v / 0x80) == [v / 0x80 % 0x80 + 0x80] + Varint(v / 0x80 / 0x80)
    ensures v >= 0x20_0000 ==>
      Varint(v / 0x80 / 0x80) == [v / 0x80 / 0x80 % 0x80 + 0x80] + Varint(v / 0x80 / 0x80 / 0x80)
    ensures v >= 0x1000_0000 ==>
      Varint(v / 0x80 / 0x80 / 0x80) == [v / 0x80 / 0x80 / 0x80 % 0x80 + 0x80] + [v / 0x80 / 0x80 / 0x80 / 0x80]
  {
  }

  method EncodeVarint64(v: nat) returns (dst: Bytes)
    ensures dst == Varint(v)
  {
    hide Varint;
    dst := [];
    var rest := v;
    while rest >= 0x80
      invariant dst + Varint(rest) == Varint(v)
    {
      VarintIs(rest);
      dst := dst + [rest % 0x80 + 0x80];
      rest := rest / 0x80;
    }
    VarintIs(rest);
    dst := dst + [rest];
  }

  lemma VarintIs(v: nat)
    ensures Varint(v) == if v < 0x80 then [v] else [v % 0x80 + 0x80] + Varint(v / 0x80)
  {
  }

  method VarintLength(v: nat) returns (len: nat)
    ensures len == |Varint(v)|
  {
    len := 1;
    var rest := v;
    while rest >= 0x80
      invariant len + |Varint(rest)| == |Varint(v)| + 1
    {
      rest := rest / 0x80;
      len := len + 1;
    }
  }

  /** Reads up to `left` bytes from s[i..]; bits shifted out of the result's width are lost. */
  function VarintAt(s: Bytes, i: nat, left: nat, weight: nat, acc: nat, width: nat): (r: Option<(nat, nat)>)
    requires width > 0 && i <= |s|
    ensures r.Some? ==> i < r.value.1 <= |s|
    decreases left
  {
    if left == 0 || i == |s| then None
    else if s[i] >= 0x80 then VarintAt(s, i + 1, left - 1, weight * 0x80, acc + (s[i] - 0x80) * weight, width)
    else Some(((acc + s[i] * weight) % width, i + 1))
  }

  function GetVarint(input: Bytes, left: nat, width: nat): Option<(nat, Bytes)>
    requires width > 0
  {
    match VarintAt(input, 0, left, 1, 0, width)
    case Some((v, n)) => Some((v, input[n..]))
    case None => None
  }

  method GetVarint32Ptr(s: Bytes) returns (r: Option<(nat, nat)>)
    ensures r == VarintAt(s, 0, 5, 1, 0, TWO_32)
  {
    if 0 < |s| {
      var result := s[0];
      if result < 0x80 {
        return Some((result, 1));
      }
    }
    r := GetVarint32PtrFallback(s);
  }

  method GetVarint32PtrFallback(s: Bytes) returns (r: Option<(nat, nat)>)
    ensures r == VarintAt(s, 0, 5, 1, 0, TWO_32)
  {
    r := GetVarintLoop(s, 0, 5, TWO_32);
  }

  method GetVarint64Ptr(s: Bytes) returns (r: Option<(nat, nat)>)
    ensures r == VarintAt(s, 0, 10, 1, 0, TWO_64)
  {
    r := GetVarintLoop(s, 0, 10, TWO_64);
  }

  /** The loop of both decoders: at most `groups` bytes, into a result of the given width. */
  method GetVarintLoop(s: Bytes, from: nat, groups: nat, width: nat) returns (r: Option<(nat, nat)>)
    requires width > 0 && from <= |s|
    ensures r == VarintAt(s, from, groups, 1, 0, width)
  {
    hide VarintAt;
    var result: nat, weight: nat, p: nat := 0, 1, from;
    var left := groups;
    while left > 0 && p < |s|
      invariant from <= p <= |s|
      invariant VarintAt(s, p, left, weight, result, width) == VarintAt(s, from, groups, 1, 0, width)
    {
      VarintAtStep(s, p, left, weight, result, width);
      var byte := s[p];
      p := p + 1;
      left := left - 1;
      if byte >= 0x80 {
        result := result + (byte - 0x80) * weight;
      } else {
        return Some(((result + byte * weight) % width, p));
      }
      weight := weight * 0x80;
    }
    VarintAtEnd(s, p, left, weight, result, width);
    return None;
  }

  lemma VarintAtStep(s: Bytes, i: nat, left: nat, weight: nat, acc: nat, width: nat)
    requires width > 0 && i < |s| && left > 0
    ensures VarintAt(s, i, left, weight, acc, width) ==
            if s[i] >= 0x80 then VarintAt(s, i + 1, left - 1, weight * 0x80, acc + (s[i] - 0x80) * weight, width)
            else Some(((acc + s[i] * weight) % width, i + 1))
  {
  }

  lemma VarintAtEnd(s: Bytes, i: nat, left: nat, weight: nat, acc: nat, width: nat)
    requires width > 0 && i <= |s| && (left == 0 || i == |s|)
    ensures VarintAt(s, i, left, weight, acc, width) == None
  {
  }

  lemma {:induction false} VarintIsRead(s: Bytes, i: nat, v: nat, left: nat, weight: nat, acc: nat, width: nat)
    requires width > 0 && i <= |s| && Varint(v) <= s[i..] && |Varint(v)| <= left
    ensures VarintAt(s, i, left, weight, acc, width) == Some(((acc + v * weight) % width, i + |Varint(v)|))
    decreases v
  {
    assert s[i] == Varint(v)[0];
    if v >= 0x80 {
      assert Varint(v)[1..] == Varint(v / 0x80);
      assert s[i + 1..] == s[i..][1..];
      VarintIsRead(s, i + 1, v / 0x80, left - 1, weight * 0x80, acc + v % 0x80 * weight, width);
      SplitProduct(v, weight);
    }
  }

  /** The number that the low seven bits of the bytes make, low bits first. */
  function GroupsValue(s: Bytes): nat {
    if s == [] then 0 else s[0] % 0x80 + 0x80 * GroupsValue(s[1..])
  }

  predicate AllContinue(s: Bytes) {
    forall k :: 0 <= k < |s| ==> s[k] >= 0x80
  }

  /** A varint ends at the first byte whose high bit is clear, which must be among the allowed ones, and
      stands for the number its bytes make, reduced to the result's width. */
  lemma VarintMeans(s: Bytes, left: nat, width: nat, v: nat, n: nat)
    requires width > 0
    ensures VarintAt(s, 0, left, 1, 0, width) == Some((v, n)) <==>
            && 0 < n <= |s| && n <= left && AllContinue(s[..n - 1]) && s[n - 1] < 0x80
            && v == GroupsValue(s[..n]) % width
  {
    VarintMeansFrom(s, 0, left, 1, 0, width, v, n);
    if 0 < n <= |s| {
      assert s[0..n] == s[..n] && s[0..n - 1] == s[..n - 1];
      assert 0 + GroupsValue(s[..n]) * 1 == GroupsValue(s[..n]);
    }
  }

  lemma {:induction false} VarintMeansFrom(s: Bytes, i: nat, left: nat, weight: nat, acc: nat, width: nat, v: nat,
                                           n: nat)
    requires width > 0 && i <= |s|
    ensures VarintAt(s, i, left, weight, acc, width) == Some((v, n)) <==>
            && i < n <= |s| && n - i <= left && AllContinue(s[i..n - 1]) && s[n - 1] < 0x80
            && v == (acc + GroupsValue(s[i..n]) * weight) % width
    decreases left
  {
    hide VarintAt, GroupsValue, AllContinue;
    if left == 0 || i == |s| {
      VarintAtEnd(s, i, left, weight, acc, width);
    } else {
      VarintAtStep(s, i, left, weight, acc, width);
      if s[i] >= 0x80 {
        var low := s[i] - 0x80;
        VarintMeansFrom(s, i + 1, left - 1, weight * 0x80, acc + low * weight, width, v, n);
        if i + 1 < n <= |s| {
          FirstGroup(s, i, n);
          GroupsAdd(low, GroupsValue(s[i + 1..n]), weight);
        }
      } else if i < n <= |s| {
        OnlyGroup(s, i, n);
      }
    }
  }

  lemma GroupsAdd(low: nat, rest: nat, weight: nat)
    ensures low * weight + rest * (weight * 0x80) == (low + 0x80 * rest) * weight
  {
  }

  lemma OnlyGroup(s: Bytes, i: nat, n: nat)
    requires i < n <= |s| && s[i] < 0x80
    ensures AllContinue(s[i..n - 1]) <==> i + 1 == n
    ensures GroupsValue(s[i..i + 1]) == s[i]
  {
    assert s[i..i + 1] == [s[i]];
    if i + 1 < n {
      assert s[i..n - 1][0] == s[i];
    }
  }

  lemma FirstGroup(s: Bytes, i: nat, n: nat)
    requires i + 1 < n <= |s| && s[i] >= 0x80
    ensures AllContinue(s[i..n - 1]) <==> AllContinue(s[i + 1..n - 1])
    ensures GroupsValue(s[i..n]) == s[i] - 0x80 + 0x80 * GroupsValue(s[i + 1..n])
  {
    assert s[i..n][1..] == s[i + 1..n];
    assert s[i..n - 1] == [s[i]] + s[i + 1..n - 1];
  }

  /** The bytes of a varint make its number, all but the last have their high bit set, and none is wasted. */
  lemma {:induction false} VarintBytes(v: nat)
    ensures GroupsValue(Varint(v)) == v
    ensures AllContinue(Varint(v)[..|Varint(v)| - 1]) && Varint(v)[|Varint(v)| - 1] < 0x80
    ensures |Varint(v)| > 1 ==> Varint(v)[|Varint(v)| - 1] > 0
    decreases v
  {
    var s := Varint(v);
    if v >= 0x80 {
      VarintBytes(v / 0x80);
      assert s[1..] == Varint(v / 0x80);
      assert s[..|s| - 1] == [s[0]] + Varint(v / 0x80)[..|s| - 2];
    }
  }

  lemma SplitProduct(v: nat, weight: nat)
    ensures v % 0x80 * weight + v / 0x80 * (weight * 0x80) == v * weight
  {
    assert v == v % 0x80 + v / 0x80 * 0x80;
    assert v * weight == (v % 0x80 + v / 0x80 * 0x80) * weight;
  }

  /** A varint cut short is not read. */
  lemma {:induction false} CutVarintIsNotRead(s: Bytes, i: nat, v: nat, left: nat, weight: nat, acc: nat, width: nat)
    requires width > 0 && i <= |s| && s[i..] < Varint(v)
    ensures VarintAt(s, i, left, weight, acc, width) == None
    decreases v
  {
    if i < |s| {
      assert s[i] == Varint(v)[0];
      if v >= 0x80 {
        assert Varint(v)[1..] == Varint(v / 0x80);
        assert s[i + 1..] == s[i..][1..];
        if left > 0 {
          CutVarintIsNotRead(s, i + 1, v / 0x80, left - 1, weight * 0x80, acc + (s[i] - 0x80) * weight, width);
        }
      }
    }
  }

  lemma {:induction false} VarintIsShort(v: nat, n: nat)
    requires v < Power(0x80, n) && n > 0
    ensures |Varint(v)| <= n
  {
    assert Power(0x80, 1) == 0x80;
    if v >= 0x80 {
      assert v / 0x80 < Power(0x80, n - 1);
      VarintIsShort(v / 0x80, n - 1);
    }
  }

  lemma ManyGroups()
    ensures Power(0x80, 5) >= TWO_32 && Power(0x80, 10) >= TWO_64
  {
    assert Power(0x80, 2) == 0x4000 && Power(0x80, 4) == 0x1000_0000;
    assert Power(0x80, 6) == 0x400_0000_0000 && Power(0x80, 8) == 0x100_0000_0000_0000;
    assert Power(0x80, 5) == 0x8_0000_0000 && Power(0x80, 10) == 0x40_0000_0000_0000_0000;
  }

  lemma VarintRoundTrip(v: nat, left: nat, width: nat, rest: Bytes)
    requires v < width && width <= Power(0x80, left) && left > 0
    ensures GetVarint(Varint(v) + rest, left, width) == Some((v, rest))
  {
    hide Varint, VarintAt, Power;
    VarintIsShort(v, left);
    var s := Varint(v) + rest;
    assert s[0..] == s && s[|Varint(v)|..] == rest;
    VarintIsRead(s, 0, v, left, 1, 0, width);
    Reduced(v, width);
  }

  lemma Reduced(v: nat, width: nat)
    requires v < width
    ensures (0 + v * 1) % width == v
  {
  }

  lemma Varint32RoundTrip(v: nat, rest: Bytes)
    requires v < TWO_32
    ensures GetVarint(Varint(v) + rest, 5, TWO_32) == Some((v, rest))
  {
    hide Varint, GetVarint, Power;
    ManyGroups();
    VarintRoundTrip(v, 5, TWO_32, rest);
  }

  lemma Varint64RoundTrip(v: nat, rest: Bytes)
    requires v < TWO_64
    ensures GetVarint(Varint(v) + rest, 10, TWO_64) == Some((v, rest))
  {
    hide Varint, GetVarint, Power;
    ManyGroups();
    VarintRoundTrip(v, 10, TWO_64, rest);
  }

  // ---------------------------------------------------------------- length-prefixed strings

  /** PutLengthPrefixedSlice; the length is stored in 32 bits. */
  function LengthPrefixed(s: Bytes): Bytes {
    Varint(|s| % TWO_32) + s
  }

  function GetLengthPrefixed(input: Bytes): (r: Option<(Bytes, Bytes)>)
  {
    match GetVarint(input, 5, TWO_32)
    case Some((len, rest)) => if len <= |rest| then Some((rest[..len], rest[len..])) else None
    case None => None
  }

  method PutLengthPrefixedSlice(dst: Bytes, s: Bytes) returns (r: Bytes)
    ensures r == dst + LengthPrefixed(s)
  {
    var len := EncodeVarint32(|s| % TWO_32);
    r := dst + len + s;
    assert dst + len + s == dst + (len + s);
  }

  method GetVarint32(input: Bytes) returns (r: Option<(nat, Bytes)>)
    ensures r == GetVarint(input, 5, TWO_32)
  {
    hide VarintAt;
    var found := GetVarint32Ptr(input);
    r := if found.Some? then Some((found.value.0, input[found.value.1..])) else None;
  }

  method GetVarint64(input: Bytes) returns (r: Option<(nat, Bytes)>)
    ensures r == GetVarint(input, 10, TWO_64)
  {
    hide VarintAt;
    var found := GetVarint64Ptr(input);
    r := if found.Some? then Some((found.value.0, input[found.value.1..])) else None;
  }

  method GetLengthPrefixedSlice(input: Bytes) returns (r: Option<(Bytes, Bytes)>)
    ensures r == GetLengthPrefixed(input)
  {
    hide GetVarint;
    var len := GetVarint32(input);
    if len.Some? && len.value.0 <= |len.value.1| {
      r := Some((len.value.1[..len.value.0], len.value.1[len.value.0..]));
    } else {
      r := None;
    }
  }

  /** A string is read back, and nothing after it, exactly when its length fits the prefix. */
  lemma LengthPrefixedRoundTrip(s: Bytes, rest: Bytes)
    ensures |s| < TWO_32 ==> GetLengthPrefixed(LengthPrefixed(s) + rest) == Some((s, rest))
    ensures |s| >= TWO_32 ==> GetLengthPrefixed(LengthPrefixed(s) + rest) != Some((s, rest))
  {
    assert LengthPrefixed(s) + rest == Varint(|s| % TWO_32) + (s + rest);
    Varint32RoundTrip(|s| % TWO_32, s + rest);
  }

  // ---------------------------------------------------------------- what is cut short

  lemma CutVarint(n: nat, s: Bytes)
    requires s < Varint(n)
    ensures GetVarint(s, 5, TWO_32) == None && GetVarint(s, 10, TWO_64) == None
  {
    assert s[0..] == s;
    CutVarintIsNotRead(s, 0, n, 5, 1, 0, TWO_32);
    CutVarintIsNotRead(s, 0, n, 10, 1, 0, TWO_64);
  }

  lemma CutString(x: Bytes, s: Bytes)
    requires |x| < TWO_32 && s < LengthPrefixed(x)
    ensures GetLengthPrefixed(s) == None
  {
    NoWrap(|x|);
    var len := Varint(|x|);
    hide Varint, GetVarint;
    if |s| < |len| {
      assert s == len[..|s|];
      assert s < len;
      CutVarint(|x|, s);
    } else {
      var rest := s[|len|..];
      assert s == len + rest;
      Varint32RoundTrip(|x|, rest);
    }
  }

  /** A prefix of two parts ends in the first, or has it and ends in the second. */
  lemma CutParts(a: Bytes, b: Bytes, s: Bytes)
    requires s < a + b
    ensures s < a || (a <= s && s == a + s[|a|..] && s[|a|..] < b)
  {
    if |s| < |a| {
      assert s == a[..|s|];
    } else {
      assert s[..|a|] == a;
      assert s[|a|..] == b[..|s| - |a|];
    }
  }
}
