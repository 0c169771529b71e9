/** The order of keys, and the short keys that fit between two others
    (util/comparator.cc, db/dbformat.cc). */
module Comparators {
  import opened Wrappers
  import opened Coding

  // ---------------------------------------------------------------- bytewise

  /** Slice::compare: by the first byte that differs, a prefix first. */
  predicate BytesLess(a: Bytes, b: Bytes) {
    b != [] && (a == [] || a[0] < b[0] || (a[0] == b[0] && BytesLess(a[1..], b[1..])))
  }

  lemma {:induction false} BytesLessIrreflexive(a: Bytes)
    ensures !BytesLess(a, a)
  {
    if a != [] {
      BytesLessIrreflexive(a[1..]);
    }
  }

  lemma {:induction false} BytesLessTotal(a: Bytes, b: Bytes)
    requires a != b
    ensures BytesLess(a, b) || BytesLess(b, a)
  {
    if a != [] && b != [] && a[0] == b[0] {
      assert a == [a[0]] + a[1..] && b == [b[0]] + b[1..];
      BytesLessTotal(a[1..], b[1..]);
    }
  }

  lemma {:induction false} BytesLessTransitive(a: Bytes, b: Bytes, c: Bytes)
    requires BytesLess(a, b) && BytesLess(b, c)
    ensures BytesLess(a, c)
  {
    if a != [] && a[0] == b[0] == c[0] {
      BytesLessTransitive(a[1..], b[1..], c[1..]);
    }
  }

  /** How many bytes two strings share. */
  function Common(a: Bytes, b: Bytes): (n: nat)
    ensures n <= |a| && n <= |b| && a[..n] == b[..n]
    ensures n < |a| && n < |b| ==> a[n] != b[n]
  {
    if a == [] || b == [] || a[0] != b[0] then 0
    else
      var n := 1 + Common(a[1..], b[1..]);
      assert a[..n] == [a[0]] + a[1..][..n - 1] && b[..n] == [b[0]] + b[1..][..n - 1];
      n
  }

  lemma {:induction false} CommonIs(a: Bytes, b: Bytes, n: nat)
    requires n <= |a| && n <= |b| && a[..n] == b[..n] && (n == |a| || n == |b| || a[n] != b[n])
    ensures Common(a, b) == n
  {
    if n > 0 {
      assert a[0] == a[..n][0] == b[..n][0] == b[0];
      assert a[1..][..n - 1] == a[..n][1..] && b[1..][..n - 1] == b[..n][1..];
      CommonIs(a[1..], b[1..], n - 1);
    }
  }

  /** Strings compare as they do behind a shared prefix. */
  lemma {:induction false} LessAfterPrefix(p: Bytes, a: Bytes, b: Bytes)
    ensures BytesLess(p + a, p + b) == BytesLess(a, b)
  {
    if p == [] {
      assert p + a == a && p + b == b;
    } else {
      assert (p + a)[1..] == p[1..] + a && (p + b)[1..] == p[1..] + b;
      LessAfterPrefix(p[1..], a, b);
    }
  }

  lemma LessAt(a: Bytes, b: Bytes, n: nat)
    requires n < |a| && n < |b| && a[..n] == b[..n] && a[n] < b[n]
    ensures BytesLess(a, b)
  {
    LessAfterPrefix(a[..n], a[n..], b[n..]);
    assert a == a[..n] + a[n..] && b == a[..n] + b[n..];
  }

  /** Whether the first differing byte leaves a value in between. */
  predicate HasGap(start: Bytes, limit: Bytes) {
    var n := Common(start, limit);
    n < |start| && n < |limit| && start[n] < 0xFF && start[n] + 1 < limit[n]
  }

  function Separator(start: Bytes, limit: Bytes): Bytes {
    var n := Common(start, limit);
    if HasGap(start, limit) then start[..n] + [start[n] + 1] else start
  }

  method FindShortestSeparator(start: Bytes, limit: Bytes) returns (r: Bytes)
    ensures r == Separator(start, limit)
  {
    hide Common;
    var minLength := if |start| < |limit| then |start| else |limit|;
    var diffIndex := 0;
    while diffIndex < minLength && start[diffIndex] == limit[diffIndex]
      invariant diffIndex <= minLength && start[..diffIndex] == limit[..diffIndex]
    {
      diffIndex := diffIndex + 1;
    }
    CommonIs(start, limit, diffIndex);
    r := start;
    if diffIndex < minLength {
      var diffByte := start[diffIndex];
      if diffByte < 0xFF && diffByte + 1 < limit[diffIndex] {
        r := start[diffIndex := diffByte + 1][..diffIndex + 1];
      }
    }
  }

  /** A separator is the start itself, or lies strictly between start and limit and is no longer. */
  lemma SeparatorIsBetween(start: Bytes, limit: Bytes)
    ensures var r := Separator(start, limit);
      && |r| <= |start|
      && (r == start || (BytesLess(start, r) && BytesLess(r, limit)))
  {
    hide Common;
    var n, r := Common(start, limit), Separator(start, limit);
    if HasGap(start, limit) {
      assert r[..n] == start[..n];
      LessAt(start, r, n);
      LessAt(r, limit, n);
    }
  }

  /** Where the first byte stands that can be increased. */
  function FirstBelowMax(s: Bytes): (n: nat)
    ensures n <= |s| && (n < |s| ==> s[n] < 0xFF) && forall i :: 0 <= i < n ==> s[i] == 0xFF
  {
    if s == [] || s[0] != 0xFF then 0 else 1 + FirstBelowMax(s[1..])
  }

  lemma {:induction false} FirstBelowMaxIs(s: Bytes, n: nat)
    requires n <= |s| && (n < |s| ==> s[n] != 0xFF) && forall i :: 0 <= i < n ==> s[i] == 0xFF
    ensures FirstBelowMax(s) == n
  {
    if n > 0 {
      FirstBelowMaxIs(s[1..], n - 1);
    }
  }

  function Successor(key: Bytes): Bytes {
    var n := FirstBelowMax(key);
    if n < |key| then key[..n] + [key[n] + 1] else key
  }

  method FindShortSuccessor(key: Bytes) returns (r: Bytes)
    ensures r == Successor(key)
  {
    hide FirstBelowMax;
    for i := 0 to |key|
      invariant forall k :: 0 <= k < i ==> key[k] == 0xFF
    {
      var byte := key[i];
      if byte != 0xFF {
        FirstBelowMaxIs(key, i);
        r := key[i := byte + 1][..i + 1];
        return;
      }
    }
    FirstBelowMaxIs(key, |key|);
    r := key;
  }

  lemma SuccessorIsAfter(key: Bytes)
    ensures |Successor(key)| <= |key| && (Successor(key) == key || BytesLess(key, Successor(key)))
  {
    hide FirstBelowMax;
    var n := FirstBelowMax(key);
    if n < |key| {
      assert Successor(key)[..n] == key[..n];
      LessAt(key, Successor(key), n);
    }
  }

  // ---------------------------------------------------------------- internal keys

  /** An internal key ends in eight bytes that pack the sequence number and the type. */
  predicate IsInternal(k: Bytes) {
    |k| >= 8
  }

  function UserKeyOf(k: Bytes): Bytes
    requires IsInternal(k)
  {
    k[..|k| - 8]
  }

  function TagOf(k: Bytes): nat
    requires IsInternal(k)
  {
    DecodeFixed(k[|k| - 8..])
  }

  /** By user key, then the newest first.  Strings too short to be internal keys come before them all. */
  predicate InternalLess(a: Bytes, b: Bytes) {
    if IsInternal(a) && IsInternal(b) then
      BytesLess(UserKeyOf(a), UserKeyOf(b)) || (UserKeyOf(a) == UserKeyOf(b) && TagOf(a) > TagOf(b))
    else if !IsInternal(a) && !IsInternal(b) then BytesLess(a, b)
    else IsInternal(b)
  }

  lemma InternalLessIrreflexive(a: Bytes)
    ensures !InternalLess(a, a)
  {
    BytesLessIrreflexive(if IsInternal(a) then UserKeyOf(a) else a);
  }

  lemma KeyIsItsParts(k: Bytes)
    requires IsInternal(k)
    ensures k == UserKeyOf(k) + Fixed(TagOf(k), 8)
  {
    hide DecodeFixed, Fixed;
    DecodeFixedRoundTrip(k[|k| - 8..]);
  }

  lemma InternalLessTotal(a: Bytes, b: Bytes)
    requires a != b
    ensures InternalLess(a, b) || InternalLess(b, a)
  {
    hide BytesLess, DecodeFixed;
    if IsInternal(a) && IsInternal(b) {
      if UserKeyOf(a) != UserKeyOf(b) {
        BytesLessTotal(UserKeyOf(a), UserKeyOf(b));
      } else {
        KeyIsItsParts(a);
        KeyIsItsParts(b);
      }
    } else if !IsInternal(a) && !IsInternal(b) {
      BytesLessTotal(a, b);
    }
  }

  lemma InternalLessTransitive(a: Bytes, b: Bytes, c: Bytes)
    requires InternalLess(a, b) && InternalLess(b, c)
    ensures InternalLess(a, c)
  {
    hide BytesLess, DecodeFixed;
    if IsInternal(a) && IsInternal(b) && IsInternal(c) {
      if BytesLess(UserKeyOf(a), UserKeyOf(b)) && BytesLess(UserKeyOf(b), UserKeyOf(c)) {
        BytesLessTransitive(UserKeyOf(a), UserKeyOf(b), UserKeyOf(c));
      }
    } else if !IsInternal(a) && !IsInternal(b) && !IsInternal(c) {
      BytesLessTransitive(a, b, c);
    }
  }

  /** kMaxSequenceNumber with kValueTypeForSeek: before every other tag of the same user key. */
  const FIRST_TAG: nat := 0xFF_FFFF_FFFF_FFFF * 0x100 + 1

  function WithTag(user: Bytes, tag: nat): Bytes {
    user + Fixed(tag, 8)
  }

  lemma WithTagIs(user: Bytes, tag: nat)
    requires tag < TWO_64
    ensures IsInternal(WithTag(user, tag)) && UserKeyOf(WithTag(user, tag)) == user && TagOf(WithTag(user, tag)) == tag
  {
    hide Fixed, DecodeFixed;
    Fixed64RoundTrip(tag);
    var k := WithTag(user, tag);
    assert k[|k| - 8..] == Fixed(tag, 8);
  }

  /** InternalKeyComparator::FindShortestSeparator: shortens the user key only when that makes it larger. */
  method FindShortestInternalSeparator(start: Bytes, limit: Bytes) returns (r: Bytes)
    requires IsInternal(start) && IsInternal(limit)
    ensures IsInternal(r) && Separates(start, r, limit)
    ensures r == start || r == WithTag(Separator(UserKeyOf(start), UserKeyOf(limit)), FIRST_TAG)
    ensures |Separator(UserKeyOf(start), UserKeyOf(limit))| < |UserKeyOf(start)| ==> r != start
  {
    hide BytesLess, Separator, DecodeFixed, Fixed;
    var userStart := UserKeyOf(start);
    var userLimit := UserKeyOf(limit);
    SeparatorIsBetween(userStart, userLimit);
    r := start;
    var tmp := FindShortestSeparator(userStart, userLimit);
    if |tmp| < |userStart| && BytesLess(userStart, tmp) {
      WithTagIs(tmp, FIRST_TAG);
      r := tmp + Fixed(FIRST_TAG, 8);
    }
  }

  /** r is start itself, or its user key lies strictly between those of start and limit. */
  predicate Separates(start: Bytes, r: Bytes, limit: Bytes)
    requires IsInternal(start) && IsInternal(r) && IsInternal(limit)
  {
    r == start || (BytesLess(UserKeyOf(start), UserKeyOf(r)) && BytesLess(UserKeyOf(r), UserKeyOf(limit)))
  }

  /** Between two keys in order, a separator is not before the first and is before the second. */
  lemma SeparatorIsOrdered(start: Bytes, r: Bytes, limit: Bytes)
    requires IsInternal(start) && IsInternal(r) && IsInternal(limit) && Separates(start, r, limit)
    requires InternalLess(start, limit)
    ensures !InternalLess(r, start) && InternalLess(r, limit)
  {
    InternalLessIrreflexive(start);
    if r != start && InternalLess(r, start) {
      InternalLessTransitive(start, r, start);
    }
  }

  method FindShortInternalSuccessor(key: Bytes) returns (r: Bytes)
    requires IsInternal(key)
    ensures IsInternal(r) && !InternalLess(r, key)
    ensures r == if |Successor(UserKeyOf(key))| < |UserKeyOf(key)|
            then WithTag(Successor(UserKeyOf(key)), FIRST_TAG) else key
  {
    hide BytesLess, Successor, DecodeFixed, Fixed;
    var userKey := UserKeyOf(key);
    SuccessorIsAfter(userKey);
    InternalLessIrreflexive(key);
    r := key;
    var tmp := FindShortSuccessor(userKey);
    if |tmp| < |userKey| && BytesLess(userKey, tmp) {
      WithTagIs(tmp, FIRST_TAG);
      r := tmp + Fixed(FIRST_TAG, 8);
      if InternalLess(r, key) {
        InternalLessTransitive(key, r, key);
      }
    }
  }
}
