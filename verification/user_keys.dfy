/** Keys as bytes and keys as values: where a byte string stands in the bytewise order, and what the
    bytes of an internal key mean (util/comparator.cc, db/dbformat.h, db/dbformat.cc). */
module UserKeys {
  import opened Wrappers
  import opened Coding
  import opened Comparators
  import opened Entries

  /** The place of a byte string among all byte strings: its bytes, each raised by one, as digits in
      base 257 behind the point.  A string that has ended has the digit zero. */
  function Number(s: Bytes): (r: UserKey)
    ensures 0.0 <= r < 1.0
  {
    if s == [] then 0.0 else (s[0] as real + 1.0 + Number(s[1..])) / 257.0
  }

  lemma {:induction false} NumberKeepsOrder(a: Bytes, b: Bytes)
    ensures BytesLess(a, b) <==> Number(a) < Number(b)
  {
    if a != [] && b != [] {
      NumberKeepsOrder(a[1..], b[1..]);
      if a[0] < b[0] {
        assert a[0] as real + 1.0 <= b[0] as real;
      } else if b[0] < a[0] {
        assert b[0] as real + 1.0 <= a[0] as real;
      }
    }
  }

  lemma NumbersDiffer(a: Bytes, b: Bytes)
    ensures Number(a) == Number(b) <==> a == b
  {
    hide Number, BytesLess;
    if a != b {
      BytesLessTotal(a, b);
      NumberKeepsOrder(a, b);
      NumberKeepsOrder(b, a);
    }
  }

  /** What an internal key says.  Strings too short to be one say nothing. */
  function KeyOf(k: Bytes): IKey {
    if IsInternal(k) then IKey(Number(UserKeyOf(k)), TagOf(k) / 0x100, TagOf(k) % 0x100) else IKey(0.0, 0, 0)
  }

  /** The bytes of internal keys compare as what they say does. */
  lemma SameOrder(a: Bytes, b: Bytes)
    requires IsInternal(a) && IsInternal(b)
    ensures InternalLess(a, b) <==> Before(KeyOf(a), KeyOf(b))
  {
    NumberKeepsOrder(UserKeyOf(a), UserKeyOf(b));
    NumbersDiffer(UserKeyOf(a), UserKeyOf(b));
    PackedOrder(KeyOf(a), KeyOf(b));
    TagsOf(a);
    TagsOf(b);
    hide BytesLess, TagOf, UserKeyOf, Number;
  }

  lemma TagsOf(k: Bytes)
    requires IsInternal(k)
    ensures KeyOf(k).seqno <= MAX_SEQUENCE && KeyOf(k).code < 0x100
    ensures PackSequenceAndType(KeyOf(k).seqno, KeyOf(k).code) == TagOf(k)
  {
    hide DecodeFixed, Number;
    DecodeFixedRoundTrip(k[|k| - 8..]);
    PowerOfEight();
  }

  lemma PowerOfEight()
    ensures Power(0x100, 8) == TWO_64
  {
    assert Power(0x100, 4) == TWO_32;
  }

  predicate KeyFits(key: IKey) {
    key.seqno <= MAX_SEQUENCE && key.code <= 1
  }

  /** The internal key of a user key. */
  function KeyBytes(user: Bytes, seqno: nat, code: nat): Bytes {
    WithTag(user, PackSequenceAndType(seqno, code))
  }

  lemma KeyReadBack(user: Bytes, seqno: nat, code: nat)
    requires seqno <= MAX_SEQUENCE && code <= 1
    ensures var k := KeyBytes(user, seqno, code);
      IsInternal(k) && UserKeyOf(k) == user && KeyOf(k) == IKey(Number(user), seqno, code)
  {
    hide Number, WithTag, UserKeyOf, TagOf;
    WithTagIs(user, PackSequenceAndType(seqno, code));
  }
}
