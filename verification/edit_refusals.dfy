/** What VersionEdit::DecodeFrom refuses: unknown tags, levels there are not, and fields that are cut short
    (db/version_edit.cc). */
module EditRefusals {
  import opened Wrappers
  import opened Coding
  import opened VersionEdits
  import Versions

  // ---------------------------------------------------------------- tags and levels

  lemma UnknownTagIsRefused(e: Edit, tag: nat, rest: Bytes)
    requires InOrder(e.deletedFiles) && tag < TWO_32
    requires tag == 0 || tag == 8 || tag > 9
    ensures Decode(e, Varint(tag) + rest) == None
  {
    hide GetVarint, Varint, InOrder;
    Varint32RoundTrip(tag, rest);
  }

  /** Seven levels there are; a field of any other makes the whole edit unreadable. */
  lemma WrongLevelIsRefused(e: Edit, tag: nat, level: nat, rest: Bytes)
    requires InOrder(e.deletedFiles) && 7 <= level < TWO_32
    requires tag == COMPACT_POINTER || tag == DELETED_FILE || tag == NEW_FILE
    ensures Decode(e, Varint(tag) + (Varint(level) + rest)) == None
  {
    hide GetVarint, Varint, InOrder, GetNumber, GetLengthPrefixed;
    Varint32RoundTrip(tag, Varint(level) + rest);
    Varint32RoundTrip(level, rest);
  }

  // ---------------------------------------------------------------- cut fields

  lemma CutNumber(n: nat, s: Bytes)
    requires s < Varint(n)
    ensures GetVarint(s, 5, TWO_32) == None && GetNumber(s) == None && GetLevel(s) == None
    ensures GetLengthPrefixed(s) == None
  {
    hide GetVarint, Varint;
    CutVarint(n, s);
  }

  lemma CutPointer(level: LevelNumber, key: Bytes, s: Bytes)
    requires |key| < TWO_32 && s < Varint(level) + LengthPrefixed(key)
    ensures ReadPointer(s) == None
  {
    hide Varint, LengthPrefixed, GetLevel, GetLengthPrefixed;
    CutParts(Varint(level), LengthPrefixed(key), s);
    if s < Varint(level) {
      CutNumber(level, s);
    } else {
      var rest := s[|Varint(level)|..];
      LevelRead(level, rest);
      CutString(key, rest);
    }
  }

  lemma CutDeletion(level: LevelNumber, number: nat, s: Bytes)
    requires number < TWO_64 && s < Varint(level) + Varint(number)
    ensures ReadDeletion(s) == None
  {
    hide Varint, GetNumber, GetLevel;
    CutParts(Varint(level), Varint(number), s);
    if s < Varint(level) {
      CutNumber(level, s);
    } else {
      var rest := s[|Varint(level)|..];
      LevelRead(level, rest);
      CutNumber(number, rest);
    }
  }

  /** The reading of an addition from its second, third, fourth and fifth part on. */
  predicate AfterLevel(s: Bytes) {
    var number := GetNumber(s);
    number.Some? && AfterNumber(number.value.1)
  }

  predicate AfterNumber(s: Bytes) {
    var fileSize := GetNumber(s);
    fileSize.Some? && AfterSize(fileSize.value.1)
  }

  predicate AfterSize(s: Bytes) {
    var smallest := GetLengthPrefixed(s);
    smallest.Some? && GetLengthPrefixed(smallest.value.1).Some?
  }

  lemma AdditionIsRead(s: Bytes)
    ensures ReadAddition(s).Some? <==> GetLevel(s).Some? && AfterLevel(GetLevel(s).value.1)
  {
    hide GetLevel, GetNumber, GetLengthPrefixed;
  }

  lemma CutSize(m: FileMeta, s: Bytes)
    requires FieldFits(NewFile(0, m)) && s < LengthPrefixed(m.smallest) + LengthPrefixed(m.largest)
    ensures !AfterSize(s)
  {
    hide GetLengthPrefixed, LengthPrefixed;
    CutParts(LengthPrefixed(m.smallest), LengthPrefixed(m.largest), s);
    if s < LengthPrefixed(m.smallest) {
      CutString(m.smallest, s);
    } else {
      var rest := s[|LengthPrefixed(m.smallest)|..];
      StringRead(m.smallest, rest);
      CutString(m.largest, rest);
    }
  }

  lemma CutAfterNumber(m: FileMeta, tail: Bytes, s: Bytes)
    requires FieldFits(NewFile(0, m)) && tail == LengthPrefixed(m.smallest) + LengthPrefixed(m.largest)
    requires s < Varint(m.fileSize) + tail
    ensures !AfterNumber(s)
  {
    hide GetNumber, Varint, LengthPrefixed, AfterSize;
    CutParts(Varint(m.fileSize), tail, s);
    if s < Varint(m.fileSize) {
      CutNumber(m.fileSize, s);
    } else {
      var rest := s[|Varint(m.fileSize)|..];
      NumberRead(m.fileSize, rest);
      CutSize(m, rest);
    }
  }

  lemma CutAfterLevel(m: FileMeta, tail: Bytes, s: Bytes)
    requires FieldFits(NewFile(0, m))
    requires tail == Varint(m.fileSize) + (LengthPrefixed(m.smallest) + LengthPrefixed(m.largest))
    requires s < Varint(m.number) + tail
    ensures !AfterLevel(s)
  {
    hide GetNumber, Varint, LengthPrefixed, AfterNumber;
    CutParts(Varint(m.number), tail, s);
    if s < Varint(m.number) {
      CutNumber(m.number, s);
    } else {
      var rest := s[|Varint(m.number)|..];
      NumberRead(m.number, rest);
      CutAfterNumber(m, LengthPrefixed(m.smallest) + LengthPrefixed(m.largest), rest);
    }
  }

  lemma CutAddition(level: LevelNumber, m: FileMeta, s: Bytes)
    requires FieldFits(NewFile(level, m)) && s < Payload(NewFile(level, m))
    ensures ReadAddition(s) == None
  {
    var strings := LengthPrefixed(m.smallest) + LengthPrefixed(m.largest);
    var tail := Varint(m.fileSize) + strings;
    assert Payload(NewFile(level, m)) == Varint(level) + (Varint(m.number) + tail);
    hide GetLevel, Varint, LengthPrefixed, AfterLevel, Payload;
    AdditionIsRead(s);
    CutParts(Varint(level), Varint(m.number) + tail, s);
    if s < Varint(level) {
      CutNumber(level, s);
    } else {
      var rest := s[|Varint(level)|..];
      LevelRead(level, rest);
      CutAfterLevel(m, tail, rest);
    }
  }

  lemma CutPayload(f: Field, s: Bytes)
    requires FieldFits(f) && s < Payload(f)
    ensures ReadField(TagOf(f), s) == None
  {
    hide Varint, LengthPrefixed, GetNumber, GetLevel, GetLengthPrefixed, ReadPointer, ReadDeletion, ReadAddition;
    match f
    case Comparator(name) => CutString(name, s);
    case CompactPointer(level, key) => CutPointer(level, key, s);
    case DeletedFile(level, number) => CutDeletion(level, number, s);
    case NewFile(level, meta) => CutAddition(level, meta, s);
    case LogNumber(n) => CutNumber(n, s);
    case PrevLogNumber(n) => CutNumber(n, s);
    case NextFileNumber(n) => CutNumber(n, s);
    case LastSequence(n) => CutNumber(n, s);
  }

  /** A field cut short is refused, wherever the cut is. */
  lemma CutField(e: Edit, f: Field, s: Bytes)
    requires InOrder(e.deletedFiles) && FieldFits(f) && s != [] && s < EncodeField(f)
    ensures Decode(e, s) == None
  {
    hide Varint, GetVarint, Payload, InOrder, FieldFits, ReadField;
    var tag := Varint(TagOf(f));
    CutParts(tag, Payload(f), s);
    if s < tag {
      CutNumber(TagOf(f), s);
    } else {
      var rest := s[|tag|..];
      Varint32RoundTrip(TagOf(f), rest);
      CutPayload(f, rest);
    }
  }

  /** What is left of some fields is read exactly when the cut is between two of them. */
  lemma {:induction false} CutFields(e: Edit, fs: seq<Field>, s: Bytes)
    requires InOrder(e.deletedFiles) && (forall f :: f in fs ==> FieldFits(f)) && s <= EncodeFields(fs)
    ensures Decode(e, s).Some? <==> exists n :: 0 <= n <= |fs| && s == EncodeFields(fs[..n])
    decreases |fs|
  {
    hide Decode, EncodeField, InOrder, FieldFits, Apply;
    if s == [] {
      DecodeNothing(e);
      assert s == EncodeFields(fs[..0]);
    } else {
      var head, rest := EncodeField(fs[0]), EncodeFields(fs[1..]);
      FieldIsSome(fs[0]);
      if |s| < |head| {
        assert s == (head + rest)[..|s|] == head[..|s|];
        CutField(e, fs[0], s);
        forall n | 0 <= n <= |fs| ensures s != EncodeFields(fs[..n]) {
          FieldsFront(fs, n);
        }
      } else {
        assert s[..|head|] == head;
        var after := s[|head|..];
        assert s == head + after && after == rest[..|after|];
        DecodeOne(e, fs[0], after);
        CutFields(Apply(e, fs[0]), fs[1..], after);
        if n :| 0 <= n <= |fs| - 1 && after == EncodeFields(fs[1..][..n]) {
          FieldsFront(fs, n + 1);
        }
        forall n | 0 <= n <= |fs| && s == EncodeFields(fs[..n])
          ensures n > 0 && after == EncodeFields(fs[1..][..n - 1])
        {
          FieldsFront(fs, n);
        }
      }
    }
  }

  lemma FieldIsSome(f: Field)
    ensures EncodeField(f) != []
  {
    hide Varint, Payload;
  }

  lemma FieldsFront(fs: seq<Field>, n: nat)
    requires n <= |fs|
    ensures EncodeFields(fs[..n]) ==
            if n == 0 then [] else EncodeField(fs[0]) + EncodeFields(fs[1..][..n - 1])
  {
    hide EncodeField;
    if n > 0 {
      assert fs[..n][1..] == fs[1..][..n - 1];
    }
  }

  /** An encoded edit of which only a front is left is refused, unless it ends with one of its fields. */
  lemma CutEditIsRefused(ps: seq<(LevelNumber, Bytes)>, e: Edit, s: Bytes)
    requires EditFits(e) && s <= Encode(e)
    ensures Decode(Cleared(ps), s).Some? <==>
            exists n :: 0 <= n <= |FieldsOf(e)| && s == EncodeFields(FieldsOf(e)[..n])
  {
    hide Decode, EncodeFields, FieldsOf, FieldFits, InOrder;
    NothingIsInOrder();
    EditParts(e);
    CutFields(Cleared(ps), FieldsOf(e), s);
  }
}
