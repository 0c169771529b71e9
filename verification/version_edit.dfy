/** Version edits as bytes: tagged fields, in any order (db/version_edit.cc). */
module VersionEdits {
  import opened Wrappers
  import opened Coding
  import Builders
  import Versions

  type LevelNumber = Builders.LevelNumber

  const COMPARATOR: nat := 1
  const LOG_NUMBER: nat := 2
  const NEXT_FILE_NUMBER: nat := 3
  const LAST_SEQUENCE: nat := 4
  const COMPACT_POINTER: nat := 5
  const DELETED_FILE: nat := 6
  const NEW_FILE: nat := 7
  const PREV_LOG_NUMBER: nat := 9

  datatype FileMeta = FileMeta(number: nat, fileSize: nat, smallest: Bytes, largest: Bytes)

  /** A has_ flag and its value are one option.  The set of deleted files is kept in order. */
  datatype Edit = Edit(
    comparator: Option<Bytes>,
    logNumber: Option<nat>,
    prevLogNumber: Option<nat>,
    nextFileNumber: Option<nat>,
    lastSequence: Option<nat>,
    compactPointers: seq<(LevelNumber, Bytes)>,
    deletedFiles: seq<(LevelNumber, nat)>,
    newFiles: seq<(LevelNumber, FileMeta)>)

  const FRESH: Edit := Edit(None, None, None, None, None, [], [], [])

  /** What Clear leaves: the compaction pointers stay. */
  function Cleared(pointers: seq<(LevelNumber, Bytes)>): Edit {
    FRESH.(compactPointers := pointers)
  }

  // ---------------------------------------------------------------- the set of deleted files

  predicate PairLess(a: (LevelNumber, nat), b: (LevelNumber, nat)) {
    a.0 < b.0 || (a.0 == b.0 && a.1 < b.1)
  }

  predicate InOrder(s: seq<(LevelNumber, nat)>) {
    forall i, j :: 0 <= i < j < |s| ==> PairLess(s[i], s[j])
  }

  /** std::set::insert. */
  function Insert(s: seq<(LevelNumber, nat)>, p: (LevelNumber, nat)): (r: seq<(LevelNumber, nat)>)
    requires InOrder(s)
    ensures InOrder(r) && forall q :: q in r <==> q in s || q == p
  {
    if s == [] then [p]
    else
      var n := |s| - 1;
      if s[n] == p then s
      else if PairLess(s[n], p) then s + [p]
      else
        var front := Insert(s[..n], p);
        assert forall q :: q in front ==> PairLess(q, s[n]);
        front + [s[n]]
  }

  lemma InsertAtEnd(s: seq<(LevelNumber, nat)>, p: (LevelNumber, nat))
    requires InOrder(s + [p])
    ensures InOrder(s) && Insert(s, p) == s + [p]
  {
    assert forall i :: 0 <= i < |s| ==> (s + [p])[i] == s[i];
    assert (s + [p])[|s|] == p;
  }

  // ---------------------------------------------------------------- fields

  /** One tagged field of an edit. */
  datatype Field =
    | Comparator(name: Bytes)
    | LogNumber(number: nat)
    | PrevLogNumber(number: nat)
    | NextFileNumber(number: nat)
    | LastSequence(number: nat)
    | CompactPointer(level: LevelNumber, key: Bytes)
    | DeletedFile(level: LevelNumber, number: nat)
    | NewFile(level: LevelNumber, meta: FileMeta)

  /** Numbers of 64 bits, strings whose length has 32 bits. */
  predicate FieldFits(f: Field) {
    match f
    case Comparator(name) => |name| < TWO_32
    case CompactPointer(level, key) => |key| < TWO_32
    case DeletedFile(level, number) => number < TWO_64
    case NewFile(level, meta) =>
      && meta.number < TWO_64 && meta.fileSize < TWO_64
      && |meta.smallest| < TWO_32 && |meta.largest| < TWO_32
    case _ => f.number < TWO_64
  }

  function TagOf(f: Field): nat {
    match f
    case Comparator(_) => COMPARATOR
    case LogNumber(_) => LOG_NUMBER
    case PrevLogNumber(_) => PREV_LOG_NUMBER
    case NextFileNumber(_) => NEXT_FILE_NUMBER
    case LastSequence(_) => LAST_SEQUENCE
    case CompactPointer(_, _) => COMPACT_POINTER
    case DeletedFile(_, _) => DELETED_FILE
    case NewFile(_, _) => NEW_FILE
  }

  function Payload(f: Field): Bytes {
    match f
    case Comparator(name) => LengthPrefixed(name)
    case CompactPointer(level, key) => Varint(level) + LengthPrefixed(key)
    case DeletedFile(level, number) => Varint(level) + Varint(number)
    case NewFile(level, meta) =>
      Varint(level) + Varint(meta.number) + Varint(meta.fileSize) + LengthPrefixed(meta.smallest)
          + LengthPrefixed(meta.largest)
    case _ => Varint(f.number)
  }

  function EncodeField(f: Field): Bytes {
    Varint(TagOf(f)) + Payload(f)
  }

  function EncodeFields(fs: seq<Field>): Bytes {
    if fs == [] then [] else EncodeField(fs[0]) + EncodeFields(fs[1..])
  }

  /** What reading a field does to an edit: the last value of a single field counts. */
  function Apply(e: Edit, f: Field): (r: Edit)
    requires InOrder(e.deletedFiles)
    ensures InOrder(r.deletedFiles)
  {
    match f
    case Comparator(name) => e.(comparator := Some(name))
    case LogNumber(n) => e.(logNumber := Some(n))
    case PrevLogNumber(n) => e.(prevLogNumber := Some(n))
    case NextFileNumber(n) => e.(nextFileNumber := Some(n))
    case LastSequence(n) => e.(lastSequence := Some(n))
    case CompactPointer(level, key) => e.(compactPointers := e.compactPointers + [(level, key)])
    case DeletedFile(level, number) => e.(deletedFiles := Insert(e.deletedFiles, (level, number)))
    case NewFile(level, meta) => e.(newFiles := e.newFiles + [(level, meta)])
  }

  function ApplyAll(e: Edit, fs: seq<Field>): (r: Edit)
    requires InOrder(e.deletedFiles)
    ensures InOrder(r.deletedFiles)
    decreases |fs|
  {
    if fs == [] then e else ApplyAll(Apply(e, fs[0]), fs[1..])
  }

  // ---------------------------------------------------------------- the fields of an edit, in the order written

  function OneIf(o: Option<Field>): seq<Field> {
    if o.Some? then [o.value] else []
  }

  function NameOf(e: Edit): Option<Field> {
    if e.comparator.Some? then Some(Comparator(e.comparator.value)) else None
  }

  function LogOf(e: Edit): Option<Field> {
    if e.logNumber.Some? then Some(LogNumber(e.logNumber.value)) else None
  }

  function PrevLogOf(e: Edit): Option<Field> {
    if e.prevLogNumber.Some? then Some(PrevLogNumber(e.prevLogNumber.value)) else None
  }

  function NextFileOf(e: Edit): Option<Field> {
    if e.nextFileNumber.Some? then Some(NextFileNumber(e.nextFileNumber.value)) else None
  }

  function SequenceOf(e: Edit): Option<Field> {
    if e.lastSequence.Some? then Some(LastSequence(e.lastSequence.value)) else None
  }

  function Singles(e: Edit): seq<Field> {
    OneIf(NameOf(e)) + OneIf(LogOf(e)) + OneIf(PrevLogOf(e)) + OneIf(NextFileOf(e)) + OneIf(SequenceOf(e))
  }

  function Pointers(ps: seq<(LevelNumber, Bytes)>): seq<Field> {
    seq(|ps|, i requires 0 <= i < |ps| => CompactPointer(ps[i].0, ps[i].1))
  }

  function Deletions(ds: seq<(LevelNumber, nat)>): seq<Field> {
    seq(|ds|, i requires 0 <= i < |ds| => DeletedFile(ds[i].0, ds[i].1))
  }

  function Additions(ns: seq<(LevelNumber, FileMeta)>): seq<Field> {
    seq(|ns|, i requires 0 <= i < |ns| => NewFile(ns[i].0, ns[i].1))
  }

  function FieldsOf(e: Edit): seq<Field> {
    Singles(e) + Pointers(e.compactPointers) + Deletions(e.deletedFiles) + Additions(e.newFiles)
  }

  /** VersionEdit::EncodeTo. */
  function Encode(e: Edit): Bytes {
    EncodeFields(FieldsOf(e))
  }

  predicate NumberFits(n: Option<nat>) {
    n.Some? ==> n.value < TWO_64
  }

  predicate EditFits(e: Edit) {
    && InOrder(e.deletedFiles)
    && (e.comparator.Some? ==> |e.comparator.value| < TWO_32)
    && NumberFits(e.logNumber) && NumberFits(e.prevLogNumber)
    && NumberFits(e.nextFileNumber) && NumberFits(e.lastSequence)
    && (forall p :: p in e.compactPointers ==> |p.1| < TWO_32)
    && (forall p :: p in e.deletedFiles ==> p.1 < TWO_64)
    && (forall p :: p in e.newFiles ==> FieldFits(NewFile(p.0, p.1)))
  }

  // ---------------------------------------------------------------- decoding

  function GetLevel(s: Bytes): Option<(LevelNumber, Bytes)> {
    match GetVarint(s, 5, TWO_32)
    case Some((level, rest)) => if level < Versions.NUM_LEVELS then Some((level, rest)) else None
    case None => None
  }

  function GetNumber(s: Bytes): Option<(nat, Bytes)> {
    GetVarint(s, 10, TWO_64)
  }

  function ReadPointer(s: Bytes): Option<(Field, Bytes)> {
    match GetLevel(s)
    case None => None
    case Some((level, rest)) =>
      match GetLengthPrefixed(rest)
      case None => None
      case Some((key, after)) => Some((CompactPointer(level, key), after))
  }

  function ReadDeletion(s: Bytes): Option<(Field, Bytes)> {
    match GetLevel(s)
    case None => None
    case Some((level, rest)) =>
      match GetNumber(rest)
      case None => None
      case Some((number, after)) => Some((DeletedFile(level, number), after))
  }

  function ReadAddition(s: Bytes): Option<(Field, Bytes)> {
    match GetLevel(s)
    case None => None
    case Some((level, s1)) =>
      match GetNumber(s1)
      case None => None
      case Some((number, s2)) =>
        match GetNumber(s2)
        case None => None
        case Some((fileSize, s3)) =>
          match GetLengthPrefixed(s3)
          case None => None
          case Some((smallest, s4)) =>
            match GetLengthPrefixed(s4)
            case None => None
            case Some((largest, s5)) => Some((NewFile(level, FileMeta(number, fileSize, smallest, largest)), s5))
  }

  function ReadName(s: Bytes): Option<(Field, Bytes)> {
    match GetLengthPrefixed(s)
    case None => None
    case Some((name, rest)) => Some((Comparator(name), rest))
  }

  /** A field after its tag; unknown tags are refused. */
  function ReadField(tag: nat, s: Bytes): Option<(Field, Bytes)> {
    if tag == COMPARATOR then ReadName(s)
    else if tag == COMPACT_POINTER then ReadPointer(s)
    else if tag == DELETED_FILE then ReadDeletion(s)
    else if tag == NEW_FILE then ReadAddition(s)
    else if tag == LOG_NUMBER || tag == PREV_LOG_NUMBER || tag == NEXT_FILE_NUMBER || tag == LAST_SEQUENCE then
      match GetNumber(s)
      case None => None
      case Some((n, rest)) =>
        Some((if tag == LOG_NUMBER then LogNumber(n) else if tag == PREV_LOG_NUMBER then PrevLogNumber(n)
              else if tag == NEXT_FILE_NUMBER then NextFileNumber(n) else LastSequence(n), rest))
    else None
  }

  lemma VarintShortens(s: Bytes, left: nat, width: nat)
    requires width > 0
    ensures var r := GetVarint(s, left, width); r.Some? ==> |r.value.1| < |s|
  {
  }

  lemma FieldShortens(tag: nat, s: Bytes)
    ensures var r := ReadField(tag, s); r.Some? ==> |r.value.1| < |s|
  {
    hide GetVarint;
    forall t: Bytes ensures
      && (GetVarint(t, 5, TWO_32).Some? ==> |GetVarint(t, 5, TWO_32).value.1| < |t|)
      && (GetVarint(t, 10, TWO_64).Some? ==> |GetVarint(t, 10, TWO_64).value.1| < |t|)
    {
      VarintShortens(t, 5, TWO_32);
      VarintShortens(t, 10, TWO_64);
    }
  }

  /** VersionEdit::DecodeFrom: every field there is, or nothing when the bytes are not fields. */
  function Decode(e: Edit, s: Bytes): Option<Edit>
    requires InOrder(e.deletedFiles)
    decreases |s|
  {
    match GetVarint(s, 5, TWO_32)
    case None => if s == [] then Some(e) else None
    case Some((tag, rest)) =>
      VarintShortens(s, 5, TWO_32);
      FieldShortens(tag, rest);
      match ReadField(tag, rest)
      case None => None
      case Some((f, after)) => Decode(Apply(e, f), after)
  }

  // ---------------------------------------------------------------- the round trip

  lemma LevelRead(level: LevelNumber, rest: Bytes)
    ensures GetLevel(Varint(level) + rest) == Some((level, rest))
  {
    hide GetVarint, Varint;
    Varint32RoundTrip(level, rest);
  }

  lemma NumberRead(n: nat, rest: Bytes)
    requires n < TWO_64
    ensures GetNumber(Varint(n) + rest) == Some((n, rest))
  {
    hide GetVarint, Varint;
    Varint64RoundTrip(n, rest);
  }

  lemma StringRead(s: Bytes, rest: Bytes)
    requires |s| < TWO_32
    ensures GetLengthPrefixed(LengthPrefixed(s) + rest) == Some((s, rest))
  {
    hide GetLengthPrefixed, LengthPrefixed;
    LengthPrefixedRoundTrip(s, rest);
  }

  lemma TwoParts(a: Bytes, b: Bytes, rest: Bytes)
    ensures a + b + rest == a + (b + rest)
  {
  }

  lemma FiveParts(a: Bytes, b: Bytes, c: Bytes, d: Bytes, e: Bytes, rest: Bytes)
    ensures a + b + c + d + e + rest == a + (b + (c + (d + (e + rest))))
  {
  }

  lemma AdditionRead(level: LevelNumber, m: FileMeta, rest: Bytes)
    requires FieldFits(NewFile(level, m))
    ensures ReadAddition(Payload(NewFile(level, m)) + rest) == Some((NewFile(level, m), rest))
  {
    hide GetLevel, GetNumber, GetLengthPrefixed, LengthPrefixed, Varint;
    var a, b, c := Varint(level), Varint(m.number), Varint(m.fileSize);
    var d, e := LengthPrefixed(m.smallest), LengthPrefixed(m.largest);
    FiveParts(a, b, c, d, e, rest);
    LevelRead(level, b + (c + (d + (e + rest))));
    NumberRead(m.number, c + (d + (e + rest)));
    NumberRead(m.fileSize, d + (e + rest));
    StringRead(m.smallest, e + rest);
    StringRead(m.largest, rest);
  }

  lemma PayloadRead(f: Field, rest: Bytes)
    requires FieldFits(f)
    ensures ReadField(TagOf(f), Payload(f) + rest) == Some((f, rest))
  {
    hide GetLevel, GetNumber, GetLengthPrefixed, LengthPrefixed, Varint, ReadAddition;
    match f
    case Comparator(name) => StringRead(name, rest);
    case CompactPointer(level, key) =>
      TwoParts(Varint(level), LengthPrefixed(key), rest);
      LevelRead(level, LengthPrefixed(key) + rest);
      StringRead(key, rest);
    case DeletedFile(level, number) =>
      TwoParts(Varint(level), Varint(number), rest);
      LevelRead(level, Varint(number) + rest);
      NumberRead(number, rest);
    case NewFile(level, meta) => AdditionRead(level, meta, rest);
    case LogNumber(n) => NumberRead(n, rest);
    case PrevLogNumber(n) => NumberRead(n, rest);
    case NextFileNumber(n) => NumberRead(n, rest);
    case LastSequence(n) => NumberRead(n, rest);
  }

  lemma DecodeOne(e: Edit, f: Field, rest: Bytes)
    requires InOrder(e.deletedFiles) && FieldFits(f)
    ensures Decode(e, EncodeField(f) + rest) == Decode(Apply(e, f), rest)
  {
    hide GetVarint, ReadField, Payload, Varint, FieldFits, InOrder, Apply;
    TwoParts(Varint(TagOf(f)), Payload(f), rest);
    Varint32RoundTrip(TagOf(f), Payload(f) + rest);
    PayloadRead(f, rest);
  }

  lemma DecodeNothing(e: Edit)
    requires InOrder(e.deletedFiles)
    ensures Decode(e, []) == Some(e)
  {
  }

  /** Fields are read back and applied in the order they were written. */
  lemma {:induction false} DecodeFields(e: Edit, fs: seq<Field>)
    requires InOrder(e.deletedFiles) && forall f :: f in fs ==> FieldFits(f)
    ensures Decode(e, EncodeFields(fs)) == Some(ApplyAll(e, fs))
    decreases |fs|
  {
    hide Decode, EncodeField, Apply, FieldFits, InOrder;
    if fs == [] {
      DecodeNothing(e);
    } else {
      DecodeOne(e, fs[0], EncodeFields(fs[1..]));
      DecodeFields(Apply(e, fs[0]), fs[1..]);
    }
  }

  lemma {:induction false} ApplyMore(e: Edit, fs: seq<Field>, gs: seq<Field>)
    requires InOrder(e.deletedFiles)
    ensures ApplyAll(e, fs + gs) == ApplyAll(ApplyAll(e, fs), gs)
    decreases |fs|
  {
    hide Apply, InOrder;
    if fs == [] {
      assert fs + gs == gs;
    } else {
      assert (fs + gs)[1..] == fs[1..] + gs;
      ApplyMore(Apply(e, fs[0]), fs[1..], gs);
    }
  }

  lemma {:induction false} PointersApplied(e: Edit, ps: seq<(LevelNumber, Bytes)>)
    requires InOrder(e.deletedFiles)
    ensures ApplyAll(e, Pointers(ps)) == e.(compactPointers := e.compactPointers + ps)
    decreases |ps|
  {
    if ps == [] {
      assert e.compactPointers + ps == e.compactPointers;
    } else {
      assert Pointers(ps)[1..] == Pointers(ps[1..]);
      PointersApplied(Apply(e, Pointers(ps)[0]), ps[1..]);
      assert e.compactPointers + [ps[0]] + ps[1..] == e.compactPointers + ps;
    }
  }

  lemma {:induction false} DeletionsApplied(e: Edit, ds: seq<(LevelNumber, nat)>)
    requires InOrder(e.deletedFiles + ds) && InOrder(e.deletedFiles)
    ensures ApplyAll(e, Deletions(ds)) == e.(deletedFiles := e.deletedFiles + ds)
    decreases |ds|
  {
    if ds == [] {
      assert e.deletedFiles + ds == e.deletedFiles;
    } else {
      var d := ds[0];
      assert e.deletedFiles + [d] + ds[1..] == e.deletedFiles + ds;
      assert forall i :: 0 <= i <= |e.deletedFiles| ==> (e.deletedFiles + [d])[i] == (e.deletedFiles + ds)[i];
      InsertAtEnd(e.deletedFiles, d);
      assert Deletions(ds)[1..] == Deletions(ds[1..]);
      DeletionsApplied(Apply(e, Deletions(ds)[0]), ds[1..]);
    }
  }

  lemma {:induction false} AdditionsApplied(e: Edit, ns: seq<(LevelNumber, FileMeta)>)
    requires InOrder(e.deletedFiles)
    ensures ApplyAll(e, Additions(ns)) == e.(newFiles := e.newFiles + ns)
    decreases |ns|
  {
    if ns == [] {
      assert e.newFiles + ns == e.newFiles;
    } else {
      assert Additions(ns)[1..] == Additions(ns[1..]);
      AdditionsApplied(Apply(e, Additions(ns)[0]), ns[1..]);
      assert e.newFiles + [ns[0]] + ns[1..] == e.newFiles + ns;
    }
  }

  lemma OneApplied(e: Edit, o: Option<Field>)
    requires InOrder(e.deletedFiles)
    ensures ApplyAll(e, OneIf(o)) == if o.Some? then Apply(e, o.value) else e
  {
    if o.Some? {
      assert [o.value][1..] == [];
    }
  }

  lemma SinglesApplied(ps: seq<(LevelNumber, Bytes)>, e: Edit)
    ensures ApplyAll(Cleared(ps), Singles(e)) ==
            Edit(e.comparator, e.logNumber, e.prevLogNumber, e.nextFileNumber, e.lastSequence, ps, [], [])
  {
    hide ApplyAll, OneIf;
    var a, b, c, d, l := NameOf(e), LogOf(e), PrevLogOf(e), NextFileOf(e), SequenceOf(e);
    var e1 := Cleared(ps).(comparator := e.comparator);
    var e2 := e1.(logNumber := e.logNumber);
    var e3 := e2.(prevLogNumber := e.prevLogNumber);
    var e4 := e3.(nextFileNumber := e.nextFileNumber);
    OneApplied(Cleared(ps), a);
    OneApplied(e1, b);
    OneApplied(e2, c);
    OneApplied(e3, d);
    OneApplied(e4, l);
    FiveApplied(Cleared(ps), OneIf(a), OneIf(b), OneIf(c), OneIf(d), OneIf(l));
  }

  lemma FiveApplied(e: Edit, a: seq<Field>, b: seq<Field>, c: seq<Field>, d: seq<Field>, l: seq<Field>)
    requires InOrder(e.deletedFiles)
    ensures ApplyAll(e, a + b + c + d + l) == ApplyAll(ApplyAll(ApplyAll(ApplyAll(ApplyAll(e, a), b), c), d), l)
  {
    hide ApplyAll, InOrder;
    ApplyMore(e, a, b);
    ApplyMore(e, a + b, c);
    ApplyMore(e, a + b + c, d);
    ApplyMore(e, a + b + c + d, l);
  }

  lemma FieldsApplied(ps: seq<(LevelNumber, Bytes)>, e: Edit)
    requires InOrder(e.deletedFiles)
    ensures ApplyAll(Cleared(ps), FieldsOf(e)) == e.(compactPointers := ps + e.compactPointers)
  {
    hide ApplyAll, Singles, Pointers, Deletions, Additions;
    var s, p, d, a := Singles(e), Pointers(e.compactPointers), Deletions(e.deletedFiles), Additions(e.newFiles);
    ApplyMore(Cleared(ps), s, p);
    ApplyMore(Cleared(ps), s + p, d);
    ApplyMore(Cleared(ps), s + p + d, a);
    SinglesApplied(ps, e);
    var e1 := ApplyAll(Cleared(ps), s);
    PointersApplied(e1, e.compactPointers);
    var e2 := ApplyAll(e1, p);
    assert e2.deletedFiles + e.deletedFiles == e.deletedFiles;
    DeletionsApplied(e2, e.deletedFiles);
    var e3 := ApplyAll(e2, d);
    AdditionsApplied(e3, e.newFiles);
    assert e3.newFiles + e.newFiles == e.newFiles;
  }

  /** Decoding what was encoded gives the edit back, after whatever compaction pointers the edit
      decoded into held before: Clear does not forget those. */
  lemma DecodeEncode(ps: seq<(LevelNumber, Bytes)>, e: Edit)
    requires EditFits(e)
    ensures Decode(Cleared(ps), Encode(e)) == Some(e.(compactPointers := ps + e.compactPointers))
  {
    hide Decode, EncodeFields, ApplyAll, FieldsOf, FieldFits, InOrder;
    NothingIsInOrder();
    EditParts(e);
    DecodeFields(Cleared(ps), FieldsOf(e));
    FieldsApplied(ps, e);
  }

  /** The edit itself comes back exactly when the one decoded into held no pointers. */
  lemma RoundTrip(ps: seq<(LevelNumber, Bytes)>, e: Edit)
    requires EditFits(e)
    ensures Decode(Cleared(ps), Encode(e)) == Some(e) <==> ps == []
  {
    hide Decode, Encode, EditFits;
    DecodeEncode(ps, e);
    assert ps == [] ==> ps + e.compactPointers == e.compactPointers;
    assert |ps + e.compactPointers| == |ps| + |e.compactPointers|;
  }

  lemma NothingIsInOrder()
    ensures InOrder([])
  {
  }

  lemma SinglesFit(e: Edit)
    requires EditFits(e)
    ensures forall f :: f in Singles(e) ==> FieldFits(f)
  {
  }

  lemma EditParts(e: Edit)
    requires EditFits(e)
    ensures InOrder(e.deletedFiles) && forall f :: f in FieldsOf(e) ==> FieldFits(f)
  {
    SinglesFit(e);
    hide InOrder, Singles;
  }

  // ---------------------------------------------------------------- writing and reading, field by field

  lemma {:induction false} EncodeMore(fs: seq<Field>, gs: seq<Field>)
    ensures EncodeFields(fs + gs) == EncodeFields(fs) + EncodeFields(gs)
    decreases |fs|
  {
    hide EncodeField;
    if fs == [] {
      assert fs + gs == gs;
    } else {
      assert (fs + gs)[1..] == fs[1..] + gs;
      EncodeMore(fs[1..], gs);
    }
  }

  lemma EncodeOne(f: Field)
    ensures EncodeFields([f]) == EncodeField(f)
  {
    hide EncodeField;
    assert [f][1..] == [];
  }

  /** One more field, appended to what was encoded before. */
  lemma EncodeNext(dst: Bytes, fs: seq<Field>, i: nat)
    requires i < |fs|
    ensures dst + EncodeFields(fs[..i]) + EncodeField(fs[i]) == dst + EncodeFields(fs[..i + 1])
  {
    hide EncodeField, EncodeFields;
    assert fs[..i + 1] == fs[..i] + [fs[i]];
    EncodeMore(fs[..i], [fs[i]]);
    EncodeOne(fs[i]);
  }

  lemma EncodeNone(dst: Bytes)
    ensures dst + EncodeFields([]) == dst
  {
  }

  lemma EncodeParts(dst: Bytes, e: Edit)
    ensures dst + EncodeFields(Singles(e)) + EncodeFields(Pointers(e.compactPointers))
            + EncodeFields(Deletions(e.deletedFiles)) + EncodeFields(Additions(e.newFiles)) == dst + Encode(e)
  {
    hide EncodeFields, Singles, Pointers, Deletions, Additions;
    var s, p, d, a := Singles(e), Pointers(e.compactPointers), Deletions(e.deletedFiles), Additions(e.newFiles);
    EncodeMore(s, p);
    EncodeMore(s + p, d);
    EncodeMore(s + p + d, a);
  }

  lemma SinglesEncoded(dst: Bytes, e: Edit)
    ensures dst + EncodeFields(OneIf(NameOf(e))) + EncodeFields(OneIf(LogOf(e))) + EncodeFields(OneIf(PrevLogOf(e)))
            + EncodeFields(OneIf(NextFileOf(e))) + EncodeFields(OneIf(SequenceOf(e))) == dst + EncodeFields(Singles(e))
  {
    hide EncodeFields, OneIf, NameOf, LogOf, PrevLogOf, NextFileOf, SequenceOf;
    var a, b, c, d, l := OneIf(NameOf(e)), OneIf(LogOf(e)), OneIf(PrevLogOf(e)), OneIf(NextFileOf(e)),
        OneIf(SequenceOf(e));
    EncodeMore(a, b);
    EncodeMore(a + b, c);
    EncodeMore(a + b + c, d);
    EncodeMore(a + b + c + d, l);
  }

  method PutField(dst: Bytes, f: Field) returns (r: Bytes)
    ensures r == dst + EncodeField(f)
  {
    hide Varint, LengthPrefixed;
    var tag := EncodeVarint32(TagOf(f));
    var payload;
    match f {
      case Comparator(name) => payload := PutLengthPrefixedSlice([], name);
      case CompactPointer(level, key) =>
        payload := EncodeVarint32(level);
        payload := PutLengthPrefixedSlice(payload, key);
      case DeletedFile(level, number) =>
        var a := EncodeVarint32(level);
        var b := EncodeVarint64(number);
        payload := a + b;
      case NewFile(level, meta) => payload := PutNewFile(level, meta);
      case _ => payload := EncodeVarint64(f.number);
    }
    r := dst + (tag + payload);
  }

  method PutNewFile(level: LevelNumber, meta: FileMeta) returns (r: Bytes)
    ensures r == Payload(NewFile(level, meta))
  {
    hide Varint, LengthPrefixed;
    var a := EncodeVarint32(level);
    var b := EncodeVarint64(meta.number);
    var c := EncodeVarint64(meta.fileSize);
    r := PutLengthPrefixedSlice(a + b + c, meta.smallest);
    r := PutLengthPrefixedSlice(r, meta.largest);
  }

  method PutIf(dst: Bytes, o: Option<Field>) returns (r: Bytes)
    ensures r == dst + EncodeFields(OneIf(o))
  {
    hide EncodeField;
    r := dst;
    if o.Some? {
      EncodeOne(o.value);
      r := PutField(dst, o.value);
    }
  }

  method PutPointers(dst: Bytes, ps: seq<(LevelNumber, Bytes)>) returns (r: Bytes)
    ensures r == dst + EncodeFields(Pointers(ps))
  {
    hide EncodeField, EncodeFields;
    ghost var fs := Pointers(ps);
    EncodeNone(dst);
    r := dst;
    for i := 0 to |ps|
      invariant r == dst + EncodeFields(fs[..i])
    {
      EncodeNext(dst, fs, i);
      r := PutField(r, CompactPointer(ps[i].0, ps[i].1));
    }
    assert fs[..|ps|] == fs;
  }

  method PutDeletions(dst: Bytes, ds: seq<(LevelNumber, nat)>) returns (r: Bytes)
    ensures r == dst + EncodeFields(Deletions(ds))
  {
    hide EncodeField, EncodeFields;
    ghost var fs := Deletions(ds);
    EncodeNone(dst);
    r := dst;
    for i := 0 to |ds|
      invariant r == dst + EncodeFields(fs[..i])
    {
      EncodeNext(dst, fs, i);
      r := PutField(r, DeletedFile(ds[i].0, ds[i].1));
    }
    assert fs[..|ds|] == fs;
  }

  method PutAdditions(dst: Bytes, ns: seq<(LevelNumber, FileMeta)>) returns (r: Bytes)
    ensures r == dst + EncodeFields(Additions(ns))
  {
    hide EncodeField, EncodeFields;
    ghost var fs := Additions(ns);
    EncodeNone(dst);
    r := dst;
    for i := 0 to |ns|
      invariant r == dst + EncodeFields(fs[..i])
    {
      EncodeNext(dst, fs, i);
      r := PutField(r, NewFile(ns[i].0, ns[i].1));
    }
    assert fs[..|ns|] == fs;
  }

  method GetLevelField(input: Bytes) returns (r: Option<(LevelNumber, Bytes)>)
    ensures r == GetLevel(input)
  {
    hide GetVarint;
    var v := GetVarint32(input);
    if v.Some? && v.value.0 < Versions.NUM_LEVELS {
      r := Some((v.value.0, v.value.1));
    } else {
      r := None;
    }
  }

  method GetPointer(input: Bytes) returns (r: Option<(Field, Bytes)>)
    ensures r == ReadPointer(input)
  {
    hide GetLevel, GetLengthPrefixed;
    r := None;
    var level := GetLevelField(input);
    if level.Some? {
      var key := GetLengthPrefixedSlice(level.value.1);
      if key.Some? {
        r := Some((CompactPointer(level.value.0, key.value.0), key.value.1));
      }
    }
  }

  method GetDeletion(input: Bytes) returns (r: Option<(Field, Bytes)>)
    ensures r == ReadDeletion(input)
  {
    hide GetLevel, GetVarint;
    r := None;
    var level := GetLevelField(input);
    if level.Some? {
      var number := GetVarint64(level.value.1);
      if number.Some? {
        r := Some((DeletedFile(level.value.0, number.value.0), number.value.1));
      }
    }
  }

  method GetAddition(input: Bytes) returns (r: Option<(Field, Bytes)>)
    ensures r == ReadAddition(input)
  {
    hide GetLevel, GetVarint, GetLengthPrefixed;
    r := None;
    var level := GetLevelField(input);
    if level.Some? {
      var number := GetVarint64(level.value.1);
      if number.Some? {
        var fileSize := GetVarint64(number.value.1);
        if fileSize.Some? {
          var smallest := GetLengthPrefixedSlice(fileSize.value.1);
          if smallest.Some? {
            var largest := GetLengthPrefixedSlice(smallest.value.1);
            if largest.Some? {
              var meta := FileMeta(number.value.0, fileSize.value.0, smallest.value.0, largest.value.0);
              r := Some((NewFile(level.value.0, meta), largest.value.1));
            }
          }
        }
      }
    }
  }

  /** The switch of DecodeFrom, up to what the field does to the edit. */
  method GetField(tag: nat, input: Bytes) returns (r: Option<(Field, Bytes)>)
    ensures r == ReadField(tag, input)
  {
    hide GetLengthPrefixed, GetVarint, ReadPointer, ReadDeletion, ReadAddition;
    r := None;
    if tag == COMPARATOR {
      var name := GetLengthPrefixedSlice(input);
      if name.Some? {
        r := Some((Comparator(name.value.0), name.value.1));
      }
    } else if tag == COMPACT_POINTER {
      r := GetPointer(input);
    } else if tag == DELETED_FILE {
      r := GetDeletion(input);
    } else if tag == NEW_FILE {
      r := GetAddition(input);
    } else if tag == LOG_NUMBER || tag == PREV_LOG_NUMBER || tag == NEXT_FILE_NUMBER || tag == LAST_SEQUENCE {
      var n := GetVarint64(input);
      if n.Some? {
        r := Some((if tag == LOG_NUMBER then LogNumber(n.value.0)
                   else if tag == PREV_LOG_NUMBER then PrevLogNumber(n.value.0)
                   else if tag == NEXT_FILE_NUMBER then NextFileNumber(n.value.0)
                   else LastSequence(n.value.0), n.value.1));
      }
    }
  }

  /** One turn of the loop of DecodeFrom. */
  lemma DecodeUnfolds(e: Edit, s: Bytes)
    requires InOrder(e.deletedFiles)
    ensures var tag := GetVarint(s, 5, TWO_32);
      if tag.None? then Decode(e, s) == if s == [] then Some(e) else None
      else
        var f := ReadField(tag.value.0, tag.value.1);
        if f.None? then Decode(e, s) == None
        else |f.value.1| < |s| && Decode(e, s) == Decode(Apply(e, f.value.0), f.value.1)
  {
    hide GetVarint, ReadField, Apply, InOrder;
    VarintShortens(s, 5, TWO_32);
    match GetVarint(s, 5, TWO_32)
    case None =>
    case Some((tag, rest)) => FieldShortens(tag, rest);
  }

  // ---------------------------------------------------------------- the class

  class VersionEdit {
    var comparator: Option<Bytes>
    var logNumber: Option<nat>
    var prevLogNumber: Option<nat>
    var nextFileNumber: Option<nat>
    var lastSequence: Option<nat>
    var compactPointers: seq<(LevelNumber, Bytes)>
    var deletedFiles: seq<(LevelNumber, nat)>
    var newFiles: seq<(LevelNumber, FileMeta)>

    ghost predicate Valid()
      reads this
    {
      InOrder(deletedFiles)
    }

    function Contents(): Edit
      reads this
    {
      Edit(comparator, logNumber, prevLogNumber, nextFileNumber, lastSequence, compactPointers, deletedFiles, newFiles)
    }

    constructor ()
      ensures Valid() && Contents() == FRESH
    {
      comparator, logNumber, prevLogNumber, nextFileNumber, lastSequence := None, None, None, None, None;
      compactPointers, deletedFiles, newFiles := [], [], [];
    }

    /** Forgets everything but the compaction pointers. */
    method Clear()
      modifies this
      ensures Valid() && Contents() == Cleared(old(compactPointers))
    {
      comparator, logNumber, prevLogNumber, nextFileNumber, lastSequence := None, None, None, None, None;
      deletedFiles, newFiles := [], [];
    }

    /** Takes over one field, as the setters and the cases of DecodeFrom do. */
    method Take(f: Field)
      requires Valid()
      modifies this
      ensures Valid() && Contents() == Apply(old(Contents()), f)
    {
      match f
      case Comparator(name) => comparator := Some(name);
      case LogNumber(n) => logNumber := Some(n);
      case PrevLogNumber(n) => prevLogNumber := Some(n);
      case NextFileNumber(n) => nextFileNumber := Some(n);
      case LastSequence(n) => lastSequence := Some(n);
      case CompactPointer(level, key) => compactPointers := compactPointers + [(level, key)];
      case DeletedFile(level, number) => deletedFiles := Insert(deletedFiles, (level, number));
      case NewFile(level, meta) => newFiles := newFiles + [(level, meta)];
    }

    /** Appends the fields that are set, then the pointers, the deletions and the new files. */
    method EncodeTo(dst: Bytes) returns (r: Bytes)
      ensures r == dst + Encode(Contents())
    {
      hide EncodeFields, Pointers, Deletions, Additions, Encode, OneIf, Singles;
      r := EncodeSingles(dst);
      r := PutPointers(r, compactPointers);
      r := PutDeletions(r, deletedFiles);
      r := PutAdditions(r, newFiles);
      EncodeParts(dst, Contents());
    }

    lemma ContentsAre()
      ensures var e := Contents();
        && e.comparator == comparator && e.logNumber == logNumber && e.prevLogNumber == prevLogNumber
        && e.nextFileNumber == nextFileNumber && e.lastSequence == lastSequence
    {
    }

    method EncodeSingles(dst: Bytes) returns (r: Bytes)
      ensures r == dst + EncodeFields(Singles(Contents()))
    {
      hide EncodeFields, OneIf, Singles, Contents;
      SinglesEncoded(dst, Contents());
      ContentsAre();
      r := PutIf(dst, if comparator.Some? then Some(Comparator(comparator.value)) else None);
      r := PutIf(r, if logNumber.Some? then Some(LogNumber(logNumber.value)) else None);
      r := PutIf(r, if prevLogNumber.Some? then Some(PrevLogNumber(prevLogNumber.value)) else None);
      r := PutIf(r, if nextFileNumber.Some? then Some(NextFileNumber(nextFileNumber.value)) else None);
      r := PutIf(r, if lastSequence.Some? then Some(LastSequence(lastSequence.value)) else None);
    }

    /** Reads the fields in whatever order they come; Clear comes first, so only the compaction
        pointers of an edit that was used before remain. */
    method DecodeFrom(src: Bytes) returns (ok: bool)
      modifies this
      ensures var r := Decode(Cleared(old(compactPointers)), src);
        && Valid() && ok == r.Some?
        && (ok ==> Contents() == r.value)
    {
      hide GetVarint, ReadField, Apply, InOrder, Decode;
      Clear();
      ghost var goal := Decode(Contents(), src);
      var input := src;
      while true
        invariant Valid() && Decode(Contents(), input) == goal
        decreases |input|
      {
        DecodeUnfolds(Contents(), input);
        var tag := GetVarint32(input);
        if tag.None? {
          return input == [];
        }
        var f := GetField(tag.value.0, tag.value.1);
        if f.None? {
          return false;
        }
        Take(f.value.0);
        input := f.value.1;
      }
    }
  }
}
