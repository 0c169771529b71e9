/** WriteBatch: an atomic group of updates as one byte string (write_batch.cc). */
module WriteBatches {
  import opened Wrappers
  import opened Coding

  datatype Record = Put(key: Bytes, value: Bytes) | Delete(key: Bytes)

  /** What the memtable stores for an update. */
  datatype Stored = Stored(seqno: nat, record: Record)

  datatype Status = Ok | TooSmall | BadPut | BadDelete | UnknownTag | WrongCount

  const HEADER: nat := 12
  const TYPE_DELETION: Byte := 0
  const TYPE_VALUE: Byte := 1

  function Encode(r: Record): (s: Bytes)
    ensures |s| > 0
  {
    match r
    case Put(key, value) => [TYPE_VALUE] + LengthPrefixed(key) + LengthPrefixed(value)
    case Delete(key) => [TYPE_DELETION] + LengthPrefixed(key)
  }

  function EncodeAll(rs: seq<Record>): Bytes {
    if rs == [] then [] else Encode(rs[0]) + EncodeAll(rs[1..])
  }

  /** The lengths of its strings fit their 32-bit prefixes. */
  predicate Fits(r: Record) {
    |r.key| < TWO_32 && (r.Put? ==> |r.value| < TWO_32)
  }

  /** One record from the front of `input`, or why there is none. */
  function ParseOne(input: Bytes): (r: (Status, Option<(Record, Bytes)>))
    requires input != []
    ensures r.1.Some? <==> r.0 == Ok
    ensures r.1.Some? ==> |r.1.value.1| < |input|
  {
    var rest := input[1..];
    if input[0] == TYPE_VALUE then
      match GetLengthPrefixed(rest)
      case None => (BadPut, None)
      case Some((key, rest)) =>
        match GetLengthPrefixed(rest)
        case None => (BadPut, None)
        case Some((value, rest)) => (Ok, Some((Record.Put(key, value), rest)))
    else if input[0] == TYPE_DELETION then
      match GetLengthPrefixed(rest)
      case None => (BadDelete, None)
      case Some((key, rest)) => (Ok, Some((Record.Delete(key), rest)))
    else
      (UnknownTag, None)
  }

  /** What Iterate hands to its handler from `input`, and the status it meets at the end of it. */
  function Parse(input: Bytes): (Status, seq<Record>)
    decreases |input|
  {
    if input == [] then (Ok, []) else
      var (status, one) := ParseOne(input);
      if one.None? then (status, []) else (Parse(one.value.1).0, [one.value.0] + Parse(one.value.1).1)
  }

  lemma PutBytes(key: Bytes, value: Bytes, rest: Bytes)
    ensures ([TYPE_VALUE] + key + value + rest)[0] == TYPE_VALUE
    ensures ([TYPE_VALUE] + key + value + rest)[1..] == key + (value + rest)
  {
  }

  lemma ParseOneRoundTrip(r: Record, rest: Bytes)
    requires Fits(r)
    ensures ParseOne(Encode(r) + rest) == (Ok, Some((r, rest)))
  {
    hide LengthPrefixed, GetLengthPrefixed;
    match r
    case Put(key, value) =>
      PutBytes(LengthPrefixed(key), LengthPrefixed(value), rest);
      LengthPrefixedRoundTrip(key, LengthPrefixed(value) + rest);
      LengthPrefixedRoundTrip(value, rest);
    case Delete(key) =>
      assert ([TYPE_DELETION] + LengthPrefixed(key) + rest)[1..] == LengthPrefixed(key) + rest;
      LengthPrefixedRoundTrip(key, rest);
  }

  /** A batch is read back whole, update by update. */
  lemma {:induction false} ParseRoundTrip(rs: seq<Record>)
    requires forall r :: r in rs ==> Fits(r)
    ensures Parse(EncodeAll(rs)) == (Ok, rs)
  {
    hide Encode, ParseOne, Fits;
    if rs != [] {
      ParseOneRoundTrip(rs[0], EncodeAll(rs[1..]));
      ParseRoundTrip(rs[1..]);
      assert rs == [rs[0]] + rs[1..];
    }
  }

  lemma {:induction false} EncodeAllAppends(a: seq<Record>, b: seq<Record>)
    ensures EncodeAll(a + b) == EncodeAll(a) + EncodeAll(b)
  {
    if a == [] {
      assert a + b == b;
    } else {
      assert (a + b)[1..] == a[1..] + b;
      EncodeAllAppends(a[1..], b);
    }
  }

  // ---------------------------------------------------------------- the batch

  function Sequence(rep: Bytes): nat
    requires |rep| >= HEADER
  {
    DecodeFixed(rep[..8])
  }

  function Count(rep: Bytes): nat
    requires |rep| >= HEADER
  {
    DecodeFixed(rep[8..12])
  }

  /** The representation of a batch. */
  function Contents(seqno: nat, rs: seq<Record>): (rep: Bytes)
    ensures |rep| >= HEADER
  {
    Fixed(seqno, 8) + Fixed(|rs| % TWO_32, 4) + EncodeAll(rs)
  }

  class WriteBatch {
    var rep: Bytes
    ghost var seqno: nat
    ghost var records: seq<Record>

    ghost predicate Valid()
      reads this
    {
      rep == Contents(seqno, records) && seqno < TWO_64
    }

    constructor ()
      ensures Valid() && seqno == 0 && records == []
    {
      rep, seqno, records := [0, 0, 0, 0, 0, 0, 0, 0, 0, 0, 0, 0], 0, [];
      new;
      ZeroHeader();
    }

    lemma ZeroHeader()
      ensures Contents(0, []) == [0, 0, 0, 0, 0, 0, 0, 0, 0, 0, 0, 0]
    {
      assert Fixed(0, 2) == [0, 0];
      assert Fixed(0, 4) == [0, 0, 0, 0];
      assert Fixed(0, 6) == [0, 0, 0, 0, 0, 0];
    }

    method Clear()
      modifies this
      ensures Valid() && seqno == 0 && records == []
    {
      rep, seqno, records := [0, 0, 0, 0, 0, 0, 0, 0, 0, 0, 0, 0], 0, [];
      ZeroHeader();
    }

    method SetSequence(s: nat)
      requires Valid() && s < TWO_64
      modifies this
      ensures Valid() && seqno == s && records == old(records) && Sequence(rep) == s
    {
      hide Fixed, EncodeAll, Sequence, Contents;
      ContentsRenumbered(seqno, s, records);
      rep := Fixed(s, 8) + rep[8..];
      seqno := s;
      ContentsFields(s, records);
    }

    method SetCount(n: nat)
      requires |rep| >= HEADER
      modifies this`rep
      ensures rep == old(rep)[..8] + Fixed(n % TWO_32, 4) + old(rep)[12..]
    {
      rep := rep[..8] + Fixed(n % TWO_32, 4) + rep[12..];
    }

    method Put(key: Bytes, value: Bytes)
      requires Valid()
      modifies this
      ensures Valid() && seqno == old(seqno) && records == old(records) + [Record.Put(key, value)]
    {
      hide Fixed, LengthPrefixed, EncodeAll, Sequence;
      ContentsFields(seqno, records);
      SetCount(Count(rep) + 1);
      AddedOne(seqno, records, Record.Put(key, value));
      rep := rep + [TYPE_VALUE];
      rep := rep + LengthPrefixed(key);
      rep := rep + LengthPrefixed(value);
      records := records + [Record.Put(key, value)];
      PutBytes(LengthPrefixed(key), LengthPrefixed(value), []);
    }

    method Delete(key: Bytes)
      requires Valid()
      modifies this
      ensures Valid() && seqno == old(seqno) && records == old(records) + [Record.Delete(key)]
    {
      hide Fixed, LengthPrefixed, EncodeAll, Sequence;
      ContentsFields(seqno, records);
      SetCount(Count(rep) + 1);
      AddedOne(seqno, records, Record.Delete(key));
      rep := rep + [TYPE_DELETION];
      rep := rep + LengthPrefixed(key);
      records := records + [Record.Delete(key)];
    }

    method Append(source: WriteBatch)
      requires Valid() && source.Valid() && source != this
      modifies this
      ensures Valid() && seqno == old(seqno) && records == old(records) + source.records
    {
      hide Fixed, LengthPrefixed, EncodeAll, Sequence;
      ContentsFields(seqno, records);
      ContentsFields(source.seqno, source.records);
      SetCount(Count(rep) + Count(source.rep));
      Added(seqno, records, source.records);
      rep := rep + source.rep[HEADER..];
      records := records + source.records;
    }

    method InsertInto(mem: MemTable) returns (status: Status)
      modifies mem
      ensures status == IterateStatus(rep)
      ensures |rep| < HEADER ==> mem.added == old(mem.added)
      ensures |rep| >= HEADER ==> mem.added == old(mem.added) + Numbered(Sequence(rep), Parse(rep[HEADER..]).1)
    {
      if |rep| < HEADER {
        return TooSmall;
      }
      hide *;
      var found;
      status, found := Iterate(rep[HEADER..], Sequence(rep), mem);
      if status == Ok {
        status := if found != Count(rep) then WrongCount else Ok;
      }
      StatusFrom(rep, status, found);
    }
  }

  function IterateStatus(rep: Bytes): Status {
    if |rep| < HEADER then TooSmall
    else if Parse(rep[HEADER..]).0 != Ok then Parse(rep[HEADER..]).0
    else if |Parse(rep[HEADER..]).1| != Count(rep) then WrongCount
    else Ok
  }

  lemma StatusFrom(rep: Bytes, status: Status, found: nat)
    requires |rep| >= HEADER && found == |Parse(rep[HEADER..]).1|
    requires var parsed := Parse(rep[HEADER..]).0;
      status == if parsed != Ok then parsed else if found != Count(rep) then WrongCount else Ok
    ensures status == IterateStatus(rep)
  {
    hide Parse, Count;
  }

  /** Hands the updates to the memtable one by one, each with the next sequence number. */
  method Iterate(data: Bytes, seqno: nat, mem: MemTable) returns (status: Status, found: nat)
    modifies mem
    ensures status == Parse(data).0 && found == |Parse(data).1|
    ensures mem.added == old(mem.added) + Numbered(seqno, Parse(data).1)
  {
    hide ParseOne, Parse, Numbered;
    var input, sequence := data, seqno;
    found := 0;
    ghost var seen: seq<Record> := [];
    NoneNumbered(mem.added, seqno);
    while input != []
      invariant Parse(data).0 == Parse(input).0 && Parse(data).1 == seen + Parse(input).1
      invariant found == |seen| && sequence == seqno + found
      invariant mem.added == old(mem.added) + Numbered(seqno, seen)
      decreases |input|
    {
      var (failed, parsed) := ParseOne(input);
      ParseUnfolds(input, seen);
      if parsed.None? {
        status := failed;
        return;
      }
      var (r, rest) := parsed.value;
      found := found + 1;
      mem.Add(sequence, r);
      sequence := sequence + 1;
      NumberedOne(old(mem.added), seqno, seen, r);
      seen := seen + [r];
      input := rest;
    }
    ParseEnds(seen);
    status := Ok;
  }

  class MemTable {
    var added: seq<Stored>

    constructor ()
      ensures added == []
    {
      added := [];
    }

    method Add(seqno: nat, r: Record)
      modifies this
      ensures added == old(added) + [Stored(seqno, r)]
    {
      added := added + [Stored(seqno, r)];
    }
  }

  function Numbered(seqno: nat, rs: seq<Record>): seq<Stored> {
    seq(|rs|, i requires 0 <= i < |rs| => Stored(seqno + i, rs[i]))
  }

  lemma NoneNumbered(before: seq<Stored>, seqno: nat)
    ensures before + Numbered(seqno, []) == before
  {
  }

  lemma NumberedOne(before: seq<Stored>, seqno: nat, rs: seq<Record>, r: Record)
    ensures before + Numbered(seqno, rs) + [Stored(seqno + |rs|, r)] == before + Numbered(seqno, rs + [r])
  {
    assert Numbered(seqno, rs + [r]) == Numbered(seqno, rs) + [Stored(seqno + |rs|, r)];
  }

  lemma ParseEnds(seen: seq<Record>)
    ensures Parse([]).0 == Ok && seen + Parse([]).1 == seen
  {
  }

  lemma ParseUnfolds(input: Bytes, seen: seq<Record>)
    requires input != []
    ensures var (status, one) := ParseOne(input);
      && (one.None? ==> Parse(input).0 == status && seen + Parse(input).1 == seen)
      && (one.Some? ==>
        && Parse(input).0 == Parse(one.value.1).0
        && seen + Parse(input).1 == (seen + [one.value.0]) + Parse(one.value.1).1)
  {
    hide ParseOne;
    var (status, one) := ParseOne(input);
    if one.Some? {
      assert Parse(input).1 == [one.value.0] + Parse(one.value.1).1;
    }
  }

  lemma ContentsRenumbered(old1: nat, new1: nat, rs: seq<Record>)
    ensures Fixed(new1, 8) + Contents(old1, rs)[8..] == Contents(new1, rs)
  {
    hide Fixed, EncodeAll;
  }

  lemma ContentsFields(seqno: nat, rs: seq<Record>)
    requires seqno < TWO_64
    ensures var rep := Contents(seqno, rs);
      && rep[..8] == Fixed(seqno, 8) && rep[8..12] == Fixed(|rs| % TWO_32, 4) && rep[HEADER..] == EncodeAll(rs)
      && Sequence(rep) == seqno && Count(rep) == |rs| % TWO_32
  {
    var rep := Contents(seqno, rs);
    assert rep[..8] == Fixed(seqno, 8);
    assert rep[8..12] == Fixed(|rs| % TWO_32, 4);
    Fixed32RoundTrip(|rs| % TWO_32);
    Fixed64RoundTrip(seqno);
  }

  /** Growing the count and appending the records, in terms of the representation. */
  lemma Added(seqno: nat, a: seq<Record>, b: seq<Record>)
    ensures Fixed(seqno, 8) + Fixed((|a| % TWO_32 + |b| % TWO_32) % TWO_32, 4) + EncodeAll(a) + EncodeAll(b)
            == Contents(seqno, a + b)
  {
    hide Fixed, EncodeAll;
    EncodeAllAppends(a, b);
    AddModulo(|a|, |b|);
    Regroup(Fixed(seqno, 8) + Fixed(|a + b| % TWO_32, 4), EncodeAll(a), EncodeAll(b));
  }

  lemma AddModulo(m: nat, n: nat)
    ensures (m % TWO_32 + n % TWO_32) % TWO_32 == (m + n) % TWO_32
  {
    assert m == m / TWO_32 * TWO_32 + m % TWO_32 && n == n / TWO_32 * TWO_32 + n % TWO_32;
    var q, r := m / TWO_32 + n / TWO_32, m % TWO_32 + n % TWO_32;
    assert m + n == q * TWO_32 + r;
  }

  lemma AddedOne(seqno: nat, a: seq<Record>, r: Record)
    ensures Fixed(seqno, 8) + Fixed((|a| % TWO_32 + 1) % TWO_32, 4) + EncodeAll(a) + Encode(r)
            == Contents(seqno, a + [r])
  {
    assert EncodeAll([r]) == Encode(r);
    hide Fixed, EncodeAll, Encode;
    Added(seqno, a, [r]);
    assert |[r]| % TWO_32 == 1;
  }

  /** Inserting a batch stores its updates, and nothing else, under successive sequence numbers. */
  lemma InsertRoundTrip(seqno: nat, rs: seq<Record>)
    requires seqno < TWO_64 && |rs| < TWO_32 && forall r :: r in rs ==> Fits(r)
    ensures var rep := Contents(seqno, rs);
      IterateStatus(rep) == Ok && Numbered(Sequence(rep), Parse(rep[HEADER..]).1) == Numbered(seqno, rs)
  {
    hide Contents, Sequence, Count, Parse, EncodeAll, Numbered, Fixed, DecodeFixed, Fits;
    ContentsFields(seqno, rs);
    ParseRoundTrip(rs);
  }

  // ---------------------------------------------------------------- batches that are refused

  /** A record cut short is told by its tag. */
  lemma CutRecord(r: Record, s: Bytes)
    requires Fits(r) && s != [] && s < Encode(r)
    ensures ParseOne(s) == (if r.Put? then BadPut else BadDelete, None)
  {
    hide LengthPrefixed, GetLengthPrefixed;
    var rest := s[1..];
    match r
    case Put(key, value) =>
      var a, b := LengthPrefixed(key), LengthPrefixed(value);
      assert Encode(r) == [TYPE_VALUE] + (a + b);
      assert s[0] == TYPE_VALUE && s == [TYPE_VALUE] + rest && rest == (a + b)[..|rest|];
      CutParts(a, b, rest);
      if rest < a {
        CutString(key, rest);
      } else {
        var after := rest[|a|..];
        LengthPrefixedRoundTrip(key, after);
        CutString(value, after);
      }
    case Delete(key) =>
      assert s[0] == TYPE_DELETION && rest == LengthPrefixed(key)[..|rest|];
      CutString(key, rest);
  }

  /** Of records cut short, some are handed over, in order, but not all. */
  lemma {:induction false} CutRecords(rs: seq<Record>, s: Bytes)
    requires (forall r :: r in rs ==> Fits(r)) && s < EncodeAll(rs)
    ensures Parse(s).1 < rs
    decreases |rs|
  {
    hide Encode, ParseOne, Fits;
    if s != [] {
      var head, rest := Encode(rs[0]), EncodeAll(rs[1..]);
      if |s| < |head| {
        assert s == (head + rest)[..|s|] == head[..|s|];
        CutRecord(rs[0], s);
      } else {
        assert s[..|head|] == head;
        var after := s[|head|..];
        assert s == head + after && after == rest[..|after|];
        ParseOneRoundTrip(rs[0], after);
        CutRecords(rs[1..], after);
        assert rs == [rs[0]] + rs[1..];
      }
    }
  }

  /** A batch that is cut anywhere is refused, and only updates from its front reach the memtable. */
  lemma CutBatchIsRefused(seqno: nat, rs: seq<Record>, rep: Bytes)
    requires seqno < TWO_64 && |rs| < TWO_32 && forall r :: r in rs ==> Fits(r)
    requires rep < Contents(seqno, rs)
    ensures IterateStatus(rep) != Ok
    ensures |rep| < HEADER ==> IterateStatus(rep) == TooSmall
    ensures |rep| >= HEADER ==> Parse(rep[HEADER..]).1 < rs
  {
    hide Contents, Parse, EncodeAll, Fixed, DecodeFixed, Fits;
    if |rep| >= HEADER {
      var whole := Contents(seqno, rs);
      ContentsFields(seqno, rs);
      assert rep[..8] == whole[..8] && rep[8..12] == whole[8..12];
      assert rep[HEADER..] == whole[HEADER..][..|rep| - HEADER];
      CutRecords(rs, rep[HEADER..]);
    }
  }

  /** A tag that is neither a put's nor a deletion's ends the batch there, with an error. */
  lemma {:induction false} UnknownTagIsRefused(rs: seq<Record>, tag: Byte, rest: Bytes)
    requires (forall r :: r in rs ==> Fits(r)) && tag > 1
    ensures Parse(EncodeAll(rs) + [tag] + rest) == (UnknownTag, rs)
    decreases |rs|
  {
    hide Encode, Fits, ParseOne, Parse;
    var s := EncodeAll(rs) + [tag] + rest;
    if rs == [] {
      assert s == [tag] + rest;
      TagIsUnknown(tag, rest);
    } else {
      var more := EncodeAll(rs[1..]) + [tag] + rest;
      assert s == Encode(rs[0]) + more;
      ParseOneRoundTrip(rs[0], more);
      UnknownTagIsRefused(rs[1..], tag, rest);
      ParseUnfolds(s, []);
      assert [] + Parse(s).1 == Parse(s).1 && [] + [rs[0]] + rs[1..] == rs;
    }
  }

  lemma TagIsUnknown(tag: Byte, rest: Bytes)
    requires tag > 1
    ensures Parse([tag] + rest) == (UnknownTag, [])
  {
  }
}
