/** The manifest: VersionSet::LogAndApply and WriteSnapshot append encoded edits to a log, Recover
    reads back whatever a crash left of it (version_set.cc). */
module Descriptors {
  import opened Wrappers
  import opened Coding
  import opened Entries
  import opened Versions
  import opened Builders
  import opened Manifests
  import opened Logs
  import opened LogRecovery
  import opened Comparators
  import opened UserKeys
  import E = VersionEdits

  // ---------------------------------------------------------------- edits and what they mean

  /** How user keys are written, what entries the table file of each number holds, and the name of the
      comparator. */
  datatype Disk = Disk(name: UserKey -> Bytes, table: nat -> seq<Entry>, comparator: Bytes)

  predicate NameFits(d: Disk) {
    |d.comparator| < TWO_32
  }

  function FileIn(d: Disk, m: E.FileMeta): File {
    File(m.number, m.fileSize, KeyOf(m.smallest), KeyOf(m.largest), d.table(m.number))
  }

  function InBytes(d: Disk, k: IKey): Bytes {
    KeyBytes(d.name(k.user), k.seqno, k.code)
  }

  function MetaOf(d: Disk, f: File): E.FileMeta {
    E.FileMeta(f.number, f.size, InBytes(d, f.smallest), InBytes(d, f.largest))
  }

  /** The bytes of the key mean the key. */
  predicate Means(d: Disk, k: IKey) {
    KeyFits(k) && Number(d.name(k.user)) == k.user
  }

  /** A file whose table and metadata are what the disk holds. */
  predicate OnDisk(d: Disk, f: File) {
    && d.table(f.number) == f.entries && Means(d, f.smallest) && Means(d, f.largest)
    && E.FieldFits(E.NewFile(0, MetaOf(d, f)))
  }

  lemma MetaReadBack(d: Disk, f: File)
    requires OnDisk(d, f)
    ensures FileIn(d, MetaOf(d, f)) == f
  {
    hide KeyBytes, KeyOf, Number;
    KeyReadBack(d.name(f.smallest.user), f.smallest.seqno, f.smallest.code);
    KeyReadBack(d.name(f.largest.user), f.largest.seqno, f.largest.code);
  }

  function FilesIn(d: Disk, ns: seq<(LevelNumber, E.FileMeta)>): seq<(LevelNumber, File)> {
    seq(|ns|, i requires 0 <= i < |ns| => (ns[i].0, FileIn(d, ns[i].1)))
  }

  function PointersIn(d: Disk, ps: seq<(LevelNumber, Bytes)>): seq<(LevelNumber, IKey)> {
    seq(|ps|, i requires 0 <= i < |ps| => (ps[i].0, KeyOf(ps[i].1)))
  }

  /** What an edit does to a version. */
  function Lift(d: Disk, e: E.Edit): VersionEdit {
    VersionEdit(PointersIn(d, e.compactPointers), (set p | p in e.deletedFiles), FilesIn(d, e.newFiles))
  }

  function LiftAll(d: Disk, es: seq<E.Edit>): (r: seq<VersionEdit>)
    ensures |r| == |es|
  {
    seq(|es|, i requires 0 <= i < |es| => Lift(d, es[i]))
  }

  lemma LiftNext(d: Disk, es: seq<E.Edit>, e: E.Edit)
    ensures LiftAll(d, es + [e]) == LiftAll(d, es) + [Lift(d, e)]
  {
  }

  lemma LiftPrefix(d: Disk, es: seq<E.Edit>, n: nat)
    requires n <= |es|
    ensures LiftAll(d, es[..n]) == LiftAll(d, es)[..n]
  {
  }

  // ---------------------------------------------------------------- the numbers beside the files

  /** The numbers of the last record that has them. */
  datatype Numbers = Numbers(log: Option<nat>, prevLog: Option<nat>, nextFile: Option<nat>, sequence: Option<nat>)

  function Either(a: Option<nat>, b: Option<nat>): Option<nat> {
    if a.Some? then a else b
  }

  function NumbersOf(es: seq<E.Edit>): Numbers {
    if es == [] then Numbers(None, None, None, None)
    else
      var before := NumbersOf(es[..|es| - 1]);
      var e := es[|es| - 1];
      Numbers(Either(e.logNumber, before.log), Either(e.prevLogNumber, before.prevLog),
              Either(e.nextFileNumber, before.nextFile), Either(e.lastSequence, before.sequence))
  }

  /** The last of the edits that has a number, and none if none has. */
  ghost predicate IsLast(es: seq<E.Edit>, get: E.Edit -> Option<nat>, r: Option<nat>) {
    || (r.None? && forall e :: e in es ==> get(e).None?)
    || (r.Some? && exists i ::
          0 <= i < |es| && get(es[i]) == r && forall j :: i < j < |es| ==> get(es[j]).None?)
  }

  lemma LastOfMore(es: seq<E.Edit>, e: E.Edit, get: E.Edit -> Option<nat>, r: Option<nat>)
    requires IsLast(es, get, r)
    ensures IsLast(es + [e], get, Either(get(e), r))
  {
    var more := es + [e];
    if get(e).Some? {
      assert get(more[|es|]) == get(e);
    } else if r.Some? {
      var i :| 0 <= i < |es| && get(es[i]) == r && forall j :: i < j < |es| ==> get(es[j]).None?;
      assert get(more[i]) == r;
    }
  }

  lemma {:induction false} NumbersAreLast(es: seq<E.Edit>)
    ensures var n := NumbersOf(es);
      && IsLast(es, (e: E.Edit) => e.logNumber, n.log) && IsLast(es, (e: E.Edit) => e.prevLogNumber, n.prevLog)
      && IsLast(es, (e: E.Edit) => e.nextFileNumber, n.nextFile)
      && IsLast(es, (e: E.Edit) => e.lastSequence, n.sequence)
  {
    if es != [] {
      var front, e := es[..|es| - 1], es[|es| - 1];
      NumbersAreLast(front);
      var n := NumbersOf(front);
      hide IsLast, Either;
      LastOfMore(front, e, (e: E.Edit) => e.logNumber, n.log);
      LastOfMore(front, e, (e: E.Edit) => e.prevLogNumber, n.prevLog);
      LastOfMore(front, e, (e: E.Edit) => e.nextFileNumber, n.nextFile);
      LastOfMore(front, e, (e: E.Edit) => e.lastSequence, n.sequence);
      assert front + [e] == es;
    }
  }

  // ---------------------------------------------------------------- reading records

  datatype Failure = Corrupt | BadEdit | WrongComparator | NoNextFile | NoLogNumber | NoLastSequence

  /** The edits that reach the builder, and what stopped the reading early. */
  datatype Decoded = Decoded(edits: seq<E.Edit>, failure: Option<Failure>)

  function DecodeRecord(record: Bytes, comparator: Bytes): Decoded {
    match E.Decode(E.FRESH, record)
    case None => Decoded([], Some(BadEdit))
    case Some(e) =>
      if e.comparator.Some? && e.comparator.value != comparator then Decoded([], Some(WrongComparator))
      else Decoded([e], None)
  }

  function EditsIn(items: seq<Item>, comparator: Bytes): Decoded
    decreases |items|
  {
    var f := NextRecord(items, false, []);
    if f.reports != [] then Decoded([], Some(Corrupt))
    else if f.record.None? then Decoded([], None)
    else
      var one := DecodeRecord(f.record.value, comparator);
      if one.failure.Some? then one
      else
        var more := EditsIn(f.rest, comparator);
        Decoded(one.edits + more.edits, more.failure)
  }

  /** One turn of the loop of Recover. */
  lemma EditsUnfold(items: seq<Item>, comparator: Bytes, before: seq<E.Edit>)
    ensures var f := NextRecord(items, false, []);
      var r := EditsIn(items, comparator);
      if f.reports != [] then before + r.edits == before && r.failure == Some(Corrupt)
      else if f.record.None? then before + r.edits == before && r.failure == None
      else
        var one := DecodeRecord(f.record.value, comparator);
        if one.failure.Some? then before + r.edits == before && r.failure == one.failure
        else
          var more := EditsIn(f.rest, comparator);
          before + r.edits == before + one.edits + more.edits && r.failure == more.failure
  {
    hide NextRecord, E.Decode;
  }

  /** A record that is an edit of a database with this comparator. */
  predicate Readable(record: Bytes, comparator: Bytes) {
    var e := E.Decode(E.FRESH, record);
    e.Some? && (e.value.comparator.Some? ==> e.value.comparator.value == comparator)
  }

  lemma RecordFailure(record: Bytes, comparator: Bytes)
    ensures DecodeRecord(record, comparator).failure.None? <==> Readable(record, comparator)
    ensures DecodeRecord(record, comparator).failure != Some(Corrupt)
  {
    hide E.Decode;
  }

  lemma ReadUnfolds(items: seq<Item>)
    ensures var f := NextRecord(items, false, []);
      && Records(items) == (if f.record.None? then [] else [f.record.value] + Records(f.rest))
      && Reports(items) == f.reports + if f.record.None? then [] else Reports(f.rest)
  {
    hide NextRecord;
  }

  /** All edits of a manifest are read if and only if nothing in it is reported corrupt and every record
      is an edit of this database; and a corruption is what is told if nothing else is wrong. */
  lemma {:induction false} CorruptManifestIsRefused(items: seq<Item>, comparator: Bytes)
    ensures EditsIn(items, comparator).failure.None? <==>
            Reports(items) == [] && forall r :: r in Records(items) ==> Readable(r, comparator)
    ensures Reports(items) != [] && (forall r :: r in Records(items) ==> Readable(r, comparator)) ==>
      EditsIn(items, comparator).failure == Some(Corrupt)
    decreases |items|
  {
    hide NextRecord, DecodeRecord, Records, Reports, Readable;
    ReadUnfolds(items);
    var f := NextRecord(items, false, []);
    if f.record.Some? {
      RecordFailure(f.record.value, comparator);
      assert f.record.value in Records(items);
      CorruptManifestIsRefused(f.rest, comparator);
    }
  }

  function MissingNumber(n: Numbers): Option<Failure> {
    if n.nextFile.None? then Some(NoNextFile)
    else if n.log.None? then Some(NoLogNumber)
    else if n.sequence.None? then Some(NoLastSequence)
    else None
  }

  datatype Outcome =
    | Failed(failure: Failure)
    | Recovered(version: Version, manifestFileNumber: nat, nextFileNumber: nat, lastSequence: nat,
                logNumber: nat, prevLogNumber: nat)

  ghost predicate HasNumbers(r: Outcome, n: Numbers) {
    && r.Recovered? && MissingNumber(n).None?
    && r.manifestFileNumber == n.nextFile.value && r.nextFileNumber == n.nextFile.value + 1
    && r.lastSequence == n.sequence.value && r.logNumber == n.log.value
    && r.prevLogNumber == if n.prevLog.Some? then n.prevLog.value else 0
  }

  /** The version lists, in order, the files that replaying the edits from nothing leaves. */
  ghost predicate Lists(v: Version, edits: seq<VersionEdit>) {
    forall l: LevelNumber :: SortedBySmallest(v[l]) && FilesOf(v[l]) == Replay({}, edits, l)
  }

  /** What recovering from the bytes of a manifest gives. */
  ghost predicate IsRecovery(d: Disk, manifest: Bytes, r: Outcome) {
    var read := EditsIn(ItemsFrom(0, manifest), d.comparator);
    var numbers := NumbersOf(read.edits);
    if read.failure.Some? then r == Failed(read.failure.value)
    else if MissingNumber(numbers).Some? then r == Failed(MissingNumber(numbers).value)
    else HasNumbers(r, numbers) && Lists(r.version, LiftAll(d, read.edits))
  }

  /** A manifest whose records can all be read is refused exactly if no edit has a next file number, or none a
      log number, or none a last sequence number. */
  lemma MissingNumberIsRefused(d: Disk, manifest: Bytes, r: Outcome)
    requires IsRecovery(d, manifest, r) && EditsIn(ItemsFrom(0, manifest), d.comparator).failure.None?
    ensures var es := EditsIn(ItemsFrom(0, manifest), d.comparator).edits;
      r.Recovered? <==>
      && (exists e :: e in es && e.nextFileNumber.Some?) && (exists e :: e in es && e.logNumber.Some?)
      && (exists e :: e in es && e.lastSequence.Some?)
  {
    hide EditsIn, ItemsFrom, Lists, LiftAll, NumbersOf;
    NumbersAreLast(EditsIn(ItemsFrom(0, manifest), d.comparator).edits);
  }

  /** No file is added to a level under a number that the level already had. */
  ghost predicate Replayable(edits: seq<VersionEdit>) {
    forall l: LevelNumber :: AddsAreFresh({}, edits, l)
  }

  lemma PrefixIsReplayable(edits: seq<VersionEdit>, n: nat)
    requires Replayable(edits) && n <= |edits|
    ensures Replayable(edits[..n])
  {
    forall l: LevelNumber ensures AddsAreFresh({}, edits[..n], l) {
      PrefixIsFresh({}, edits, n, l);
    }
  }

  /** The next edit may be applied to the builder. */
  lemma MayApply(d: Disk, all: seq<E.Edit>, done: seq<E.Edit>, e: E.Edit, more: seq<E.Edit>)
    requires Replayable(LiftAll(d, all)) && done + [e] + more == all
    ensures forall l: LevelNumber ::
      AddsAreFresh(FilesOf(EMPTY_VERSION[l]), LiftAll(d, done) + [Lift(d, e)], l)
  {
    hide Lift, AddsAreFresh;
    LiftNext(d, done, e);
    assert all[..|done| + 1] == done + [e];
    LiftPrefix(d, all, |done| + 1);
    PrefixIsReplayable(LiftAll(d, all), |done| + 1);
    assert forall l: LevelNumber :: FilesOf(EMPTY_VERSION[l]) == {};
  }

  method ReadEdit(record: Bytes, comparator: Bytes) returns (e: E.Edit, failure: Option<Failure>)
    ensures DecodeRecord(record, comparator) == Decoded(if failure.None? then [e] else [], failure)
  {
    hide E.Decode;
    var edit := new E.VersionEdit();
    var ok := edit.DecodeFrom(record);
    e, failure := edit.Contents(), None;
    if !ok {
      failure := Some(BadEdit);
    } else if edit.comparator.Some? && edit.comparator.value != comparator {
      failure := Some(WrongComparator);
    }
  }

  method TakeNumbers(n: Numbers, e: E.Edit, ghost before: seq<E.Edit>) returns (r: Numbers)
    requires n == NumbersOf(before)
    ensures r == NumbersOf(before + [e])
  {
    r := n;
    if e.logNumber.Some? {
      r := r.(log := e.logNumber);
    }
    if e.prevLogNumber.Some? {
      r := r.(prevLog := e.prevLogNumber);
    }
    if e.nextFileNumber.Some? {
      r := r.(nextFile := e.nextFileNumber);
    }
    if e.lastSequence.Some? {
      r := r.(sequence := e.lastSequence);
    }
    assert (before + [e])[..|before|] == before;
  }

  lemma NothingRead(d: Disk, goal: seq<E.Edit>)
    ensures LiftAll(d, []) == [] && [] + goal == goal && NumbersOf([]) == Numbers(None, None, None, None)
  {
  }

  /** VersionSet::Recover, from the manifest that CURRENT names. */
  method Recover(d: Disk, manifest: Bytes) returns (r: Outcome)
    requires Replayable(LiftAll(d, EditsIn(ItemsFrom(0, manifest), d.comparator).edits))
    ensures IsRecovery(d, manifest, r)
  {
    hide NextRecord, ItemsFrom, BlockItems, EditsIn, DecodeRecord, Replayable, AddsAreFresh, LiftAll, Lift, NumbersOf;
    assert forall l: LevelNumber :: EMPTY_VERSION[l] == [] && FilesOf(EMPTY_VERSION[l]) == {};
    var builder := new Builder(EMPTY_VERSION);
    var reader := new Reader(manifest);
    ghost var goal := EditsIn(ItemsFrom(0, manifest), d.comparator);
    ghost var done: seq<E.Edit> := [];
    var failure: Option<Failure> := None;
    var numbers := Numbers(None, None, None, None);
    NothingRead(d, goal.edits);
    while true
      invariant reader.Valid() && builder.Valid() && fresh(builder) && fresh(reader)
      invariant builder.base == EMPTY_VERSION && builder.applied == LiftAll(d, done)
      invariant numbers == NumbersOf(done) && failure == None
      invariant var more := EditsIn(reader.Items(), d.comparator);
        done + more.edits == goal.edits && more.failure == goal.failure
      decreases |reader.Items()|
    {
      EditsUnfold(reader.Items(), d.comparator, done);
      var reported := |reader.corruptions|;
      var record := reader.ReadRecord();
      if |reader.corruptions| > reported {
        failure := Some(Corrupt);
      }
      if record.None? || failure.Some? {
        break;
      }
      var edit;
      edit, failure := ReadEdit(record.value, d.comparator);
      if failure.Some? {
        break;
      }
      MayApply(d, goal.edits, done, edit, EditsIn(reader.Items(), d.comparator).edits);
      LiftNext(d, done, edit);
      builder.Apply(Lift(d, edit));
      numbers := TakeNumbers(numbers, edit, done);
      done := done + [edit];
    }
    if failure.Some? {
      return Failed(failure.value);
    }
    if MissingNumber(numbers).Some? {
      return Failed(MissingNumber(numbers).value);
    }
    var v := builder.SaveTo();
    var prevLog := if numbers.prevLog.Some? then numbers.prevLog.value else 0;
    var nextFile := numbers.nextFile.value;
    r := Recovered(v, nextFile, nextFile + 1, numbers.sequence.value, numbers.log.value, prevLog);
  }

  // ---------------------------------------------------------------- what a manifest holds

  function Encodings(es: seq<E.Edit>): (r: seq<Bytes>)
    ensures |r| == |es|
  {
    seq(|es|, i requires 0 <= i < |es| => E.Encode(es[i]))
  }

  predicate Readback(e: E.Edit, comparator: Bytes) {
    E.EditFits(e) && (e.comparator.Some? ==> e.comparator.value == comparator)
  }

  predicate HasAllNumbers(e: E.Edit) {
    e.logNumber.Some? && e.prevLogNumber.Some? && e.nextFileNumber.Some? && e.lastSequence.Some?
  }

  predicate HasNoNumbers(e: E.Edit) {
    e.logNumber.None? && e.prevLogNumber.None? && e.nextFileNumber.None? && e.lastSequence.None?
  }

  /** A manifest starts with a snapshot; every further record is an edit with all four numbers.
      versions[i] is the version that was current after records[i]. */
  ghost predicate Written(d: Disk, records: seq<E.Edit>, versions: seq<Version>) {
    && |records| == |versions| && |records| > 0
    && (forall e :: e in records ==> Readback(e, d.comparator))
    && HasNoNumbers(records[0]) && IsSnapshotOf(Lift(d, records[0]), versions[0])
    && (forall i :: 1 <= i < |records| ==> HasAllNumbers(records[i]))
    && InstalledInOrder(versions, LiftAll(d, records[1..]))
    && (forall l: LevelNumber :: AddsAreFresh(FilesOf(versions[0][l]), LiftAll(d, records[1..]), l))
  }

  lemma RecordReadBack(e: E.Edit, comparator: Bytes)
    requires Readback(e, comparator)
    ensures DecodeRecord(E.Encode(e), comparator) == Decoded([e], None)
  {
    hide E.Decode, E.Encode, E.EditFits;
    E.RoundTrip([], e);
    assert E.Cleared([]) == E.FRESH;
  }

  /** The edits of a log's records are the edits that were encoded. */
  lemma {:induction false} EditsReadBack(items: seq<Item>, es: seq<E.Edit>, comparator: Bytes)
    requires Records(items) == Encodings(es) && Reports(items) == []
    requires forall e :: e in es ==> Readback(e, comparator)
    ensures EditsIn(items, comparator) == Decoded(es, None)
    decreases |es|
  {
    hide NextRecord, DecodeRecord, E.Encode, Readback;
    var f := NextRecord(items, false, []);
    if es == [] {
      assert Records(items) == [];
    } else {
      assert Records(items)[0] == Encodings(es)[0] == E.Encode(es[0]);
      assert Records(items) == [f.record.value] + Records(f.rest);
      assert f.record == Some(E.Encode(es[0]));
      assert Records(f.rest) == Records(items)[1..] == Encodings(es)[1..] == Encodings(es[1..]);
      RecordReadBack(es[0], comparator);
      EditsReadBack(f.rest, es[1..], comparator);
      assert [es[0]] + es[1..] == es;
    }
  }

  /** Whatever a crash left of a manifest, its whole records are read, and nothing is found corrupt. */
  lemma PrefixIsRead(d: Disk, records: seq<E.Edit>, n: nat)
    requires forall e :: e in records ==> Readback(e, d.comparator)
    requires n <= |LogOf(0, Encodings(records))|
    ensures var k := WholeRecords(0, Encodings(records), n);
      EditsIn(ItemsFrom(0, LogOf(0, Encodings(records))[..n]), d.comparator) == Decoded(records[..k], None)
  {
    hide LogOf, WholeRecords, ItemsFrom, Records, Reports, EditsIn, Readback, E.Encode;
    var k := WholeRecords(0, Encodings(records), n);
    PrefixIsRecovered(0, Encodings(records), n);
    assert Encodings(records)[..k] == Encodings(records[..k]);
    EditsReadBack(ItemsFrom(0, LogOf(0, Encodings(records))[..n]), records[..k], d.comparator);
  }

  lemma {:induction false} LastHasNumbers(records: seq<E.Edit>)
    requires |records| > 0 && HasNoNumbers(records[0]) && forall i :: 1 <= i < |records| ==> HasAllNumbers(records[i])
    ensures NumbersOf(records) ==
            if |records| == 1 then Numbers(None, None, None, None)
            else
              var e := records[|records| - 1];
              Numbers(e.logNumber, e.prevLogNumber, e.nextFileNumber, e.lastSequence)
  {
    if |records| == 1 {
      assert records[..0] == [];
    } else {
      LastHasNumbers(records[..|records| - 1]);
    }
  }

  lemma PrefixIsWritten(d: Disk, records: seq<E.Edit>, versions: seq<Version>, k: nat)
    requires Written(d, records, versions) && 1 <= k <= |records|
    ensures Written(d, records[..k], versions[..k])
  {
    hide E.EditFits, Lift, IsSnapshotOf, AddsAreFresh, Replay, SortedBySmallest, ApplyToLevel;
    assert records[..k][1..] == records[1..][..k - 1];
    LiftPrefix(d, records[1..], k - 1);
    forall l: LevelNumber
      ensures AddsAreFresh(FilesOf(versions[..k][0][l]), LiftAll(d, records[..k][1..]), l)
    {
      PrefixIsFresh(FilesOf(versions[0][l]), LiftAll(d, records[1..]), k - 1, l);
    }
  }

  /** Replaying all the records from nothing is installing the edits from the snapshot on. */
  lemma WrittenIsReplayable(d: Disk, records: seq<E.Edit>, versions: seq<Version>)
    requires Written(d, records, versions)
    ensures Replayable(LiftAll(d, records))
    ensures forall l: LevelNumber ::
      Replay({}, LiftAll(d, records), l) == Replay(FilesOf(versions[0][l]), LiftAll(d, records[1..]), l)
  {
    hide E.EditFits, Lift, IsSnapshotOf, AddsAreFresh, Replay, SortedBySmallest, InstalledInOrder;
    var snapshot, edits := Lift(d, records[0]), LiftAll(d, records[1..]);
    assert LiftAll(d, records) == [snapshot] + edits;
    forall l: LevelNumber
      ensures AddsAreFresh({}, LiftAll(d, records), l)
      ensures Replay({}, LiftAll(d, records), l) == Replay(FilesOf(versions[0][l]), edits, l)
    {
      ReplayAfterSnapshot(snapshot, versions[0], edits, l);
    }
  }

  lemma ListedIsCurrent(d: Disk, records: seq<E.Edit>, versions: seq<Version>, v: Version)
    requires Written(d, records, versions) && Lists(v, LiftAll(d, records))
    ensures v == versions[|versions| - 1]
  {
    hide E.EditFits, Lift, IsSnapshotOf, AddsAreFresh, Replay, SortedBySmallest, InstalledInOrder;
    WrittenIsReplayable(d, records, versions);
    RecoveredIsInstalled(v, versions, LiftAll(d, records[1..]));
  }

  /** Recovery after a crash: the version that was current after the last record that is whole, and
      the numbers of that record.  A manifest cut before its second record is refused. */
  ghost predicate IsState(r: Outcome, records: seq<E.Edit>, versions: seq<Version>, k: nat)
    requires k <= |records| == |versions|
  {
    if k <= 1 then r == Failed(NoNextFile)
    else
      var last := records[k - 1];
      && r.Recovered? && r.version == versions[k - 1]
      && last.nextFileNumber == Some(r.manifestFileNumber) && r.nextFileNumber == r.manifestFileNumber + 1
      && last.lastSequence == Some(r.lastSequence)
      && last.logNumber == Some(r.logNumber) && last.prevLogNumber == Some(r.prevLogNumber)
  }

  lemma RecoveryIsState(d: Disk, records: seq<E.Edit>, versions: seq<Version>, n: nat, r: Outcome)
    requires Written(d, records, versions) && n <= |LogOf(0, Encodings(records))|
    requires IsRecovery(d, LogOf(0, Encodings(records))[..n], r)
    ensures IsState(r, records, versions, WholeRecords(0, Encodings(records), n))
  {
    hide LogOf, WholeRecords, ItemsFrom, EditsIn, Readback, E.Encode, LiftAll, Lift, Replay, InstalledInOrder,
         IsSnapshotOf,
         AddsAreFresh;
    var k := WholeRecords(0, Encodings(records), n);
    PrefixIsRead(d, records, n);
    if k == 0 {
      assert records[..0] == [];
    } else {
      PrefixIsWritten(d, records, versions, k);
      LastHasNumbers(records[..k]);
      if k > 1 {
        ListedIsCurrent(d, records[..k], versions[..k], r.version);
      }
    }
  }

  /** Opening a database whose manifest was cut anywhere. */
  method RecoverManifest(d: Disk, manifest: Bytes, ghost records: seq<E.Edit>, ghost versions: seq<Version>)
    returns (r: Outcome)
    requires Written(d, records, versions) && manifest <= LogOf(0, Encodings(records))
    ensures IsState(r, records, versions, WholeRecords(0, Encodings(records), |manifest|))
  {
    hide LogOf, WholeRecords, ItemsFrom, EditsIn, Readback, E.Encode, LiftAll, Lift, InstalledInOrder, IsSnapshotOf,
         AddsAreFresh;
    ghost var n := |manifest|;
    ghost var k := WholeRecords(0, Encodings(records), n);
    assert manifest == LogOf(0, Encodings(records))[..n];
    PrefixIsRead(d, records, n);
    if k == 0 {
      NothingIsReplayable(d, records);
    } else {
      PrefixIsWritten(d, records, versions, k);
      WrittenIsReplayable(d, records[..k], versions[..k]);
    }
    r := Recover(d, manifest);
    RecoveryIsState(d, records, versions, n, r);
  }

  lemma NothingIsReplayable(d: Disk, records: seq<E.Edit>)
    ensures Replayable(LiftAll(d, records[..0]))
  {
    assert LiftAll(d, records[..0]) == [];
  }

  // ---------------------------------------------------------------- writing

  /** An edit as LogAndApply logs it: with the numbers of the version set where it has none. */
  function Signed(e: E.Edit, logNumber: nat, prevLogNumber: nat, nextFileNumber: nat, lastSequence: nat): E.Edit {
    e.(logNumber := Some(if e.logNumber.Some? then e.logNumber.value else logNumber),
       prevLogNumber := Some(if e.prevLogNumber.Some? then e.prevLogNumber.value else prevLogNumber),
       nextFileNumber := Some(nextFileNumber),
       lastSequence := Some(lastSequence))
  }

  /** Every file of the version can be written to a manifest and read back. */
  ghost predicate Storable(d: Disk, v: Version) {
    forall l: LevelNumber ::
      SortedBySmallest(v[l]) && DistinctNumbers(v[l]) && forall f :: f in v[l] ==> OnDisk(d, f)
  }

  ghost predicate Fresh(d: Disk, base: Version, edits: seq<E.Edit>) {
    forall l: LevelNumber :: AddsAreFresh(FilesOf(base[l]), LiftAll(d, edits), l)
  }

  predicate PointersFit(ps: seq<Option<Bytes>>) {
    |ps| == NUM_LEVELS && forall p :: p in ps && p.Some? ==> |p.value| < TWO_32
  }

  lemma AddMeta(d: Disk, ns: seq<(LevelNumber, E.FileMeta)>, l: LevelNumber, f: File)
    requires OnDisk(d, f)
    ensures FilesIn(d, ns + [(l, MetaOf(d, f))]) == FilesIn(d, ns) + [(l, f)]
  {
    hide MetaOf;
    MetaReadBack(d, f);
  }

  /** The levels before `l`, and part of level `l`, have been added to a snapshot. */
  ghost predicate SnapshotUpTo(d: Disk, e: E.Edit, v: Version, l: nat, part: Level) {
    && Readback(e, d.comparator) && HasNoNumbers(e) && e.deletedFiles == []
    && (forall k: LevelNumber :: NoRepeats(FilesIn(d, e.newFiles), k))
    && (forall k: LevelNumber ::
         AddedAt(FilesIn(d, e.newFiles), k) == if k < l then FilesOf(v[k]) else if k == l then FilesOf(part) else {})
  }

  lemma EarlierAreOthers(files: Level, i: nat)
    requires SortedBySmallest(files) && DistinctNumbers(files) && i < |files|
    ensures forall g :: g in FilesOf(files[..i]) ==> g.number != files[i].number
  {
    forall g | g in FilesOf(files[..i]) ensures g.number != files[i].number {
      var k :| 0 <= k < i && files[k] == g;
      assert BySmallestKey(files[k], files[i]);
    }
  }

  lemma SnapshotNextFile(d: Disk, e: E.Edit, v: Version, l: LevelNumber, i: nat)
    requires NameFits(d) && Storable(d, v) && i < |v[l]| && SnapshotUpTo(d, e, v, l, v[l][..i])
    ensures SnapshotUpTo(d, E.Apply(e, E.NewFile(l, MetaOf(d, v[l][i]))), v, l, v[l][..i + 1])
  {
    hide MetaOf, FilesIn, BySmallestKey, KeyBytes, E.InOrder;
    var f := v[l][i];
    assert FilesOf(v[l][..i + 1]) == FilesOf(v[l][..i]) + {f};
    EarlierAreOthers(v[l], i);
    AddMeta(d, e.newFiles, l, f);
    AddOneFile(FilesIn(d, e.newFiles), l, f);
  }

  lemma SnapshotNextLevel(d: Disk, e: E.Edit, v: Version, l: LevelNumber)
    requires SnapshotUpTo(d, e, v, l, v[l][..|v[l]|])
    ensures SnapshotUpTo(d, e, v, l + 1, [])
  {
    hide Readback, FilesIn, NoRepeats;
    assert v[l][..|v[l]|] == v[l];
  }

  lemma SnapshotNone(d: Disk, e: E.Edit, v: Version)
    requires Readback(e, d.comparator) && HasNoNumbers(e) && e.deletedFiles == [] && e.newFiles == []
    ensures SnapshotUpTo(d, e, v, 0, [])
  {
    hide Readback;
  }

  lemma SnapshotDone(d: Disk, e: E.Edit, v: Version)
    requires SnapshotUpTo(d, e, v, NUM_LEVELS, [])
    ensures Readback(e, d.comparator) && HasNoNumbers(e) && IsSnapshotOf(Lift(d, e), v)
  {
    hide Readback, FilesIn, NoRepeats;
  }

  /** The edit that WriteSnapshot logs. */
  method SnapshotOf(d: Disk, v: Version, compactPointer: seq<Option<Bytes>>) returns (edit: E.VersionEdit)
    requires NameFits(d) && Storable(d, v) && PointersFit(compactPointer)
    ensures fresh(edit) && edit.Valid()
    ensures Readback(edit.Contents(), d.comparator) && HasNoNumbers(edit.Contents())
    ensures IsSnapshotOf(Lift(d, edit.Contents()), v)
  {
    hide SnapshotUpTo, Readback, Storable, MetaOf, IsSnapshotOf, Lift, E.Apply;
    edit := StartSnapshot(d, compactPointer);
    SnapshotNone(d, edit.Contents(), v);
    for l := 0 to NUM_LEVELS
      invariant fresh(edit) && edit.Valid() && SnapshotUpTo(d, edit.Contents(), v, l, [])
    {
      assert v[l][..0] == [];
      for i := 0 to |v[l]|
        invariant fresh(edit) && edit.Valid() && SnapshotUpTo(d, edit.Contents(), v, l, v[l][..i])
      {
        SnapshotNextFile(d, edit.Contents(), v, l, i);
        edit.Take(E.NewFile(l, MetaOf(d, v[l][i])));
      }
      SnapshotNextLevel(d, edit.Contents(), v, l);
    }
    SnapshotDone(d, edit.Contents(), v);
  }

  method StartSnapshot(d: Disk, compactPointer: seq<Option<Bytes>>) returns (edit: E.VersionEdit)
    requires NameFits(d) && PointersFit(compactPointer)
    ensures fresh(edit) && edit.Valid()
    ensures var e := edit.Contents();
      Readback(e, d.comparator) && HasNoNumbers(e) && e.deletedFiles == [] && e.newFiles == []
  {
    edit := new E.VersionEdit();
    edit.Take(E.Comparator(d.comparator));
    for l := 0 to NUM_LEVELS
      invariant fresh(edit) && edit.Valid()
      invariant var e := edit.Contents();
        Readback(e, d.comparator) && HasNoNumbers(e) && e.deletedFiles == [] && e.newFiles == []
    {
      if compactPointer[l].Some? {
        edit.Take(E.CompactPointer(l, compactPointer[l].value));
      }
    }
  }

  // ---------------------------------------------------------------- one more record

  lemma WrittenFirst(d: Disk, snapshot: E.Edit, v: Version)
    requires Readback(snapshot, d.comparator) && HasNoNumbers(snapshot) && IsSnapshotOf(Lift(d, snapshot), v)
    requires forall l: LevelNumber :: SortedBySmallest(v[l])
    ensures Written(d, [snapshot], [v])
  {
    hide Readback, IsSnapshotOf, Lift, SortedBySmallest;
    assert [snapshot][1..] == [];
    assert LiftAll(d, []) == [];
  }

  lemma InstalledNext(versions: seq<Version>, edits: seq<VersionEdit>, e: VersionEdit, v: Version)
    requires InstalledInOrder(versions, edits) && forall l: LevelNumber :: SortedBySmallest(v[l])
    requires forall l: LevelNumber :: FilesOf(v[l]) == ApplyToLevel(FilesOf(versions[|edits|][l]), e, l)
    ensures InstalledInOrder(versions + [v], edits + [e])
  {
    hide SortedBySmallest, ApplyToLevel, FilesOf;
  }

  lemma WrittenNext(d: Disk, records: seq<E.Edit>, versions: seq<Version>, e: E.Edit, v: Version)
    requires Written(d, records, versions) && Readback(e, d.comparator) && HasAllNumbers(e)
    requires forall l: LevelNumber :: SortedBySmallest(v[l])
    requires forall l: LevelNumber ::
      FilesOf(v[l]) == ApplyToLevel(FilesOf(versions[|versions| - 1][l]), Lift(d, e), l)
    requires Fresh(d, versions[0], records[1..] + [e])
    ensures Written(d, records + [e], versions + [v])
  {
    hide Readback, IsSnapshotOf, Lift, SortedBySmallest, InstalledInOrder, AddsAreFresh, ApplyToLevel, FilesOf, LiftAll;
    assert (records + [e])[1..] == records[1..] + [e];
    LiftNext(d, records[1..], e);
    InstalledNext(versions, LiftAll(d, records[1..]), Lift(d, e), v);
  }

  lemma {:induction false} ReplayWithin(files: set<File>, edits: seq<VersionEdit>, l: LevelNumber)
    ensures Replay(files, edits, l) <= EverAdded(files, edits, l)
  {
    if edits != [] {
      ReplayWithin(files, edits[..|edits| - 1], l);
    }
  }

  lemma NextIsFresh(files: set<File>, edits: seq<VersionEdit>, e: VersionEdit, l: LevelNumber)
    requires AddsAreFresh(files, edits + [e], l)
    ensures AddsAreFresh(Replay(files, edits, l), [e], l)
  {
    assert (edits + [e])[..|edits|] == edits && [e][..0] == [];
    ReplayWithin(files, edits, l);
    hide Replay;
  }

  /** The next edit may be applied to the current version. */
  lemma CurrentMayTake(d: Disk, records: seq<E.Edit>, versions: seq<Version>, e: E.Edit)
    requires Written(d, records, versions) && Fresh(d, versions[0], records[1..] + [e])
    ensures var current := versions[|versions| - 1];
      forall l: LevelNumber :: AddsAreFresh(FilesOf(current[l]), [Lift(d, e)], l)
  {
    hide Readback, IsSnapshotOf, Lift, AddsAreFresh, FilesOf, Replay, LiftAll;
    LiftNext(d, records[1..], e);
    var current := versions[|versions| - 1];
    forall l: LevelNumber ensures AddsAreFresh(FilesOf(current[l]), [Lift(d, e)], l) {
      InstallingIsReplay(versions, LiftAll(d, records[1..]), l);
      NextIsFresh(FilesOf(versions[0][l]), LiftAll(d, records[1..]), Lift(d, e), l);
    }
  }

  lemma SignedReadsBack(e: E.Edit, comparator: Bytes, log: nat, prevLog: nat, nextFile: nat, sequence: nat)
    requires Readback(e, comparator) && log < TWO_64 && prevLog < TWO_64 && nextFile < TWO_64 && sequence < TWO_64
    ensures var signed := Signed(e, log, prevLog, nextFile, sequence);
      Readback(signed, comparator) && HasAllNumbers(signed)
  {
    hide E.InOrder, E.FieldFits;
  }

  lemma SignedLifts(d: Disk, e: E.Edit, log: nat, prevLog: nat, nextFile: nat, sequence: nat)
    ensures Lift(d, Signed(e, log, prevLog, nextFile, sequence)) == Lift(d, e)
  {
  }

  lemma WrittenLengths(d: Disk, records: seq<E.Edit>, versions: seq<Version>)
    requires Written(d, records, versions)
    ensures |records| == |versions| > 0
  {
  }

  lemma ReadbackPointers(e: E.Edit, comparator: Bytes)
    requires Readback(e, comparator)
    ensures forall p :: p in e.compactPointers ==> |p.1| < TWO_32
  {
  }

  lemma SignedIsFresh(d: Disk, base: Version, edits: seq<E.Edit>, e: E.Edit, signed: E.Edit)
    requires Lift(d, signed) == Lift(d, e) && Fresh(d, base, edits + [e])
    ensures Fresh(d, base, edits + [signed])
  {
    hide Lift, AddsAreFresh;
    LiftNext(d, edits, e);
    LiftNext(d, edits, signed);
  }

  lemma EncodingsNext(records: seq<E.Edit>, e: E.Edit)
    ensures Encodings(records + [e]) == Encodings(records) + [E.Encode(e)]
  {
    hide E.Encode;
  }

  /** The log of a manifest after one more record. */
  lemma ManifestNext(records: seq<E.Edit>, e: E.Edit)
    ensures var encodings := Encodings(records);
      && LogOf(0, Encodings(records + [e])) == LogOf(0, encodings) + Emit(AfterAll(0, encodings), E.Encode(e), true)
      && AfterAll(0, Encodings(records + [e])) == EndOffset(AfterAll(0, encodings), E.Encode(e))
  {
    hide E.Encode, Encodings, LogOf, AfterAll, Emit, EndOffset;
    EncodingsNext(records, e);
    LogOfNext(0, Encodings(records), E.Encode(e));
  }

  /** The log writer has written these records, and nothing else. */
  ghost predicate Holds(log: Writer, records: seq<E.Edit>)
    reads log
  {
    && log.Valid() && log.dest == LogOf(0, Encodings(records))
    && log.blockOffset == AfterAll(0, Encodings(records))
  }

  method AppendEdit(log: Writer, edit: E.VersionEdit, room: nat, ghost records: seq<E.Edit>) returns (ok: bool)
    requires Holds(log, records)
    modifies log
    ensures ok ==> Holds(log, records + [edit.Contents()])
  {
    hide LogOf, AfterAll, Emit, EndOffset, Encodings, E.Encode, OffsetAfter;
    ManifestNext(records, edit.Contents());
    var record := edit.EncodeTo([]);
    assert [] + E.Encode(edit.Contents()) == E.Encode(edit.Contents());
    TakenAll(Emit(log.blockOffset, record, true), room);
    ok := log.AddRecord(record, room);
  }

  method StartLog() returns (log: Writer)
    ensures fresh(log) && Holds(log, [])
  {
    log := new Writer([]);
    assert Encodings([]) == [];
  }

  /** What the version set keeps, and its manifest. */
  class ManifestWriter {
    const d: Disk
    var current: Version
    var logNumber: nat
    var prevLogNumber: nat
    var nextFileNumber: nat
    var lastSequence: nat
    /** Where the next compaction at each level should start, as an encoded key. */
    var compactPointer: seq<Option<Bytes>>
    var descriptorLog: Writer?
    ghost var records: seq<E.Edit>
    ghost var versions: seq<Version>

    /** A version set as it is opened, before it has a manifest of its own. */
    constructor (d: Disk, current: Version, logNumber: nat, prevLogNumber: nat, nextFileNumber: nat,
                 lastSequence: nat, compactPointer: seq<Option<Bytes>>)
      requires NameFits(d) && PointersFit(compactPointer) && forall l: LevelNumber :: SortedBySmallest(current[l])
      ensures Valid() && descriptorLog == null && this.d == d && this.current == current
      ensures this.logNumber == logNumber && this.prevLogNumber == prevLogNumber
      ensures this.nextFileNumber == nextFileNumber && this.lastSequence == lastSequence
    {
      this.d, this.current, this.compactPointer := d, current, compactPointer;
      this.logNumber, this.prevLogNumber := logNumber, prevLogNumber;
      this.nextFileNumber, this.lastSequence := nextFileNumber, lastSequence;
      descriptorLog, records, versions := null, [], [];
    }

    ghost predicate Valid()
      reads this, descriptorLog
    {
      && NameFits(d) && PointersFit(compactPointer)
      && (forall l: LevelNumber :: SortedBySmallest(current[l]))
      && (descriptorLog == null ==> records == [] && versions == [])
      && (descriptorLog != null ==>
           Holds(descriptorLog, records) && Written(d, records, versions) && current == versions[|versions| - 1])
      && (|records| > 1 ==>
           var last := records[|records| - 1];
           last.logNumber == Some(logNumber) && last.prevLogNumber == Some(prevLogNumber))
    }

    /** Opening the database again, from as much of the manifest as a crash left: the version and the
        numbers of the last record that is whole; from all of it, those of the version set itself. */
    lemma CrashRecovery(n: nat, r: Outcome)
      requires Valid() && descriptorLog != null && n <= |descriptorLog.dest|
      requires IsRecovery(d, descriptorLog.dest[..n], r)
      ensures IsState(r, records, versions, WholeRecords(0, Encodings(records), n))
      ensures n == |descriptorLog.dest| && |records| > 1 ==>
        r.Recovered? && r.version == current && r.logNumber == logNumber && r.prevLogNumber == prevLogNumber
    {
      hide IsRecovery, Readback, LiftAll, Lift, InstalledInOrder, IsSnapshotOf, AddsAreFresh, LogOf, WholeRecords,
           Encodings, AfterAll;
      RecoveryIsState(d, records, versions, n, r);
      assert Encodings(records)[..|records|] == Encodings(records);
      WholeRecordsFit(0, Encodings(records), n, |records|);
    }

    /** The edit adds no file to a level under a number it had before, since the snapshot or, before
        there is one, in the current version. */
    ghost predicate MayTake(e: E.Edit)
      requires Valid()
      reads this, descriptorLog
    {
      if descriptorLog == null then Fresh(d, current, [e]) else Fresh(d, versions[0], records[1..] + [e])
    }

    lemma MayApply(e: E.Edit)
      requires Valid() && MayTake(e)
      ensures forall l: LevelNumber :: AddsAreFresh(FilesOf(current[l]), [Lift(d, e)], l)
    {
      hide Holds, Written, AddsAreFresh, Lift;
      if descriptorLog == null {
        assert LiftAll(d, [e]) == [Lift(d, e)];
      } else {
        CurrentMayTake(d, records, versions, e);
      }
    }

    /** SetLogNumber and its likes, for the numbers the edit does not have. */
    method Sign(edit: E.VersionEdit)
      modifies edit
      ensures old(edit.Valid()) ==> edit.Valid()
      ensures edit.Contents() == Signed(old(edit.Contents()), logNumber, prevLogNumber, nextFileNumber, lastSequence)
    {
      if edit.logNumber.None? {
        edit.logNumber := Some(logNumber);
      }
      if edit.prevLogNumber.None? {
        edit.prevLogNumber := Some(prevLogNumber);
      }
      edit.nextFileNumber := Some(nextFileNumber);
      edit.lastSequence := Some(lastSequence);
    }

    /** Builder::Apply also moves the compaction pointers. */
    method TakePointers(edit: E.VersionEdit)
      requires PointersFit(compactPointer) && forall p :: p in edit.compactPointers ==> |p.1| < TWO_32
      modifies this`compactPointer
      ensures PointersFit(compactPointer)
    {
      for i := 0 to |edit.compactPointers|
        invariant PointersFit(compactPointer)
      {
        var p := edit.compactPointers[i];
        compactPointer := compactPointer[p.0 := Some(p.1)];
      }
    }

    /** The manifest to append to; a new one starts with a snapshot of the current version. */
    method OpenManifest(snapshotRoom: nat, ghost e: E.Edit)
      returns (ok: bool, log: Writer, ghost before: seq<E.Edit>, ghost was: seq<Version>)
      requires Valid() && MayTake(e) && (descriptorLog == null ==> Storable(d, current))
      ensures descriptorLog == null ==> fresh(log)
      ensures descriptorLog != null ==> log == descriptorLog && ok && before == records && was == versions
      ensures ok ==> Holds(log, before) && Written(d, before, was) && current == was[|was| - 1]
      ensures ok ==> |before| == |was| > 0 && Fresh(d, was[0], before[1..] + [e])
      ensures ok && descriptorLog == null ==> |before| == 1 && was == [current]
    {
      hide Holds, Written, Readback, Lift, Storable, IsSnapshotOf, FilesOf, Fresh;
      if descriptorLog != null {
        WrittenLengths(d, records, versions);
        ok, log, before, was := true, descriptorLog, records, versions;
      } else {
        log := StartLog();
        var snapshot := SnapshotOf(d, current, compactPointer);
        ok := AppendEdit(log, snapshot, snapshotRoom, []);
        before, was := [snapshot.Contents()], [current];
        assert [] + before == before && before[1..] + [e] == [e];
        WrittenFirst(d, snapshot.Contents(), current);
      }
    }

    /** The end of LogAndApply: the new version becomes the current one. */
    method Commit(edit: E.VersionEdit, log: Writer, v: Version, ghost before: seq<E.Edit>, ghost was: seq<Version>)
      requires NameFits(d) && PointersFit(compactPointer) && edit.logNumber.Some? && edit.prevLogNumber.Some?
      requires Holds(log, before + [edit.Contents()]) && Written(d, before + [edit.Contents()], was + [v])
      requires forall l: LevelNumber :: SortedBySmallest(v[l])
      modifies this
      ensures Valid() && descriptorLog == log && current == v
      ensures records == before + [edit.Contents()] && versions == was + [v]
      ensures Some(logNumber) == edit.logNumber && Some(prevLogNumber) == edit.prevLogNumber
    {
      hide Holds, Written, SortedBySmallest;
      descriptorLog := log;
      current, logNumber, prevLogNumber := v, edit.logNumber.value, edit.prevLogNumber.value;
      records, versions := before + [edit.Contents()], was + [v];
    }

    /** VersionSet::LogAndApply.  `snapshotRoom` and `room` are how many bytes of the snapshot and of
        the edit the file takes; `synced` says whether the sync, and naming a new manifest in
        CURRENT, succeed.  Nothing is installed unless all of that does. */
    method LogAndApply(edit: E.VersionEdit, snapshotRoom: nat, room: nat, synced: bool) returns (ok: bool)
      requires Valid() && edit.Valid() && Readback(edit.Contents(), d.comparator) && MayTake(edit.Contents())
      requires edit.logNumber.Some? ==> logNumber <= edit.logNumber.value < nextFileNumber
      requires logNumber < TWO_64 && prevLogNumber < TWO_64 && nextFileNumber < TWO_64 && lastSequence < TWO_64
      requires descriptorLog == null ==> Storable(d, current)
      modifies this, edit, descriptorLog
      ensures edit.Contents() ==
              Signed(old(edit.Contents()), old(logNumber), old(prevLogNumber), old(nextFileNumber), old(lastSequence))
      ensures ok ==>
        && Valid() && descriptorLog != null
        && Some(logNumber) == edit.logNumber && Some(prevLogNumber) == edit.prevLogNumber
        && |records| == (if old(records) == [] then 2 else |old(records)| + 1)
        && old(records) <= records && records[|records| - 1] == edit.Contents()
        && versions == (if old(versions) == [] then [old(current)] else old(versions)) + [current]
        && forall l: LevelNumber :: FilesOf(current[l]) == ApplyToLevel(FilesOf(old(current)[l]),
            Lift(d, edit.Contents()), l)
      ensures !ok ==>
        && current == old(current) && logNumber == old(logNumber) && prevLogNumber == old(prevLogNumber)
        && records == old(records) && versions == old(versions) && descriptorLog == old(descriptorLog)
      ensures !ok && old(descriptorLog) == null ==> Valid()
    {
      hide Holds, Written, Readback, Lift, AddsAreFresh, ApplyToLevel, Storable, Fresh, IsSnapshotOf, FilesOf,
           SortedBySmallest, PointersFit, NameFits;
      ghost var e := edit.Contents();
      MayApply(e);
      SignedLifts(d, e, logNumber, prevLogNumber, nextFileNumber, lastSequence);
      SignedReadsBack(e, d.comparator, logNumber, prevLogNumber, nextFileNumber, lastSequence);
      Sign(edit);
      var v := ApplyEdit(current, Lift(d, edit.Contents()));
      ReadbackPointers(edit.Contents(), d.comparator);
      TakePointers(edit);
      var log: Writer;
      ghost var before: seq<E.Edit>, was: seq<Version>;
      ok, log, before, was := OpenManifest(snapshotRoom, e);
      if ok {
        ok := AppendEdit(log, edit, room, before);
      }
      if ok && synced {
        SignedIsFresh(d, was[0], before[1..], e, edit.Contents());
        WrittenNext(d, before, was, edit.Contents(), v);
        Commit(edit, log, v, before, was);
      } else {
        ok := false;
      }
    }
  }

  // ---------------------------------------------------------------- disks there are

  /** The byte string at a place in the bytewise order. */
  ghost function NameOf(user: UserKey): (s: Bytes)
    ensures (exists r :: Number(r) == user) ==> Number(s) == user
  {
    if exists r :: Number(r) == user then var r :| Number(r) == user; r else []
  }

  /** The key's user key is a byte string that a manifest can hold. */
  ghost predicate HasBytes(k: IKey) {
    KeyFits(k) && exists s: Bytes :: Number(s) == k.user && |s| + 8 < TWO_32
  }

  ghost predicate FileHasBytes(f: File) {
    f.number < TWO_64 && f.size < TWO_64 && HasBytes(f.smallest) && HasBytes(f.largest)
  }

  ghost predicate HasFile(v: Version, f: File) {
    exists l: LevelNumber :: f in v[l]
  }

  /** What the table file of a number holds, for a version that has such a file. */
  ghost function TableIn(v: Version, number: nat): seq<Entry> {
    if exists f :: HasFile(v, f) && f.number == number then
      var f :| HasFile(v, f) && f.number == number;
      f.entries
    else []
  }

  lemma NameIs(user: UserKey, s: Bytes)
    requires Number(s) == user
    ensures NameOf(user) == s
  {
    hide Number;
    NumbersDiffer(NameOf(user), s);
  }

  lemma NamedKey(d: Disk, k: IKey)
    requires d.name == (u => NameOf(u)) && HasBytes(k)
    ensures Means(d, k) && |InBytes(d, k)| < TWO_32
  {
    hide Number, NameOf;
    var s: Bytes :| Number(s) == k.user && |s| + 8 < TWO_32;
    NameIs(k.user, s);
  }

  /** Whatever byte strings bound its files, a version can be stored on some disk, as long as a file
      number stands for one table. */
  lemma EveryVersionIsStorable(v: Version, comparator: Bytes) returns (d: Disk)
    requires |comparator| < TWO_32
    requires forall l: LevelNumber :: SortedBySmallest(v[l]) && DistinctNumbers(v[l])
    requires forall f :: HasFile(v, f) ==> FileHasBytes(f)
    requires forall f, g :: HasFile(v, f) && HasFile(v, g) && f.number == g.number ==> f.entries == g.entries
    ensures NameFits(d) && d.comparator == comparator && Storable(d, v)
  {
    d := Disk(u => NameOf(u), (n: nat) => TableIn(v, n), comparator);
    hide Number, NameOf, HasBytes, KeyFits, SortedBySmallest, DistinctNumbers;
    forall l: LevelNumber, f | f in v[l] ensures OnDisk(d, f) {
      assert HasFile(v, f);
      NamedKey(d, f.smallest);
      NamedKey(d, f.largest);
    }
  }

  const SHORT: Bytes := [0x61]
  const LONG: Bytes := [0x61, 0x00]

  /** A file whose user keys are a byte string and what it is the beginning of. */
  const TWO_KEYS: File := File(1, 100, IKey(Number(SHORT), 2, 1), IKey(Number(LONG), 1, 0),
                               [Entry(Number(SHORT), 2, Put([5])), Entry(Number(LONG), 1, Delete)])
  const TWO_KEYS_VERSION: Version := [[], [TWO_KEYS], [], [], [], [], []]

  lemma TwoKeysAreInOrder()
    ensures Number(SHORT) < Number(LONG) && TWO_KEYS.Valid()
  {
    hide Number;
    assert SHORT[1..] == [] && LONG[1..] == [0];
    assert BytesLess(SHORT, LONG);
    NumberKeepsOrder(SHORT, LONG);
  }

  lemma TwoKeysAreStorable(d: Disk)
    requires d.name(Number(SHORT)) == SHORT && d.name(Number(LONG)) == LONG && d.table(1) == TWO_KEYS.entries
    ensures Storable(d, TWO_KEYS_VERSION)
    ensures forall l: LevelNumber :: SortedBySmallest(TWO_KEYS_VERSION[l])
  {
    hide Number;
  }

  /** The version set of such a file is valid, and its version can be stored. */
  method TwoKeysWriter() returns (w: ManifestWriter)
    ensures w.Valid() && w.descriptorLog == null && w.current == TWO_KEYS_VERSION
    ensures TWO_KEYS.Valid() && Storable(w.d, w.current)
  {
    TwoKeysAreInOrder();
    var d := Disk(u => if u == Number(SHORT) then SHORT else LONG, (n: nat) => TWO_KEYS.entries, [0x62]);
    TwoKeysAreStorable(d);
    w := new ManifestWriter(d, TWO_KEYS_VERSION, 0, 0, 2, 2, seq(NUM_LEVELS, i => None));
  }
}
