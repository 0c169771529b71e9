/** DBImpl over its memtables and versions: every read a client can still make returns what a plain
    history of all writes would (db_impl.cc). */
module Databases {
  import opened Wrappers
  import opened Entries
  import opened Versions
  import opened Inputs
  import opened Builders
  import opened VersionSets
  import opened OutputCuts
  import opened Compactions
  import opened Invariants
  import opened CompactionReads

  /** Inserting into a memtable, whose skip list keeps its entries in internal-key order. */
  function InsertEntry(entries: seq<Entry>, e: Entry): seq<Entry> {
    if entries == [] || Precedes(e.Key(), entries[0].Key()) then [e] + entries
    else [entries[0]] + InsertEntry(entries[1..], e)
  }

  lemma {:induction false} InsertEntryKeepsSorted(entries: seq<Entry>, e: Entry)
    requires Sorted(entries)
    requires forall x :: x in entries && x.user == e.user ==> x.seqno < e.seqno
    ensures Sorted(InsertEntry(entries, e))
    ensures EntrySet(InsertEntry(entries, e)) == EntrySet(entries) + {e}
  {
    if entries != [] && !Precedes(e.Key(), entries[0].Key()) {
      var rest := InsertEntry(entries[1..], e);
      InsertEntryKeepsSorted(entries[1..], e);
      assert entries == [entries[0]] + entries[1..];
      forall k | 0 <= k < |rest| ensures Precedes(entries[0].Key(), rest[k].Key()) {
        assert rest[k] in EntrySet(rest);
        assert rest[k] == e || rest[k] in entries[1..];
      }
    }
  }

  /** Writing the same newer entries on both sides keeps two stores indistinguishable. */
  lemma WritesKeepReadsEqual(a: set<Entry>, h: set<Entry>, e: Entry, user: UserKey, s: nat)
    requires DistinctSequences(a + {e}) && DistinctSequences(h + {e})
    requires Newer({e}, a) && Newer({e}, h)
    requires Read(a, user, s) == Read(h, user, s)
    ensures Read(a + {e}, user, s) == Read(h + {e}, user, s)
  {
    NewestInUnion({e}, a, user, s);
    NewestInUnion({e}, h, user, s);
    assert {e} + a == a + {e} && {e} + h == h + {e};
  }

  lemma AgreementComposes(floor: nat, higher: nat, a: set<Entry>, b: set<Entry>, h: set<Entry>)
    requires floor <= higher
    ensures AgreeFrom(higher, a, b) && AgreeFrom(floor, b, h) ==> AgreeFrom(higher, a, h)
  {
  }

  lemma WritesKeepAgreement(a: set<Entry>, h: set<Entry>, e: Entry, floor: nat)
    requires DistinctSequences(a) && DistinctSequences(h)
    requires forall x :: x in a + h ==> x.seqno < e.seqno
    requires AgreeFrom(floor, a, h)
    ensures AgreeFrom(floor, a + {e}, h + {e})
  {
    assert DistinctSequences(a + {e}) && DistinctSequences(h + {e}) && Newer({e}, a) && Newer({e}, h);
    hide DistinctSequences, Newer, Read;
    forall user, s | s >= floor ensures Read(a + {e}, user, s) == Read(h + {e}, user, s) {
      WritesKeepReadsEqual(a, h, e, user, s);
    }
  }

  ghost function MemEntries(mem: seq<Entry>, imm: Option<seq<Entry>>): set<Entry> {
    EntrySet(mem) + if imm.Some? then EntrySet(imm.value) else {}
  }

  /** Memtables over a version: each layer is newer than those below it. */
  ghost predicate Consistent(mem: seq<Entry>, imm: Option<seq<Entry>>, v: Version, nextFileNumber: nat, last: nat) {
    && WellFormed(v) && NumbersAcrossLevels(v)
    && (forall l, f :: 0 <= l < NUM_LEVELS && f in v[l] ==> f.number < nextFileNumber)
    && Sorted(mem) && (imm.Some? ==> Sorted(imm.value) && Newer(EntrySet(mem), EntrySet(imm.value)))
    && Newer(MemEntries(mem, imm), VersionEntries(v))
    && (forall e :: e in MemEntries(mem, imm) + VersionEntries(v) ==> e.seqno <= last)
    && last < MAX_SEQUENCE
  }

  /** Sequence numbers tell all stored entries of a user key apart. */
  lemma ConsistentIsDistinct(mem: seq<Entry>, imm: Option<seq<Entry>>, v: Version, nextFileNumber: nat, last: nat)
    requires Consistent(mem, imm, v, nextFileNumber, last)
    ensures DistinctSequences(MemEntries(mem, imm))
    ensures DistinctSequences(MemEntries(mem, imm) + VersionEntries(v))
  {
    SortedIsDistinct(mem);
    if imm.Some? {
      SortedIsDistinct(imm.value);
    }
    VersionDistinct(v);
  }

  lemma AddKeepsConsistent(mem: seq<Entry>, imm: Option<seq<Entry>>, v: Version, next: nat, last: nat, e: Entry)
    requires Consistent(mem, imm, v, next, last) && e.seqno == last + 1 < MAX_SEQUENCE
    ensures Consistent(InsertEntry(mem, e), imm, v, next, last + 1)
    ensures MemEntries(InsertEntry(mem, e), imm) == MemEntries(mem, imm) + {e}
  {
    hide WellFormed;
    assert forall x :: x in mem ==> x in EntrySet(mem);
    InsertEntryKeepsSorted(mem, e);
  }

  /** Adding one newer entry to the memtable and to the history. */
  lemma AddStep(mem: seq<Entry>, imm: Option<seq<Entry>>, v: Version, next: nat, last: nat, e: Entry,
                history: set<Entry>, floor: nat)
    requires Consistent(mem, imm, v, next, last) && e.seqno == last + 1 < MAX_SEQUENCE
    requires DistinctSequences(history) && forall x :: x in history ==> x.seqno <= last
    ensures Consistent(InsertEntry(mem, e), imm, v, next, last + 1)
    ensures DistinctSequences(history + {e}) && forall x :: x in history + {e} ==> x.seqno <= last + 1
    ensures AgreeFrom(floor, MemEntries(mem, imm) + VersionEntries(v), history)
        ==> AgreeFrom(floor, MemEntries(InsertEntry(mem, e), imm) + VersionEntries(v), history + {e})
  {
    var stored: set<Entry> := MemEntries(mem, imm) + VersionEntries(v);
    ConsistentIsDistinct(mem, imm, v, next, last);
    assert forall x :: x in stored + history ==> x.seqno < e.seqno;
    AddKeepsConsistent(mem, imm, v, next, last, e);
    hide Consistent, AgreeFrom, MemEntries, VersionEntries;
    assert MemEntries(InsertEntry(mem, e), imm) + VersionEntries(v) == stored + {e};
    if AgreeFrom(floor, stored, history) {
      WritesKeepAgreement(stored, history, e, floor);
    }
  }

  lemma FlushKeepsConsistent(mem: seq<Entry>, entries: seq<Entry>, v: Version, w: Version, level: nat, f: File,
                             last: nat)
    requires Consistent(mem, Some(entries), v, f.number, last)
    requires entries != [] && f == MakeFile(f.number, f.size, entries)
    requires level < NUM_LEVELS && MayPushTo(v, level, f) && Adds(v, w, level, f)
    ensures Consistent(mem, None, w, f.number + 1, last)
    ensures MemEntries(mem, None) + VersionEntries(w) == MemEntries(mem, Some(entries)) + VersionEntries(v)
  {
    FlushedFileIsNewer(mem, entries, v, f, last);
    assert WellFormed(w) by {
      FlushKeepsWellFormed(v, w, level, f);
    }
    FlushAddsEntries(v, w, level, f);
    FlushKeepsNumbers(v, w, level, f);
    hide WellFormed, VersionEntries, Adds, MayPushTo;
    FlushLayers(mem, entries, VersionEntries(v), last);
  }

  lemma FlushedFileIsNewer(mem: seq<Entry>, entries: seq<Entry>, v: Version, f: File, last: nat)
    requires Consistent(mem, Some(entries), v, f.number, last)
    requires entries != [] && f == MakeFile(f.number, f.size, entries)
    ensures f.Valid() && Newer(FileEntries(f), VersionEntries(v))
  {
    hide WellFormed, VersionEntries;
    assert EntrySet(entries) <= MemEntries(mem, Some(entries));
    forall e | e in entries ensures e.seqno <= MAX_SEQUENCE {
      assert e in EntrySet(entries);
    }
  }

  lemma FlushLayers(mem: seq<Entry>, entries: seq<Entry>, below: set<Entry>, last: nat)
    requires Newer(EntrySet(mem), EntrySet(entries)) && Newer(MemEntries(mem, Some(entries)), below)
    requires forall e :: e in MemEntries(mem, Some(entries)) + below ==> e.seqno <= last
    ensures Newer(MemEntries(mem, None), below + EntrySet(entries))
    ensures MemEntries(mem, None) + (below + EntrySet(entries)) == MemEntries(mem, Some(entries)) + below
    ensures forall e :: e in MemEntries(mem, None) + (below + EntrySet(entries)) ==> e.seqno <= last
  {
  }

  lemma CompactionKeepsConsistent(mem: seq<Entry>, imm: Option<seq<Entry>>, v: Version, w: Version, next: nat,
                                  last: nat,
                                  level: nat, inputs0: Level, inputs1: Level, outputs: Level, newNext: nat)
    requires Consistent(mem, imm, v, next, last) && GoodInputs(v, level, inputs0, inputs1)
    requires ValidFiles(outputs) && DisjointSorted(outputs) && DistinctNumbers(outputs)
    requires LevelEntries(outputs) <= InputEntries(inputs0, inputs1)
    requires forall l :: 0 <= l < NUM_LEVELS ==>
      DisjointNumbers(FilesOf(v[l]) - if l == level then FilesOf(inputs0) else {}, FilesOf(outputs))
    requires forall f :: f in outputs ==> f.number < newNext
    requires next <= newNext
    requires DisjointNumbers(FilesOf(v[level + 1]), FilesOf(outputs))
    requires Replaces(v, w, level, FilesOf(inputs0), FilesOf(inputs1), FilesOf(outputs))
    ensures Consistent(mem, imm, w, newNext, last)
  {
    assert WellFormed(w) && NumbersAcrossLevels(w) by {
      CompactionKeepsWellFormed(v, w, level, inputs0, inputs1, outputs);
      ReplacesKeepsNumbers(v, w, level, FilesOf(inputs0), FilesOf(inputs1), FilesOf(outputs));
    }
    assert VersionEntries(w) <= VersionEntries(v) by {
      EntriesBefore(v, level, inputs0, inputs1);
      EntriesAfter(v, w, level, inputs0, inputs1, outputs);
    }
    CompactionKeepsNumberBound(v, w, next, level, inputs0, inputs1, outputs, newNext);
  }

  lemma CompactionKeepsNumberBound(v: Version, w: Version, next: nat, level: nat, inputs0: Level, inputs1: Level,
                                   outputs: Level, newNext: nat)
    requires level + 1 < NUM_LEVELS && next <= newNext
    requires forall l, f :: 0 <= l < NUM_LEVELS && f in v[l] ==> f.number < next
    requires forall f :: f in outputs ==> f.number < newNext
    requires Replaces(v, w, level, FilesOf(inputs0), FilesOf(inputs1), FilesOf(outputs))
    ensures forall l, f :: 0 <= l < NUM_LEVELS && f in w[l] ==> f.number < newNext
  {
    forall l, f | 0 <= l < NUM_LEVELS && f in w[l] ensures f.number < newNext {
      assert f in FilesOf(w[l]);
      assert f in v[l] || f in outputs;
    }
  }

  /** New outputs carry numbers no file has yet. */
  lemma OutputNumbersAreFresh(v: Version, next: nat, outputs: Level)
    requires forall l, f :: 0 <= l < NUM_LEVELS && f in v[l] ==> f.number < next
    requires forall i :: 0 <= i < |outputs| ==> outputs[i].number == next + i
    ensures DistinctNumbers(outputs)
    ensures forall l :: 0 <= l < NUM_LEVELS ==> DisjointNumbers(FilesOf(v[l]), FilesOf(outputs))
    ensures forall f :: f in outputs ==> f.number < next + |outputs|
  {
  }

  lemma CompactionEditIsFresh(v: Version, edit: VersionEdit, level: nat, inputs0: Level, inputs1: Level, outputs: Level)
    requires level + 1 < NUM_LEVELS && IsCompactionEdit(edit, level, inputs0, inputs1, outputs)
    requires DisjointNumbers(FilesOf(v[level + 1]), FilesOf(outputs))
    requires forall i, j :: 0 <= i < j < |outputs| ==> outputs[i].number != outputs[j].number
    ensures forall l: LevelNumber :: AddsAreFresh(FilesOf(v[l]), [edit], l)
  {
    AddedByEdit(edit, level, inputs0, inputs1, outputs);
    assert [edit][..0] == [];
  }

  lemma FlushKeepsNumbers(v: Version, w: Version, level: nat, f: File)
    requires NumbersAcrossLevels(v) && level < NUM_LEVELS && Adds(v, w, level, f)
    requires forall l, g :: 0 <= l < NUM_LEVELS && g in v[l] ==> g.number < f.number
    ensures NumbersAcrossLevels(w)
    ensures forall l, g :: 0 <= l < NUM_LEVELS && g in w[l] ==> g.number < f.number + 1
  {
    forall l, g | 0 <= l < NUM_LEVELS && g in w[l] ensures g.number < f.number + 1 {
      assert g in FilesOf(w[l]);
    }
    forall k, l | 0 <= k < l < NUM_LEVELS ensures DisjointNumbers(FilesOf(w[k]), FilesOf(w[l])) {
      assert DisjointNumbers(FilesOf(v[k]), FilesOf(v[l]));
    }
  }

  class DBImpl {
    var mem: seq<Entry>
    var imm: Option<seq<Entry>>
    const versions: VersionSet
    /** SnapshotList: the live snapshots' sequence numbers, oldest first. */
    var snapshots: seq<nat>
    /** Everything ever written. */
    ghost var history: set<Entry>
    /** The largest smallest-snapshot any compaction has used: no live reader is older. */
    ghost var floor: nat

    ghost function Above(): set<Entry>
      reads this
    {
      MemEntries(mem, imm)
    }

    ghost function All(): set<Entry>
      reads this, versions
    {
      Above() + VersionEntries(versions.current)
    }

    ghost predicate Structure()
      reads this, versions
    {
      StructureAt(versions.lastSequence)
    }

    /** The invariant, with `last` as the last sequence number in use. */
    ghost predicate StructureAt(last: nat)
      reads this, versions
    {
      && Consistent(mem, imm, versions.current, versions.nextFileNumber, last)
      && |versions.compactPointer| == NUM_LEVELS
      && (forall e :: e in history ==> e.seqno <= last)
      && DistinctSequences(history)
      && floor <= last
      && (forall i :: 0 <= i < |snapshots| ==> floor <= snapshots[i] <= last)
      && (forall i, j :: 0 <= i < j < |snapshots| ==> snapshots[i] <= snapshots[j])
    }

    /** Reads at or above the floor agree with the history. */
    ghost predicate Faithful()
      reads this, versions
    {
      AgreeFrom(floor, All(), history)
    }

    constructor (maxFileSize: nat)
      ensures Structure() && Faithful() && history == {} && fresh(versions)
    {
      mem, imm, snapshots := [], None, [];
      versions := new VersionSet(maxFileSize);
      history, floor := {}, 0;
      new;
      assert forall l :: 0 <= l < NUM_LEVELS ==> versions.current[l] == [];
      assert VersionEntries(versions.current) == {};
      assert All() == {};
    }

    /** Applying one write group: consecutive sequence numbers after the last one, published
        together at the end. */
    method Write(group: seq<(UserKey, Op)>)
      requires Structure() && versions.lastSequence + |group| < MAX_SEQUENCE
      modifies this`mem, this`history, versions`lastSequence
      ensures Structure() && (old(Faithful()) ==> Faithful())
      ensures versions.lastSequence == old(versions.lastSequence) + |group|
      ensures history == old(history) + Numbered(group, old(versions.lastSequence))
    {
      hide Consistent, AgreeFrom, Numbered;
      var seqno := versions.lastSequence;
      NumberedNone(group, seqno);
      for i := 0 to |group|
        invariant seqno == old(versions.lastSequence) + i && StructureAt(seqno)
        invariant versions.lastSequence == old(versions.lastSequence) && floor == old(floor)
        invariant old(Faithful()) ==> Faithful()
        invariant history == old(history) + Numbered(group[..i], old(versions.lastSequence))
      {
        NumberedNext(group, i, old(versions.lastSequence));
        Add(Entry(group[i].0, seqno + 1, group[i].1), seqno);
        seqno := seqno + 1;
      }
      assert group[..|group|] == group;
      versions.lastSequence := seqno;
    }

    lemma StructureParts(last: nat)
      requires StructureAt(last)
      ensures Consistent(mem, imm, versions.current, versions.nextFileNumber, last) && |versions.compactPointer| == 7
      ensures (forall x :: x in history ==> x.seqno <= last) && DistinctSequences(history) && floor <= last
      ensures forall i :: 0 <= i < |snapshots| ==> floor <= snapshots[i] <= last
      ensures forall i, j :: 0 <= i < j < |snapshots| ==> snapshots[i] <= snapshots[j]
    {
    }

    lemma IsStructure(last: nat)
      requires Consistent(mem, imm, versions.current, versions.nextFileNumber, last) && |versions.compactPointer| == 7
      requires (forall x :: x in history ==> x.seqno <= last) && DistinctSequences(history) && floor <= last
      requires forall i :: 0 <= i < |snapshots| ==> floor <= snapshots[i] <= last
      requires forall i, j :: 0 <= i < j < |snapshots| ==> snapshots[i] <= snapshots[j]
      ensures StructureAt(last)
    {
    }

    lemma FaithfulIs()
      ensures Faithful() == AgreeFrom(floor, MemEntries(mem, imm) + VersionEntries(versions.current), history)
    {
    }

    method Add(e: Entry, ghost last: nat)
      requires StructureAt(last) && e.seqno == last + 1 < MAX_SEQUENCE
      modifies this`mem, this`history
      ensures StructureAt(last + 1) && (old(Faithful()) ==> Faithful())
      ensures history == old(history) + {e}
    {
      hide *;
      StructureParts(last);
      AddStep(mem, imm, versions.current, versions.nextFileNumber, last, e, history, floor);
      FaithfulIs();
      mem := InsertEntry(mem, e);
      history := history + {e};
      FaithfulIs();
      IsStructure(last + 1);
    }

    // -------------------------------------------------------------- snapshots and reads

    method GetSnapshot() returns (snapshot: nat)
      requires Structure()
      modifies this`snapshots
      ensures Structure() && (old(Faithful()) ==> Faithful())
      ensures snapshot == versions.lastSequence && snapshots == old(snapshots) + [snapshot]
    {
      snapshot := versions.lastSequence;
      snapshots := snapshots + [snapshot];
    }

    method ReleaseSnapshot(i: nat)
      requires Structure() && i < |snapshots|
      modifies this`snapshots
      ensures Structure() && (old(Faithful()) ==> Faithful())
      ensures snapshots == old(snapshots)[..i] + old(snapshots)[i + 1..]
    {
      snapshots := snapshots[..i] + snapshots[i + 1..];
    }

    /** The sequence number no live reader is below: the oldest snapshot, or the last write. */
    function SmallestSnapshot(): (s: nat)
      requires Structure()
      reads this, versions
      ensures floor <= s <= versions.lastSequence
      ensures forall i :: 0 <= i < |snapshots| ==> s <= snapshots[i]
      ensures if snapshots == [] then s == versions.lastSequence else s in snapshots
    {
      if snapshots == [] then versions.lastSequence else snapshots[0]
    }

    /** DBImpl::Get: memtable, then immutable memtable, then the version. */
    method Get(user: UserKey, snapshot: nat) returns (r: Option<Value>)
      requires Structure()
      ensures r == Read(All(), user, snapshot)
      ensures Faithful() && snapshot >= floor ==> r == Read(history, user, snapshot)
    {
      ConsistentIsDistinct(mem, imm, versions.current, versions.nextFileNumber, versions.lastSequence);
      var e := MemTableGet(mem, user, snapshot);
      ghost var above := EntrySet(mem);
      if e.None? && imm.Some? {
        e := MemTableGet(imm.value, user, snapshot);
      }
      if imm.Some? {
        NewestInUnion(EntrySet(mem), EntrySet(imm.value), user, snapshot);
      } else {
        assert Above() == EntrySet(mem);
      }
      assert e == Newest(Above(), user, snapshot);
      if e.None? {
        e := Versions.Get(versions.current, user, snapshot);
      }
      NewestInUnion(Above(), VersionEntries(versions.current), user, snapshot);
      r := OpResult(e);
    }

    // -------------------------------------------------------------- memtable rotation and flush

    /** MakeRoomForWrite when the memtable is full: it becomes the immutable one. */
    method SwitchMemTable()
      requires Structure() && imm.None?
      modifies this`mem, this`imm
      ensures Structure() && (old(Faithful()) ==> Faithful())
      ensures mem == [] && imm == Some(old(mem)) && All() == old(All())
    {
      imm := Some(mem);
      mem := [];
      assert Above() == old(Above());
    }

    /** CompactMemTable: the immutable memtable becomes a table, as deep as it may be pushed. */
    method CompactMemTable(fileSize: seq<Entry> -> nat) returns (ghost level: LevelNumber)
      requires Structure() && imm.Some?
      modifies this`imm, versions`current, versions`nextFileNumber
      ensures Structure() && (old(Faithful()) ==> Faithful())
      ensures imm == None && All() == old(All()) && versions.nextFileNumber == old(versions.nextFileNumber) + 1
      ensures IsFlushed(old(versions.current), versions.current, old(imm).value, old(versions.nextFileNumber), fileSize,
                        versions.maxFileSize, level)
    {
      hide Consistent, AgreeFrom, IsFlushed, MemEntries, VersionEntries, DistinctSequences;
      level := WriteLevel0Table(versions, imm.value, fileSize, mem, versions.lastSequence);
      imm := None;
    }

    // -------------------------------------------------------------- compaction

    /** The only input file goes one level down, where it meets few bytes of the level below. */
    method RunTrivialMove(c: Compaction)
      requires Structure() && Ready(c, versions.current) && c.IsTrivialMove()
      modifies versions`current, c`edit
      ensures Structure() && (old(Faithful()) ==> Faithful())
      ensures All() == old(All())
      ensures Replaces(old(versions.current), versions.current, c.level, FilesOf(c.inputs0), {}, FilesOf(c.inputs0))
      ensures AreGrandparents(old(versions.current), c.level, c.inputs0, c.grandparents)
      ensures TotalFileSize(c.grandparents) <= 10 * c.maxOutputFileSize
    {
      hide Consistent, Ready, Replaces, AreGrandparents, TotalFileSize;
      MoveFile(versions, c, mem, imm, versions.lastSequence);
    }

    /** DoCompactionWork and InstallCompactionResults.  `snapshot` is the smallest snapshot taken when
        the compaction began, so no live reader is below it; `merged` is the merging iterator's output.
        The store stays well formed whatever the inputs are; reads from `snapshot` up stay the same
        exactly when nothing is exposed. */
    method RunCompaction(c: Compaction, merged: seq<Entry>, snapshot: nat,
                         builtSize: seq<Entry> -> nat, fileSize: seq<Entry> -> nat)
      returns (outputs: Level, ghost stops: seq<nat>)
      requires Structure() && Ready(c, versions.current)
      requires Yields(c, merged)
      requires floor <= snapshot <= versions.lastSequence && (snapshots != [] ==> snapshot <= snapshots[0])
      modifies versions`current, versions`nextFileNumber, this`floor, c, c.levelPtrs
      ensures Structure() && floor == snapshot
      ensures AgreeFrom(snapshot, All(), old(All())) <==>
              !old(ExposesSome(versions.current, c.level, c.inputs0, c.inputs1, Above(), snapshot))
      ensures old(Faithful() && !ExposesSome(versions.current, c.level, c.inputs0, c.inputs1, Above(), snapshot))
              ==> Faithful()
      ensures IsCompacted(old(versions.current), versions.current, c.level, old(c.inputs0), old(c.inputs1), snapshot,
                          outputs)
      ensures AreStops(old(c.grandparents), merged, c.maxGrandParentOverlapBytes, |merged|, stops)
      ensures WellCut(outputs, merged, stops, builtSize, c.maxOutputFileSize)
    {
      hide Consistent, Ready, Yields, ExposesSome, IsCompacted, AreStops, WellCut;
      ghost var stored := All();
      outputs, stops := CompactVersion(versions, c, merged, snapshot, builtSize, fileSize, mem, imm,
          versions.lastSequence);
      AgreementComposes(floor, snapshot, All(), stored, history);
      floor := snapshot;
    }
  }

  /** The entries have become a table at the level to which it sinks; none becomes of no entries. */
  ghost predicate IsFlushed(v: Version, w: Version, entries: seq<Entry>, number: nat, fileSize: seq<Entry> -> nat,
                            maxFileSize: nat, level: LevelNumber) {
    if entries == [] then w == v else
      var f := MakeFile(number, fileSize(entries), entries);
      Adds(v, w, level, f) && SinksTo(v, level, f.smallest.user, f.largest.user, maxFileSize)
  }

  /** WriteLevel0Table: the entries become a table, as deep as it may be pushed. */
  method WriteLevel0Table(versions: VersionSet, entries: seq<Entry>, fileSize: seq<Entry> -> nat,
                          ghost mem: seq<Entry>, ghost last: nat)
    returns (ghost level: LevelNumber)
    requires Consistent(mem, Some(entries), versions.current, versions.nextFileNumber, last)
    modifies versions`current, versions`nextFileNumber
    ensures Consistent(mem, None, versions.current, versions.nextFileNumber, last)
    ensures MemEntries(mem, None) + VersionEntries(versions.current)
            == MemEntries(mem, Some(entries)) + VersionEntries(old(versions.current))
    ensures versions.nextFileNumber == old(versions.nextFileNumber) + 1
    ensures IsFlushed(old(versions.current), versions.current, entries, old(versions.nextFileNumber), fileSize,
                      versions.maxFileSize, level)
  {
    hide SinksTo;
    level := 0;
    var before, number := versions.current, versions.nextFileNumber;
    versions.nextFileNumber := number + 1;
    if entries == [] {
      assert MemEntries(mem, Some(entries)) == MemEntries(mem, None);
    } else {
      var f := MakeFile(number, fileSize(entries), entries);
      var pushed := PickLevelForMemTableOutput(before, f.smallest.user, f.largest.user, versions.maxFileSize);
      level := pushed;
      var edit := EMPTY_EDIT.(newFiles := [(pushed, f)]);
      FlushEdit(before, edit, level, f);
      versions.LogAndApply(edit);
      FlushKeepsConsistent(mem, entries, before, versions.current, level, f, last);
    }
  }

  /** BackgroundCompaction's trivial move: the only input file goes one level down as it is. */
  method MoveFile(versions: VersionSet, c: Compaction, ghost mem: seq<Entry>, ghost imm: Option<seq<Entry>>,
                  ghost last: nat)
    requires Consistent(mem, imm, versions.current, versions.nextFileNumber, last)
    requires Ready(c, versions.current) && c.IsTrivialMove()
    modifies versions`current, c`edit
    ensures Consistent(mem, imm, versions.current, versions.nextFileNumber, last)
    ensures VersionEntries(versions.current) == VersionEntries(old(versions.current))
    ensures Replaces(old(versions.current), versions.current, c.level, FilesOf(c.inputs0), {}, FilesOf(c.inputs0))
    ensures AreGrandparents(old(versions.current), c.level, c.inputs0, c.grandparents)
    ensures TotalFileSize(c.grandparents) <= 10 * c.maxOutputFileSize
  {
    hide *;
    ghost var v := versions.current;
    MayMove(c, v, mem, imm, versions.nextFileNumber, last);
    var f := c.inputs0[0];
    c.AddInputDeletions();
    ghost var deletions := c.edit;
    c.edit := c.edit.(newFiles := [(c.level + 1, f)]);
    MoveEdit(v, deletions, c.edit, c.level, f);
    versions.LogAndApply(c.edit);
    CompactionEditReplaces(v, versions.current, c.edit, c.level, [f], [], [f]);
    MoveKeepsConsistent(mem, imm, v, versions.current, versions.nextFileNumber, last, c.level, f);
  }

  lemma MayMove(c: Compaction, v: Version, mem: seq<Entry>, imm: Option<seq<Entry>>, next: nat, last: nat)
    requires Consistent(mem, imm, v, next, last) && Ready(c, v) && c.IsTrivialMove()
    ensures |c.inputs0| == 1 && c.inputs0 == [c.inputs0[0]] && c.inputs1 == [] && c.level + 1 < NUM_LEVELS
    ensures GoodInputs(v, c.level, c.inputs0, []) && WellFormed(v) && c.edit.deletedFiles == {}
    ensures DisjointNumbers(FilesOf(v[c.level + 1]), FilesOf(c.inputs0)) && FilesOf([]) == {}
    ensures AreGrandparents(v, c.level, c.inputs0, c.grandparents)
    ensures TotalFileSize(c.grandparents) <= 10 * c.maxOutputFileSize
    ensures forall l: LevelNumber :: SortedBySmallest(v[l])
  {
    assert c.inputs0 + c.inputs1 == c.inputs0;
    assert DisjointNumbers(FilesOf(v[c.level]), FilesOf(v[c.level + 1]));
    hide TotalFileSize, AreGrandparents, LeavesOnlyNewer, AllOverlapping;
  }

  lemma MoveEdit(v: Version, deletions: VersionEdit, edit: VersionEdit, level: nat, f: File)
    requires level + 1 < NUM_LEVELS && edit == deletions.(newFiles := [(level + 1, f)])
    requires DeletedAt(deletions, level) == NumbersOf(FilesOf([f]))
    requires DeletedAt(deletions, level + 1) == NumbersOf(FilesOf([]))
    requires forall l: LevelNumber :: l != level && l != level + 1 ==> DeletedAt(deletions, l) == {}
    requires DisjointNumbers(FilesOf(v[level + 1]), FilesOf([f]))
    ensures IsCompactionEdit(edit, level, [f], [], [f])
    ensures forall l: LevelNumber :: AddsAreFresh(FilesOf(v[l]), [edit], l)
  {
    assert forall l: LevelNumber :: DeletedAt(edit, l) == DeletedAt(deletions, l);
    CompactionEditIsFresh(v, edit, level, [f], [], [f]);
  }

  lemma MovedFile(mem: seq<Entry>, imm: Option<seq<Entry>>, v: Version, next: nat, last: nat, level: nat, f: File)
    requires Consistent(mem, imm, v, next, last) && GoodInputs(v, level, [f], [])
    ensures ValidFiles([f]) && DisjointSorted([f]) && DistinctNumbers([f]) && f.number < next
    ensures level + 1 < NUM_LEVELS && DisjointNumbers(FilesOf(v[level + 1]), FilesOf([f]))
    ensures LevelEntries([f]) <= InputEntries([f], [])
    ensures forall l :: 0 <= l < NUM_LEVELS ==>
      DisjointNumbers(FilesOf(v[l]) - if l == level then FilesOf([f]) else {}, FilesOf([f]))
  {
    assert f in FilesOf([f]) && f in v[level] && f.Valid();
    hide WellFormed;
    forall l | 0 <= l < NUM_LEVELS
      ensures DisjointNumbers(FilesOf(v[l]) - if l == level then FilesOf([f]) else {}, FilesOf([f]))
    {
      if l < level {
        assert DisjointNumbers(FilesOf(v[l]), FilesOf(v[level]));
      } else if l > level {
        assert DisjointNumbers(FilesOf(v[level]), FilesOf(v[l]));
      }
    }
    OnlyFile(f);
  }

  lemma OnlyFile(f: File)
    ensures InputEntries([f], []) == LevelEntries([f])
  {
    assert LevelEntries([]) == {};
  }

  lemma MoveKeepsConsistent(mem: seq<Entry>, imm: Option<seq<Entry>>, v: Version, w: Version, next: nat, last: nat,
                            level: nat, f: File)
    requires Consistent(mem, imm, v, next, last) && GoodInputs(v, level, [f], [])
    requires Replaces(v, w, level, FilesOf([f]), FilesOf([]), FilesOf([f]))
    ensures Consistent(mem, imm, w, next, last)
    ensures VersionEntries(w) == VersionEntries(v)
  {
    MovedFile(mem, imm, v, next, last, level, f);
    hide WellFormed, Consistent, GoodInputs, Replaces, ValidFiles, DisjointSorted, DistinctNumbers, DisjointNumbers,
         LevelEntries,
         InputEntries, FilesOf;
    OnlyFile(f);
    CompactionKeepsConsistent(mem, imm, v, w, next, last, level, [f], [], [f], next);
    EntriesBefore(v, level, [f], []);
    EntriesAfter(v, w, level, [f], [], [f]);
  }

  /** Whether `c` was set up for the version `v` and not yet run. */
  ghost predicate Ready(c: Compaction, v: Version)
    reads c, c.levelPtrs
  {
    && c.inputVersion == v && c.Unstarted()
    && GoodInputs(v, c.level, c.inputs0, c.inputs1)
    && AreGrandparents(v, c.level, c.inputs0 + c.inputs1, c.grandparents)
    && c.maxGrandParentOverlapBytes == 10 * c.maxOutputFileSize
    && c.edit.deletedFiles == {}
  }

  /** `merged` is the input entries in internal-key order. */
  ghost predicate Yields(c: Compaction, merged: seq<Entry>)
    reads c
  {
    Sorted(merged) && EntrySet(merged) == InputEntries(c.inputs0, c.inputs1)
  }

  /** The inputs have given way to outputs one level down that hold what is kept of them. */
  ghost predicate IsCompacted(v: Version, w: Version, level: nat, inputs0: Level, inputs1: Level, snapshot: nat,
                              outputs: Level) {
    && level + 1 < NUM_LEVELS
    && Replaces(v, w, level, FilesOf(inputs0), FilesOf(inputs1), FilesOf(outputs))
    && ValidFiles(outputs) && DisjointSorted(outputs)
    && LevelEntries(outputs) == Kept(v, level, InputEntries(inputs0, inputs1), snapshot)
  }

  method CompactVersion(versions: VersionSet, c: Compaction, merged: seq<Entry>, snapshot: nat,
                        builtSize: seq<Entry> -> nat, fileSize: seq<Entry> -> nat,
                        ghost mem: seq<Entry>, ghost imm: Option<seq<Entry>>, ghost last: nat)
    returns (outputs: Level, ghost stops: seq<nat>)
    requires Consistent(mem, imm, versions.current, versions.nextFileNumber, last)
    requires Ready(c, versions.current)
    requires Yields(c, merged) && snapshot <= last
    modifies versions`current, versions`nextFileNumber, c, c.levelPtrs
    ensures Consistent(mem, imm, versions.current, versions.nextFileNumber, last)
    ensures var above := MemEntries(mem, imm);
      AgreeFrom(snapshot, above + VersionEntries(versions.current), above + VersionEntries(old(versions.current)))
      <==> !ExposesSome(old(versions.current), c.level, old(c.inputs0), old(c.inputs1), above, snapshot)
    ensures IsCompacted(old(versions.current), versions.current, c.level, old(c.inputs0), old(c.inputs1), snapshot,
                        outputs)
    ensures AreStops(old(c.grandparents), merged, c.maxGrandParentOverlapBytes, |merged|, stops)
    ensures WellCut(outputs, merged, stops, builtSize, c.maxOutputFileSize)
  {
    hide *;
    ghost var v, next := versions.current, versions.nextFileNumber;
    ghost var inputs0, inputs1 := c.inputs0, c.inputs1;
    MayRun(c, v, merged, mem, imm, next, last);
    outputs, stops := DoCompactionWork(c, merged, snapshot, versions.nextFileNumber, builtSize, fileSize);
    InstallCompactionResults(versions, c, outputs);
    AreCompacted(v, versions.current, c.level, inputs0, inputs1, snapshot, outputs);
    CompactionStep(mem, imm, v, versions.current, next, last, c.level, inputs0, inputs1, outputs, snapshot);
  }

  lemma MayRun(c: Compaction, v: Version, merged: seq<Entry>, mem: seq<Entry>, imm: Option<seq<Entry>>, next: nat,
               last: nat)
    requires Consistent(mem, imm, v, next, last) && Ready(c, v) && Yields(c, merged)
    ensures c.inputVersion == v && WellFormed(v) && GoodInputs(v, c.level, c.inputs0, c.inputs1)
    ensures c.level + 1 < NUM_LEVELS && c.Unstarted() && c.edit.deletedFiles == {} && last < MAX_SEQUENCE
    ensures Sorted(merged) && EntrySet(merged) == InputEntries(c.inputs0, c.inputs1)
    ensures forall e :: e in merged ==> e.seqno <= MAX_SEQUENCE
    ensures forall l, f :: 0 <= l < NUM_LEVELS && f in v[l] ==> f.number < next
  {
    hide WellFormed, Sorted, LeavesOnlyNewer, AllOverlapping, InputEntries;
    InputSequencesAreBounded(mem, imm, v, next, last, c.level, c.inputs0, c.inputs1);
    assert forall e :: e in merged ==> e in EntrySet(merged);
  }

  lemma AreCompacted(v: Version, w: Version, level: nat, inputs0: Level, inputs1: Level, snapshot: nat, outputs: Level)
    requires level + 1 < NUM_LEVELS && Replaces(v, w, level, FilesOf(inputs0), FilesOf(inputs1), FilesOf(outputs))
    requires ValidFiles(outputs) && DisjointSorted(outputs)
    requires LevelEntries(outputs) == Kept(v, level, InputEntries(inputs0, inputs1), snapshot)
    ensures IsCompacted(v, w, level, inputs0, inputs1, snapshot, outputs)
  {
    hide Replaces, FilesOf, ValidFiles, DisjointSorted, Kept, LevelEntries;
  }

  /** InstallCompactionResults: the edit deletes the inputs and adds the outputs one level down. */
  method InstallCompactionResults(versions: VersionSet, c: Compaction, outputs: Level)
    requires WellFormed(versions.current) && GoodInputs(versions.current, c.level, c.inputs0, c.inputs1)
    requires c.edit.deletedFiles == {}
    requires forall l, f :: 0 <= l < NUM_LEVELS && f in versions.current[l] ==> f.number < versions.nextFileNumber
    requires forall i :: 0 <= i < |outputs| ==> outputs[i].number == versions.nextFileNumber + i
    modifies versions`current, versions`nextFileNumber, c`edit
    ensures versions.nextFileNumber == old(versions.nextFileNumber) + |outputs|
    ensures Replaces(old(versions.current), versions.current, c.level,
                     FilesOf(c.inputs0), FilesOf(c.inputs1), FilesOf(outputs))
  {
    ghost var v := versions.current;
    OutputNumbersAreFresh(v, versions.nextFileNumber, outputs);
    versions.nextFileNumber := versions.nextFileNumber + |outputs|;
    c.AddInputDeletions();
    ghost var deletions := c.edit;
    c.edit := c.edit.(newFiles := seq(|outputs|, i requires 0 <= i < |outputs| => (c.level + 1, outputs[i])));
    assert forall l: LevelNumber :: DeletedAt(c.edit, l) == DeletedAt(deletions, l);
    CompactionEditIsFresh(v, c.edit, c.level, c.inputs0, c.inputs1, outputs);
    versions.LogAndApply(c.edit);
    CompactionEditReplaces(v, versions.current, c.edit, c.level, c.inputs0, c.inputs1, outputs);
  }

  /** One merge compaction, on values: the layers stay consistent, and reads from the smallest
      snapshot up stay the same exactly when nothing is exposed. */
  lemma CompactionStep(mem: seq<Entry>, imm: Option<seq<Entry>>, v: Version, w: Version, next: nat, last: nat,
                       level: nat, inputs0: Level, inputs1: Level, outputs: Level, snapshot: nat)
    requires Consistent(mem, imm, v, next, last) && GoodInputs(v, level, inputs0, inputs1)
    requires ValidFiles(outputs) && DisjointSorted(outputs)
    requires LevelEntries(outputs) == Kept(v, level, InputEntries(inputs0, inputs1), snapshot)
    requires forall i :: 0 <= i < |outputs| ==> outputs[i].number == next + i
    requires Replaces(v, w, level, FilesOf(inputs0), FilesOf(inputs1), FilesOf(outputs))
    ensures Consistent(mem, imm, w, next + |outputs|, last)
    ensures AgreeFrom(snapshot, MemEntries(mem, imm) + VersionEntries(w), MemEntries(mem, imm) + VersionEntries(v))
            <==> !ExposesSome(v, level, inputs0, inputs1, MemEntries(mem, imm), snapshot)
  {
    OutputNumbersAreFresh(v, next, outputs);
    assert Consistent(mem, imm, w, next + |outputs|, last) by {
      CompactionKeepsConsistent(mem, imm, v, w, next, last, level, inputs0, inputs1, outputs, next + |outputs|);
    }
    ConsistentIsDistinct(mem, imm, v, next, last);
    CompactionPreservesReads(v, w, level, inputs0, inputs1, outputs, MemEntries(mem, imm), snapshot);
  }

  lemma InputSequencesAreBounded(mem: seq<Entry>, imm: Option<seq<Entry>>, v: Version, next: nat, last: nat,
                                 level: nat, inputs0: Level, inputs1: Level)
    requires Consistent(mem, imm, v, next, last) && GoodInputs(v, level, inputs0, inputs1)
    ensures forall e :: e in InputEntries(inputs0, inputs1) ==> e.seqno <= MAX_SEQUENCE
  {
    EntriesBefore(v, level, inputs0, inputs1);
  }

  /** The put behind a dropped marker that this compaction would uncover. */
  ghost predicate ExposesSome(v: Version, level: nat, inputs0: Level, inputs1: Level, above: set<Entry>,
                              snapshot: nat) {
    exists user :: Exposes(v, level, InputEntries(inputs0, inputs1), above + Untouched(v, level, inputs0, inputs1),
        snapshot, user)
  }

  lemma FlushEdit(v: Version, edit: VersionEdit, level: LevelNumber, f: File)
    requires edit == EMPTY_EDIT.(newFiles := [(level, f)])
    requires forall l, g :: 0 <= l < NUM_LEVELS && g in v[l] ==> g.number < f.number
    ensures forall l: LevelNumber :: AddsAreFresh(FilesOf(v[l]), [edit], l)
    ensures forall l: LevelNumber ::
      ApplyToLevel(FilesOf(v[l]), edit, l) == FilesOf(v[l]) + if l == level then {f} else {}
  {
    assert [edit][..0] == [];
    forall l: LevelNumber ensures AddedAt(edit.newFiles, l) == if l == level then {f} else {} {
      assert edit.newFiles[0] == (level, f);
    }
  }

  lemma FlushAddsEntries(v: Version, w: Version, level: nat, f: File)
    requires level < NUM_LEVELS && Adds(v, w, level, f)
    ensures VersionEntries(w) == VersionEntries(v) + FileEntries(f)
  {
    forall l, g | 0 <= l < NUM_LEVELS ensures g in w[l] <==> g in v[l] || (l == level && g == f) {
      assert g in FilesOf(w[l]) <==> g in FilesOf(v[l]) || (l == level && g == f);
    }
    forall e | e in VersionEntries(w) ensures e in VersionEntries(v) + FileEntries(f) {
      var l :| 0 <= l < NUM_LEVELS && e in LevelEntries(w[l]);
      assert e in LevelEntries(v[l]) || e in FileEntries(f);
    }
    forall e | e in VersionEntries(v) ensures e in VersionEntries(w) {
      var l :| 0 <= l < NUM_LEVELS && e in LevelEntries(v[l]);
      assert e in LevelEntries(w[l]);
    }
    forall e | e in FileEntries(f) ensures e in VersionEntries(w) {
      assert f in w[level] && e in LevelEntries(w[level]);
    }
  }

  /** MemTable::Get: the first entry at or after the lookup key, if it has the user key. */
  function MemTableGet(entries: seq<Entry>, user: UserKey, snapshot: nat): (r: Option<Entry>)
    requires Sorted(entries)
    ensures r == Newest(EntrySet(entries), user, snapshot)
  {
    var n := FirstAtOrAfter(entries, SeekKey(user, snapshot));
    FirstAtOrAfterIsNewest(entries, user, snapshot, n);
    if n < |entries| && entries[n].user == user then Some(entries[n]) else None
  }

  ghost function Numbered(group: seq<(UserKey, Op)>, last: nat): set<Entry> {
    set i | 0 <= i < |group| :: Entry(group[i].0, last + 1 + i, group[i].1)
  }

  lemma NumberedNone(group: seq<(UserKey, Op)>, last: nat)
    ensures Numbered(group[..0], last) == {}
  {
  }

  lemma NumberedNext(group: seq<(UserKey, Op)>, i: nat, last: nat)
    requires i < |group|
    ensures Numbered(group[..i + 1], last) == Numbered(group[..i], last) + {Entry(group[i].0, last + 1 + i, group[i].1)}
  {
    var e := Entry(group[i].0, last + 1 + i, group[i].1);
    assert e in Numbered(group[..i + 1], last) by { assert group[..i + 1][i] == group[i]; }
    forall x | x in Numbered(group[..i], last) ensures x in Numbered(group[..i + 1], last) {
      var k :| 0 <= k < i && x == Entry(group[..i][k].0, last + 1 + k, group[..i][k].1);
      assert group[..i + 1][k] == group[..i][k];
    }
    forall x | x in Numbered(group[..i + 1], last) && x != e ensures x in Numbered(group[..i], last) {
      var k :| 0 <= k < i + 1 && x == Entry(group[..i + 1][k].0, last + 1 + k, group[..i + 1][k].1);
      assert k < i && group[..i + 1][k] == group[..i][k];
    }
  }
}
