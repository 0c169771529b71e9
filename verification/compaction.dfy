/** DBImpl::DoCompactionWork and what it does to reads (db_impl.cc). */
module Compactions {
  import opened Wrappers
  import opened Entries
  import opened Versions
  import opened Builders
  import opened VersionSets
  import opened OutputCuts

  // ---------------------------------------------------------------- which entries are dropped

  /** Rule (A): a newer input entry of the same user key is visible to every live snapshot. */
  ghost predicate Hidden(inputs: set<Entry>, e: Entry, snapshot: nat) {
    exists x :: x in inputs && x.user == e.user && e.seqno < x.seqno <= snapshot
  }

  /** A deletion marker with nothing left to delete below the compaction. */
  ghost predicate ObsoleteMarker(v: Version, level: nat, e: Entry, snapshot: nat) {
    e.op.Delete? && e.seqno <= snapshot && IsBaseLevel(v, level, e.user)
  }

  ghost predicate Dropped(v: Version, level: nat, inputs: set<Entry>, e: Entry, snapshot: nat) {
    Hidden(inputs, e, snapshot) || ObsoleteMarker(v, level, e, snapshot)
  }

  ghost function Kept(v: Version, level: nat, inputs: set<Entry>, snapshot: nat): set<Entry> {
    set e | e in inputs && !Dropped(v, level, inputs, e, snapshot)
  }

  /** In the merged order, an entry is hidden exactly when its predecessor has the same user key and
      a sequence number no snapshot is older than: what last_sequence_for_key tracks. */
  lemma HiddenByPredecessor(merged: seq<Entry>, i: nat, snapshot: nat)
    requires Sorted(merged) && i < |merged|
    ensures Hidden(EntrySet(merged), merged[i], snapshot) <==>
            (i > 0 && merged[i - 1].user == merged[i].user && merged[i - 1].seqno <= snapshot)
  {
    if i > 0 && merged[i - 1].user == merged[i].user && merged[i - 1].seqno <= snapshot {
      assert merged[i - 1] in EntrySet(merged);
      assert Precedes(merged[i - 1].Key(), merged[i].Key());
    }
    if Hidden(EntrySet(merged), merged[i], snapshot) {
      var x :| x in EntrySet(merged) && x.user == merged[i].user && merged[i].seqno < x.seqno <= snapshot;
      var k :| 0 <= k < |merged| && merged[k] == x;
      assert !(i < k);
      assert Precedes(merged[i - 1].Key(), merged[i].Key());
      if k < i - 1 {
        assert Precedes(merged[k].Key(), merged[i - 1].Key());
      }
    }
  }

  /** What is kept of a user key: every entry no snapshot is older than; and of the others only the newest,
      unless that is a deletion marker and no file two or more levels below the compaction may hold the key. */
  lemma KeptOfUser(v: Version, level: nat, inputs: set<Entry>, snapshot: nat, e: Entry)
    requires DistinctSequences(inputs) && e in inputs
    ensures e.seqno > snapshot ==> e in Kept(v, level, inputs, snapshot)
    ensures e.seqno <= snapshot ==>
              (e in Kept(v, level, inputs, snapshot) <==>
               && Newest(inputs, e.user, snapshot) == Some(e)
               && (e.op.Put? || exists l, f :: level + 2 <= l < NUM_LEVELS && f in v[l] && InUserRange(f, e.user)))
  {
    hide InUserRange;
    if e.seqno <= snapshot {
      NewestExists(inputs, e.user, snapshot, e);
      var n := Newest(inputs, e.user, snapshot).value;
      assert IsNewest(inputs, e.user, snapshot, n);
      assert n != e ==> n.seqno > e.seqno;
    }
  }

  // ---------------------------------------------------------------- the merge loop

  /** The finished output files hold `flushed` cut into consecutive pieces; `building` follows. */
  ghost predicate Written(outputs: Level, flushed: seq<Entry>, building: seq<Entry>) {
    && ValidFiles(outputs) && DisjointSorted(outputs)
    && LevelEntries(outputs) == EntrySet(flushed)
    && Sorted(flushed + building)
  }

  lemma LevelEntriesAppend(files: Level, f: File)
    ensures LevelEntries(files + [f]) == LevelEntries(files) + FileEntries(f)
  {
  }

  lemma EntrySetAppend(a: seq<Entry>, b: seq<Entry>)
    ensures EntrySet(a + b) == EntrySet(a) + EntrySet(b)
  {
  }

  lemma BuiltFileIsValid(flushed: seq<Entry>, building: seq<Entry>, f: File)
    requires Sorted(flushed + building) && building != [] && f == MakeFile(f.number, f.size, building)
    requires forall e :: e in building ==> e.seqno <= MAX_SEQUENCE
    ensures f.Valid()
  {
    forall i, j | 0 <= i < j < |building| ensures Precedes(building[i].Key(), building[j].Key()) {
      assert (flushed + building)[|flushed| + i] == building[i];
      assert (flushed + building)[|flushed| + j] == building[j];
    }
  }

  lemma FileBeforeBuilding(outputs: Level, flushed: seq<Entry>, building: seq<Entry>, g: File)
    requires Written(outputs, flushed, building) && building != [] && g in outputs
    ensures Precedes(g.largest, building[0].Key())
  {
    assert g.Valid();
    var last := g.entries[|g.entries| - 1];
    assert last in g.entries && last in LevelEntries(outputs);
    var i :| 0 <= i < |flushed| && flushed[i] == last;
    assert (flushed + building)[i] == last && (flushed + building)[|flushed|] == building[0];
  }

  /** FinishCompactionOutputFile: the built entries become the last output file. */
  lemma FinishOutput(outputs: Level, flushed: seq<Entry>, building: seq<Entry>, f: File)
    requires Written(outputs, flushed, building) && building != []
    requires f == MakeFile(f.number, f.size, building)
    requires forall e :: e in building ==> e.seqno <= MAX_SEQUENCE
    ensures Written(outputs + [f], flushed + building, [])
  {
    BuiltFileIsValid(flushed, building, f);
    forall g | g in outputs ensures Precedes(g.largest, f.smallest) {
      FileBeforeBuilding(outputs, flushed, building, g);
    }
    LevelEntriesAppend(outputs, f);
    EntrySetAppend(flushed, building);
    assert flushed + building + [] == flushed + building;
  }

  ghost function KeptPrefix(c: Compaction, merged: seq<Entry>, n: nat, snapshot: nat): set<Entry>
    requires n <= |merged|
  {
    set e | e in merged[..n] && !Dropped(c.inputVersion, c.level, EntrySet(merged), e, snapshot)
  }

  lemma KeptNext(c: Compaction, merged: seq<Entry>, n: nat, snapshot: nat)
    requires n < |merged|
    ensures KeptPrefix(c, merged, n + 1, snapshot) == KeptPrefix(c, merged, n, snapshot) +
      if Dropped(c.inputVersion, c.level, EntrySet(merged), merged[n], snapshot) then {} else {merged[n]}
  {
    assert merged[..n + 1] == merged[..n] + [merged[n]];
  }

  /** The drop decision for merged[i]: rule (A) first, then the obsolete deletion marker. */
  method ShouldDrop(c: Compaction, merged: seq<Entry>, i: nat, lastSequenceForKey: nat, snapshot: nat)
    returns (drop: bool)
    requires Sorted(merged) && i < |merged| && snapshot < MAX_SEQUENCE
    requires WellFormed(c.inputVersion) && c.level + 1 < NUM_LEVELS && c.PtrsBehind(merged[i].user)
    requires lastSequenceForKey ==
             if i > 0 && merged[i - 1].user == merged[i].user then merged[i - 1].seqno else MAX_SEQUENCE
    modifies c.levelPtrs
    ensures c.PtrsBehind(merged[i].user)
    ensures drop <==> Dropped(c.inputVersion, c.level, EntrySet(merged), merged[i], snapshot)
  {
    HiddenByPredecessor(merged, i, snapshot);
    drop := false;
    if lastSequenceForKey <= snapshot {
      drop := true;
    } else if merged[i].op.Delete? && merged[i].seqno <= snapshot {
      drop := c.IsBaseLevelForKey(merged[i].user);
    }
  }

  /** After n input entries: what is written so far is what those entries keep. */
  ghost predicate Progress(c: Compaction, merged: seq<Entry>, n: nat, snapshot: nat, firstNumber: nat,
                           outputs: Level, flushed: seq<Entry>, building: seq<Entry>)
    requires n <= |merged|
  {
    && Written(outputs, flushed, building)
    && EntrySet(flushed + building) == KeptPrefix(c, merged, n, snapshot)
    && (forall k :: 0 <= k < |outputs| ==> outputs[k].number == firstNumber + k)
  }

  lemma ProgressStart(c: Compaction, merged: seq<Entry>, snapshot: nat, firstNumber: nat)
    ensures Progress(c, merged, 0, snapshot, firstNumber, [], [], [])
  {
    assert LevelEntries([]) == {};
  }

  lemma ProgressDone(c: Compaction, merged: seq<Entry>, snapshot: nat, firstNumber: nat, outputs: Level,
                     flushed: seq<Entry>)
    requires Progress(c, merged, |merged|, snapshot, firstNumber, outputs, flushed, [])
    ensures ValidFiles(outputs) && DisjointSorted(outputs)
    ensures LevelEntries(outputs) == Kept(c.inputVersion, c.level, EntrySet(merged), snapshot)
    ensures forall i :: 0 <= i < |outputs| ==> outputs[i].number == firstNumber + i
  {
    assert merged[..|merged|] == merged && flushed + [] == flushed;
  }

  lemma DropNext(c: Compaction, merged: seq<Entry>, n: nat, snapshot: nat, firstNumber: nat,
                 outputs: Level, flushed: seq<Entry>, building: seq<Entry>)
    requires n < |merged| && Progress(c, merged, n, snapshot, firstNumber, outputs, flushed, building)
    requires Dropped(c.inputVersion, c.level, EntrySet(merged), merged[n], snapshot)
    ensures Progress(c, merged, n + 1, snapshot, firstNumber, outputs, flushed, building)
  {
    KeptNext(c, merged, n, snapshot);
  }

  lemma EmitNext(c: Compaction, merged: seq<Entry>, n: nat, snapshot: nat, firstNumber: nat,
                 outputs: Level, flushed: seq<Entry>, building: seq<Entry>)
    requires n < |merged| && Progress(c, merged, n, snapshot, firstNumber, outputs, flushed, building)
    requires Sorted(merged)
    requires !Dropped(c.inputVersion, c.level, EntrySet(merged), merged[n], snapshot)
    ensures Progress(c, merged, n + 1, snapshot, firstNumber, outputs, flushed, building + [merged[n]])
  {
    KeptNext(c, merged, n, snapshot);
    var emitted := flushed + building;
    forall k | 0 <= k < |emitted| ensures Precedes(emitted[k].Key(), merged[n].Key()) {
      assert emitted[k] in EntrySet(emitted);
      var m :| 0 <= m < n && merged[..n][m] == emitted[k];
    }
    assert flushed + (building + [merged[n]]) == emitted + [merged[n]];
    EntrySetAppend(emitted, [merged[n]]);
  }

  function MakeFile(number: nat, size: nat, entries: seq<Entry>): File
    requires entries != []
  {
    File(number, size, entries[0].Key(), entries[|entries| - 1].Key(), entries)
  }

  /** Everything written so far comes before the next entry. */
  lemma WrittenIsBefore(c: Compaction, merged: seq<Entry>, n: nat, snapshot: nat, firstNumber: nat,
                        outputs: Level, flushed: seq<Entry>, building: seq<Entry>)
    requires n < |merged| && Progress(c, merged, n, snapshot, firstNumber, outputs, flushed, building)
    requires Sorted(merged)
    ensures AllBefore(outputs, building, merged[n].Key())
  {
    EntrySetAppend(flushed, building);
    forall e | e in EntrySet(flushed) + EntrySet(building) ensures Precedes(e.Key(), merged[n].Key()) {
      assert e in KeptPrefix(c, merged, n, snapshot);
      var m :| 0 <= m < n && merged[..n][m] == e;
    }
    hide Precedes, Sorted, Dropped;
    forall f | f in outputs ensures EndsBefore(f.entries, merged[n].Key()) {
      assert f.Valid();
      var last := f.entries[|f.entries| - 1];
      assert last in f.entries && last in LevelEntries(outputs);
    }
    if building != [] {
      assert building[|building| - 1] in EntrySet(building);
    }
  }

  /** The compaction loop.  `merged` is what the merging iterator over the inputs yields;
      `builtSize` and `fileSize` are the byte counts the table builder reports while building and
      when finished.  The outputs hold exactly the kept entries, cut where one is full and where too many
      grandparent bytes have passed, and nowhere else. */
  method DoCompactionWork(c: Compaction, merged: seq<Entry>, snapshot: nat, firstNumber: nat,
                          builtSize: seq<Entry> -> nat, fileSize: seq<Entry> -> nat)
    returns (outputs: Level, ghost stops: seq<nat>)
    requires WellFormed(c.inputVersion) && c.level + 1 < NUM_LEVELS && c.Unstarted()
    requires Sorted(merged) && forall e :: e in merged ==> e.seqno <= MAX_SEQUENCE
    requires snapshot < MAX_SEQUENCE
    modifies c`grandparentIndex, c`seenKey, c`overlappedBytes, c.levelPtrs
    ensures ValidFiles(outputs) && DisjointSorted(outputs)
    ensures LevelEntries(outputs) == Kept(c.inputVersion, c.level, EntrySet(merged), snapshot)
    ensures forall i :: 0 <= i < |outputs| ==> outputs[i].number == firstNumber + i
    ensures Sized(outputs, fileSize)
    ensures AreStops(c.grandparents, merged, c.maxGrandParentOverlapBytes, |merged|, stops)
    ensures WellCut(outputs, merged, stops, builtSize, c.maxOutputFileSize)
  {
    assert Sized([], fileSize);
    hide *;
    ghost var limit := c.maxOutputFileSize;
    outputs, stops := [], [0];
    StartedBehind(c);
    ProgressStart(c, merged, snapshot, firstNumber);
    NoStops(c, merged);
    NothingCut(merged, stops, builtSize, limit);
    var building: seq<Entry> := [];
    ghost var flushed: seq<Entry> := [];
    var currentUser: Option<UserKey> := None;
    var lastSequenceForKey := MAX_SEQUENCE;
    for i := 0 to |merged|
      invariant Progress(c, merged, i, snapshot, firstNumber, outputs, flushed, building)
      invariant Sized(outputs, fileSize)
      invariant Stopping(c, merged, i, stops)
      invariant WellCut(outputs, merged, stops, builtSize, limit)
      invariant OpenAt(outputs, building, merged, stops, builtSize, limit)
      invariant i == 0 ==> currentUser == None
      invariant i > 0 ==> currentUser == Some(merged[i - 1].user) && lastSequenceForKey == merged[i - 1].seqno
      invariant i < |merged| ==> c.PtrsBehind(merged[i].user)
    {
      var e := merged[i];
      WrittenIsBefore(c, merged, i, snapshot, firstNumber, outputs, flushed, building);
      ghost var stopped := stops;
      var stop;
      stop, stops := StopBefore(c, merged, i, stops);
      StopsSoFar(c, merged, i + 1, stops);
      if stop && building != [] {
        ghost var before, built := outputs, building;
        outputs, flushed, building := Finish(c, merged, i, snapshot, firstNumber, outputs, flushed, building, fileSize);
        CutAtStop(before, built, merged, stopped, builtSize, limit, i, outputs[|before|]);
      } else if stop {
        StopWhileEmpty(outputs, merged, stopped, builtSize, limit, i);
      }
      if currentUser != Some(e.user) {
        currentUser := Some(e.user);
        lastSequenceForKey := MAX_SEQUENCE;
      }
      var drop := ShouldDrop(c, merged, i, lastSequenceForKey, snapshot);
      lastSequenceForKey := e.seqno;
      if drop {
        DropNext(c, merged, i, snapshot, firstNumber, outputs, flushed, building);
      } else {
        outputs, flushed, building := AddToOutput(c, merged, i, snapshot, firstNumber, outputs, flushed, building,
            stops, builtSize, fileSize);
      }
      BehindNextKey(c, merged, i);
    }
    if building != [] {
      ghost var before, built := outputs, building;
      outputs, flushed, building := Finish(c, merged, |merged|, snapshot, firstNumber, outputs, flushed, building,
          fileSize);
      CutAtEnd(before, built, merged, stops, builtSize, limit, outputs[|before|]);
    }
    ProgressDone(c, merged, snapshot, firstNumber, outputs, flushed);
    StoppedAt(c, merged, |merged|, stops);
  }

  /** An entry that is kept goes to the output being built, which is finished once it is full. */
  method AddToOutput(c: Compaction, merged: seq<Entry>, n: nat, ghost snapshot: nat, firstNumber: nat,
                     outputs: Level, ghost flushed: seq<Entry>, building: seq<Entry>, ghost stops: seq<nat>,
                     builtSize: seq<Entry> -> nat, fileSize: seq<Entry> -> nat)
    returns (newOutputs: Level, ghost newFlushed: seq<Entry>, newBuilding: seq<Entry>)
    requires Sorted(merged) && n < |merged| && forall e :: e in merged ==> e.seqno <= MAX_SEQUENCE
    requires Progress(c, merged, n, snapshot, firstNumber, outputs, flushed, building) && Sized(outputs, fileSize)
    requires !Dropped(c.inputVersion, c.level, EntrySet(merged), merged[n], snapshot)
    requires WellCut(outputs, merged, stops, builtSize, c.maxOutputFileSize)
    requires OpenAt(outputs, building, merged, stops, builtSize, c.maxOutputFileSize)
    requires forall s :: 0 < s < |stops| ==> stops[s] <= n
    ensures Progress(c, merged, n + 1, snapshot, firstNumber, newOutputs, newFlushed, newBuilding)
    ensures Sized(newOutputs, fileSize)
    ensures WellCut(newOutputs, merged, stops, builtSize, c.maxOutputFileSize)
    ensures OpenAt(newOutputs, newBuilding, merged, stops, builtSize, c.maxOutputFileSize)
  {
    hide *;
    EmitNext(c, merged, n, snapshot, firstNumber, outputs, flushed, building);
    AddEntry(outputs, building, merged, stops, builtSize, c.maxOutputFileSize, n);
    newOutputs, newFlushed, newBuilding := outputs, flushed, building + [merged[n]];
    if builtSize(newBuilding) >= c.maxOutputFileSize {
      newOutputs, newFlushed, newBuilding := Finish(c, merged, n + 1, snapshot, firstNumber, outputs, newFlushed,
          newBuilding, fileSize);
      CutWhenFull(outputs, building, merged, stops, builtSize, c.maxOutputFileSize, n, newOutputs[|outputs|]);
    }
  }

  /** The files have the sizes the table builder reports. */
  ghost predicate Sized(outputs: Level, fileSize: seq<Entry> -> nat) {
    forall f :: f in outputs ==> f.size == fileSize(f.entries)
  }

  /** FinishCompactionOutputFile. */
  method Finish(ghost c: Compaction, ghost merged: seq<Entry>, ghost n: nat, ghost snapshot: nat, firstNumber: nat,
                outputs: Level, ghost flushed: seq<Entry>, building: seq<Entry>, fileSize: seq<Entry> -> nat)
    returns (newOutputs: Level, ghost newFlushed: seq<Entry>, newBuilding: seq<Entry>)
    requires n <= |merged| && Progress(c, merged, n, snapshot, firstNumber, outputs, flushed, building)
    requires building != [] && forall e :: e in merged ==> e.seqno <= MAX_SEQUENCE
    ensures newBuilding == []
    ensures |newOutputs| == |outputs| + 1 && newOutputs == outputs + [newOutputs[|outputs|]]
    ensures newOutputs[|outputs|].entries == building && (Sized(outputs, fileSize) ==> Sized(newOutputs, fileSize))
    ensures Progress(c, merged, n, snapshot, firstNumber, newOutputs, newFlushed, newBuilding)
  {
    var f := MakeFile(firstNumber + |outputs|, fileSize(building), building);
    EntrySetAppend(flushed, building);
    forall e | e in building ensures e.seqno <= MAX_SEQUENCE {
      assert e in EntrySet(building) && e in KeptPrefix(c, merged, n, snapshot);
    }
    FinishOutput(outputs, flushed, building, f);
    assert flushed + building + [] == flushed + building;
    newOutputs, newFlushed, newBuilding := outputs + [f], flushed + building, [];
  }

  lemma StartedBehind(c: Compaction)
    requires c.Unstarted() && WellFormed(c.inputVersion)
    ensures forall user :: c.PtrsBehind(user)
  {
  }

  lemma BehindNextKey(c: Compaction, merged: seq<Entry>, n: nat)
    requires Sorted(merged) && n < |merged| && c.PtrsBehind(merged[n].user)
    ensures n + 1 < |merged| ==> c.PtrsBehind(merged[n + 1].user)
  {
    if n + 1 < |merged| {
      assert Precedes(merged[n].Key(), merged[n + 1].Key());
    }
  }
}
