/** What recovery finds of the groups that were told they succeeded: the log of groups as bytes, cut by
    a crash (db_impl.cc, log_writer.cc, log_reader.cc). */
module DurableLogs {
  import opened Wrappers
  import opened Coding
  import opened Entries
  import opened Logs
  import opened LogRecovery
  import opened Recovery
  import G = GroupCommit
  import WB = WriteBatches

  type Naming = UserKey -> Bytes

  // ---------------------------------------------------------------- the bytes of a log file

  function RecordOf(name: Naming, u: G.Update): WB.Record {
    if u.op.Put? then WB.Put(name(u.user), u.op.value) else WB.Delete(name(u.user))
  }

  /** A committed group as the batch that is logged for it. */
  function BatchOf(name: Naming, g: G.Group): Group {
    Group(g.before + 1, seq(|g.updates|, i requires 0 <= i < |g.updates| => RecordOf(name, g.updates[i])))
  }

  function BatchesOf(name: Naming, log: seq<G.LogRecord>): (r: seq<Group>)
    ensures |r| == |log|
  {
    seq(|log|, i requires 0 <= i < |log| => BatchOf(name, log[i].group))
  }

  /** The records that went to one file. */
  function Only(log: seq<G.LogRecord>, file: nat): seq<G.LogRecord> {
    if log == [] then []
    else Only(log[..|log| - 1], file) + if log[|log| - 1].file == file then [log[|log| - 1]] else []
  }

  /** What a file holds after these appends, of which some may have been cut short. */
  function FileBytes(off: nat, name: Naming, log: seq<G.LogRecord>): Bytes
    requires off <= BLOCK
    decreases |log|
  {
    if log == [] then []
    else
      var rep := BatchOf(name, log[0].group).Rep();
      if log[0].torn.None? then Emit(off, rep, true) + FileBytes(EndOffset(off, rep), name, log[1..])
      else
        var size := log[0].torn.value;
        Taken(Emit(off, rep, true), size) + FileBytes(OffsetAfter(off, rep, size), name, log[1..])
  }

  predicate AllWhole(log: seq<G.LogRecord>) {
    forall i :: 0 <= i < |log| ==> log[i].torn.None?
  }

  predicate AllValid(name: Naming, log: seq<G.LogRecord>) {
    forall i :: 0 <= i < |log| ==> BatchOf(name, log[i].group).Valid()
  }

  /** Whole records, and then whatever else was appended. */
  lemma {:induction false} WholeFront(off: nat, name: Naming, log: seq<G.LogRecord>, more: seq<G.LogRecord>)
    requires off <= BLOCK && AllWhole(log)
    ensures var reps := Reps(BatchesOf(name, log));
      FileBytes(off, name, log + more) == LogOf(off, reps) + FileBytes(AfterAll(off, reps), name, more)
    decreases |log|
  {
    hide Emit, EndOffset, OffsetAfter, Taken, WB.Contents;
    var reps := Reps(BatchesOf(name, log));
    if log == [] {
      assert log + more == more;
    } else {
      var rep := BatchOf(name, log[0].group).Rep();
      assert (log + more)[1..] == log[1..] + more;
      assert reps[0] == rep && reps[1..] == Reps(BatchesOf(name, log[1..]));
      WholeFront(EndOffset(off, rep), name, log[1..], more);
    }
  }

  lemma {:induction false} OnlyAppends(log: seq<G.LogRecord>, more: seq<G.LogRecord>, file: nat)
    ensures Only(log + more, file) == Only(log, file) + Only(more, file)
    decreases |more|
  {
    if more == [] {
      assert log + more == log;
    } else {
      var n := |more| - 1;
      assert (log + more)[..|log + more| - 1] == log + more[..n];
      OnlyAppends(log, more[..n], file);
    }
  }

  lemma {:induction false} OnlyFrom(log: seq<G.LogRecord>, file: nat)
    ensures forall r :: r in Only(log, file) <==> r in log && r.file == file
  {
    if log != [] {
      OnlyFrom(log[..|log| - 1], file);
      assert log == log[..|log| - 1] + [log[|log| - 1]];
    }
  }

  // ---------------------------------------------------------------- synced groups

  /** The record is whole, and so is everything appended to the same file before it. */
  predicate Intact(log: seq<G.LogRecord>, i: nat)
    requires i < |log|
  {
    forall j :: 0 <= j <= i && log[j].file == log[i].file ==> log[j].torn.None?
  }

  /** A crash leaves n bytes of the file: no fewer than were there when it was last synced. */
  ghost predicate KeepsSynced(name: Naming, log: seq<G.LogRecord>, synced: set<nat>, file: nat, n: nat) {
    && n <= |FileBytes(0, name, Only(log, file))|
    && forall i :: i in synced && i < |log| && log[i].file == file ==>
         |FileBytes(0, name, Only(log[..i + 1], file))| <= n
  }

  lemma IntactIsWhole(log: seq<G.LogRecord>, i: nat)
    requires i < |log| && Intact(log, i)
    ensures AllWhole(Only(log[..i + 1], log[i].file))
  {
    var front := Only(log[..i + 1], log[i].file);
    OnlyFrom(log[..i + 1], log[i].file);
    forall k | 0 <= k < |front| ensures front[k].torn.None? {
      assert front[k] in front;
      var j :| 0 <= j < |log[..i + 1]| && log[..i + 1][j] == front[k];
      assert log[j] == front[k];
    }
  }

  lemma OnlyIsValid(name: Naming, log: seq<G.LogRecord>, i: nat, file: nat)
    requires AllValid(name, log) && i <= |log|
    ensures AllValid(name, Only(log[..i], file))
  {
    var front := Only(log[..i], file);
    OnlyFrom(log[..i], file);
    forall k | 0 <= k < |front| ensures BatchOf(name, front[k].group).Valid() {
      assert front[k] in front;
      var j :| 0 <= j < i && log[..i][j] == front[k];
    }
  }

  /** What recovery reads of a file that a crash cut at or after its synced part starts with the
      groups up to any synced record that is intact, whole, in order, under their own numbers. */
  lemma SyncedIsRecovered(name: Naming, log: seq<G.LogRecord>, synced: set<nat>, i: nat, n: nat, paranoid: bool,
                          maxSequence: nat)
    requires i < |log| && i in synced && Intact(log, i) && AllValid(name, log)
    requires KeepsSynced(name, log, synced, log[i].file, n)
    ensures var file := log[i].file;
      var kept := FileBytes(0, name, Only(log, file))[..n];
      AllUpdates(BatchesOf(name, Only(log[..i + 1], file))) <= Replay(ItemsFrom(0, kept), paranoid, maxSequence).added
  {
    hide *;
    var file := log[i].file;
    var front, rest := Only(log[..i + 1], file), Only(log[i + 1..], file);
    SyncedIsKept(name, log, synced, i, n);
    IntactIsWhole(log, i);
    OnlyIsValid(name, log, i + 1, file);
    OnlySplits(log, i + 1, file);
    FrontOfFile(name, front, rest, n);
    FrontIsAdded(name, front, FileBytes(0, name, front + rest)[..n], paranoid, maxSequence);
  }

  lemma SyncedIsKept(name: Naming, log: seq<G.LogRecord>, synced: set<nat>, i: nat, n: nat)
    requires i < |log| && i in synced && KeepsSynced(name, log, synced, log[i].file, n)
    ensures |FileBytes(0, name, Only(log[..i + 1], log[i].file))| <= n <= |FileBytes(0, name, Only(log, log[i].file))|
  {
    hide FileBytes, Only;
  }

  lemma OnlySplits(log: seq<G.LogRecord>, n: nat, file: nat)
    requires n <= |log|
    ensures Only(log, file) == Only(log[..n], file) + Only(log[n..], file)
  {
    hide Only;
    OnlyAppends(log[..n], log[n..], file);
    assert log[..n] + log[n..] == log;
  }

  lemma FrontOfFile(name: Naming, front: seq<G.LogRecord>, rest: seq<G.LogRecord>, n: nat)
    requires AllWhole(front) && |FileBytes(0, name, front)| <= n <= |FileBytes(0, name, front + rest)|
    ensures LogOf(0, Reps(BatchesOf(name, front))) <= FileBytes(0, name, front + rest)[..n]
  {
    hide FileBytes, LogOf, Reps, BatchesOf, AfterAll, AllWhole;
    WholeFront(0, name, front, rest);
    WholeFront(0, name, front, []);
    assert front + [] == front;
  }

  lemma FrontIsAdded(name: Naming, front: seq<G.LogRecord>, kept: Bytes, paranoid: bool, maxSequence: nat)
    requires AllValid(name, front) && LogOf(0, Reps(BatchesOf(name, front))) <= kept
    ensures AllUpdates(BatchesOf(name, front)) <= Replay(ItemsFrom(0, kept), paranoid, maxSequence).added
  {
    hide *;
    var batches := BatchesOf(name, front);
    BatchesAreValid(name, front);
    var log := LogOf(0, Reps(batches));
    var rest := kept[|log|..];
    assert kept == log + rest;
    NoOffset();
    FrontIsReplayed(0, batches, rest, paranoid, maxSequence);
  }

  lemma BatchesAreValid(name: Naming, front: seq<G.LogRecord>)
    requires AllValid(name, front)
    ensures forall g :: g in BatchesOf(name, front) ==> g.Valid()
  {
    hide WB.Fits, BatchOf;
    var batches := BatchesOf(name, front);
    forall g | g in batches ensures g.Valid() {
      var k :| 0 <= k < |batches| && batches[k] == g;
    }
  }

  lemma NoOffset()
    ensures 0 <= BLOCK
  {
  }

  // ---------------------------------------------------------------- every run

  lemma {:induction false} UpdatesOfLast(groups: seq<Group>)
    requires groups != []
    ensures var n := |groups| - 1;
      AllUpdates(groups) == AllUpdates(groups[..n]) + WB.Numbered(groups[n].seqno, groups[n].records)
    decreases |groups|
  {
    hide WB.Numbered;
    var n := |groups| - 1;
    if n == 0 {
      assert groups[1..] == [] && groups[..0] == [];
      assert AllUpdates(groups) == WB.Numbered(groups[0].seqno, groups[0].records) + [];
    } else {
      UpdatesOfLast(groups[1..]);
      assert groups[1..][..n - 1] == groups[..n][1..];
      assert groups[..n][0] == groups[0];
      RegroupAll(WB.Numbered(groups[0].seqno, groups[0].records), AllUpdates(groups[..n][1..]),
              WB.Numbered(groups[n].seqno, groups[n].records), []);
    }
  }

  /** The updates of the i-th record end what is added up to it. */
  lemma OwnUpdates(name: Naming, log: seq<G.LogRecord>, i: nat, added: seq<WB.Stored>) returns (before: nat, after: nat)
    requires i < |log|
    requires AllUpdates(BatchesOf(name, Only(log[..i + 1], log[i].file))) <= added
    ensures var own := BatchOf(name, log[i].group);
      before <= after <= |added| && added[before..after] == WB.Numbered(own.seqno, own.records)
  {
    hide WB.Numbered, BatchOf, AllUpdates;
    var front := Only(log[..i + 1], log[i].file);
    assert log[..i + 1][..i] == log[..i];
    var batches := BatchesOf(name, front);
    assert batches[|batches| - 1] == BatchOf(name, log[i].group);
    UpdatesOfLast(batches);
    before, after := |AllUpdates(batches[..|batches| - 1])|, |AllUpdates(batches)|;
    assert added[..after] == AllUpdates(batches);
    assert added[before..after] == added[..after][before..];
  }

  /** A writer that asked for a sync and was told its batch succeeded: whatever else happens in the
      run, if no append to the same log file was cut short before its record, recovery finds the
      updates of its group, whole and under their own numbers, wherever at or after the synced part
      a crash cuts the file. */
  lemma SyncedWriteSurvives(base: nat, mem: set<Entry>, events: seq<G.Event>, s: G.State, w: nat, name: Naming)
    returns (i: nat)
    requires G.IsRun(G.Initial(base, mem), events, s) && AllValid(name, s.log)
    requires w in s.phase && s.phase[w] == G.Finished(G.Ok)
    requires w in s.requests && s.requests[w].batch.Some? && s.requests[w].sync
    ensures i < |s.log| && w in s.log[i].group.members && s.log[i].torn.None?
    ensures Intact(s.log, i) ==> forall n: nat, paranoid, maxSequence ::
      KeepsSynced(name, s.log, s.synced, s.log[i].file, n) ==>
      Recovers(name, s.log, i, n, paranoid, maxSequence)
  {
    hide *;
    i := G.SuccessIsDurable(base, mem, events, s, w);
    if Intact(s.log, i) {
      forall n: nat, paranoid, maxSequence | KeepsSynced(name, s.log, s.synced, s.log[i].file, n)
        ensures Recovers(name, s.log, i, n, paranoid, maxSequence)
      {
        RecordSurvives(name, s.log, s.synced, i, n, paranoid, maxSequence);
      }
    }
  }

  /** The first n bytes of the file that holds the i-th record are replayed to memory with the
      updates of its group among them. */
  ghost predicate Recovers(name: Naming, log: seq<G.LogRecord>, i: nat, n: nat, paranoid: bool, maxSequence: nat)
    requires i < |log|
  {
    var bytes := FileBytes(0, name, Only(log, log[i].file));
    var own := BatchOf(name, log[i].group);
    n <= |bytes| &&
    var added := Replay(ItemsFrom(0, bytes[..n]), paranoid, maxSequence).added;
    exists b, a :: 0 <= b <= a <= |added| && added[b..a] == WB.Numbered(own.seqno, own.records)
  }

  lemma RecordSurvives(name: Naming, log: seq<G.LogRecord>, synced: set<nat>, i: nat, n: nat, paranoid: bool,
                       maxSequence: nat)
    requires i < |log| && i in synced && Intact(log, i) && AllValid(name, log)
    requires KeepsSynced(name, log, synced, log[i].file, n)
    ensures Recovers(name, log, i, n, paranoid, maxSequence)
  {
    SyncedIsRecovered(name, log, synced, i, n, paranoid, maxSequence);
    SyncedIsKept(name, log, synced, i, n);
    hide FileBytes, Only, Replay, ItemsFrom, AllUpdates, BatchesOf, BatchOf, KeepsSynced, AllValid, Intact, WB.Numbered;
    var kept := FileBytes(0, name, Only(log, log[i].file))[..n];
    var b, a := OwnUpdates(name, log, i, Replay(ItemsFrom(0, kept), paranoid, maxSequence).added);
  }

  // ---------------------------------------------------------------- the bytes are what the writer writes

  lemma FileBytesNext(off: nat, name: Naming, log: seq<G.LogRecord>, before: Bytes)
    requires off <= BLOCK && log != []
    ensures var rep := BatchOf(name, log[0].group).Rep();
      var bytes := Emit(off, rep, true);
      var room := if log[0].torn.None? then |bytes| else log[0].torn.value;
      before + FileBytes(off, name, log) ==
      before + Taken(bytes, room) + FileBytes(OffsetAfter(off, rep, room), name, log[1..])
  {
    var rep := BatchOf(name, log[0].group).Rep();
    EnoughRoom(off, rep, true, |Emit(off, rep, true)|);
    hide Emit, EndOffset, OffsetAfter, WB.Contents;
  }

  /** Appending the groups of a log to one file, each as far as the file takes it. */
  method WriteFile(name: Naming, log: seq<G.LogRecord>) returns (writer: Writer)
    ensures fresh(writer) && writer.dest == FileBytes(0, name, log)
  {
    hide Emit, EndOffset, OffsetAfter, WB.Contents, Taken, BatchOf, FileBytes;
    writer := new Writer([]);
    NothingYet(name, log);
    for i := 0 to |log|
      invariant fresh(writer) && writer.Valid()
      invariant writer.dest + FileBytes(writer.blockOffset, name, log[i..]) == FileBytes(0, name, log)
    {
      var rep := BatchOf(name, log[i].group).Rep();
      var whole := |Emit(writer.blockOffset, rep, true)|;
      FileBytesNext(writer.blockOffset, name, log[i..], writer.dest);
      assert log[i..][1..] == log[i + 1..];
      var _ := writer.AddRecord(rep, if log[i].torn.None? then whole else log[i].torn.value);
    }
    NothingLeft(writer.dest, writer.blockOffset, name, log);
  }

  lemma NothingYet(name: Naming, log: seq<G.LogRecord>)
    ensures log[0..] == log && [] + FileBytes(0, name, log) == FileBytes(0, name, log)
  {
  }

  lemma NothingLeft(dest: Bytes, off: nat, name: Naming, log: seq<G.LogRecord>)
    requires off <= BLOCK
    ensures log[|log|..] == [] && dest + FileBytes(off, name, log[|log|..]) == dest
  {
  }

  lemma {:induction false} FileGrows(off: nat, name: Naming, log: seq<G.LogRecord>, more: seq<G.LogRecord>)
    requires off <= BLOCK
    ensures FileBytes(off, name, log) <= FileBytes(off, name, log + more)
    decreases |log|
  {
    hide Emit, EndOffset, OffsetAfter, WB.Contents, Taken, BatchOf;
    if log != [] {
      var rep := BatchOf(name, log[0].group).Rep();
      assert (log + more)[1..] == log[1..] + more;
      FileGrows(EndOffset(off, rep), name, log[1..], more);
      if log[0].torn.Some? {
        FileGrows(OffsetAfter(off, rep, log[0].torn.value), name, log[1..], more);
      }
    }
  }

  /** A file that no crash has cut keeps what was synced. */
  lemma UncutKeepsSynced(name: Naming, log: seq<G.LogRecord>, synced: set<nat>, file: nat)
    ensures KeepsSynced(name, log, synced, file, |FileBytes(0, name, Only(log, file))|)
  {
    hide FileBytes, Only;
    forall i | i in synced && i < |log| && log[i].file == file
      ensures |FileBytes(0, name, Only(log[..i + 1], file))| <= |FileBytes(0, name, Only(log, file))|
    {
      OnlySplits(log, i + 1, file);
      FileGrows(0, name, Only(log[..i + 1], file), Only(log[i + 1..], file));
    }
  }

  // ---------------------------------------------------------------- after a failed append

  /** A header whose payload is cut short hides what follows, as long as that cannot make up for what
      is missing. */
  lemma HeaderHides(off: nat, t: Byte, p: Bytes, n: nat, rest: Bytes)
    requires off + HEADER + |p| <= BLOCK && HEADER <= n && n + |rest| < HEADER + |p|
    ensures ItemsFrom(off, Physical(t, p)[..n] + rest) == []
  {
    var bytes := Physical(t, p)[..n] + rest;
    HeaderFields(t, p, []);
    var whole := Physical(t, p) + [];
    hide Physical, BlockItems, ItemsFrom;
    assert bytes[4] == whole[4] && bytes[5] == whole[5];
    ItemsUnfold(off, bytes);
    TooLong(bytes);
  }

  lemma TooLong(buffer: Bytes)
    requires |buffer| >= HEADER && HEADER + LengthField(buffer) > |buffer|
    ensures BlockItems(buffer, true) == []
  {
  }

  /** A record that fits into what is left of a block is one physical record. */
  lemma OnePiece(off: nat, data: Bytes)
    requires off + HEADER + |data| <= BLOCK
    ensures Emit(off, data, true) == Physical(FULL, data) && EndOffset(off, data) == off + HEADER + |data|
    ensures OffsetAfter(off, data, HEADER) == off + HEADER + |data|
  {
    hide Physical;
    assert data[..|data|] == data;
    assert Trailer(off) + Physical(FULL, data) == Physical(FULL, data);
  }

  /** The file after a record of which only the header was written, and a whole one after it. */
  lemma TornThenWhole(name: Naming, a: G.Group, b: G.Group)
    requires var p, q := BatchOf(name, a).Rep(), BatchOf(name, b).Rep();
      HEADER + |q| < |p| && HEADER + |p| + HEADER + |q| <= BLOCK
    ensures var bytes := FileBytes(0, name, [G.LogRecord(a, Some(HEADER), 0), G.LogRecord(b, None, 0)]);
      |bytes| > HEADER && forall n: nat :: n <= |bytes| ==> ItemsFrom(0, bytes[..n]) == []
  {
    hide Physical, Emit, EndOffset, OffsetAfter, ItemsFrom, BatchOf, WB.Contents;
    var p, q := BatchOf(name, a).Rep(), BatchOf(name, b).Rep();
    var log := [G.LogRecord(a, Some(HEADER), 0), G.LogRecord(b, None, 0)];
    OnePiece(0, p);
    OnePiece(HEADER + |p|, q);
    var head, tail := Physical(FULL, p)[..HEADER], Physical(FULL, q);
    assert log[1..] == [G.LogRecord(b, None, 0)] && log[1..][1..] == [];
    assert FileBytes(HEADER + |p|, name, log[1..]) == tail + [];
    assert FileBytes(0, name, log) == head + tail;
    forall n: nat | n <= |head + tail| ensures ItemsFrom(0, (head + tail)[..n]) == [] {
      CutAfter(head, tail, n);
      if n < HEADER {
        ShortIsEmpty(head[..n]);
      } else {
        HeaderHides(0, FULL, p, HEADER, tail[..n - HEADER]);
      }
    }
  }

  lemma ShortIsEmpty(bytes: Bytes)
    requires |bytes| < HEADER
    ensures ItemsFrom(0, bytes) == []
  {
  }

  lemma {:induction false} Extend(s: G.State, events: seq<G.Event>, t: G.State, e: G.Event)
    requires G.IsRun(s, events, t) && G.Enabled(t, e)
    ensures G.IsRun(s, events + [e], G.Apply(t, e))
    decreases |events|
  {
    hide G.Enabled, G.Apply;
    if events == [] {
      assert ([] + [e])[1..] == [];
    } else {
      assert (events + [e])[1..] == events[1..] + [e];
      Extend(G.Apply(s, events[0]), events[1..], t, e);
    }
  }

  const USER: UserKey := 0.0

  function LongPut(): G.Batch {
    G.Batch([G.Update(USER, Entries.Put(seq(100, i => 0)))], 120)
  }

  function ShortDelete(): G.Batch {
    G.Batch([G.Update(USER, Entries.Delete)], 20)
  }

  /** The group of a writer that is alone in the queue. */
  lemma AloneIsGroup(r: G.Request)
    requires r.batch.Some?
    ensures G.IsGroupLength([r], 1) && G.UpdatesOf([r]) == r.batch.value.updates
  {
    assert [r][..0] == [];
    assert G.UpdatesOf([]) + r.batch.value.updates == r.batch.value.updates;
  }

  /** A writer arrives at an empty queue, leads, and forms a group of its own. */
  lemma AloneForms(start: G.State, events: seq<G.Event>, s: G.State, w: nat, r: G.Request)
    returns (more: seq<G.Event>, t: G.State)
    requires G.IsRun(start, events, s) && s.queue == [] && w !in s.requests && r.batch.Some? && s.bgError.Ok?
    ensures G.IsRun(start, events + more, t)
    ensures t == s.(requests := s.requests[w := r], arrivals := s.arrivals + [w], queue := [w],
                    phase := s.phase[w := G.Leading(G.Logging(G.Group(s.last, [w], r.batch.value.updates)))])
  {
    hide G.IsRun, G.IsGroupLength, G.UpdatesOf;
    AloneIsGroup(r);
    var e1, e2, e3 := G.Arrive(w, r), G.Lead(w), G.RoomMade(w, G.Ok, 1, 0);
    Extend(start, events, s, e1);
    var s1 := G.Apply(s, e1);
    Extend(start, events + [e1], s1, e2);
    var s2 := G.Apply(s1, e2);
    assert s2.queue == [w] && s2.queue[..1] == [w];
    assert G.Requests(s2.requests, s2.queue) == [r];
    Extend(start, events + [e1] + [e2], s2, e3);
    t := G.Apply(s2, e3);
    var work := G.Logging(G.Group(s.last, [w], r.batch.value.updates));
    assert t.phase == s.phase[w := G.Leading(work)];
    more := [e1, e2, e3];
    assert events + more == events + [e1] + [e2] + [e3];
  }

  /** ... and the append of its record fails. */
  lemma AloneFails(start: G.State, events: seq<G.Event>, s: G.State, w: nat, r: G.Request, size: nat)
    returns (more: seq<G.Event>, t: G.State)
    requires G.IsRun(start, events, s) && s.queue == [] && w !in s.requests && r.batch.Some? && s.bgError.Ok?
    ensures G.IsRun(start, events + more, t)
    ensures var g := G.Group(s.last, [w], r.batch.value.updates);
      && t.queue == [] && t.bgError.Ok? && t.requests == s.requests[w := r]
      && t.log == s.log + [G.LogRecord(g, Some(size), s.file)] && t.file == s.file
      && t.last == s.last + |r.batch.value.updates| && t.synced == s.synced
      && w in t.phase && t.phase[w] == G.Finished(G.Error(1))
  {
    hide G.IsRun;
    var first, s1 := AloneForms(start, events, s, w, r);
    var e1, e2 := G.LogAppended(w, G.Error(1), size), G.Complete(w);
    Extend(start, events + first, s1, e1);
    var s2 := G.Apply(s1, e1);
    Extend(start, events + first + [e1], s2, e2);
    t := G.Apply(s2, e2);
    more := first + [e1, e2];
    assert events + more == events + first + [e1] + [e2];
  }

  /** ... or is appended and synced. */
  lemma AloneSyncs(start: G.State, events: seq<G.Event>, s: G.State, w: nat, r: G.Request)
    returns (more: seq<G.Event>, t: G.State)
    requires G.IsRun(start, events, s) && s.queue == [] && w !in s.requests && s.bgError.Ok?
    requires r.batch.Some? && r.sync && |r.batch.value.updates| == 1
    ensures G.IsRun(start, events + more, t)
    ensures var g := G.Group(s.last, [w], r.batch.value.updates);
      && t.log == s.log + [G.LogRecord(g, None, s.file)] && t.synced == s.synced + G.InFile(t.log, s.file)
      && t.requests == s.requests[w := r] && G.IsLeading(t, w) && t.phase[w].work == G.Inserting(g, 0)
      && t.bgError.Ok? && t.queue == [w]
  {
    hide G.IsRun, G.InFile;
    var first, s1 := AloneForms(start, events, s, w, r);
    var e1, e2 := G.LogAppended(w, G.Ok, 0), G.LogSynced(w, G.Ok);
    Extend(start, events + first, s1, e1);
    var s2 := G.Apply(s1, e1);
    Extend(start, events + first + [e1], s2, e2);
    t := G.Apply(s2, e2);
    more := first + [e1, e2];
    assert events + more == events + first + [e1] + [e2];
  }

  /** ... and then all goes well. */
  lemma AloneSucceeds(start: G.State, events: seq<G.Event>, s: G.State, w: nat, r: G.Request)
    returns (more: seq<G.Event>, t: G.State)
    requires G.IsRun(start, events, s) && s.queue == [] && w !in s.requests && s.bgError.Ok?
    requires r.batch.Some? && r.sync && |r.batch.value.updates| == 1
    ensures G.IsRun(start, events + more, t)
    ensures var g := G.Group(s.last, [w], r.batch.value.updates);
      && t.log == s.log + [G.LogRecord(g, None, s.file)] && t.synced == s.synced + G.InFile(t.log, s.file)
      && t.requests == s.requests[w := r] && w in t.phase && t.phase[w] == G.Finished(G.Ok)
  {
    hide G.IsRun, G.InFile;
    var first, s1 := AloneSyncs(start, events, s, w, r);
    var e1, e2 := G.Inserted(w), G.Complete(w);
    Extend(start, events + first, s1, e1);
    var s2 := G.Apply(s1, e1);
    Extend(start, events + first + [e1], s2, e2);
    t := G.Apply(s2, e2);
    more := first + [e1, e2];
    assert events + more == events + first + [e1] + [e2];
  }

  lemma PutIsLonger(name: Naming, a: G.Group, b: G.Group)
    requires a.updates == LongPut().updates && b.updates == ShortDelete().updates && |name(USER)| < 0x80
    ensures var p, q := BatchOf(name, a).Rep(), BatchOf(name, b).Rep();
      HEADER + |q| < |p| && HEADER + |p| + HEADER + |q| <= BLOCK
  {
    var put, delete := RecordOf(name, a.updates[0]), RecordOf(name, b.updates[0]);
    assert BatchOf(name, a).records == [put] && BatchOf(name, b).records == [delete];
    OneEncoded(put);
    OneEncoded(delete);
    hide Fixed, WB.EncodeAll;
  }

  lemma OneEncoded(r: WB.Record)
    ensures WB.EncodeAll([r]) == WB.Encode(r)
  {
    hide WB.Encode;
    assert [r][1..] == [];
  }

  /** Durability fails after a failed append.  One writer's append leaves only a header in the log,
      and the writer is told of the error; the next writer asks for a sync, all its calls succeed,
      and it is told so; but whatever part of the log is read afterwards, nothing is found. */
  lemma TornAppendLosesSyncedWrite(base: nat, mem: set<Entry>, name: Naming) returns (events: seq<G.Event>, s: G.State)
    requires |name(USER)| < 0x80
    ensures G.IsRun(G.Initial(base, mem), events, s)
    ensures 2 in s.requests && s.requests[2] == G.Request(Some(ShortDelete()), true)
    ensures 2 in s.phase && s.phase[2] == G.Finished(G.Ok)
    ensures |s.log| == 2 && 2 in s.log[1].group.members && 1 in s.synced
    ensures s.log[0].torn == Some(HEADER) && s.log[1].torn.None? && s.log[0].file == s.log[1].file == 0
    ensures var bytes := FileBytes(0, name, Only(s.log, 0));
      |bytes| > HEADER && forall n: nat :: n <= |bytes| ==> ItemsFrom(0, bytes[..n]) == []
  {
    hide G.IsRun, FileBytes, ItemsFrom, BatchOf, Only;
    var start := G.Initial(base, mem);
    NoEvents(start);
    var first, s1 := AloneFails(start, [], start, 1, G.Request(Some(LongPut()), false), HEADER);
    assert 2 !in s1.requests;
    var more;
    more, s := AloneSucceeds(start, [] + first, s1, 2, G.Request(Some(ShortDelete()), true));
    events := [] + first + more;
    var a, b := G.Group(start.last, [1], LongPut().updates), G.Group(s1.last, [2], ShortDelete().updates);
    assert s.log == [G.LogRecord(a, Some(HEADER), 0), G.LogRecord(b, None, 0)];
    assert 1 in G.InFile(s.log, 0);
    OnlyBoth(s.log);
    PutIsLonger(name, a, b);
    TornThenWhole(name, a, b);
  }

  lemma NoEvents(s: G.State)
    ensures G.IsRun(s, [], s)
  {
  }

  lemma OnlyBoth(log: seq<G.LogRecord>)
    requires |log| == 2 && log[0].file == log[1].file == 0
    ensures Only(log, 0) == log
  {
    var front := log[..1];
    assert front[..0] == [] && Only([], 0) == [];
    assert Only(front, 0) == [] + [front[0]];
    assert Only(log, 0) == Only(front, 0) + [log[1]];
  }
}
