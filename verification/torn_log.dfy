/** What a failed append does to the records after it: a header in the log whose payload was cut short
    takes what follows for that payload (log_writer.cc, log_reader.cc, db_impl.cc). */
module TornLogs {
  import opened Wrappers
  import opened Coding
  import opened Entries
  import opened Logs
  import opened LogRecovery
  import opened Recovery
  import opened DurableLogs
  import G = GroupCommit
  import WB = WriteBatches

  // ---------------------------------------------------------------- one torn record

  /** A file that takes only `room` bytes of a record stops behind a header, and `following` more bytes
      do not make up for what is missing of the payload. */
  predicate Swallows(off: nat, data: Bytes, room: nat, following: nat)
    requires off <= BLOCK
    decreases |data|, if FragmentLength(off, data) == 0 then 1 else 0
  {
    var n := FragmentLength(off, data);
    var piece := |Trailer(off)| + HEADER + n;
    if room < piece then |Trailer(off)| + HEADER <= room && room + following < piece
    else n < |data| && Swallows(NextOffset(off, data), data[n..], room - piece, following)
  }

  lemma {:induction false} SwallowsLess(off: nat, data: Bytes, room: nat, following: nat, less: nat)
    requires off <= BLOCK && Swallows(off, data, room, following) && less <= following
    ensures Swallows(off, data, room, less)
    decreases |data|, if FragmentLength(off, data) == 0 then 1 else 0
  {
    var n := FragmentLength(off, data);
    var piece := |Trailer(off)| + HEADER + n;
    if room >= piece {
      SwallowsLess(NextOffset(off, data), data[n..], room - piece, following, less);
    }
  }

  lemma PieceLength(off: nat, data: Bytes, begin: bool)
    requires off <= BLOCK
    ensures |Piece(off, data, begin)| == |Trailer(off)| + HEADER + FragmentLength(off, data)
  {
  }

  lemma SwallowedPiece(off: nat, data: Bytes, begin: bool, room: nat, rest: Bytes)
    requires off <= BLOCK && |Trailer(off)| + HEADER <= room && room + |rest| < |Piece(off, data, begin)|
    ensures ItemsFrom(off, Piece(off, data, begin)[..room] + rest) == []
  {
    var n := FragmentLength(off, data);
    var t := TypeOf(begin, n == |data|);
    var physical := Physical(t, data[..n]);
    var m := |Trailer(off)|;
    hide Physical, Trailer, ItemsFrom;
    assert Piece(off, data, begin)[..room] + rest == Trailer(off) + (physical[..room - m] + rest);
    TrailerItems(off, physical[..room - m] + rest);
    HeaderHides(StartOf(off), t, data[..n], room - m, rest);
  }

  /** The reader finds the fragments before the one that was cut, and nothing behind. */
  lemma {:induction false} SwallowedItems(off: nat, data: Bytes, begin: bool, room: nat, rest: Bytes) returns (k: nat)
    requires off <= BLOCK && Swallows(off, data, room, |rest|)
    ensures room < |Emit(off, data, begin)| && k < |Fragments(off, data, begin)|
    ensures ItemsFrom(off, Emit(off, data, begin)[..room] + rest) == Fragments(off, data, begin)[..k]
    decreases |data|, if FragmentLength(off, data) == 0 then 1 else 0
  {
    hide Emit, Fragments, Piece, ItemsFrom;
    var n := FragmentLength(off, data);
    var head := Piece(off, data, begin);
    PieceLength(off, data, begin);
    EmitIs(off, data, begin);
    FragmentsAre(off, data, begin);
    if room < |head| {
      k := 0;
      if n < |data| {
        CutAfter(head, Emit(NextOffset(off, data), data[n..], false), room);
      }
      SwallowedPiece(off, data, begin, room, rest);
    } else {
      var next := NextOffset(off, data);
      var more := Emit(next, data[n..], false);
      var j := SwallowedItems(next, data[n..], false, room - |head|, rest);
      k := j + 1;
      CutAfter(head, more, room);
      assert Emit(off, data, begin)[..room] + rest == head + (more[..room - |head|] + rest);
      PieceItems(off, data, begin, more[..room - |head|] + rest);
    }
  }

  /** However much is left of these bytes, no record is read from them, and nothing seems corrupt. */
  ghost predicate FindsNothing(off: nat, bytes: Bytes)
    requires off <= BLOCK
  {
    forall n :: 0 <= n <= |bytes| ==>
      Records(ItemsFrom(off, bytes[..n])) == [] && Reports(ItemsFrom(off, bytes[..n])) == []
  }

  lemma NoRecordOf(off: nat, data: Bytes, k: nat)
    requires off <= BLOCK && k < |Fragments(off, data, true)|
    ensures Records(Fragments(off, data, true)[..k]) == [] && Reports(Fragments(off, data, true)[..k]) == []
  {
    CutRecord(off, data, true, [], k);
    hide NextRecord, Fragments;
  }

  lemma TornFindsNothing(off: nat, data: Bytes, room: nat, rest: Bytes)
    requires off <= BLOCK && Swallows(off, data, room, |rest|)
    ensures FindsNothing(off, Taken(Emit(off, data, true), room) + rest)
  {
    hide Swallows, Emit, Fragments, ItemsFrom, Records, Reports;
    var whole := SwallowedItems(off, data, true, room, rest);
    var torn := Emit(off, data, true)[..room];
    assert Taken(Emit(off, data, true), room) == torn;
    forall n | 0 <= n <= |torn + rest|
      ensures Records(ItemsFrom(off, (torn + rest)[..n])) == [] && Reports(ItemsFrom(off, (torn + rest)[..n])) == []
    {
      CutAfter(torn, rest, n);
      var k;
      if n <= room {
        assert torn[..n] == Emit(off, data, true)[..n];
        k := CutItems(off, data, true, n);
      } else {
        SwallowsLess(off, data, room, |rest|, n - room);
        k := SwallowedItems(off, data, true, room, rest[..n - room]);
      }
      NoRecordOf(off, data, k);
    }
  }

  /** Whole records with nothing to be found behind them: of any part of these bytes, exactly the
      records wholly in it are read, and nothing seems corrupt. */
  lemma {:induction false} FrontIsRead(off: nat, records: seq<Bytes>, tail: Bytes, n: nat)
    requires off <= BLOCK && n <= |LogOf(off, records) + tail| && FindsNothing(AfterAll(off, records), tail)
    ensures var items := ItemsFrom(off, (LogOf(off, records) + tail)[..n]);
      Records(items) == records[..WholeRecords(off, records, n)] && Reports(items) == []
    decreases |records|
  {
    hide Emit, EndOffset, NextRecord, Fragments, ItemsFrom, Records, Reports;
    if records == [] {
      assert LogOf(off, records) + tail == tail;
    } else {
      var data := records[0];
      var bytes := Emit(off, data, true);
      var end := EndOffset(off, data);
      var more := LogOf(end, records[1..]) + tail;
      assert LogOf(off, records) + tail == bytes + more;
      CutAfter(bytes, more, n);
      if n < |bytes| {
        var k := CutItems(off, data, true, n);
        NoRecordOf(off, data, k);
      } else {
        var m := n - |bytes|;
        FirstRecord(off, data, more[..m]);
        FrontIsRead(end, records[1..], tail, m);
        OneMoreRecord(ItemsFrom(off, bytes + more[..m]), data, ItemsFrom(end, more[..m]));
        assert records[..1 + WholeRecords(end, records[1..], m)]
               == [data] + records[1..][..WholeRecords(end, records[1..], m)];
      }
    }
  }

  // ---------------------------------------------------------------- the first torn record of a file

  /** Where the j-th record begins in its file, if none was torn before it. */
  function StartsAt(name: Naming, log: seq<G.LogRecord>, j: nat): (r: nat)
    requires j < |log|
    ensures r <= BLOCK
  {
    AfterAll(0, Reps(BatchesOf(name, Only(log[..j], log[j].file))))
  }

  /** What was appended to that file behind it. */
  function Behind(name: Naming, log: seq<G.LogRecord>, j: nat): Bytes
    requires j < |log| && log[j].torn.Some?
  {
    var rep := BatchOf(name, log[j].group).Rep();
    FileBytes(OffsetAfter(StartsAt(name, log, j), rep, log[j].torn.value), name, Only(log[j + 1..], log[j].file))
  }

  predicate FirstTorn(log: seq<G.LogRecord>, j: nat)
    requires j < |log|
  {
    log[j].torn.Some? && forall k :: 0 <= k < j && log[k].file == log[j].file ==> log[k].torn.None?
  }

  /** The first torn record of a file, of which a header was written, but less of its payload than
      everything behind it can make up for. */
  ghost predicate Hides(name: Naming, log: seq<G.LogRecord>, j: nat) {
    && j < |log| && FirstTorn(log, j)
    && Swallows(StartsAt(name, log, j), BatchOf(name, log[j].group).Rep(), log[j].torn.value,
                |Behind(name, log, j)|)
  }

  /** The groups of the records before the j-th in its file. */
  function Earlier(name: Naming, log: seq<G.LogRecord>, j: nat): seq<Group>
    requires j < |log|
  {
    BatchesOf(name, Only(log[..j], log[j].file))
  }

  lemma EarlierAreWhole(log: seq<G.LogRecord>, j: nat)
    requires j < |log| && FirstTorn(log, j)
    ensures AllWhole(Only(log[..j], log[j].file))
  {
    var front := Only(log[..j], log[j].file);
    OnlyFrom(log[..j], log[j].file);
    hide Only;
    forall k | 0 <= k < |front| ensures front[k].torn.None? {
      assert front[k] in front;
      var i :| 0 <= i < j && log[..j][i] == front[k];
    }
  }

  lemma TornIsNext(off: nat, name: Naming, r: G.LogRecord, more: seq<G.LogRecord>)
    requires off <= BLOCK && r.torn.Some?
    ensures var rep := BatchOf(name, r.group).Rep();
      FileBytes(off, name, [r] + more) ==
      Taken(Emit(off, rep, true), r.torn.value) + FileBytes(OffsetAfter(off, rep, r.torn.value), name, more)
  {
    assert ([r] + more)[1..] == more;
    hide Emit, OffsetAfter, BatchOf, WB.Contents;
  }

  lemma OnlyNext(log: seq<G.LogRecord>, j: nat)
    requires j < |log|
    ensures Only(log[j..], log[j].file) == [log[j]] + Only(log[j + 1..], log[j].file)
  {
    var file := log[j].file;
    OnlyAppends([log[j]], log[j + 1..], file);
    assert [log[j]] + log[j + 1..] == log[j..];
    assert [log[j]][..0] == [];
    assert Only([log[j]], file) == [] + [log[j]];
  }

  /** A file with a torn record: what was there before, what was taken of it, and the rest. */
  lemma TornFile(name: Naming, log: seq<G.LogRecord>, j: nat)
    requires j < |log| && FirstTorn(log, j)
    ensures var rep := BatchOf(name, log[j].group).Rep();
      FileBytes(0, name, Only(log, log[j].file)) ==
      LogOf(0, Reps(Earlier(name, log, j)))
      + (Taken(Emit(StartsAt(name, log, j), rep, true), log[j].torn.value) + Behind(name, log, j))
  {
    hide Only, FileBytes, LogOf, Reps, BatchesOf, AfterAll, Emit, OffsetAfter, Taken, BatchOf, AllWhole, WB.Contents;
    var file := log[j].file;
    EarlierAreWhole(log, j);
    OnlySplits(log, j, file);
    OnlyNext(log, j);
    WholeFront(0, name, Only(log[..j], file), [log[j]] + Only(log[j + 1..], file));
    TornIsNext(StartsAt(name, log, j), name, log[j], Only(log[j + 1..], file));
  }

  lemma EarlierAreValid(name: Naming, log: seq<G.LogRecord>, j: nat)
    requires AllValid(name, log) && j < |log|
    ensures forall g :: g in Earlier(name, log, j) ==> g.Valid()
  {
    hide AllValid, Only, BatchesOf;
    OnlyIsValid(name, log, j, log[j].file);
    BatchesAreValid(name, Only(log[..j], log[j].file));
  }

  lemma SurvivorsAreValid(groups: seq<Group>, k: nat)
    requires k <= |groups| && forall g :: g in groups ==> g.Valid()
    ensures forall g :: g in groups[..k] ==> g.Valid()
  {
  }

  lemma HidesParts(name: Naming, log: seq<G.LogRecord>, j: nat)
    requires Hides(name, log, j)
    ensures j < |log| && FirstTorn(log, j) && log[j].torn.Some?
    ensures Swallows(StartsAt(name, log, j), BatchOf(name, log[j].group).Rep(), log[j].torn.value,
                     |Behind(name, log, j)|)
  {
    hide Swallows, StartsAt, BatchOf, Behind, WB.Contents;
  }

  /** Wherever a crash cuts a file with such a record, replay adds exactly the groups before it that
      are wholly in what is left, finds nothing corrupt, and goes on to the end: whatever was appended
      behind it is lost without a word, synced or not. */
  lemma TornRecordHidesTheRest(name: Naming, log: seq<G.LogRecord>, j: nat, n: nat, paranoid: bool, maxSequence: nat)
    requires AllValid(name, log) && Hides(name, log, j)
    requires n <= |FileBytes(0, name, Only(log, log[j].file))|
    ensures var earlier := Earlier(name, log, j);
      var survived := earlier[..WholeRecords(0, Reps(earlier), n)];
      Replay(ItemsFrom(0, FileBytes(0, name, Only(log, log[j].file))[..n]), paranoid, maxSequence) ==
      Replayed(true, AllUpdates(survived), Highest(survived, maxSequence))
  {
    hide *;
    HidesParts(name, log, j);
    var earlier, start := Earlier(name, log, j), StartsAt(name, log, j);
    var rep, size, behind := BatchOf(name, log[j].group).Rep(), log[j].torn.value, Behind(name, log, j);
    TornFile(name, log, j);
    TornFindsNothing(start, rep, size, behind);
    StartsBehind(name, log, j);
    NoOffset();
    var k := WholeRecords(0, Reps(earlier), n);
    FrontIsRead(0, Reps(earlier), Taken(Emit(start, rep, true), size) + behind, n);
    RepsPrefix(earlier, k);
    EarlierAreValid(name, log, j);
    SurvivorsAreValid(earlier, k);
    ReplayGroups(ItemsFrom(0, FileBytes(0, name, Only(log, log[j].file))[..n]), earlier[..k], paranoid, maxSequence);
  }

  lemma StartsBehind(name: Naming, log: seq<G.LogRecord>, j: nat)
    requires j < |log|
    ensures StartsAt(name, log, j) == AfterAll(0, Reps(Earlier(name, log, j)))
  {
    hide AfterAll, Reps, BatchesOf, Only;
  }

  // ---------------------------------------------------------------- every run

  ghost predicate Below(groups: seq<Group>, bound: nat) {
    forall g :: g in groups ==> g.seqno + |g.records| <= bound + 1
  }

  /** Groups that end by a sequence number add nothing beyond it. */
  lemma {:induction false} AddedBelow(groups: seq<Group>, bound: nat)
    requires Below(groups, bound)
    ensures forall x :: x in AllUpdates(groups) ==> x.seqno <= bound
  {
    if groups != [] {
      assert groups[0] in groups;
      AddedBelow(groups[1..], bound);
    }
  }

  lemma EarlierAreBelow(base: nat, mem: set<Entry>, events: seq<G.Event>, s: G.State, name: Naming, j: nat, i: nat)
    requires G.IsRun(G.Initial(base, mem), events, s) && j < i < |s.log|
    ensures Below(Earlier(name, s.log, j), s.log[i].group.before)
  {
    hide G.IsRun, Only;
    var front := Only(s.log[..j], s.log[j].file);
    OnlyFrom(s.log[..j], s.log[j].file);
    forall g | g in Earlier(name, s.log, j) ensures g.seqno + |g.records| <= s.log[i].group.before + 1 {
      var k :| 0 <= k < |front| && BatchOf(name, front[k].group) == g;
      assert front[k] in front;
      var l :| 0 <= l < j && s.log[..j][l] == front[k];
      G.LogAscends(base, mem, events, s, l, i);
    }
  }

  lemma BelowPrefix(groups: seq<Group>, k: nat, bound: nat)
    requires Below(groups, bound) && k <= |groups|
    ensures Below(groups[..k], bound)
  {
  }

  /** What ends before a group's numbers does not hold its updates. */
  lemma NotAmong(added: seq<WB.Stored>, own: Group, bound: nat)
    requires own.seqno == bound + 1 && own.records != [] && forall x :: x in added ==> x.seqno <= bound
    ensures forall b, a :: 0 <= b <= a <= |added| ==> added[b..a] != WB.Numbered(own.seqno, own.records)
  {
    forall b, a | 0 <= b <= a <= |added| ensures added[b..a] != WB.Numbered(own.seqno, own.records) {
      var numbered := WB.Numbered(own.seqno, own.records);
      assert numbered[0].seqno == bound + 1;
      if b < a {
        assert added[b..a][0] == added[b] && added[b] in added;
      }
    }
  }

  /** In every run: a group whose record comes after such a one in the same file is not recovered,
      wherever the file is cut. */
  lemma HiddenIsLost(base: nat, mem: set<Entry>, events: seq<G.Event>, s: G.State, name: Naming, j: nat, i: nat,
                     n: nat, paranoid: bool, maxSequence: nat)
    requires G.IsRun(G.Initial(base, mem), events, s) && AllValid(name, s.log)
    requires j < i < |s.log| && s.log[j].file == s.log[i].file && Hides(name, s.log, j)
    requires s.log[i].group.updates != []
    ensures !Recovers(name, s.log, i, n, paranoid, maxSequence)
  {
    var own := BatchOf(name, s.log[i].group);
    var bound := s.log[i].group.before;
    assert own.records != [] && own.seqno == bound + 1;
    var bytes := FileBytes(0, name, Only(s.log, s.log[i].file));
    if n <= |bytes| {
      var earlier := Earlier(name, s.log, j);
      var k := WholeRecords(0, Reps(earlier), n);
      hide G.IsRun, AllValid, Hides, BatchOf, FileBytes, Only, Replay, ItemsFrom, AllUpdates, Earlier, WholeRecords,
           Reps, Below, WB.Numbered, Highest;
      TornRecordHidesTheRest(name, s.log, j, n, paranoid, maxSequence);
      EarlierAreBelow(base, mem, events, s, name, j, i);
      BelowPrefix(earlier, k, bound);
      AddedBelow(earlier[..k], bound);
      NotAmong(AllUpdates(earlier[..k]), own, bound);
    }
  }

  /** The first torn record of the file, if there is one, hides the rest. */
  ghost predicate TearsHide(name: Naming, log: seq<G.LogRecord>, file: nat) {
    forall j :: 0 <= j < |log| && log[j].file == file && FirstTorn(log, j) ==> Hides(name, log, j)
  }

  lemma {:induction false} FirstTornBefore(log: seq<G.LogRecord>, i: nat) returns (j: nat)
    requires i < |log| && !Intact(log, i)
    ensures j <= i && log[j].file == log[i].file && FirstTorn(log, j)
  {
    var k :| 0 <= k <= i && log[k].file == log[i].file && log[k].torn.Some?;
    j := k;
    if !FirstTorn(log, k) {
      var l :| 0 <= l < k && log[l].file == log[k].file && log[l].torn.Some?;
      j := FirstTornBefore(log, l);
    }
  }

  lemma UpdatesOfMember(q: seq<G.Request>, k: nat)
    requires k < |q| && q[k].batch.Some? && q[k].batch.value.updates != []
    ensures G.UpdatesOf(q) != []
  {
    var m := |q| - 1;
    if k < m {
      UpdatesOfMember(q[..m], k);
    }
  }

  lemma GroupHasUpdates(requests: map<nat, G.Request>, g: G.Group, w: nat)
    requires G.GoodGroup(requests, g) && w in g.members && w in requests
    requires requests[w].batch.Some? && requests[w].batch.value.updates != []
    ensures g.updates != []
  {
    hide G.UpdatesOf;
    var k :| 0 <= k < |g.members| && g.members[k] == w;
    UpdatesOfMember(G.Requests(requests, g.members), k);
  }

  /** A writer that asked for a sync, had something to write, and was told its batch succeeded: where
      torn records hide what follows them, its group is recovered, wherever at or after the synced part
      a crash cuts the file, if and only if no append to the file was cut short before its record; and
      if one was, it is not recovered wherever the file is cut. */
  lemma SyncedWriteSurvivesIffIntact(base: nat, mem: set<Entry>, events: seq<G.Event>, s: G.State, w: nat,
                                     name: Naming)
    returns (i: nat)
    requires G.IsRun(G.Initial(base, mem), events, s) && AllValid(name, s.log)
    requires w in s.phase && s.phase[w] == G.Finished(G.Ok)
    requires w in s.requests && s.requests[w].batch.Some? && s.requests[w].sync
    requires s.requests[w].batch.value.updates != []
    ensures i < |s.log| && w in s.log[i].group.members && s.log[i].torn.None?
    ensures TearsHide(name, s.log, s.log[i].file) ==>
      (Intact(s.log, i) <==>
       forall n: nat, paranoid, maxSequence :: KeepsSynced(name, s.log, s.synced, s.log[i].file, n) ==>
         Recovers(name, s.log, i, n, paranoid, maxSequence))
    ensures TearsHide(name, s.log, s.log[i].file) && !Intact(s.log, i) ==>
      forall n: nat, paranoid, maxSequence :: !Recovers(name, s.log, i, n, paranoid, maxSequence)
  {
    hide *;
    i := SyncedWriteSurvives(base, mem, events, s, w, name);
    var at := G.LogFollowsArrivals(base, mem, events, s);
    GroupHasUpdates(s.requests, s.log[i].group, w);
    if TearsHide(name, s.log, s.log[i].file) && !Intact(s.log, i) {
      var j := FirstTornBefore(s.log, i);
      TearHides(name, s.log, j);
      forall n: nat, paranoid, maxSequence ensures !Recovers(name, s.log, i, n, paranoid, maxSequence) {
        HiddenIsLost(base, mem, events, s, name, j, i, n, paranoid, maxSequence);
      }
      UncutKeepsSynced(name, s.log, s.synced, s.log[i].file);
      assert !Recovers(name, s.log, i, |FileBytes(0, name, Only(s.log, s.log[i].file))|, true, 0);
    }
  }

  lemma TearHides(name: Naming, log: seq<G.LogRecord>, j: nat)
    requires j < |log| && TearsHide(name, log, log[j].file) && FirstTorn(log, j)
    ensures Hides(name, log, j) && log[j].torn.Some?
  {
    hide Hides;
  }
}
