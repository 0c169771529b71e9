/** Replaying the write-ahead log when a database is opened (db_impl.cc, RecoverLogFile). */
module Recovery {
  import opened Wrappers
  import opened Coding
  import opened Logs
  import opened LogRecovery
  import WB = WriteBatches

  datatype Replayed = Replayed(ok: bool, added: seq<WB.Stored>, maxSequence: nat)

  function Max(a: nat, b: nat): nat {
    if a < b then b else a
  }

  function Inserted(rep: Bytes): seq<WB.Stored>
    requires |rep| >= WB.HEADER
  {
    WB.Numbered(WB.Sequence(rep), WB.Parse(rep[WB.HEADER..]).1)
  }

  /** The last sequence number of a batch, in 64 bits: a batch that counts no update ends before it
      began. */
  function LastSequence(rep: Bytes): nat
    requires |rep| >= WB.HEADER
  {
    (WB.Sequence(rep) + WB.Count(rep) + TWO_64 - 1) % TWO_64
  }

  /** Replaying the physical records still to come.  With paranoid checks the first corruption ends
      it; otherwise what cannot be read is skipped. */
  function Replay(items: seq<Item>, paranoid: bool, maxSequence: nat): Replayed
    decreases |items|
  {
    var f := NextRecord(items, false, []);
    var corrupt := paranoid && f.reports != [];
    if f.record.None? || corrupt then Replayed(!corrupt, [], maxSequence)
    else if |f.record.value| < WB.HEADER then
      if paranoid then Replayed(false, [], maxSequence) else Replay(f.rest, paranoid, maxSequence)
    else
      var rep := f.record.value;
      if paranoid && WB.IterateStatus(rep) != WB.Ok then Replayed(false, Inserted(rep), maxSequence)
      else
        var r := Replay(f.rest, paranoid, Max(maxSequence, LastSequence(rep)));
        r.(added := Inserted(rep) + r.added)
  }

  /** One turn of the loop, in terms of what was added before it. */
  lemma ReplayUnfolds(items: seq<Item>, paranoid: bool, maxSequence: nat, before: seq<WB.Stored>)
    ensures var f := NextRecord(items, false, []);
      var corrupt := paranoid && f.reports != [];
      var r := Replay(items, paranoid, maxSequence);
      var all := before + r.added;
      if f.record.None? || corrupt then r.ok == !corrupt && all == before && r.maxSequence == maxSequence
      else if |f.record.value| < WB.HEADER then
        var rest := Replay(f.rest, paranoid, maxSequence);
        if paranoid then !r.ok && all == before && r.maxSequence == maxSequence
        else r.ok == rest.ok && all == before + rest.added && r.maxSequence == rest.maxSequence
      else
        var rep := f.record.value;
        var rest := Replay(f.rest, paranoid, Max(maxSequence, LastSequence(rep)));
        if paranoid && WB.IterateStatus(rep) != WB.Ok then
          !r.ok && all == before + Inserted(rep) && r.maxSequence == maxSequence
        else r.ok == rest.ok && all == (before + Inserted(rep)) + rest.added && r.maxSequence == rest.maxSequence
  {
    hide NextRecord, WB.IterateStatus, LastSequence, Inserted;
  }

  /** The number is the last one of some batch that is read. */
  ghost predicate EndsABatch(items: seq<Item>, n: nat) {
    exists rep :: rep in Records(items) && |rep| >= WB.HEADER && LastSequence(rep) == n
  }

  lemma RecordsUnfold(items: seq<Item>)
    ensures var f := NextRecord(items, false, []);
      Records(items) == if f.record.None? then [] else [f.record.value] + Records(f.rest)
  {
    hide NextRecord;
  }

  lemma EndsLater(items: seq<Item>, n: nat)
    requires var f := NextRecord(items, false, []); f.record.Some? && EndsABatch(f.rest, n)
    ensures EndsABatch(items, n)
  {
    RecordsUnfold(items);
    var f := NextRecord(items, false, []);
    var rep :| rep in Records(f.rest) && |rep| >= WB.HEADER && LastSequence(rep) == n;
    hide NextRecord, LastSequence, Records;
    assert rep in Records(items);
  }

  lemma EndsHere(items: seq<Item>)
    requires var f := NextRecord(items, false, []); f.record.Some? && |f.record.value| >= WB.HEADER
    ensures EndsABatch(items, LastSequence(NextRecord(items, false, []).record.value))
  {
    RecordsUnfold(items);
    hide NextRecord, LastSequence, Records;
    assert NextRecord(items, false, []).record.value in Records(items);
  }

  /** Recovery goes on from the greatest last number of the batches it read, if that is beyond where
      it was, and with no check failing it has seen them all. */
  lemma {:induction false} ReplayedSequence(items: seq<Item>, paranoid: bool, maxSequence: nat)
    ensures var r := Replay(items, paranoid, maxSequence);
      && r.maxSequence >= maxSequence && (r.maxSequence == maxSequence || EndsABatch(items, r.maxSequence))
      && (!paranoid || r.ok ==> forall rep :: rep in Records(items) && |rep| >= WB.HEADER ==>
           LastSequence(rep) <= r.maxSequence)
    decreases |items|
  {
    hide NextRecord, WB.IterateStatus, LastSequence, Inserted, EndsABatch, Records;
    RecordsUnfold(items);
    var f := NextRecord(items, false, []);
    if f.record.Some? {
      var rep := f.record.value;
      if |rep| < WB.HEADER {
        ReplayedSequence(f.rest, paranoid, maxSequence);
        if EndsABatch(f.rest, Replay(f.rest, paranoid, maxSequence).maxSequence) {
          EndsLater(items, Replay(f.rest, paranoid, maxSequence).maxSequence);
        }
      } else {
        var after := Max(maxSequence, LastSequence(rep));
        EndsHere(items);
        ReplayedSequence(f.rest, paranoid, after);
        if EndsABatch(f.rest, Replay(f.rest, paranoid, after).maxSequence) {
          EndsLater(items, Replay(f.rest, paranoid, after).maxSequence);
        }
      }
    }
  }

  method RecoverLogFile(file: Bytes, paranoid: bool, maxSequence: nat) returns (ok: bool, mem: WB.MemTable, last: nat)
    ensures fresh(mem) && Replayed(ok, mem.added, last) == Replay(ItemsFrom(0, file), paranoid, maxSequence)
    ensures last >= maxSequence && (last == maxSequence || EndsABatch(ItemsFrom(0, file), last))
    ensures !paranoid || ok ==> forall rep :: rep in Records(ItemsFrom(0, file)) && |rep| >= WB.HEADER ==>
      LastSequence(rep) <= last
  {
    hide *;
    ReplayedSequence(ItemsFrom(0, file), paranoid, maxSequence);
    var reader := new Reader(file);
    var batch := new WB.WriteBatch();
    mem := new WB.MemTable();
    ok, last := true, maxSequence;
    ghost var goal := Replay(reader.Items(), paranoid, maxSequence);
    assert mem.added + goal.added == goal.added;
    while true
      invariant reader.Valid() && ok && fresh(reader) && fresh(mem) && fresh(batch)
      invariant var r := Replay(reader.Items(), paranoid, last);
        r.ok == goal.ok && mem.added + r.added == goal.added && r.maxSequence == goal.maxSequence
      decreases |reader.Items()|
    {
      ReplayUnfolds(reader.Items(), paranoid, last, mem.added);
      var reported := |reader.corruptions|;
      var record := reader.ReadRecord();
      if paranoid && |reader.corruptions| > reported {
        ok := false;
      }
      if record.None? || !ok {
        return;
      }
      var rep := record.value;
      if |rep| < WB.HEADER {
        if paranoid {
          ok := false;
          return;
        }
        continue;
      }
      ok, last := InsertBatch(batch, rep, mem, paranoid, last);
      if !ok {
        return;
      }
    }
  }

  /** Adds the updates of one record; a batch that is not sound counts only without paranoid checks. */
  method InsertBatch(batch: WB.WriteBatch, rep: Bytes, mem: WB.MemTable, paranoid: bool, maxSequence: nat)
    returns (ok: bool, last: nat)
    requires |rep| >= WB.HEADER
    modifies batch, mem
    ensures mem.added == old(mem.added) + Inserted(rep)
    ensures ok == !(paranoid && WB.IterateStatus(rep) != WB.Ok)
    ensures last == if ok then Max(maxSequence, LastSequence(rep)) else maxSequence
  {
    hide WB.IterateStatus, LastSequence, Inserted;
    InsertedIs(rep);
    batch.rep := rep;
    last := maxSequence;
    var status := batch.InsertInto(mem);
    if paranoid && status != WB.Ok {
      return false, last;
    }
    var lastSeq := LastSequence(rep);
    if lastSeq > last {
      last := lastSeq;
    }
    return true, last;
  }

  lemma ReportsUnfold(items: seq<Item>)
    ensures var f := NextRecord(items, false, []);
      Reports(items) == f.reports + if f.record.None? then [] else Reports(f.rest)
  {
    hide NextRecord;
  }

  /** A batch that can be inserted whole. */
  predicate Sound(rep: Bytes) {
    |rep| >= WB.HEADER && WB.IterateStatus(rep) == WB.Ok
  }

  /** With paranoid checks recovery succeeds if and only if nothing in the log is reported corrupt and
      every record is a sound batch; without, it always does. */
  lemma {:induction false} ParanoidAcceptsOnlySound(items: seq<Item>, maxSequence: nat)
    ensures Replay(items, true, maxSequence).ok <==> Reports(items) == [] && forall rep :: rep in Records(items) ==>
              Sound(rep)
    ensures Replay(items, false, maxSequence).ok
    decreases |items|
  {
    hide NextRecord, WB.IterateStatus, LastSequence, Inserted, Records, Reports;
    RecordsUnfold(items);
    ReportsUnfold(items);
    var f := NextRecord(items, false, []);
    if f.record.Some? {
      var rep := f.record.value;
      assert rep in Records(items);
      if |rep| < WB.HEADER {
        ParanoidAcceptsOnlySound(f.rest, maxSequence);
      } else {
        ParanoidAcceptsOnlySound(f.rest, Max(maxSequence, LastSequence(rep)));
      }
    }
  }

  lemma InsertedIs(rep: Bytes)
    requires |rep| >= WB.HEADER
    ensures Inserted(rep) == WB.Numbered(WB.Sequence(rep), WB.Parse(rep[WB.HEADER..]).1)
  {
  }

  // ---------------------------------------------------------------- after a crash

  /** A committed group: the sequence number of its first update, and its updates. */
  datatype Group = Group(seqno: nat, records: seq<WB.Record>) {
    predicate Valid() {
      seqno < TWO_64 && |records| < TWO_32 && forall r :: r in records ==> WB.Fits(r)
    }

    function Rep(): Bytes {
      WB.Contents(seqno, records)
    }
  }

  /** As long as sequence numbers fit in 64 bits, a group ends where its updates do. */
  lemma LastOfGroup(g: Group)
    requires g.Valid() && g.seqno > 0 && g.seqno + |g.records| <= TWO_64
    ensures LastSequence(g.Rep()) == g.seqno + |g.records| - 1
  {
    hide WB.Contents, WB.Sequence, WB.Count, WB.Fits;
    WB.ContentsFields(g.seqno, g.records);
    var rep, n := g.Rep(), |g.records|;
    NoWrap(n);
    assert WB.Sequence(rep) + WB.Count(rep) == g.seqno + n;
    OneBack(g.seqno + n);
  }

  lemma OneBack(n: nat)
    requires 0 < n <= TWO_64
    ensures (n + TWO_64 - 1) % TWO_64 == n - 1
  {
  }

  function Reps(groups: seq<Group>): (r: seq<Bytes>)
    ensures |r| == |groups|
  {
    seq(|groups|, i requires 0 <= i < |groups| => groups[i].Rep())
  }

  function AllUpdates(groups: seq<Group>): seq<WB.Stored> {
    if groups == [] then [] else WB.Numbered(groups[0].seqno, groups[0].records) + AllUpdates(groups[1..])
  }

  function Highest(groups: seq<Group>, maxSequence: nat): nat {
    if groups == [] then maxSequence else Highest(groups[1..], Max(maxSequence, LastSequence(groups[0].Rep())))
  }

  lemma {:induction false} ReplayGroups(items: seq<Item>, groups: seq<Group>, paranoid: bool, maxSequence: nat)
    requires forall g :: g in groups ==> g.Valid()
    requires Records(items) == Reps(groups) && Reports(items) == []
    ensures Replay(items, paranoid, maxSequence) == Replayed(true, AllUpdates(groups), Highest(groups, maxSequence))
    decreases |groups|
  {
    hide NextRecord, WB.IterateStatus, WB.Contents, WB.Parse, WB.Sequence, WB.Count, LastSequence, WB.Fits, WB.Numbered;
    var f := NextRecord(items, false, []);
    if groups == [] {
      assert Records(items) == [];
    } else {
      var rep := groups[0].Rep();
      assert Reps(groups)[0] == rep && Records(items) != [];
      assert Records(items) == [f.record.value] + Records(f.rest);
      assert f.record == Some(rep) && Records(f.rest) == Reps(groups)[1..];
      assert Reps(groups)[1..] == Reps(groups[1..]);
      assert groups[0].Valid();
      WB.InsertRoundTrip(groups[0].seqno, groups[0].records);
      ReplayGroups(f.rest, groups[1..], paranoid, Max(maxSequence, LastSequence(rep)));
    }
  }

  /** However much of the log a crash left, replay stores exactly the updates of the groups whose
      record lies wholly in what is left, each group whole and under its own sequence numbers, and
      without finding anything corrupt. */
  lemma CrashRecovery(groups: seq<Group>, n: nat, paranoid: bool, maxSequence: nat)
    requires forall g :: g in groups ==> g.Valid()
    requires n <= |LogOf(0, Reps(groups))|
    ensures var survived := groups[..WholeRecords(0, Reps(groups), n)];
      Replay(ItemsFrom(0, LogOf(0, Reps(groups))[..n]), paranoid, maxSequence) ==
      Replayed(true, AllUpdates(survived), Highest(survived, maxSequence))
  {
    hide *;
    var reps := Reps(groups);
    var k := WholeRecords(0, reps, n);
    PrefixIsRecovered(0, reps, n);
    RepsPrefix(groups, k);
    ReplayGroups(ItemsFrom(0, LogOf(0, reps)[..n]), groups[..k], paranoid, maxSequence);
  }

  /** None of its numbers wraps. */
  ghost predicate InRange(groups: seq<Group>) {
    forall g :: g in groups ==> g.Valid() && g.seqno > 0 && g.seqno + |g.records| <= TWO_64
  }

  lemma {:induction false} AddedComesFrom(groups: seq<Group>, x: WB.Stored)
    requires x in AllUpdates(groups)
    ensures exists g :: g in groups && g.seqno <= x.seqno < g.seqno + |g.records|
  {
    if x in WB.Numbered(groups[0].seqno, groups[0].records) {
      assert groups[0] in groups;
    } else {
      AddedComesFrom(groups[1..], x);
    }
  }

  lemma {:induction false} HighestIs(groups: seq<Group>, maxSequence: nat)
    requires InRange(groups)
    ensures var h := Highest(groups, maxSequence);
      && h >= maxSequence && (forall g :: g in groups ==> g.seqno + |g.records| - 1 <= h)
      && (h == maxSequence || exists g :: g in groups && h == g.seqno + |g.records| - 1)
  {
    hide WB.Contents, WB.Fits, LastSequence;
    if groups != [] {
      assert groups[0] in groups;
      LastOfGroup(groups[0]);
      HighestIs(groups[1..], Max(maxSequence, LastSequence(groups[0].Rep())));
    }
  }

  /** However much of the log a crash left, recovery goes on behind every number it has recovered, and
      no further: from the last number of a surviving group, or from where it was. */
  lemma RecoveredSequence(groups: seq<Group>, n: nat, paranoid: bool, maxSequence: nat)
    requires InRange(groups) && n <= |LogOf(0, Reps(groups))|
    ensures var r := Replay(ItemsFrom(0, LogOf(0, Reps(groups))[..n]), paranoid, maxSequence);
      var survived := groups[..WholeRecords(0, Reps(groups), n)];
      && r.maxSequence >= maxSequence && (forall x :: x in r.added ==> x.seqno <= r.maxSequence)
      && (forall g :: g in survived ==> g.seqno + |g.records| - 1 <= r.maxSequence)
      && (r.maxSequence == maxSequence || exists g :: g in survived && r.maxSequence == g.seqno + |g.records| - 1)
  {
    hide WB.Contents, WB.Fits, LogOf, Replay, ItemsFrom, Highest, AllUpdates, WholeRecords;
    CrashRecovery(groups, n, paranoid, maxSequence);
    var survived := groups[..WholeRecords(0, Reps(groups), n)];
    assert forall g :: g in survived ==> g in groups;
    HighestIs(survived, maxSequence);
    forall x | x in AllUpdates(survived) ensures x.seqno <= Highest(survived, maxSequence) {
      AddedComesFrom(survived, x);
    }
  }

  lemma RepsPrefix(groups: seq<Group>, k: nat)
    requires k <= |groups|
    ensures Reps(groups[..k]) == Reps(groups)[..k]
  {
  }

  lemma ReplayOne(items: seq<Item>, g: Group, rest: seq<Item>, paranoid: bool, maxSequence: nat)
    requires g.Valid() && NextRecord(items, false, []) == Found(Some(g.Rep()), rest, [])
    ensures var r := Replay(rest, paranoid, Max(maxSequence, LastSequence(g.Rep())));
      Replay(items, paranoid, maxSequence) == r.(added := WB.Numbered(g.seqno, g.records) + r.added)
  {
    hide NextRecord, WB.IterateStatus, WB.Contents, WB.Parse, WB.Sequence, WB.Count, LastSequence, WB.Fits, WB.Numbered;
    WB.InsertRoundTrip(g.seqno, g.records);
  }

  /** Whatever follows them, the groups at the front of a log are replayed, in order and whole. */
  lemma {:induction false} FrontIsReplayed(off: nat, groups: seq<Group>, rest: Bytes, paranoid: bool, maxSequence: nat)
    requires off <= BLOCK && forall g :: g in groups ==> g.Valid()
    ensures var r := Replay(ItemsFrom(AfterAll(off, Reps(groups)), rest), paranoid, Highest(groups, maxSequence));
      Replay(ItemsFrom(off, LogOf(off, Reps(groups)) + rest), paranoid, maxSequence) ==
      r.(added := AllUpdates(groups) + r.added)
    decreases |groups|
  {
    hide ItemsFrom, Replay, Emit, EndOffset, WB.Numbered, WB.Fits, LastSequence, WB.Contents;
    if groups == [] {
      assert LogOf(off, []) + rest == rest;
      NothingAdded(Replay(ItemsFrom(off, rest), paranoid, maxSequence));
    } else {
      var rep, end := groups[0].Rep(), EndOffset(off, groups[0].Rep());
      assert Reps(groups)[0] == rep && Reps(groups)[1..] == Reps(groups[1..]);
      var more := LogOf(end, Reps(groups[1..]));
      var after := Max(maxSequence, LastSequence(rep));
      assert LogOf(off, Reps(groups)) + rest == Emit(off, rep, true) + (more + rest);
      FirstRecord(off, rep, more + rest);
      assert groups[0].Valid();
      ReplayOne(ItemsFrom(off, Emit(off, rep, true) + (more + rest)), groups[0], ItemsFrom(end, more + rest),
          paranoid, maxSequence);
      FrontIsReplayed(end, groups[1..], rest, paranoid, after);
      var r := Replay(ItemsFrom(AfterAll(off, Reps(groups)), rest), paranoid, Highest(groups, maxSequence));
      assert WB.Numbered(groups[0].seqno, groups[0].records) + (AllUpdates(groups[1..]) + r.added)
             == AllUpdates(groups) + r.added;
    }
  }

  lemma NothingAdded(r: Replayed)
    ensures r.(added := [] + r.added) == r
  {
    assert [] + r.added == r.added;
  }
}
