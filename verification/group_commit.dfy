/** Group commit: the writer queue of DBImpl::Write, every interleaving of its writers, and what
    readers and recovery may rely on (db_impl.cc). */
module GroupCommit {
  import opened Wrappers
  import opened Entries

  datatype Status = Ok | Error(code: nat)

  datatype Update = Update(user: UserKey, op: Op)

  /** A write batch and its ByteSize. */
  datatype Batch = Batch(updates: seq<Update>, size: nat)

  /** What a caller of Write asks for; CompactRange passes no batch. */
  datatype Request = Request(batch: Option<Batch>, sync: bool)

  // ---------------------------------------------------------------- building a group

  const MAX_GROUP_SIZE: nat := 0x10_0000
  const SMALL_WRITE_SIZE: nat := 0x2_0000

  function SizeLimit(first: nat): nat {
    if first <= SMALL_WRITE_SIZE then first + SMALL_WRITE_SIZE else MAX_GROUP_SIZE
  }

  function SizeOf(q: seq<Request>): nat {
    if q == [] then 0 else
      SizeOf(q[..|q| - 1]) + if q[|q| - 1].batch.Some? then q[|q| - 1].batch.value.size else 0
  }

  function UpdatesOf(q: seq<Request>): seq<Update> {
    if q == [] then [] else
      UpdatesOf(q[..|q| - 1]) + if q[|q| - 1].batch.Some? then q[|q| - 1].batch.value.updates else []
  }

  /** The i-th writer of the queue may be committed together with all those before it. */
  predicate Joins(q: seq<Request>, i: nat)
    requires 1 <= i < |q| && q[0].batch.Some?
  {
    && (q[i].sync ==> q[0].sync)
    && (q[i].batch.Some? ==> SizeOf(q[..i + 1]) <= SizeLimit(q[0].batch.value.size))
  }

  /** The longest prefix of the queue all of whose writers may join. */
  ghost predicate IsGroupLength(q: seq<Request>, n: nat)
    requires |q| > 0 && q[0].batch.Some?
  {
    && 1 <= n <= |q|
    && (forall i :: 1 <= i < n ==> Joins(q, i))
    && (n < |q| ==> !Joins(q, n))
  }

  method BuildBatchGroup(q: seq<Request>) returns (n: nat, updates: seq<Update>)
    requires |q| > 0 && q[0].batch.Some?
    ensures IsGroupLength(q, n) && updates == UpdatesOf(q[..n])
  {
    var first := q[0];
    var size := first.batch.value.size;
    var maxSize := MAX_GROUP_SIZE;
    if size <= SMALL_WRITE_SIZE {
      maxSize := size + SMALL_WRITE_SIZE;
    }
    updates := first.batch.value.updates;
    n := 1;
    assert q[..1][..0] == [] && SizeOf(q[..1][..0]) == 0;
    while n < |q|
      invariant 1 <= n <= |q|
      invariant size == SizeOf(q[..n]) && updates == UpdatesOf(q[..n])
      invariant forall i :: 1 <= i < n ==> Joins(q, i)
    {
      var w := q[n];
      assert q[..n + 1][..n] == q[..n];
      if w.sync && !first.sync {
        break;
      }
      if w.batch.Some? {
        size := size + w.batch.value.size;
        if size > maxSize {
          break;
        }
        updates := updates + w.batch.value.updates;
      }
      n := n + 1;
    }
  }

  /** The updates of a group are those of its writers, in the order of the queue. */
  lemma {:induction false} UpdatesJoin(a: seq<Request>, b: seq<Request>)
    ensures UpdatesOf(a + b) == UpdatesOf(a) + UpdatesOf(b)
    decreases |b|
  {
    hide UpdatesOf;
    if b == [] {
      assert a + b == a;
      NoUpdates();
    } else {
      var n := |b| - 1;
      assert (a + b)[..|a| + n] == a + b[..n];
      UpdatesJoin(a, b[..n]);
      LastUpdates(a + b);
      LastUpdates(b);
      assert (a + b)[|a + b| - 1] == b[n];
    }
  }

  lemma NoUpdates()
    ensures UpdatesOf([]) == []
  {
  }

  lemma LastUpdates(q: seq<Request>)
    requires q != []
    ensures UpdatesOf(q) ==
            UpdatesOf(q[..|q| - 1]) + if q[|q| - 1].batch.Some? then q[|q| - 1].batch.value.updates else []
  {
  }

  /** How large a group may become: 128 KB more than a first write of up to 128 KB, and else 1 MB, or the
      first write alone; and why the next writer, if there is one, was not taken in. */
  lemma {:induction false} GroupIsBounded(q: seq<Request>, n: nat)
    requires |q| > 0 && q[0].batch.Some? && IsGroupLength(q, n)
    ensures var first := q[0].batch.value.size; var most := if first <= 131072 then first + 131072 else 1048576;
      && SizeOf(q[..n]) <= (if first <= most then most else first)
      && (n < |q| ==> (q[n].sync && !q[0].sync) || (q[n].batch.Some? && SizeOf(q[..n + 1]) > most))
    ensures forall i :: 0 <= i < n && q[i].sync ==> q[0].sync
  {
    SizeWithin(q, n);
    forall i | 0 <= i < n && q[i].sync ensures q[0].sync {
      assert i > 0 ==> Joins(q, i);
    }
  }

  lemma {:induction false} SizeWithin(q: seq<Request>, n: nat)
    requires 1 <= n <= |q| && q[0].batch.Some? && forall i :: 1 <= i < n ==> Joins(q, i)
    ensures var first := q[0].batch.value.size;
      SizeOf(q[..n]) <= if first <= SizeLimit(first) then SizeLimit(first) else first
  {
    assert q[..n][..n - 1] == q[..n - 1];
    if n == 1 {
      assert SizeOf(q[..0]) == 0;
    } else {
      SizeWithin(q, n - 1);
      assert Joins(q, n - 1);
    }
  }

  // ---------------------------------------------------------------- the protocol

  /** Writers committed together: `before` is LastSequence when the group is formed. */
  datatype Group = Group(before: nat, members: seq<nat>, updates: seq<Update>) {
    function Entry(i: nat): Entry
      requires i < |updates|
    {
      Entries.Entry(updates[i].user, before + 1 + i, updates[i].op)
    }

    function EntriesUpTo(n: nat): set<Entry>
      requires n <= |updates|
    {
      set i | 0 <= i < n :: Entry(i)
    }
  }

  /** What became of a group's record: a failed append leaves the file with some of its bytes. */
  datatype Append = NoAppend | WholeAppend | TornAppend(size: nat)

  /** A record in the log, and the log file it is in; `torn` is how many of its bytes are there when
      not all of them are known to be. */
  datatype LogRecord = LogRecord(group: Group, torn: Option<nat>, file: nat)

  function RecordFor(g: Group, append: Append, file: nat): seq<LogRecord> {
    match append
    case NoAppend => []
    case WholeAppend => [LogRecord(g, None, file)]
    case TornAppend(size) => [LogRecord(g, Some(size), file)]
  }

  /** How far the leader has come.  The mutex is free between two of these. */
  datatype Work =
    | MakingRoom
    | Logging(group: Group)
    | Syncing(group: Group)
    | Inserting(group: Group, inserted: nat)
    | Finishing(group: Group, status: Status, syncError: bool, append: Append)

  datatype Phase = Waiting | Leading(work: Work) | Finished(status: Status)

  datatype Outcome = Outcome(group: Group, status: Status, append: Append, file: nat) {
    function Record(): seq<LogRecord> {
      RecordFor(group, append, file)
    }
  }

  /** `queue`, `mem`, `last` and `bgError` are fields of DBImpl, `file` counts its log files, `log`
      is what was appended to them and `synced` the places in it that a sync has made durable;
      `arrivals` and `outcomes` record what has happened. */
  datatype State = State(
    requests: map<nat, Request>,
    arrivals: seq<nat>,
    queue: seq<nat>,
    phase: map<nat, Phase>,
    log: seq<LogRecord>,
    synced: set<nat>,
    file: nat,
    mem: set<Entry>,
    last: nat,
    bgError: Status,
    outcomes: seq<Outcome>)

  datatype Event =
    | Arrive(writer: nat, request: Request)
    | Lead(writer: nat)
    | RoomMade(writer: nat, status: Status, length: nat, switched: nat)
    | LogAppended(writer: nat, status: Status, size: nat)
    | LogSynced(writer: nat, status: Status)
    | Inserted(writer: nat)
    | Complete(writer: nat)
    | BackgroundFailed(code: nat)

  function Initial(last: nat, mem: set<Entry>): State {
    State(map[], [], [], map[], [], {}, 0, mem, last, Ok, [])
  }

  function Requests(requests: map<nat, Request>, ws: seq<nat>): seq<Request>
    requires forall w :: w in ws ==> w in requests
  {
    seq(|ws|, i requires 0 <= i < |ws| => requests[ws[i]])
  }

  predicate IsLeading(s: State, w: nat) {
    w in s.phase && s.phase[w].Leading?
  }

  ghost predicate Enabled(s: State, e: Event) {
    match e
    case Arrive(w, _) => w !in s.requests
    case Lead(w) => s.queue != [] && s.queue[0] == w && w in s.phase && s.phase[w].Waiting?
    case RoomMade(w, status, n, _) =>
      && IsLeading(s, w) && s.phase[w].work.MakingRoom? && s.queue != []
      && (forall v :: v in s.queue ==> v in s.requests) && w in s.requests
      && (s.bgError.Error? ==> status == s.bgError)
      && (status.Ok? && s.requests[w].batch.Some? ==>
           s.queue[0] == w && IsGroupLength(Requests(s.requests, s.queue), n))
    case LogAppended(w, _, _) => IsLeading(s, w) && s.phase[w].work.Logging?
    case LogSynced(w, _) => IsLeading(s, w) && s.phase[w].work.Syncing?
    case Inserted(w) => IsLeading(s, w) && s.phase[w].work.Inserting?
        && s.phase[w].work.inserted < |s.phase[w].work.group.updates|
    case Complete(w) => IsLeading(s, w) && s.phase[w].work.Finishing?
    case BackgroundFailed(_) => true
  }

  /** MakeRoomForWrite starts a new log file whenever it starts a new memtable. */
  function Switched(s: State, n: nat): State {
    s.(file := s.file + n)
  }

  function SetWork(s: State, w: nat, work: Work): State {
    s.(phase := s.phase[w := Leading(work)])
  }

  function StartInserting(g: Group): Work {
    if g.updates == [] then Finishing(g, Ok, false, WholeAppend) else Inserting(g, 0)
  }

  /** RecordBackgroundError keeps the first error. */
  function RecordError(s: State, error: Status): State {
    if s.bgError.Ok? then s.(bgError := error) else s
  }

  function AfterPops(queue: seq<nat>, n: nat): seq<nat> {
    if n <= |queue| then queue[n..] else []
  }

  /** The places of a log whose records are in one file. */
  function InFile(log: seq<LogRecord>, file: nat): set<nat> {
    set i: nat | i < |log| && log[i].file == file
  }

  function Leave(members: seq<nat>, status: Status): map<nat, Phase> {
    map m | m in members :: Finished(status)
  }

  /** Everyone up to the last member leaves the queue with the leader's status. */
  function PopGroup(s: State, g: Group, status: Status, append: Append): State {
    s.(queue := AfterPops(s.queue, |g.members|),
       phase := s.phase + Leave(g.members, status),
       last := g.before + |g.updates|,
       outcomes := s.outcomes + [Outcome(g, status, append, s.file)])
  }

  ghost function Apply(s: State, e: Event): State
    requires Enabled(s, e)
  {
    match e
    case Arrive(w, r) =>
      s.(requests := s.requests[w := r], arrivals := s.arrivals + [w], queue := s.queue + [w],
          phase := s.phase[w := Waiting])
    case Lead(w) => SetWork(s, w, MakingRoom)
    case RoomMade(w, status, n, switched) =>
      var t := Switched(s, switched);
      if status.Ok? && s.requests[w].batch.Some? then
        SetWork(t, w, Logging(Group(s.last, s.queue[..n], UpdatesOf(Requests(s.requests, s.queue[..n])))))
      else
        PopGroup(t, Group(s.last, [w], []), status, NoAppend)
    case LogAppended(w, status, size) =>
      var g := s.phase[w].work.group;
      if status.Ok? then
        var t := s.(log := s.log + [LogRecord(g, None, s.file)]);
        if w in s.requests && s.requests[w].sync then SetWork(t, w, Syncing(g)) else SetWork(t, w, StartInserting(g))
      else
        SetWork(s.(log := s.log + [LogRecord(g, Some(size), s.file)]), w, Finishing(g, status, false, TornAppend(size)))
    case LogSynced(w, status) =>
      var g := s.phase[w].work.group;
      if status.Ok? then
        SetWork(s.(synced := s.synced + InFile(s.log, s.file)), w, StartInserting(g))
      else
        SetWork(s, w, Finishing(g, status, true, WholeAppend))
    case Inserted(w) =>
      var Inserting(g, n) := s.phase[w].work;
      var t := s.(mem := s.mem + {g.Entry(n)});
      SetWork(t, w, if n + 1 == |g.updates| then Finishing(g, Ok, false, WholeAppend) else Inserting(g, n + 1))
    case Complete(w) =>
      var Finishing(g, status, syncError, append) := s.phase[w].work;
      PopGroup(if syncError then RecordError(s, status) else s, g, status, append)
    case BackgroundFailed(code) => RecordError(s, Error(code))
  }

  ghost predicate IsRun(s: State, events: seq<Event>, t: State)
    decreases |events|
  {
    if events == [] then s == t else
      Enabled(s, events[0]) && IsRun(Apply(s, events[0]), events[1..], t)
  }

  // ---------------------------------------------------------------- what every step keeps

  function Members(outcomes: seq<Outcome>): seq<nat> {
    if outcomes == [] then [] else Members(outcomes[..|outcomes| - 1]) + outcomes[|outcomes| - 1].group.members
  }

  /** What the groups that have left appended to the log, in order. */
  function Logged(outcomes: seq<Outcome>): seq<LogRecord> {
    if outcomes == [] then [] else Logged(outcomes[..|outcomes| - 1]) + outcomes[|outcomes| - 1].Record()
  }

  /** The entries of the groups that succeeded. */
  function Committed(outcomes: seq<Outcome>): set<Entry> {
    if outcomes == [] then {} else
      var o := outcomes[|outcomes| - 1];
      Committed(outcomes[..|outcomes| - 1]) + if o.status.Ok? then o.group.EntriesUpTo(|o.group.updates|) else {}
  }

  /** Writers leave in the order they came; only the head of the queue may lead. */
  ghost predicate InOrder(arrivals: seq<nat>, left: seq<nat>, queue: seq<nat>, phase: map<nat, Phase>) {
    && Distinct(arrivals) && arrivals == left + queue
    && (forall w :: w in arrivals <==> w in phase)
    && (forall i :: 1 <= i < |queue| ==> phase[queue[i]] == Waiting)
    && (queue != [] ==> !phase[queue[0]].Finished?)
  }

  ghost predicate QueueInv(s: State) {
    InOrder(s.arrivals, Members(s.outcomes), s.queue, s.phase) && s.phase.Keys == s.requests.Keys
  }

  predicate Delivered(phase: map<nat, Phase>, o: Outcome) {
    forall m :: m in o.group.members ==> m in phase && phase[m] == Finished(o.status)
  }

  /** Everyone who has left has the status of the group he left with. */
  ghost predicate DeliveryInv(s: State) {
    forall k :: 0 <= k < |s.outcomes| ==> Delivered(s.phase, s.outcomes[k])
  }

  function Current(s: State): Option<Work> {
    if s.queue != [] && s.queue[0] in s.phase && s.phase[s.queue[0]].Leading?
        then Some(s.phase[s.queue[0]].work) else None
  }

  predicate HasGroup(s: State) {
    Current(s).Some? && !Current(s).value.MakingRoom?
  }

  /** A group is its members' batches in queue order, and a sync writer has a sync leader. */
  ghost predicate GoodGroup(requests: map<nat, Request>, g: Group) {
    && g.members != [] && (forall m :: m in g.members ==> m in requests)
    && requests[g.members[0]].batch.Some?
    && g.updates == UpdatesOf(Requests(requests, g.members))
    && (forall m :: m in g.members && requests[m].sync ==> requests[g.members[0]].sync)
  }

  /** A writer without a batch, or one refused by MakeRoomForWrite, leaves alone and writes nothing. */
  ghost predicate GoodOutcome(requests: map<nat, Request>, o: Outcome) {
    || (GoodGroup(requests, o.group) && (o.status.Ok? ==> o.append.WholeAppend?))
    || (exists w :: o.group.members == [w] && o.group.updates == [] && w in requests && o.append.NoAppend?
                   && (o.status.Error? || requests[w].batch.None?))
  }

  /** The group at work is the front of the queue, and its numbers are the next ones. */
  ghost predicate WorkOk(requests: map<nat, Request>, queue: seq<nat>, last: nat, work: Option<Work>) {
    work.Some? && !work.value.MakingRoom? ==>
      var g := work.value.group;
      && GoodGroup(requests, g) && g.members <= queue && g.before == last
      && (work.value.Syncing? ==> LedBySync(requests, g))
      && (work.value.Inserting? ==> work.value.inserted < |g.updates|)
      && (work.value.Finishing? ==>
           && (work.value.status.Ok? ==> work.value.append.WholeAppend?)
           && (work.value.syncError ==> work.value.status.Error?))
  }

  ghost predicate OutcomesOk(requests: map<nat, Request>, outcomes: seq<Outcome>) {
    forall k :: 0 <= k < |outcomes| ==> GoodOutcome(requests, outcomes[k])
  }

  ghost predicate GroupInv(s: State) {
    OutcomesOk(s.requests, s.outcomes) && WorkOk(s.requests, s.queue, s.last, Current(s))
  }

  /** The outcomes' sequence numbers follow each other without gaps, from `base` to `last`. */
  ghost predicate Tiles(base: nat, outcomes: seq<Outcome>, last: nat)
    decreases |outcomes|
  {
    if outcomes == [] then base == last else
      var g := outcomes[|outcomes| - 1].group;
      Tiles(base, outcomes[..|outcomes| - 1], g.before) && last == g.before + |g.updates|
  }

  /** The entries of the group at work that are in the memtable. */
  ghost function InsertedBy(work: Option<Work>): set<Entry> {
    match work
    case Some(Inserting(g, n)) => if n <= |g.updates| then g.EntriesUpTo(n) else {}
    case Some(Finishing(g, status, _, _)) => if status.Ok? then g.EntriesUpTo(|g.updates|) else {}
    case _ => {}
  }

  ghost function Pending(s: State): set<Entry> {
    InsertedBy(Current(s))
  }

  /** The memtable holds what was there, every succeeded group, and a prefix of the current one. */
  ghost predicate MemInv(mem: set<Entry>, s: State) {
    s.mem == mem + Committed(s.outcomes) + Pending(s)
  }

  function RecordOf(work: Option<Work>, file: nat): seq<LogRecord> {
    match work
    case Some(Syncing(g)) => [LogRecord(g, None, file)]
    case Some(Inserting(g, _)) => [LogRecord(g, None, file)]
    case Some(Finishing(g, _, _, append)) => RecordFor(g, append, file)
    case _ => []
  }

  function PendingLog(s: State): seq<LogRecord> {
    RecordOf(Current(s), s.file)
  }

  /** The record of a group that a sync writer led to success is synced. */
  ghost predicate KeptPromise(requests: map<nat, Request>, outcomes: seq<Outcome>, k: nat, synced: set<nat>)
    requires k < |outcomes|
  {
    outcomes[k].status.Ok? && outcomes[k].append.WholeAppend? && LedBySync(requests, outcomes[k].group) ==>
      |Logged(outcomes[..k])| in synced
  }

  ghost predicate Promises(requests: map<nat, Request>, outcomes: seq<Outcome>, synced: set<nat>) {
    forall k :: 0 <= k < |outcomes| ==> KeptPromise(requests, outcomes, k, synced)
  }

  /** Work past a successful sync. */
  predicate PastSync(work: Option<Work>) {
    work.Some? && (work.value.Inserting? || (work.value.Finishing? && work.value.status.Ok?))
  }

  /** A sync makes a whole file durable, as far as it was written; files follow each other. */
  ghost predicate SyncedFiles(log: seq<LogRecord>, synced: set<nat>, file: nat) {
    && (forall i :: i in synced ==> i < |log|)
    && (forall i, j :: i in synced && 0 <= j <= i && log[j].file == log[i].file ==> j in synced)
    && (forall i, j :: 0 <= i <= j < |log| ==> log[i].file <= log[j].file <= file)
  }

  /** The log holds the groups in the order they were formed; whatever was promised to be on disk
      was synced. */
  ghost predicate LogOk(requests: map<nat, Request>, outcomes: seq<Outcome>, log: seq<LogRecord>, synced: set<nat>,
                        file: nat, work: Option<Work>)
  {
    && log == Logged(outcomes) + RecordOf(work, file)
    && SyncedFiles(log, synced, file)
    && Promises(requests, outcomes, synced)
    && (PastSync(work) && LedBySync(requests, work.value.group) ==> |Logged(outcomes)| in synced)
  }

  ghost predicate LogInv(s: State) {
    LogOk(s.requests, s.outcomes, s.log, s.synced, s.file, Current(s))
  }

  predicate LedBySync(requests: map<nat, Request>, g: Group) {
    g.members != [] && g.members[0] in requests && requests[g.members[0]].sync
  }

  ghost predicate Inv(base: nat, mem: set<Entry>, s: State) {
    QueueInv(s) && DeliveryInv(s) && GroupInv(s) && DataInv(base, mem, s)
  }

  lemma RequestsOfPrefix(requests: map<nat, Request>, ws: seq<nat>, n: nat)
    requires n <= |ws| && forall w :: w in ws ==> w in requests
    ensures Requests(requests, ws[..n]) == Requests(requests, ws)[..n]
  {
  }

  /** A group can always be formed, and only the next writer along can end it. */
  lemma {:induction false} GroupLengthExists(q: seq<Request>, i: nat) returns (n: nat)
    requires 1 <= i <= |q| && q[0].batch.Some?
    requires forall k :: 1 <= k < i ==> Joins(q, k)
    ensures IsGroupLength(q, n)
    ensures forall m :: IsGroupLength(q, m) ==> m == n
    decreases |q| - i
  {
    if i == |q| || !Joins(q, i) {
      n := i;
    } else {
      n := GroupLengthExists(q, i + 1);
    }
  }

  lemma GroupFormed(s: State, w: nat, status: Status, n: nat, switched: nat)
    requires QueueInv(s) && Enabled(s, RoomMade(w, status, n, switched)) && status.Ok? && s.requests[w].batch.Some?
    ensures n <= |s.queue| && GoodGroup(s.requests, Apply(s, RoomMade(w, status, n, switched)).phase[w].work.group)
    ensures s.queue[..n] <= s.queue && Apply(s, RoomMade(w, status, n, switched)).phase[w].work.group.members
            == s.queue[..n]
  {
    var q := Requests(s.requests, s.queue);
    RequestsOfPrefix(s.requests, s.queue, n);
    forall m | m in s.queue[..n] && s.requests[m].sync ensures s.requests[s.queue[0]].sync {
      var i :| 0 <= i < n && s.queue[i] == m;
      if i > 0 {
        assert Joins(q, i);
      }
    }
  }

  lemma MemberIsFinished(s: State, w: nat)
    requires DeliveryInv(s) && w in Members(s.outcomes)
    ensures w in s.phase && s.phase[w].Finished?
  {
    MemberHasOutcome(s.outcomes, w);
    var k :| 0 <= k < |s.outcomes| && w in s.outcomes[k].group.members;
    assert Delivered(s.phase, s.outcomes[k]);
  }

  /** A leader is the head of the queue. */
  lemma LeaderIsHead(s: State, w: nat)
    requires QueueInv(s) && DeliveryInv(s) && IsLeading(s, w)
    ensures s.queue != [] && s.queue[0] == w && Current(s) == Some(s.phase[w].work)
  {
    assert w in s.arrivals;
    if w in Members(s.outcomes) {
      MemberIsFinished(s, w);
    }
    var i :| 0 <= i < |s.queue| && s.queue[i] == w;
  }

  lemma {:induction false} MemberHasOutcome(outcomes: seq<Outcome>, w: nat)
    ensures w in Members(outcomes) <==> exists k :: 0 <= k < |outcomes| && w in outcomes[k].group.members
  {
    if outcomes != [] {
      var n := |outcomes| - 1;
      MemberHasOutcome(outcomes[..n], w);
      if w in Members(outcomes[..n]) {
        var k :| 0 <= k < n && w in outcomes[..n][k].group.members;
        assert outcomes[k] == outcomes[..n][k];
      } else if w in outcomes[n].group.members {
      } else {
        forall k | 0 <= k < |outcomes| ensures w !in outcomes[k].group.members {
          assert k < n ==> outcomes[..n][k] == outcomes[k];
        }
      }
    }
  }

  lemma PopKeepsOrder(arrivals: seq<nat>, left: seq<nat>, queue: seq<nat>, phase: map<nat, Phase>, n: nat,
                      status: Status)
    requires InOrder(arrivals, left, queue, phase) && n <= |queue|
    ensures InOrder(arrivals, left + queue[..n], queue[n..], phase + Leave(queue[..n], status))
    ensures (phase + Leave(queue[..n], status)).Keys == phase.Keys
  {
    assert queue == queue[..n] + queue[n..];
    assert left + queue == left + queue[..n] + queue[n..];
    var after := phase + Leave(queue[..n], status);
    forall m | m in queue[..n] ensures m in phase {
      assert m in queue;
      assert m in arrivals;
    }
    forall i | n <= i < |queue| ensures queue[i] !in queue[..n] && queue[i] in after
        && after[queue[i]] == phase[queue[i]] {
      assert arrivals[|left| + i] == queue[i];
      forall j | 0 <= j < n ensures queue[j] != queue[i] {
        assert arrivals[|left| + j] == queue[j];
      }
    }
    forall i | 0 <= i < |queue| - n ensures after[queue[n..][i]] == phase[queue[n + i]] {
    }
  }

  lemma PopKeepsQueue(s: State, g: Group, status: Status, append: Append)
    requires QueueInv(s) && g.members <= s.queue
    ensures QueueInv(PopGroup(s, g, status, append))
  {
    var t := PopGroup(s, g, status, append);
    var n := |g.members|;
    PopKeepsOrder(s.arrivals, Members(s.outcomes), s.queue, s.phase, n, status);
    hide InOrder;
    assert t.outcomes[..|s.outcomes|] == s.outcomes;
    assert s.queue[..n] == g.members;
  }

  lemma PopKeepsDelivery(s: State, g: Group, status: Status, append: Append)
    requires QueueInv(s) && DeliveryInv(s) && g.members <= s.queue
    ensures DeliveryInv(PopGroup(s, g, status, append))
  {
    var t := PopGroup(s, g, status, append);
    forall k | 0 <= k < |t.outcomes| ensures Delivered(t.phase, t.outcomes[k]) {
      if k < |s.outcomes| {
        assert Delivered(s.phase, s.outcomes[k]);
        forall m | m in s.outcomes[k].group.members ensures m !in g.members {
          MemberHasOutcome(s.outcomes, m);
          NotBoth(s, m);
        }
      }
    }
  }

  lemma NotBoth(s: State, m: nat)
    requires QueueInv(s) && m in Members(s.outcomes)
    ensures m !in s.queue
  {
    var i :| 0 <= i < |Members(s.outcomes)| && Members(s.outcomes)[i] == m;
    forall j | 0 <= j < |s.queue| ensures s.queue[j] != m {
      assert s.arrivals[i] == m && s.arrivals[|Members(s.outcomes)| + j] == s.queue[j];
    }
  }

  lemma QueuedAreOthers(s: State, n: nat)
    requires QueueInv(s) && n <= |s.queue|
    ensures forall i :: n <= i < |s.queue| ==> s.queue[i] !in s.queue[..n]
  {
    var base := |Members(s.outcomes)|;
    forall i, j | n <= i < |s.queue| && 0 <= j < n ensures s.queue[i] != s.queue[j] {
      assert s.arrivals[base + i] == s.queue[i] && s.arrivals[base + j] == s.queue[j];
    }
  }

  lemma ArriveKeepsQueue(s: State, w: nat, r: Request)
    requires QueueInv(s) && DeliveryInv(s) && w !in s.requests
    ensures QueueInv(Apply(s, Arrive(w, r))) && DeliveryInv(Apply(s, Arrive(w, r)))
  {
    var t := Apply(s, Arrive(w, r));
    assert w !in s.arrivals;
    assert t.arrivals == Members(t.outcomes) + t.queue;
    assert forall v :: v in s.queue ==> v in s.arrivals;
    forall k | 0 <= k < |t.outcomes| ensures Delivered(t.phase, t.outcomes[k]) {
      assert Delivered(s.phase, s.outcomes[k]);
    }
  }

  lemma StepKeepsQueue(s: State, e: Event)
    requires QueueInv(s) && DeliveryInv(s) && GroupInv(s) && Enabled(s, e)
    ensures QueueInv(Apply(s, e)) && DeliveryInv(Apply(s, e))
  {
    hide QueueInv, DeliveryInv, GroupInv;
    match e
    case Arrive(w, r) => ArriveKeepsQueue(s, w, r);
    case BackgroundFailed(code) => BackgroundKeepsQueue(s, code);
    case Lead(w) => SetWorkKeepsQueue(s, w, MakingRoom);
    case RoomMade(w, status, n, switched) => RoomMadeKeepsQueue(s, w, status, n, switched);
    case LogAppended(w, _, _) => WorkKeepsQueue(s, e, w);
    case LogSynced(w, _) => WorkKeepsQueue(s, e, w);
    case Inserted(w) => WorkKeepsQueue(s, e, w);
    case Complete(w) => CompleteKeepsQueue(s, w);
  }

  lemma BackgroundKeepsQueue(s: State, code: nat)
    requires QueueInv(s) && DeliveryInv(s)
    ensures QueueInv(RecordError(s, Error(code))) && DeliveryInv(RecordError(s, Error(code)))
  {
  }

  lemma RoomMadeKeepsQueue(s: State, w: nat, status: Status, n: nat, switched: nat)
    requires QueueInv(s) && DeliveryInv(s) && Enabled(s, RoomMade(w, status, n, switched))
    ensures QueueInv(Apply(s, RoomMade(w, status, n, switched)))
            && DeliveryInv(Apply(s, RoomMade(w, status, n, switched)))
  {
    LeaderIsHead(s, w);
    SwitchKeepsQueue(s, switched);
    var t := Switched(s, switched);
    hide QueueInv, DeliveryInv;
    if status.Ok? && s.requests[w].batch.Some? {
      SetWorkKeepsQueue(t, w, Apply(s, RoomMade(w, status, n, switched)).phase[w].work);
    } else {
      PopKeepsQueue(t, Group(s.last, [w], []), status, NoAppend);
      PopKeepsDelivery(t, Group(s.last, [w], []), status, NoAppend);
    }
  }

  lemma SwitchKeepsQueue(s: State, n: nat)
    requires QueueInv(s) && DeliveryInv(s)
    ensures QueueInv(Switched(s, n)) && DeliveryInv(Switched(s, n))
  {
  }

  /** The steps in which only the leader moves on. */
  predicate IsWork(e: Event, w: nat) {
    (e.LogAppended? || e.LogSynced? || e.Inserted?) && e.writer == w
  }

  lemma WorkFrame(s: State, e: Event, w: nat)
    requires IsWork(e, w) && Enabled(s, e)
    ensures var t := Apply(s, e);
      && IsLeading(t, w) && t.phase == s.phase[w := t.phase[w]]
      && t.requests == s.requests && t.arrivals == s.arrivals && t.queue == s.queue && t.outcomes == s.outcomes
      && t.last == s.last && t.bgError == s.bgError
  {
  }

  lemma WorkKeepsQueue(s: State, e: Event, w: nat)
    requires QueueInv(s) && DeliveryInv(s) && IsWork(e, w) && Enabled(s, e)
    ensures QueueInv(Apply(s, e)) && DeliveryInv(Apply(s, e))
    ensures var t := Apply(s, e);
      IsLeading(t, w) && Current(t) == Some(t.phase[w].work) && s.queue != [] && s.queue[0] == w
          && Current(s) == Some(s.phase[w].work)
  {
    var t := Apply(s, e);
    WorkFrame(s, e, w);
    hide Apply, Enabled;
    LeaderIsHead(s, w);
    SetWorkKeepsQueue(s, w, t.phase[w].work);
    var u := SetWork(s, w, t.phase[w].work);
    assert u.phase == t.phase;
    hide InOrder, Delivered;
  }

  lemma CompleteKeepsQueue(s: State, w: nat)
    requires QueueInv(s) && DeliveryInv(s) && GroupInv(s) && Enabled(s, Complete(w))
    ensures QueueInv(Apply(s, Complete(w))) && DeliveryInv(Apply(s, Complete(w)))
  {
    hide QueueInv, DeliveryInv, GroupInv, GoodOutcome;
    CompleteParts(s, w);
    var Finishing(g, status, syncError, append) := s.phase[w].work;
    RecordKeeps(s, status);
    var r := if syncError then RecordError(s, status) else s;
    PopKeepsQueue(r, g, status, append);
    PopKeepsDelivery(r, g, status, append);
  }

  lemma SetWorkKeepsQueue(s: State, w: nat, work: Work)
    requires QueueInv(s) && DeliveryInv(s) && s.queue != [] && s.queue[0] == w
    ensures QueueInv(SetWork(s, w, work)) && DeliveryInv(SetWork(s, w, work))
    ensures Current(SetWork(s, w, work)) == Some(work)
  {
    var t := SetWork(s, w, work);
    QueuedAreOthers(s, 1);
    assert w in s.arrivals;
    forall k | 0 <= k < |t.outcomes| ensures Delivered(t.phase, t.outcomes[k]) {
      assert Delivered(s.phase, s.outcomes[k]);
    }
    assert forall i :: 1 <= i < |s.queue| ==> s.queue[i] !in s.queue[..1];
    assert s.queue[0] in s.queue[..1];
  }

  // ---------------------------------------------------------------- groups

  lemma RequestsGrow(requests: map<nat, Request>, w: nat, r: Request, g: Group)
    requires GoodGroup(requests, g) && w !in requests
    ensures GoodGroup(requests[w := r], g)
  {
    assert Requests(requests[w := r], g.members) == Requests(requests, g.members);
  }

  lemma ArriveKeepsOutcomes(requests: map<nat, Request>, outcomes: seq<Outcome>, w: nat, r: Request)
    requires OutcomesOk(requests, outcomes) && w !in requests
    ensures OutcomesOk(requests[w := r], outcomes)
  {
    forall k | 0 <= k < |outcomes| ensures GoodOutcome(requests[w := r], outcomes[k]) {
      var o := outcomes[k];
      assert GoodOutcome(requests, o);
      if GoodGroup(requests, o.group) {
        RequestsGrow(requests, w, r, o.group);
      }
    }
  }

  lemma ArriveKeepsWork(requests: map<nat, Request>, queue: seq<nat>, last: nat, work: Option<Work>, w: nat, r: Request)
    requires WorkOk(requests, queue, last, work) && w !in requests
    ensures WorkOk(requests[w := r], queue + [w], last, work)
  {
    if work.Some? && !work.value.MakingRoom? {
      RequestsGrow(requests, w, r, work.value.group);
      GoodHasMembers(requests, work.value.group);
    }
    hide GoodGroup;
  }

  lemma ArriveKeepsGroup(s: State, w: nat, r: Request)
    requires QueueInv(s) && GroupInv(s) && w !in s.requests
    ensures GroupInv(Apply(s, Arrive(w, r)))
  {
    hide QueueInv, OutcomesOk, WorkOk, Current;
    ArriveKeepsCurrent(s, w, r);
    ArriveKeepsOutcomes(s.requests, s.outcomes, w, r);
    ArriveKeepsWork(s.requests, s.queue, s.last, Current(s), w, r);
  }

  lemma ArriveKeepsCurrent(s: State, w: nat, r: Request)
    requires QueueInv(s) && w !in s.requests
    ensures Current(Apply(s, Arrive(w, r))) == Current(s)
  {
    if s.queue != [] {
      assert s.queue[0] in s.arrivals;
    }
  }

  /** Once a group has left, the next writer has yet to be woken. */
  lemma PopLeavesNoLeader(s: State, g: Group, status: Status, append: Append)
    requires QueueInv(s) && g.members <= s.queue && g.members != []
    ensures Current(PopGroup(s, g, status, append)) == None
  {
    var t := PopGroup(s, g, status, append);
    var n := |g.members|;
    if t.queue != [] {
      assert t.queue[0] == s.queue[n];
      QueuedAreOthers(s, n);
      assert s.queue[..n] == g.members;
      assert t.queue[0] !in g.members;
    }
  }

  lemma OneMoreOutcome(requests: map<nat, Request>, outcomes: seq<Outcome>, o: Outcome)
    requires OutcomesOk(requests, outcomes) && GoodOutcome(requests, o)
    ensures OutcomesOk(requests, outcomes + [o])
  {
    hide GoodOutcome;
  }

  lemma PopKeepsGroup(s: State, g: Group, status: Status, append: Append)
    requires QueueInv(s) && GroupInv(s) && g.members <= s.queue && g.members != []
    requires GoodOutcome(s.requests, Outcome(g, status, append, s.file))
    ensures GroupInv(PopGroup(s, g, status, append))
  {
    hide QueueInv, OutcomesOk, GoodOutcome, Current;
    PopLeavesNoLeader(s, g, status, append);
    OneMoreOutcome(s.requests, s.outcomes, Outcome(g, status, append, s.file));
  }

  lemma RoomMadeKeepsGroup(s: State, w: nat, status: Status, n: nat, switched: nat)
    requires QueueInv(s) && DeliveryInv(s) && GroupInv(s) && Enabled(s, RoomMade(w, status, n, switched))
    ensures GroupInv(Apply(s, RoomMade(w, status, n, switched)))
  {
    hide QueueInv, DeliveryInv, GroupInv;
    LeaderIsHead(s, w);
    SwitchKeepsQueue(s, switched);
    SwitchKeepsGroup(s, switched);
    var t := Switched(s, switched);
    if status.Ok? && s.requests[w].batch.Some? {
      GroupFormed(s, w, status, n, switched);
      var work := Apply(s, RoomMade(w, status, n, switched)).phase[w].work;
      SetWorkKeepsQueue(t, w, work);
      FormedIsOk(t, w, work);
    } else {
      LonerIsGood(s, w, status, switched);
      PopKeepsGroup(t, Group(s.last, [w], []), status, NoAppend);
    }
  }

  lemma FormedIsOk(t: State, w: nat, work: Work)
    requires GroupInv(t) && work.Logging? && GoodGroup(t.requests, work.group)
    requires work.group.members <= t.queue && work.group.before == t.last
    requires Current(SetWork(t, w, work)) == Some(work)
    ensures GroupInv(SetWork(t, w, work))
  {
    hide GoodGroup, OutcomesOk, Current;
  }

  lemma LonerIsGood(s: State, w: nat, status: Status, switched: nat)
    requires w in s.requests && (status.Error? || s.requests[w].batch.None?)
    ensures GoodOutcome(s.requests, Outcome(Group(s.last, [w], []), status, NoAppend, Switched(s, switched).file))
  {
  }

  lemma SwitchKeepsGroup(s: State, n: nat)
    requires GroupInv(s)
    ensures GroupInv(Switched(s, n))
  {
    hide GoodGroup, GoodOutcome;
  }

  lemma NextWorkIsOk(s: State, e: Event, w: nat)
    requires IsWork(e, w) && Enabled(s, e) && WorkOk(s.requests, s.queue, s.last, Some(s.phase[w].work))
    requires s.queue != [] && s.queue[0] == w
    ensures var t := Apply(s, e); IsLeading(t, w) && WorkOk(s.requests, s.queue, s.last, Some(t.phase[w].work))
  {
    GoodHasMembers(s.requests, s.phase[w].work.group);
    assert s.phase[w].work.group.members[0] == w;
    hide GoodGroup;
  }

  lemma WorkKeepsGroup(s: State, e: Event, w: nat)
    requires QueueInv(s) && DeliveryInv(s) && GroupInv(s) && IsWork(e, w) && Enabled(s, e)
    ensures GroupInv(Apply(s, e))
  {
    WorkFrame(s, e, w);
    hide QueueInv, DeliveryInv, OutcomesOk, WorkOk, Current, Apply, Enabled;
    WorkKeepsQueue(s, e, w);
    NextWorkIsOk(s, e, w);
  }

  /** What Complete finds. */
  lemma CompleteParts(s: State, w: nat)
    requires QueueInv(s) && DeliveryInv(s) && GroupInv(s) && Enabled(s, Complete(w))
    ensures var Finishing(g, status, syncError, append) := s.phase[w].work;
      && g.members <= s.queue && g.members != [] && g.before == s.last
      && (syncError ==> status.Error?)
      && GoodOutcome(s.requests, Outcome(g, status, append, s.file))
      && Current(s) == Some(s.phase[w].work)
  {
    hide QueueInv, DeliveryInv;
    LeaderIsHead(s, w);
    GoodHasMembers(s.requests, s.phase[w].work.group);
    hide GoodGroup;
  }

  lemma RecordKeeps(s: State, error: Status)
    ensures QueueInv(s) ==> QueueInv(RecordError(s, error))
    ensures DeliveryInv(s) ==> DeliveryInv(RecordError(s, error))
    ensures GroupInv(s) ==> GroupInv(RecordError(s, error))
    ensures Current(RecordError(s, error)) == Current(s)
  {
    hide InOrder, OutcomesOk, WorkOk;
  }

  lemma CompleteKeepsGroup(s: State, w: nat)
    requires QueueInv(s) && DeliveryInv(s) && GroupInv(s) && Enabled(s, Complete(w))
    ensures GroupInv(Apply(s, Complete(w)))
  {
    hide QueueInv, DeliveryInv, GroupInv, GoodOutcome;
    CompleteParts(s, w);
    var Finishing(g, status, syncError, append) := s.phase[w].work;
    RecordKeeps(s, status);
    PopKeepsGroup(if syncError then RecordError(s, status) else s, g, status, append);
  }

  lemma StepKeepsGroup(s: State, e: Event)
    requires QueueInv(s) && DeliveryInv(s) && GroupInv(s) && Enabled(s, e)
    ensures GroupInv(Apply(s, e))
  {
    hide QueueInv, DeliveryInv, GoodGroup, GoodOutcome;
    match e
    case Arrive(w, r) => ArriveKeepsGroup(s, w, r);
    case BackgroundFailed(code) =>
    case Lead(w) => SetWorkKeepsQueue(s, w, MakingRoom);
    case RoomMade(w, status, n, switched) => RoomMadeKeepsGroup(s, w, status, n, switched);
    case LogAppended(w, _, _) => WorkKeepsGroup(s, e, w);
    case LogSynced(w, _) => WorkKeepsGroup(s, e, w);
    case Inserted(w) => WorkKeepsGroup(s, e, w);
    case Complete(w) => CompleteKeepsGroup(s, w);
  }

  // ---------------------------------------------------------------- sequence numbers, memtable and log

  ghost predicate DataInv(base: nat, mem: set<Entry>, s: State) {
    Tiles(base, s.outcomes, s.last) && MemInv(mem, s) && LogInv(s)
  }

  lemma ArriveKeepsLog(s: State, w: nat, r: Request)
    requires GroupInv(s) && LogInv(s) && w !in s.requests
    ensures LogOk(s.requests[w := r], s.outcomes, s.log, s.synced, s.file, Current(s))
  {
    hide Logged;
    var requests := s.requests[w := r];
    forall k | 0 <= k < |s.outcomes| ensures KeptPromise(requests, s.outcomes, k, s.synced) {
      assert KeptPromise(s.requests, s.outcomes, k, s.synced) && GoodOutcome(s.requests, s.outcomes[k]);
    }
    if HasGroup(s) {
      assert GoodGroup(s.requests, Current(s).value.group);
    }
    hide KeptPromise, GoodGroup, GoodOutcome;
  }

  lemma ArriveKeepsData(base: nat, mem: set<Entry>, s: State, w: nat, r: Request)
    requires QueueInv(s) && GroupInv(s) && DataInv(base, mem, s) && w !in s.requests
    ensures DataInv(base, mem, Apply(s, Arrive(w, r)))
  {
    ArriveKeepsCurrent(s, w, r);
    ArriveKeepsLog(s, w, r);
    hide QueueInv, GroupInv, LogOk, Current;
  }

  lemma OneMore(outcomes: seq<Outcome>, o: Outcome)
    ensures Logged(outcomes + [o]) == Logged(outcomes) + o.Record()
    ensures Committed(outcomes + [o]) == Committed(outcomes) +
            if o.status.Ok? then o.group.EntriesUpTo(|o.group.updates|) else {}
    ensures forall base :: Tiles(base, outcomes, o.group.before) ==>
      Tiles(base, outcomes + [o], o.group.before + |o.group.updates|)
  {
    assert (outcomes + [o])[..|outcomes|] == outcomes;
  }

  lemma PromisesExtend(requests: map<nat, Request>, outcomes: seq<Outcome>, o: Outcome, synced: set<nat>)
    requires Promises(requests, outcomes, synced)
    requires o.status.Ok? && o.append.WholeAppend? && LedBySync(requests, o.group) ==> |Logged(outcomes)| in synced
    ensures Promises(requests, outcomes + [o], synced)
  {
    forall k | 0 <= k < |outcomes + [o]| ensures KeptPromise(requests, outcomes + [o], k, synced) {
      if k < |outcomes| {
        assert KeptPromise(requests, outcomes, k, synced);
        assert (outcomes + [o])[..k] == outcomes[..k];
      } else {
        assert (outcomes + [o])[..k] == outcomes;
      }
    }
  }

  lemma LeaverKeepsLog(requests: map<nat, Request>, outcomes: seq<Outcome>, log: seq<LogRecord>, synced: set<nat>,
                       file: nat, o: Outcome)
    requires log == Logged(outcomes) + o.Record()
    requires SyncedFiles(log, synced, file) && Promises(requests, outcomes, synced)
    requires o.status.Ok? && o.append.WholeAppend? && LedBySync(requests, o.group) ==> |Logged(outcomes)| in synced
    ensures LogOk(requests, outcomes + [o], log, synced, file, None)
  {
    hide Logged, Promises, LedBySync, SyncedFiles, RecordFor;
    OneMore(outcomes, o);
    PromisesExtend(requests, outcomes, o, synced);
  }

  lemma LeaverKeepsMem(mem: set<Entry>, s: State, g: Group, status: Status, append: Append)
    requires Current(PopGroup(s, g, status, append)) == None
    requires s.mem == mem + Committed(s.outcomes) + if status.Ok? then g.EntriesUpTo(|g.updates|) else {}
    ensures MemInv(mem, PopGroup(s, g, status, append))
  {
    hide Committed, Current;
    OneMore(s.outcomes, Outcome(g, status, append, s.file));
  }

  /** A group leaves: its sequence numbers, entries and record become part of the past. */
  lemma PopKeepsData(base: nat, mem: set<Entry>, s: State, g: Group, status: Status, append: Append)
    requires QueueInv(s) && g.members <= s.queue && g.members != []
    requires Tiles(base, s.outcomes, s.last) && g.before == s.last
    requires s.mem == mem + Committed(s.outcomes) + if status.Ok? then g.EntriesUpTo(|g.updates|) else {}
    requires s.log == Logged(s.outcomes) + RecordFor(g, append, s.file)
    requires SyncedFiles(s.log, s.synced, s.file) && Promises(s.requests, s.outcomes, s.synced)
    requires status.Ok? && append.WholeAppend? && LedBySync(s.requests, g) ==> |Logged(s.outcomes)| in s.synced
    ensures DataInv(base, mem, PopGroup(s, g, status, append))
  {
    hide QueueInv, Tiles, Committed, Logged, Promises, LedBySync, SyncedFiles, RecordFor, Current, MemInv, LogOk;
    var o := Outcome(g, status, append, s.file);
    PopLeavesNoLeader(s, g, status, append);
    OneMore(s.outcomes, o);
    LeaverKeepsLog(s.requests, s.outcomes, s.log, s.synced, s.file, o);
    LeaverKeepsMem(mem, s, g, status, append);
  }

  lemma LogParts(s: State)
    requires LogInv(s)
    ensures s.log == Logged(s.outcomes) + PendingLog(s)
    ensures SyncedFiles(s.log, s.synced, s.file) && Promises(s.requests, s.outcomes, s.synced)
    ensures PastSync(Current(s)) && LedBySync(s.requests, Current(s).value.group) ==> |Logged(s.outcomes)| in s.synced
  {
    hide Logged, Promises, LedBySync, SyncedFiles, Current, RecordFor;
  }

  lemma MakingRoomParts(base: nat, mem: set<Entry>, s: State)
    requires DataInv(base, mem, s) && Current(s) == Some(MakingRoom)
    ensures s.mem == mem + Committed(s.outcomes) && s.log == Logged(s.outcomes)
    ensures SyncedFiles(s.log, s.synced, s.file) && Promises(s.requests, s.outcomes, s.synced)
  {
    hide Tiles, Promises, SyncedFiles, Current, Logged, Committed;
  }

  lemma FormedKeepsData(base: nat, mem: set<Entry>, s: State, w: nat, work: Work)
    requires DataInv(base, mem, s) && Current(s) == Some(MakingRoom)
    requires work.Logging? && Current(SetWork(s, w, work)) == Some(work)
    ensures DataInv(base, mem, SetWork(s, w, work))
  {
    hide Tiles, Promises, SyncedFiles, Current, Logged, Committed;
  }

  lemma RoomMadeKeepsData(base: nat, mem: set<Entry>, s: State, w: nat, status: Status, n: nat, switched: nat)
    requires QueueInv(s) && DeliveryInv(s) && DataInv(base, mem, s) && Enabled(s, RoomMade(w, status, n, switched))
    ensures DataInv(base, mem, Apply(s, RoomMade(w, status, n, switched)))
  {
    hide QueueInv, DeliveryInv, DataInv, Current, Promises, SyncedFiles, Tiles, Committed, Logged, LedBySync;
    LeaderIsHead(s, w);
    SwitchKeepsQueue(s, switched);
    SwitchKeepsData(base, mem, s, w, switched);
    var t := Switched(s, switched);
    if status.Ok? && s.requests[w].batch.Some? {
      var work := Apply(s, RoomMade(w, status, n, switched)).phase[w].work;
      SetWorkKeepsQueue(t, w, work);
      FormedKeepsData(base, mem, t, w, work);
    } else {
      var g := Group(s.last, [w], []);
      assert g.EntriesUpTo(0) == {};
      MakingRoomParts(base, mem, t);
      TilesParts(base, mem, t);
      PopKeepsData(base, mem, t, g, status, NoAppend);
    }
  }

  lemma TilesParts(base: nat, mem: set<Entry>, s: State)
    requires DataInv(base, mem, s)
    ensures Tiles(base, s.outcomes, s.last)
  {
    hide Tiles, LogInv, MemInv;
  }

  lemma SwitchKeepsData(base: nat, mem: set<Entry>, s: State, w: nat, n: nat)
    requires DataInv(base, mem, s) && Current(s) == Some(MakingRoom)
    ensures DataInv(base, mem, Switched(s, n)) && Current(Switched(s, n)) == Some(MakingRoom)
  {
    hide Promises, Tiles, Logged, Committed;
  }

  lemma NextWorkInserts(s: State, e: Event, w: nat)
    requires IsWork(e, w) && Enabled(s, e) && WorkOk(s.requests, s.queue, s.last, Some(s.phase[w].work))
    ensures var t := Apply(s, e);
      && IsLeading(t, w)
      && (e.Inserted? ==>
           var g, n := s.phase[w].work.group, s.phase[w].work.inserted;
           t.mem == s.mem + {g.Entry(n)} && InsertedBy(Some(t.phase[w].work))
               == InsertedBy(Some(s.phase[w].work)) + {g.Entry(n)})
      && (!e.Inserted? ==>
           t.mem == s.mem && InsertedBy(Some(t.phase[w].work)) == InsertedBy(Some(s.phase[w].work)) == {})
  {
    var g := s.phase[w].work.group;
    hide GoodGroup;
    if e.Inserted? {
      InsertedOne(g, s.phase[w].work.inserted);
    } else {
      assert g.EntriesUpTo(0) == {};
    }
  }

  lemma WorkKeepsMem(mem: set<Entry>, s: State, e: Event, w: nat)
    requires QueueInv(s) && DeliveryInv(s) && GroupInv(s) && MemInv(mem, s) && IsWork(e, w) && Enabled(s, e)
    ensures MemInv(mem, Apply(s, e))
  {
    WorkFrame(s, e, w);
    hide QueueInv, DeliveryInv, Committed, Current, InsertedBy, WorkOk, OutcomesOk, Apply, Enabled;
    WorkKeepsQueue(s, e, w);
    NextWorkInserts(s, e, w);
  }

  lemma PromisesSurvive(requests: map<nat, Request>, outcomes: seq<Outcome>, before: set<nat>, after: set<nat>)
    requires Promises(requests, outcomes, before) && before <= after
    ensures Promises(requests, outcomes, after)
  {
    forall k | 0 <= k < |outcomes| ensures KeptPromise(requests, outcomes, k, after) {
      assert KeptPromise(requests, outcomes, k, before);
    }
  }

  /** The leader at work before and after a step of his. */
  lemma AtWork(s: State, e: Event, w: nat)
    requires QueueInv(s) && DeliveryInv(s) && GroupInv(s) && IsWork(e, w) && Enabled(s, e)
    ensures Current(s) == Some(s.phase[w].work) && HasGroup(s)
    ensures var g := Current(s).value.group; g.members != [] && g.members[0] == w
    ensures var t := Apply(s, e); IsLeading(t, w) && Current(t) == Some(t.phase[w].work)
  {
    WorkKeepsQueue(s, e, w);
    hide QueueInv, DeliveryInv, GoodGroup, GoodOutcome, Apply;
    assert GoodGroup(s.requests, Current(s).value.group);
    assert Current(s).value.group.members != [] by {
      GoodHasMembers(s.requests, Current(s).value.group);
    }
  }

  lemma GoodHasMembers(requests: map<nat, Request>, g: Group)
    requires GoodGroup(requests, g)
    ensures g.members != []
  {
  }

  lemma AppendKeepsFiles(log: seq<LogRecord>, synced: set<nat>, file: nat, r: LogRecord)
    requires SyncedFiles(log, synced, file) && r.file == file
    ensures SyncedFiles(log + [r], synced, file)
  {
  }

  /** What the leader does after an append. */
  function AfterAppend(requests: map<nat, Request>, g: Group, status: Status, size: nat): Work {
    if status.Error? then Finishing(g, status, false, TornAppend(size))
    else if LedBySync(requests, g) then Syncing(g)
    else StartInserting(g)
  }

  lemma AppendKeepsLogOk(requests: map<nat, Request>, outcomes: seq<Outcome>, log: seq<LogRecord>, synced: set<nat>,
                         file: nat, g: Group, status: Status, size: nat)
    requires LogOk(requests, outcomes, log, synced, file, Some(Logging(g)))
    ensures var r := LogRecord(g, if status.Ok? then None else Some(size), file);
      LogOk(requests, outcomes, log + [r], synced, file, Some(AfterAppend(requests, g, status, size)))
  {
    AppendKeepsFiles(log, synced, file, LogRecord(g, if status.Ok? then None else Some(size), file));
    hide Logged, Promises, SyncedFiles, LedBySync;
  }

  lemma AppendKeepsLog(s: State, w: nat, status: Status, size: nat)
    requires QueueInv(s) && DeliveryInv(s) && GroupInv(s) && LogInv(s) && Enabled(s, LogAppended(w, status, size))
    ensures LogInv(Apply(s, LogAppended(w, status, size)))
  {
    AtWork(s, LogAppended(w, status, size), w);
    AppendKeepsLogOk(s.requests, s.outcomes, s.log, s.synced, s.file, s.phase[w].work.group, status, size);
    hide QueueInv, DeliveryInv, GroupInv, Current, LogOk;
  }

  lemma SyncKeepsFiles(log: seq<LogRecord>, synced: set<nat>, file: nat)
    requires SyncedFiles(log, synced, file)
    ensures SyncedFiles(log, synced + InFile(log, file), file)
  {
  }

  lemma SyncedLogOk(requests: map<nat, Request>, outcomes: seq<Outcome>, log: seq<LogRecord>, synced: set<nat>,
                    file: nat, g: Group, status: Status)
    requires LogOk(requests, outcomes, log, synced, file, Some(Syncing(g)))
    ensures LogOk(requests, outcomes, log, synced + InFile(log, file), file, Some(StartInserting(g)))
    ensures status.Error? ==> LogOk(requests, outcomes, log, synced, file,
            Some(Finishing(g, status, true, WholeAppend)))
  {
    SyncKeepsFiles(log, synced, file);
    PromisesSurvive(requests, outcomes, synced, synced + InFile(log, file));
    assert log[|Logged(outcomes)|] == LogRecord(g, None, file);
    assert |Logged(outcomes)| in InFile(log, file);
    hide Logged, Promises, SyncedFiles, LedBySync, InFile;
  }

  lemma SyncKeepsLog(s: State, w: nat, status: Status)
    requires QueueInv(s) && DeliveryInv(s) && GroupInv(s) && LogInv(s) && Enabled(s, LogSynced(w, status))
    ensures LogInv(Apply(s, LogSynced(w, status)))
  {
    hide QueueInv, DeliveryInv, GroupInv, LogOk, Current, StartInserting;
    AtWork(s, LogSynced(w, status), w);
    SyncedLogOk(s.requests, s.outcomes, s.log, s.synced, s.file, s.phase[w].work.group, status);
  }

  lemma InsertKeepsLog(s: State, w: nat)
    requires QueueInv(s) && DeliveryInv(s) && GroupInv(s) && LogInv(s) && Enabled(s, Inserted(w))
    ensures LogInv(Apply(s, Inserted(w)))
  {
    AtWork(s, Inserted(w), w);
    hide QueueInv, DeliveryInv, GroupInv, Logged, Promises, Current;
  }

  lemma WorkKeepsData(base: nat, mem: set<Entry>, s: State, e: Event, w: nat)
    requires QueueInv(s) && DeliveryInv(s) && GroupInv(s) && DataInv(base, mem, s) && IsWork(e, w) && Enabled(s, e)
    ensures DataInv(base, mem, Apply(s, e))
  {
    WorkFrame(s, e, w);
    hide QueueInv, DeliveryInv, GroupInv, MemInv, LogInv, Apply, Enabled;
    WorkKeepsMem(mem, s, e, w);
    match e
    case LogAppended(_, status, size) => AppendKeepsLog(s, w, status, size);
    case LogSynced(_, status) => SyncKeepsLog(s, w, status);
    case Inserted(_) => InsertKeepsLog(s, w);
  }

  lemma InsertedOne(g: Group, n: nat)
    requires n < |g.updates|
    ensures g.EntriesUpTo(n + 1) == g.EntriesUpTo(n) + {g.Entry(n)}
  {
  }

  /** What Complete finds in the memtable and the log. */
  lemma FinishingParts(base: nat, mem: set<Entry>, s: State, g: Group, status: Status, syncError: bool, append: Append)
    requires DataInv(base, mem, s) && Current(s) == Some(Finishing(g, status, syncError, append))
    ensures Tiles(base, s.outcomes, s.last)
    ensures s.mem == mem + Committed(s.outcomes) + if status.Ok? then g.EntriesUpTo(|g.updates|) else {}
    ensures s.log == Logged(s.outcomes) + RecordFor(g, append, s.file)
    ensures SyncedFiles(s.log, s.synced, s.file) && Promises(s.requests, s.outcomes, s.synced)
    ensures status.Ok? && append.WholeAppend? && LedBySync(s.requests, g) ==> |Logged(s.outcomes)| in s.synced
  {
    hide Tiles, Promises, SyncedFiles, Current, Logged, Committed, LedBySync, RecordFor;
  }

  lemma CompleteKeepsData(base: nat, mem: set<Entry>, s: State, w: nat)
    requires QueueInv(s) && DeliveryInv(s) && GroupInv(s) && DataInv(base, mem, s) && Enabled(s, Complete(w))
    ensures DataInv(base, mem, Apply(s, Complete(w)))
  {
    hide QueueInv, DeliveryInv, GroupInv, DataInv, GoodOutcome, Current, Tiles, Committed, Logged, Promises,
         SyncedFiles, LedBySync,
         RecordFor;
    CompleteParts(s, w);
    var Finishing(g, status, syncError, append) := s.phase[w].work;
    FinishingParts(base, mem, s, g, status, syncError, append);
    RecordKeeps(s, status);
    PopKeepsData(base, mem, if syncError then RecordError(s, status) else s, g, status, append);
  }

  lemma LeadKeepsData(base: nat, mem: set<Entry>, s: State, w: nat)
    requires QueueInv(s) && DeliveryInv(s) && DataInv(base, mem, s) && Enabled(s, Lead(w))
    ensures DataInv(base, mem, Apply(s, Lead(w)))
  {
    SetWorkKeepsQueue(s, w, MakingRoom);
    hide QueueInv, DeliveryInv;
  }

  lemma StepKeepsData(base: nat, mem: set<Entry>, s: State, e: Event)
    requires QueueInv(s) && DeliveryInv(s) && GroupInv(s) && DataInv(base, mem, s) && Enabled(s, e)
    ensures DataInv(base, mem, Apply(s, e))
  {
    hide QueueInv, DeliveryInv, GroupInv;
    match e
    case Arrive(w, r) => ArriveKeepsData(base, mem, s, w, r);
    case BackgroundFailed(code) =>
    case Lead(w) => LeadKeepsData(base, mem, s, w);
    case RoomMade(w, status, n, switched) => RoomMadeKeepsData(base, mem, s, w, status, n, switched);
    case LogAppended(w, _, _) => WorkKeepsData(base, mem, s, e, w);
    case LogSynced(w, _) => WorkKeepsData(base, mem, s, e, w);
    case Inserted(w) => WorkKeepsData(base, mem, s, e, w);
    case Complete(w) => CompleteKeepsData(base, mem, s, w);
  }

  // ---------------------------------------------------------------- every run

  lemma StepKeepsInv(base: nat, mem: set<Entry>, s: State, e: Event)
    requires Inv(base, mem, s) && Enabled(s, e)
    ensures Inv(base, mem, Apply(s, e))
  {
    hide QueueInv, DeliveryInv, GroupInv, DataInv, Apply, Enabled;
    StepKeepsQueue(s, e);
    StepKeepsGroup(s, e);
    StepKeepsData(base, mem, s, e);
  }

  /** Any interleaving of writers, started with an empty queue at sequence number `base`. */
  lemma {:induction false} RunKeepsInv(base: nat, mem: set<Entry>, s: State, events: seq<Event>, t: State)
    requires Inv(base, mem, s) && IsRun(s, events, t)
    ensures Inv(base, mem, t)
    decreases |events|
  {
    hide Inv, Enabled, Apply;
    if events != [] {
      StepKeepsInv(base, mem, s, events[0]);
      RunKeepsInv(base, mem, Apply(s, events[0]), events[1..], t);
    }
  }

  lemma InitialInv(base: nat, mem: set<Entry>)
    ensures Inv(base, mem, Initial(base, mem))
  {
  }

  lemma RunInv(base: nat, mem: set<Entry>, events: seq<Event>, s: State)
    requires IsRun(Initial(base, mem), events, s)
    ensures QueueInv(s) && DeliveryInv(s) && GroupInv(s) && DataInv(base, mem, s) && Inv(base, mem, s)
  {
    hide IsRun, QueueInv, DeliveryInv, GroupInv, DataInv, Initial;
    InitialInv(base, mem);
    RunKeepsInv(base, mem, Initial(base, mem), events, s);
  }

  /** At most one writer leads at a time: the head of the queue. */
  lemma OneLeader(base: nat, mem: set<Entry>, events: seq<Event>, s: State, w: nat)
    requires IsRun(Initial(base, mem), events, s) && IsLeading(s, w)
    ensures s.queue != [] && s.queue[0] == w
    ensures forall v :: IsLeading(s, v) ==> v == w
  {
    RunInv(base, mem, events, s);
    hide IsRun, QueueInv, DeliveryInv, GroupInv, DataInv;
    forall v | IsLeading(s, v) ensures s.queue != [] && v == s.queue[0] {
      LeaderIsHead(s, v);
    }
  }

  ghost predicate LeftIn(outcomes: seq<Outcome>, k: int, w: nat) {
    0 <= k < |outcomes| && w in outcomes[k].group.members
  }

  /** Every writer that arrived either still waits or has left, once, in the order of arrival, and
      with the status of the group it left in. */
  lemma CompletesOnce(base: nat, mem: set<Entry>, events: seq<Event>, s: State)
    requires IsRun(Initial(base, mem), events, s)
    ensures s.arrivals == Members(s.outcomes) + s.queue && Distinct(s.arrivals)
    ensures forall w, status :: w in s.phase && s.phase[w] == Finished(status) ==>
      exists k :: LeftIn(s.outcomes, k, w) && s.outcomes[k].status == status
    ensures forall w, j, k :: LeftIn(s.outcomes, j, w) && LeftIn(s.outcomes, k, w) ==> j == k
    ensures forall w, k :: LeftIn(s.outcomes, k, w) ==> w in s.phase && s.phase[w] == Finished(s.outcomes[k].status)
  {
    RunInv(base, mem, events, s);
    hide *;
    QueueParts(s);
    forall w, k | LeftIn(s.outcomes, k, w) ensures w in s.phase && s.phase[w] == Finished(s.outcomes[k].status) {
      LeaverIsTold(s, k, w);
    }
    forall w, status | w in s.phase && s.phase[w] == Finished(status)
      ensures exists k :: LeftIn(s.outcomes, k, w) && s.outcomes[k].status == status
    {
      var k := ToldHasLeft(s, w);
    }
    forall w, j, k | LeftIn(s.outcomes, j, w) && LeftIn(s.outcomes, k, w) ensures j == k {
      LeavesOnce(s.outcomes, w, j, k);
    }
  }

  lemma QueueParts(s: State)
    requires QueueInv(s)
    ensures s.arrivals == Members(s.outcomes) + s.queue && Distinct(s.arrivals) && Distinct(Members(s.outcomes))
  {
    assert forall i :: 0 <= i < |Members(s.outcomes)| ==> Members(s.outcomes)[i] == s.arrivals[i];
  }

  lemma LeaverIsTold(s: State, k: int, w: nat)
    requires DeliveryInv(s) && LeftIn(s.outcomes, k, w)
    ensures w in s.phase && s.phase[w] == Finished(s.outcomes[k].status)
  {
    assert Delivered(s.phase, s.outcomes[k]);
  }

  lemma ToldHasLeft(s: State, w: nat) returns (k: int)
    requires QueueInv(s) && DeliveryInv(s) && w in s.phase && s.phase[w].Finished?
    ensures LeftIn(s.outcomes, k, w) && s.phase[w] == Finished(s.outcomes[k].status)
  {
    FinishedHasLeft(s, w);
    hide QueueInv;
    MemberHasOutcome(s.outcomes, w);
    k :| 0 <= k < |s.outcomes| && w in s.outcomes[k].group.members;
    LeaverIsTold(s, k, w);
  }

  lemma FinishedHasLeft(s: State, w: nat)
    requires QueueInv(s) && w in s.phase && s.phase[w].Finished?
    ensures w in Members(s.outcomes)
  {
    assert w in s.arrivals;
    if w in s.queue {
      var i :| 0 <= i < |s.queue| && s.queue[i] == w;
    }
  }

  lemma DistinctParts(a: seq<nat>, b: seq<nat>, w: nat)
    requires Distinct(a + b)
    ensures w in a ==> w !in b
  {
    forall p, q | 0 <= p < |a| && 0 <= q < |b| ensures a[p] != b[q] {
      assert (a + b)[p] == a[p] && (a + b)[|a| + q] == b[q];
    }
  }

  lemma {:induction false} LeavesOnce(outcomes: seq<Outcome>, w: nat, j: int, k: int)
    requires Distinct(Members(outcomes)) && LeftIn(outcomes, j, w) && LeftIn(outcomes, k, w)
    ensures j == k
  {
    var n := |outcomes| - 1;
    var early, late := Members(outcomes[..n]), outcomes[n].group.members;
    assert Members(outcomes) == early + late;
    if j < n && k < n {
      assert forall i :: 0 <= i < |early| ==> early[i] == Members(outcomes)[i];
      LeavesOnce(outcomes[..n], w, j, k);
    } else if j != k {
      var i := if j < n then j else k;
      assert outcomes[..n][i] == outcomes[i];
      MemberHasOutcome(outcomes[..n], w);
      DistinctParts(early, late, w);
    }
  }

  // ---------------------------------------------------------------- what the log and the readers see

  function Flat(log: seq<LogRecord>): seq<nat> {
    if log == [] then [] else Flat(log[..|log| - 1]) + log[|log| - 1].group.members
  }

  /** `a` is `b` with some elements left out; at[i] is where a's i-th element stands in b. */
  ghost predicate Embeds(a: seq<nat>, b: seq<nat>, at: seq<nat>) {
    && |at| == |a|
    && (forall i :: 0 <= i < |at| ==> at[i] < |b| && b[at[i]] == a[i])
    && (forall i, j :: 0 <= i < j < |at| ==> at[i] < at[j])
  }

  lemma EmbedsMore(a: seq<nat>, b: seq<nat>, at: seq<nat>, more: seq<nat>, rest: seq<nat>) returns (r: seq<nat>)
    requires Embeds(a, b, at)
    ensures Embeds(a + more, b + more + rest, r)
  {
    r := at + seq(|more|, i => |b| + i);
  }

  lemma FlatAppends(log: seq<LogRecord>, r: LogRecord)
    ensures Flat(log + [r]) == Flat(log) + r.group.members
  {
    assert (log + [r])[..|log|] == log;
  }

  lemma FlatRecord(log: seq<LogRecord>, o: Outcome)
    ensures Flat(log + o.Record()) == Flat(log) + if o.append.NoAppend? then [] else o.group.members
  {
    hide Flat;
    if o.append.NoAppend? {
      assert log + [] == log;
    } else {
      FlatAppends(log, o.Record()[0]);
    }
  }

  lemma LoggedLast(outcomes: seq<Outcome>)
    requires outcomes != []
    ensures var front, o := outcomes[..|outcomes| - 1], outcomes[|outcomes| - 1];
      Logged(outcomes) == Logged(front) + o.Record() && Members(outcomes) == Members(front) + o.group.members
  {
    hide RecordFor;
  }

  lemma {:induction false} LoggedEmbeds(outcomes: seq<Outcome>) returns (at: seq<nat>)
    ensures Embeds(Flat(Logged(outcomes)), Members(outcomes), at)
  {
    if outcomes == [] {
      at := [];
    } else {
      hide *;
      var front, o := outcomes[..|outcomes| - 1], outcomes[|outcomes| - 1];
      at := LoggedEmbeds(front);
      LoggedLast(outcomes);
      FlatRecord(Logged(front), o);
      var more := if o.append.NoAppend? then [] else o.group.members;
      var rest := if o.append.NoAppend? then o.group.members else [];
      at := EmbedsMore(Flat(Logged(front)), Members(front), at, more, rest);
      assert more + rest == o.group.members;
      Regroup(Members(front), more, rest);
    }
  }

  /** The batches reach the log in the order their writers arrived, and every record is the
      concatenation of its members' batches. */
  lemma LogFollowsArrivals(base: nat, mem: set<Entry>, events: seq<Event>, s: State) returns (at: seq<nat>)
    requires IsRun(Initial(base, mem), events, s)
    ensures Embeds(Flat(s.log), s.arrivals, at)
    ensures forall i :: 0 <= i < |s.log| ==> GoodGroup(s.requests, s.log[i].group)
  {
    RunInv(base, mem, events, s);
    hide IsRun, QueueInv, GroupInv, LogInv;
    at := LogEmbeds(s);
    LogIsGood(s);
  }

  lemma LogEmbeds(s: State) returns (at: seq<nat>)
    requires QueueInv(s) && GroupInv(s) && LogInv(s)
    ensures Embeds(Flat(s.log), s.arrivals, at)
  {
    var members, rest := LogShape(s);
    hide *;
    at := LoggedEmbeds(s.outcomes);
    at := EmbedsMore(Flat(Logged(s.outcomes)), Members(s.outcomes), at, members, rest);
  }

  lemma PendingParts(s: State)
    requires GroupInv(s) && LogInv(s)
    ensures s.log == Logged(s.outcomes) + PendingLog(s)
    ensures PendingLog(s) == [] || (|PendingLog(s)| == 1 && PendingLog(s)[0].group.members <= s.queue)
  {
    hide OutcomesOk, Logged, Promises, SyncedFiles, GoodGroup;
  }

  lemma LogShape(s: State) returns (members: seq<nat>, rest: seq<nat>)
    requires QueueInv(s) && GroupInv(s) && LogInv(s)
    ensures Flat(s.log) == Flat(Logged(s.outcomes)) + members
    ensures s.arrivals == Members(s.outcomes) + members + rest
  {
    hide *;
    QueueParts(s);
    PendingParts(s);
    members := [];
    if PendingLog(s) == [] {
      assert s.log == Logged(s.outcomes);
    } else {
      members := PendingLog(s)[0].group.members;
      assert PendingLog(s) == [PendingLog(s)[0]];
      FlatAppends(Logged(s.outcomes), PendingLog(s)[0]);
    }
    rest := s.queue[|members|..];
    Regroup(Members(s.outcomes), members, rest);
    assert s.queue == members + rest;
  }

  lemma LogIsGood(s: State)
    requires GroupInv(s) && LogInv(s)
    ensures forall i :: 0 <= i < |s.log| ==> GoodGroup(s.requests, s.log[i].group)
  {
    hide GoodGroup, GoodOutcome, Logged;
    forall i | 0 <= i < |s.log| ensures GoodGroup(s.requests, s.log[i].group) {
      if i < |Logged(s.outcomes)| {
        LoggedIsGood(s.requests, s.outcomes, i);
      }
    }
  }

  lemma {:induction false} LoggedIsGood(requests: map<nat, Request>, outcomes: seq<Outcome>, i: nat)
    requires forall k :: 0 <= k < |outcomes| ==> GoodOutcome(requests, outcomes[k])
    requires i < |Logged(outcomes)|
    ensures GoodGroup(requests, Logged(outcomes)[i].group)
  {
    var n := |outcomes| - 1;
    if i < |Logged(outcomes[..n])| {
      assert forall k :: 0 <= k < n ==> outcomes[..n][k] == outcomes[k];
      LoggedIsGood(requests, outcomes[..n], i);
    } else {
      assert GoodOutcome(requests, outcomes[n]);
    }
  }

  lemma {:induction false} LoggedAt(outcomes: seq<Outcome>, k: nat)
    requires k < |outcomes| && outcomes[k].append.WholeAppend?
    ensures var i := |Logged(outcomes[..k])|;
      i < |Logged(outcomes)| && Logged(outcomes)[i] == LogRecord(outcomes[k].group, None, outcomes[k].file)
  {
    var n := |outcomes| - 1;
    if k < n {
      LoggedAt(outcomes[..n], k);
      assert outcomes[..n][..k] == outcomes[..k];
    }
  }

  lemma {:induction false} CommittedContains(outcomes: seq<Outcome>, k: nat)
    requires k < |outcomes| && outcomes[k].status.Ok?
    ensures outcomes[k].group.EntriesUpTo(|outcomes[k].group.updates|) <= Committed(outcomes)
  {
    var n := |outcomes| - 1;
    if k < n {
      CommittedContains(outcomes[..n], k);
    }
  }

  lemma FinishedHasOutcome(base: nat, mem: set<Entry>, events: seq<Event>, s: State, w: nat) returns (k: nat)
    requires IsRun(Initial(base, mem), events, s) && w in s.phase && s.phase[w].Finished?
    ensures k < |s.outcomes| && LeftIn(s.outcomes, k, w) && s.phase[w] == Finished(s.outcomes[k].status)
    ensures GroupInv(s) && DataInv(base, mem, s)
  {
    RunInv(base, mem, events, s);
    hide IsRun, GroupInv, DataInv;
    k := ToldHasLeft(s, w);
  }

  /** A writer that was told its batch succeeded finds it in the log, whole, in the memtable, and,
      if it asked for a sync, in the synced part of its log file.  Whether recovery reads it depends
      on what was appended to that file before it. */
  lemma SuccessIsDurable(base: nat, mem: set<Entry>, events: seq<Event>, s: State, w: nat) returns (i: nat)
    requires IsRun(Initial(base, mem), events, s)
    requires w in s.phase && s.phase[w] == Finished(Ok) && w in s.requests && s.requests[w].batch.Some?
    ensures i < |s.log| && w in s.log[i].group.members && s.log[i].torn.None?
    ensures s.log[i].group.EntriesUpTo(|s.log[i].group.updates|) <= s.mem
    ensures s.requests[w].sync ==> i in s.synced
  {
    hide *;
    var k := FinishedHasOutcome(base, mem, events, s, w);
    SucceededIsLogged(s, w, k);
    i := |Logged(s.outcomes[..k])|;
    LoggedAt(s.outcomes, k);
    CommittedContains(s.outcomes, k);
    DurableData(base, mem, s, k);
  }

  lemma SucceededIsLogged(s: State, w: nat, k: nat)
    requires GroupInv(s) && LeftIn(s.outcomes, k, w) && s.outcomes[k].status == Ok
    requires w in s.requests && s.requests[w].batch.Some?
    ensures k < |s.outcomes| && w in s.outcomes[k].group.members
    ensures s.outcomes[k].append.WholeAppend? && (s.requests[w].sync ==> LedBySync(s.requests, s.outcomes[k].group))
  {
    assert GoodOutcome(s.requests, s.outcomes[k]);
  }

  lemma DurableData(base: nat, mem: set<Entry>, s: State, k: nat)
    requires DataInv(base, mem, s) && k < |s.outcomes| && s.outcomes[k].status.Ok? && s.outcomes[k].append.WholeAppend?
    ensures Committed(s.outcomes) <= s.mem && Logged(s.outcomes) <= s.log
    ensures LedBySync(s.requests, s.outcomes[k].group) ==> |Logged(s.outcomes[..k])| in s.synced
  {
    assert KeptPromise(s.requests, s.outcomes, k, s.synced);
  }

  /** The entries a reader at `snapshot` may look at. */
  function UpTo(mem: set<Entry>, snapshot: nat): set<Entry> {
    set e | e in mem && e.seqno <= snapshot
  }

  lemma {:induction false} CommittedIsTiled(base: nat, outcomes: seq<Outcome>, last: nat)
    requires Tiles(base, outcomes, last)
    ensures base <= last
    ensures forall e :: e in Committed(outcomes) ==> base < e.seqno <= last
    ensures DistinctSequences(Committed(outcomes))
  {
    if outcomes != [] {
      var g := outcomes[|outcomes| - 1].group;
      CommittedIsTiled(base, outcomes[..|outcomes| - 1], g.before);
    }
  }

  lemma {:induction false} TilesAreDisjoint(base: nat, outcomes: seq<Outcome>, last: nat, j: nat, k: nat)
    requires Tiles(base, outcomes, last) && j < k < |outcomes|
    ensures outcomes[j].group.before + |outcomes[j].group.updates| <= outcomes[k].group.before
    ensures k == j + 1 ==> outcomes[j].group.before + |outcomes[j].group.updates| == outcomes[k].group.before
    ensures outcomes[k].group.before + |outcomes[k].group.updates| <= last
  {
    var n := |outcomes| - 1;
    var g := outcomes[n].group;
    if k < n {
      TilesAreDisjoint(base, outcomes[..n], g.before, j, k);
    } else if j < n - 1 {
      TilesAreDisjoint(base, outcomes[..n], g.before, j, n - 1);
    } else {
      assert outcomes[..n][n - 1] == outcomes[n - 1];
    }
  }

  /** In every run, the groups that have left took successive ranges of sequence numbers, without
      gaps or overlaps, whether they succeeded or not. */
  lemma GroupsTakeDisjointRanges(base: nat, mem: set<Entry>, events: seq<Event>, s: State, j: nat, k: nat)
    requires IsRun(Initial(base, mem), events, s) && j < k < |s.outcomes|
    ensures var a, b := s.outcomes[j].group, s.outcomes[k].group;
      && base <= a.before && a.before + |a.updates| <= b.before && b.before + |b.updates| <= s.last
      && (k == j + 1 ==> a.before + |a.updates| == b.before)
  {
    RunInv(base, mem, events, s);
    hide QueueInv, DeliveryInv, GroupInv, LogInv, MemInv, IsRun;
    TilesAreDisjoint(base, s.outcomes, s.last, j, k);
    TilesStart(base, s.outcomes, s.last, j);
  }

  lemma {:induction false} TilesStart(base: nat, outcomes: seq<Outcome>, last: nat, j: nat)
    requires Tiles(base, outcomes, last) && j < |outcomes|
    ensures base <= outcomes[j].group.before
  {
    var n := |outcomes| - 1;
    CommittedIsTiled(base, outcomes[..n], outcomes[n].group.before);
    if j < n {
      TilesStart(base, outcomes[..n], outcomes[n].group.before, j);
    }
  }

  /** Logged groups took the numbers before those of the groups logged after them. */
  ghost predicate Ascend(log: seq<LogRecord>, last: nat) {
    && (forall j, k :: 0 <= j < k < |log| ==> log[j].group.before + |log[j].group.updates| <= log[k].group.before)
    && (forall k :: 0 <= k < |log| ==> log[k].group.before + |log[k].group.updates| <= last)
  }

  lemma AscendMore(log: seq<LogRecord>, more: seq<LogRecord>, g: Group)
    requires Ascend(log, g.before) && (more == [] || (|more| == 1 && more[0].group == g))
    ensures Ascend(log + more, g.before + |g.updates|)
  {
  }

  lemma {:induction false} LoggedAscends(base: nat, outcomes: seq<Outcome>, last: nat)
    requires Tiles(base, outcomes, last)
    ensures Ascend(Logged(outcomes), last)
  {
    if outcomes != [] {
      var o := outcomes[|outcomes| - 1];
      LoggedAscends(base, outcomes[..|outcomes| - 1], o.group.before);
      hide Tiles, Ascend;
      AscendMore(Logged(outcomes[..|outcomes| - 1]), o.Record(), o.group);
    }
  }

  lemma PendingIsNext(s: State)
    requires GroupInv(s)
    ensures PendingLog(s) == [] || (|PendingLog(s)| == 1 && PendingLog(s)[0].group.before == s.last)
  {
    hide OutcomesOk, GoodGroup;
  }

  /** In every run, the log holds the groups in the order of their sequence numbers. */
  lemma LogAscends(base: nat, mem: set<Entry>, events: seq<Event>, s: State, j: nat, k: nat)
    requires IsRun(Initial(base, mem), events, s) && j < k < |s.log|
    ensures s.log[j].group.before + |s.log[j].group.updates| <= s.log[k].group.before
  {
    hide *;
    RunInv(base, mem, events, s);
    TilesParts(base, mem, s);
    DataHasLog(base, mem, s);
    LogParts(s);
    PendingIsNext(s);
    LoggedAscends(base, s.outcomes, s.last);
    if PendingLog(s) == [] {
      AscendMore(Logged(s.outcomes), PendingLog(s), Group(s.last, [], []));
    } else {
      AscendMore(Logged(s.outcomes), PendingLog(s), PendingLog(s)[0].group);
    }
    AscendsAt(s.log, j, k);
  }

  lemma DataHasLog(base: nat, mem: set<Entry>, s: State)
    requires DataInv(base, mem, s)
    ensures LogInv(s)
  {
    hide LogInv, Tiles, MemInv;
  }

  lemma AscendsAt(log: seq<LogRecord>, j: nat, k: nat)
    requires (exists last :: Ascend(log, last)) && j < k < |log|
    ensures log[j].group.before + |log[j].group.updates| <= log[k].group.before
  {
  }

  lemma PendingIsUnseen(s: State)
    requires GroupInv(s)
    ensures forall e :: e in Pending(s) ==> e.seqno > s.last
    ensures DistinctSequences(Pending(s))
  {
    hide GoodGroup, GoodOutcome;
  }

  /** At every moment a reader at LastSequence sees the succeeded groups whole, and nothing of the
      group being inserted. */
  lemma ReadersSeeWholeGroups(base: nat, mem: set<Entry>, events: seq<Event>, s: State)
    requires IsRun(Initial(base, mem), events, s)
    requires forall e :: e in mem ==> e.seqno <= base
    ensures UpTo(s.mem, s.last) == mem + Committed(s.outcomes)
    ensures DistinctSequences(mem) ==> DistinctSequences(s.mem)
    ensures base <= s.last
  {
    RunInv(base, mem, events, s);
    hide *;
    DataParts(base, mem, s);
    PendingIsUnseen(s);
    CommittedIsTiled(base, s.outcomes, s.last);
    SeenAndUnseen(mem, Committed(s.outcomes), Pending(s), base, s.last);
  }

  lemma DataParts(base: nat, mem: set<Entry>, s: State)
    requires DataInv(base, mem, s)
    ensures Tiles(base, s.outcomes, s.last) && s.mem == mem + Committed(s.outcomes) + Pending(s)
  {
  }

  lemma SeenAndUnseen(mem: set<Entry>, committed: set<Entry>, pending: set<Entry>, base: nat, last: nat)
    requires base <= last && (forall e :: e in mem ==> e.seqno <= base)
    requires DistinctSequences(committed) && forall e :: e in committed ==> base < e.seqno <= last
    requires DistinctSequences(pending) && forall e :: e in pending ==> e.seqno > last
    ensures UpTo(mem + committed + pending, last) == mem + committed
    ensures DistinctSequences(mem) ==> DistinctSequences(mem + committed + pending)
  {
  }

  lemma InsertedIsUnseen(s: State, w: nat)
    requires QueueInv(s) && DeliveryInv(s) && GroupInv(s) && Enabled(s, Inserted(w))
    ensures UpTo(Apply(s, Inserted(w)).mem, s.last) == UpTo(s.mem, s.last)
  {
    AtWork(s, Inserted(w), w);
    hide QueueInv, DeliveryInv, GoodGroup, GoodOutcome;
    var Inserting(g, n) := s.phase[w].work;
    assert g.Entry(n).seqno > s.last;
  }

  lemma CompleteAdvances(s: State, w: nat)
    requires QueueInv(s) && DeliveryInv(s) && GroupInv(s) && Enabled(s, Complete(w))
    ensures s.last <= Apply(s, Complete(w)).last
  {
    LeaderIsHead(s, w);
    hide QueueInv, DeliveryInv, GoodGroup, GoodOutcome;
  }

  lemma SnapshotStep(base: nat, mem: set<Entry>, s: State, e: Event)
    requires Inv(base, mem, s) && Enabled(s, e)
    ensures s.last <= Apply(s, e).last
    ensures UpTo(Apply(s, e).mem, s.last) == UpTo(s.mem, s.last)
  {
    hide QueueInv, DeliveryInv, GroupInv, DataInv;
    match e
    case Inserted(w) => InsertedIsUnseen(s, w);
    case Complete(w) => CompleteAdvances(s, w);
    case _ =>
  }

  /** Whatever is written later, a snapshot goes on seeing the same entries. */
  lemma {:induction false} SnapshotsAreStable(base: nat, mem: set<Entry>, s: State, events: seq<Event>, t: State,
                                              snapshot: nat)
    requires Inv(base, mem, s) && IsRun(s, events, t) && snapshot <= s.last
    ensures UpTo(t.mem, snapshot) == UpTo(s.mem, snapshot)
    decreases |events|
  {
    if events != [] {
      var r := Apply(s, events[0]);
      StepKeepsInv(base, mem, s, events[0]);
      SnapshotStep(base, mem, s, events[0]);
      hide Inv, Enabled, Apply;
      SnapshotsAreStable(base, mem, r, events[1..], t, snapshot);
      assert forall e :: e in UpTo(s.mem, snapshot) <==> e in UpTo(s.mem, s.last) && e.seqno <= snapshot;
      assert forall e :: e in UpTo(r.mem, snapshot) <==> e in UpTo(r.mem, s.last) && e.seqno <= snapshot;
    }
  }

  /** Reads are decided by the entries up to the snapshot. */
  lemma ReadLooksUpTo(a: set<Entry>, b: set<Entry>, user: UserKey, snapshot: nat)
    requires DistinctSequences(a) && DistinctSequences(b) && UpTo(a, snapshot) == UpTo(b, snapshot)
    ensures Read(a, user, snapshot) == Read(b, user, snapshot)
  {
    var n := Newest(a, user, snapshot);
    if n.Some? {
      assert IsNewest(a, user, snapshot, n.value);
      assert n.value in UpTo(a, snapshot);
      forall x | x in b && VisibleTo(x, user, snapshot) ensures x.seqno <= n.value.seqno {
        assert x in UpTo(b, snapshot);
      }
      NewestIs(b, user, snapshot, n.value);
    } else {
      NewestNone(a, user, snapshot);
      forall x | x in b ensures !VisibleTo(x, user, snapshot) {
        assert x in UpTo(b, snapshot) ==> x in UpTo(a, snapshot);
      }
      NewestNone(b, user, snapshot);
    }
  }

  /** The committed groups alone decide what a read at LastSequence returns. */
  lemma ReadsAreAtomic(base: nat, mem: set<Entry>, events: seq<Event>, s: State, user: UserKey)
    requires IsRun(Initial(base, mem), events, s)
    requires DistinctSequences(mem) && forall e :: e in mem ==> e.seqno <= base
    ensures Read(s.mem, user, s.last) == Read(mem + Committed(s.outcomes), user, s.last)
  {
    ReadersSeeWholeGroups(base, mem, events, s);
    ReadLooksUpTo(s.mem, UpTo(s.mem, s.last), user, s.last);
  }

  // ---------------------------------------------------------------- after a failed sync

  /** The database takes no more writes. */
  ghost predicate Refusing(s: State) {
    s.bgError.Error? && !HasGroup(s)
  }

  lemma FailedSyncRefuses(base: nat, mem: set<Entry>, s: State, w: nat)
    requires Enabled(s, Complete(w)) && s.phase[w].work.syncError && Inv(base, mem, s)
    ensures Refusing(Apply(s, Complete(w)))
  {
    hide QueueInv, DeliveryInv, DataInv, GroupInv, GoodOutcome;
    CompleteParts(s, w);
    var Finishing(g, status, _, append) := s.phase[w].work;
    RecordKeeps(s, status);
    PopLeavesNoLeader(RecordError(s, status), g, status, append);
  }

  lemma RefusingHasNoWork(s: State, w: nat)
    requires QueueInv(s) && DeliveryInv(s) && Refusing(s) && IsLeading(s, w)
    ensures s.phase[w].work.MakingRoom? && s.queue != [] && s.queue[0] == w
  {
    LeaderIsHead(s, w);
  }

  lemma RefusingStep(base: nat, mem: set<Entry>, s: State, e: Event)
    requires Inv(base, mem, s) && Refusing(s) && Enabled(s, e)
    ensures var t := Apply(s, e);
      && Refusing(t) && t.log == s.log && t.mem == s.mem && t.last == s.last
      && (t.outcomes == s.outcomes || exists o :: t.outcomes == s.outcomes + [o] && o.status.Error?)
  {
    hide QueueInv, DeliveryInv, DataInv, GroupInv;
    match e
    case Arrive(w, r) => ArriveKeepsCurrent(s, w, r);
    case BackgroundFailed(code) =>
    case Lead(w) => SetWorkKeepsQueue(s, w, MakingRoom);
    case RoomMade(w, status, n, switched) =>
      RefusingHasNoWork(s, w);
      SwitchKeepsQueue(s, switched);
      PopLeavesNoLeader(Switched(s, switched), Group(s.last, [w], []), status, NoAppend);
    case LogAppended(w, _, _) => RefusingHasNoWork(s, w);
    case LogSynced(w, _) => RefusingHasNoWork(s, w);
    case Inserted(w) => RefusingHasNoWork(s, w);
    case Complete(w) => RefusingHasNoWork(s, w);
  }

  /** After a failed sync nothing reaches the log or the memtable any more, and every writer that
      leaves is told of an error. */
  lemma {:induction false} RefusesForEver(base: nat, mem: set<Entry>, s: State, events: seq<Event>, t: State)
    requires Inv(base, mem, s) && Refusing(s) && IsRun(s, events, t)
    ensures t.log == s.log && t.mem == s.mem && t.last == s.last
    ensures s.outcomes <= t.outcomes
    ensures forall k :: |s.outcomes| <= k < |t.outcomes| ==> t.outcomes[k].status.Error?
    decreases |events|
  {
    if events != [] {
      var r := Apply(s, events[0]);
      StepKeepsInv(base, mem, s, events[0]);
      RefusingStep(base, mem, s, events[0]);
      hide Inv, Enabled, Apply, Refusing;
      RefusesForEver(base, mem, r, events[1..], t);
    }
  }

  /** The first background error stays. */
  lemma {:induction false} FirstErrorStays(s: State, events: seq<Event>, t: State)
    requires IsRun(s, events, t) && s.bgError.Error?
    ensures t.bgError == s.bgError
    decreases |events|
  {
    hide Enabled;
    if events != [] {
      FirstErrorStays(Apply(s, events[0]), events[1..], t);
    }
  }

  // ---------------------------------------------------------------- leaving the queue

  lemma OneMoreLeaves(phase: map<nat, Phase>, members: seq<nat>, m: nat, status: Status)
    ensures phase + Leave(members + [m], status) == (phase + Leave(members, status))[m := Finished(status)]
  {
  }

  /** The loop at the end of Write: pop and wake everyone up to the last member of the group. */
  method PopWriters(queue: seq<nat>, phase: map<nat, Phase>, lastWriter: nat, status: Status, ghost n: nat)
    returns (rest: seq<nat>, after: map<nat, Phase>)
    requires Distinct(queue) && 1 <= n <= |queue| && queue[n - 1] == lastWriter
    ensures rest == AfterPops(queue, n) && after == phase + Leave(queue[..n], status)
  {
    hide Leave;
    rest, after := queue, phase;
    ghost var popped := 0;
    NoneLeave(phase, status);
    assert queue[..0] == [];
    while true
      invariant popped < n && rest == queue[popped..]
      invariant after == phase + Leave(queue[..popped], status)
      decreases n - popped
    {
      var ready := rest[0];
      rest := rest[1..];
      OneMoreLeaves(phase, queue[..popped], ready, status);
      after := after[ready := Finished(status)];
      popped := popped + 1;
      assert queue[..popped] == queue[..popped - 1] + [ready];
      if ready == lastWriter {
        break;
      }
    }
  }

  lemma NoneLeave(phase: map<nat, Phase>, status: Status)
    ensures phase + Leave([], status) == phase
  {
  }
}
