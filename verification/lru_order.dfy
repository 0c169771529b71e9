/** The order in which a cache gives entries up: the one that has been idle for longest goes first
    (util/cache.cc). */
module LruOrder {
  import opened Wrappers
  import opened HandleTables
  import opened LruCaches

  /** What clients and the cache do to an entry. */
  datatype Op = Take(h: LRUHandle) | Release(h: LRUHandle) | Evict(h: LRUHandle) | Create(h: LRUHandle, cached: bool)

  predicate May(c: Contents, op: Op) {
    match op
    case Take(h) => h in c.clients && c.Cached(h)
    case Release(h) => h in c.clients && c.clients[h] > 0
    case Evict(h) => h in c.clients && c.Cached(h)
    case Create(h, _) => h !in c.clients
  }

  function Step(c: Contents, op: Op): Contents
    requires May(c, op)
  {
    match op
    case Take(h) => Taken(c, h)
    case Release(h) => Released(c, h)
    case Evict(h) => Evicted(c, h)
    case Create(h, cached) => Created(c, h, cached)
  }

  /** From a cache where no entry is idle. */
  function Run(c: Contents, ops: seq<Op>): Option<Contents> {
    if ops == [] then Some(c) else
      var t := Run(c, ops[..|ops| - 1]);
      if t.Some? && May(t.value, ops[|ops| - 1]) then Some(Step(t.value, ops[|ops| - 1])) else None
  }

  /** When the entry was last released; -1 if it never was. */
  function LastRelease(ops: seq<Op>, h: LRUHandle): (n: int)
    ensures -1 <= n < |ops| && (n >= 0 ==> ops[n] == Release(h))
    ensures forall i :: n < i < |ops| ==> ops[i] != Release(h)
  {
    if ops == [] then -1
    else if ops[|ops| - 1] == Release(h) then |ops| - 1
    else LastRelease(ops[..|ops| - 1], h)
  }

  /** Idle since its last release: not taken again. */
  ghost predicate IdleSince(ops: seq<Op>, h: LRUHandle, n: int) {
    n == LastRelease(ops, h) >= 0 && forall i :: n < i < |ops| ==> ops[i] != Take(h)
  }

  ghost predicate InOrder(ops: seq<Op>, items: seq<LRUHandle>) {
    && (forall i :: 0 <= i < |items| ==> IdleSince(ops, items[i], LastRelease(ops, items[i])))
    && forall i, j :: 0 <= i < j < |items| ==> LastRelease(ops, items[i]) < LastRelease(ops, items[j])
  }

  lemma StepIsValid(c: Contents, op: Op)
    requires c.Valid() && May(c, op)
    ensures Step(c, op).Valid()
  {
    hide Contents.Valid, Taken, Released, Evicted, Created;
    match op
    case Take(h) => TakenIsValid(c, h);
    case Release(h) => ReleasedIsValid(c, h);
    case Evict(h) => EvictedIsValid(c, h);
    case Create(h, cached) => CreatedIsValid(c, h, cached);
  }

  lemma LastReleaseNext(ops: seq<Op>, op: Op, h: LRUHandle)
    ensures LastRelease(ops + [op], h) == if op == Release(h) then |ops| else LastRelease(ops, h)
  {
    assert (ops + [op])[..|ops|] == ops;
  }

  lemma StillIdle(ops: seq<Op>, op: Op, h: LRUHandle)
    requires IdleSince(ops, h, LastRelease(ops, h)) && op != Take(h) && op != Release(h)
    ensures IdleSince(ops + [op], h, LastRelease(ops + [op], h))
    ensures LastRelease(ops + [op], h) == LastRelease(ops, h)
  {
    LastReleaseNext(ops, op, h);
  }

  /** The order does not change for entries that are neither taken nor released. */
  lemma OrderStays(ops: seq<Op>, op: Op, items: seq<LRUHandle>)
    requires InOrder(ops, items) && forall i :: 0 <= i < |items| ==> op != Take(items[i]) && op != Release(items[i])
    ensures InOrder(ops + [op], items)
  {
    hide IdleSince, LastRelease;
    forall i | 0 <= i < |items|
      ensures IdleSince(ops + [op], items[i], LastRelease(ops + [op], items[i]))
      ensures LastRelease(ops + [op], items[i]) == LastRelease(ops, items[i])
    {
      StillIdle(ops, op, items[i]);
    }
  }

  lemma OrderWithout(ops: seq<Op>, items: seq<LRUHandle>, h: LRUHandle)
    requires InOrder(ops, items) && Distinct(items) && h in items
    ensures InOrder(ops, Drop(items, h)) && h !in Drop(items, h)
  {
    hide IdleSince, LastRelease;
    Dropped(items, h, h);
    var k :| 0 <= k < |items| && items[k] == h;
    DropAt(items, k);
    hide Distinct, Drop;
    OrderAround(ops, items, k);
  }

  lemma OrderAround(ops: seq<Op>, items: seq<LRUHandle>, k: nat)
    requires InOrder(ops, items) && k < |items|
    ensures InOrder(ops, items[..k] + items[k + 1..])
  {
    hide IdleSince, LastRelease;
    var rest := items[..k] + items[k + 1..];
    forall i | 0 <= i < |rest| ensures rest[i] == items[if i < k then i else i + 1] {
    }
  }

  /** A release puts an entry that nobody else holds behind all others. */
  lemma OrderAfterRelease(ops: seq<Op>, items: seq<LRUHandle>, h: LRUHandle)
    requires InOrder(ops, items) && h !in items
    ensures InOrder(ops + [Release(h)], items + [h])
  {
    OrderStays(ops, Release(h), items);
    LastReleaseNext(ops, Release(h), h);
    var more := ops + [Release(h)];
    assert IdleSince(more, h, |ops|);
    forall i | 0 <= i < |items| ensures LastRelease(more, items[i]) < |ops| {
      LastReleaseNext(ops, Release(h), items[i]);
    }
    hide IdleSince, LastRelease;
  }

  lemma OrderNext(c: Contents, ops: seq<Op>, op: Op)
    requires c.Valid() && InOrder(ops, c.lru) && May(c, op)
    ensures InOrder(ops + [op], Step(c, op).lru)
  {
    hide InOrder, Drop, Sum;
    var h := op.h;
    if h in c.lru {
      assert c.Tells(h);
    }
    match op
    case Take(_) =>
      if h in c.lru {
        OrderWithout(ops, c.lru, h);
        OrderStays(ops, op, Drop(c.lru, h));
      } else {
        OrderStays(ops, op, c.lru);
      }
    case Release(_) =>
      if c.clients[h] == 1 && h in c.inUse {
        OrderAfterRelease(ops, c.lru, h);
      } else {
        OrderStays(ops, op, c.lru);
      }
    case Evict(_) =>
      if h in c.lru {
        OrderWithout(ops, c.lru, h);
        OrderStays(ops, op, Drop(c.lru, h));
      } else {
        OrderStays(ops, op, c.lru);
      }
    case Create(_, _) => OrderStays(ops, op, c.lru);
  }

  /** In every run, the idle list holds the idle entries in the order of their last release, the earliest
      first; none of them was taken since. */
  lemma {:induction false} IdleInOrder(c: Contents, ops: seq<Op>)
    requires c.Valid() && c.lru == [] && Run(c, ops).Some?
    ensures Run(c, ops).value.Valid() && InOrder(ops, Run(c, ops).value.lru)
    decreases |ops|
  {
    hide Contents.Valid, Step, May;
    if ops != [] {
      var front, op := ops[..|ops| - 1], ops[|ops| - 1];
      IdleInOrder(c, front);
      hide InOrder;
      var t := Run(c, front).value;
      StepIsValid(t, op);
      OrderNext(t, front, op);
      assert front + [op] == ops;
    }
  }

  /** What a full cache evicts was released before everything else that is idle. */
  lemma OldestGoesFirst(c: Contents, ops: seq<Op>, capacity: int) returns (k: nat)
    requires c.Valid() && c.lru == [] && Run(c, ops).Some?
    ensures var t := Run(c, ops).value; var s := Shrunk(t, capacity);
      && k <= |t.lru| && s.lru == t.lru[k..] && s.deleted == t.deleted + t.lru[..k]
      && forall i, j :: 0 <= i < k <= j < |t.lru| ==> LastRelease(ops, t.lru[i]) < LastRelease(ops, t.lru[j])
  {
    hide Contents.Valid, Run, Shrunk, LastRelease, IdleSince;
    IdleInOrder(c, ops);
    k := ShrinkTakesOldest(Run(c, ops).value, capacity);
  }
}
