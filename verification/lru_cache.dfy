/** The block cache: reference counts, the LRU and in-use lists, and eviction (util/cache.cc). */
module LruCaches {
  import opened Wrappers
  import opened HandleTables

  // ---------------------------------------------------------------- rings

  type Pointers = map<LRUHandle, LRUHandle?>

  /** The i-th node of the ring that starts and ends at its head. */
  function RingNode(head: LRUHandle, items: seq<LRUHandle>, i: nat): LRUHandle
    requires i <= |items| + 1
  {
    if 0 < i <= |items| then items[i - 1] else head
  }

  predicate Joined(nexts: Pointers, prevs: Pointers, a: LRUHandle, b: LRUHandle) {
    a in nexts && nexts[a] == b && b in prevs && prevs[b] == a
  }

  /** A circular doubly linked list. */
  ghost predicate Ring(nexts: Pointers, prevs: Pointers, head: LRUHandle, items: seq<LRUHandle>) {
    && Distinct(items) && head !in items
    && forall i :: 0 <= i <= |items| ==> Joined(nexts, prevs, RingNode(head, items, i), RingNode(head, items, i + 1))
  }

  lemma RingWithoutNext(nexts: Pointers, prevs: Pointers, head: LRUHandle, items: seq<LRUHandle>, x: LRUHandle,
                        y: LRUHandle?)
    requires Ring(nexts, prevs, head, items) && x != head && x !in items
    ensures Ring(nexts[x := y], prevs, head, items) && Ring(nexts, prevs[x := y], head, items)
  {
    forall i | 0 <= i <= |items|
      ensures Joined(nexts[x := y], prevs, RingNode(head, items, i), RingNode(head, items, i + 1))
      ensures Joined(nexts, prevs[x := y], RingNode(head, items, i), RingNode(head, items, i + 1))
    {
      assert Joined(nexts, prevs, RingNode(head, items, i), RingNode(head, items, i + 1));
    }
  }

  /** The neighbours of an item are joined to each other when it is unlinked. */
  lemma RingUnlink(nexts: Pointers, prevs: Pointers, head: LRUHandle, items: seq<LRUHandle>, k: nat)
    requires Ring(nexts, prevs, head, items) && k < |items|
    ensures var before, after := RingNode(head, items, k), RingNode(head, items, k + 2);
      && items[k] in nexts && nexts[items[k]] == after && items[k] in prevs && prevs[items[k]] == before
      && Ring(nexts[before := after], prevs[after := before], head, items[..k] + items[k + 1..])
  {
    var before, after := RingNode(head, items, k), RingNode(head, items, k + 2);
    assert Joined(nexts, prevs, RingNode(head, items, k), RingNode(head, items, k + 1));
    assert Joined(nexts, prevs, RingNode(head, items, k + 1), RingNode(head, items, k + 2));
    var rest := items[..k] + items[k + 1..];
    forall i | 0 <= i <= |rest|
      ensures Joined(nexts[before := after], prevs[after := before], RingNode(head, rest, i),
              RingNode(head, rest, i + 1))
    {
      var j := if i <= k then i else i + 1;
      assert Joined(nexts, prevs, RingNode(head, items, j), RingNode(head, items, j + 1));
      assert RingNode(head, rest, i) == RingNode(head, items, j);
      if i != k {
        assert RingNode(head, rest, i + 1) == RingNode(head, items, j + 1);
      }
    }
  }

  /** A new item is linked just before the head. */
  lemma RingAppend(nexts: Pointers, prevs: Pointers, head: LRUHandle, items: seq<LRUHandle>, x: LRUHandle)
    requires Ring(nexts, prevs, head, items) && x != head && x !in items
    ensures var last := RingNode(head, items, |items|);
      && head in prevs && prevs[head] == last
      && Ring(nexts[x := head][last := x], prevs[x := last][head := x], head, items + [x])
  {
    var last := RingNode(head, items, |items|);
    assert Joined(nexts, prevs, last, RingNode(head, items, |items| + 1));
    var all := items + [x];
    var n, p := nexts[x := head][last := x], prevs[x := last][head := x];
    forall i | 0 <= i <= |all| ensures Joined(n, p, RingNode(head, all, i), RingNode(head, all, i + 1)) {
      if i < |items| {
        assert Joined(nexts, prevs, RingNode(head, items, i), RingNode(head, items, i + 1));
        assert RingNode(head, all, i) == RingNode(head, items, i)
               && RingNode(head, all, i + 1) == RingNode(head, items, i + 1);
      }
    }
  }

  // ---------------------------------------------------------------- the abstract cache

  /** The items of a list without one of them. */
  function Drop(items: seq<LRUHandle>, h: LRUHandle): seq<LRUHandle> {
    if items == [] then [] else if items[0] == h then items[1..] else [items[0]] + Drop(items[1..], h)
  }

  lemma {:induction false} DropAt(items: seq<LRUHandle>, k: nat)
    requires Distinct(items) && k < |items|
    ensures Drop(items, items[k]) == items[..k] + items[k + 1..]
  {
    if k > 0 {
      assert items[0] != items[k];
      DropAt(items[1..], k - 1);
    }
  }

  function Sum(items: seq<LRUHandle>): nat {
    if items == [] then 0 else items[0].charge + Sum(items[1..])
  }

  lemma {:induction false} SumAppends(items: seq<LRUHandle>, h: LRUHandle)
    ensures Sum(items + [h]) == Sum(items) + h.charge
  {
    if items == [] {
      assert [h][1..] == [];
    } else {
      assert (items + [h])[1..] == items[1..] + [h];
      SumAppends(items[1..], h);
    }
  }

  lemma {:induction false} DropMembers(items: seq<LRUHandle>, h: LRUHandle)
    requires Distinct(items) && h in items
    ensures Distinct(Drop(items, h)) && Sum(items) == Sum(Drop(items, h)) + h.charge
    ensures forall g :: g in Drop(items, h) <==> g in items && g != h
  {
    var k :| 0 <= k < |items| && items[k] == h;
    DropAt(items, k);
    MembersWithout(items, k);
    if items[0] != h {
      DropMembers(items[1..], h);
    }
  }

  /** What a cache holds: `lru` the idle entries, oldest first; `inUse` those clients hold; `clients`
      how many handles each entry ever created has out; `deleted` the deleter's calls in order. */
  datatype Contents = Contents(
    lru: seq<LRUHandle>,
    inUse: seq<LRUHandle>,
    clients: map<LRUHandle, nat>,
    deleted: seq<LRUHandle>)
  {
    predicate Cached(h: LRUHandle) {
      h in lru || h in inUse
    }

    /** An entry is idle or in use as its handles tell; the deleter has run on it if it is neither
        cached nor held. */
    predicate Tells(h: LRUHandle)
      requires h in clients
    {
      && (h in lru ==> h !in inUse && clients[h] == 0)
      && (h in inUse ==> clients[h] > 0)
      && (h in deleted <==> clients[h] == 0 && !Cached(h))
    }

    predicate Known(items: seq<LRUHandle>) {
      Distinct(items) && forall h :: h in items ==> h in clients
    }

    /** No entry is in a list twice, and the deleter ran at most once for each. */
    ghost predicate Valid() {
      && Known(lru) && Known(inUse) && Known(deleted)
      && forall h :: h in clients ==> Tells(h)
    }

    function CachedSet(): set<LRUHandle> {
      set h | h in clients && Cached(h)
    }

    function Usage(): nat {
      Sum(lru) + Sum(inUse)
    }

    function Refs(h: LRUHandle): nat
      requires h in clients
    {
      clients[h] + if Cached(h) then 1 else 0
    }
  }

  /** A client takes a handle to a cached entry. */
  function Taken(c: Contents, h: LRUHandle): Contents
    requires h in c.clients
  {
    Contents(if h in c.lru then Drop(c.lru, h) else c.lru,
             if h in c.lru then c.inUse + [h] else c.inUse,
             c.clients[h := c.clients[h] + 1],
             c.deleted)
  }

  /** A client gives a handle back. */
  function Released(c: Contents, h: LRUHandle): Contents
    requires h in c.clients && c.clients[h] > 0
  {
    var last := c.clients[h] == 1;
    Contents(if last && h in c.inUse then c.lru + [h] else c.lru,
             if last && h in c.inUse then Drop(c.inUse, h) else c.inUse,
             c.clients[h := c.clients[h] - 1],
             if last && h !in c.inUse then c.deleted + [h] else c.deleted)
  }

  /** The cache gives an entry up. */
  function Evicted(c: Contents, h: LRUHandle): Contents {
    Contents(if h in c.lru then Drop(c.lru, h) else c.lru,
             if h in c.inUse then Drop(c.inUse, h) else c.inUse,
             c.clients,
             if h in c.lru then c.deleted + [h] else c.deleted)
  }

  /** A new entry whose handle the caller holds; `cached` when the cache keeps it too. */
  function Created(c: Contents, h: LRUHandle, cached: bool): Contents {
    c.(inUse := if cached then c.inUse + [h] else c.inUse, clients := c.clients[h := 1])
  }

  /** Adding to the end of a list. */
  lemma Appended(items: seq<LRUHandle>, h: LRUHandle, g: LRUHandle)
    requires Distinct(items) && h !in items
    ensures Distinct(items + [h]) && Sum(items + [h]) == Sum(items) + h.charge
    ensures g in items + [h] <==> g in items || g == h
  {
    SumAppends(items, h);
  }

  lemma Dropped(items: seq<LRUHandle>, h: LRUHandle, g: LRUHandle)
    requires Distinct(items) && h in items
    ensures Distinct(Drop(items, h)) && Sum(items) == Sum(Drop(items, h)) + h.charge
    ensures g in Drop(items, h) <==> g in items && g != h
  {
    DropMembers(items, h);
  }

  lemma TakenIsValid(c: Contents, h: LRUHandle)
    requires c.Valid() && c.Cached(h)
    ensures Taken(c, h).Valid() && Taken(c, h).Usage() == c.Usage()
    ensures forall g :: g in c.clients ==> (Taken(c, h).Cached(g) <==> c.Cached(g))
  {
    var t := Taken(c, h);
    assert c.Tells(h);
    if h in c.lru {
      Dropped(c.lru, h, h);
      Appended(c.inUse, h, h);
    }
    hide Drop, Sum, Distinct;
    forall g | g in c.clients ensures t.Tells(g) && (t.Cached(g) <==> c.Cached(g)) {
      assert c.Tells(g);
      if h in c.lru {
        Dropped(c.lru, h, g);
        Appended(c.inUse, h, g);
      }
    }
    if h in c.lru {
      DropKnown(c, t, c.lru, h);
      AppendKnown(c, t, c.inUse, h);
    }
  }

  lemma DropKnown(c: Contents, t: Contents, items: seq<LRUHandle>, h: LRUHandle)
    requires c.Known(items) && h in items && c.clients.Keys == t.clients.Keys
    ensures t.Known(Drop(items, h))
  {
    hide Drop, Sum, Distinct;
    Dropped(items, h, h);
    forall g | g in Drop(items, h) ensures g in t.clients {
      Dropped(items, h, g);
    }
  }

  lemma AppendKnown(c: Contents, t: Contents, items: seq<LRUHandle>, h: LRUHandle)
    requires c.Known(items) && h !in items && h in c.clients && c.clients.Keys == t.clients.Keys
    ensures t.Known(items + [h])
  {
  }

  lemma ReleasedIsValid(c: Contents, h: LRUHandle)
    requires c.Valid() && h in c.clients && c.clients[h] > 0
    ensures Released(c, h).Valid() && Released(c, h).Usage() == c.Usage()
    ensures forall g :: g in c.clients ==> (Released(c, h).Cached(g) <==> c.Cached(g))
  {
    var t := Released(c, h);
    assert c.Tells(h);
    if h in c.inUse {
      Dropped(c.inUse, h, h);
      Appended(c.lru, h, h);
    } else {
      Appended(c.deleted, h, h);
    }
    hide Drop, Sum, Distinct;
    forall g | g in c.clients ensures t.Tells(g) && (t.Cached(g) <==> c.Cached(g)) {
      assert c.Tells(g);
      if h in c.inUse {
        Dropped(c.inUse, h, g);
        Appended(c.lru, h, g);
      } else {
        Appended(c.deleted, h, g);
      }
    }
    if h in c.inUse {
      DropKnown(c, t, c.inUse, h);
      AppendKnown(c, t, c.lru, h);
    } else {
      AppendKnown(c, t, c.deleted, h);
    }
  }

  lemma EvictedIsValid(c: Contents, h: LRUHandle)
    requires c.Valid() && c.Cached(h)
    ensures Evicted(c, h).Valid() && Evicted(c, h).Usage() + h.charge == c.Usage()
    ensures forall g :: g in c.clients ==> (Evicted(c, h).Cached(g) <==> c.Cached(g) && g != h)
  {
    var t := Evicted(c, h);
    assert c.Tells(h);
    if h in c.lru {
      Dropped(c.lru, h, h);
      Appended(c.deleted, h, h);
    } else {
      Dropped(c.inUse, h, h);
    }
    hide Drop, Sum, Distinct;
    forall g | g in c.clients ensures t.Tells(g) && (t.Cached(g) <==> c.Cached(g) && g != h) {
      assert c.Tells(g);
      if h in c.lru {
        Dropped(c.lru, h, g);
        Appended(c.deleted, h, g);
      } else {
        Dropped(c.inUse, h, g);
      }
    }
    if h in c.lru {
      DropKnown(c, t, c.lru, h);
      AppendKnown(c, t, c.deleted, h);
    } else {
      DropKnown(c, t, c.inUse, h);
    }
  }

  lemma CreatedIsValid(c: Contents, h: LRUHandle, cached: bool)
    requires c.Valid() && h !in c.clients
    ensures Created(c, h, cached).Valid()
    ensures Created(c, h, cached).Usage() == c.Usage() + if cached then h.charge else 0
    ensures forall g :: g in c.clients ==> (Created(c, h, cached).Cached(g) <==> c.Cached(g))
    ensures Created(c, h, cached).Cached(h) <==> cached
  {
    var t := Created(c, h, cached);
    Appended(c.inUse, h, h);
    hide Sum, Distinct;
    forall g | g in t.clients ensures t.Tells(g) && (g in c.clients ==> (t.Cached(g) <==> c.Cached(g))) {
      assert g in c.clients ==> c.Tells(g);
      Appended(c.inUse, h, g);
    }
    forall g | g in t.inUse ensures g in t.clients {
      Appended(c.inUse, h, g);
    }
  }

  // ---------------------------------------------------------------- the cache

  /** The idle and the in-use list, side by side. */
  ghost predicate TwoRings(nexts: Pointers, prevs: Pointers, head: LRUHandle, items: seq<LRUHandle>, other: LRUHandle,
                           others: seq<LRUHandle>) {
    && Ring(nexts, prevs, head, items) && Ring(nexts, prevs, other, others)
    && head != other && head !in others && other !in items
    && forall h :: h in items ==> h !in others
  }

  lemma TwoRingsSwap(nexts: Pointers, prevs: Pointers, head: LRUHandle, items: seq<LRUHandle>, other: LRUHandle,
                     others: seq<LRUHandle>)
    requires TwoRings(nexts, prevs, head, items, other, others)
    ensures TwoRings(nexts, prevs, other, others, head, items)
  {
  }

  lemma TwoRingsUnlink(nexts: Pointers, prevs: Pointers, head: LRUHandle, items: seq<LRUHandle>, other: LRUHandle,
                       others: seq<LRUHandle>, e: LRUHandle)
    requires TwoRings(nexts, prevs, head, items, other, others) && e in items
    ensures e in nexts && e in prevs && nexts[e] != null && prevs[e] != null && prevs[e] in nexts && nexts[e] in prevs
    ensures TwoRings(nexts[prevs[e] := nexts[e]], prevs[nexts[e] := prevs[e]], head, Drop(items, e), other, others)
  {
    var k :| 0 <= k < |items| && items[k] == e;
    RingUnlink(nexts, prevs, head, items, k);
    DropAt(items, k);
    MembersWithout(items, k);
    var before, after := RingNode(head, items, k), RingNode(head, items, k + 2);
    assert before == head || before in items;
    assert after == head || after in items;
    assert Joined(nexts, prevs, before, RingNode(head, items, k + 1));
    assert Joined(nexts, prevs, RingNode(head, items, k + 1), after);
    hide Ring;
    RingWithoutNext(nexts, prevs, other, others, before, after);
    RingWithoutNext(nexts[before := after], prevs, other, others, after, before);
  }

  lemma TwoRingsAppend(nexts: Pointers, prevs: Pointers, head: LRUHandle, items: seq<LRUHandle>, other: LRUHandle,
                       others: seq<LRUHandle>, e: LRUHandle)
    requires TwoRings(nexts, prevs, head, items, other, others)
    requires e != head && e != other && e !in items && e !in others
    ensures head in prevs && prevs[head] != null && prevs[head] in nexts && prevs[head] != e
    ensures TwoRings(nexts[e := head][prevs[head] := e], prevs[e := prevs[head]][head := e], head, items + [e],
            other, others)
  {
    RingAppend(nexts, prevs, head, items, e);
    var last := RingNode(head, items, |items|);
    assert last == head || last in items;
    assert Joined(nexts, prevs, last, RingNode(head, items, |items| + 1));
    hide Ring;
    RingWithoutNext(nexts, prevs, other, others, e, head);
    RingWithoutNext(nexts[e := head], prevs, other, others, last, e);
    RingWithoutNext(nexts[e := head][last := e], prevs, other, others, e, last);
    RingWithoutNext(nexts[e := head][last := e], prevs[e := last], other, others, head, e);
  }

  /** The counts and flags in the handles tell what the cache and its clients hold. */
  ghost predicate CountsAre(c: Contents, refs: map<LRUHandle, nat>, inCache: map<LRUHandle, bool>) {
    forall h :: h in c.clients ==> CountIs(c, refs, inCache, h)
  }

  predicate CountIs(c: Contents, refs: map<LRUHandle, nat>, inCache: map<LRUHandle, bool>, h: LRUHandle)
    requires h in c.clients
  {
    h in refs && refs[h] == c.Refs(h) && h in inCache && inCache[h] == c.Cached(h)
  }

  lemma CountsTaken(c: Contents, refs: map<LRUHandle, nat>, inCache: map<LRUHandle, bool>, e: LRUHandle)
    requires c.Valid() && CountsAre(c, refs, inCache) && e in c.clients && c.Cached(e)
    ensures e in refs && CountsAre(Taken(c, e), refs[e := refs[e] + 1], inCache)
  {
    TakenIsValid(c, e);
    assert CountIs(c, refs, inCache, e);
    hide Drop, Distinct, Sum;
    forall h | h in Taken(c, e).clients ensures CountIs(Taken(c, e), refs[e := refs[e] + 1], inCache, h) {
      assert CountIs(c, refs, inCache, h);
    }
  }

  lemma CountsReleased(c: Contents, refs: map<LRUHandle, nat>, inCache: map<LRUHandle, bool>, e: LRUHandle)
    requires c.Valid() && CountsAre(c, refs, inCache) && e in c.clients && c.clients[e] > 0
    ensures e in refs && refs[e] > 0 && CountsAre(Released(c, e), refs[e := refs[e] - 1], inCache)
  {
    ReleasedIsValid(c, e);
    assert CountIs(c, refs, inCache, e);
    hide Drop, Distinct, Sum;
    forall h | h in Released(c, e).clients ensures CountIs(Released(c, e), refs[e := refs[e] - 1], inCache, h) {
      assert CountIs(c, refs, inCache, h);
    }
  }

  lemma CountsEvicted(c: Contents, refs: map<LRUHandle, nat>, inCache: map<LRUHandle, bool>, e: LRUHandle)
    requires c.Valid() && CountsAre(c, refs, inCache) && e in c.clients && c.Cached(e)
    ensures e in refs && refs[e] > 0 && CountsAre(Evicted(c, e), refs[e := refs[e] - 1], inCache[e := false])
  {
    EvictedIsValid(c, e);
    assert CountIs(c, refs, inCache, e);
    hide Drop, Distinct, Sum;
    forall h | h in Evicted(c, e).clients ensures CountIs(Evicted(c, e), refs[e := refs[e] - 1],
        inCache[e := false], h) {
      assert CountIs(c, refs, inCache, h);
    }
  }

  lemma CountsCreated(c: Contents, refs: map<LRUHandle, nat>, inCache: map<LRUHandle, bool>, e: LRUHandle, cached: bool)
    requires c.Valid() && CountsAre(c, refs, inCache) && e !in c.clients
    ensures CountsAre(Created(c, e, cached), refs[e := if cached then 2 else 1], inCache[e := cached])
  {
    CreatedIsValid(c, e, cached);
    var t := Created(c, e, cached);
    hide Distinct, Sum;
    forall h | h in t.clients ensures CountIs(t, refs[e := if cached then 2 else 1], inCache[e := cached], h) {
      assert h in c.clients ==> CountIs(c, refs, inCache, h);
    }
  }

  class LRUCache {
    const capacity: nat
    var usage: nat
    const lru: LRUHandle
    const inUse: LRUHandle
    const table: HandleTable
    /** The deleter's calls, in order. */
    var deletions: seq<LRUHandle>
    /** What the cache holds, and every node of its lists. */
    ghost var contents: Contents
    ghost var nodes: set<LRUHandle>

    ghost function Nexts(): Pointers
      reads this`nodes, nodes`next
    {
      map h | h in nodes :: h.next
    }

    ghost function Prevs(): Pointers
      reads this`nodes, nodes`prev
    {
      map h | h in nodes :: h.prev
    }

    /** The lists' pointers. */
    ghost predicate Lists(idle: seq<LRUHandle>, busy: seq<LRUHandle>)
      reads this`nodes, nodes`next, nodes`prev
    {
      TwoRings(Nexts(), Prevs(), lru, idle, inUse, busy)
    }

    ghost function RefMap(): map<LRUHandle, nat>
      reads this`nodes, nodes`refs
    {
      map h | h in nodes :: h.refs
    }

    ghost function CacheMap(): map<LRUHandle, bool>
      reads this`nodes, nodes`inCache
    {
      map h | h in nodes :: h.inCache
    }

    /** The table holds the cached entries. */
    ghost predicate InTable(c: Contents)
      reads table`handles
    {
      table.handles == c.CachedSet()
    }

    ghost predicate Nodes(c: Contents)
      reads this`nodes
    {
      nodes == c.clients.Keys + {lru, inUse} && lru !in c.clients && inUse !in c.clients
    }

    ghost predicate Valid()
      reads this, nodes, table, table.handles`nextHash
    {
      && contents.Valid() && Lists(contents.lru, contents.inUse) && usage == contents.Usage()
          && deletions == contents.deleted
      && Nodes(contents) && CountsAre(contents, RefMap(), CacheMap()) && table.Valid() && InTable(contents)
    }

    constructor (capacity: nat)
      ensures Valid() && this.capacity == capacity && contents == Contents([], [], map[], [])
      ensures fresh(nodes) && fresh(table)
    {
      hide *;
      this.capacity, usage, deletions := capacity, 0, [];
      var a := new LRUHandle([], 0, 0, 0);
      var b := new LRUHandle([], 0, 0, 0);
      lru, inUse := a, b;
      table := new HandleTable();
      contents := Contents([], [], map[], []);
      nodes := {a, b};
      new;
      lru.next, lru.prev := lru, lru;
      inUse.next, inUse.prev := inUse, inUse;
      EmptyIsValid();
    }

    lemma EmptyIsValid()
      requires contents == Contents([], [], map[], []) && nodes == {lru, inUse} && lru != inUse
      requires lru.next == lru && lru.prev == lru && inUse.next == inUse && inUse.prev == inUse
      requires usage == 0 && deletions == [] && table.Valid() && table.handles == {}
      ensures Valid()
    {
      EmptyRings(Nexts(), Prevs(), lru, inUse);
      assert contents.CachedSet() == {};
      hide TwoRings;
    }

    // -------------------------------------------------------------- the lists

    method SetNext(x: LRUHandle, y: LRUHandle?)
      requires x in nodes
      modifies x`next
      ensures Nexts() == old(Nexts())[x := y]
      ensures x.next == y
    {
      x.next := y;
    }

    method SetPrev(x: LRUHandle, y: LRUHandle?)
      requires x in nodes
      modifies x`prev
      ensures Prevs() == old(Prevs())[x := y]
      ensures x.prev == y
    {
      x.prev := y;
    }

    lemma Pointing(e: LRUHandle)
      requires e in nodes
      ensures e in Nexts() && e in Prevs() && Nexts()[e] == e.next && Prevs()[e] == e.prev
    {
    }

    lemma InNodes()
      ensures Nexts().Keys == nodes && Prevs().Keys == nodes
    {
    }

    method LRU_Remove(e: LRUHandle, ghost head: LRUHandle, ghost items: seq<LRUHandle>, ghost other: LRUHandle,
                      ghost others: seq<LRUHandle>)
      requires TwoRings(Nexts(), Prevs(), head, items, other, others) && e in items
      modifies nodes`next, nodes`prev
      ensures TwoRings(Nexts(), Prevs(), head, Drop(items, e), other, others)
    {
      hide *;
      TwoRingsUnlink(Nexts(), Prevs(), head, items, other, others, e);
      InNodes();
      Pointing(e);
      ghost var nexts, prevs := Nexts(), Prevs();
      var after: LRUHandle, before: LRUHandle := e.next, e.prev;
      SetPrev(after, before);
      SetNext(before, after);
    }

    method LRU_Append(list: LRUHandle, e: LRUHandle, ghost items: seq<LRUHandle>, ghost other: LRUHandle,
                      ghost others: seq<LRUHandle>)
      requires TwoRings(Nexts(), Prevs(), list, items, other, others)
      requires e in nodes && e != list && e != other && e !in items && e !in others
      modifies nodes`next, nodes`prev
      ensures TwoRings(Nexts(), Prevs(), list, items + [e], other, others)
    {
      hide *;
      TwoRingsAppend(Nexts(), Prevs(), list, items, other, others, e);
      InNodes();
      Pointing(list);
      var last: LRUHandle := list.prev;
      SetNext(e, list);
      SetPrev(e, last);
      SetNext(last, e);
      SetPrev(list, e);
    }

    // -------------------------------------------------------------- references

    /** From one list to the end of the other. */
    method Move(e: LRUHandle, target: LRUHandle, ghost source: LRUHandle, ghost items: seq<LRUHandle>,
                ghost others: seq<LRUHandle>)
      requires TwoRings(Nexts(), Prevs(), source, items, target, others) && e in items && e in nodes
      modifies nodes`next, nodes`prev
      ensures TwoRings(Nexts(), Prevs(), source, Drop(items, e), target, others + [e])
    {
      Apart(Nexts(), Prevs(), source, items, target, others, e);
      hide *;
      LRU_Remove(e, source, items, target, others);
      TwoRingsSwap(Nexts(), Prevs(), source, Drop(items, e), target, others);
      LRU_Append(target, e, others, source, Drop(items, e));
      TwoRingsSwap(Nexts(), Prevs(), target, others + [e], source, Drop(items, e));
    }

    lemma Parts()
      requires Valid()
      ensures contents.Valid() && TwoRings(Nexts(), Prevs(), lru, contents.lru, inUse, contents.inUse)
      ensures Nodes(contents) && CountsAre(contents, RefMap(), CacheMap()) && table.Valid() && InTable(contents)
      ensures usage == contents.Usage() && deletions == contents.deleted
    {
    }

    lemma IsValid()
      requires contents.Valid() && TwoRings(Nexts(), Prevs(), lru, contents.lru, inUse, contents.inUse)
      requires Nodes(contents) && CountsAre(contents, RefMap(), CacheMap()) && table.Valid() && InTable(contents)
      requires usage == contents.Usage() && deletions == contents.deleted
      ensures Valid()
    {
    }

    lemma CountsOf(h: LRUHandle)
      requires Valid() && h in contents.clients
      ensures h.refs == contents.clients[h] + (if contents.Cached(h) then 1 else 0) && h.inCache == contents.Cached(h)
      ensures h in nodes && h != lru && h != inUse
      ensures h.refs == 1 && h.inCache <==> h in contents.lru
      ensures h in contents.lru ==> contents.clients[h] == 0
      ensures h in contents.inUse ==> contents.clients[h] > 0
    {
      assert contents.Tells(h) && CountIs(contents, RefMap(), CacheMap(), h);
    }

    method SetRefs(h: LRUHandle, n: nat)
      requires h in nodes
      modifies h`refs
      ensures RefMap() == old(RefMap())[h := n] && h.refs == n
    {
      h.refs := n;
    }

    method AddRef(e: LRUHandle, ghost c: Contents)
      requires TwoRings(Nexts(), Prevs(), lru, c.lru, inUse, c.inUse) && e in nodes
      requires e.refs == 1 && e.inCache <==> e in c.lru
      modifies nodes`next, nodes`prev, e`refs
      ensures RefMap() == old(RefMap())[e := old(e.refs) + 1]
      ensures TwoRings(Nexts(), Prevs(), lru, if e in c.lru then Drop(c.lru, e) else c.lru,
                       inUse, if e in c.lru then c.inUse + [e] else c.inUse)
    {
      hide *;
      if e.refs == 1 && e.inCache {
        Move(e, inUse, lru, c.lru, c.inUse);
      }
      SetRefs(e, e.refs + 1);
    }

    /** A client's reference to a cached entry. */
    method Ref(e: LRUHandle)
      requires Valid() && e in contents.clients && contents.Cached(e)
      modifies this`contents, nodes`next, nodes`prev, e`refs
      ensures Valid() && contents == Taken(old(contents), e) && nodes == old(nodes)
    {
      hide *;
      Parts();
      CountsOf(e);
      ghost var c := contents;
      TakenIsValid(c, e);
      CountsTaken(c, RefMap(), CacheMap(), e);
      TakenParts(c, e);
      RefIs(e);
      AddRef(e, c);
      contents := Taken(c, e);
      NodesStay(c);
      IsValid();
    }

    /** Gives a reference back; the last one runs the deleter. */
    method Unref(e: LRUHandle, ghost idle: seq<LRUHandle>, ghost busy: seq<LRUHandle>)
      requires TwoRings(Nexts(), Prevs(), lru, idle, inUse, busy)
      requires e in nodes && e.refs > 0
      requires e.refs == 1 ==> !e.inCache
      requires e.inCache && e.refs == 2 ==> e in busy
      modifies this`deletions, nodes`next, nodes`prev, e`refs
      ensures RefMap() == old(RefMap())[e := old(e.refs) - 1]
      ensures deletions == if old(e.refs) == 1 then old(deletions) + [e] else old(deletions)
      ensures var moved := e.inCache && old(e.refs) == 2;
        TwoRings(Nexts(), Prevs(), lru, if moved then idle + [e] else idle, inUse,
            if moved then Drop(busy, e) else busy)
    {
      hide *;
      SetRefs(e, e.refs - 1);
      if e.refs == 0 {
        deletions := deletions + [e];
      } else if e.inCache && e.refs == 1 {
        TwoRingsSwap(Nexts(), Prevs(), lru, idle, inUse, busy);
        Move(e, lru, inUse, busy, idle);
        TwoRingsSwap(Nexts(), Prevs(), inUse, Drop(busy, e), lru, idle + [e]);
      }
    }

    /** A client gives its handle back. */
    method Release(e: LRUHandle)
      requires Valid() && e in contents.clients && contents.clients[e] > 0
      modifies this`contents, this`deletions, nodes`next, nodes`prev, e`refs
      ensures Valid() && contents == Released(old(contents), e) && nodes == old(nodes)
    {
      hide *;
      Parts();
      CountsOf(e);
      ghost var c := contents;
      ReleasedIsValid(c, e);
      CountsReleased(c, RefMap(), CacheMap(), e);
      ReleasedParts(c, e);
      RefIs(e);
      Unref(e, c.lru, c.inUse);
      contents := Released(c, e);
      NodesStay(c);
      IsValid();
    }

    /** Everything is as it should be, except that e is no longer in the table. */
    ghost predicate ValidBut(e: LRUHandle)
      reads this, nodes, table, table.handles`nextHash
    {
      && contents.Valid() && TwoRings(Nexts(), Prevs(), lru, contents.lru, inUse, contents.inUse)
      && usage == contents.Usage() && deletions == contents.deleted
      && Nodes(contents) && CountsAre(contents, RefMap(), CacheMap()) && table.Valid()
      && e in contents.clients && contents.Cached(e) && table.handles == Without(contents.CachedSet(), e)
    }

    lemma PartsBut(e: LRUHandle)
      requires ValidBut(e)
      ensures contents.Valid() && TwoRings(Nexts(), Prevs(), lru, contents.lru, inUse, contents.inUse)
      ensures usage == contents.Usage() && deletions == contents.deleted
      ensures Nodes(contents) && CountsAre(contents, RefMap(), CacheMap()) && table.Valid()
      ensures e in contents.clients && contents.Cached(e) && table.handles == Without(contents.CachedSet(), e)
      ensures e.refs == contents.clients[e] + 1 && e.inCache && e in nodes && e != lru && e != inUse
      ensures e in contents.lru <==> contents.clients[e] == 0
      ensures e in contents.inUse <==> contents.clients[e] > 0
    {
      assert contents.Tells(e) && CountIs(contents, RefMap(), CacheMap(), e);
    }

    /** The cache gives up an entry that has already been removed from the table. */
    method FinishErase(e: LRUHandle)
      requires ValidBut(e)
      modifies this`usage, this`contents, this`deletions, nodes`next, nodes`prev, e`refs, e`inCache
      ensures Valid() && contents == Evicted(old(contents), e) && nodes == old(nodes)
    {
      hide *;
      PartsBut(e);
      ghost var c := contents;
      EvictedIsValid(c, e);
      CountsEvicted(c, RefMap(), CacheMap(), e);
      EvictedParts(c, e);
      RefIs(e);
      LetGo(e, c);
      contents := Evicted(c, e);
      NodesAfterErase(c, e);
      IsValid();
    }

    /** The cache's part of giving an entry up: off its list, out of the charge, one reference less. */
    method LetGo(e: LRUHandle, ghost c: Contents)
      requires TwoRings(Nexts(), Prevs(), lru, c.lru, inUse, c.inUse)
      requires e in nodes && e in c.clients && e.refs == c.clients[e] + 1 && usage >= e.charge
      requires e in c.lru || e in c.inUse
      requires e in c.lru <==> c.clients[e] == 0
      requires e in c.lru ==> e !in c.inUse
      modifies this`usage, this`deletions, nodes`next, nodes`prev, e`refs, e`inCache
      ensures RefMap() == old(RefMap())[e := old(e.refs) - 1] && CacheMap() == old(CacheMap())[e := false]
      ensures usage == old(usage) - e.charge
      ensures deletions == if e in c.lru then old(deletions) + [e] else old(deletions)
      ensures TwoRings(Nexts(), Prevs(), lru, if e in c.lru then Drop(c.lru, e) else c.lru,
                       inUse, if e in c.lru then c.inUse else Drop(c.inUse, e))
    {
      hide *;
      Detach(e, c);
      SetInCache(e, false);
      usage := usage - e.charge;
      Unref(e, if e in c.lru then Drop(c.lru, e) else c.lru, if e in c.lru then c.inUse else Drop(c.inUse, e));
    }

    /** Takes e off the list it is on. */
    method Detach(e: LRUHandle, ghost c: Contents)
      requires TwoRings(Nexts(), Prevs(), lru, c.lru, inUse, c.inUse) && (e in c.lru || e in c.inUse)
      modifies nodes`next, nodes`prev
      ensures TwoRings(Nexts(), Prevs(), lru, if e in c.lru then Drop(c.lru, e) else c.lru,
                       inUse, if e in c.lru then c.inUse else Drop(c.inUse, e))
    {
      hide *;
      TwoRingsSwap(Nexts(), Prevs(), lru, c.lru, inUse, c.inUse);
      ghost var idle := e in c.lru;
      LRU_Remove(e, if idle then lru else inUse, if idle then c.lru else c.inUse,
                 if idle then inUse else lru, if idle then c.inUse else c.lru);
      if !idle {
        TwoRingsSwap(Nexts(), Prevs(), inUse, Drop(c.inUse, e), lru, c.lru);
      }
    }

    method SetInCache(h: LRUHandle, b: bool)
      requires h in nodes
      modifies h`inCache
      ensures CacheMap() == old(CacheMap())[h := b] && h.inCache == b
    {
      h.inCache := b;
    }

    lemma NodesAfterErase(c: Contents, e: LRUHandle)
      requires Nodes(c) && table.handles == Without(c.CachedSet(), e) && contents.clients.Keys == c.clients.Keys
      requires forall g :: g in c.clients ==> (contents.Cached(g) <==> c.Cached(g) && g != e)
      ensures Nodes(contents) && InTable(contents)
    {
    }

    // -------------------------------------------------------------- the client's operations

    lemma TableHolds(key: Key, hash: nat, e: LRUHandle?)
      requires Valid() && Finds(table.handles, key, hash, e)
      ensures Finds(contents.CachedSet(), key, hash, e)
      ensures e != null ==> e in contents.clients && contents.Cached(e)
    {
    }

    method Lookup(key: Key, hash: nat) returns (e: LRUHandle?)
      requires Valid()
      modifies this`contents, nodes`next, nodes`prev, nodes`refs
      ensures Valid() && Finds(old(contents).CachedSet(), key, hash, e) && nodes == old(nodes)
      ensures e == null ==> contents == old(contents)
      ensures e != null ==> e in old(contents).clients && contents == Taken(old(contents), e)
    {
      hide *;
      Parts();
      e := table.Lookup(key, hash);
      TableHolds(key, hash, e);
      if e != null {
        CountsOf(e);
        Ref(e);
      }
    }

    /** After Remove took e out of the table. */
    lemma RemovedFromTable(c: Contents, e: LRUHandle)
      requires c == contents && contents.Valid() && TwoRings(Nexts(), Prevs(), lru, contents.lru, inUse, contents.inUse)
      requires usage == contents.Usage() && deletions == contents.deleted
      requires Nodes(contents) && CountsAre(contents, RefMap(), CacheMap()) && table.Valid()
      requires e in contents.clients && contents.Cached(e) && table.handles == Without(contents.CachedSet(), e)
      ensures ValidBut(e)
    {
    }

    lemma InTableIs()
      requires Valid()
      ensures table.handles == contents.CachedSet() && table.handles <= nodes
    {
    }

    lemma NothingRemoved(c: Contents)
      requires c == contents && contents.Valid() && TwoRings(Nexts(), Prevs(), lru, contents.lru, inUse, contents.inUse)
      requires usage == contents.Usage() && deletions == contents.deleted
      requires Nodes(contents) && CountsAre(contents, RefMap(), CacheMap()) && table.Valid()
      requires table.handles == Without(contents.CachedSet(), null)
      ensures Valid()
    {
    }

    /** Drops the entry with this key from the cache; clients may still hold it. */
    method Erase(key: Key, hash: nat) returns (ghost e: LRUHandle?)
      requires Valid()
      modifies this`usage, this`contents, this`deletions, table, nodes
      ensures Valid() && nodes == old(nodes) && Finds(old(contents).CachedSet(), key, hash, e)
      ensures contents == if e == null then old(contents) else Evicted(old(contents), e)
    {
      hide *;
      Parts();
      InTableIs();
      ghost var c := contents;
      var removed := table.Remove(key, hash);
      e := removed;
      if removed != null {
        FoundIsKnown(c, key, hash, removed);
        RemovedFromTable(c, removed);
        FinishErase(removed);
      } else {
        NothingRemoved(c);
      }
    }

    lemma OldestIs()
      requires Valid()
      ensures lru in nodes && lru.next == if contents.lru == [] then lru else contents.lru[0]
      ensures contents.lru != [] ==> contents.lru[0] in contents.CachedSet()
    {
      assert Joined(Nexts(), Prevs(), RingNode(lru, contents.lru, 0), RingNode(lru, contents.lru, 1));
      if contents.lru != [] {
        assert contents.lru[0] in contents.lru;
      }
    }

    /** One turn of the eviction loops. */
    method EvictOldest()
      requires Valid() && contents.lru != []
      modifies this`usage, this`contents, this`deletions, table, nodes
      ensures Valid() && nodes == old(nodes) && contents == Evicted(old(contents), old(contents).lru[0])
    {
      hide *;
      Parts();
      InTableIs();
      OldestIs();
      ghost var c := contents;
      var e: LRUHandle := lru.next;
      ghost var r := OnlyFound(e);
      var removed := table.Remove(e.key, e.hash);
      FoundSame(c.CachedSet(), e, r, removed);
      CachedIsKnown(c, e);
      RemovedFromTable(c, e);
      FinishErase(e);
    }

    lemma OnlyFound(e: LRUHandle) returns (r: LRUHandle)
      requires table.Valid() && e in table.handles
      ensures r == e && forall g :: g in table.handles && Matches(g, e.key, e.hash) ==> g == e
    {
      r := e;
    }

    /** Drops every idle entry. */
    method Prune()
      requires Valid()
      modifies this`usage, this`contents, this`deletions, table, nodes
      ensures Valid() && nodes == old(nodes) && contents == Shrunk(old(contents), -1)
    {
      hide *;
      OldestIs();
      Parts();
      ghost var goal := Shrunk(contents, -1);
      while lru.next != lru
        invariant Valid() && nodes == old(nodes) && Shrunk(contents, -1) == goal
        invariant lru.next == if contents.lru == [] then lru else contents.lru[0]
        decreases |contents.lru|
      {
        ShrinkStep(contents, -1);
        IdleIsNotHead();
        EvictOldest();
        OldestIs();
      }
      IdleIsNotHead();
      ShrinkEnds(contents, -1);
    }

    lemma IdleIsNotHead()
      requires Valid()
      ensures lru !in contents.lru && contents.Valid()
    {
    }

    /** Evicts idle entries, oldest first, until the cache fits. */
    method Shrink()
      requires Valid()
      modifies this`usage, this`contents, this`deletions, table, nodes
      ensures Valid() && nodes == old(nodes) && contents == Shrunk(old(contents), capacity)
    {
      hide *;
      OldestIs();
      Parts();
      ghost var goal := Shrunk(contents, capacity);
      while usage > capacity && lru.next != lru
        invariant Valid() && nodes == old(nodes) && Shrunk(contents, capacity) == goal && usage == contents.Usage()
        invariant lru.next == if contents.lru == [] then lru else contents.lru[0]
        decreases |contents.lru|
      {
        ShrinkStep(contents, capacity);
        IdleIsNotHead();
        EvictOldest();
        Parts();
        OldestIs();
      }
      IdleIsNotHead();
      ShrinkEnds(contents, capacity);
    }

    /** A new node, on no list yet. */
    ghost method AddNode(e: LRUHandle)
      requires Valid() && e !in nodes
      modifies this`nodes
      ensures nodes == old(nodes) + {e}
      ensures RefMap() == old(RefMap())[e := e.refs] && CacheMap() == old(CacheMap())[e := e.inCache]
      ensures TwoRings(Nexts(), Prevs(), lru, contents.lru, inUse, contents.inUse)
    {
      hide *;
      Parts();
      NotOnLists(e);
      TwoRingsExtend(Nexts(), Prevs(), lru, contents.lru, inUse, contents.inUse, e, e.next, e.prev);
      GrowNodes(e);
    }

    ghost method GrowNodes(e: LRUHandle)
      modifies this`nodes
      ensures nodes == old(nodes) + {e}
      ensures Nexts() == old(Nexts())[e := e.next] && Prevs() == old(Prevs())[e := e.prev]
      ensures RefMap() == old(RefMap())[e := e.refs] && CacheMap() == old(CacheMap())[e := e.inCache]
    {
      nodes := nodes + {e};
    }

    lemma NotOnLists(e: LRUHandle)
      requires Valid() && e !in nodes
      ensures e != lru && e != inUse && e !in contents.lru && e !in contents.inUse && e !in contents.clients
      ensures e !in table.handles
    {
    }

    /** An entry the cache does not keep: only its handle is out. */
    ghost method HoldEntry(e: LRUHandle)
      requires Valid() && e !in nodes && e.refs == 1 && !e.inCache
      modifies this`nodes, this`contents
      ensures Valid() && nodes == old(nodes) + {e} && contents == Created(old(contents), e, false)
    {
      hide *;
      Parts();
      NotOnLists(e);
      ghost var c := contents;
      CreatedIsValid(c, e, false);
      CountsCreated(c, RefMap(), CacheMap(), e, false);
      CreatedParts(c, e, false);
      NodesAre();
      AddNode(e);
      contents := Created(c, e, false);
      NodesGrow(c, e);
      NotKept(c, e);
      IsValid();
    }

    lemma NodesGrow(c: Contents, e: LRUHandle)
      requires contents.clients.Keys == c.clients.Keys + {e} && e != lru && e != inUse
      requires lru !in c.clients && inUse !in c.clients && nodes == c.clients.Keys + {lru, inUse} + {e}
      ensures Nodes(contents)
    {
    }

    lemma NodesAre()
      requires Valid()
      ensures nodes == contents.clients.Keys + {lru, inUse} && lru !in contents.clients && inUse !in contents.clients
    {
    }

    lemma NotKept(c: Contents, e: LRUHandle)
      requires InTable(c) && contents.clients.Keys == c.clients.Keys + {e} && e !in c.clients && !contents.Cached(e)
      requires forall g :: g in c.clients ==> (contents.Cached(g) <==> c.Cached(g))
      ensures InTable(contents)
    {
    }

    /** Puts a new entry on the in-use list and into the table, in place of any entry with its key. */
    method AddEntry(e: LRUHandle) returns (ghost replaced: LRUHandle?)
      requires Valid() && e !in nodes && e.refs == 1 && !e.inCache
      modifies this`usage, this`contents, this`deletions, this`nodes, table, nodes, e
      ensures Valid() && nodes == old(nodes) + {e}
      ensures Finds(old(contents).CachedSet(), e.key, e.hash, replaced)
      ensures var c := Created(old(contents), e, true);
        contents == if replaced == null then c else Evicted(c, replaced)
    {
      hide *;
      Parts();
      NotOnLists(e);
      InTableIs();
      ghost var c := contents;
      LinkEntry(e);
      var other := table.Insert(e);
      replaced := other;
      InsertedInto(c, e, other);
      LinkedIs(c, e);
      if other != null {
        FinishErase(other);
      }
    }

    /** Everything but the table knows of the new entry. */
    ghost predicate Linked(c: Contents, e: LRUHandle)
      reads this, nodes`next, nodes`prev, nodes`refs, nodes`inCache
    {
      && contents == Created(c, e, true) && c.Valid() && e !in c.clients
      && contents.Valid() && TwoRings(Nexts(), Prevs(), lru, contents.lru, inUse, contents.inUse)
      && usage == contents.Usage() && deletions == contents.deleted
      && Nodes(contents) && CountsAre(contents, RefMap(), CacheMap())
    }

    /** The cache's own reference to a new entry. */
    method MarkCached(e: LRUHandle)
      requires e in nodes && e.refs == 1
      modifies e`refs, e`inCache
      ensures RefMap() == old(RefMap())[e := 2] && CacheMap() == old(CacheMap())[e := true]
    {
      e.refs := e.refs + 1;
      e.inCache := true;
    }

    /** A new node goes on the in-use list, with the cache's reference, and is charged. */
    method LinkNode(e: LRUHandle, ghost c: Contents)
      requires TwoRings(Nexts(), Prevs(), lru, c.lru, inUse, c.inUse)
      requires e in nodes && e.refs == 1 && e != lru && e != inUse && e !in c.lru && e !in c.inUse
      modifies this`usage, nodes`next, nodes`prev, e`refs, e`inCache
      ensures RefMap() == old(RefMap())[e := 2] && CacheMap() == old(CacheMap())[e := true]
      ensures usage == old(usage) + e.charge
      ensures TwoRings(Nexts(), Prevs(), lru, c.lru, inUse, c.inUse + [e])
    {
      hide *;
      MarkCached(e);
      TwoRingsSwap(Nexts(), Prevs(), lru, c.lru, inUse, c.inUse);
      LRU_Append(inUse, e, c.inUse, lru, c.lru);
      TwoRingsSwap(Nexts(), Prevs(), inUse, c.inUse + [e], lru, c.lru);
      usage := usage + e.charge;
    }

    method LinkEntry(e: LRUHandle)
      requires Valid() && e !in nodes && e.refs == 1 && !e.inCache
      modifies this`usage, this`contents, this`nodes, nodes`next, nodes`prev, e`next, e`prev, e`refs, e`inCache
      ensures Linked(old(contents), e) && nodes == old(nodes) + {e}
    {
      hide *;
      Parts();
      NotOnLists(e);
      NodesAre();
      ghost var c := contents;
      CreatedIsValid(c, e, true);
      ghost var refs, inCache := RefMap(), CacheMap();
      CountsCreated(c, refs, inCache, e, true);
      CreatedParts(c, e, true);
      AddNode(e);
      LinkNode(e, c);
      assert RefMap() == refs[e := 2] && CacheMap() == inCache[e := true];
      contents := Created(c, e, true);
      NodesGrow(c, e);
      IsLinked(c, e);
    }

    lemma IsLinked(c: Contents, e: LRUHandle)
      requires contents == Created(c, e, true) && c.Valid() && e !in c.clients
      requires contents.Valid() && TwoRings(Nexts(), Prevs(), lru, contents.lru, inUse, contents.inUse)
      requires usage == contents.Usage() && deletions == contents.deleted
      requires Nodes(contents) && CountsAre(contents, RefMap(), CacheMap())
      ensures Linked(c, e)
    {
    }

    lemma LinkedIs(c: Contents, e: LRUHandle)
      requires Linked(c, e)
      ensures contents == Created(c, e, true)
    {
    }

    lemma InsertedInto(c: Contents, e: LRUHandle, replaced: LRUHandle?)
      requires Linked(c, e) && table.Valid() && Finds(c.CachedSet(), e.key, e.hash, replaced)
      requires table.handles == Without(c.CachedSet(), replaced) + {e}
      ensures replaced == null ==> Valid()
      ensures replaced != null ==> ValidBut(replaced) && replaced in nodes
    {
      hide *;
      LinkedParts(c, e);
      OneMoreCached(c, e);
      if replaced == null {
        WithoutNull(c.CachedSet());
        SameTable(c, e);
        IsValid();
      } else {
        OneWithout(c, e, replaced);
        RemovedFromTable(contents, replaced);
      }
    }

    lemma LinkedParts(c: Contents, e: LRUHandle)
      requires Linked(c, e)
      ensures contents == Created(c, e, true) && c.Valid() && e !in c.clients
      ensures contents.Valid() && TwoRings(Nexts(), Prevs(), lru, contents.lru, inUse, contents.inUse)
      ensures usage == contents.Usage() && deletions == contents.deleted
      ensures Nodes(contents) && CountsAre(contents, RefMap(), CacheMap())
    {
    }

    lemma SameTable(c: Contents, e: LRUHandle)
      requires contents.CachedSet() == c.CachedSet() + {e} && table.handles == c.CachedSet() + {e}
      ensures InTable(contents)
    {
    }

    lemma OneWithout(c: Contents, e: LRUHandle, h: LRUHandle)
      requires contents == Created(c, e, true) && e !in c.clients && Nodes(contents)
      requires Finds(c.CachedSet(), e.key, e.hash, h) && contents.CachedSet() == c.CachedSet() + {e}
      requires table.handles == Without(c.CachedSet(), h) + {e}
      ensures h in contents.clients && contents.Cached(h) && h in nodes
      ensures table.handles == Without(contents.CachedSet(), h)
    {
      assert h in c.CachedSet() && h != e;
    }

    /** Adds an entry, whose handle the caller must release; it replaces the one with its key. */
    method Insert(key: Key, hash: nat, value: nat, charge: nat) returns (e: LRUHandle, ghost replaced: LRUHandle?)
      requires Valid()
      modifies this`usage, this`contents, this`deletions, this`nodes, table, nodes
      ensures Valid() && fresh(e) && nodes == old(nodes) + {e}
      ensures e.key == key && e.hash == hash && e.value == value && e.charge == charge
      ensures Finds(if capacity > 0 then old(contents).CachedSet() else {}, key, hash, replaced)
      ensures var c := Created(old(contents), e, capacity > 0);
        contents == Shrunk(if replaced == null then c else Evicted(c, replaced), capacity)
    {
      hide *;
      e := new LRUHandle(key, hash, value, charge);
      replaced := null;
      NothingFound(key, hash);
      if capacity > 0 {
        replaced := AddEntry(e);
      } else {
        e.next := null;
        HoldEntry(e);
      }
      Shrink();
    }

    lemma RefIs(e: LRUHandle)
      requires e in nodes
      ensures e in RefMap() && RefMap()[e] == e.refs
    {
    }

    /** Only the entries' names and who is cached matter to the nodes and the table. */
    lemma NodesStay(c: Contents)
      requires Nodes(c) && InTable(c) && contents.clients.Keys == c.clients.Keys
      requires forall g :: g in c.clients ==> (contents.Cached(g) <==> c.Cached(g))
      ensures Nodes(contents) && InTable(contents)
    {
    }
  }

  lemma TakenParts(c: Contents, e: LRUHandle)
    requires e in c.clients
    ensures var t := Taken(c, e);
      && t.clients.Keys == c.clients.Keys && t.deleted == c.deleted
      && (e in c.lru ==> t.lru == Drop(c.lru, e) && t.inUse == c.inUse + [e])
      && (e !in c.lru ==> t.lru == c.lru && t.inUse == c.inUse)
  {
  }

  lemma ReleasedParts(c: Contents, e: LRUHandle)
    requires c.Valid() && e in c.clients && c.clients[e] > 0
    ensures var t := Released(c, e);
      var moved := c.Cached(e) && c.clients[e] == 1;
      && t.clients.Keys == c.clients.Keys && (c.Cached(e) <==> e in c.inUse)
      && t.lru == (if moved then c.lru + [e] else c.lru) && t.inUse == (if moved then Drop(c.inUse, e) else c.inUse)
      && t.deleted == (if !c.Cached(e) && c.clients[e] == 1 then c.deleted + [e] else c.deleted)
  {
    assert c.Tells(e);
  }

  lemma EvictedParts(c: Contents, e: LRUHandle)
    requires c.Valid() && e in c.clients && c.Cached(e)
    ensures var t := Evicted(c, e);
      && t.clients.Keys == c.clients.Keys
      && (c.clients[e] == 0 ==> t.lru == Drop(c.lru, e) && t.inUse == c.inUse && t.deleted == c.deleted + [e])
      && (c.clients[e] > 0 ==> t.lru == c.lru && t.inUse == Drop(c.inUse, e) && t.deleted == c.deleted)
  {
    assert c.Tells(e);
  }

  lemma NothingFound(key: Key, hash: nat)
    ensures Finds({}, key, hash, null)
  {
  }

  lemma CachedIsKnown(c: Contents, e: LRUHandle)
    requires e in c.CachedSet()
    ensures e in c.clients && c.Cached(e)
  {
  }

  lemma FoundIsKnown(c: Contents, key: Key, hash: nat, e: LRUHandle)
    requires Finds(c.CachedSet(), key, hash, e)
    ensures e in c.clients && c.Cached(e)
  {
  }

  lemma FoundSame(handles: set<LRUHandle>, e: LRUHandle, r: LRUHandle, removed: LRUHandle?)
    requires e in handles && Finds(handles, e.key, e.hash, removed)
    requires r == e && forall g :: g in handles && Matches(g, e.key, e.hash) ==> g == e
    ensures removed == e
  {
  }

  /** What is left after evicting idle entries until the usage fits the capacity. */
  ghost function Shrunk(c: Contents, capacity: int): Contents
    decreases |c.lru|
  {
    if c.Usage() > capacity && c.lru != [] then
      ShrinkMakesShorter(c);
      Shrunk(Evicted(c, c.lru[0]), capacity)
    else
      c
  }

  lemma ShrinkMakesShorter(c: Contents)
    requires c.lru != []
    ensures Evicted(c, c.lru[0]).lru == c.lru[1..]
  {
  }

  lemma ShrinkStep(c: Contents, capacity: int)
    requires c.Usage() > capacity && c.lru != []
    ensures Shrunk(c, capacity) == Shrunk(Evicted(c, c.lru[0]), capacity)
    ensures |Evicted(c, c.lru[0]).lru| < |c.lru|
  {
    ShrinkMakesShorter(c);
  }

  lemma ShrinkEnds(c: Contents, capacity: int)
    requires c.Usage() <= capacity || c.lru == []
    ensures Shrunk(c, capacity) == c
  {
  }

  /** Eviction takes the oldest idle entries, in order, and no more of them than it must; what it
      takes is deleted, and afterwards the cache fits or nothing is idle. */
  lemma {:induction false} ShrinkTakesOldest(c: Contents, capacity: int) returns (k: nat)
    requires c.Valid()
    ensures k <= |c.lru| && Shrunk(c, capacity).lru == c.lru[k..] && Shrunk(c, capacity).inUse == c.inUse
    ensures Shrunk(c, capacity).deleted == c.deleted + c.lru[..k] && Shrunk(c, capacity).clients == c.clients
    ensures Shrunk(c, capacity).Valid()
    ensures Shrunk(c, capacity).Usage() <= capacity || Shrunk(c, capacity).lru == []
    ensures k > 0 ==> Sum(c.lru[k - 1..]) + Sum(c.inUse) > capacity
    decreases |c.lru|
  {
    if c.Usage() > capacity && c.lru != [] {
      ShrinkStep(c, capacity);
      OldestEvicted(c);
      UsageIs(c);
      var t := Evicted(c, c.lru[0]);
      hide *;
      var j := ShrinkTakesOldest(t, capacity);
      k := j + 1;
      OneMoreTaken(c.lru, c.deleted, j);
    } else {
      ShrinkEnds(c, capacity);
      k := 0;
      assert c.lru[0..] == c.lru && c.deleted + c.lru[..0] == c.deleted;
    }
  }

  lemma UsageIs(c: Contents)
    ensures c.Usage() == Sum(c.lru) + Sum(c.inUse)
  {
  }

  lemma OneMoreTaken(s: seq<LRUHandle>, deleted: seq<LRUHandle>, j: nat)
    requires s != [] && j < |s|
    ensures s[1..][j..] == s[j + 1..] && deleted + [s[0]] + s[1..][..j] == deleted + s[..j + 1]
    ensures if j > 0 then s[1..][j - 1..] == s[j..] else s[j..] == s
  {
    assert [s[0]] + s[1..][..j] == s[..j + 1];
  }

  lemma OldestEvicted(c: Contents)
    requires c.Valid() && c.lru != []
    ensures var t := Evicted(c, c.lru[0]);
      t.Valid() && t.lru == c.lru[1..] && t.inUse == c.inUse && t.clients == c.clients
          && t.deleted == c.deleted + [c.lru[0]]
  {
    assert c.lru[0] in c.lru && c.lru[0] in c.clients;
    assert c.Tells(c.lru[0]);
    EvictedIsValid(c, c.lru[0]);
  }

  lemma TwoRingsExtend(nexts: Pointers, prevs: Pointers, head: LRUHandle, items: seq<LRUHandle>, other: LRUHandle,
                       others: seq<LRUHandle>,
                       e: LRUHandle, next: LRUHandle?, prev: LRUHandle?)
    requires TwoRings(nexts, prevs, head, items, other, others)
    requires e != head && e != other && e !in items && e !in others
    ensures TwoRings(nexts[e := next], prevs[e := prev], head, items, other, others)
  {
    hide Ring;
    RingWithoutNext(nexts, prevs, head, items, e, next);
    RingWithoutNext(nexts, prevs, other, others, e, next);
    RingWithoutNext(nexts[e := next], prevs, head, items, e, prev);
    RingWithoutNext(nexts[e := next], prevs, other, others, e, prev);
  }

  lemma OneMoreCached(c: Contents, e: LRUHandle)
    requires c.Valid() && e !in c.clients
    ensures Created(c, e, true).CachedSet() == c.CachedSet() + {e}
  {
    CreatedIsValid(c, e, true);
  }

  lemma CreatedParts(c: Contents, e: LRUHandle, cached: bool)
    ensures var t := Created(c, e, cached);
      && t.clients.Keys == c.clients.Keys + {e} && t.lru == c.lru && t.deleted == c.deleted
      && t.inUse == if cached then c.inUse + [e] else c.inUse
  {
  }

  lemma Apart(nexts: Pointers, prevs: Pointers, source: LRUHandle, items: seq<LRUHandle>, target: LRUHandle,
              others: seq<LRUHandle>, e: LRUHandle)
    requires TwoRings(nexts, prevs, source, items, target, others) && e in items
    ensures e != source && e != target && e !in others && e !in Drop(items, e)
  {
    DropMembers(items, e);
  }

  lemma EmptyRings(nexts: Pointers, prevs: Pointers, head: LRUHandle, other: LRUHandle)
    requires head != other
    requires Joined(nexts, prevs, head, head) && Joined(nexts, prevs, other, other)
    ensures TwoRings(nexts, prevs, head, [], other, [])
  {
  }
}
