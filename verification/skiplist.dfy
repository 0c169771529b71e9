/** The skip list under the memtable (db/skiplist.h): every pointer store leaves it searchable. */
module SkipLists {
  import opened Wrappers

  /** Keys are only compared, through a total order chosen by the client; a key is represented by its
      place in that order. */
  type Key = real

  const MAX_HEIGHT: nat := 12

  class Node {
    const key: Key
    const height: nat
    var next: seq<Node?>

    constructor (key: Key, height: nat)
      ensures this.key == key && this.height == height && |next| == height
    {
      this.key, this.height := key, height;
      next := seq(height, i => null);
    }

    function Next(n: nat): Node?
      requires n < |next|
      reads this
    {
      next[n]
    }

    method SetNext(n: nat, x: Node?)
      requires n < |next|
      modifies this
      ensures next == old(next)[n := x]
    {
      next := next[n := x];
    }
  }

  // ---------------------------------------------------------------- the lists

  predicate Ascending(s: seq<Node>) {
    forall i, j :: 0 <= i < j < |s| ==> s[i].key < s[j].key
  }

  /** The list of level l, without the head. */
  predicate LevelOk(head: Node, s: seq<Node>, l: nat) {
    Ascending(s) && forall n :: n in s ==> n != head && n.height > l
  }

  /** Every level is a sorted sublist of the one below it. */
  predicate Shape(head: Node, levels: seq<seq<Node>>) {
    && |levels| == MAX_HEIGHT && head.height == MAX_HEIGHT
    && (forall l :: 0 <= l < MAX_HEIGHT ==> LevelOk(head, levels[l], l))
    && (forall l :: 1 <= l < MAX_HEIGHT ==> Sublist(levels[l], levels[l - 1]))
  }

  predicate Sublist(upper: seq<Node>, lower: seq<Node>) {
    forall n :: n in upper ==> n in lower
  }

  /** The p-th node of a level, or null at its end. */
  function At(s: seq<Node>, p: nat): Node? {
    if p < |s| then s[p] else null
  }

  /** The node before position p. */
  function Pred(head: Node, s: seq<Node>, p: nat): Node
    requires p <= |s|
  {
    if p == 0 then head else s[p - 1]
  }

  /** How many nodes of a level come before `key`: p is the position of the first at or after it. */
  ghost predicate IsRank(s: seq<Node>, key: Key, p: nat) {
    && p <= |s|
    && (forall i :: 0 <= i < p ==> s[i].key < key)
    && (forall i :: p <= i < |s| ==> s[i].key >= key)
  }

  /** n is the last node of the level before the key, or the head. */
  ghost predicate IsPrev(head: Node, s: seq<Node>, key: Key, n: Node) {
    exists p :: IsRank(s, key, p) && n == Pred(head, s, p)
  }

  lemma PrevIs(head: Node, s: seq<Node>, key: Key, p: nat)
    requires IsRank(s, key, p)
    ensures p <= |s| && IsPrev(head, s, key, Pred(head, s, p))
  {
  }

  lemma PrevHasRank(head: Node, s: seq<Node>, key: Key, n: Node) returns (p: nat)
    requires IsPrev(head, s, key, n)
    ensures IsRank(s, key, p) && p <= |s| && n == Pred(head, s, p)
  {
    p :| IsRank(s, key, p) && n == Pred(head, s, p);
  }

  lemma RankWithin(s: seq<Node>, key: Key, p: nat)
    requires IsRank(s, key, p)
    ensures p <= |s|
  {
  }

  ghost function Rank(s: seq<Node>, key: Key): (p: nat)
    requires Ascending(s)
    ensures IsRank(s, key, p)
  {
    if s == [] || s[|s| - 1].key < key then |s| else Rank(s[..|s| - 1], key)
  }

  lemma RankIsUnique(s: seq<Node>, key: Key, p: nat, q: nat)
    requires IsRank(s, key, p) && IsRank(s, key, q)
    ensures p == q
  {
    assert p < |s| ==> s[p].key >= key;
    assert q < |s| ==> s[q].key >= key;
  }

  function InsertAt(s: seq<Node>, p: nat, x: Node): seq<Node>
    requires p <= |s|
  {
    s[..p] + [x] + s[p..]
  }

  lemma InsertKeepsLevel(head: Node, s: seq<Node>, l: nat, p: nat, x: Node)
    requires LevelOk(head, s, l) && IsRank(s, x.key, p)
    requires x != head && x.height > l && forall n :: n in s ==> n.key != x.key
    ensures LevelOk(head, InsertAt(s, p, x), l)
    ensures forall n :: n in InsertAt(s, p, x) <==> n == x || n in s
  {
    var t := InsertAt(s, p, x);
    forall i, j | 0 <= i < j < |t| ensures t[i].key < t[j].key {
      assert t[i] == if i < p then s[i] else if i == p then x else s[i - 1];
      assert t[j] == if j < p then s[j] else if j == p then x else s[j - 1];
    }
    forall n | n in s ensures n in t {
      var i :| 0 <= i < |s| && s[i] == n;
      assert t[if i < p then i else i + 1] == n;
    }
  }

  /** Linking x at level i, once it is linked below, keeps the shape. */
  lemma InsertKeepsShape(head: Node, levels: seq<seq<Node>>, i: nat, p: nat, x: Node)
    requires Shape(head, levels) && i < MAX_HEIGHT && IsRank(levels[i], x.key, p)
    requires x != head && x.height > i && forall n :: n in levels[i] ==> n.key != x.key
    requires i > 0 ==> x in levels[i - 1]
    ensures Shape(head, levels[i := InsertAt(levels[i], p, x)])
  {
    var then' := levels[i := InsertAt(levels[i], p, x)];
    InsertKeepsLevel(head, levels[i], i, p, x);
    hide LevelOk, InsertAt;
    forall l | 0 <= l < MAX_HEIGHT ensures LevelOk(head, then'[l], l) {
      assert LevelOk(head, levels[l], l);
    }
    forall l | 1 <= l < MAX_HEIGHT ensures Sublist(then'[l], then'[l - 1]) {
      assert Sublist(levels[l], levels[l - 1]);
    }
  }

  lemma NodesGrow(levels: seq<seq<Node>>, i: nat, p: nat, x: Node, nodes: set<Node>)
    requires i < |levels| && p <= |levels[i]| && forall l, n :: 0 <= l < |levels| && n in levels[l] ==> n in nodes
    ensures var after := levels[i := InsertAt(levels[i], p, x)];
      forall l, n :: 0 <= l < |levels| && n in after[l] ==> n in nodes + {x}
  {
  }

  // ---------------------------------------------------------------- pointers

  /** The pointers of every node. */
  type Links = map<Node, seq<Node?>>

  /** The pointers of one level spell out its list. */
  ghost predicate Linked(links: Links, head: Node, s: seq<Node>, l: nat) {
    forall p :: 0 <= p <= |s| ==> Points(links, Pred(head, s, p), l, At(s, p))
  }

  predicate Points(links: Links, n: Node, l: nat, target: Node?) {
    n in links && |links[n]| == n.height && l < n.height && links[n][l] == target
  }

  /** Where a search stands: it has passed only nodes before the key. */
  ghost predicate Searching(head: Node, levels: seq<seq<Node>>, key: Key, x: Node, level: nat) {
    && level < |levels|
    && (x == head || (x in levels[level] && x.key < key))
  }

  /** y may be linked at position p of level i: it is new there, in its place, and on the level below. */
  ghost predicate MayPublish(head: Node, levels: seq<seq<Node>>, i: nat, p: nat, y: Node) {
    && |levels| == MAX_HEIGHT && i < MAX_HEIGHT && IsRank(levels[i], y.key, p)
    && y != head && y.height > i && (forall n :: n in levels[i] ==> n.key != y.key)
    && (i > 0 ==> y in levels[i - 1])
  }

  /** A search under way: at a node of a level, or at its end. */
  datatype Search = Standing(x: Node, level: nat) | Ended(r: Node?)

  /** The position behind a node of a level. */
  ghost function PositionAfter(head: Node, s: seq<Node>, x: Node): (p: nat)
    ensures p <= |s|
  {
    if x != head && x in s then
      var i :| 0 <= i < |s| && s[i] == x;
      i + 1
    else 0
  }

  /** One load of a search: to the next node, if that comes before the key, or else down a level. */
  ghost function AfterStep(head: Node, levels: seq<seq<Node>>, key: Key, x: Node, level: nat): Search
    requires level < |levels|
  {
    var next := At(levels[level], PositionAfter(head, levels[level], x));
    if next != null && next.key < key then Standing(next, level)
    else if level > 0 then Standing(x, level - 1)
    else Ended(next)
  }

  /** A store to level i leaves the other levels' pointers as they are. */
  lemma StillLinked(links: Links, head: Node, s: seq<Node>, l: nat, changed: Node, i: nat, x: Node?)
    requires Linked(links, head, s, l) && l != i
    requires changed in links && i < |links[changed]|
    ensures Linked(links[changed := links[changed][i := x]], head, s, l)
  {
    var after := links[changed := links[changed][i := x]];
    forall q | 0 <= q <= |s| ensures Points(after, Pred(head, s, q), l, At(s, q)) {
      assert Points(links, Pred(head, s, q), l, At(s, q));
    }
  }

  /** A store to a node that a level does not hold leaves that level's pointers as they are. */
  lemma LinkedWithout(links: Links, head: Node, s: seq<Node>, l: nat, changed: Node, next: seq<Node?>)
    requires Linked(links, head, s, l) && changed != head && changed !in s
    ensures Linked(links[changed := next], head, s, l)
  {
    forall q | 0 <= q <= |s| ensures Points(links[changed := next], Pred(head, s, q), l, At(s, q)) {
      assert Points(links, Pred(head, s, q), l, At(s, q));
    }
  }

  /** Pointing the node before position p at x inserts x there. */
  lemma Relinked(links: Links, head: Node, s: seq<Node>, i: nat, p: nat, x: Node)
    requires Linked(links, head, s, i) && p <= |s|
    requires Points(links, x, i, At(s, p)) && x != Pred(head, s, p)
    requires forall q :: 0 <= q <= |s| && q != p ==> Pred(head, s, q) != Pred(head, s, p)
    ensures var prev := Pred(head, s, p);
      prev in links && i < |links[prev]| && Linked(links[prev := links[prev][i := x]], head, InsertAt(s, p, x), i)
  {
    var t, prev := InsertAt(s, p, x), Pred(head, s, p);
    assert Points(links, prev, i, At(s, p));
    var after := links[prev := links[prev][i := x]];
    forall q | 0 <= q <= |t| ensures Points(after, Pred(head, t, q), i, At(t, q)) {
      var r := if q <= p then q else q - 1;
      assert Points(links, Pred(head, s, r), i, At(s, r));
    }
  }

  class SkipList {
    const head: Node
    var maxHeight: nat
    ghost var levels: seq<seq<Node>>
    ghost var nodes: set<Node>

    ghost function Links(): Links
      reads this`nodes, nodes
    {
      map n | n in nodes :: n.next
    }

    ghost predicate Valid()
      reads this, nodes
    {
      && |levels| == MAX_HEIGHT && Shape(head, levels) && 1 <= maxHeight <= MAX_HEIGHT
      && (forall l :: maxHeight <= l < MAX_HEIGHT ==> levels[l] == [])
      && head in nodes && (forall l, n :: 0 <= l < MAX_HEIGHT && n in levels[l] ==> n in nodes)
      && (forall l :: 0 <= l < MAX_HEIGHT ==> Linked(Links(), head, levels[l], l))
    }

    constructor ()
      ensures Valid() && levels[0] == [] && fresh(nodes)
    {
      head := new Node(0.0, MAX_HEIGHT);
      maxHeight := 1;
      new;
      levels := seq(MAX_HEIGHT, i => []);
      nodes := {head};
      var i := 0;
      while i < MAX_HEIGHT
        invariant 0 <= i <= MAX_HEIGHT && |head.next| == MAX_HEIGHT && head.height == MAX_HEIGHT && nodes == {head}
                  && fresh(head)
        invariant forall j :: 0 <= j < i ==> head.next[j] == null
        invariant levels == seq(MAX_HEIGHT, i => []) && maxHeight == 1
      {
        head.SetNext(i, null);
        i := i + 1;
      }
    }

    lemma NextIs(l: nat, p: nat)
      requires Valid() && l < MAX_HEIGHT && p <= |levels[l]|
      ensures var n := Pred(head, levels[l], p);
        n in nodes && |n.next| == n.height && l < n.height && n.next[l] == At(levels[l], p)
    {
      assert Linked(Links(), head, levels[l], l);
      assert Points(Links(), Pred(head, levels[l], p), l, At(levels[l], p));
    }

    lemma ShapeOf(l: nat)
      requires Valid() && l < MAX_HEIGHT
      ensures LevelOk(head, levels[l], l)
      ensures l > 0 ==> Sublist(levels[l], levels[l - 1])
    {
    }

    /** Passing from one level to the next below it. */
    lemma Descend(l: nat, p: nat, key: Key) returns (q: nat)
      requires Valid() && 1 <= l < MAX_HEIGHT && p <= |levels[l]|
      requires p > 0 ==> levels[l][p - 1].key < key
      ensures q <= |levels[l - 1]| && Pred(head, levels[l - 1], q) == Pred(head, levels[l], p)
      ensures q > 0 ==> levels[l - 1][q - 1].key < key
    {
      ShapeOf(l);
      q := 0;
      if p > 0 {
        var x := levels[l][p - 1];
        assert x in levels[l] && x in levels[l - 1];
        var i :| 0 <= i < |levels[l - 1]| && levels[l - 1][i] == x;
        q := i + 1;
      }
    }

    /** A node before the key with none before the key behind it is where the rank is. */
    lemma RankHere(l: nat, p: nat, key: Key)
      requires Valid() && l < MAX_HEIGHT && p <= |levels[l]|
      requires p > 0 ==> levels[l][p - 1].key < key
      requires p < |levels[l]| ==> levels[l][p].key >= key
      ensures IsRank(levels[l], key, p)
    {
      ShapeOf(l);
      var s := levels[l];
      forall i | 0 <= i < p ensures s[i].key < key {
        assert i < p - 1 ==> s[i].key < s[p - 1].key;
      }
      forall i | p <= i < |s| ensures s[i].key >= key {
        assert p < i ==> s[p].key < s[i].key;
      }
    }

    predicate KeyIsAfterNode(key: Key, n: Node?) {
      n != null && n.key < key
    }

    /** The earliest node at or after the key, and the node before it on every level in use. */
    method FindGreaterOrEqual(key: Key) returns (r: Node?, prev: seq<Node>, ghost rank: nat)
      requires Valid()
      ensures IsRank(levels[0], key, rank) && r == At(levels[0], rank)
      ensures |prev| == MAX_HEIGHT
      ensures forall l :: 0 <= l < maxHeight ==> IsPrev(head, levels[l], key, prev[l])
    {
      hide Shape, Linked, LevelOk, Sublist, IsRank, IsPrev;
      var x: Node := head;
      var level := maxHeight - 1;
      prev := seq(MAX_HEIGHT, i => head);
      ghost var p: nat := 0;
      rank := 0;
      while true
        invariant 0 <= level < maxHeight && p <= |levels[level]| && x == Pred(head, levels[level], p)
        invariant p > 0 ==> levels[level][p - 1].key < key
        invariant |prev| == MAX_HEIGHT
        invariant forall l :: level < l < maxHeight ==> IsPrev(head, levels[l], key, prev[l])
        decreases level, |levels[level]| - p
      {
        NextIs(level, p);
        var next := x.Next(level);
        if KeyIsAfterNode(key, next) {
          x := next;
          p := p + 1;
        } else {
          RankHere(level, p, key);
          PrevIs(head, levels[level], key, p);
          prev := prev[level := x];
          if level == 0 {
            rank := p;
            return next, prev, rank;
          }
          p := Descend(level, p, key);
          level := level - 1;
        }
      }
    }

    /** The latest node before the key, or the head. */
    method FindLessThan(key: Key) returns (x: Node, ghost rank: nat)
      requires Valid()
      ensures IsRank(levels[0], key, rank) && x == Pred(head, levels[0], rank)
    {
      hide Shape, Linked, LevelOk, Sublist, IsRank;
      x := head;
      var level := maxHeight - 1;
      ghost var p: nat := 0;
      rank := 0;
      while true
        invariant 0 <= level < maxHeight && p <= |levels[level]| && x == Pred(head, levels[level], p)
        invariant p > 0 ==> levels[level][p - 1].key < key
        decreases level, |levels[level]| - p
      {
        NextIs(level, p);
        var next := x.Next(level);
        if next == null || next.key >= key {
          if level == 0 {
            RankHere(level, p, key);
            rank := p;
            return;
          }
          p := Descend(level, p, key);
          level := level - 1;
        } else {
          x := next;
          p := p + 1;
        }
      }
    }

    method FindLast() returns (x: Node)
      requires Valid()
      ensures x == Pred(head, levels[0], |levels[0]|)
    {
      hide Shape, Linked, LevelOk, Sublist;
      x := head;
      var level := maxHeight - 1;
      ghost var p: nat := 0;
      while true
        invariant 0 <= level < maxHeight && p <= |levels[level]| && x == Pred(head, levels[level], p)
        decreases level, |levels[level]| - p
      {
        NextIs(level, p);
        var next := x.Next(level);
        if next == null {
          if level == 0 {
            return;
          }
          p := Descend(level, p, x.key + 1.0);
          level := level - 1;
        } else {
          x := next;
          p := p + 1;
        }
      }
    }

    // -------------------------------------------------------------- insertion

    /** x may be linked at level i after prev, where p is its rank. */
    ghost predicate MayLink(x: Node, i: nat, prev: Node, p: nat)
      requires Valid()
      reads this, nodes, x
    {
      && i < maxHeight && |x.next| == x.height && (i == 0 ==> x !in nodes)
      && MayPublish(head, levels, i, p, x) && prev == Pred(head, levels[i], p)
    }

    /** x's pointer at level i. */
    ghost predicate PointsTo(x: Node, i: nat, target: Node?)
      reads x
    {
      |x.next| == x.height && i < x.height && x.next[i] == target
    }

    /** The first store: x, not yet reachable at this level, is pointed at its successor. */
    method PointForward(x: Node, i: nat, prev: Node, ghost p: nat)
      requires Valid() && MayLink(x, i, prev, p)
      modifies x
      ensures Valid() && MayLink(x, i, prev, p) && PointsTo(x, i, At(levels[i], p))
    {
      NextIs(i, p);
      ghost var links := Links();
      hide Shape, LevelOk, IsRank, Linked, Sublist;
      x.SetNext(i, prev.Next(i));
      if i > 0 {
        assert x in nodes;
        assert Links() == links[x := links[x][i := At(levels[i], p)]];
      } else {
        assert Links() == links;
      }
      forall l | 0 <= l < MAX_HEIGHT ensures Linked(Links(), head, levels[l], l) {
        if i > 0 {
          if l != i {
            StillLinked(links, head, levels[l], l, x, i, At(levels[i], p));
          } else {
            LinkedWithout(links, head, levels[i], i, x, links[x][i := At(levels[i], p)]);
          }
        }
      }
    }

    /** The second store publishes x at this level. */
    method Publish(x: Node, i: nat, prev: Node, ghost p: nat)
      requires Valid() && MayLink(x, i, prev, p) && PointsTo(x, i, At(levels[i], p))
      modifies prev, this`levels, this`nodes
      ensures Valid() && levels == old(levels)[i := InsertAt(old(levels[i]), p, x)] && nodes == old(nodes) + {x}
      ensures |x.next| == x.height
    {
      hide Shape, LevelOk, IsRank, Linked, InsertAt, Sublist;
      RankWithin(levels[i], x.key, p);
      NextIs(i, p);
      ShapeOf(i);
      ghost var s := levels[i];
      InsertKeepsShape(head, levels, i, p, x);
      InsertKeepsLevel(head, s, i, p, x);
      OthersBefore(i, p);
      ghost var links := Links()[x := x.next];
      forall l | 0 <= l < MAX_HEIGHT ensures Linked(links, head, levels[l], l) {
        if i == 0 {
          NotYetOn(x, l);
          LinkedWithout(Links(), head, levels[l], l, x, x.next);
        } else {
          assert links == Links();
        }
      }
      NodesGrow(levels, i, p, x, nodes);
      prev.SetNext(i, x);
      levels := levels[i := InsertAt(s, p, x)];
      nodes := nodes + {x};
      assert Links() == links[prev := links[prev][i := x]];
      forall l | 0 <= l < MAX_HEIGHT ensures Linked(Links(), head, levels[l], l) {
        if l != i {
          StillLinked(links, head, levels[l], l, prev, i, x);
        } else {
          Relinked(links, head, s, i, p, x);
        }
      }
    }

    lemma NotYetOn(x: Node, l: nat)
      requires Valid() && x !in nodes && l < MAX_HEIGHT
      ensures x !in levels[l] && x != head
    {
    }

    /** Only one position of a level comes after a given node. */
    lemma OthersBefore(i: nat, p: nat)
      requires Valid() && i < MAX_HEIGHT && p <= |levels[i]|
      ensures forall q :: 0 <= q <= |levels[i]| && q != p ==> Pred(head, levels[i], q) != Pred(head, levels[i], p)
    {
      ShapeOf(i);
      var s := levels[i];
      forall q | 0 <= q <= |s| && q != p ensures Pred(head, s, q) != Pred(head, s, p) {
        if q > 0 && p > 0 {
          assert q < p ==> s[q - 1].key < s[p - 1].key;
          assert p < q ==> s[p - 1].key < s[q - 1].key;
        } else if q > 0 {
          assert s[q - 1] in s;
        } else {
          assert s[p - 1] in s;
        }
      }
    }

    lemma KeyIsNew(key: Key, l: nat)
      requires Valid() && l < MAX_HEIGHT && forall n :: n in levels[0] ==> n.key != key
      ensures forall n :: n in levels[l] ==> n.key != key
      decreases l
    {
      if l > 0 {
        ShapeOf(l);
        KeyIsNew(key, l - 1);
      }
    }

    lemma PrevOnUnusedLevel(key: Key, l: nat)
      requires Valid() && maxHeight <= l < MAX_HEIGHT
      ensures IsPrev(head, levels[l], key, head)
    {
      assert IsRank(levels[l], key, 0);
    }

    /** Raises the list's height; the head precedes everything on the new levels. */
    method RaiseHeight(key: Key, height: nat, prev: seq<Node>) returns (all: seq<Node>)
      requires Valid() && height <= MAX_HEIGHT && |prev| == MAX_HEIGHT
      requires forall l :: 0 <= l < maxHeight ==> IsPrev(head, levels[l], key, prev[l])
      modifies this`maxHeight
      ensures Valid() && maxHeight >= height && |all| == MAX_HEIGHT
      ensures forall l :: 0 <= l < maxHeight ==> IsPrev(head, levels[l], key, all[l])
    {
      hide Shape, LevelOk, Linked, Sublist, IsRank, IsPrev;
      all := prev;
      if height > maxHeight {
        for i := maxHeight to height
          invariant |all| == MAX_HEIGHT && Valid() && maxHeight == old(maxHeight)
          invariant forall l :: 0 <= l < i ==> IsPrev(head, levels[l], key, all[l])
        {
          PrevOnUnusedLevel(key, i);
          all := all[i := head];
        }
        maxHeight := height;
      }
    }

    /** Links a new node level by level, from the lowest up; every store leaves a valid list. */
    method Link(x: Node, prev: seq<Node>, ghost rank: nat)
      requires Valid() && 1 <= x.height <= maxHeight && |prev| == MAX_HEIGHT && |x.next| == x.height && x !in nodes
      requires forall l, n :: 0 <= l < MAX_HEIGHT && n in levels[l] ==> n.key != x.key
      requires forall l :: 0 <= l < maxHeight ==> IsPrev(head, levels[l], x.key, prev[l])
      requires IsRank(levels[0], x.key, rank) && rank <= |levels[0]|
      modifies this`levels, this`nodes, nodes, x
      ensures Valid() && nodes == old(nodes) + {x}
      ensures levels[0] == InsertAt(old(levels[0]), rank, x)
    {
      ghost var before := levels;
      hide Shape, LevelOk, Linked, Sublist, IsRank, InsertAt, IsPrev;
      for i := 0 to x.height
        invariant Valid() && |x.next| == x.height && |before| == MAX_HEIGHT
        invariant nodes == if i == 0 then old(nodes) else old(nodes) + {x}
        invariant levels[0] == if i == 0 then before[0] else InsertAt(before[0], rank, x)
        invariant i > 0 ==> x in levels[i - 1]
        invariant forall l :: i <= l < MAX_HEIGHT ==> levels[l] == before[l]
      {
        assert IsPrev(head, before[i], x.key, prev[i]);
        ghost var p := PrevHasRank(head, levels[i], x.key, prev[i]);
        if i == 0 {
          RankIsUnique(before[0], x.key, p, rank);
        }
        NextIs(i, p);
        InsertedIsIn(before[i], p, x);
        assert MayLink(x, i, prev[i], p);
        PointForward(x, i, prev[i], p);
        Publish(x, i, prev[i], p);
      }
    }

    /** `height` is what RandomHeight returned. */
    method Insert(key: Key, height: nat) returns (ghost x: Node, ghost rank: nat)
      requires Valid() && 1 <= height <= MAX_HEIGHT
      requires forall n :: n in levels[0] ==> n.key != key
      modifies this, nodes
      ensures Valid() && fresh(nodes - old(nodes))
      ensures IsRank(old(levels[0]), key, rank) && x.key == key && fresh(x)
      ensures rank <= |old(levels[0])| && levels[0] == InsertAt(old(levels[0]), rank, x)
    {
      var r: Node?;
      var prev: seq<Node>;
      r, prev, rank := FindGreaterOrEqual(key);
      forall l, n | 0 <= l < MAX_HEIGHT && n in levels[l] ensures n.key != key {
        KeyIsNew(key, l);
      }
      assert rank <= |levels[0]|;
      hide Shape, LevelOk, Linked, Sublist, IsRank, InsertAt, IsPrev;
      prev := RaiseHeight(key, height, prev);
      var node := new Node(key, height);
      x := node;
      Link(node, prev, rank);
    }

    method Contains(key: Key) returns (b: bool)
      requires Valid()
      ensures b <==> exists n :: n in levels[0] && n.key == key
    {
      var r, prev, rank := FindGreaterOrEqual(key);
      hide Shape, LevelOk, Linked;
      b := r != null && key == r.key;
      if b {
        assert r in levels[0];
      }
      ShapeOf(0);
      ContainedIsFirst(rank, key);
    }

    lemma ContainedIsFirst(rank: nat, key: Key)
      requires Valid() && IsRank(levels[0], key, rank)
      ensures forall n :: n in levels[0] && n.key == key ==> rank < |levels[0]| && levels[0][rank] == n
    {
      ShapeOf(0);
      var s := levels[0];
      forall n | n in s && n.key == key ensures rank < |s| && s[rank] == n {
        var i :| 0 <= i < |s| && s[i] == n;
        assert i >= rank && s[rank].key >= key;
      }
    }

    // -------------------------------------------------------------- searches during an insertion

    /** One load of a search that runs while another thread inserts. */
    method SearchStep(key: Key, x: Node, level: nat) returns (nx: Node, nlevel: nat, done: bool, r: Node?)
      requires Valid() && Searching(head, levels, key, x, level) && level < MAX_HEIGHT
      ensures !done ==> Searching(head, levels, key, nx, nlevel) && nlevel <= level
      ensures !done && nlevel == level ==> nx in levels[level] && (x != head ==> x.key < nx.key)
      ensures done ==> level == 0 && exists p :: IsRank(levels[0], key, p) && r == At(levels[0], p)
      ensures AfterStep(head, levels, key, x, level) == if done then Ended(r) else Standing(nx, nlevel)
    {
      ghost var p: nat := Stands(key, x, level);
      NextIs(level, p);
      OthersBefore(level, p);
      ShapeOf(level);
      assert PositionAfter(head, levels[level], x) == p by {
        assert x == Pred(head, levels[level], PositionAfter(head, levels[level], x));
      }
      hide Shape, LevelOk, Linked;
      nx, nlevel, done, r := x, level, false, null;
      var next := x.Next(level);
      if KeyIsAfterNode(key, next) {
        nx := next;
        if p > 0 {
          OrderOf(level, p);
        }
      } else {
        RankHere(level, p, key);
        if level == 0 {
          done, r := true, next;
        } else {
          nlevel := level - 1;
        }
      }
    }

    lemma OrderOf(l: nat, p: nat)
      requires Valid() && l < MAX_HEIGHT && 0 < p < |levels[l]|
      ensures levels[l][p - 1].key < levels[l][p].key
    {
      ShapeOf(l);
    }

    lemma Stands(key: Key, x: Node, level: nat) returns (p: nat)
      requires Valid() && Searching(head, levels, key, x, level) && level < MAX_HEIGHT
      ensures p <= |levels[level]| && x == Pred(head, levels[level], p)
      ensures p > 0 ==> levels[level][p - 1].key < key
      ensures x == head <==> p == 0
    {
      ShapeOf(level);
      p := 0;
      if x != head {
        var i :| 0 <= i < |levels[level]| && levels[level][i] == x;
        p := i + 1;
      }
    }
  }

  lemma InsertedIsIn(s: seq<Node>, p: nat, x: Node)
    requires p <= |s|
    ensures x in InsertAt(s, p, x)
  {
    assert InsertAt(s, p, x)[p] == x;
  }

  /** Whatever is published meanwhile, a search under way goes on from where it stands. */
  lemma SearchSurvivesPublish(head: Node, levels: seq<seq<Node>>, key: Key, x: Node, level: nat, i: nat, p: nat,
                              y: Node)
    requires Searching(head, levels, key, x, level) && i < |levels| && p <= |levels[i]|
    ensures Searching(head, levels[i := InsertAt(levels[i], p, y)], key, x, level)
  {
    if x != head && level == i {
      var k :| 0 <= k < |levels[i]| && levels[i][k] == x;
      assert InsertAt(levels[i], p, y)[if k < p then k else k + 1] == x;
    }
  }

  /** A cursor over level 0; null is the position past the end. */
  class Iterator {
    const list: SkipList
    var node: Node?
    ghost var pos: nat

    ghost predicate Valid()
      reads this, list, list.nodes
    {
      list.Valid() && pos <= |list.levels[0]| && node == At(list.levels[0], pos)
    }

    constructor (list: SkipList)
      requires list.Valid()
      ensures Valid() && this.list == list && node == null
    {
      this.list := list;
      node := null;
      pos := |list.levels[0]|;
    }

    method Next()
      requires Valid() && node != null
      modifies this
      ensures Valid() && pos == old(pos) + 1
    {
      list.NextIs(0, pos + 1);
      node := node.Next(0);
      pos := pos + 1;
    }

    method Prev()
      requires Valid() && node != null
      modifies this
      ensures Valid() && pos == if old(pos) == 0 then |list.levels[0]| else old(pos) - 1
    {
      list.ShapeOf(0);
      ghost var rank;
      ghost var s := list.levels[0];
      assert IsRank(s, node.key, pos);
      var x;
      x, rank := list.FindLessThan(node.key);
      RankIsUnique(s, node.key, rank, pos);
      node := x;
      if node == list.head {
        node := null;
      }
      assert pos > 0 ==> s[pos - 1] in s;
      pos := if pos == 0 then |s| else pos - 1;
    }

    method Seek(target: Key)
      requires Valid()
      modifies this
      ensures Valid() && IsRank(list.levels[0], target, pos)
    {
      var prev;
      node, prev, pos := list.FindGreaterOrEqual(target);
    }

    method SeekToFirst()
      requires Valid()
      modifies this
      ensures Valid() && pos == 0
    {
      list.NextIs(0, 0);
      node := list.head.Next(0);
      pos := 0;
    }

    method SeekToLast()
      requires Valid()
      modifies this
      ensures Valid() && pos == if list.levels[0] == [] then 0 else |list.levels[0]| - 1
    {
      list.ShapeOf(0);
      ghost var s := list.levels[0];
      node := list.FindLast();
      assert s != [] ==> s[|s| - 1] in s;
      if node == list.head {
        node := null;
      }
      pos := if s == [] then 0 else |s| - 1;
    }
  }
}
