/** A search of a skip list while a writer inserts: every interleaving of its loads with the writer's
    stores (db/skiplist.h). */
module SkipListSearches {
  import opened Wrappers
  import opened SkipLists

  /** The reader takes a step, or the writer publishes a node at a position of a level. */
  datatype Event = Step | Published(level: nat, position: nat, node: Node)

  /** The events lead from the one state to the other. */
  ghost predicate IsRun(head: Node, key: Key, levels: seq<seq<Node>>, s: Search, events: seq<Event>,
                        after: seq<seq<Node>>, t: Search)
    decreases |events|
  {
    if events == [] then levels == after && s == t
    else
      match events[0]
      case Step =>
        s.Standing? && s.level < |levels| &&
        IsRun(head, key, levels, AfterStep(head, levels, key, s.x, s.level), events[1..], after, t)
      case Published(i, p, y) =>
        MayPublish(head, levels, i, p, y) && p <= |levels[i]| &&
        IsRun(head, key, levels[i := InsertAt(levels[i], p, y)], s, events[1..], after, t)
  }

  function Steps(events: seq<Event>): nat {
    if events == [] then 0 else (if events[0].Step? then 1 else 0) + Steps(events[1..])
  }

  function Publishes(events: seq<Event>): nat {
    if events == [] then 0 else (if events[0].Published? then 1 else 0) + Publishes(events[1..])
  }

  /** A search under way stands before the key. */
  ghost predicate OnCourse(head: Node, levels: seq<seq<Node>>, key: Key, s: Search) {
    Shape(head, levels) && (s.Standing? ==> s.level < MAX_HEIGHT && Searching(head, levels, key, s.x, s.level))
  }

  // ---------------------------------------------------------------- positions

  lemma LevelParts(head: Node, levels: seq<seq<Node>>, l: nat)
    requires Shape(head, levels) && l < MAX_HEIGHT
    ensures |levels| == MAX_HEIGHT && Ascending(levels[l]) && head !in levels[l]
    ensures l > 0 ==> Sublist(levels[l], levels[l - 1])
  {
    hide Ascending, Sublist;
    assert LevelOk(head, levels[l], l);
  }

  lemma SameIndex(s: seq<Node>, i: nat, j: nat)
    requires Ascending(s) && i < |s| && j < |s| && s[i].key == s[j].key
    ensures i == j
  {
  }

  lemma PositionIs(head: Node, levels: seq<seq<Node>>, key: Key, x: Node, level: nat)
    requires Shape(head, levels) && level < MAX_HEIGHT && Searching(head, levels, key, x, level)
    ensures var s := levels[level];
      var p := PositionAfter(head, s, x);
      && x == Pred(head, s, p) && (p > 0 ==> s[p - 1].key < key) && (x == head <==> p == 0)
  {
    LevelParts(head, levels, level);
    hide Shape, Ascending, Sublist;
  }

  lemma PositionOf(head: Node, levels: seq<seq<Node>>, level: nat, p: nat)
    requires Shape(head, levels) && level < MAX_HEIGHT && 0 < p <= |levels[level]|
    ensures PositionAfter(head, levels[level], levels[level][p - 1]) == p
  {
    LevelParts(head, levels, level);
    hide Shape, Ascending, Sublist;
    var s := levels[level];
    assert s[p - 1] in s;
    SameIndex(s, PositionAfter(head, s, s[p - 1]) - 1, p - 1);
  }

  lemma EarlierPart(lower: seq<Node>, i: nat, n: Node)
    requires Ascending(lower) && i < |lower| && n in lower && n.key < lower[i].key
    ensures n in lower[..i]
  {
    var j :| 0 <= j < |lower| && lower[j] == n;
    assert j < i && lower[..i][j] == n;
  }

  /** A level has no more nodes than the one below it. */
  lemma {:induction false} NoLonger(upper: seq<Node>, lower: seq<Node>)
    requires Ascending(upper) && Ascending(lower) && Sublist(upper, lower)
    ensures |upper| <= |lower|
  {
    if upper != [] {
      var m := |upper| - 1;
      assert upper[m] in upper;
      var i :| 0 <= i < |lower| && lower[i] == upper[m];
      forall n | n in upper[..m] ensures n in lower[..i] {
        var k :| 0 <= k < m && upper[k] == n;
        assert upper[k].key < upper[m].key && n in upper;
        EarlierPart(lower, i, n);
      }
      NoLonger(upper[..m], lower[..i]);
    }
  }

  lemma {:induction false} LevelIsShorter(head: Node, levels: seq<seq<Node>>, l: nat)
    requires Shape(head, levels) && l < MAX_HEIGHT
    ensures |levels[l]| <= |levels[0]|
  {
    LevelParts(head, levels, l);
    hide Shape, Ascending, Sublist;
    if l > 0 {
      LevelParts(head, levels, l - 1);
      NoLonger(levels[l], levels[l - 1]);
      LevelIsShorter(head, levels, l - 1);
    }
  }

  // ---------------------------------------------------------------- what is left of a search

  /** At most so many steps are left, when at most `b` nodes are yet to be published and no level gets
      longer than `most`. */
  ghost function Left(head: Node, levels: seq<seq<Node>>, x: Node, level: nat, b: nat, most: nat): int
    requires level < |levels|
  {
    level * (most + 1) + |levels[level]| - PositionAfter(head, levels[level], x) + b
  }

  /** A step ahead, down, or to the end, in terms of positions. */
  lemma StepIs(head: Node, levels: seq<seq<Node>>, key: Key, x: Node, level: nat)
    requires OnCourse(head, levels, key, Standing(x, level))
    ensures level < MAX_HEIGHT == |levels|
    ensures var s := levels[level];
      var p := PositionAfter(head, s, x);
      && (p < |s| && s[p].key < key ==>
           && AfterStep(head, levels, key, x, level) == Standing(s[p], level)
           && Searching(head, levels, key, s[p], level) && PositionAfter(head, s, s[p]) == p + 1)
      && (!(p < |s| && s[p].key < key) ==>
           && AfterStep(head, levels, key, x, level) == (if level > 0 then Standing(x, level - 1) else Ended(At(s, p)))
           && (level > 0 ==> Searching(head, levels, key, x, level - 1))
           && IsRank(s, key, p))
  {
    PositionIs(head, levels, key, x, level);
    LevelParts(head, levels, level);
    var s := levels[level];
    var p := PositionAfter(head, s, x);
    if p < |s| && s[p].key < key {
      PositionOf(head, levels, level, p + 1);
      assert s[p] in s;
      hide Shape, Ascending, IsRank, PositionAfter, Sublist;
    } else {
      RankAt(s, key, p);
      hide Shape, Ascending, IsRank, PositionAfter;
    }
  }

  lemma StepGetsOn(head: Node, levels: seq<seq<Node>>, key: Key, x: Node, level: nat, b: nat, most: nat)
    requires OnCourse(head, levels, key, Standing(x, level)) && |levels[0]| + b <= most
    ensures var s := AfterStep(head, levels, key, x, level);
      && OnCourse(head, levels, key, s)
      && (s.Standing? ==>
           s.level < |levels| && Left(head, levels, s.x, s.level, b, most) < Left(head, levels, x, level, b, most))
      && (s.Ended? ==> EndsRight(levels, key, s.r))
      && 0 <= Left(head, levels, x, level, b, most)
  {
    StepIs(head, levels, key, x, level);
    hide Shape, PositionAfter, Searching, IsRank, AfterStep;
    if level > 0 {
      LevelIsShorter(head, levels, level - 1);
      OneLevelDown(level, most);
    }
    NotNegative(level, most);
  }

  lemma NotNegative(level: nat, most: nat)
    ensures level * (most + 1) >= 0
  {
  }

  /** The first node at or after the key, or null. */
  ghost predicate EndsRight(levels: seq<seq<Node>>, key: Key, r: Node?)
    requires |levels| > 0
  {
    exists p :: IsRank(levels[0], key, p) && r == At(levels[0], p)
  }

  lemma OneLevelDown(level: nat, most: nat)
    requires level > 0
    ensures level * (most + 1) == (level - 1) * (most + 1) + most + 1
  {
  }

  lemma RankAt(s: seq<Node>, key: Key, p: nat)
    requires Ascending(s) && p <= |s| && (p > 0 ==> s[p - 1].key < key) && (p < |s| ==> s[p].key >= key)
    ensures IsRank(s, key, p)
  {
    forall i | 0 <= i < p ensures s[i].key < key {
      assert i < p - 1 ==> s[i].key < s[p - 1].key;
    }
    forall i | p <= i < |s| ensures s[i].key >= key {
      assert p < i ==> s[p].key < s[i].key;
    }
  }

  /** Where a search stands in its level after a store. */
  lemma PositionMoves(head: Node, levels: seq<seq<Node>>, key: Key, x: Node, level: nat, i: nat, p: nat, y: Node)
    requires OnCourse(head, levels, key, Standing(x, level)) && MayPublish(head, levels, i, p, y) && p <= |levels[i]|
    requires var after := levels[i := InsertAt(levels[i], p, y)]; OnCourse(head, after, key, Standing(x, level))
    ensures level < |levels| && var after := levels[i := InsertAt(levels[i], p, y)];
      |after[level]| - PositionAfter(head, after[level], x)
          <= |levels[level]| - PositionAfter(head, levels[level], x) + 1
  {
    var after := levels[i := InsertAt(levels[i], p, y)];
    PositionIs(head, levels, key, x, level);
    PositionIs(head, after, key, x, level);
    var q := PositionAfter(head, levels[level], x);
    hide Shape, Searching, IsRank, PositionAfter;
    if level == i && q > 0 {
      var r := if q - 1 < p then q else q + 1;
      assert after[i][r - 1] == levels[i][q - 1];
      PositionOf(head, after, i, r);
    }
  }

  /** A store leaves a search on course, and adds at most one step to it. */
  lemma PublishKeepsCourse(head: Node, levels: seq<seq<Node>>, key: Key, s: Search, i: nat, p: nat, y: Node,
                           b: nat, most: nat)
    requires OnCourse(head, levels, key, s) && MayPublish(head, levels, i, p, y) && p <= |levels[i]|
    ensures var after := levels[i := InsertAt(levels[i], p, y)];
      && OnCourse(head, after, key, s) && |after| == |levels| == MAX_HEIGHT
      && |after[0]| <= |levels[0]| + 1
      && (s.Standing? ==>
           && s.level < |levels|
           && Left(head, after, s.x, s.level, b, most) <= Left(head, levels, s.x, s.level, b + 1, most))
  {
    InsertKeepsShape(head, levels, i, p, y);
    hide Shape, PositionAfter, IsRank;
    if s.Standing? {
      SearchSurvivesPublish(head, levels, key, s.x, s.level, i, p, y);
      hide Searching;
      PositionMoves(head, levels, key, s.x, s.level, i, p, y);
    }
  }

  lemma PublishWithin(head: Node, levels: seq<seq<Node>>, i: nat, p: nat, y: Node)
    requires MayPublish(head, levels, i, p, y)
    ensures i < |levels| && p <= |levels[i]|
  {
  }

  lemma LastEvent(events: seq<Event>)
    requires events != []
    ensures events[1..] != [] ==> events[1..][|events[1..]| - 1] == events[|events| - 1]
    ensures events[1..] == [] ==> events[|events| - 1] == events[0]
  {
  }

  lemma CourseLevels(head: Node, levels: seq<seq<Node>>, key: Key, s: Search)
    requires OnCourse(head, levels, key, s)
    ensures |levels| == MAX_HEIGHT
  {
  }

  /** Every interleaving keeps the search on course; it takes a bounded number of steps, however many
      nodes are published on its way; and where it ends is the first node at or after the key of the
      list as it is then. */
  lemma {:induction false} SearchEnds(head: Node, key: Key, levels: seq<seq<Node>>, s: Search, events: seq<Event>,
                                      after: seq<seq<Node>>, t: Search, most: nat)
    requires OnCourse(head, levels, key, s) && IsRun(head, key, levels, s, events, after, t)
    requires |levels[0]| + Publishes(events) <= most
    ensures OnCourse(head, after, key, t) && |after| == MAX_HEIGHT
    ensures t.Standing? ==>
      && s.Standing? && s.level < |levels| && t.level < |after|
      && Steps(events) + Left(head, after, t.x, t.level, 0, most)
         <= Left(head, levels, s.x, s.level, Publishes(events), most)
    ensures t.Ended? && events != [] && events[|events| - 1].Step? ==> EndsRight(after, key, t.r)
    decreases |events|
  {
    hide Left, EndsRight, MayPublish, InsertAt, AfterStep, Shape, Searching;
    CourseLevels(head, levels, key, s);
    if events != [] {
      LastEvent(events);
      match events[0]
      case Step =>
        StepGetsOn(head, levels, key, s.x, s.level, Publishes(events), most);
        SearchEnds(head, key, levels, AfterStep(head, levels, key, s.x, s.level), events[1..], after, t, most);
      case Published(i, p, y) =>
        PublishWithin(head, levels, i, p, y);
        PublishKeepsCourse(head, levels, key, s, i, p, y, Publishes(events[1..]), most);
        SearchEnds(head, key, levels[i := InsertAt(levels[i], p, y)], s, events[1..], after, t, most);
    }
  }

  lemma StartsOnCourse(head: Node, levels: seq<seq<Node>>, key: Key, level: nat, b: nat)
    requires Shape(head, levels) && level < MAX_HEIGHT
    ensures OnCourse(head, levels, key, Standing(head, level)) && level < |levels| == MAX_HEIGHT
    ensures var most := |levels[0]| + b;
      Left(head, levels, head, level, b, most) < (level + 1) * (most + 1)
  {
    LevelIsShorter(head, levels, level);
    OneLevelDown(level + 1, |levels[0]| + b);
    hide Sublist, LevelOk;
  }

  lemma StillToGo(head: Node, levels: seq<seq<Node>>, x: Node, level: nat, b: nat, most: nat)
    requires level < |levels|
    ensures Left(head, levels, x, level, b, most) >= 0
  {
    NotNegative(level, most);
    hide PositionAfter;
  }

  lemma CourseHasShape(head: Node, levels: seq<seq<Node>>, key: Key, s: Search)
    requires OnCourse(head, levels, key, s)
    ensures Shape(head, levels)
  {
    hide Shape;
  }

  /** A search from the head, whatever a writer publishes meanwhile: after so many steps it has ended,
      and a step that ends it ends it at its right neighbour in the lowest level of that moment. */
  lemma InterleavedSearchEnds(head: Node, key: Key, levels: seq<seq<Node>>, level: nat, events: seq<Event>,
                              after: seq<seq<Node>>, t: Search)
    requires Shape(head, levels) && level < MAX_HEIGHT
    requires IsRun(head, key, levels, Standing(head, level), events, after, t)
    ensures Shape(head, after) && |after| == MAX_HEIGHT == |levels|
    ensures Steps(events) >= (level + 1) * (|levels[0]| + Publishes(events) + 1) ==> t.Ended?
    ensures t.Ended? && events != [] && events[|events| - 1].Step? ==> EndsRight(after, key, t.r)
  {
    hide *;
    StartsOnCourse(head, levels, key, level, Publishes(events));
    SearchEnds(head, key, levels, Standing(head, level), events, after, t, |levels[0]| + Publishes(events));
    CourseHasShape(head, after, key, t);
    if t.Standing? {
      StillToGo(head, after, t.x, t.level, 0, |levels[0]| + Publishes(events));
    }
  }
}
