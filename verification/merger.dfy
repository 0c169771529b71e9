/** MergingIterator: a cursor over the sorted union of its children (table/merger.cc). */
module MergingIterators {
  import opened Wrappers
  import opened Entries
  import opened Versions
  import opened DbIterators

  /** `merged` is the sorted union of `lists`, which share no entry; ranks[i][k] is where
      lists[i][k] ends up. */
  ghost predicate IsMerge(lists: seq<seq<Entry>>, merged: seq<Entry>, ranks: seq<seq<nat>>) {
    && Sorted(merged)
    && |ranks| == |lists|
    && (forall i :: 0 <= i < |lists| ==> |ranks[i]| == |lists[i]|)
    && (forall i, k :: 0 <= i < |lists| && 0 <= k < |lists[i]| ==>
         ranks[i][k] < |merged| && merged[ranks[i][k]] == lists[i][k])
    && (forall i, k, l :: 0 <= i < |lists| && 0 <= k < l < |lists[i]| ==> ranks[i][k] < ranks[i][l])
    && (forall q :: 0 <= q < |merged| ==> Holds(lists, ranks, q))
    && (forall i, j, k, l :: 0 <= i < j < |lists| && 0 <= k < |lists[i]| && 0 <= l < |lists[j]| ==>
         ranks[i][k] != ranks[j][l])
  }

  ghost predicate Holds(lists: seq<seq<Entry>>, ranks: seq<seq<nat>>, q: nat)
    requires |ranks| == |lists| && forall i :: 0 <= i < |lists| ==> |ranks[i]| == |lists[i]|
  {
    exists i, k :: 0 <= i < |lists| && 0 <= k < |lists[i]| && ranks[i][k] == q
  }

  /** The children may be told apart by their entries, so every sorted union has ranks. */
  lemma MergeHasRanks(lists: seq<seq<Entry>>, merged: seq<Entry>) returns (ranks: seq<seq<nat>>)
    requires Sorted(merged) && forall i :: 0 <= i < |lists| ==> Sorted(lists[i])
    requires forall i, j :: 0 <= i < j < |lists| ==> EntrySet(lists[i]) !! EntrySet(lists[j])
    requires EntrySet(merged) == set i, e | 0 <= i < |lists| && e in lists[i] :: e
    ensures IsMerge(lists, merged, ranks)
  {
    forall i, k | 0 <= i < |lists| && 0 <= k < |lists[i]| ensures exists q: nat :: RankOf(merged, lists[i][k], q) {
      assert lists[i][k] in lists[i] && lists[i][k] in EntrySet(merged);
      var q :| 0 <= q < |merged| && merged[q] == lists[i][k];
      assert RankOf(merged, lists[i][k], q);
    }
    ranks := seq(|lists|, i requires 0 <= i < |lists| =>
      seq(|lists[i]|, k requires 0 <= k < |lists[i]| => TheRank(merged, lists[i][k])));
    forall i, k, l | 0 <= i < |lists| && 0 <= k < l < |lists[i]| ensures ranks[i][k] < ranks[i][l] {
      assert Precedes(lists[i][k].Key(), lists[i][l].Key());
    }
    forall q | 0 <= q < |merged| ensures Holds(lists, ranks, q) {
      assert merged[q] in EntrySet(merged);
      var i :| 0 <= i < |lists| && merged[q] in lists[i];
      var k :| 0 <= k < |lists[i]| && lists[i][k] == merged[q];
      var r := ranks[i][k];
      assert merged[r] == merged[q];
      assert r < q ==> Precedes(merged[r].Key(), merged[q].Key());
      assert q < r ==> Precedes(merged[q].Key(), merged[r].Key());
    }
    forall i, j, k, l | 0 <= i < j < |lists| && 0 <= k < |lists[i]| && 0 <= l < |lists[j]|
      ensures ranks[i][k] != ranks[j][l]
    {
      assert lists[i][k] in EntrySet(lists[i]) && lists[j][l] in EntrySet(lists[j]);
    }
  }

  ghost predicate RankOf(merged: seq<Entry>, e: Entry, q: nat) {
    q < |merged| && merged[q] == e
  }

  ghost function TheRank(merged: seq<Entry>, e: Entry): (q: nat)
    requires exists q: nat :: RankOf(merged, e, q)
    ensures RankOf(merged, e, q)
  {
    var q: nat :| RankOf(merged, e, q);
    q
  }

  // ---------------------------------------------------------------- positions of the children

  /** Every child stands at its first entry of rank p or more. */
  ghost predicate AllAtOrAfter(ranks: seq<seq<nat>>, pos: seq<nat>, p: nat) {
    && |pos| == |ranks|
    && forall i :: 0 <= i < |ranks| ==> AtOrAfter(ranks[i], pos[i], p)
  }

  ghost predicate AtOrAfter(ranks: seq<nat>, pos: nat, p: nat) {
    && pos <= |ranks|
    && (forall k :: 0 <= k < pos ==> ranks[k] < p)
    && (forall k :: pos <= k < |ranks| ==> ranks[k] >= p)
  }

  /** Every child stands at its last entry of rank below p, or is not valid when it has none. */
  ghost predicate AllBefore(ranks: seq<seq<nat>>, pos: seq<nat>, p: nat) {
    && |pos| == |ranks|
    && forall i :: 0 <= i < |ranks| ==> LastBefore(ranks[i], pos[i], p)
  }

  ghost predicate LastBefore(ranks: seq<nat>, pos: nat, p: nat) {
    && pos <= |ranks|
    && (pos < |ranks| ==> ranks[pos] < p)
    && (forall k :: (if pos < |ranks| then pos + 1 else 0) <= k < |ranks| ==> ranks[k] >= p)
  }

  /** What FindSmallest leaves in current_. */
  ghost predicate IsSmallest(ranks: seq<seq<nat>>, pos: seq<nat>, current: Option<nat>)
    requires |pos| == |ranks|
  {
    && (current.None? ==> forall i :: 0 <= i < |ranks| ==> pos[i] >= |ranks[i]|)
    && (current.Some? ==>
      && current.value < |ranks| && pos[current.value] < |ranks[current.value]|
      && forall i :: 0 <= i < |ranks| && pos[i] < |ranks[i]| ==>
           ranks[current.value][pos[current.value]] <= ranks[i][pos[i]])
  }

  ghost predicate IsLargest(ranks: seq<seq<nat>>, pos: seq<nat>, current: Option<nat>)
    requires |pos| == |ranks|
  {
    && (current.None? ==> forall i :: 0 <= i < |ranks| ==> pos[i] >= |ranks[i]|)
    && (current.Some? ==>
      && current.value < |ranks| && pos[current.value] < |ranks[current.value]|
      && forall i :: 0 <= i < |ranks| && pos[i] < |ranks[i]| ==>
           ranks[current.value][pos[current.value]] >= ranks[i][pos[i]])
  }

  /** The smallest, or the largest, of the children looked at so far. */
  ghost predicate SmallestOf(ranks: seq<seq<nat>>, pos: seq<nat>, from: nat, end: nat, current: Option<nat>,
                             largest: bool)
    requires from <= end <= |pos| == |ranks|
  {
    && (current.None? ==> forall i :: from <= i < end ==> pos[i] >= |ranks[i]|)
    && (current.Some? ==>
      && from <= current.value < end && pos[current.value] < |ranks[current.value]|
      && forall i :: from <= i < end && pos[i] < |ranks[i]| ==>
           if largest then ranks[current.value][pos[current.value]] >= ranks[i][pos[i]]
           else ranks[current.value][pos[current.value]] <= ranks[i][pos[i]])
  }

  lemma NoneLookedAt(ranks: seq<seq<nat>>, pos: seq<nat>, i: nat, largest: bool)
    requires i <= |pos| == |ranks|
    ensures SmallestOf(ranks, pos, i, i, None, largest)
  {
  }

  lemma LookAtNext(ranks: seq<seq<nat>>, pos: seq<nat>, from: nat, end: nat, current: Option<nat>, largest: bool,
                   i: nat)
    requires from <= end <= |pos| == |ranks| && SmallestOf(ranks, pos, from, end, current, largest)
    requires (i == end < |pos|) || i + 1 == from
    ensures var lo, hi := if i == end then from else i, if i == end then end + 1 else end;
      if pos[i] >= |ranks[i]| then SmallestOf(ranks, pos, lo, hi, current, largest)
      else if current.None? then SmallestOf(ranks, pos, lo, hi, Some(i), largest)
      else
        var a, b := ranks[i][pos[i]], ranks[current.value][pos[current.value]];
        SmallestOf(ranks, pos, lo, hi, if (if largest then b < a else a < b) then Some(i) else current, largest)
  {
  }

  lemma LookedAtAll(ranks: seq<seq<nat>>, pos: seq<nat>, current: Option<nat>, largest: bool)
    requires |pos| == |ranks| && SmallestOf(ranks, pos, 0, |pos|, current, largest)
    ensures if largest then IsLargest(ranks, pos, current) else IsSmallest(ranks, pos, current)
  {
  }

  /** Where the children stand around position `at` of a union of n entries.  Forward, every child
      stands at its first entry from the current one on, so all but the current child stand just
      after it; in reverse they stand just before it. */
  ghost predicate Placed(ranks: seq<seq<nat>>, pos: seq<nat>, n: nat, at: nat, current: Option<nat>,
                         direction: Direction) {
    && |pos| == |ranks|
    && at <= n && (current.None? <==> at == n)
    && (forall i :: 0 <= i < |ranks| ==> pos[i] <= |ranks[i]|)
    && (current.Some? ==>
      && current.value < |ranks| && pos[current.value] < |ranks[current.value]|
      && ranks[current.value][pos[current.value]] == at
      && (direction.Forward? ==> AllAtOrAfter(ranks, pos, at))
      && (direction.Reverse? ==>
           forall i :: 0 <= i < |ranks| && i != current.value ==> LastBefore(ranks[i], pos[i], at)))
  }

  /** The smallest child head is the union's entry at p. */
  lemma SmallestIsNext(lists: seq<seq<Entry>>, merged: seq<Entry>, ranks: seq<seq<nat>>, pos: seq<nat>, p: nat,
                       current: Option<nat>)
    requires IsMerge(lists, merged, ranks) && p <= |merged|
    requires AllAtOrAfter(ranks, pos, p) && IsSmallest(ranks, pos, current)
    ensures Placed(ranks, pos, |merged|, p, current, Forward)
  {
    if p < |merged| {
      assert Holds(lists, ranks, p);
      var i, k :| 0 <= i < |lists| && 0 <= k < |lists[i]| && ranks[i][k] == p;
      assert AtOrAfter(ranks[i], pos[i], p);
      assert k == pos[i];
    }
    if current.Some? {
      var c := current.value;
      assert ranks[c][pos[c]] < |lists[c]| || merged[ranks[c][pos[c]]] == lists[c][pos[c]];
      assert AtOrAfter(ranks[c], pos[c], p);
    }
    forall i | 0 <= i < |ranks| ensures pos[i] <= |ranks[i]| {
      assert AtOrAfter(ranks[i], pos[i], p);
    }
  }

  /** The largest child head is the union's entry before p. */
  lemma LargestIsPrevious(lists: seq<seq<Entry>>, merged: seq<Entry>, ranks: seq<seq<nat>>, pos: seq<nat>, p: nat,
                          current: Option<nat>)
    requires IsMerge(lists, merged, ranks) && p <= |merged|
    requires AllBefore(ranks, pos, p) && IsLargest(ranks, pos, current)
    ensures current.None? <==> p == 0
    ensures Placed(ranks, pos, |merged|, if p > 0 then p - 1 else |merged|, current, Reverse)
  {
    if p > 0 {
      assert Holds(lists, ranks, p - 1);
      var i, k :| 0 <= i < |lists| && 0 <= k < |lists[i]| && ranks[i][k] == p - 1;
      assert LastBefore(ranks[i], pos[i], p);
      assert k == pos[i];
    }
    forall i | 0 <= i < |ranks| ensures pos[i] <= |ranks[i]| {
      assert LastBefore(ranks[i], pos[i], p);
    }
    if current.Some? {
      var c := current.value;
      assert LastBefore(ranks[c], pos[c], p);
      forall i | 0 <= i < |ranks| && i != c ensures LastBefore(ranks[i], pos[i], p - 1) {
        assert LastBefore(ranks[i], pos[i], p);
        assert |ranks[i]| == |lists[i]| && |ranks[c]| == |lists[c]|;
      }
    }
  }

  /** Seeking every child puts each at its first entry from the union's position on. */
  lemma SeekAlignsChildren(lists: seq<seq<Entry>>, merged: seq<Entry>, ranks: seq<seq<nat>>, pos: seq<nat>,
                           target: IKey, p: nat)
    requires IsMerge(lists, merged, ranks) && |pos| == |lists|
    requires forall i :: 0 <= i < |lists| ==> Sorted(lists[i]) && IsFirstAtOrAfter(lists[i], target, pos[i])
    requires IsFirstAtOrAfter(merged, target, p)
    ensures AllAtOrAfter(ranks, pos, p)
  {
    forall i | 0 <= i < |lists| ensures AtOrAfter(ranks[i], pos[i], p) {
      SeekAlignsChild(lists, merged, ranks, i, pos[i], target, p);
    }
  }

  lemma SeekAlignsChild(lists: seq<seq<Entry>>, merged: seq<Entry>, ranks: seq<seq<nat>>, i: nat, pos: nat,
                        target: IKey, p: nat)
    requires IsMerge(lists, merged, ranks) && i < |lists| && Sorted(lists[i])
    requires IsFirstAtOrAfter(lists[i], target, pos) && IsFirstAtOrAfter(merged, target, p)
    ensures AtOrAfter(ranks[i], pos, p)
  {
    forall k | 0 <= k < |ranks[i]| ensures k < pos <==> ranks[i][k] < p {
      var r := ranks[i][k];
      assert merged[r] == lists[i][k];
      assert r > p ==> Precedes(merged[p].Key(), merged[r].Key());
      assert k > pos ==> Precedes(lists[i][pos].Key(), lists[i][k].Key());
    }
  }

  /** Around the current entry, by ranks alone: its own list, and any other list. */
  lemma AroundCurrent(lists: seq<seq<Entry>>, merged: seq<Entry>, ranks: seq<seq<nat>>, c: nat, pos: nat, p: nat)
    requires IsMerge(lists, merged, ranks) && c < |lists| && pos < |lists[c]| && ranks[c][pos] == p
    ensures AtOrAfter(ranks[c], pos + 1, p + 1)
    ensures LastBefore(ranks[c], if pos == 0 then |ranks[c]| else pos - 1, p)
    ensures forall i, k :: 0 <= i < |lists| && i != c && 0 <= k < |lists[i]| ==> ranks[i][k] != p
  {
    forall i, k | 0 <= i < |lists| && i != c && 0 <= k < |lists[i]| ensures ranks[i][k] != p {
      if i < c {
        assert ranks[i][k] != ranks[c][pos];
      } else {
        assert ranks[c][pos] != ranks[i][k];
      }
    }
  }

  lemma SkippedCurrent(ranks: seq<nat>, pos: nat, p: nat)
    requires AtOrAfter(ranks, pos, p) && forall k :: 0 <= k < |ranks| ==> ranks[k] != p
    ensures AtOrAfter(ranks, pos, p + 1)
  {
  }

  // ---------------------------------------------------------------- the iterator

  class MergingIterator {
    const children: seq<InternalIterator>
    var current: Option<nat>
    var direction: Direction
    ghost const merged: seq<Entry>
    ghost const ranks: seq<seq<nat>>
    /** The position in the sorted union; |merged| when the iterator is not valid. */
    ghost var at: nat

    ghost function Lists(): (r: seq<seq<Entry>>)
      ensures |r| == |children|
    {
      seq(|children|, i requires 0 <= i < |children| => children[i].entries)
    }

    ghost function Positions(): (r: seq<nat>)
      reads children
      ensures |r| == |children|
    {
      seq(|children|, i requires 0 <= i < |children| reads children => children[i].pos)
    }

    /** The children are separate cursors over sorted lists with no entry in common. */
    ghost predicate Shape()
    {
      && IsMerge(Lists(), merged, ranks)
      && (forall i :: 0 <= i < |children| ==> Sorted(children[i].entries))
      && forall i, j :: 0 <= i < j < |children| ==> children[i] != children[j]
    }

    ghost predicate Inv()
      reads this, children
    {
      Shape() && Placed(ranks, Positions(), |merged|, at, current, direction)
    }

    lemma Sizes()
      requires Shape()
      ensures |ranks| == |children|
      ensures forall i :: 0 <= i < |children| ==>
        Lists()[i] == children[i].entries && |ranks[i]| == |children[i].entries|
    {
      assert forall i :: 0 <= i < |children| ==> Lists()[i] == children[i].entries;
    }

    lemma RanksAreBelow()
      requires Shape()
      ensures |ranks| == |children|
      ensures forall i, k :: 0 <= i < |ranks| && 0 <= k < |ranks[i]| ==> ranks[i][k] < |merged|
    {
    }

    constructor (children: seq<InternalIterator>, ghost merged: seq<Entry>, ghost ranks: seq<seq<nat>>)
      requires forall i, j :: 0 <= i < j < |children| ==> children[i] != children[j]
      requires forall i :: 0 <= i < |children| ==>
        Sorted(children[i].entries) && children[i].pos <= |children[i].entries|
      requires IsMerge(seq(|children|, i requires 0 <= i < |children| => children[i].entries), merged, ranks)
      ensures Inv() && current.None? && this.children == children && this.merged == merged
    {
      this.children, this.merged, this.ranks := children, merged, ranks;
      current, direction, at := None, Forward, |merged|;
    }

    predicate Valid()
      reads this
    {
      current.Some?
    }

    function Current(): (e: Entry)
      requires Inv() && Valid()
      reads this, children
      ensures e == merged[at]
    {
      assert Lists()[current.value] == children[current.value].entries;
      children[current.value].entries[children[current.value].pos]
    }

    method FindSmallest()
      requires Shape()
      modifies this`current
      ensures IsSmallest(ranks, Positions(), current)
    {
      hide *;
      current := None;
      Ranked();
      NoneLookedAt(ranks, Positions(), 0, false);
      for i := 0 to |children|
        invariant SmallestOf(ranks, Positions(), 0, i, current, false)
      {
        LookAtNext(ranks, Positions(), 0, i, current, false, i);
        ChildIs(i);
        if current.Some? {
          CurrentIs(0, i, false);
        }
        if children[i].Valid() {
          if current.None? {
            current := Some(i);
          } else {
            var c := current.value;
            RanksOrderKeys(i, c);
            if Before(children[i].entries[children[i].pos].Key(), children[c].entries[children[c].pos].Key()) {
              current := Some(i);
            }
          }
        }
      }
      LookedAtAll(ranks, Positions(), current, false);
    }

    /** Comparing two children's keys compares their ranks. */
    lemma Ranked()
      requires Shape()
      ensures |ranks| == |children|
    {
    }

    lemma ChildIs(i: nat)
      requires Shape() && i < |children|
      ensures |ranks| == |children| && Positions()[i] == children[i].pos
      ensures children[i].Valid() == (children[i].pos < |ranks[i]|)
      ensures children[i].Valid() == (children[i].pos < |children[i].entries|)
    {
      assert Lists()[i] == children[i].entries;
    }

    lemma CurrentIs(from: nat, end: nat, largest: bool)
      requires Shape() && from <= end <= |children| == |ranks| && current.Some?
      requires SmallestOf(ranks, Positions(), from, end, current, largest)
      ensures from <= current.value < end && children[current.value].Valid()
      ensures children[current.value].pos < |ranks[current.value]| == |children[current.value].entries|
      ensures Positions()[current.value] == children[current.value].pos
    {
      ChildIs(current.value);
    }

    lemma RanksOrderKeys(i: nat, j: nat)
      requires Shape() && i < |children| && j < |children| && i != j
      requires children[i].Valid() && children[j].Valid()
      ensures Before(children[i].entries[children[i].pos].Key(), children[j].entries[children[j].pos].Key())
              <==> ranks[i][children[i].pos] < ranks[j][children[j].pos]
    {
      assert Lists()[i] == children[i].entries && Lists()[j] == children[j].entries;
      var a, b := ranks[i][children[i].pos], ranks[j][children[j].pos];
      assert merged[a] == children[i].entries[children[i].pos] && merged[b] == children[j].entries[children[j].pos];
      assert a != b;
      if a < b {
        assert Precedes(merged[a].Key(), merged[b].Key());
      } else {
        assert Precedes(merged[b].Key(), merged[a].Key());
      }
    }

    method FindLargest()
      requires Shape()
      modifies this`current
      ensures IsLargest(ranks, Positions(), current)
    {
      hide *;
      current := None;
      Ranked();
      NoneLookedAt(ranks, Positions(), |children|, true);
      for i := |children| downto 0
        invariant SmallestOf(ranks, Positions(), i, |children|, current, true)
      {
        LookAtNext(ranks, Positions(), i + 1, |children|, current, true, i);
        ChildIs(i);
        if current.Some? {
          CurrentIs(i + 1, |children|, true);
        }
        if children[i].Valid() {
          if current.None? {
            current := Some(i);
          } else {
            var c := current.value;
            RanksOrderKeys(c, i);
            if Before(children[c].entries[children[c].pos].Key(), children[i].entries[children[i].pos].Key()) {
              current := Some(i);
            }
          }
        }
      }
      LookedAtAll(ranks, Positions(), current, true);
    }

    /** With every child at or after p, the smallest head makes p the current position. */
    ghost method SettleForward(p: nat)
      requires Shape() && direction.Forward? && p <= |merged|
      requires AllAtOrAfter(ranks, Positions(), p) && IsSmallest(ranks, Positions(), current)
      modifies this`at
      ensures Inv() && at == p
    {
      hide IsMerge, Placed, AllAtOrAfter, IsSmallest;
      SmallestIsNext(Lists(), merged, ranks, Positions(), p, current);
      at := p;
    }

    /** With every child before p, the largest head makes the entry before p the current one. */
    ghost method SettleBackward(p: nat)
      requires Shape() && direction.Reverse? && p <= |merged|
      requires AllBefore(ranks, Positions(), p) && IsLargest(ranks, Positions(), current)
      modifies this`at
      ensures Inv() && at == if p == 0 then |merged| else p - 1
    {
      hide IsMerge, Placed, AllBefore, IsLargest;
      LargestIsPrevious(Lists(), merged, ranks, Positions(), p, current);
      at := if p > 0 then p - 1 else |merged|;
    }

    method SeekToFirst()
      requires Inv()
      modifies this, children
      ensures Inv() && at == 0
    {
      hide *;
      IsShape();
      RewindChildren();
      FindSmallest();
      direction := Forward;
      SettleForward(0);
    }

    method SeekToLast()
      requires Inv()
      modifies this, children
      ensures Inv() && at == if |merged| > 0 then |merged| - 1 else 0
    {
      hide *;
      IsShape();
      WindChildren();
      FindLargest();
      direction := Reverse;
      SettleBackward(|merged|);
    }

    lemma IsShape()
      requires Inv()
      ensures Shape() && Sorted(merged)
    {
    }

    method RewindChildren()
      requires Shape()
      modifies children
      ensures |ranks| == |children| && AllAtOrAfter(ranks, Positions(), 0)
    {
      Sizes();
      hide IsMerge;
      for i := 0 to |children|
        invariant forall k :: 0 <= k < i ==> children[k].pos == 0
      {
        children[i].SeekToFirst();
      }
    }

    method WindChildren()
      requires Shape()
      modifies children
      ensures |ranks| == |children| && AllBefore(ranks, Positions(), |merged|)
    {
      Sizes();
      RanksAreBelow();
      hide IsMerge;
      for i := 0 to |children|
        invariant forall k :: 0 <= k < i ==>
          children[k].pos == if |children[k].entries| > 0 then |children[k].entries| - 1 else 0
      {
        children[i].SeekToLast();
      }
    }

    method SeekChildren(target: IKey)
      requires Shape()
      modifies children
      ensures forall k :: 0 <= k < |children| ==> IsFirstAtOrAfter(children[k].entries, target, children[k].pos)
    {
      hide IsMerge, IsFirstAtOrAfter;
      for i := 0 to |children|
        invariant forall k :: 0 <= k < i ==> IsFirstAtOrAfter(children[k].entries, target, children[k].pos)
      {
        children[i].Seek(target);
      }
    }

    lemma ChildrenAligned(target: IKey, p: nat)
      requires Shape() && IsFirstAtOrAfter(merged, target, p)
      requires forall k :: 0 <= k < |children| ==> IsFirstAtOrAfter(children[k].entries, target, children[k].pos)
      ensures |ranks| == |children| && p <= |merged| && AllAtOrAfter(ranks, Positions(), p)
    {
      Sizes();
      hide IsMerge, IsFirstAtOrAfter, AllAtOrAfter;
      SeekAlignsChildren(Lists(), merged, ranks, Positions(), target, p);
    }

    method Seek(target: IKey)
      requires Inv()
      modifies this, children
      ensures Inv() && IsFirstAtOrAfter(merged, target, at)
    {
      hide *;
      IsShape();
      SeekChildren(target);
      ghost var p := FirstAtOrAfter(merged, target);
      ChildrenAligned(target, p);
      FindSmallest();
      direction := Forward;
      SettleForward(p);
    }

    method Next()
      requires Inv() && Valid()
      modifies this, children
      ensures Inv() && at == old(at) + 1
    {
      hide *;
      Advance();
      FindSmallest();
      SettleForward(at + 1);
    }

    method Prev()
      requires Inv() && Valid()
      modifies this, children
      ensures Inv() && at == if old(at) == 0 then |merged| else old(at) - 1
    {
      hide *;
      Retreat();
      FindLargest();
      SettleBackward(at);
    }

    /** Every child to its first entry after the current one. */
    method Advance()
      requires Inv() && Valid()
      modifies this`direction, children
      ensures Shape() && direction.Forward? && at < |merged| && |ranks| == |children|
      ensures AllAtOrAfter(ranks, Positions(), at + 1)
    {
      var c := current.value;
      AlignAfter(c);
      hide *;
      HasChild(c);
      StepForward(c);
    }

    /** Every child to its last entry before the current one. */
    method Retreat()
      requires Inv() && Valid()
      modifies this`direction, children
      ensures Shape() && direction.Reverse? && at < |merged| && |ranks| == |children|
      ensures AllBefore(ranks, Positions(), at)
    {
      var c := current.value;
      AlignBefore(c);
      hide *;
      HasChild(c);
      StepBackward(c);
    }

    lemma HasChild(c: nat)
      requires AtCurrent(c)
      ensures c < |children| && children[c] in children
    {
    }

    method AlignAfter(c: nat)
      requires Inv() && current == Some(c)
      modifies this`direction, children
      ensures direction.Forward? && Shape() && at < |merged| && AtCurrent(c) && |ranks| == |children|
      ensures AtOrAfter(ranks[c], children[c].pos + 1, at + 1)
      ensures forall i :: 0 <= i < |children| && i != c ==> AtOrAfter(ranks[i], children[i].pos, at + 1)
    {
      AroundInv();
      hide IsMerge, Placed, AtOrAfter, LastBefore;
      if direction.Reverse? {
        RepositionAfter(c);
        direction := Forward;
      }
    }

    /** The first half of Prev: after a forward move the other children are put just before the
        current entry. */
    method AlignBefore(c: nat)
      requires Inv() && current == Some(c)
      modifies this`direction, children
      ensures direction.Reverse? && Shape() && at < |merged| && AtCurrent(c) && |ranks| == |children|
      ensures LastBefore(ranks[c], if children[c].pos == 0 then |ranks[c]| else children[c].pos - 1, at)
      ensures forall i :: 0 <= i < |children| && i != c ==> LastBefore(ranks[i], children[i].pos, at)
    {
      AroundInv();
      hide IsMerge, Placed, AtOrAfter, LastBefore;
      if direction.Forward? {
        RepositionBefore(c);
        direction := Reverse;
      }
    }

    method StepForward(c: nat)
      requires AtCurrent(c) && AtOrAfter(ranks[c], children[c].pos + 1, at + 1)
      requires forall i :: 0 <= i < |children| && i != c ==> AtOrAfter(ranks[i], children[i].pos, at + 1)
      modifies children[c]
      ensures AllAtOrAfter(ranks, Positions(), at + 1)
    {
      hide IsMerge, AtOrAfter;
      children[c].Next();
      forall i | 0 <= i < |children| ensures AtOrAfter(ranks[i], Positions()[i], at + 1) {
        assert Positions()[i] == children[i].pos;
        assert i != c ==> children[i] != children[c];
      }
    }

    method StepBackward(c: nat)
      requires AtCurrent(c)
      requires LastBefore(ranks[c], if children[c].pos == 0 then |ranks[c]| else children[c].pos - 1, at)
      requires forall i :: 0 <= i < |children| && i != c ==> LastBefore(ranks[i], children[i].pos, at)
      modifies children[c]
      ensures AllBefore(ranks, Positions(), at)
    {
      hide IsMerge, LastBefore;
      children[c].Prev();
      forall i | 0 <= i < |children| ensures LastBefore(ranks[i], Positions()[i], at) {
        assert Positions()[i] == children[i].pos;
        assert i != c ==> children[i] != children[c];
      }
    }

    /** What the invariant says around a current entry. */
    lemma AroundInv()
      requires Inv() && Valid()
      ensures AtCurrent(current.value)
      ensures AtOrAfter(ranks[current.value], children[current.value].pos + 1, at + 1)
      ensures var pos := children[current.value].pos;
        LastBefore(ranks[current.value], if pos == 0 then |ranks[current.value]| else pos - 1, at)
      ensures direction.Forward? ==> forall i :: 0 <= i < |children| && i != current.value ==>
        AtOrAfter(ranks[i], children[i].pos, at + 1)
      ensures direction.Reverse? ==> forall i :: 0 <= i < |children| && i != current.value ==>
        LastBefore(ranks[i], children[i].pos, at)
    {
      Sizes();
      var c := current.value;
      AroundCurrent(Lists(), merged, ranks, c, children[c].pos, at);
      hide IsMerge;
      forall i | 0 <= i < |children| && i != c
        ensures direction.Forward? ==> AtOrAfter(ranks[i], children[i].pos, at + 1)
        ensures direction.Reverse? ==> LastBefore(ranks[i], children[i].pos, at)
      {
        assert Positions()[i] == children[i].pos;
        if direction.Forward? {
          SkippedCurrent(ranks[i], children[i].pos, at);
        }
      }
    }

    ghost predicate AtCurrent(c: nat)
      reads this, children
    {
      && Shape() && at < |merged| && c < |children| && current == Some(c)
      && children[c].Valid() && |ranks| == |children| && |ranks[c]| == |children[c].entries|
      && ranks[c][children[c].pos] == at && merged[at] == children[c].entries[children[c].pos]
    }

    method RepositionAfter(c: nat)
      requires AtCurrent(c)
      modifies children
      ensures AtCurrent(c) && children[c].pos == old(children[c].pos)
      ensures forall i :: 0 <= i < |children| && i != c ==> AtOrAfter(ranks[i], children[i].pos, at + 1)
    {
      hide IsMerge, AtOrAfter;
      var key := children[c].entries[children[c].pos].Key();
      for i := 0 to |children|
        invariant AtCurrent(c) && children[c].pos == old(children[c].pos)
        invariant forall k :: 0 <= k < i && k != c ==> AtOrAfter(ranks[k], children[k].pos, at + 1)
      {
        if i != c {
          SeekPast(children[i], key);
          PastIsAfter(i, children[i].pos, at);
        }
      }
    }

    method RepositionBefore(c: nat)
      requires AtCurrent(c)
      modifies children
      ensures AtCurrent(c) && children[c].pos == old(children[c].pos)
      ensures forall i :: 0 <= i < |children| && i != c ==> LastBefore(ranks[i], children[i].pos, at)
    {
      hide IsMerge, LastBefore;
      var key := children[c].entries[children[c].pos].Key();
      for i := 0 to |children|
        invariant AtCurrent(c) && children[c].pos == old(children[c].pos)
        invariant forall k :: 0 <= k < i && k != c ==> LastBefore(ranks[k], children[k].pos, at)
      {
        if i != c {
          SeekShortOf(children[i], key);
          ShortOfIsBefore(i, children[i].pos, at);
        }
      }
    }

    lemma PastIsAfter(i: nat, pos: nat, p: nat)
      requires Shape() && i < |children| && p < |merged| && IsPast(children[i].entries, merged[p].Key(), pos)
      ensures |ranks| == |children| && AtOrAfter(ranks[i], pos, p + 1)
    {
      Sizes();
      var entries := children[i].entries;
      forall k | 0 <= k < |entries| ensures k < pos <==> ranks[i][k] < p + 1 {
        var r := ranks[i][k];
        assert Lists()[i][k] == merged[r];
        assert r < p ==> Precedes(merged[r].Key(), merged[p].Key());
        assert p < r ==> Precedes(merged[p].Key(), merged[r].Key());
      }
    }

    lemma ShortOfIsBefore(i: nat, pos: nat, p: nat)
      requires Shape() && i < |children| && p < |merged| && IsShortOf(children[i].entries, merged[p].Key(), pos)
      ensures |ranks| == |children| && LastBefore(ranks[i], pos, p)
    {
      Sizes();
      var entries := children[i].entries;
      forall k | 0 <= k < |entries| ensures Before(entries[k].Key(), merged[p].Key()) <==> ranks[i][k] < p {
        var r := ranks[i][k];
        assert Lists()[i][k] == merged[r];
        assert r < p ==> Precedes(merged[r].Key(), merged[p].Key());
        assert p < r ==> Precedes(merged[p].Key(), merged[r].Key());
      }
    }
  }

  // ---------------------------------------------------------------- moving one child

  ghost predicate IsPast(entries: seq<Entry>, key: IKey, pos: nat) {
    && pos <= |entries|
    && (forall k :: 0 <= k < pos ==> !Before(key, entries[k].Key()))
    && (forall k :: pos <= k < |entries| ==> Before(key, entries[k].Key()))
  }

  ghost predicate IsShortOf(entries: seq<Entry>, key: IKey, pos: nat) {
    && pos <= |entries|
    && (pos < |entries| ==> Before(entries[pos].Key(), key))
    && (forall k :: (if pos < |entries| then pos + 1 else 0) <= k < |entries| ==> !Before(entries[k].Key(), key))
  }

  /** Puts a child at its first entry after `key`. */
  method SeekPast(child: InternalIterator, key: IKey)
    requires Sorted(child.entries)
    modifies child
    ensures IsPast(child.entries, key, child.pos)
  {
    child.Seek(key);
    forall k | child.pos < k < |child.entries| ensures Before(key, child.entries[k].Key()) {
      assert Precedes(child.entries[child.pos].Key(), child.entries[k].Key());
    }
    if child.Valid() && child.entries[child.pos].Key() == key {
      child.Next();
    }
  }

  /** Puts a child at its last entry before `key`. */
  method SeekShortOf(child: InternalIterator, key: IKey)
    requires Sorted(child.entries)
    modifies child
    ensures IsShortOf(child.entries, key, child.pos)
  {
    child.Seek(key);
    forall k | child.pos < k < |child.entries| ensures !Before(child.entries[k].Key(), key) {
      assert Precedes(child.entries[child.pos].Key(), child.entries[k].Key());
    }
    if child.Valid() {
      child.Prev();
    } else {
      child.SeekToLast();
    }
  }
}
