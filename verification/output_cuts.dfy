/** Where a compaction ends one output file and begins the next (db_impl.cc, version_set.cc). */
module OutputCuts {
  import opened Wrappers
  import opened Entries
  import opened Versions
  import opened VersionSets

  // ---------------------------------------------------------------- the grandparent bytes passed

  /** How many grandparents, from the first on, end before the key. */
  function Passed(grandparents: Level, key: IKey): (n: nat)
    ensures n <= |grandparents| && forall i :: 0 <= i < n ==> Before(grandparents[i].largest, key)
    ensures n < |grandparents| ==> !Before(grandparents[n].largest, key)
  {
    if grandparents != [] && Before(grandparents[0].largest, key) then
      var n := Passed(grandparents[1..], key);
      assert forall i :: 0 < i < n + 1 ==> grandparents[i] == grandparents[1..][i - 1];
      n + 1
    else 0
  }

  lemma PassedIs(grandparents: Level, key: IKey, n: nat)
    requires n <= |grandparents| && forall i :: 0 <= i < n ==> Before(grandparents[i].largest, key)
    requires n < |grandparents| ==> !Before(grandparents[n].largest, key)
    ensures Passed(grandparents, key) == n
  {
  }

  /** The bytes of the grandparents that end before the second key, but not before the first. */
  function BytesBetween(grandparents: Level, from: IKey, key: IKey): nat {
    var m, n := Passed(grandparents, from), Passed(grandparents, key);
    if m <= n then TotalFileSize(grandparents[m..n]) else 0
  }

  lemma TotalSplits(files: Level, a: nat, b: nat, c: nat)
    requires a <= b <= c <= |files|
    ensures TotalFileSize(files[a..b]) + TotalFileSize(files[b..c]) == TotalFileSize(files[a..c])
    decreases b - a
  {
    if a < b {
      TotalSplits(files, a + 1, b, c);
      assert files[a..b][1..] == files[a + 1..b] && files[a..c][1..] == files[a + 1..c];
    }
  }

  lemma PassedGrows(grandparents: Level, a: IKey, b: IKey)
    requires a == b || Precedes(a, b)
    ensures Passed(grandparents, a) <= Passed(grandparents, b)
  {
    var m, n := Passed(grandparents, a), Passed(grandparents, b);
    assert n < m ==> Before(grandparents[n].largest, a);
  }

  lemma BytesAdd(grandparents: Level, from: IKey, key: IKey, next: IKey)
    requires (from == key || Precedes(from, key)) && (key == next || Precedes(key, next))
    ensures BytesBetween(grandparents, from, next) ==
            BytesBetween(grandparents, from, key) + BytesBetween(grandparents, key, next)
  {
    PassedGrows(grandparents, from, key);
    PassedGrows(grandparents, key, next);
    TotalSplits(grandparents, Passed(grandparents, from), Passed(grandparents, key), Passed(grandparents, next));
  }

  // ---------------------------------------------------------------- where an output must stop

  /** The k-th stop: the first key to which, from the stop before it, more grandparent bytes than the limit
      have passed; and no key up to the next stop is one. */
  ghost predicate IsStop(grandparents: Level, merged: seq<Entry>, limit: nat, n: nat, stops: seq<nat>, k: nat)
    requires n <= |merged| && k < |stops|
  {
    && (k > 0 ==> stops[k - 1] < stops[k] < n)
    && (k > 0 ==> BytesBetween(grandparents, merged[stops[k - 1]].Key(), merged[stops[k]].Key()) > limit)
    && forall i :: stops[k] < i < n && (k + 1 < |stops| ==> i < stops[k + 1]) ==>
         BytesBetween(grandparents, merged[stops[k]].Key(), merged[i].Key()) <= limit
  }

  /** The places among the first n keys before which an output must end, behind the first key. */
  ghost predicate AreStops(grandparents: Level, merged: seq<Entry>, limit: nat, n: nat, stops: seq<nat>)
    requires n <= |merged|
  {
    stops != [] && stops[0] == 0 && forall k :: 0 <= k < |stops| ==> IsStop(grandparents, merged, limit, n, stops, k)
  }

  lemma StopStays(grandparents: Level, merged: seq<Entry>, limit: nat, n: nat, stops: seq<nat>, k: nat)
    requires n < |merged| && k < |stops| && IsStop(grandparents, merged, limit, n, stops, k)
    requires k == |stops| - 1 && stops[k] < n
             ==> BytesBetween(grandparents, merged[stops[k]].Key(), merged[n].Key()) <= limit
    requires k + 1 < |stops| ==> stops[k + 1] < n
    ensures IsStop(grandparents, merged, limit, n + 1, stops, k)
  {
    hide BytesBetween;
  }

  lemma StopStaysBefore(grandparents: Level, merged: seq<Entry>, limit: nat, n: nat, stops: seq<nat>, k: nat)
    requires n < |merged| && k < |stops| && IsStop(grandparents, merged, limit, n, stops, k)
    requires k + 1 < |stops| ==> stops[k + 1] < n
    ensures IsStop(grandparents, merged, limit, n + 1, stops + [n], k)
  {
    hide BytesBetween;
    var more := stops + [n];
    assert more[k] == stops[k] && (k > 0 ==> more[k - 1] == stops[k - 1]);
    assert more[k + 1] == if k + 1 < |stops| then stops[k + 1] else n;
  }

  lemma StopIsNew(grandparents: Level, merged: seq<Entry>, limit: nat, n: nat, stops: seq<nat>)
    requires n < |merged| && stops != [] && stops[|stops| - 1] < n
    requires BytesBetween(grandparents, merged[stops[|stops| - 1]].Key(), merged[n].Key()) > limit
    ensures IsStop(grandparents, merged, limit, n + 1, stops + [n], |stops|)
  {
    hide BytesBetween;
    var more := stops + [n];
    assert more[|stops|] == n && more[|stops| - 1] == stops[|stops| - 1];
  }

  lemma StopWithin(grandparents: Level, merged: seq<Entry>, limit: nat, n: nat, stops: seq<nat>, k: nat)
    requires n <= |merged| && AreStops(grandparents, merged, limit, n, stops) && k < |stops|
    ensures k > 0 ==> stops[k - 1] < stops[k] < n
    ensures stops[k] == 0 || stops[k] < n
  {
    assert IsStop(grandparents, merged, limit, n, stops, k);
  }

  lemma LastStop(grandparents: Level, merged: seq<Entry>, limit: nat, n: nat, stops: seq<nat>)
    requires n <= |merged| && AreStops(grandparents, merged, limit, n, stops)
    ensures stops != [] && (n > 0 ==> stops[|stops| - 1] < n) && (n == 0 ==> stops == [0])
  {
    StopWithin(grandparents, merged, limit, n, stops, |stops| - 1);
  }

  /** The stops after one more key. */
  lemma StopsNext(grandparents: Level, merged: seq<Entry>, limit: nat, n: nat, stops: seq<nat>)
    requires n < |merged| && AreStops(grandparents, merged, limit, n, stops) && stops[|stops| - 1] <= n
    ensures var over := BytesBetween(grandparents, merged[stops[|stops| - 1]].Key(), merged[n].Key()) > limit;
      AreStops(grandparents, merged, limit, n + 1, if n > 0 && over then stops + [n] else stops)
  {
    hide BytesBetween, IsStop;
    var over := BytesBetween(grandparents, merged[stops[|stops| - 1]].Key(), merged[n].Key()) > limit;
    LastStop(grandparents, merged, limit, n, stops);
    var more := n + 1;
    var next := if n > 0 && over then stops + [n] else stops;
    forall k | 0 <= k < |next| ensures IsStop(grandparents, merged, limit, more, next, k) {
      if k + 1 < |stops| {
        StopWithin(grandparents, merged, limit, n, stops, k + 1);
      }
      if next == stops {
        StopStays(grandparents, merged, limit, n, stops, k);
      } else if k < |stops| {
        StopStaysBefore(grandparents, merged, limit, n, stops, k);
      } else {
        StopIsNew(grandparents, merged, limit, n, stops);
      }
    }
  }

  // ---------------------------------------------------------------- the cursor

  /** The compaction's cursor and counter after the first n keys. */
  ghost predicate StoppingAt(grandparents: Level, merged: seq<Entry>, limit: nat, n: nat, stops: seq<nat>,
                             index: nat, seenKey: bool, overlapped: nat)
  {
    && n <= |merged| && AreStops(grandparents, merged, limit, n, stops) && seenKey == (n > 0)
    && if n == 0 then index == 0 && overlapped == 0 else
         && index == Passed(grandparents, merged[n - 1].Key()) && stops[|stops| - 1] < n
         && overlapped == BytesBetween(grandparents, merged[stops[|stops| - 1]].Key(), merged[n - 1].Key())
  }

  ghost predicate Stopping(c: Compaction, merged: seq<Entry>, n: nat, stops: seq<nat>)
    reads c
  {
    StoppingAt(c.grandparents, merged, c.maxGrandParentOverlapBytes, n, stops, c.grandparentIndex, c.seenKey,
               c.overlappedBytes)
  }

  lemma NoStops(c: Compaction, merged: seq<Entry>)
    requires c.Unstarted()
    ensures Stopping(c, merged, 0, [0])
  {
    assert IsStop(c.grandparents, merged, c.maxGrandParentOverlapBytes, 0, [0], 0);
  }

  /** The cursor after one more key. */
  lemma CursorNext(grandparents: Level, merged: seq<Entry>, n: nat, before: nat, after: nat)
    requires Sorted(merged) && n < |merged| && before <= after <= |grandparents|
    requires if n == 0 then before == 0 else before == Passed(grandparents, merged[n - 1].Key())
    requires forall i :: before <= i < after ==> Before(grandparents[i].largest, merged[n].Key())
    requires after < |grandparents| ==> !Before(grandparents[after].largest, merged[n].Key())
    ensures after == Passed(grandparents, merged[n].Key())
  {
    if n > 0 {
      assert Precedes(merged[n - 1].Key(), merged[n].Key());
    }
    PassedIs(grandparents, merged[n].Key(), after);
  }

  /** What is passed from one key to the next is added to what was passed before. */
  lemma CounterNext(grandparents: Level, merged: seq<Entry>, last: nat, n: nat)
    requires Sorted(merged) && last < n < |merged|
    ensures var from, key, next := merged[last].Key(), merged[n - 1].Key(), merged[n].Key();
      var m, p := Passed(grandparents, key), Passed(grandparents, next);
      && m <= p
      && BytesBetween(grandparents, from, next)
         == BytesBetween(grandparents, from, key) + TotalFileSize(grandparents[m..p])
  {
    assert last < n - 1 ==> Precedes(merged[last].Key(), merged[n - 1].Key());
    assert Precedes(merged[n - 1].Key(), merged[n].Key());
    hide Sorted, TotalFileSize, Passed;
    PassedGrows(grandparents, merged[n - 1].Key(), merged[n].Key());
    BytesAdd(grandparents, merged[last].Key(), merged[n - 1].Key(), merged[n].Key());
  }

  lemma SameKey(grandparents: Level, key: IKey)
    ensures BytesBetween(grandparents, key, key) == 0
  {
    var n := Passed(grandparents, key);
    assert grandparents[n..n] == [];
  }

  lemma StoppingNext(grandparents: Level, merged: seq<Entry>, limit: nat, n: nat, stops: seq<nat>,
                     index: nat, seenKey: bool, overlapped: nat, after: nat, stop: bool, newOverlapped: nat)
    requires Sorted(merged) && n < |merged|
    requires StoppingAt(grandparents, merged, limit, n, stops, index, seenKey, overlapped)
    requires index <= after <= |grandparents|
    requires forall i :: index <= i < after ==> Before(grandparents[i].largest, merged[n].Key())
    requires after < |grandparents| ==> !Before(grandparents[after].largest, merged[n].Key())
    requires var total := overlapped + if seenKey then TotalFileSize(grandparents[index..after]) else 0;
      stop == (total > limit) && newOverlapped == if stop then 0 else total
    ensures StoppingAt(grandparents, merged, limit, n + 1, if stop then stops + [n] else stops, after, true,
                       newOverlapped)
    ensures stop ==> n > 0
  {
    CursorNext(grandparents, merged, n, index, after);
    hide AreStops, BytesBetween, Passed, TotalFileSize, Sorted, Before;
    LastStop(grandparents, merged, limit, n, stops);
    StopsNext(grandparents, merged, limit, n, stops);
    SameKey(grandparents, merged[n].Key());
    if n > 0 {
      CounterNext(grandparents, merged, stops[|stops| - 1], n);
    }
  }

  lemma IndexWithin(c: Compaction, merged: seq<Entry>, n: nat, stops: seq<nat>)
    requires Stopping(c, merged, n, stops)
    ensures c.grandparentIndex <= |c.grandparents|
  {
    hide AreStops;
  }

  /** Asks whether the output must end before the n-th key. */
  method StopBefore(c: Compaction, merged: seq<Entry>, n: nat, ghost stops: seq<nat>)
    returns (stop: bool, ghost newStops: seq<nat>)
    requires Sorted(merged) && n < |merged| && Stopping(c, merged, n, stops)
    modifies c`grandparentIndex, c`seenKey, c`overlappedBytes
    ensures Stopping(c, merged, n + 1, newStops)
    ensures stops != [] && newStops == (if stop then stops + [n] else stops) && (stop ==> n > 0)
  {
    StopsSoFar(c, merged, n, stops);
    hide StoppingAt, TotalFileSize, Sorted;
    IndexWithin(c, merged, n, stops);
    ghost var index, seenKey, overlapped := c.grandparentIndex, c.seenKey, c.overlappedBytes;
    stop := c.ShouldStopBefore(merged[n].Key());
    newStops := if stop then stops + [n] else stops;
    StoppingNext(c.grandparents, merged, c.maxGrandParentOverlapBytes, n, stops, index, seenKey, overlapped,
        c.grandparentIndex, stop, c.overlappedBytes);
  }

  // ---------------------------------------------------------------- where the outputs are cut

  predicate EndsBefore(piece: seq<Entry>, key: IKey) {
    piece != [] && Precedes(piece[|piece| - 1].Key(), key)
  }

  predicate StartsFrom(piece: seq<Entry>, key: IKey) {
    piece != [] && !Precedes(piece[0].Key(), key)
  }

  /** No entry was added to an output that had reached the size limit. */
  ghost predicate NotOverfull(piece: seq<Entry>, builtSize: seq<Entry> -> nat, limit: nat) {
    forall j :: 0 < j < |piece| ==> builtSize(piece[..j]) < limit
  }

  /** An output lies on one side of each stop. */
  ghost predicate OnOneSide(piece: seq<Entry>, merged: seq<Entry>, stops: seq<nat>) {
    forall s :: 0 < s < |stops| && stops[s] < |merged| ==>
      EndsBefore(piece, merged[stops[s]].Key()) || StartsFrom(piece, merged[stops[s]].Key())
  }

  /** A stop lies behind the first output and not behind the start of the second. */
  ghost predicate StopBetween(a: seq<Entry>, b: seq<Entry>, merged: seq<Entry>, stops: seq<nat>) {
    exists s :: 0 < s < |stops| && stops[s] < |merged| &&
      EndsBefore(a, merged[stops[s]].Key()) && StartsFrom(b, merged[stops[s]].Key())
  }

  /** The outputs are cut where they are full and at the stops, and nowhere else. */
  ghost predicate WellCut(outputs: Level, merged: seq<Entry>, stops: seq<nat>, builtSize: seq<Entry> -> nat,
                          limit: nat) {
    forall k :: 0 <= k < |outputs| ==> CutRight(outputs, k, merged, stops, builtSize, limit)
  }

  ghost predicate CutRight(outputs: Level, k: nat, merged: seq<Entry>, stops: seq<nat>, builtSize: seq<Entry> -> nat,
                           limit: nat)
    requires k < |outputs|
  {
    && NotOverfull(outputs[k].entries, builtSize, limit)
    && OnOneSide(outputs[k].entries, merged, stops)
    && (k > 0 ==>
         builtSize(outputs[k - 1].entries) >= limit
         || StopBetween(outputs[k - 1].entries, outputs[k].entries, merged, stops))
  }

  /** The output being built has room and begins behind every stop; if it is empty, the one before it is full
      or ends before a stop. */
  ghost predicate OpenAt(outputs: Level, building: seq<Entry>, merged: seq<Entry>, stops: seq<nat>,
                         builtSize: seq<Entry> -> nat, limit: nat) {
    && (forall j :: 0 < j <= |building| ==> builtSize(building[..j]) < limit)
    && (building != [] ==>
         forall s :: 0 < s < |stops| && stops[s] < |merged| ==> StartsFrom(building, merged[stops[s]].Key()))
    && (outputs != [] ==> MayFollow(outputs[|outputs| - 1].entries, building, merged, stops, builtSize, limit))
  }

  ghost predicate MayFollow(last: seq<Entry>, building: seq<Entry>, merged: seq<Entry>, stops: seq<nat>,
                            builtSize: seq<Entry> -> nat, limit: nat) {
    || builtSize(last) >= limit
    || if building != [] then StopBetween(last, building, merged, stops)
       else exists s :: 0 < s < |stops| && stops[s] < |merged| && EndsBefore(last, merged[stops[s]].Key())
  }

  ghost predicate AllBefore(outputs: Level, building: seq<Entry>, key: IKey) {
    && (forall f :: f in outputs ==> EndsBefore(f.entries, key))
    && (building != [] ==> EndsBefore(building, key))
  }

  /** A new stop, where the output being built is finished if it holds anything. */
  lemma OneSideOfNewStop(piece: seq<Entry>, merged: seq<Entry>, stops: seq<nat>, n: nat)
    requires n < |merged| && OnOneSide(piece, merged, stops) && EndsBefore(piece, merged[n].Key())
    ensures OnOneSide(piece, merged, stops + [n])
  {
    hide EndsBefore, StartsFrom;
  }

  lemma StopStaysBetween(a: seq<Entry>, b: seq<Entry>, merged: seq<Entry>, stops: seq<nat>, n: nat)
    requires StopBetween(a, b, merged, stops)
    ensures StopBetween(a, b, merged, stops + [n])
  {
    hide EndsBefore, StartsFrom;
    var s :| 0 < s < |stops| && stops[s] < |merged| &&
      EndsBefore(a, merged[stops[s]].Key()) && StartsFrom(b, merged[stops[s]].Key());
    assert (stops + [n])[s] == stops[s];
  }

  lemma CutsStayRight(outputs: Level, merged: seq<Entry>, stops: seq<nat>, builtSize: seq<Entry> -> nat, limit: nat,
                      n: nat)
    requires n < |merged| && WellCut(outputs, merged, stops, builtSize, limit)
    requires forall f :: f in outputs ==> EndsBefore(f.entries, merged[n].Key())
    ensures WellCut(outputs, merged, stops + [n], builtSize, limit)
  {
    hide NotOverfull, OnOneSide, StopBetween, EndsBefore;
    var more := stops + [n];
    forall k | 0 <= k < |outputs| ensures CutRight(outputs, k, merged, more, builtSize, limit) {
      assert CutRight(outputs, k, merged, stops, builtSize, limit);
      assert outputs[k] in outputs;
      OneSideOfNewStop(outputs[k].entries, merged, stops, n);
      if k > 0 && builtSize(outputs[k - 1].entries) < limit {
        StopStaysBetween(outputs[k - 1].entries, outputs[k].entries, merged, stops, n);
      }
    }
  }

  /** An output that is finished as it may follow the ones before it. */
  lemma CutOnce(outputs: Level, merged: seq<Entry>, stops: seq<nat>, builtSize: seq<Entry> -> nat, limit: nat, f: File)
    requires WellCut(outputs, merged, stops, builtSize, limit) && f.entries != []
    requires NotOverfull(f.entries, builtSize, limit) && OnOneSide(f.entries, merged, stops)
    requires outputs != [] ==> MayFollow(outputs[|outputs| - 1].entries, f.entries, merged, stops, builtSize, limit)
    ensures WellCut(outputs + [f], merged, stops, builtSize, limit)
  {
    hide NotOverfull, OnOneSide, StopBetween;
    var more := outputs + [f];
    forall k | 0 <= k < |more| ensures CutRight(more, k, merged, stops, builtSize, limit) {
      if k < |outputs| {
        assert CutRight(outputs, k, merged, stops, builtSize, limit);
        assert more[k] == outputs[k] && (k > 0 ==> more[k - 1] == outputs[k - 1]);
      } else {
        assert more[k] == f && (k > 0 ==> more[k - 1] == outputs[|outputs| - 1]);
      }
    }
  }

  lemma OpenIsWhole(outputs: Level, building: seq<Entry>, merged: seq<Entry>, stops: seq<nat>,
                    builtSize: seq<Entry> -> nat, limit: nat)
    requires OpenAt(outputs, building, merged, stops, builtSize, limit) && building != []
    ensures NotOverfull(building, builtSize, limit) && OnOneSide(building, merged, stops)
    ensures outputs != [] ==> MayFollow(outputs[|outputs| - 1].entries, building, merged, stops, builtSize, limit)
  {
    hide MayFollow, EndsBefore, StartsFrom;
  }

  lemma CutAtStop(outputs: Level, building: seq<Entry>, merged: seq<Entry>, stops: seq<nat>,
                  builtSize: seq<Entry> -> nat, limit: nat, n: nat, f: File)
    requires n < |merged| && stops != [] && building != [] && f.entries == building
    requires WellCut(outputs, merged, stops, builtSize, limit)
    requires OpenAt(outputs, building, merged, stops, builtSize, limit)
    requires AllBefore(outputs, building, merged[n].Key())
    ensures WellCut(outputs + [f], merged, stops + [n], builtSize, limit)
    ensures OpenAt(outputs + [f], [], merged, stops + [n], builtSize, limit)
  {
    OpenIsWhole(outputs, building, merged, stops, builtSize, limit);
    hide WellCut, NotOverfull, OnOneSide, StopBetween, EndsBefore, StartsFrom;
    CutOnce(outputs, merged, stops, builtSize, limit, f);
    CutsStayRight(outputs + [f], merged, stops, builtSize, limit, n);
    var more := stops + [n];
    assert more[|stops|] == n && (outputs + [f])[|outputs|] == f;
    assert 0 < |stops| < |more|;
  }

  lemma StopWhileEmpty(outputs: Level, merged: seq<Entry>, stops: seq<nat>, builtSize: seq<Entry> -> nat, limit: nat,
                       n: nat)
    requires n < |merged| && WellCut(outputs, merged, stops, builtSize, limit)
    requires OpenAt(outputs, [], merged, stops, builtSize, limit) && AllBefore(outputs, [], merged[n].Key())
    ensures WellCut(outputs, merged, stops + [n], builtSize, limit)
    ensures OpenAt(outputs, [], merged, stops + [n], builtSize, limit)
  {
    hide EndsBefore, StartsFrom;
    CutsStayRight(outputs, merged, stops, builtSize, limit, n);
    hide WellCut;
    var more := stops + [n];
    if outputs != [] && builtSize(outputs[|outputs| - 1].entries) < limit {
      var last := outputs[|outputs| - 1].entries;
      var s :| 0 < s < |stops| && stops[s] < |merged| && EndsBefore(last, merged[stops[s]].Key());
      assert more[s] == stops[s];
    }
  }

  /** One more entry, from the n-th key, for the output being built. */
  lemma StartsAfterStops(building: seq<Entry>, merged: seq<Entry>, stops: seq<nat>, n: nat)
    requires Sorted(merged) && n < |merged| && forall s :: 0 < s < |stops| ==> stops[s] <= n
    requires building != [] ==>
      forall s :: 0 < s < |stops| && stops[s] < |merged| ==> StartsFrom(building, merged[stops[s]].Key())
    ensures forall s :: 0 < s < |stops| && stops[s] < |merged| ==>
      StartsFrom(building + [merged[n]], merged[stops[s]].Key())
  {
    var more := building + [merged[n]];
    forall s | 0 < s < |stops| && stops[s] < |merged| ensures StartsFrom(more, merged[stops[s]].Key()) {
      if building == [] {
        assert stops[s] < n ==> Precedes(merged[stops[s]].Key(), merged[n].Key());
      } else {
        assert more[0] == building[0];
      }
    }
  }

  lemma StillFollows(last: seq<Entry>, building: seq<Entry>, e: Entry, merged: seq<Entry>, stops: seq<nat>,
                     builtSize: seq<Entry> -> nat, limit: nat)
    requires MayFollow(last, building, merged, stops, builtSize, limit)
    requires forall s :: 0 < s < |stops| && stops[s] < |merged| ==>
      StartsFrom(building + [e], merged[stops[s]].Key())
    ensures MayFollow(last, building + [e], merged, stops, builtSize, limit)
  {
    hide EndsBefore, StartsFrom;
  }

  lemma AddEntry(outputs: Level, building: seq<Entry>, merged: seq<Entry>, stops: seq<nat>,
                 builtSize: seq<Entry> -> nat, limit: nat, n: nat)
    requires Sorted(merged) && n < |merged| && forall s :: 0 < s < |stops| ==> stops[s] <= n
    requires OpenAt(outputs, building, merged, stops, builtSize, limit)
    ensures var more := building + [merged[n]];
      && NotOverfull(more, builtSize, limit) && OnOneSide(more, merged, stops)
      && (outputs != [] ==> MayFollow(outputs[|outputs| - 1].entries, more, merged, stops, builtSize, limit))
      && (builtSize(more) < limit ==> OpenAt(outputs, more, merged, stops, builtSize, limit))
  {
    StartsAfterStops(building, merged, stops, n);
    hide Sorted, EndsBefore, StartsFrom;
    var more := building + [merged[n]];
    if outputs != [] {
      StillFollows(outputs[|outputs| - 1].entries, building, merged[n], merged, stops, builtSize, limit);
    }
    hide MayFollow;
    forall j | 0 < j <= |more| ensures j < |more| || builtSize(more) < limit ==> builtSize(more[..j]) < limit {
      if j <= |building| {
        assert more[..j] == building[..j];
      } else {
        assert more[..j] == more;
      }
    }
  }

  lemma CutWhenFull(outputs: Level, building: seq<Entry>, merged: seq<Entry>, stops: seq<nat>,
                    builtSize: seq<Entry> -> nat, limit: nat, n: nat, f: File)
    requires Sorted(merged) && n < |merged| && forall s :: 0 < s < |stops| ==> stops[s] <= n
    requires WellCut(outputs, merged, stops, builtSize, limit)
    requires OpenAt(outputs, building, merged, stops, builtSize, limit)
    requires f.entries == building + [merged[n]] && builtSize(f.entries) >= limit
    ensures WellCut(outputs + [f], merged, stops, builtSize, limit)
    ensures OpenAt(outputs + [f], [], merged, stops, builtSize, limit)
  {
    AddEntry(outputs, building, merged, stops, builtSize, limit, n);
    hide Sorted, NotOverfull, OnOneSide, StopBetween;
    CutOnce(outputs, merged, stops, builtSize, limit, f);
    assert (outputs + [f])[|outputs|] == f;
  }

  lemma NothingCut(merged: seq<Entry>, stops: seq<nat>, builtSize: seq<Entry> -> nat, limit: nat)
    ensures WellCut([], merged, stops, builtSize, limit) && OpenAt([], [], merged, stops, builtSize, limit)
  {
  }

  /** The last output is finished where the input ends. */
  lemma CutAtEnd(outputs: Level, building: seq<Entry>, merged: seq<Entry>, stops: seq<nat>,
                 builtSize: seq<Entry> -> nat, limit: nat, f: File)
    requires WellCut(outputs, merged, stops, builtSize, limit)
    requires OpenAt(outputs, building, merged, stops, builtSize, limit)
    requires building != [] && f.entries == building
    ensures WellCut(outputs + [f], merged, stops, builtSize, limit)
  {
    OpenIsWhole(outputs, building, merged, stops, builtSize, limit);
    CutOnce(outputs, merged, stops, builtSize, limit, f);
  }

  lemma StopsSoFar(c: Compaction, merged: seq<Entry>, n: nat, stops: seq<nat>)
    requires Stopping(c, merged, n, stops)
    ensures stops != [] && forall s :: 0 < s < |stops| ==> stops[s] < n
  {
    hide IsStop;
    forall s | 0 < s < |stops| ensures stops[s] < n {
      StopWithin(c.grandparents, merged, c.maxGrandParentOverlapBytes, n, stops, s);
    }
  }

  lemma StoppedAt(c: Compaction, merged: seq<Entry>, n: nat, stops: seq<nat>)
    requires Stopping(c, merged, n, stops)
    ensures n <= |merged| && AreStops(c.grandparents, merged, c.maxGrandParentOverlapBytes, n, stops)
  {
  }
}
