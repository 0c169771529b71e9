/** Prefix-compressed blocks: what BlockBuilder writes, Block::Iter reads back, and its binary search
    over the restart points finds (table/block_builder.cc, table/block.cc). */
module Blocks {
  import opened Wrappers
  import opened Coding

  datatype Pair = Pair(key: Bytes, value: Bytes)

  /** The comparator: a strict total order on keys. */
  type Less = (Bytes, Bytes) -> bool

  ghost predicate TotalOrder(less: Less) {
    && (forall a :: !less(a, a))
    && (forall a, b :: a != b ==> less(a, b) || less(b, a))
    && (forall a, b, c :: less(a, b) && less(b, c) ==> less(a, c))
  }

  ghost predicate Ascending(less: Less, entries: seq<Pair>) {
    forall i, j :: 0 <= i < j < |entries| ==> less(entries[i].key, entries[j].key)
  }

  // ---------------------------------------------------------------- the bytes of a block

  /** An entry as stored: how much of the previous key it shares, the rest of its key, its value. */
  datatype Delta = Delta(shared: nat, suffix: Bytes, value: Bytes)

  function Header(d: Delta): Bytes {
    Varint(d.shared % TWO_32) + Varint(|d.suffix| % TWO_32) + Varint(|d.value| % TWO_32)
  }

  function EncodeDelta(d: Delta): Bytes {
    Header(d) + d.suffix + d.value
  }

  function Data(ds: seq<Delta>): Bytes {
    if ds == [] then [] else Data(ds[..|ds| - 1]) + EncodeDelta(ds[|ds| - 1])
  }

  /** Where the i-th entry starts. */
  function Offset(ds: seq<Delta>, i: nat): nat
    requires i <= |ds|
  {
    |Data(ds[..i])|
  }

  predicate Fits(ds: seq<Delta>, starts: seq<nat>) {
    forall k :: 0 <= k < |starts| ==> starts[k] <= |ds|
  }

  /** The restart points: the offsets of the entries that store their whole key. */
  function Points(ds: seq<Delta>, starts: seq<nat>): seq<nat>
    requires Fits(ds, starts)
  {
    seq(|starts|, k requires 0 <= k < |starts| => Offset(ds, starts[k]))
  }

  function Contents(ds: seq<Delta>, starts: seq<nat>): Bytes
    requires Fits(ds, starts)
  {
    Data(ds) + FixedAll(Points(ds, starts)) + Fixed(|starts| % TWO_32, 4)
  }

  /** How an entry is stored after the previous key. */
  predicate Stores(d: Delta, previous: Bytes, e: Pair) {
    && d.value == e.value && d.shared <= |e.key| && d.shared <= |previous|
    && d.suffix == e.key[d.shared..] && previous[..d.shared] == e.key[..d.shared]
  }

  function PreviousKey(entries: seq<Pair>, i: nat): Bytes
    requires i <= |entries|
  {
    if i == 0 then [] else entries[i - 1].key
  }

  ghost predicate AllStored(entries: seq<Pair>, ds: seq<Delta>) {
    |ds| == |entries| && forall i :: 0 <= i < |ds| ==> Stores(ds[i], PreviousKey(entries, i), entries[i])
  }

  /** Entry p stores its whole key; an empty block starts at 0 all the same. */
  predicate StartOk(ds: seq<Delta>, p: nat) {
    if |ds| == 0 then p == 0 else p < |ds| && ds[p].shared == 0
  }

  predicate Increasing(ns: seq<nat>) {
    forall j, k :: 0 <= j < k < |ns| ==> ns[j] < ns[k]
  }

  ghost predicate StartsOk(ds: seq<Delta>, starts: seq<nat>) {
    && |starts| > 0 && starts[0] == 0 && Increasing(starts)
    && forall k :: 0 <= k < |starts| ==> StartOk(ds, starts[k])
  }

  ghost predicate Formed(entries: seq<Pair>, ds: seq<Delta>, starts: seq<nat>) {
    AllStored(entries, ds) && StartsOk(ds, starts)
  }

  lemma {:induction false} DataSplits(ds: seq<Delta>, i: nat)
    requires i < |ds|
    ensures Data(ds[..i]) + EncodeDelta(ds[i]) == Data(ds[..i + 1])
    ensures Data(ds[..i + 1]) <= Data(ds)
    ensures Offset(ds, i) + |EncodeDelta(ds[i])| == Offset(ds, i + 1) <= |Data(ds)|
    decreases |ds|
  {
    hide EncodeDelta;
    assert ds[..i + 1][..i] == ds[..i];
    if i == |ds| - 1 {
      assert ds[..i + 1] == ds;
    } else {
      var n := |ds| - 1;
      DataSplits(ds[..n], i);
      assert ds[..n][..i + 1] == ds[..i + 1] && ds[..n][..i] == ds[..i];
    }
  }

  lemma HeaderIsLong(d: Delta)
    ensures |EncodeDelta(d)| >= 3 + |d.suffix| + |d.value|
  {
  }

  lemma {:induction false} OffsetsIncrease(ds: seq<Delta>, i: nat, j: nat)
    requires i < j <= |ds|
    ensures Offset(ds, i) < Offset(ds, j) <= |Data(ds)|
    decreases j - i
  {
    hide Data, EncodeDelta;
    DataSplits(ds, j - 1);
    HeaderIsLong(ds[j - 1]);
    if i < j - 1 {
      OffsetsIncrease(ds, i, j - 1);
    }
  }

  // ---------------------------------------------------------------- building

  /** The first of two keys' bytes that both share. */
  predicate SharedPrefix(a: Bytes, b: Bytes, n: nat) {
    n <= |a| && n <= |b| && a[..n] == b[..n]
  }

  /** A restart point every `interval` entries, and `counter` entries since the last one. */
  ghost predicate Spaced(n: nat, starts: seq<nat>, interval: nat, counter: nat) {
    && interval >= 1 && |starts| > 0 && starts[|starts| - 1] + counter == n && counter <= interval
    && forall k :: 0 < k < |starts| ==> starts[k] == starts[k - 1] + interval
  }

  /** As much is shared as can be. */
  predicate LongestPrefix(a: Bytes, b: Bytes, n: nat) {
    SharedPrefix(a, b, n) && (n < |a| && n < |b| ==> a[n] != b[n])
  }

  /** Entries other than the restart points share as much of the previous key as they can. */
  ghost predicate Tight(entries: seq<Pair>, ds: seq<Delta>, starts: seq<nat>) {
    |ds| == |entries| && forall i :: 0 <= i < |ds| && i !in starts ==>
      LongestPrefix(PreviousKey(entries, i), entries[i].key, ds[i].shared)
  }

  lemma TightAdds(entries: seq<Pair>, ds: seq<Delta>, starts: seq<nat>, restart: bool, d: Delta, e: Pair)
    requires Tight(entries, ds, starts)
    requires restart || LongestPrefix(PreviousKey(entries, |entries|), e.key, d.shared)
    ensures Tight(entries + [e], ds + [d], StartsAfter(ds, starts, restart))
  {
    var es, all, after := entries + [e], ds + [d], StartsAfter(ds, starts, restart);
    assert restart ==> after[|starts|] == |ds|;
    assert forall k :: 0 <= k < |starts| ==> after[k] == starts[k];
    hide LongestPrefix, PreviousKey;
    forall i | 0 <= i < |all| && i !in after
      ensures LongestPrefix(PreviousKey(es, i), es[i].key, all[i].shared)
    {
      PreviousKeyStays(entries, e, i);
    }
  }

  /** How many of the restart points are before the n-th entry. */
  function Below(starts: seq<nat>, n: nat): nat {
    if starts == [] then 0
    else if starts[|starts| - 1] < n then |starts|
    else Below(starts[..|starts| - 1], n)
  }

  /** How large the block would be with its first n entries only. */
  function SizeAt(ds: seq<Delta>, starts: seq<nat>, n: nat): nat
    requires n <= |ds|
  {
    |Data(ds[..n])| + 4 * Below(starts, n) + 4
  }

  lemma SizeStays(ds: seq<Delta>, starts: seq<nat>, restart: bool, d: Delta, n: nat)
    requires n <= |ds|
    ensures SizeAt(ds + [d], StartsAfter(ds, starts, restart), n) == SizeAt(ds, starts, n)
  {
    assert (ds + [d])[..n] == ds[..n];
    if restart {
      assert (starts + [|ds|])[..|starts|] == starts;
    }
  }

  lemma SizeOfAll(entries: seq<Pair>, ds: seq<Delta>, starts: seq<nat>)
    requires Formed(entries, ds, starts) && ds != []
    ensures SizeAt(ds, starts, |ds|) == |Data(ds)| + 4 * |starts| + 4
  {
    assert ds[..|ds|] == ds;
    assert StartOk(ds, starts[|starts| - 1]);
  }

  lemma SpacedAdds(n: nat, starts: seq<nat>, interval: nat, counter: nat, restart: bool)
    requires Spaced(n, starts, interval, counter) && restart == (counter == interval)
    ensures Spaced(n + 1, if restart then starts + [n] else starts, interval, if restart then 1 else counter + 1)
    ensures restart ==> n > 0
    ensures counter <= interval
  {
  }

  class BlockBuilder {
    const interval: nat
    var buffer: Bytes
    var restarts: seq<nat>
    var counter: nat
    var finished: bool
    var lastKey: Bytes
    ghost var entries: seq<Pair>
    ghost var ds: seq<Delta>
    ghost var starts: seq<nat>

    ghost predicate Valid()
      reads this
    {
      && Formed(entries, ds, starts) && Fits(ds, starts)
      && buffer == Data(ds) && restarts == Points(ds, starts)
      && Spaced(|ds|, starts, interval, counter) && Tight(entries, ds, starts)
      && lastKey == PreviousKey(entries, |entries|)
    }

    constructor (interval: nat)
      requires interval >= 1
      ensures Valid() && !finished && entries == [] && this.interval == interval
      ensures ds == [] && starts == [0]
    {
      this.interval := interval;
      buffer, restarts, counter, finished, lastKey := [], [0], 0, false, [];
      entries, ds, starts := [], [], [0];
    }

    method Add(key: Bytes, value: Bytes)
      requires Valid() && !finished
      modifies this
      ensures Valid() && !finished && entries == old(entries) + [Pair(key, value)]
      ensures Grown(old(ds), old(starts), old(counter) == interval)
    {
      ghost var restart := counter == interval;
      ghost var n := |ds|;
      hide *;
      Parts();
      StartsAre(ds, starts, restart);
      var shared := 0;
      NothingShared(lastKey, key);
      SpacedAdds(|ds|, starts, interval, counter, restart);
      if counter < interval {
        shared := CommonPrefix(lastKey, key);
        IsLongest(lastKey, key, shared);
      } else {
        restarts := restarts + [|buffer|];
        counter := 0;
      }
      SharedFits(lastKey, key, shared);
      PutEntry(key, value, shared, restart);
    }

    /** Appends an entry that shares so much of the previous key. */
    method PutEntry(key: Bytes, value: Bytes, shared: nat, ghost restart: bool)
      requires Formed(entries, ds, starts) && Fits(ds, starts) && buffer == Data(ds) && !finished
      requires restarts == Points(ds, starts) + if restart then [|buffer|] else []
      requires Fits(ds, StartsAfter(ds, starts, restart))
      requires Spaced(|ds| + 1, StartsAfter(ds, starts, restart), interval, counter + 1)
      requires shared <= |key| && shared <= |lastKey| && lastKey[..shared] + key[shared..] == key
      requires Stores(Delta(shared, key[shared..], value), PreviousKey(entries, |entries|), Pair(key, value))
      requires restart ==> |ds| > 0 && shared == 0
      requires Tight(entries, ds, starts)
      requires restart || LongestPrefix(PreviousKey(entries, |entries|), key, shared)
      modifies this
      ensures Valid() && !finished && entries == old(entries) + [Pair(key, value)]
      ensures Grown(old(ds), old(starts), restart)
    {
      hide *;
      ghost var e, d := Pair(key, value), Delta(shared, key[shared..], value);
      ghost var ds0, starts0 := ds, starts;
      FormedAdds(entries, ds, starts, restart, d, e);
      TightAdds(entries, ds, starts, restart, d, e);
      GrowsBy(ds, starts, restart, d);
      PointsAdds(ds, starts, restart, d);
      LastKeyIs(entries, e);
      AppendBytes(key, value, shared);
      lastKey := lastKey[..shared] + key[shared..];
      counter := counter + 1;
      entries, ds, starts := entries + [e], ds + [d], StartsAfter(ds, starts, restart);
      IsValid();
      IsGrown(ds0, starts0, restart);
    }

    lemma IsGrown(before: seq<Delta>, beforeStarts: seq<nat>, restart: bool)
      requires GrownTo(before, beforeStarts, restart, ds, starts)
      ensures Grown(before, beforeStarts, restart)
    {
    }

    method AppendBytes(key: Bytes, value: Bytes, shared: nat)
      requires shared <= |key|
      modifies this`buffer
      ensures buffer == old(buffer) + EncodeDelta(Delta(shared, key[shared..], value))
    {
      EncodedInParts(buffer, Delta(shared, key[shared..], value));
      hide *;
      var nonShared := |key| - shared;
      buffer := buffer + Varint(shared % TWO_32);
      buffer := buffer + Varint(nonShared % TWO_32);
      buffer := buffer + Varint(|value| % TWO_32);
      buffer := buffer + key[shared..];
      buffer := buffer + value;
    }

    lemma Parts()
      requires Valid()
      ensures Formed(entries, ds, starts) && Fits(ds, starts)
      ensures buffer == Data(ds) && restarts == Points(ds, starts)
      ensures Spaced(|ds|, starts, interval, counter) && lastKey == PreviousKey(entries, |entries|)
      ensures Tight(entries, ds, starts)
    {
    }

    lemma EmptyIs()
      requires Valid()
      ensures ds == [] <==> entries == []
      ensures ds == [] ==> starts == [0]
    {
      hide Stores, Data, Points;
    }

    /** What CurrentSizeEstimate estimates. */
    lemma SizeIs()
      requires Valid()
      ensures ds != [] ==> SizeAt(ds, starts, |ds|) == |buffer| + 4 * |restarts| + 4
    {
      hide Data, Stores, Below, Tight;
      if ds != [] {
        SizeOfAll(entries, ds, starts);
        PointsLength(ds, starts);
      }
    }

    lemma GrownIs(before: seq<Delta>, beforeStarts: seq<nat>, restart: bool)
      ensures Grown(before, beforeStarts, restart) == GrownTo(before, beforeStarts, restart, ds, starts)
      ensures Grown(before, beforeStarts, restart) ==> ds != []
    {
    }

    /** One more entry than before. */
    ghost predicate Grown(before: seq<Delta>, beforeStarts: seq<nat>, restart: bool)
      reads this
    {
      GrownTo(before, beforeStarts, restart, ds, starts)
    }

    lemma IsValid()
      requires Formed(entries, ds, starts) && Fits(ds, starts)
      requires buffer == Data(ds) && restarts == Points(ds, starts)
      requires Spaced(|ds|, starts, interval, counter) && lastKey == PreviousKey(entries, |entries|)
      requires Tight(entries, ds, starts)
      ensures Valid()
    {
    }

    /** Ready for another block. */
    method Reset()
      modifies this
      requires interval >= 1
      ensures Valid() && !finished && entries == [] && ds == [] && starts == [0]
    {
      buffer, restarts, counter, finished, lastKey := [], [0], 0, false, [];
      entries, ds, starts := [], [], [0];
    }

    method IsEmpty() returns (empty: bool)
      requires Valid()
      ensures empty == (entries == [])
    {
      hide EncodeDelta, Points, Stores;
      empty := |buffer| == 0;
      assert |ds| == |entries|;
      if |ds| > 0 {
        OffsetsIncrease(ds, 0, |ds|);
        assert ds[..|ds|] == ds;
      }
    }

    method CurrentSizeEstimate() returns (size: nat)
      ensures size == |buffer| + 4 * |restarts| + 4
    {
      size := |buffer| + |restarts| * 4 + 4;
    }

    /** How much of the previous key can be shared. */
    static method CommonPrefix(lastKey: Bytes, key: Bytes) returns (shared: nat)
      ensures SharedPrefix(lastKey, key, shared)
      ensures shared < |lastKey| && shared < |key| ==> lastKey[shared] != key[shared]
    {
      shared := 0;
      var minLength := if |lastKey| < |key| then |lastKey| else |key|;
      while shared < minLength && lastKey[shared] == key[shared]
        invariant SharedPrefix(lastKey, key, shared)
      {
        shared := shared + 1;
      }
    }

    /** Appends the restart array and its length. */
    method Finish() returns (contents: Bytes)
      requires Valid() && !finished
      modifies this`buffer, this`finished
      ensures finished && Formed(entries, ds, starts) && Fits(ds, starts) && contents == Contents(ds, starts)
      ensures Tight(entries, ds, starts) && Spaced(|ds|, starts, interval, counter)
      ensures |contents| == old(|buffer|) + 4 * |restarts| + 4
    {
      hide Data, Points, EncodeDelta, Formed, FixedAll;
      FormedParts(entries, ds, starts);
      ghost var before := buffer;
      FixedNone();
      FixedAllLength(restarts);
      for i := 0 to |restarts|
        invariant buffer == before + FixedAll(restarts[..i])
      {
        FixedOneMore(before, restarts, i);
        buffer := buffer + Fixed(restarts[i] % TWO_32, 4);
      }
      assert restarts[..|restarts|] == restarts;
      buffer := buffer + Fixed(|restarts| % TWO_32, 4);
      finished := true;
      contents := buffer;
      PointsLength(ds, starts);
    }
  }

  lemma FormedParts(entries: seq<Pair>, ds: seq<Delta>, starts: seq<nat>)
    requires Formed(entries, ds, starts)
    ensures |ds| == |entries| && |starts| > 0 && Fits(ds, starts)
  {
    hide AllStored, Increasing;
    assert |ds| == |entries| by {
      SameLength(entries, ds);
    }
    forall k | 0 <= k < |starts| ensures starts[k] <= |ds| {
      assert StartOk(ds, starts[k]);
    }
  }

  lemma SameLength(entries: seq<Pair>, ds: seq<Delta>)
    requires AllStored(entries, ds)
    ensures |ds| == |entries|
  {
  }

  lemma PointsLength(ds: seq<Delta>, starts: seq<nat>)
    requires Fits(ds, starts)
    ensures |Points(ds, starts)| == |starts|
  {
  }

  lemma IsLongest(a: Bytes, b: Bytes, n: nat)
    requires SharedPrefix(a, b, n) && (n < |a| && n < |b| ==> a[n] != b[n])
    ensures LongestPrefix(a, b, n)
  {
  }

  ghost predicate GrownTo(before: seq<Delta>, beforeStarts: seq<nat>, restart: bool, ds: seq<Delta>, starts: seq<nat>) {
    ds != [] && ds[..|ds| - 1] == before && starts == StartsAfter(before, beforeStarts, restart)
  }

  lemma GrowsBy(ds: seq<Delta>, starts: seq<nat>, restart: bool, d: Delta)
    ensures GrownTo(ds, starts, restart, ds + [d], StartsAfter(ds, starts, restart))
  {
    assert (ds + [d])[..|ds|] == ds;
  }

  lemma NothingShared(a: Bytes, b: Bytes)
    ensures SharedPrefix(a, b, 0)
  {
  }

  lemma LastKeyIs(entries: seq<Pair>, e: Pair)
    ensures PreviousKey(entries + [e], |entries + [e]|) == e.key
  {
  }

  lemma SharedFits(a: Bytes, b: Bytes, n: nat)
    requires SharedPrefix(a, b, n)
    ensures n <= |a| && n <= |b| && a[..n] + b[n..] == b
    ensures forall value :: Stores(Delta(n, b[n..], value), a, Pair(b, value))
  {
  }

  lemma EncodedInParts(before: Bytes, d: Delta)
    ensures before + EncodeDelta(d) ==
            before + Varint(d.shared % TWO_32) + Varint(|d.suffix| % TWO_32) + Varint(|d.value| % TWO_32)
                + d.suffix + d.value
  {
    hide Varint;
  }

  /** The entries that store their whole key, after one more entry. */
  function StartsAfter(ds: seq<Delta>, starts: seq<nat>, restart: bool): seq<nat> {
    if restart then starts + [|ds|] else starts
  }

  lemma StartsAre(ds: seq<Delta>, starts: seq<nat>, restart: bool)
    requires Fits(ds, starts)
    ensures StartsAfter(ds, starts, restart) == (if restart then starts + [|ds|] else starts)
    ensures Fits(ds, StartsAfter(ds, starts, restart))
    ensures forall d :: Fits(ds + [d], StartsAfter(ds, starts, restart))
  {
  }

  lemma StoredAdds(entries: seq<Pair>, ds: seq<Delta>, d: Delta, e: Pair)
    requires AllStored(entries, ds) && Stores(d, PreviousKey(entries, |entries|), e)
    ensures AllStored(entries + [e], ds + [d])
  {
    var es, all := entries + [e], ds + [d];
    hide Stores, PreviousKey;
    forall i | 0 <= i < |all| ensures Stores(all[i], PreviousKey(es, i), es[i]) {
      PreviousKeyStays(entries, e, i);
      if i < |ds| {
        assert Stores(ds[i], PreviousKey(entries, i), entries[i]);
      }
    }
  }

  lemma PreviousKeyStays(entries: seq<Pair>, e: Pair, i: nat)
    requires i <= |entries|
    ensures PreviousKey(entries + [e], i) == PreviousKey(entries, i)
  {
  }

  lemma StartsAdds(ds: seq<Delta>, starts: seq<nat>, restart: bool, d: Delta)
    requires StartsOk(ds, starts)
    requires restart ==> |ds| > 0 && d.shared == 0
    requires |ds| == 0 ==> d.shared == 0
    ensures StartsOk(ds + [d], StartsAfter(ds, starts, restart))
  {
    var after := StartsAfter(ds, starts, restart);
    forall k | 0 <= k < |after| ensures StartOk(ds + [d], after[k]) {
      if k < |starts| {
        assert StartOk(ds, starts[k]);
      }
    }
    forall j, k | 0 <= j < k < |after| ensures after[j] < after[k] {
      assert StartOk(ds, starts[j]);
    }
  }

  lemma FormedAdds(entries: seq<Pair>, ds: seq<Delta>, starts: seq<nat>, restart: bool, d: Delta, e: Pair)
    requires Formed(entries, ds, starts) && Stores(d, PreviousKey(entries, |entries|), e)
    requires restart ==> |ds| > 0 && d.shared == 0
    ensures Formed(entries + [e], ds + [d], StartsAfter(ds, starts, restart))
    ensures |starts| > 0 && |ds| == |entries|
  {
    assert |ds| == 0 ==> d.shared == 0;
    hide StartOk, Stores, Increasing;
    StoredAdds(entries, ds, d, e);
    StartsAdds(ds, starts, restart, d);
  }

  lemma PointsAdds(ds: seq<Delta>, starts: seq<nat>, restart: bool, d: Delta)
    requires Fits(ds, starts)
    ensures Fits(ds + [d], StartsAfter(ds, starts, restart))
    ensures Data(ds + [d]) == Data(ds) + EncodeDelta(d)
    ensures Points(ds + [d], StartsAfter(ds, starts, restart))
            == Points(ds, starts) + if restart then [|Data(ds)|] else []
  {
    hide Data, EncodeDelta;
    DataAppends(ds, d);
    var after := StartsAfter(ds, starts, restart);
    assert ds[..|ds|] == ds;
    assert forall k :: 0 <= k < |after| ==> after[k] <= |ds|;
    forall k | 0 <= k < |after| ensures Offset(ds + [d], after[k]) == Offset(ds, after[k]) {
      assert (ds + [d])[..after[k]] == ds[..after[k]];
    }
  }

  lemma DataAppends(ds: seq<Delta>, d: Delta)
    ensures Data(ds + [d]) == Data(ds) + EncodeDelta(d)
  {
    assert (ds + [d])[..|ds|] == ds;
  }

  // ---------------------------------------------------------------- decoding an entry

  datatype Decoded = Decoded(shared: nat, nonShared: nat, valueLength: nat, start: nat)

  /** Three varints at p, and room for the bytes they announce; start is where those begin. */
  function DecodeAt(s: Bytes, p: nat): Option<Decoded>
    requires p <= |s|
  {
    if |s| - p < 3 then None else
      match VarintAt(s, p, 5, 1, 0, TWO_32)
      case None => None
      case Some((shared, p1)) =>
        match VarintAt(s, p1, 5, 1, 0, TWO_32)
        case None => None
        case Some((nonShared, p2)) =>
          match VarintAt(s, p2, 5, 1, 0, TWO_32)
          case None => None
          case Some((valueLength, p3)) =>
            if |s| - p3 < (nonShared + valueLength) % TWO_32 then None
            else Some(Decoded(shared, nonShared, valueLength, p3))
  }

  /** DecodeEntry, with its fast path for three one-byte lengths; s ends at the limit. */
  method DecodeEntry(s: Bytes, p: nat) returns (r: Option<Decoded>)
    requires p <= |s|
    ensures r == DecodeAt(s, p)
  {
    if |s| - p < 3 {
      return None;
    }
    var shared: nat, nonShared: nat, valueLength: nat := s[p], s[p + 1], s[p + 2];
    if shared < 0x80 && nonShared < 0x80 && valueLength < 0x80 {
      FastVarint(s, p);
      FastVarint(s, p + 1);
      FastVarint(s, p + 2);
      hide VarintAt;
      if |s| - (p + 3) < (nonShared + valueLength) % TWO_32 {
        return None;
      }
      return Some(Decoded(shared, nonShared, valueLength, p + 3));
    }
    hide VarintAt;
    var v := GetVarintLoop(s, p, 5, TWO_32);
    if v.None? {
      return None;
    }
    shared := v.value.0;
    v := GetVarintLoop(s, v.value.1, 5, TWO_32);
    if v.None? {
      return None;
    }
    nonShared := v.value.0;
    v := GetVarintLoop(s, v.value.1, 5, TWO_32);
    if v.None? {
      return None;
    }
    valueLength := v.value.0;
    if |s| - v.value.1 < (nonShared + valueLength) % TWO_32 {
      return None;
    }
    return Some(Decoded(shared, nonShared, valueLength, v.value.1));
  }

  lemma FastVarint(s: Bytes, p: nat)
    requires p < |s| && s[p] < 0x80
    ensures VarintAt(s, p, 5, 1, 0, TWO_32) == Some((s[p], p + 1))
  {
  }

  /** The lengths of an entry fit 32 bits together. */
  predicate Small(d: Delta) {
    d.shared < TWO_32 && |d.suffix| + |d.value| < TWO_32
  }

  lemma DecodeRoundTrip(before: Bytes, d: Delta, rest: Bytes)
    requires Small(d)
    ensures DecodeAt(before + EncodeDelta(d) + rest, |before|) ==
            Some(Decoded(d.shared, |d.suffix|, |d.value|, |before| + |Header(d)|))
  {
    hide *;
    var s := before + EncodeDelta(d) + rest;
    var a, b, c := Varint(d.shared), Varint(|d.suffix|), Varint(|d.value|);
    SmallParts(d);
    HeaderIs(d, before, rest);
    ThreeParts(before, a, b, c, d.suffix + d.value + rest, s);
    VarintReadAt(s, |before|, d.shared);
    VarintReadAt(s, |before| + |a|, |d.suffix|);
    VarintReadAt(s, |before| + |a| + |b|, |d.value|);
    DecodeIs(s, |before|, d.shared, |d.suffix|, |d.value|, |before| + |a|, |before| + |a| + |b|,
        |before| + |a| + |b| + |c|);
  }

  lemma DecodeIs(s: Bytes, p: nat, shared: nat, nonShared: nat, valueLength: nat, p1: nat, p2: nat, p3: nat)
    requires p + 3 <= |s| && p1 <= |s| && p2 <= |s| && p3 <= |s|
    requires VarintAt(s, p, 5, 1, 0, TWO_32) == Some((shared, p1))
    requires VarintAt(s, p1, 5, 1, 0, TWO_32) == Some((nonShared, p2))
    requires VarintAt(s, p2, 5, 1, 0, TWO_32) == Some((valueLength, p3))
    requires nonShared + valueLength < TWO_32 && p3 + nonShared + valueLength <= |s|
    ensures DecodeAt(s, p) == Some(Decoded(shared, nonShared, valueLength, p3))
  {
    hide VarintAt;
  }

  lemma SmallParts(d: Delta)
    requires Small(d)
    ensures d.shared < TWO_32 && |d.suffix| + |d.value| < TWO_32
  {
  }

  lemma HeaderIs(d: Delta, before: Bytes, rest: Bytes)
    requires Small(d)
    ensures Header(d) == Varint(d.shared) + Varint(|d.suffix|) + Varint(|d.value|)
    ensures before + EncodeDelta(d) + rest ==
            before + (Varint(d.shared) + Varint(|d.suffix|) + Varint(|d.value|)) + (d.suffix + d.value + rest)
  {
    hide Varint;
    NoWrap(d.shared);
    NoWrap(|d.suffix|);
    NoWrap(|d.value|);
    RegroupFive(before, Header(d), d.suffix, d.value, rest);
  }

  lemma RegroupFive(a: Bytes, b: Bytes, c: Bytes, d: Bytes, e: Bytes)
    ensures a + (b + c + d) + e == a + b + (c + d + e)
  {
  }

  lemma VarintReadAt(s: Bytes, p: nat, v: nat)
    requires v < TWO_32 && p <= |s| && Varint(v) <= s[p..]
    ensures VarintAt(s, p, 5, 1, 0, TWO_32) == Some((v, p + |Varint(v)|))
    ensures p + |Varint(v)| <= |s|
  {
    VarintFits(v);
    hide VarintAt, Varint;
    VarintIsRead(s, p, v, 5, 1, 0, TWO_32);
  }

  lemma VarintFits(v: nat)
    requires v < TWO_32
    ensures |Varint(v)| <= 5 && (0 + v * 1) % TWO_32 == v
  {
    assert Power(0x80, 2) == 0x4000 && Power(0x80, 4) == 0x1000_0000;
    assert Power(0x80, 5) == 0x8_0000_0000;
    VarintIsShort(v, 5);
  }

  lemma ThreeParts(before: Bytes, a: Bytes, b: Bytes, c: Bytes, rest: Bytes, s: Bytes)
    requires s == before + (a + b + c) + rest
    ensures |s| == |before| + |a| + |b| + |c| + |rest|
    ensures a <= s[|before|..] && b <= s[|before| + |a|..] && c <= s[|before| + |a| + |b|..]
  {
    assert s[|before|..] == a + (b + c + rest);
    assert s[|before| + |a|..] == b + (c + rest);
    assert s[|before| + |a| + |b|..] == c + rest;
  }

  // ---------------------------------------------------------------- reading a block

  /** `data` is what a builder finished, within the 32 bits that offsets have. */
  ghost predicate IsBlock(data: Bytes, entries: seq<Pair>, ds: seq<Delta>, starts: seq<nat>) {
    Formed(entries, ds, starts) && Fits(ds, starts) && data == Contents(ds, starts) && |data| < TWO_32
  }

  lemma BlockParts(data: Bytes, entries: seq<Pair>, ds: seq<Delta>, starts: seq<nat>)
    requires IsBlock(data, entries, ds, starts)
    ensures AllStored(entries, ds) && StartsOk(ds, starts) && Fits(ds, starts) && |data| < TWO_32
    ensures data == Data(ds) + FixedAll(Points(ds, starts)) + Fixed(|starts| % TWO_32, 4)
  {
    hide Data, Points, FixedAll, Fixed, AllStored, StartsOk;
  }

  lemma StartsParts(ds: seq<Delta>, starts: seq<nat>)
    requires StartsOk(ds, starts)
    ensures |starts| > 0 && starts[0] == 0 && Increasing(starts)
    ensures forall k :: 0 <= k < |starts| ==> StartOk(ds, starts[k])
  {
    hide StartOk, Increasing;
  }

  lemma FrontOf(a: Bytes, b: Bytes, c: Bytes)
    ensures |a + b + c| == |a| + |b| + |c| && (a + b + c)[..|a|] == a
  {
  }

  lemma BlockSizes(data: Bytes, entries: seq<Pair>, ds: seq<Delta>, starts: seq<nat>)
    requires IsBlock(data, entries, ds, starts)
    ensures |ds| == |entries| && |starts| > 0 && Fits(ds, starts) && starts[0] == 0 && Increasing(starts)
    ensures |data| == |Data(ds)| + 4 * |starts| + 4 < TWO_32
    ensures data[..|Data(ds)|] == Data(ds)
    ensures forall k :: 0 <= k < |starts| ==> StartOk(ds, starts[k])
  {
    hide *;
    BlockParts(data, entries, ds, starts);
    StartsParts(ds, starts);
    SameLength(entries, ds);
    FixedAllLength(Points(ds, starts));
    PointsLength(ds, starts);
    FrontOf(Data(ds), FixedAll(Points(ds, starts)), Fixed(|starts| % TWO_32, 4));
  }

  /** The number of restarts and each restart point are read back. */
  lemma RestartsAreRead(data: Bytes, entries: seq<Pair>, ds: seq<Delta>, starts: seq<nat>, k: nat)
    requires IsBlock(data, entries, ds, starts) && k < |starts|
    ensures var restarts := |Data(ds)|;
      && restarts + 4 * |starts| + 4 == |data| && starts[k] <= |ds|
      && DecodeFixed(data[restarts + 4 * |starts|..]) == |starts|
      && DecodeFixed(data[restarts + 4 * k..restarts + 4 * k + 4]) == Offset(ds, starts[k])
  {
    hide *;
    BlockSizes(data, entries, ds, starts);
    BlockParts(data, entries, ds, starts);
    var d, r, f := Data(ds), FixedAll(Points(ds, starts)), Fixed(|starts| % TWO_32, 4);
    PointsLength(ds, starts);
    StartFits(ds, starts, k);
    FixedAllAt(Points(ds, starts), k);
    OffsetIsWithin(ds, starts[k]);
    PointIs(ds, starts, k);
    NoWrap(|starts|);
    NoWrap(Offset(ds, starts[k]));
    Fixed32RoundTrip(|starts|);
    Fixed32RoundTrip(Offset(ds, starts[k]));
    SlicesOf(d, r, f, k, data);
  }

  lemma StartFits(ds: seq<Delta>, starts: seq<nat>, k: nat)
    requires Fits(ds, starts) && k < |starts|
    ensures starts[k] <= |ds|
  {
  }

  lemma PointIs(ds: seq<Delta>, starts: seq<nat>, k: nat)
    requires Fits(ds, starts) && k < |starts| && starts[k] <= |ds|
    ensures |Points(ds, starts)| == |starts| && Points(ds, starts)[k] == Offset(ds, starts[k])
  {
    hide Offset;
  }

  lemma SlicesOf(d: Bytes, r: Bytes, f: Bytes, k: nat, data: Bytes)
    requires data == d + r + f && 4 * k + 4 <= |r|
    ensures data[|d| + |r|..] == f && data[|d| + 4 * k..|d| + 4 * k + 4] == r[4 * k..4 * k + 4]
  {
  }

  lemma OffsetIsWithin(ds: seq<Delta>, i: nat)
    requires i <= |ds|
    ensures Offset(ds, i) <= |Data(ds)|
    ensures i == |ds| ==> Offset(ds, i) == |Data(ds)|
    ensures i < |ds| ==> Offset(ds, i) < |Data(ds)|
  {
    if i == |ds| {
      assert ds[..i] == ds;
    } else {
      OffsetsIncrease(ds, i, i + 1);
    }
  }

  /** The i-th entry decodes to what was stored. */
  lemma EntryDecodes(data: Bytes, entries: seq<Pair>, ds: seq<Delta>, starts: seq<nat>, i: nat)
    requires IsBlock(data, entries, ds, starts) && i < |ds|
    ensures Offset(ds, i) < |Data(ds)| <= |data| && i < |entries|
    ensures var d := ds[i];
      var start := Offset(ds, i) + |Header(d)|;
      && DecodeAt(data[..|Data(ds)|], Offset(ds, i)) == Some(Decoded(d.shared, |d.suffix|, |d.value|, start))
      && start + |d.suffix| + |d.value| == Offset(ds, i + 1) <= |Data(ds)|
      && data[start..start + |d.suffix|] == d.suffix
      && data[start + |d.suffix|..Offset(ds, i + 1)] == d.value
    ensures Stores(ds[i], PreviousKey(entries, i), entries[i])
  {
    hide *;
    BlockSizes(data, entries, ds, starts);
    BlockParts(data, entries, ds, starts);
    StoredAt(entries, ds, i);
    DataSplits(ds, i);
    OffsetIsWithin(ds, i);
    OffsetIsWithin(ds, i + 1);
    OffsetIs(ds, i);
    var before, d, all := Data(ds[..i]), ds[i], Data(ds);
    EntryIsSmall(entries, ds, i);
    PrefixSplits(all, before, EncodeDelta(d), Data(ds[..i + 1]));
    var rest := all[|before| + |EncodeDelta(d)|..];
    DecodeRoundTrip(before, d, rest);
    EncodedSlices(before, d, rest, all, data);
  }

  lemma OffsetIs(ds: seq<Delta>, i: nat)
    requires i <= |ds|
    ensures Offset(ds, i) == |Data(ds[..i])|
  {
  }

  lemma PrefixSplits(all: Bytes, a: Bytes, b: Bytes, ab: Bytes)
    requires ab == a + b && ab <= all
    ensures |a| + |b| <= |all| && all == a + b + all[|a| + |b|..]
  {
  }

  lemma KeyGrows(d: Delta, previous: Bytes, e: Pair)
    requires Stores(d, previous, e)
    ensures |e.key| <= |previous| + |d.suffix| && d.shared <= |previous|
  {
  }

  lemma PreviousIs(entries: seq<Pair>, i: nat)
    requires i < |entries|
    ensures PreviousKey(entries, i + 1) == entries[i].key
  {
  }

  lemma NoPreviousKey(entries: seq<Pair>)
    ensures PreviousKey(entries, 0) == []
  {
  }

  /** A key is no longer than all the bytes stored up to it. */
  lemma {:induction false} KeysFit(entries: seq<Pair>, ds: seq<Delta>, i: nat)
    requires AllStored(entries, ds) && |ds| == |entries| && i <= |ds|
    ensures |PreviousKey(entries, i)| <= Offset(ds, i)
  {
    hide *;
    if i == 0 {
      NoPreviousKey(entries);
    } else {
      KeysFit(entries, ds, i - 1);
      StoredAt(entries, ds, i - 1);
      KeyGrows(ds[i - 1], PreviousKey(entries, i - 1), entries[i - 1]);
      PreviousIs(entries, i - 1);
      DataSplits(ds, i - 1);
      HeaderIsLong(ds[i - 1]);
    }
  }

  lemma EntryIsSmall(entries: seq<Pair>, ds: seq<Delta>, i: nat)
    requires AllStored(entries, ds) && |ds| == |entries| && i < |ds| && |Data(ds)| < TWO_32
    ensures Small(ds[i])
  {
    hide *;
    KeysFit(entries, ds, i);
    StoredAt(entries, ds, i);
    KeyGrows(ds[i], PreviousKey(entries, i), entries[i]);
    DataSplits(ds, i);
    OffsetIsWithin(ds, i);
    HeaderIsLong(ds[i]);
    IsSmall(ds[i]);
  }

  lemma IsSmall(d: Delta)
    requires d.shared < TWO_32 && |d.suffix| + |d.value| < TWO_32
    ensures Small(d)
  {
  }

  lemma EncodedSlices(before: Bytes, d: Delta, rest: Bytes, all: Bytes, data: Bytes)
    requires all == before + EncodeDelta(d) + rest && |all| <= |data| && data[..|all|] == all
    ensures var start := |before| + |Header(d)|;
      && start + |d.suffix| + |d.value| == |before| + |EncodeDelta(d)|
      && data[start..start + |d.suffix|] == d.suffix
      && data[start + |d.suffix|..|before| + |EncodeDelta(d)|] == d.value
  {
    var h := Header(d);
    hide Header;
    var start := |before| + |h|;
    var s, v := d.suffix, d.value;
    assert all == before + (h + s + v) + rest;
    assert all == (before + h) + s + (v + rest) && all == (before + h + s) + v + rest;
    MiddleOf(before + h, s, v + rest, all, data);
    MiddleOf(before + h + s, v, rest, all, data);
  }

  lemma MiddleOf(a: Bytes, b: Bytes, c: Bytes, all: Bytes, data: Bytes)
    requires all == a + b + c && |all| <= |data| && data[..|all|] == all
    ensures data[|a|..|a| + |b|] == b
  {
    assert data[|a|..|a| + |b|] == data[..|all|][|a|..|a| + |b|];
  }

  lemma StoredAt(entries: seq<Pair>, ds: seq<Delta>, i: nat)
    requires AllStored(entries, ds) && i < |ds|
    ensures i < |entries| && Stores(ds[i], PreviousKey(entries, i), entries[i])
  {
  }

  // ---------------------------------------------------------------- iterating over a block

  /** A block with the entries it was built from. */
  datatype Layout = Layout(data: Bytes, entries: seq<Pair>, ds: seq<Delta>, starts: seq<nat>)
  {
    ghost predicate Valid() {
      IsBlock(data, entries, ds, starts)
    }
  }

  /** What Block::Iter holds: offsets into the block, and the key put together so far. */
  datatype View = View(current: nat, restartIndex: nat, key: Bytes, valueStart: nat, valueLength: nat)

  /** The iterator stands at entry i. */
  ghost predicate IsAt(b: Layout, i: nat, v: View) {
    && i < |b.entries| == |b.ds| && v.current == Offset(b.ds, i) && v.key == b.entries[i].key
    && v.valueStart + v.valueLength == Offset(b.ds, i + 1) <= |b.data|
    && b.data[v.valueStart..v.valueStart + v.valueLength] == b.entries[i].value
    && Reaches(b.starts, v.restartIndex, i)
    && (v.restartIndex + 1 < |b.starts| ==> i <= b.starts[v.restartIndex + 1])
  }

  predicate Reaches(starts: seq<nat>, k: nat, i: nat) {
    k < |starts| && starts[k] <= i
  }

  /** Entry j is the next to be parsed, and the key holds all that it shares. */
  ghost predicate IsReady(b: Layout, j: nat, v: View) {
    && j <= |b.ds| == |b.entries| && v.valueStart + v.valueLength == Offset(b.ds, j)
    && Reaches(b.starts, v.restartIndex, j)
    && (j < |b.ds| ==> v.key == PreviousKey(b.entries, j) || b.ds[j].shared == 0)
  }

  ghost predicate IsPastEnd(b: Layout, v: View) {
    v.current == |Data(b.ds)| && v.restartIndex == |b.starts|
  }

  /** Where the iterator stands: at an entry, or nowhere when i is the number of entries. */
  ghost predicate Stands(b: Layout, i: nat, v: View) {
    if i == |b.entries| then IsPastEnd(b, v) else IsAt(b, i, v)
  }

  lemma AtParts(b: Layout, i: nat, v: View)
    requires b.Valid() && IsAt(b, i, v)
    ensures IsReady(b, i + 1, v) && Reaches(b.starts, v.restartIndex, i) && i < |b.entries| == |b.ds|
    ensures v.current == Offset(b.ds, i) < |Data(b.ds)| && v.key == b.entries[i].key
    ensures v.valueStart + v.valueLength == Offset(b.ds, i + 1) <= |b.data|
    ensures b.data[v.valueStart..v.valueStart + v.valueLength] == b.entries[i].value
  {
    hide IsBlock, Offset, Stores;
    OffsetIsWithin(b.ds, i);
  }

  lemma StandsAt(b: Layout, i: nat, v: View)
    requires i < |b.entries|
    ensures Stands(b, i, v) == IsAt(b, i, v)
  {
  }

  lemma StandsNowhere(b: Layout, v: View)
    requires v.current == |Data(b.ds)| && v.restartIndex == |b.starts|
    ensures Stands(b, |b.entries|, v)
  {
  }

  lemma PastEndParts(b: Layout, i: nat, v: View)
    requires b.Valid() && Stands(b, i, v)
    ensures i <= |b.entries| == |b.ds|
    ensures i == |b.entries| ==> v.current == |Data(b.ds)| && v.restartIndex == |b.starts|
    ensures i < |b.entries| ==> v.current < |Data(b.ds)|
  {
    hide IsBlock, Offset, Data;
    BlockSizes(b.data, b.entries, b.ds, b.starts);
    if i < |b.entries| {
      OffsetIsWithin(b.ds, i);
    }
  }

  lemma ReadyAtStart(b: Layout, k: nat, current: nat)
    requires b.Valid() && k < |b.starts| && b.starts[k] <= |b.ds|
    ensures IsReady(b, b.starts[k], View(current, k, [], Offset(b.ds, b.starts[k]), 0))
  {
    hide IsBlock, Offset, Increasing, Data;
    BlockSizes(b.data, b.entries, b.ds, b.starts);
    assert StartOk(b.ds, b.starts[k]);
  }

  lemma ReadyParts(b: Layout, j: nat, v: View)
    requires b.Valid() && IsReady(b, j, v)
    ensures j <= |b.ds| == |b.entries| && v.valueStart + v.valueLength == Offset(b.ds, j) <= |Data(b.ds)| <= |b.data|
    ensures (j < |b.ds|) == (Offset(b.ds, j) < |Data(b.ds)|)
    ensures Reaches(b.starts, v.restartIndex, j)
  {
    hide IsBlock, Offset, Data, Reaches;
    BlockSizes(b.data, b.entries, b.ds, b.starts);
    OffsetIsWithin(b.ds, j);
  }

  /** The next entry decodes, and completes the key. */
  lemma NextDecodes(b: Layout, j: nat, v: View)
    requires b.Valid() && IsReady(b, j, v) && j < |b.ds|
    ensures Offset(b.ds, j) <= |Data(b.ds)| <= |b.data| && j < |b.entries|
    ensures var d := DecodeAt(b.data[..|Data(b.ds)|], Offset(b.ds, j));
      && d.Some? && d.value.shared <= |v.key|
      && d.value.start + d.value.nonShared + d.value.valueLength == Offset(b.ds, j + 1) <= |b.data|
      && v.key[..d.value.shared] + b.data[d.value.start..d.value.start + d.value.nonShared] == b.entries[j].key
      && b.data[d.value.start + d.value.nonShared..Offset(b.ds, j + 1)] == b.entries[j].value
      && (b.ds[j].shared == 0 ==> d.value.shared == 0)
  {
    hide *;
    BlockIsValid(b);
    ReadyKey(b, j, v);
    EntryDecodes(b.data, b.entries, b.ds, b.starts, j);
    KeyIsComplete(b.ds[j], PreviousKey(b.entries, j), b.entries[j], v.key);
  }

  lemma ReadyKey(b: Layout, j: nat, v: View)
    requires IsReady(b, j, v) && j < |b.ds|
    ensures |b.ds| == |b.entries| && (v.key == PreviousKey(b.entries, j) || b.ds[j].shared == 0)
  {
  }

  lemma KeyIsComplete(d: Delta, previous: Bytes, e: Pair, key: Bytes)
    requires Stores(d, previous, e) && (key == previous || d.shared == 0)
    ensures d.shared <= |key| && key[..d.shared] + d.suffix == e.key && d.value == e.value
  {
    assert key[..d.shared] == e.key[..d.shared];
  }

  lemma ParsedIsAt(b: Layout, j: nat, v: View)
    requires j < |b.entries| == |b.ds| && v.current == Offset(b.ds, j) && v.key == b.entries[j].key
    requires v.valueStart + v.valueLength == Offset(b.ds, j + 1) <= |b.data|
    requires b.data[v.valueStart..v.valueStart + v.valueLength] == b.entries[j].value
    requires Reaches(b.starts, v.restartIndex, j)
    requires v.restartIndex + 1 < |b.starts| ==> j <= b.starts[v.restartIndex + 1]
    ensures Stands(b, j, v) && IsAt(b, j, v)
  {
    hide Offset, Reaches;
  }

  lemma ReachesNext(starts: seq<nat>, k: nat, i: nat)
    requires k < |starts|
    ensures Reaches(starts, k, i) == (starts[k] <= i)
  {
  }

  lemma OffsetsOrder(ds: seq<Delta>, i: nat, j: nat)
    requires i <= |ds| && j <= |ds|
    ensures (Offset(ds, i) < Offset(ds, j)) == (i < j)
  {
    hide Offset;
    if i < j {
      OffsetsIncrease(ds, i, j);
    } else if j < i {
      OffsetsIncrease(ds, j, i);
    }
  }

  lemma RestartParts(b: Layout, k: nat)
    requires b.Valid() && k < |b.starts|
    ensures |b.entries| == |b.ds| && b.starts[k] <= |b.ds| && b.starts[0] == 0
    ensures |b.ds| > 0 ==> b.starts[k] < |b.ds| && b.ds[b.starts[k]].shared == 0
    ensures |b.ds| == 0 ==> b.starts[k] == 0
  {
    hide IsBlock, Data, Increasing;
    BlockSizes(b.data, b.entries, b.ds, b.starts);
    assert StartOk(b.ds, b.starts[k]);
  }

  /** i is where the first key not below the target stands. */
  ghost predicate FirstAtLeast(less: Less, entries: seq<Pair>, target: Bytes, i: nat) {
    && i <= |entries|
    && (forall j :: 0 <= j < i ==> less(entries[j].key, target))
    && (i < |entries| ==> !less(entries[i].key, target))
  }

  ghost predicate AllBelow(less: Less, entries: seq<Pair>, target: Bytes, i: nat) {
    i <= |entries| && forall j :: 0 <= j < i ==> less(entries[j].key, target)
  }

  lemma AllBelowBefore(less: Less, entries: seq<Pair>, target: Bytes, i: nat)
    requires TotalOrder(less) && Ascending(less, entries)
    requires i == 0 || (i < |entries| && less(entries[i].key, target))
    ensures AllBelow(less, entries, target, i)
  {
  }

  lemma OneMoreBelow(less: Less, entries: seq<Pair>, target: Bytes, i: nat)
    requires i < |entries| && AllBelow(less, entries, target, i)
    ensures less(entries[i].key, target) ==> AllBelow(less, entries, target, i + 1)
    ensures !less(entries[i].key, target) ==> FirstAtLeast(less, entries, target, i)
  {
  }

  lemma AllAreBelow(less: Less, entries: seq<Pair>, target: Bytes)
    requires AllBelow(less, entries, target, |entries|)
    ensures FirstAtLeast(less, entries, target, |entries|)
  {
  }

  /** The last restart point whose key is below the target, or the first one. */
  ghost predicate LastBelow(less: Less, b: Layout, target: Bytes, k: nat) {
    && k < |b.starts| && (k == 0 || KeyBelow(less, b, target, k))
    && (k + 1 < |b.starts| ==> !KeyBelow(less, b, target, k + 1))
  }

  ghost predicate KeyBelow(less: Less, b: Layout, target: Bytes, k: nat) {
    k < |b.starts| && b.starts[k] < |b.entries| && less(b.entries[b.starts[k]].key, target)
  }

  lemma BelowFromLast(less: Less, b: Layout, target: Bytes, k: nat)
    requires TotalOrder(less) && Ascending(less, b.entries) && b.Valid() && LastBelow(less, b, target, k)
    ensures AllBelow(less, b.entries, target, b.starts[k])
  {
    hide IsBlock, TotalOrder, Ascending, AllBelow;
    RestartParts(b, k);
    AllBelowBefore(less, b.entries, target, b.starts[k]);
  }

  lemma IsLastBelow(less: Less, b: Layout, target: Bytes, k: nat)
    requires k < |b.starts| && (k == 0 || KeyBelow(less, b, target, k))
    requires k + 1 < |b.starts| ==> !KeyBelow(less, b, target, k + 1)
    ensures LastBelow(less, b, target, k)
  {
  }

  lemma KeyBelowIs(less: Less, b: Layout, target: Bytes, k: nat)
    requires k < |b.starts| && b.starts[k] < |b.entries|
    ensures KeyBelow(less, b, target, k) == less(b.entries[b.starts[k]].key, target)
  {
  }

  class BlockIter {
    const less: Less
    const data: Bytes
    const restarts: nat
    const numRestarts: nat
    var current: nat
    var restartIndex: nat
    var key: Bytes
    var valueStart: nat
    var valueLength: nat
    var corrupt: bool
    ghost const b: Layout
    ghost var pos: nat

    ghost predicate Sane() {
      && b.Valid() && data == b.data && restarts == |Data(b.ds)| && numRestarts == |b.starts|
      && TotalOrder(less) && Ascending(less, b.entries)
    }

    ghost function Now(): View
      reads this
    {
      View(current, restartIndex, key, valueStart, valueLength)
    }

    /** The cursor: pos is the entry it stands at, or the number of entries. */
    ghost predicate Valid()
      reads this
    {
      Sane() && Stands(b, pos, Now()) && !corrupt
    }

    lemma SaneParts()
      requires Sane()
      ensures b.Valid() && data == b.data && restarts == |Data(b.ds)| && numRestarts == |b.starts|
      ensures TotalOrder(less) && Ascending(less, b.entries)
      ensures restarts + 4 * numRestarts + 4 == |data| && numRestarts > 0 && |b.ds| == |b.entries|
    {
      hide TotalOrder, Ascending, Data;
      BlockSizes(b.data, b.entries, b.ds, b.starts);
    }

    lemma IsValid()
      requires Sane() && Stands(b, pos, Now()) && !corrupt
      ensures Valid()
    {
    }

    lemma ValidParts()
      requires Valid()
      ensures Sane() && Stands(b, pos, Now()) && !corrupt
    {
    }

    lemma NowIs()
      ensures Now() == View(current, restartIndex, key, valueStart, valueLength)
    {
    }

    constructor (less: Less, data: Bytes, restarts: nat, numRestarts: nat, ghost b: Layout)
      requires b.Valid() && data == b.data && restarts == |Data(b.ds)| && numRestarts == |b.starts|
      requires TotalOrder(less) && Ascending(less, b.entries)
      ensures Valid() && this.b == b && this.less == less && pos == |b.entries|
    {
      hide IsBlock, TotalOrder, Ascending, Data;
      this.less, this.data, this.restarts, this.numRestarts, this.b := less, data, restarts, numRestarts, b;
      current, restartIndex, key, valueStart, valueLength, corrupt := restarts, numRestarts, [], 0, 0, false;
      pos := |b.entries|;
    }

    method AtEntry() returns (ok: bool)
      requires Valid()
      ensures ok == (pos < |b.entries|)
    {
      hide *;
      ValidParts();
      SaneParts();
      NowIs();
      PastEndParts(b, pos, Now());
      ok := current < restarts;
    }

    method Value() returns (value: Bytes)
      requires Valid() && pos < |b.entries|
      ensures value == b.entries[pos].value && key == b.entries[pos].key
    {
      hide *;
      ValidParts();
      SaneParts();
      NowIs();
      StandsAt(b, pos, Now());
      AtParts(b, pos, Now());
      value := data[valueStart..valueStart + valueLength];
    }

    method GetRestartPoint(index: nat) returns (offset: nat)
      requires Sane() && index < numRestarts == |b.starts|
      ensures b.starts[index] <= |b.ds| && offset == Offset(b.ds, b.starts[index])
    {
      hide *;
      SaneParts();
      BlockIsValid(b);
      RestartsAreRead(b.data, b.entries, b.ds, b.starts, index);
      offset := DecodeFixed(data[restarts + 4 * index..restarts + 4 * index + 4]);
    }

    method SeekToRestartPoint(index: nat)
      requires Sane() && index < numRestarts == |b.starts|
      modifies this`key, this`restartIndex, this`valueStart, this`valueLength
      ensures IsReady(b, b.starts[index], Now()) && restartIndex == index
    {
      hide *;
      SaneParts();
      key := [];
      restartIndex := index;
      valueStart := GetRestartPoint(index);
      valueLength := 0;
      NowIs();
      ReadyAtStart(b, index, current);
    }

    method CorruptionError()
      modifies this
      ensures corrupt && current == restarts && restartIndex == numRestarts
    {
      current, restartIndex, corrupt, key, valueLength := restarts, numRestarts, true, [], 0;
    }

    /** Reads the entry that starts where the current value ends. */
    method ParseNextKey(ghost j: nat) returns (ok: bool)
      requires Sane() && IsReady(b, j, Now()) && !corrupt
      modifies this
      ensures Valid() && pos == j && ok == (j < |b.entries|)
      ensures ok ==> valueStart + valueLength == Offset(b.ds, j + 1)
    {
      hide *;
      SaneParts();
      NowIs();
      ReadyParts(b, j, Now());
      pos := j;
      current := valueStart + valueLength;
      if current >= restarts {
        current := restarts;
        restartIndex := numRestarts;
        NowIs();
        StandsNowhere(b, Now());
        IsValid();
        return false;
      }
      var d := DecodeEntry(data[..restarts], current);
      ok := d.Some? && d.value.shared <= |key|;
      if ok {
        NextDecodes(b, j, old(Now()));
        Accept(j, d.value);
      } else {
        CorruptionError();
        NextDecodes(b, j, old(Now()));
      }
    }

    /** Takes in a decoded entry, and moves on to the restart point before it. */
    method Accept(ghost j: nat, d: Decoded)
      requires Sane() && !corrupt && j < |b.entries| == |b.ds| && pos == j && current == Offset(b.ds, j)
      requires d.shared <= |key| && d.start + d.nonShared + d.valueLength == Offset(b.ds, j + 1) <= |data|
      requires data == b.data && key[..d.shared] + data[d.start..d.start + d.nonShared] == b.entries[j].key
      requires data[d.start + d.nonShared..Offset(b.ds, j + 1)] == b.entries[j].value
      requires Reaches(b.starts, restartIndex, j)
      modifies this`key, this`valueStart, this`valueLength, this`restartIndex
      ensures Valid() && valueStart + valueLength == Offset(b.ds, j + 1)
    {
      hide *;
      key := key[..d.shared] + data[d.start..d.start + d.nonShared];
      valueStart := d.start + d.nonShared;
      valueLength := d.valueLength;
      AdvanceRestart(j);
      NowIs();
      ParsedIsAt(b, j, Now());
      IsValid();
    }

    method AdvanceRestart(ghost j: nat)
      requires Sane() && j <= |b.ds| && current == Offset(b.ds, j) && Reaches(b.starts, restartIndex, j)
      modifies this`restartIndex
      ensures Reaches(b.starts, restartIndex, j)
      ensures restartIndex + 1 < |b.starts| ==> j <= b.starts[restartIndex + 1]
    {
      hide *;
      SaneParts();
      while restartIndex + 1 < numRestarts
        invariant Reaches(b.starts, restartIndex, j)
        decreases numRestarts - restartIndex
      {
        var next := GetRestartPoint(restartIndex + 1);
        OffsetsOrder(b.ds, b.starts[restartIndex + 1], j);
        if next >= current {
          break;
        }
        ReachesNext(b.starts, restartIndex + 1, j);
        restartIndex := restartIndex + 1;
      }
    }

    method Next()
      requires Valid() && pos < |b.entries|
      modifies this
      ensures Valid() && pos == old(pos) + 1
    {
      hide *;
      ValidParts();
      SaneParts();
      StandsAt(b, pos, Now());
      AtParts(b, pos, Now());
      var _ := ParseNextKey(pos + 1);
    }

    /** Back to a restart point before the current entry, then forward to the entry before it. */
    method Prev()
      requires Valid() && pos < |b.entries|
      modifies this
      ensures Valid() && pos == if old(pos) == 0 then |b.entries| else old(pos) - 1
    {
      hide *;
      ghost var at := pos;
      ValidParts();
      SaneParts();
      NowIs();
      StandsAt(b, pos, Now());
      AtParts(b, pos, Now());
      ReachesParts(b.starts, restartIndex, at);
      var original := current;
      var point := GetRestartPoint(restartIndex);
      while point >= original
        invariant Sane() && restartIndex < numRestarts == |b.starts| && !corrupt && pos == at
                  && original == Offset(b.ds, at)
        invariant b.starts[restartIndex] <= |b.ds| && point == Offset(b.ds, b.starts[restartIndex])
        decreases restartIndex
      {
        OffsetsOrder(b.ds, b.starts[restartIndex], at);
        RestartParts(b, restartIndex);
        if restartIndex == 0 {
          current := restarts;
          restartIndex := numRestarts;
          pos := |b.entries|;
          NowIs();
          StandsNowhere(b, Now());
          IsValid();
          return;
        }
        restartIndex := restartIndex - 1;
        point := GetRestartPoint(restartIndex);
      }
      OffsetsOrder(b.ds, b.starts[restartIndex], at);
      SeekToRestartPoint(restartIndex);
      ParseUpTo(original, b.starts[restartIndex], at);
    }

    /** Parses from entry j until the one that ends at the given offset, where entry `bound` starts. */
    method ParseUpTo(limit: nat, ghost j: nat, ghost bound: nat)
      requires Sane() && !corrupt && IsReady(b, j, Now()) && j <= bound <= |b.entries| == |b.ds|
               && limit == Offset(b.ds, bound)
      requires j == bound ==> bound == |b.entries|
      modifies this
      ensures Valid() && pos == if j == bound then bound else bound - 1
    {
      hide *;
      var more := ParseNextKey(j);
      ghost var i := j;
      if j < bound {
        OffsetsOrder(b.ds, i + 1, bound);
      }
      while more && valueStart + valueLength < limit
        invariant Valid() && pos == i && j <= i <= bound && more == (j < bound)
        invariant j == bound ==> i == bound
        invariant j < bound ==> i < bound && valueStart + valueLength == Offset(b.ds, i + 1)
        invariant j < bound ==> (Offset(b.ds, i + 1) < limit) == (i + 1 < bound)
        decreases bound - i
      {
        ValidParts();
        SaneParts();
        StandsAt(b, i, Now());
        AtParts(b, i, Now());
        i := i + 1;
        more := ParseNextKey(i);
        OffsetsOrder(b.ds, i + 1, bound);
      }
    }

    /** Binary search over the restart points; fails at one that does not hold a whole key. */
    method FindRestart(target: Bytes) returns (ok: bool, left: nat)
      requires Valid()
      ensures ok ==> LastBelow(less, b, target, left)
      ensures !ok ==> 0 < left < |b.starts| && !HoldsWholeKey(b, left)
    {
      hide *;
      ValidParts();
      SaneParts();
      left := 0;
      var right := numRestarts - 1;
      while left < right
        invariant left <= right < numRestarts
        invariant left == 0 || KeyBelow(less, b, target, left)
        invariant right + 1 < numRestarts ==> !KeyBelow(less, b, target, right + 1)
      {
        var mid := (left + right + 1) / 2;
        var offset := GetRestartPoint(mid);
        var below;
        ok, below := RestartKeyBelow(mid, offset, target);
        if !ok {
          return false, mid;
        }
        if below {
          left := mid;
        } else {
          right := mid - 1;
        }
      }
      IsLastBelow(less, b, target, left);
      ok := true;
    }

    /** Compares the key stored at a restart point with the target. */
    method RestartKeyBelow(mid: nat, offset: nat, target: Bytes) returns (ok: bool, below: bool)
      requires Sane() && 0 < mid < |b.starts| && b.starts[mid] <= |b.ds| && offset == Offset(b.ds, b.starts[mid])
      ensures ok == HoldsWholeKey(b, mid)
      ensures ok ==> below == KeyBelow(less, b, target, mid)
    {
      hide *;
      SaneParts();
      RestartParts(b, mid);
      OffsetIsWithin(b.ds, b.starts[mid]);
      HoldsWholeKeyIs(b, mid);
      var d := DecodeEntry(data[..restarts], offset);
      ok := d.Some? && d.value.shared == 0;
      below := false;
      if ok {
        WholeKeyIs(b, mid);
        KeyBelowIs(less, b, target, mid);
        below := less(data[d.value.start..d.value.start + d.value.nonShared], target);
      }
    }

    method Seek(target: Bytes)
      requires Valid()
      modifies this
      ensures Valid() && FirstAtLeast(less, b.entries, target, pos)
    {
      hide *;
      ValidParts();
      SaneParts();
      var ok, left := FindRestart(target);
      if !ok {
        CorruptionError();
        WholeKeyIs(b, left);
        return;
      }
      BelowFromLast(less, b, target, left);
      LastIsRestart(less, b, target, left);
      SeekToRestartPoint(left);
      RestartParts(b, left);
      ScanForward(target, b.starts[left]);
    }

    /** Parses entries from j on, up to the first one not below the target. */
    method ScanForward(target: Bytes, ghost from: nat)
      requires Sane() && !corrupt && IsReady(b, from, Now()) && AllBelow(less, b.entries, target, from)
      requires from <= |b.entries| == |b.ds|
      modifies this
      ensures Valid() && FirstAtLeast(less, b.entries, target, pos)
    {
      hide *;
      ghost var j := from;
      while true
        invariant Sane() && !corrupt && IsReady(b, j, Now()) && AllBelow(less, b.entries, target, j)
        invariant j <= |b.entries|
        decreases |b.entries| - j
      {
        var more := ParseNextKey(j);
        if !more {
          AllAreBelow(less, b.entries, target);
          return;
        }
        ValidParts();
        SaneParts();
        NowIs();
        StandsAt(b, pos, Now());
        AtParts(b, pos, Now());
        OneMoreBelow(less, b.entries, target, j);
        if !less(key, target) {
          return;
        }
        j := j + 1;
      }
    }

    method SeekToFirst()
      requires Valid()
      modifies this
      ensures Valid() && pos == 0
    {
      hide *;
      ValidParts();
      SaneParts();
      RestartParts(b, 0);
      SeekToRestartPoint(0);
      var _ := ParseNextKey(0);
    }

    method SeekToLast()
      requires Valid()
      modifies this
      ensures Valid() && pos == if |b.entries| == 0 then 0 else |b.entries| - 1
    {
      hide *;
      ValidParts();
      SaneParts();
      RestartParts(b, numRestarts - 1);
      SeekToRestartPoint(numRestarts - 1);
      OffsetIsWithin(b.ds, |b.ds|);
      ParseUpTo(restarts, b.starts[numRestarts - 1], |b.ds|);
    }
  }

  datatype Opened = BadBlock | EmptyBlock | Opened(restarts: nat, numRestarts: nat)

  /** Finds the restart array; a finished block is never refused, and its array is found. */
  method OpenBlock(data: Bytes, ghost b: Layout) returns (r: Opened)
    requires |data| < TWO_32
    ensures r.Opened? ==> r.numRestarts > 0 && r.restarts + 4 * r.numRestarts + 4 == |data|
    ensures r.BadBlock? <==> |data| < 4 || 4 * DecodeFixed(data[|data| - 4..]) + 4 > |data|
    ensures b.Valid() && b.data == data ==> r == Opened(|Data(b.ds)|, |b.starts|)
  {
    hide *;
    if b.Valid() && b.data == data {
      RestartCountIsRead(b);
    }
    if |data| < 4 {
      return BadBlock;
    }
    var numRestarts := DecodeFixed(data[|data| - 4..]);
    var maxRestartsAllowed := (|data| - 4) / 4;
    if numRestarts > maxRestartsAllowed {
      return BadBlock;
    }
    if numRestarts == 0 {
      return EmptyBlock;
    }
    return Opened(|data| - (1 + numRestarts) * 4, numRestarts);
  }

  lemma RestartCountIsRead(b: Layout)
    requires b.Valid()
    ensures |b.starts| > 0 && |b.data| == |Data(b.ds)| + 4 * |b.starts| + 4
    ensures DecodeFixed(b.data[|b.data| - 4..]) == |b.starts|
  {
    hide *;
    BlockIsValid(b);
    BlockSizes(b.data, b.entries, b.ds, b.starts);
    RestartsAreRead(b.data, b.entries, b.ds, b.starts, 0);
  }

  lemma BlockIsValid(b: Layout)
    ensures b.Valid() == IsBlock(b.data, b.entries, b.ds, b.starts)
  {
  }

  lemma ReachesParts(starts: seq<nat>, k: nat, i: nat)
    requires Reaches(starts, k, i)
    ensures k < |starts| && starts[k] <= i
  {
  }

  lemma LastIsRestart(less: Less, b: Layout, target: Bytes, k: nat)
    requires LastBelow(less, b, target, k)
    ensures k < |b.starts|
  {
  }

  /** What the binary search asks of a restart point before it compares its key. */
  ghost predicate HoldsWholeKey(b: Layout, k: nat) {
    && k < |b.starts| && b.starts[k] <= |b.ds| && |Data(b.ds)| <= |b.data| && Offset(b.ds, b.starts[k]) <= |Data(b.ds)|
    && var d := DecodeAt(b.data[..|Data(b.ds)|], Offset(b.ds, b.starts[k])); d.Some? && d.value.shared == 0
  }

  lemma HoldsWholeKeyIs(b: Layout, k: nat)
    requires k < |b.starts| && b.starts[k] <= |b.ds| && |Data(b.ds)| <= |b.data|
             && Offset(b.ds, b.starts[k]) <= |Data(b.ds)|
    ensures HoldsWholeKey(b, k) ==
            var d := DecodeAt(b.data[..|Data(b.ds)|], Offset(b.ds, b.starts[k])); d.Some? && d.value.shared == 0
  {
    hide DecodeAt, Data, Offset;
  }

  /** It always finds one, and the key it compares is the entry's. */
  lemma WholeKeyIs(b: Layout, k: nat)
    requires b.Valid() && 0 < k < |b.starts|
    ensures HoldsWholeKey(b, k) && b.starts[k] < |b.entries| == |b.ds|
    ensures Offset(b.ds, b.starts[k]) <= |Data(b.ds)| <= |b.data|
    ensures var d := DecodeAt(b.data[..|Data(b.ds)|], Offset(b.ds, b.starts[k]));
      && d.Some? && d.value.start + d.value.nonShared <= |b.data|
      && b.data[d.value.start..d.value.start + d.value.nonShared] == b.entries[b.starts[k]].key
  {
    hide *;
    NonEmpty(b, k);
    RestartParts(b, k);
    var v := View(0, k, [], Offset(b.ds, b.starts[k]), 0);
    ReadyAtStart(b, k, 0);
    ReadyParts(b, b.starts[k], v);
    NextDecodes(b, b.starts[k], v);
    HoldsWholeKeyIs(b, k);
    var d := DecodeAt(b.data[..|Data(b.ds)|], Offset(b.ds, b.starts[k])).value;
    assert v.key[..d.shared] + b.data[d.start..d.start + d.nonShared] == b.data[d.start..d.start + d.nonShared];
  }

  /** A block with a second restart point has entries. */
  lemma NonEmpty(b: Layout, k: nat)
    requires b.Valid() && 0 < k < |b.starts|
    ensures |b.ds| > 0
  {
    hide IsBlock, Data;
    BlockSizes(b.data, b.entries, b.ds, b.starts);
    assert b.starts[0] < b.starts[k];
    assert StartOk(b.ds, b.starts[k]);
  }
}
