/** The filter block of a table: one filter for every 2 KB of data (table/filter_block.cc). */
module FilterBlocks {
  import opened Wrappers
  import opened Coding
  import opened Bits
  import opened BloomFilters

  const FILTER_BASE_LG: Byte := 11
  const FILTER_BASE: nat := 2048

  function Flat(keys: seq<Bytes>): Bytes {
    if keys == [] then [] else Flat(keys[..|keys| - 1]) + keys[|keys| - 1]
  }

  function Starts(keys: seq<Bytes>): seq<nat> {
    seq(|keys|, i requires 0 <= i < |keys| => |Flat(keys[..i])|)
  }

  lemma {:induction false} FlatSplits(keys: seq<Bytes>, i: nat)
    requires i < |keys|
    ensures |Flat(keys[..i])| + |keys[i]| == |Flat(keys[..i + 1])| <= |Flat(keys)|
    ensures Flat(keys)[|Flat(keys[..i])|..|Flat(keys[..i + 1])|] == keys[i]
    decreases |keys|
  {
    var n := |keys| - 1;
    assert keys[..i + 1][..i] == keys[..i];
    if i == n {
      assert keys[..n + 1] == keys;
    } else {
      FlatSplits(keys[..n], i);
      assert keys[..n][..i] == keys[..i] && keys[..n][..i + 1] == keys[..i + 1];
      var a, b := |Flat(keys[..i])|, |Flat(keys[..i + 1])|;
      assert Flat(keys)[a..b] == Flat(keys[..n])[a..b];
    }
  }

  lemma FlatAppends(keys: seq<Bytes>, key: Bytes)
    ensures Flat(keys + [key]) == Flat(keys) + key
    ensures Starts(keys + [key]) == Starts(keys) + [|Flat(keys)|]
  {
    hide Flat;
    FlatUnfolds(keys, key);
    forall i | 0 <= i <= |keys| ensures (keys + [key])[..i] == keys[..i] {
    }
    assert keys[..|keys|] == keys;
  }

  lemma FlatUnfolds(keys: seq<Bytes>, key: Bytes)
    ensures Flat(keys + [key]) == Flat(keys) + key
  {
    assert (keys + [key])[..|keys|] == keys;
  }

  lemma StartsAre(keys: seq<Bytes>, i: nat)
    requires i < |keys|
    ensures |Starts(keys)| == |keys| && Starts(keys)[i] == |Flat(keys[..i])|
  {
    hide Flat;
  }

  lemma FlatOfNone()
    ensures Flat([]) == [] && Starts([]) == []
  {
  }

  lemma FlatOfAll(keys: seq<Bytes>)
    ensures keys[..|keys|] == keys && keys[..0] == [] && |Starts(keys)| == |keys|
  {
  }

  // ---------------------------------------------------------------- building

  /** One filter: nothing for no keys, otherwise the policy's. */
  ghost predicate FilterFor(filter: Bytes, keys: seq<Bytes>, p: BloomFilterPolicy) {
    if keys == [] then filter == [] else IsFilter(filter, p.hash, keys, p.bitsPerKey, p.k)
  }

  /** Where the i-th filter ends. */
  function LimitOf(offsets: seq<nat>, total: nat, i: nat): nat
    requires i < |offsets|
  {
    if i + 1 < |offsets| then offsets[i + 1] else total
  }

  /** The filters of the groups, one after the other. */
  ghost predicate Filters(result: Bytes, offsets: seq<nat>, groups: seq<seq<Bytes>>, p: BloomFilterPolicy) {
    && |offsets| == |groups|
    && forall i :: 0 <= i < |offsets| ==> IsFilterAt(result, offsets, groups, p, i)
  }

  ghost predicate IsFilterAt(result: Bytes, offsets: seq<nat>, groups: seq<seq<Bytes>>, p: BloomFilterPolicy, i: nat)
    requires i < |offsets| == |groups|
  {
    && offsets[i] <= LimitOf(offsets, |result|, i) <= |result|
    && FilterFor(result[offsets[i]..LimitOf(offsets, |result|, i)], groups[i], p)
  }

  lemma FiltersGrow(result: Bytes, offsets: seq<nat>, groups: seq<seq<Bytes>>, p: BloomFilterPolicy, filter: Bytes,
                    group: seq<Bytes>)
    requires Filters(result, offsets, groups, p) && FilterFor(filter, group, p)
    ensures Filters(result + filter, offsets + [|result|], groups + [group], p)
  {
    hide FilterFor;
    var r, os, gs := result + filter, offsets + [|result|], groups + [group];
    forall i | 0 <= i < |os| ensures IsFilterAt(r, os, gs, p, i) {
      if i < |offsets| {
        assert IsFilterAt(result, offsets, groups, p, i);
        assert LimitOf(os, |r|, i) == LimitOf(offsets, |result|, i);
        var a, b := offsets[i], LimitOf(offsets, |result|, i);
        assert r[a..b] == result[a..b];
      } else {
        assert r[|result|..|r|] == filter && gs[i] == group;
      }
    }
  }

  class FilterBlockBuilder {
    const policy: BloomFilterPolicy
    var keys: Bytes
    var start: seq<nat>
    var result: Bytes
    var filterOffsets: seq<nat>
    ghost var pending: seq<Bytes>
    ghost var groups: seq<seq<Bytes>>

    ghost predicate Valid()
      reads this
    {
      && 1 <= policy.k <= MAX_PROBES
      && keys == Flat(pending) && start == Starts(pending)
      && Filters(result, filterOffsets, groups, policy)
    }

    constructor (policy: BloomFilterPolicy)
      requires 1 <= policy.k <= MAX_PROBES
      ensures Valid() && pending == [] && groups == [] && this.policy == policy
    {
      this.policy := policy;
      keys, start, result, filterOffsets := [], [], [], [];
      pending, groups := [], [];
    }

    /** The filters up to a block's offset are complete; keys added now are the block's. */
    method StartBlock(blockOffset: nat)
      requires Valid() && |groups| <= blockOffset / FILTER_BASE
      modifies this
      ensures Valid() && |groups| == blockOffset / FILTER_BASE
      ensures |old(groups)| == |groups| ==> pending == old(pending) && groups == old(groups)
      ensures |old(groups)| < |groups| ==>
        pending == [] && groups == old(groups + [pending]) + NoGroups(|groups| - |old(groups)| - 1)
    {
      hide Filters, Flat, Starts;
      var filterIndex := blockOffset / FILTER_BASE;
      ghost var before, first := groups, pending;
      SameCount(result, filterOffsets, groups, policy);
      while filterIndex > |filterOffsets|
        invariant Valid() && |filterOffsets| == |groups| && |before| <= |groups| <= filterIndex
        invariant |groups| == |before| ==> pending == first && groups == before
        invariant |groups| > |before| ==>
          pending == [] && groups == before + [first] + NoGroups(|groups| - |before| - 1)
        decreases filterIndex - |filterOffsets|
      {
        GenerateFilter();
        SameCount(result, filterOffsets, groups, policy);
      }
    }

    method AddKey(key: Bytes)
      requires Valid()
      modifies this
      ensures Valid() && pending == old(pending) + [key] && groups == old(groups)
    {
      hide Filters, Flat, Starts;
      FlatAppends(pending, key);
      start := start + [|keys|];
      keys := keys + key;
      pending := pending + [key];
    }

    method GenerateFilter()
      requires Valid()
      modifies this
      ensures Valid() && groups == old(groups) + [old(pending)] && pending == []
    {
      hide Filters, Flat, Starts, FilterFor, IsFilter;
      ghost var group := pending;
      FlatOfAll(pending);
      FlatOfNone();
      var numKeys := |start|;
      if numKeys == 0 {
        NoFilter(policy);
        FiltersGrow(result, filterOffsets, groups, policy, [], []);
        assert result + [] == result;
        filterOffsets := filterOffsets + [|result|];
        groups := groups + [group];
        return;
      }
      var tmpKeys := KeyList();
      filterOffsets := filterOffsets + [|result|];
      ghost var before := result;
      result := policy.CreateFilter(tmpKeys, result);
      IsFilterFor(result[|before|..], group, policy);
      FiltersGrow(before, old(filterOffsets), groups, policy, result[|before|..], group);
      assert before + result[|before|..] == result;
      keys, start, pending := [], [], [];
      groups := groups + [group];
    }

    /** Makes the list of keys from the flattened one. */
    method KeyList() returns (tmpKeys: seq<Bytes>)
      requires Valid()
      ensures tmpKeys == pending
    {
      hide Filters, Flat, Starts;
      FlatOfAll(pending);
      var starts := start + [|keys|];
      tmpKeys := [];
      for i := 0 to |start|
        invariant tmpKeys == pending[..i]
      {
        FlatSplits(pending, i);
        StartsAre(pending, i);
        if i + 1 < |start| {
          StartsAre(pending, i + 1);
        }
        tmpKeys := tmpKeys + [keys[starts[i]..starts[i + 1]]];
      }
    }

    /** The last filter, the array of offsets, where it starts, and the base. */
    method Finish() returns (contents: Bytes)
      requires Valid()
      modifies this
      ensures groups == if old(pending) == [] then old(groups) else old(groups) + [old(pending)]
      ensures IsFilterBlock(contents, groups, policy)
    {
      hide Filters, Flat, Starts, FixedAll, Fixed;
      FlatOfAll(pending);
      if |start| > 0 {
        GenerateFilter();
      }
      ghost var filters := result;
      var arrayOffset := |result|;
      FixedNone();
      for i := 0 to |filterOffsets|
        modifies this`result
        invariant result == filters + FixedAll(filterOffsets[..i])
      {
        FixedOneMore(filters, filterOffsets, i);
        result := result + Fixed(filterOffsets[i] % TWO_32, 4);
      }
      assert filterOffsets[..|filterOffsets|] == filterOffsets;
      result := result + Fixed(arrayOffset % TWO_32, 4);
      result := result + [11];
      contents := result;
      IsBlock(contents, filters, filterOffsets, groups, policy);
    }
  }

  /** Some key of the group has the same hash value. */
  ghost predicate Present(group: seq<Bytes>, hash: Hash, key: Bytes) {
    exists i :: 0 <= i < |group| && hash(group[i]) == hash(key)
  }

  function FilterContents(filters: Bytes, offsets: seq<nat>): Bytes {
    filters + FixedAll(offsets) + Fixed(|filters| % TWO_32, 4) + [FILTER_BASE_LG]
  }

  /** What Finish returns for these groups of keys, one for each 2 KB of data. */
  ghost predicate IsFilterBlock(contents: Bytes, groups: seq<seq<Bytes>>, p: BloomFilterPolicy) {
    exists filters, offsets ::
      contents == FilterContents(filters, offsets) && Filters(filters, offsets, groups, p)
  }

  lemma IsBlock(contents: Bytes, filters: Bytes, offsets: seq<nat>, groups: seq<seq<Bytes>>, p: BloomFilterPolicy)
    requires Filters(filters, offsets, groups, p)
    requires contents == filters + FixedAll(offsets) + Fixed(|filters| % TWO_32, 4) + [11]
    ensures IsFilterBlock(contents, groups, p)
  {
    hide Filters, FixedAll, Fixed;
    assert contents == FilterContents(filters, offsets);
  }

  function NoGroups(n: nat): seq<seq<Bytes>> {
    seq(n, i => [])
  }

  lemma NoFilter(p: BloomFilterPolicy)
    ensures FilterFor([], [], p)
  {
  }

  lemma IsFilterFor(filter: Bytes, keys: seq<Bytes>, p: BloomFilterPolicy)
    requires keys != [] && IsFilter(filter, p.hash, keys, p.bitsPerKey, p.k)
    ensures FilterFor(filter, keys, p)
  {
  }

  // ---------------------------------------------------------------- reading

  class FilterBlockReader {
    const policy: BloomFilterPolicy
    const contents: Bytes
    const offset: nat
    const num: nat
    const baseLg: nat

    /** Finds the array of offsets; a block too short or with a bad word matches everything. */
    constructor (policy: BloomFilterPolicy, contents: Bytes)
      ensures this.policy == policy && this.contents == contents
      ensures num > 0 ==> offset + 4 * num + 5 <= |contents|
      ensures |contents| < 5 ==> num == 0
      ensures |contents| >= 5 ==>
        var lastWord := DecodeFixed(contents[|contents| - 5..|contents| - 1]);
        && baseLg == contents[|contents| - 1]
        && (lastWord <= |contents| - 5 ==> offset == lastWord && num == (|contents| - 5 - lastWord) / 4)
        && (lastWord > |contents| - 5 ==> num == 0)
    {
      this.policy, this.contents := policy, contents;
      var n := |contents|;
      offset, num, baseLg := 0, 0, 0;
      if n >= 5 {
        baseLg := contents[n - 1];
        var lastWord := DecodeFixed(contents[n - 5..n - 1]);
        if lastWord <= n - 5 {
          offset := lastWord;
          num := (n - 5 - lastWord) / 4;
        }
      }
    }

    ghost predicate Reads(groups: seq<seq<Bytes>>) {
      && IsFilterBlock(contents, groups, policy) && |contents| < TWO_32 && |contents| >= 5
      && var lastWord := DecodeFixed(contents[|contents| - 5..|contents| - 1]);
        && baseLg == contents[|contents| - 1]
        && (lastWord <= |contents| - 5 ==> offset == lastWord && num == (|contents| - 5 - lastWord) / 4)
    }

    /** No false negatives: a key that hashes like one of the block at that offset matches; and else a key
        matches only if all its probes meet those of the block's keys. */
    method KeyMayMatch(blockOffset: nat, key: Bytes, ghost groups: seq<seq<Bytes>>) returns (r: bool)
      requires num > 0 ==> offset + 4 * num + 5 <= |contents|
      requires Reads(groups)
      ensures var index := blockOffset / FILTER_BASE;
        && (index >= |groups| ==> r)
        && (index < |groups| ==> (Present(groups[index], policy.hash, key) ==> r) && (groups[index] == [] ==> !r))
        && (index < |groups| && groups[index] != [] && policy.k <= MAX_PROBES ==>
             (r <==> CoveredBy(policy.hash, groups[index], policy.bitsPerKey, policy.k, policy.hash(key))))
    {
      ghost var filters, offsets := ReadsParts(groups);
      BaseIs();
      hide *;
      var index := blockOffset / Pow2(baseLg);
      if index < num {
        WordsAreRead(contents, filters, offsets, groups, policy, index);
        var start := DecodeFixed(contents[offset + index * 4..offset + index * 4 + 4]);
        var limit := DecodeFixed(contents[offset + index * 4 + 4..offset + index * 4 + 8]);
        GroupMatches(groups[index], contents[start..limit], policy, key);
        if start <= limit && limit <= offset {
          r := policy.KeyMayMatch(key, contents[start..limit]);
          return;
        }
        if start == limit {
          return false;
        }
      }
      return true;
    }

    lemma ReadsParts(groups: seq<seq<Bytes>>) returns (filters: Bytes, offsets: seq<nat>)
      requires Reads(groups)
      ensures contents == FilterContents(filters, offsets) && Filters(filters, offsets, groups, policy)
              && |contents| < TWO_32
      ensures num == |groups| == |offsets| && offset == |filters| && baseLg == FILTER_BASE_LG
    {
      hide Filters;
      filters, offsets :| contents == FilterContents(filters, offsets) && Filters(filters, offsets, groups, policy);
      FixedAllLength(offsets);
      hide FixedAll, Fixed, DecodeFixed;
      TrailerIsRead(contents, filters, offsets);
      SameCount(filters, offsets, groups, policy);
    }
  }

  lemma SameCount(filters: Bytes, offsets: seq<nat>, groups: seq<seq<Bytes>>, p: BloomFilterPolicy)
    requires Filters(filters, offsets, groups, p)
    ensures |offsets| == |groups|
  {
  }

  lemma BaseIs()
    ensures Pow2(FILTER_BASE_LG) == FILTER_BASE
  {
    assert Pow2(4) == 16 && Pow2(8) == 256;
  }

  lemma TrailerIsRead(contents: Bytes, filters: Bytes, offsets: seq<nat>)
    requires contents == FilterContents(filters, offsets) && |contents| < TWO_32
    ensures |contents| == |filters| + 4 * |offsets| + 5
    ensures DecodeFixed(contents[|contents| - 5..|contents| - 1]) == |filters|
            && contents[|contents| - 1] == FILTER_BASE_LG
  {
    hide DecodeFixed, Fixed;
    FixedAllLength(offsets);
    hide FixedAll;
    EndOf(filters + FixedAll(offsets), Fixed(|filters| % TWO_32, 4), [FILTER_BASE_LG]);
    Fixed32RoundTrip(|filters|);
  }

  lemma EndOf(a: Bytes, b: Bytes, c: Bytes)
    requires |b| == 4 && |c| == 1
    ensures var s := a + b + c; |s| == |a| + 5 && s[|s| - 5..|s| - 1] == b && s[|s| - 1] == c[0]
  {
  }

  /** The word of an index and the one behind it delimit its filter. */
  lemma WordsAreRead(contents: Bytes, filters: Bytes, offsets: seq<nat>, groups: seq<seq<Bytes>>,
                     p: BloomFilterPolicy, i: nat)
    requires contents == FilterContents(filters, offsets) && |contents| < TWO_32
    requires Filters(filters, offsets, groups, p) && i < |groups| == |offsets|
    ensures |filters| + 4 * i + 8 <= |contents|
    ensures var start := DecodeFixed(contents[|filters| + i * 4..|filters| + i * 4 + 4]);
      var limit := DecodeFixed(contents[|filters| + i * 4 + 4..|filters| + i * 4 + 8]);
      && start <= limit <= |filters| <= |contents|
      && FilterFor(contents[start..limit], groups[i], p)
  {
    hide *;
    var words := offsets + [|filters|];
    TrailerIsRead(contents, filters, offsets);
    FilterAt(filters, offsets, groups, p, i);
    var start, limit := offsets[i], LimitOf(offsets, |filters|, i);
    WordsOf(contents, filters, offsets, i);
    Fixed32RoundTrip(start);
    Fixed32RoundTrip(limit);
    MiddleWords(contents, filters, FixedAll(words), i);
    SameSlice(contents, filters, start, limit);
  }

  lemma FilterAt(filters: Bytes, offsets: seq<nat>, groups: seq<seq<Bytes>>, p: BloomFilterPolicy, i: nat)
    requires Filters(filters, offsets, groups, p) && i < |groups| == |offsets|
    ensures offsets[i] <= LimitOf(offsets, |filters|, i) <= |filters|
    ensures FilterFor(filters[offsets[i]..LimitOf(offsets, |filters|, i)], groups[i], p)
  {
    hide FilterFor;
    assert IsFilterAt(filters, offsets, groups, p, i);
  }

  lemma WordsOf(contents: Bytes, filters: Bytes, offsets: seq<nat>, i: nat)
    requires contents == FilterContents(filters, offsets) && |contents| < TWO_32 && i < |offsets|
    requires offsets[i] <= LimitOf(offsets, |filters|, i) <= |filters|
    ensures var words := FixedAll(offsets + [|filters|]);
      && contents == filters + words + [FILTER_BASE_LG] && |words| == 4 * |offsets| + 4
      && words[4 * i..4 * i + 4] == Fixed(offsets[i], 4)
      && words[4 * (i + 1)..4 * (i + 1) + 4] == Fixed(LimitOf(offsets, |filters|, i), 4)
    ensures |filters| < TWO_32
  {
    hide *;
    var words := offsets + [|filters|];
    Chunks(filters, FixedAll(offsets), Fixed(|filters| % TWO_32, 4), [FILTER_BASE_LG]);
    ContentsAre(filters, offsets);
    AllWords(offsets, |filters|);
    LimitIs(offsets, |filters|, i);
    WordAt(words, i, offsets[i]);
    WordAt(words, i + 1, LimitOf(offsets, |filters|, i));
  }

  lemma ContentsAre(filters: Bytes, offsets: seq<nat>)
    ensures FilterContents(filters, offsets) == filters + FixedAll(offsets) + Fixed(|filters| % TWO_32, 4)
            + [FILTER_BASE_LG]
  {
    hide FixedAll, Fixed;
  }

  lemma LimitIs(offsets: seq<nat>, total: nat, i: nat)
    requires i < |offsets|
    ensures (offsets + [total])[i] == offsets[i] && (offsets + [total])[i + 1] == LimitOf(offsets, total, i)
  {
  }

  lemma WordAt(words: seq<nat>, i: nat, v: nat)
    requires i < |words| && words[i] == v < TWO_32
    ensures |FixedAll(words)| == 4 * |words| && FixedAll(words)[4 * i..4 * i + 4] == Fixed(v, 4)
  {
    hide *;
    FixedAllLength(words);
    FixedAllAt(words, i);
    NoWrap(v);
  }

  lemma Chunks(a: Bytes, b: Bytes, c: Bytes, d: Bytes)
    ensures a + b + c + d == a + (b + c) + d
    ensures |a| <= |a + b + c + d|
  {
  }

  lemma SameSlice(contents: Bytes, filters: Bytes, start: nat, limit: nat)
    requires start <= limit <= |filters| <= |contents| && filters <= contents
    ensures contents[start..limit] == filters[start..limit]
  {
  }

  lemma AllWords(offsets: seq<nat>, last: nat)
    ensures FixedAll(offsets + [last]) == FixedAll(offsets) + Fixed(last % TWO_32, 4)
  {
    hide Fixed;
    assert (offsets + [last])[..|offsets|] == offsets;
  }

  lemma MiddleWords(contents: Bytes, filters: Bytes, words: Bytes, i: nat)
    requires contents == filters + words + [FILTER_BASE_LG] && 4 * i + 8 <= |words|
    ensures |filters| + 4 * i + 8 <= |contents| && filters <= contents
    ensures contents[|filters| + i * 4..|filters| + i * 4 + 4] == words[4 * i..4 * i + 4]
    ensures contents[|filters| + i * 4 + 4..|filters| + i * 4 + 8] == words[4 * (i + 1)..4 * (i + 1) + 4]
  {
  }

  lemma GroupMatches(group: seq<Bytes>, filter: Bytes, p: BloomFilterPolicy, key: Bytes)
    requires FilterFor(filter, group, p)
    ensures Present(group, p.hash, key) ==> MayMatch(p.hash, key, filter)
    ensures group == [] ==> !MayMatch(p.hash, key, filter)
    ensures group != [] && p.k <= MAX_PROBES ==>
      (MayMatch(p.hash, key, filter) <==> CoveredBy(p.hash, group, p.bitsPerKey, p.k, p.hash(key)))
  {
    hide IsFilter, CoveredBy;
    if group != [] && p.k <= MAX_PROBES {
      MatchIsExact(filter, p.hash, group, p.bitsPerKey, p.k, key);
    }
    if Present(group, p.hash, key) {
      var i :| 0 <= i < |group| && p.hash(group[i]) == p.hash(key);
      NoFalseNegatives(filter, p.hash, group, p.bitsPerKey, p.k, i);
    }
  }
}
