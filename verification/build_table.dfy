/** Writing entries to a table file (db/builder.cc). */
module BuildTables {
  import opened Wrappers
  import opened Coding
  import opened Comparators
  import opened Blocks
  import opened Tables
  import opened TableFiles
  import opened TableBuilders
  import B = BloomFilters

  /** The loop of BuildTable, over the pairs that its iterator yields. */
  method BuildTable(pairs: seq<Pair>, blockSize: nat, interval: nat, policy: B.BloomFilterPolicy?, policyName: Bytes)
    returns (file: Bytes, ghost t: Image)
    requires KeysOk(pairs) && interval >= 1 && (policy != null ==> 1 <= policy.k <= B.MAX_PROBES)
    ensures IsTable(file, t, policy, policyName) && All(t.blocks) == pairs
    ensures WellCut(t.blocks, interval, blockSize)
  {
    hide *;
    var builder := new TableBuilder(blockSize, interval, policy, policyName);
    for i := 0 to |pairs|
      invariant builder.Valid() && builder.Cut() && !builder.closed && builder.added == pairs[..i]
      invariant fresh(builder) && fresh(builder.dataBlock) && fresh(builder.indexBlock)
      invariant builder.filterBlock != null ==> fresh(builder.filterBlock)
    {
      KeyAt(pairs, i);
      builder.Add(pairs[i].key, pairs[i].value);
      assert Pair(pairs[i].key, pairs[i].value) == pairs[i];
      assert pairs[..i] + [pairs[i]] == pairs[..i + 1];
    }
    assert pairs[..|pairs|] == pairs;
    builder.PolicyIs();
    t := builder.Finish(interval);
    builder.PolicyIs();
    file := builder.file;
  }

  lemma KeyAt(pairs: seq<Pair>, i: nat)
    requires KeysOk(pairs) && i < |pairs|
    ensures IsInternal(pairs[i].key)
    ensures i > 0 ==> pairs[..i][|pairs[..i]| - 1] == pairs[i - 1] && InternalLess(pairs[i - 1].key, pairs[i].key)
  {
    hide InternalLess;
  }
}
