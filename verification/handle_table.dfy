/** The hash table of the block cache: an array of chains of handles that doubles as it fills
    (util/cache.cc). */
module HandleTables {
  import opened Wrappers

  type Key = seq<Byte>

  class LRUHandle {
    const key: Key
    const hash: nat
    const charge: nat
    const value: nat
    var nextHash: LRUHandle?
    var next: LRUHandle?
    var prev: LRUHandle?
    var inCache: bool
    var refs: nat

    constructor (key: Key, hash: nat, value: nat, charge: nat)
      ensures this.key == key && this.hash == hash && this.value == value && this.charge == charge
      ensures !inCache && refs == 1
    {
      this.key, this.hash, this.value, this.charge := key, hash, value, charge;
      nextHash, next, prev := null, null, null;
      inCache, refs := false, 1;
    }
  }

  /** hash & (length - 1), the length being a power of two. */
  function Slot(hash: nat, length: nat): (b: nat)
    requires length > 0
    ensures b < length
  {
    hash % length
  }

  predicate Matches(h: LRUHandle, key: Key, hash: nat) {
    h.hash == hash && h.key == key
  }

  /** The handle of a set with this key, if there is one. */
  ghost predicate Finds(handles: set<LRUHandle>, key: Key, hash: nat, r: LRUHandle?) {
    && (r != null ==> r in handles && Matches(r, key, hash))
    && (r == null ==> forall h :: h in handles ==> !Matches(h, key, hash))
  }

  ghost function Without(handles: set<LRUHandle>, h: LRUHandle?): set<LRUHandle> {
    set g | g in handles && g != h
  }

  lemma WithoutNull(handles: set<LRUHandle>)
    ensures Without(handles, null) == handles
  {
  }

  lemma WithoutSwaps(handles: set<LRUHandle>, h: LRUHandle, r: LRUHandle)
    requires h != r
    ensures Without(handles + {h}, r) == Without(handles, r) + {h}
  {
  }

  lemma WithoutCounts(handles: set<LRUHandle>, r: LRUHandle)
    requires r in handles
    ensures |Without(handles, r)| + 1 == |handles|
  {
    assert handles == Without(handles, r) + {r};
  }

  /** No two handles of a set have the same key. */
  ghost predicate DistinctKeys(handles: set<LRUHandle>) {
    forall g, h :: g in handles && h in handles && Matches(g, h.key, h.hash) ==> g == h
  }

  // ---------------------------------------------------------------- chains

  /** A search of a chain that has passed p handles stands between `before` and `found`. */
  ghost predicate Stands(s: seq<LRUHandle>, p: nat, before: LRUHandle?, found: LRUHandle?) {
    p <= |s| && found == First(s[p..]) && before == (if p == 0 then null else s[p - 1])
  }

  ghost predicate NoneMatches(s: seq<LRUHandle>, p: nat, key: Key, hash: nat)
    requires p <= |s|
  {
    forall i :: 0 <= i < p ==> !Matches(s[i], key, hash)
  }

  /** The nextHash pointer of every handle. */
  type Chained = map<LRUHandle, LRUHandle?>

  function First(s: seq<LRUHandle>): LRUHandle? {
    if s == [] then null else s[0]
  }

  ghost predicate Chain(links: Chained, from: LRUHandle?, s: seq<LRUHandle>) {
    && from == First(s)
    && (forall i :: 0 <= i < |s| ==> s[i] in links && links[s[i]] == First(s[i + 1..]))
    && forall i, j :: 0 <= i < j < |s| ==> s[i] != s[j]
  }

  lemma ChainWithout(links: Chained, from: LRUHandle?, s: seq<LRUHandle>, x: LRUHandle, target: LRUHandle?)
    requires Chain(links, from, s) && x !in s
    ensures Chain(links[x := target], from, s)
  {
  }

  lemma ChainTail(links: Chained, s: seq<LRUHandle>, i: nat)
    requires Chain(links, First(s), s) && i <= |s|
    ensures Chain(links, First(s[i..]), s[i..])
  {
    var t := s[i..];
    forall j | 0 <= j < |t| ensures t[j] in links && links[t[j]] == First(t[j + 1..]) {
      assert t[j + 1..] == s[i + j + 1..];
    }
  }

  /** Pointing a handle that is in no chain at a chain puts it in front. */
  lemma ChainPush(links: Chained, s: seq<LRUHandle>, x: LRUHandle)
    requires Chain(links, First(s), s) && x !in s
    ensures Chain(links[x := First(s)], x, [x] + s)
  {
    var t := [x] + s;
    forall j | 0 <= j < |t| ensures t[j] in links[x := First(s)] && links[x := First(s)][t[j]] == First(t[j + 1..]) {
      assert t[j + 1..] == s[j..];
    }
  }

  /** Redirecting the pointer before position p to what follows in another tail. */
  lemma ChainSplice(links: Chained, s: seq<LRUHandle>, p: nat, tail: seq<LRUHandle>)
    requires Chain(links, First(s), s) && 0 < p <= |s|
    requires Chain(links, First(tail), tail) && forall h :: h in tail ==> h !in s[..p]
    ensures Chain(links[s[p - 1] := First(tail)], First(s), s[..p] + tail)
  {
    var t := s[..p] + tail;
    var after := links[s[p - 1] := First(tail)];
    forall j | 0 <= j < |t| ensures t[j] in after && after[t[j]] == First(t[j + 1..]) {
      if j < p - 1 {
        assert s[j] != s[p - 1];
        assert t[j + 1] == s[j + 1];
      } else if j == p - 1 {
        assert t[j + 1..] == tail;
      } else {
        assert t[j] == tail[j - p] && t[j] !in s[..p];
        assert s[p - 1] in s[..p];
        assert t[j + 1..] == tail[j - p + 1..];
      }
    }
    forall i, j | 0 <= i < j < |t| ensures t[i] != t[j] {
      if i < p && p <= j {
        assert t[i] in s[..p] && t[j] in tail;
      }
    }
  }

  // ---------------------------------------------------------------- the whole table

  ghost predicate Chains(links: Chained, list: seq<LRUHandle?>, buckets: seq<seq<LRUHandle>>) {
    |buckets| == |list| && forall b :: 0 <= b < |list| ==> Chain(links, list[b], buckets[b])
  }

  /** Every handle is in the bucket of its hash, and nowhere else. */
  ghost predicate Holds(buckets: seq<seq<LRUHandle>>, handles: set<LRUHandle>) {
    && |buckets| > 0
    && (forall b, h {:trigger h in buckets[b]} :: 0 <= b < |buckets| && h in buckets[b] ==>
         h in handles && Slot(h.hash, |buckets|) == b)
    && (forall h :: h in handles ==> h in buckets[Slot(h.hash, |buckets|)])
  }

  /** A store to the slot at position p of bucket b: the bucket's head, or a pointer within it. */
  lemma StoreToSlot(links: Chained, list: seq<LRUHandle?>, buckets: seq<seq<LRUHandle>>, b: nat, p: nat,
                    tail: seq<LRUHandle>)
    requires Chains(links, list, buckets) && b < |list| && p <= |buckets[b]|
    requires Chain(links, First(tail), tail) && forall h :: h in tail ==> h !in buckets[b][..p]
    requires forall c, h :: 0 <= c < |list| && c != b && h in buckets[c] ==> h !in buckets[b]
    ensures p == 0 ==> Chains(links, list[b := First(tail)], buckets[b := buckets[b][..p] + tail])
    ensures p > 0 ==> Chains(links[buckets[b][p - 1] := First(tail)], list, buckets[b := buckets[b][..p] + tail])
  {
    assert Chain(links, list[b], buckets[b]);
    hide Chain;
    var after := buckets[b := buckets[b][..p] + tail];
    if p == 0 {
      assert buckets[b][..0] + tail == tail;
      var heads := list[b := First(tail)];
      forall c | 0 <= c < |list| ensures Chain(links, heads[c], after[c]) {
        assert Chain(links, list[c], buckets[c]);
      }
    } else {
      var x := buckets[b][p - 1];
      assert x in buckets[b];
      FirstOf(links, list[b], buckets[b]);
      ChainSplice(links, buckets[b], p, tail);
      var relinked := links[x := First(tail)];
      forall c | 0 <= c < |list| ensures Chain(relinked, list[c], after[c]) {
        if c != b {
          assert Chain(links, list[c], buckets[c]);
          ChainWithout(links, list[c], buckets[c], x, First(tail));
        }
      }
    }
  }

  lemma FirstOf(links: Chained, from: LRUHandle?, s: seq<LRUHandle>)
    requires Chain(links, from, s)
    ensures from == First(s)
  {
  }

  function Restrict(links: Chained, handles: set<LRUHandle>): Chained {
    map h | h in links && h in handles :: links[h]
  }

  /** Only the pointers of the handles in the buckets matter. */
  lemma ChainsAmong(links: Chained, list: seq<LRUHandle?>, buckets: seq<seq<LRUHandle>>, handles: set<LRUHandle>)
    requires Chains(links, list, buckets) && Holds(buckets, handles)
    ensures Chains(Restrict(links, handles), list, buckets)
  {
    forall b | 0 <= b < |list| ensures Chain(Restrict(links, handles), list[b], buckets[b]) {
      var s := buckets[b];
      assert Chain(links, list[b], s);
      forall i | 0 <= i < |s| ensures s[i] in handles {
        assert s[i] in buckets[b];
      }
    }
  }

  lemma StandsIs(s: seq<LRUHandle>, p: nat, before: LRUHandle?, found: LRUHandle?)
    requires Stands(s, p, before, found)
    ensures p <= |s| && found == First(s[p..]) && before == (if p == 0 then null else s[p - 1])
  {
  }

  lemma InsideChain(s: seq<LRUHandle>, p: nat, x: LRUHandle)
    requires p <= |s| && First(s[p..]) == x
    ensures p < |s| && s[p] == x
  {
  }

  lemma ChainNext(links: Chained, from: LRUHandle?, s: seq<LRUHandle>, p: nat)
    requires Chain(links, from, s) && p < |s|
    ensures s[p] in links && links[s[p]] == First(s[p + 1..]) && First(s[p..]) == s[p]
  {
  }

  lemma ChainsWithout(links: Chained, list: seq<LRUHandle?>, buckets: seq<seq<LRUHandle>>, x: LRUHandle,
                      target: LRUHandle?)
    requires Chains(links, list, buckets) && forall b :: 0 <= b < |buckets| ==> x !in buckets[b]
    ensures Chains(links[x := target], list, buckets)
  {
    hide Chain;
    forall b | 0 <= b < |list| ensures Chain(links[x := target], list[b], buckets[b]) {
      assert Chain(links, list[b], buckets[b]);
      ChainWithout(links, list[b], buckets[b], x, target);
    }
  }

  lemma MembersWithout(s: seq<LRUHandle>, p: nat)
    requires p < |s| && forall i, j :: 0 <= i < j < |s| ==> s[i] != s[j]
    ensures forall h :: h in s[..p] + s[p + 1..] <==> h in s && h != s[p]
  {
    var t := s[..p] + s[p + 1..];
    forall h | h in s && h != s[p] ensures h in t {
      var i :| 0 <= i < |s| && s[i] == h;
      assert t[if i < p then i else i - 1] == h;
    }
    forall h | h in t ensures h in s && h != s[p] {
      var i :| 0 <= i < |t| && t[i] == h;
      assert h == s[if i < p then i else i + 1];
    }
  }

  lemma HoldsWithout(buckets: seq<seq<LRUHandle>>, handles: set<LRUHandle>, b: nat, p: nat)
    requires Holds(buckets, handles) && b < |buckets| && p < |buckets[b]|
    requires var s := buckets[b]; forall i, j :: 0 <= i < j < |s| ==> s[i] != s[j]
    ensures var s := buckets[b]; Holds(buckets[b := s[..p] + s[p + 1..]], Without(handles, s[p]))
  {
    var s := buckets[b];
    var t := s[..p] + s[p + 1..];
    MembersWithout(s, p);
    hide Slot;
    assert s[p] in s;
    var after := buckets[b := t];
    forall c, h | 0 <= c < |after| && h in after[c] ensures h in Without(handles, s[p]) && Slot(h.hash, |after|) == c {
      assert h in buckets[c];
    }
  }

  lemma DistinctWithout(handles: set<LRUHandle>, r: LRUHandle)
    requires DistinctKeys(handles)
    ensures DistinctKeys(Without(handles, r))
  {
  }

  class HandleTable {
    var list: seq<LRUHandle?>
    var elems: nat
    ghost var buckets: seq<seq<LRUHandle>>
    /** The handles in the table. */
    ghost var handles: set<LRUHandle>

    ghost function Links(): Chained
      reads this`handles, handles`nextHash
    {
      map h | h in handles :: h.nextHash
    }

    ghost predicate Valid()
      reads this, handles`nextHash
    {
      && Chains(Links(), list, buckets) && Holds(buckets, handles)
      && DistinctKeys(handles) && elems == |handles|
    }

    constructor ()
      ensures Valid() && handles == {}
    {
      list, elems, buckets, handles := seq(4, i => null), 0, seq(4, i => []), {};
      new;
      NothingMoved(Links(), list, buckets);
    }

    lemma LinksAre()
      ensures forall h :: h in Links() ==> Links()[h] == h.nextHash
    {
    }

    lemma BucketIs(b: nat)
      requires Valid() && b < |list|
      ensures |buckets| == |list| && Chain(Links(), list[b], buckets[b])
    {
    }

    /** The slot that points at the handle with this key, or the last slot of its bucket: the slot is
        the bucket's head when `before` is null, else before's pointer. */
    method FindPointer(key: Key, hash: nat) returns (before: LRUHandle?, found: LRUHandle?, ghost p: nat)
      requires Valid()
      ensures Finds(handles, key, hash, found) && |list| == |buckets| > 0
      ensures Stands(buckets[Slot(hash, |list|)], p, before, found)
    {
      Sizes();
      hide *;
      var b := Slot(hash, |list|);
      before, found, p := null, list[b], 0;
      BucketStarts(b, key, hash);
      while found != null && !(found.hash == hash && key == found.key)
        invariant Stands(buckets[b], p, before, found) && p <= |buckets[b]| && NoneMatches(buckets[b], p, key, hash)
        decreases |buckets[b]| - p
      {
        BucketGoesOn(b, p, before, found, key, hash);
        before := found;
        found := found.nextHash;
        p := p + 1;
      }
      FoundInBucket(key, hash, p, before, found);
    }

    lemma Sizes()
      requires Valid()
      ensures |list| == |buckets| > 0
    {
    }

    lemma BucketStarts(b: nat, key: Key, hash: nat)
      requires Valid() && b < |list| == |buckets|
      ensures Stands(buckets[b], 0, null, list[b]) && NoneMatches(buckets[b], 0, key, hash)
    {
      BucketIs(b);
      assert buckets[b][0..] == buckets[b];
    }

    lemma BucketGoesOn(b: nat, p: nat, before: LRUHandle?, x: LRUHandle, key: Key, hash: nat)
      requires Valid() && b < |list| == |buckets| && Stands(buckets[b], p, before, x)
      requires p <= |buckets[b]| && NoneMatches(buckets[b], p, key, hash) && !(x.hash == hash && key == x.key)
      ensures p < |buckets[b]| && Stands(buckets[b], p + 1, x, x.nextHash) && NoneMatches(buckets[b], p + 1, key, hash)
    {
      BucketIs(b);
      InHandles(b, p);
      ChainNext(Links(), list[b], buckets[b], p);
    }

    lemma FoundInBucket(key: Key, hash: nat, p: nat, before: LRUHandle?, found: LRUHandle?)
      requires Valid() && |buckets| == |list| > 0
      requires var s := buckets[Slot(hash, |list|)];
        && Stands(s, p, before, found) && p <= |s| && NoneMatches(s, p, key, hash)
        && (found != null ==> found.hash == hash && key == found.key)
      ensures Finds(handles, key, hash, found)
    {
      var s := buckets[Slot(hash, |list|)];
      hide Chains, DistinctKeys;
      if found == null {
        forall h | h in handles ensures !Matches(h, key, hash) {
          if h.hash == hash {
            var i :| 0 <= i < |s| && s[i] == h;
          }
        }
      } else {
        assert found == s[p] && found in s;
      }
    }

    method Lookup(key: Key, hash: nat) returns (r: LRUHandle?)
      requires Valid()
      ensures Finds(handles, key, hash, r)
    {
      var before: LRUHandle?;
      ghost var p: nat;
      before, r, p := FindPointer(key, hash);
    }

    /** Removes the handle with this key and returns it. */
    method Remove(key: Key, hash: nat) returns (r: LRUHandle?)
      requires Valid()
      modifies this, handles`nextHash
      ensures Valid() && Finds(old(handles), key, hash, r)
      ensures handles == Without(old(handles), r)
    {
      var before: LRUHandle?;
      ghost var p: nat;
      before, r, p := FindPointer(key, hash);
      if r != null {
        InsideChain(buckets[Slot(hash, |list|)], p, r);
      }
      WithoutNull(handles);
      hide Chains, Holds, DistinctKeys, Finds, Slot, Without;
      if r != null {
        Unlink(before, r, Slot(hash, |list|), p);
      }
    }

    /** Writes to the slot that `before` names in bucket b. */
    method StoreSlot(before: LRUHandle?, b: nat, target: LRUHandle?)
      requires b < |list| && (before != null ==> before in handles)
      modifies this`list, handles`nextHash
      ensures list == if before == null then old(list)[b := target] else old(list)
      ensures Links() == if before == null then old(Links()) else old(Links())[before := target]
    {
      if before == null {
        list := list[b := target];
      } else {
        before.nextHash := target;
      }
    }

    method Unlink(before: LRUHandle?, r: LRUHandle, b: nat, ghost p: nat)
      requires Valid() && b < |list| == |buckets| && p < |buckets[b]|
      requires r == buckets[b][p] && before == (if p == 0 then null else buckets[b][p - 1])
      modifies this, handles`nextHash
      ensures Valid() && handles == Without(old(handles), r)
    {
      hide *;
      ghost var s := buckets[b];
      RemovedChains(b, p);
      RemovalReady(b, p);
      StoreSlot(before, b, r.nextHash);
      elems := elems - 1;
      buckets := buckets[b := s[..p] + s[p + 1..]];
      DropHandle(r);
    }

    lemma RemovalReady(b: nat, p: nat)
      requires Valid() && b < |list| == |buckets| && p < |buckets[b]|
      ensures var s := buckets[b];
        && s[p] in handles && (p > 0 ==> s[p - 1] in handles) && elems == |handles| > 0
        && Holds(buckets[b := s[..p] + s[p + 1..]], Without(handles, s[p])) && DistinctKeys(Without(handles, s[p]))
        && Links()[s[p]] == s[p].nextHash
    {
      BucketIs(b);
      InHandles(b, p);
      if p > 0 {
        InHandles(b, p - 1);
      }
      hide Chains, Slot;
      HoldsWithout(buckets, handles, b, p);
      DistinctWithout(handles, buckets[b][p]);
    }

    ghost method DropHandle(r: LRUHandle)
      requires r in handles && Chains(Links(), list, buckets) && Holds(buckets, Without(handles, r))
      requires DistinctKeys(Without(handles, r)) && elems + 1 == |handles|
      modifies this`handles
      ensures Valid() && handles == Without(old(handles), r)
    {
      hide Chains, Holds, DistinctKeys;
      ghost var links := Links();
      WithoutCounts(handles, r);
      ChainsAmong(links, list, buckets, Without(handles, r));
      handles := Without(handles, r);
      assert Links() == Restrict(links, handles);
    }

    lemma InHandles(b: nat, p: nat)
      requires Valid() && b < |buckets| && p < |buckets[b]|
      ensures buckets[b][p] in handles
    {
    }

    lemma RemovedChains(b: nat, p: nat)
      requires Valid() && b < |list| == |buckets| && p < |buckets[b]|
      ensures var links, s := Links(), buckets[b];
        && s[p] in links && links[s[p]] == First(s[p + 1..])
        && (p == 0 ==> Chains(links, list[b := links[s[p]]], buckets[b := s[..p] + s[p + 1..]]))
        && (p > 0 ==> Chains(links[s[p - 1] := links[s[p]]], list, buckets[b := s[..p] + s[p + 1..]]))
    {
      var links, s := Links(), buckets[b];
      BucketIs(b);
      FirstOf(links, list[b], s);
      ChainTail(links, s, p + 1);
      OtherBuckets(b);
      DistinctBucket(links, s, p);
      ChainNext(links, list[b], s, p);
      hide Chains, Chain, Holds;
      StoreToSlot(links, list, buckets, b, p, s[p + 1..]);
    }

    lemma DistinctBucket(links: Chained, s: seq<LRUHandle>, p: nat)
      requires Chain(links, First(s), s) && p < |s|
      ensures forall h :: h in s[p + 1..] ==> h !in s[..p] && h != s[p]
      ensures s[p] !in s[..p]
    {
    }

    lemma OtherBuckets(b: nat)
      requires Valid() && b < |list|
      ensures forall c, h :: 0 <= c < |list| && c != b && h in buckets[c] ==> h !in buckets[b]
    {
    }

    // -------------------------------------------------------------- insertion

    /** The bucket after h has taken the place of the handle at position p, or the last place. */
    ghost function TailAfter(b: nat, p: nat): seq<LRUHandle>
      requires b < |buckets|
      reads this`buckets
    {
      if p < |buckets[b]| then buckets[b][p + 1..] else []
    }

    lemma InsertedChains(b: nat, p: nat, h: LRUHandle)
      requires Valid() && b < |list| == |buckets| && p <= |buckets[b]| && h !in handles
      ensures var s, tail, links := buckets[b], TailAfter(b, p), Links()[h := First(TailAfter(b, p))];
        && (p == 0 ==> Chains(links, list[b := h], buckets[b := s[..p] + ([h] + tail)]))
        && (p > 0 ==> Chains(links[s[p - 1] := h], list, buckets[b := s[..p] + ([h] + tail)]))
    {
      var s, tail := buckets[b], TailAfter(b, p);
      BucketIs(b);
      FirstOf(Links(), list[b], s);
      NotInBuckets(h);
      ChainTail(Links(), s, if p < |s| then p + 1 else |s|);
      assert tail == s[if p < |s| then p + 1 else |s|..];
      OtherBuckets(b);
      if p < |s| {
        DistinctBucket(Links(), s, p);
      }
      assert forall g :: g in tail ==> g in s;
      assert forall g :: g in s[..p] ==> g in s;
      hide Chain, Chains, Holds;
      ChainPush(Links(), tail, h);
      ChainsWithout(Links(), list, buckets, h, First(tail));
      StoreToSlot(Links()[h := First(tail)], list, buckets, b, p, [h] + tail);
    }

    lemma NotInBuckets(h: LRUHandle)
      requires Valid() && h !in handles
      ensures forall b :: 0 <= b < |buckets| ==> h !in buckets[b]
    {
    }

    /** The slot an insertion writes to. */
    ghost predicate IsSlot(b: nat, p: nat, h: LRUHandle, found: LRUHandle?)
      reads this`list, this`buckets, this`handles
    {
      && h !in handles && b < |list| == |buckets| && b == Slot(h.hash, |list|) && p <= |buckets[b]|
      && Finds(handles, h.key, h.hash, found) && found == First(buckets[b][p..])
    }

    lemma InsertAt(b: nat, p: nat, h: LRUHandle, found: LRUHandle?)
      requires h !in handles && b < |list| == |buckets| && b == Slot(h.hash, |list|) && p <= |buckets[b]|
      requires Finds(handles, h.key, h.hash, found) && found == First(buckets[b][p..])
      ensures IsSlot(b, p, h, found)
    {
    }

    lemma InsertReady(b: nat, p: nat, h: LRUHandle, found: LRUHandle?)
      requires Valid() && IsSlot(b, p, h, found)
      ensures found != null ==>
        p < |buckets[b]| && found == buckets[b][p] && found in handles && found.nextHash == First(TailAfter(b, p))
      ensures found == null ==> p == |buckets[b]| && TailAfter(b, p) == [] && First(TailAfter(b, p)) == null
      ensures p > 0 ==> buckets[b][p - 1] in handles
      ensures elems == |handles|
    {
      hide *;
      SlotIs(b, p, h, found);
      BucketIs(b);
      LinksAre();
      if p > 0 {
        InHandles(b, p - 1);
      }
      if found != null {
        InHandles(b, p);
        ChainNext(Links(), list[b], buckets[b], p);
      }
    }

    lemma SlotIs(b: nat, p: nat, h: LRUHandle, found: LRUHandle?)
      requires Valid() && IsSlot(b, p, h, found)
      ensures b < |list| == |buckets| && p <= |buckets[b]| && elems == |handles|
      ensures found == null ==> p == |buckets[b]| && TailAfter(b, p) == [] && First(TailAfter(b, p)) == null
      ensures found != null ==> p < |buckets[b]| && found == buckets[b][p] && TailAfter(b, p) == buckets[b][p + 1..]
    {
      hide Chains, Holds;
    }

    lemma InsertHolds(b: nat, p: nat, h: LRUHandle, found: LRUHandle?)
      requires Valid() && IsSlot(b, p, h, found)
      ensures p <= |buckets[b]|
      ensures var rest := Without(handles, found);
        && Holds(buckets[b := buckets[b][..p] + ([h] + TailAfter(b, p))], rest + {h}) && DistinctKeys(rest + {h})
    {
      BucketIs(b);
      DistinctMore(handles, h, found);
      hide Chains, Slot, Holds, Finds, DistinctKeys;
      if found != null {
        HoldsReplaced(buckets, handles, b, p, h);
      } else {
        HoldsAppended(buckets, handles, b, h);
        WithoutNull(handles);
        assert buckets[b][p..] == [] && p == |buckets[b]|;
      }
    }

    /** Inserts a handle and returns the one it replaces. */
    method Insert(h: LRUHandle) returns (replaced: LRUHandle?)
      requires Valid() && h !in handles
      modifies this, handles`nextHash, h`nextHash
      ensures Valid() && Finds(old(handles), h.key, h.hash, replaced)
      ensures handles == Without(old(handles), replaced) + {h}
    {
      hide *;
      var before: LRUHandle?;
      ghost var p: nat;
      before, replaced, p := FindPointer(h.key, h.hash);
      var b := Slot(h.hash, |list|);
      StandsIs(buckets[b], p, before, replaced);
      InsertedChains(b, p, h);
      InsertAt(b, p, h, replaced);
      InsertReady(b, p, h, replaced);
      InsertHolds(b, p, h, replaced);
      ghost var s, tail, links := buckets[b], TailAfter(b, p), Links();
      h.nextHash := if replaced == null then null else replaced.nextHash;
      AddHandle(h, links);
      StoreSlot(before, b, h);
      buckets := buckets[b := s[..p] + ([h] + tail)];
      if replaced == null {
        WithoutNull(old(handles));
        elems := elems + 1;
        if elems > |list| {
          Resize();
        } else {
          IsValid();
        }
      } else {
        WithoutSwaps(old(handles), h, replaced);
        DropHandle(replaced);
      }
    }

    lemma IsValid()
      requires Chains(Links(), list, buckets) && Holds(buckets, handles) && DistinctKeys(handles) && elems == |handles|
      ensures Valid()
    {
    }

    ghost method AddHandle(h: LRUHandle, links: Chained)
      requires h !in handles && links == Links()
      modifies this`handles
      ensures handles == old(handles) + {h} && Links() == links[h := h.nextHash]
    {
      handles := handles + {h};
    }

    /** Moves every handle to a bucket of a larger array. */
    method Resize()
      requires Chains(Links(), list, buckets) && Holds(buckets, handles) && DistinctKeys(handles) && elems == |handles|
      modifies this`list, this`buckets, handles`nextHash
      ensures Valid() && |list| >= elems
    {
      var newLength := NewLength(elems);
      var newList: seq<LRUHandle?> := seq(newLength, i => null);
      ghost var m := Progress(seq(newLength, i => []), list, buckets, {});
      StartMoving(newList, m);
      hide *;
      newList, m := MoveAll(newList, m);
      list := newList;
      buckets := m.buckets;
      IsValid();
    }

    method MoveAll(newList: seq<LRUHandle?>, ghost m: Progress) returns (r: seq<LRUHandle?>, ghost n: Progress)
      requires Moving(newList, m) && |newList| > 0 && m.heads == list && |m.rest| == |m.heads|
      modifies handles`nextHash
      ensures Chains(Links(), r, n.buckets) && Holds(n.buckets, handles) && |r| == |newList|
    {
      hide *;
      r, n := newList, m;
      for i := 0 to |list|
        invariant Moving(r, n) && |r| == |newList| && |n.rest| == |n.heads| == |list|
        invariant forall b :: 0 <= b < i ==> n.rest[b] == []
        invariant forall b :: i <= b < |list| ==> n.heads[b] == list[b]
      {
        r, n := MoveChain(list[i], r, n, i);
      }
      AllMoved(r, n);
    }

    /** The smallest power of two, and at least 4, that has room for so many. */
    static method NewLength(elems: nat) returns (n: nat)
      ensures n >= elems && n >= 4
    {
      n := 4;
      while n < elems
        invariant n >= 4
      {
        n := n * 2;
      }
    }

    lemma StartMoving(newList: seq<LRUHandle?>, m: Progress)
      requires Chains(Links(), list, buckets) && Holds(buckets, handles)
      requires |newList| == |m.buckets| > 0 && m.moved == {} && m.heads == list && m.rest == buckets
      requires forall b :: 0 <= b < |newList| ==> newList[b] == null && m.buckets[b] == []
      ensures Moving(newList, m) && |list| == |buckets|
    {
      NothingMoved(Links(), newList, m.buckets);
      assert handles - m.moved == handles;
      hide Holds, Chain;
    }

    /** Between two steps of Resize: some handles hang in the new array, the others still in the old
        chains. */
    ghost predicate Moving(newList: seq<LRUHandle?>, m: Progress)
      reads this`handles, handles`nextHash
    {
      && m.moved <= handles && |newList| == |m.buckets| && |m.heads| == |m.rest|
      && Chains(Links(), newList, m.buckets) && Holds(m.buckets, m.moved)
      && Chains(Links(), m.heads, m.rest) && Holds(m.rest, handles - m.moved)
    }

    /** Empties one old chain, the handles landing in front of their new buckets. */
    method MoveChain(from: LRUHandle?, newList: seq<LRUHandle?>, ghost m: Progress, ghost i: nat)
      returns (r: seq<LRUHandle?>, ghost n: Progress)
      requires Moving(newList, m) && |newList| > 0 && i < |m.heads| == |m.rest| && from == m.heads[i]
      modifies handles`nextHash
      ensures Moving(r, n) && |r| == |newList| && |n.heads| == |m.heads|
      ensures n.rest == m.rest[i := []] && forall b :: 0 <= b < |m.heads| && b != i ==> n.heads[b] == m.heads[b]
    {
      HeadOf(newList, m, i);
      hide *;
      var h := from;
      r, n := newList, m;
      while h != null
        invariant Moving(r, n) && |r| == |newList| && |n.heads| == |m.heads| == |n.rest| && h == First(n.rest[i])
        invariant n.rest == m.rest[i := n.rest[i]]
        invariant forall b :: 0 <= b < |m.heads| && b != i ==> n.heads[b] == m.heads[b]
        decreases |n.rest[i]|
      {
        h, r, n := MoveHandle(h, r, n, i);
      }
      NoFirst(n.rest[i]);
    }

    lemma HeadOf(newList: seq<LRUHandle?>, m: Progress, i: nat)
      requires Moving(newList, m) && i < |m.heads|
      ensures m.heads[i] == First(m.rest[i])
    {
      assert Chain(Links(), m.heads[i], m.rest[i]);
    }

    /** Takes a handle off its old chain and pushes it onto its new one; returns the next. */
    method MoveHandle(h: LRUHandle, newList: seq<LRUHandle?>, ghost m: Progress, ghost i: nat)
      returns (next: LRUHandle?, r: seq<LRUHandle?>, ghost n: Progress)
      requires Moving(newList, m) && |newList| > 0 && i < |m.heads| == |m.rest| && h == First(m.rest[i])
      modifies handles`nextHash
      ensures Moving(r, n) && |r| == |newList| && m.rest[i] != []
      ensures n.rest == m.rest[i := m.rest[i][1..]] && next == First(n.rest[i]) && n.heads == m.heads[i := next]
    {
      MoveReady(newList, m, i, h);
      hide *;
      var b := Slot(h.hash, |newList|);
      ghost var links := Links();
      LinksHold(links);
      next := h.nextHash;
      h.nextHash := newList[b];
      LinkIs(h, links);
      r := newList[b := h];
      n := Progress(m.buckets[b := [h] + m.buckets[b]], m.heads[i := next], m.rest[i := m.rest[i][1..]], m.moved + {h});
      IsMoving(r, n);
    }

    lemma LinksHold(links: Chained)
      requires links == Links()
      ensures links.Keys == handles && forall h :: h in handles ==> links[h] == h.nextHash
    {
    }

    lemma LinkIs(h: LRUHandle, links: Chained)
      requires h in handles && links.Keys == handles
      requires forall g :: g in handles && g != h ==> g.nextHash == links[g]
      ensures Links() == links[h := h.nextHash]
    {
    }

    lemma IsMoving(newList: seq<LRUHandle?>, m: Progress)
      requires m.moved <= handles && |newList| == |m.buckets| && |m.heads| == |m.rest|
      requires Chains(Links(), newList, m.buckets) && Holds(m.buckets, m.moved)
      requires Chains(Links(), m.heads, m.rest) && Holds(m.rest, handles - m.moved)
      ensures Moving(newList, m)
    {
    }

    /** Taking h off the old chain and pushing it onto its new one. */
    lemma MoveReady(newList: seq<LRUHandle?>, m: Progress, i: nat, h: LRUHandle)
      requires Moving(newList, m) && i < |m.heads| && h == First(m.rest[i]) && newList != []
      ensures h in handles && m.rest[i] != [] && m.moved + {h} <= handles && |m.buckets| == |newList|
      ensures var b := Slot(h.hash, |newList|);
        var links := Links()[h := newList[b]];
        && Chains(links, newList[b := h], m.buckets[b := [h] + m.buckets[b]])
        && Holds(m.buckets[b := [h] + m.buckets[b]], m.moved + {h})
        && Chains(links, m.heads[i := h.nextHash], m.rest[i := m.rest[i][1..]])
        && Holds(m.rest[i := m.rest[i][1..]], handles - (m.moved + {h}))
        && h.nextHash == First(m.rest[i][1..])
    {
      var s := m.rest[i];
      assert h == s[0] && h in m.rest[i];
      InHeld(m.rest, handles - m.moved, i, h);
      var b := Slot(h.hash, |newList|);
      assert Chain(Links(), m.heads[i], s);
      ChainNext(Links(), m.heads[i], s, 0);
      hide Chain, Slot, Chains, Holds;
      MoveOff(Links(), m.heads, m.rest, handles - m.moved, i, newList[b]);
      MoveOn(Links(), newList, m.buckets, m.moved, h);
      assert Without(handles - m.moved, h) == handles - (m.moved + {h});
    }

    lemma AllMoved(newList: seq<LRUHandle?>, m: Progress)
      requires Moving(newList, m) && forall b :: 0 <= b < |m.rest| ==> m.rest[b] == []
      ensures Chains(Links(), newList, m.buckets) && Holds(m.buckets, handles)
    {
      NoneHeld(m.rest, handles - m.moved);
      assert forall h :: h in handles ==> h in m.moved || h in handles - m.moved;
      assert m.moved == handles;
    }
  }

  /** How far Resize has come: the new buckets, what is left of the old chains and their heads, and
      the handles moved so far. */
  datatype Progress = Progress(buckets: seq<seq<LRUHandle>>, heads: seq<LRUHandle?>, rest: seq<seq<LRUHandle>>,
      moved: set<LRUHandle>)

  lemma NoFirst(s: seq<LRUHandle>)
    ensures First(s) == null <==> s == []
  {
  }

  lemma NothingMoved(links: Chained, list: seq<LRUHandle?>, buckets: seq<seq<LRUHandle>>)
    requires |list| == |buckets| > 0
    requires forall b :: 0 <= b < |list| ==> list[b] == null && buckets[b] == []
    ensures Chains(links, list, buckets) && Holds(buckets, {})
  {
  }

  lemma NoneHeld(buckets: seq<seq<LRUHandle>>, handles: set<LRUHandle>)
    requires Holds(buckets, handles) && forall b :: 0 <= b < |buckets| ==> buckets[b] == []
    ensures handles == {}
  {
    hide Slot;
    assert forall h :: h in handles ==> buckets[Slot(h.hash, |buckets|)] == [];
  }

  lemma InHeld(buckets: seq<seq<LRUHandle>>, handles: set<LRUHandle>, b: nat, h: LRUHandle)
    requires Holds(buckets, handles) && b < |buckets| && h in buckets[b]
    ensures h in handles
  {
  }

  lemma HeldOnce(buckets: seq<seq<LRUHandle>>, handles: set<LRUHandle>, b: nat, c: nat, h: LRUHandle)
    requires Holds(buckets, handles) && b < |buckets| && c < |buckets| && b != c && h in buckets[b]
    ensures h !in buckets[c]
  {
  }

  /** Dropping the first handle of an old chain, whose pointer is about to be overwritten. */
  lemma MoveOff(links: Chained, heads: seq<LRUHandle?>, rest: seq<seq<LRUHandle>>, handles: set<LRUHandle>, i: nat,
                target: LRUHandle?)
    requires Chains(links, heads, rest) && Holds(rest, handles) && i < |rest| == |heads| && rest[i] != []
    ensures Chains(links[rest[i][0] := target], heads[i := First(rest[i][1..])], rest[i := rest[i][1..]])
    ensures Holds(rest[i := rest[i][1..]], Without(handles, rest[i][0]))
  {
    var s := rest[i];
    var h := s[0];
    assert h in s;
    TailChain(links, heads, rest, i);
    assert s[..0] + s[1..] == s[1..];
    var after, newHeads, newRest := links[h := target], heads[i := First(s[1..])], rest[i := s[1..]];
    hide Chain, Holds, Without;
    HoldsWithout(rest, handles, i, 0);
    forall c | 0 <= c < |heads| ensures Chain(after, newHeads[c], newRest[c]) {
      if c != i {
        assert Chain(links, heads[c], rest[c]);
        HeldOnce(rest, handles, i, c, h);
        ChainWithout(links, heads[c], rest[c], h, target);
      } else {
        ChainWithout(links, First(s[1..]), s[1..], h, target);
      }
    }
  }

  lemma TailChain(links: Chained, heads: seq<LRUHandle?>, rest: seq<seq<LRUHandle>>, i: nat)
    requires Chains(links, heads, rest) && i < |rest| == |heads| && rest[i] != []
    ensures Chain(links, First(rest[i][1..]), rest[i][1..]) && rest[i][0] !in rest[i][1..]
    ensures forall j, k :: 0 <= j < k < |rest[i]| ==> rest[i][j] != rest[i][k]
  {
    assert Chain(links, heads[i], rest[i]);
    ChainTail(links, rest[i], 1);
  }

  /** Pushing a handle onto its new chain. */
  lemma MoveOn(links: Chained, list: seq<LRUHandle?>, buckets: seq<seq<LRUHandle>>, handles: set<LRUHandle>,
               h: LRUHandle)
    requires Chains(links, list, buckets) && Holds(buckets, handles) && h !in handles && |list| > 0
    ensures var b := Slot(h.hash, |list|);
      && Chains(links[h := list[b]], list[b := h], buckets[b := [h] + buckets[b]])
      && Holds(buckets[b := [h] + buckets[b]], handles + {h})
  {
    var b := Slot(h.hash, |list|);
    var s := buckets[b];
    HoldsMore(buckets, handles, b, 0, h);
    assert s[..0] + [h] + s[0..] == [h] + s;
    assert forall c :: 0 <= c < |buckets| ==> h !in buckets[c];
    assert Chain(links, list[b], s);
    FirstOf(links, list[b], s);
    ChainPush(links, s, h);
    var after, newList, newBuckets := links[h := list[b]], list[b := h], buckets[b := [h] + s];
    hide Chain, Holds, Slot;
    forall c | 0 <= c < |list| ensures Chain(after, newList[c], newBuckets[c]) {
      if c != b {
        assert Chain(links, list[c], buckets[c]);
        ChainWithout(links, list[c], buckets[c], h, list[b]);
      }
    }
  }

  lemma DistinctMore(handles: set<LRUHandle>, h: LRUHandle, found: LRUHandle?)
    requires DistinctKeys(handles) && h !in handles && Finds(handles, h.key, h.hash, found)
    ensures DistinctKeys(Without(handles, found) + {h})
  {
    var rest := Without(handles, found);
    forall g | g in rest ensures !Matches(g, h.key, h.hash) && !Matches(h, g.key, g.hash) {
      assert found != null ==> g != found && !Matches(g, found.key, found.hash);
    }
    forall g, k | g in rest + {h} && k in rest + {h} && Matches(g, k.key, k.hash) ensures g == k {
      assert g in rest && k in rest ==> g == k;
    }
  }

  lemma HoldsReplaced(buckets: seq<seq<LRUHandle>>, handles: set<LRUHandle>, b: nat, p: nat, h: LRUHandle)
    requires Holds(buckets, handles) && b < |buckets| && p < |buckets[b]| && b == Slot(h.hash, |buckets|)
    requires var s := buckets[b]; forall i, j :: 0 <= i < j < |s| ==> s[i] != s[j]
    ensures var s := buckets[b]; Holds(buckets[b := s[..p] + ([h] + s[p + 1..])], Without(handles, s[p]) + {h})
  {
    hide Holds, Slot;
    var s := buckets[b];
    var t := s[..p] + s[p + 1..];
    HoldsWithout(buckets, handles, b, p);
    HoldsMore(buckets[b := t], Without(handles, s[p]), b, p, h);
    var r := s[..p] + ([h] + s[p + 1..]);
    assert t[..p] + [h] + t[p..] == r;
    assert buckets[b := t][b := r] == buckets[b := r];
  }

  lemma HoldsAppended(buckets: seq<seq<LRUHandle>>, handles: set<LRUHandle>, b: nat, h: LRUHandle)
    requires Holds(buckets, handles) && b < |buckets| && b == Slot(h.hash, |buckets|)
    ensures var s := buckets[b]; Holds(buckets[b := s[..|s|] + ([h] + [])], handles + {h})
  {
    hide Holds, Slot;
    var s := buckets[b];
    HoldsMore(buckets, handles, b, |s|, h);
    assert s[..|s|] + [h] + s[|s|..] == s[..|s|] + ([h] + []);
  }

  lemma HoldsMore(buckets: seq<seq<LRUHandle>>, handles: set<LRUHandle>, b: nat, p: nat, h: LRUHandle)
    requires Holds(buckets, handles) && b < |buckets| && p <= |buckets[b]| && b == Slot(h.hash, |buckets|)
    ensures Holds(buckets[b := buckets[b][..p] + [h] + buckets[b][p..]], handles + {h})
  {
    var s := buckets[b];
    var t := s[..p] + [h] + s[p..];
    var after := buckets[b := t];
    hide Slot;
    forall g | g in s ensures g in t {
      var i :| 0 <= i < |s| && s[i] == g;
      assert t[if i < p then i else i + 1] == g;
    }
    assert t[p] == h;
    forall c, g | 0 <= c < |after| && g in after[c] ensures g in handles + {h} && Slot(g.hash, |after|) == c {
      assert g == h || g in buckets[c];
    }
  }
}
