/** What the pool allocator's invariant means: disjointness, the shape of retired pools, the
    owners of mappings, and the best-fit search against a walk of every free block. */
module MallocTheorems {
  import opened MallocBlocks
  import opened MallocList
  import opened MallocTake
  import opened MallocSearch
  import opened MallocState
  import opened MallocMaps
  import opened MallocSettle
  import opened MallocRoom
  import opened MallocHold
  import opened MallocBytes

  // ---------- blocks that are handed out ----------

  /** Every block lies in memory the system has handed to the allocator. */
  lemma BlocksAreMapped(s: Snap, u: int, n: int)
    requires Inv(s) && Has(s, u, n)
    ensures exists b :: b in s.maps && b < u && u + n <= b + s.maps[b] && b !in s.parked
  {
    var raw, owner := RawBehind(s, u, n);
    RawRange(s, raw, owner);
    if owner in s.views { PoolInMaps(s, owner); } else { LargeOwner(s, owner); }
    assert owner in s.maps && owner < u && u + n <= owner + s.maps[owner];
  }

  /** No free block of any pool overlaps a block that is handed out. */
  lemma FreeIsNotHeld(s: Snap, u: int, n: int, p: int, i: nat)
    requires Inv(s) && Has(s, u, n) && p in s.views && i < |s.views[p].free|
    ensures Clear(Block(u, n), s.views[p].free[i]) || n <= 0
  {
    hide Inv;
    var raw, owner := RawBehind(s, u, n);
    var b := s.views[p].free[i];
    InvPool(s, p);
    FreeInside(s.mem, p, s.maps[p], s.views[p], Exempt(s, p));
    InvMaps(s);
    if owner == p {
      NotBoth(s, p);
      FreeClear(s.mem, p, s.maps[p], s.views[p], Exempt(s, p), raw - MHDR, i);
    } else {
      RawInside(s, raw, owner);
      Disjoint(s.maps, p, owner);
    }
  }

  lemma FreeClear(m: Mem, ms: int, len: int, v: View, current: bool, at: int, i: nat)
    requires PoolOk(m, ms, len, v, current) && at in v.live && i < |v.free|
    ensures at + MHDR + v.live[at] <= v.free[i].at || End(v.free[i]) <= at
  {
    BlockSizeBounds(v.live[at]);
    assert Clear(v.free[i], LiveBlock(v.live, at));
  }

  /** The unspent bump room of the current pool holds no block. */
  lemma BumpRoomIsNotHeld(s: Snap, u: int, n: int)
    requires Inv(s) && Has(s, u, n) && s.pool != 0 && s.pool in s.views && HasPool(s.mem, s.pool)
    ensures u + n <= s.pool + s.mem[s.pool].size || s.pool + s.mem[s.pool].len <= u
  {
    hide Inv;
    var raw, owner := RawBehind(s, u, n);
    PoolInMaps(s, s.pool);
    InvMaps(s);
    InvPool(s, s.pool);
    if owner == s.pool {
      NotBoth(s, s.pool);
      BelowSize(s.mem, s.pool, s.maps[s.pool], s.views[s.pool], Exempt(s, s.pool), raw - MHDR);
    } else {
      RawInside(s, raw, owner);
      Disjoint(s.maps, s.pool, owner);
    }
  }

  lemma BelowSize(m: Mem, ms: int, len: int, v: View, current: bool, at: int)
    requires PoolOk(m, ms, len, v, current) && at in v.live
    ensures at + MHDR + v.live[at] <= ms + m[ms].size
  {
    BlockSizeBounds(v.live[at]);
  }

  /** A pool's reference count is the number of its live blocks. */
  lemma RefsCountBlocks(s: Snap, p: int)
    requires Inv(s) && p in s.views
    ensures HasPool(s.mem, p) && s.mem[p].refs == |s.views[p].live|
    ensures p in s.retired && s.relaxed == 0 ==> s.mem[p].refs > 0
  {
    PoolInMaps(s, p);
    InvPool(s, p);
  }

  // ---------- retired pools ----------

  function Bigs(bs: seq<Block>): seq<Block> {
    if bs == [] then [] else (if Big(bs[0]) then [bs[0]] else []) + Bigs(bs[1..])
  }

  /** Following next from address a meets the blocks of bs, in order, and no more. */
  ghost predicate ListFrom(m: Mem, a: int, bs: seq<Block>)
    decreases |bs|
  {
    if bs == [] then a == 0
    else a == bs[0].at && HasNode(m, a) && m[a].blockSize == bs[0].size && ListFrom(m, m[a].next, bs[1..])
  }

  /** Likewise along the chain of big blocks. */
  ghost predicate ChainFrom(m: Mem, a: int, bs: seq<Block>)
    decreases |bs|
  {
    if bs == [] then a == 0
    else a == bs[0].at && HasNode(m, a) && m[a].blockSize == bs[0].size && ChainFrom(m, m[a].nextBig, bs[1..])
  }

  lemma {:induction false} LinkedFrom(m: Mem, bs: seq<Block>)
    requires Linked(m, bs, 0)
    ensures ListFrom(m, Front(bs, 0), bs)
  {
    if bs != [] { LinkedFrom(m, bs[1..]); }
  }

  lemma {:induction false} ChainedFrom(m: Mem, bs: seq<Block>)
    requires Linked(m, bs, 0) && Chained(m, bs, 0)
    ensures ChainFrom(m, FirstBig(bs, 0), Bigs(bs))
  {
    if bs != [] {
      ChainedFrom(m, bs[1..]);
      if Big(bs[0]) { assert Bigs(bs)[1..] == Bigs(bs[1..]); } else { assert Bigs(bs) == Bigs(bs[1..]); }
    }
  }

  /** In every retired pool the free list is in address order with no two blocks touching,
      the chain is exactly its big blocks in the same order, and no block is above the bound. */
  lemma RetiredPoolShape(s: Snap, i: nat)
    requires Inv(s) && s.relaxed == 0 && i < |s.retired|
    ensures var p := s.retired[i];
            && p in s.views && HasPool(s.mem, p)
            && var bs := s.views[p].free;
            && ListFrom(s.mem, s.mem[p].freelist, bs) && ChainFrom(s.mem, s.mem[p].big, Bigs(bs))
            && (forall j, k :: 0 <= j < k < |bs| ==> End(bs[j]) < bs[k].at)
            && (forall j :: 0 <= j < |bs| ==> bs[j].size <= s.mem[p].maxFree)
  {
    hide Inv;
    RetiredLists(s, i);
    var p := s.retired[i];
    var bs := s.views[p].free;
    LinkedFrom(s.mem, bs);
    ChainedFrom(s.mem, bs);
    forall j, k | 0 <= j < k < |bs| ensures End(bs[j]) < bs[k].at { OrderedPair(bs, j, k); }
  }

  // ---------- owners ----------

  function Bit(b: bool): int { if b then 1 else 0 }

  /** Every mapping is the current pool, the spare, one retired pool, one parked mapping or
      one large block, and only one of these. */
  lemma OneOwnerEach(s: Snap, b: int)
    requires Inv(s) && s.loose == 0 && b in s.maps
    ensures Bit(b == s.pool) + Bit(b == s.pool1) + Bit(b in s.retired) + Bit(b in s.parked) + Bit(b in s.large) == 1
    ensures forall i, j :: 0 <= i < j < |s.retired| ==> s.retired[i] != s.retired[j]
  {
    Positive(s.maps, b);
    assert b in s.retired <==> b in SetOf(s.retired);
    assert b in s.large <==> b in s.large.Keys;
  }

  // ---------- the search ----------

  /** Walking a list from the front and keeping the first smallest block that will do; -1 if
      there is none. */
  function FullWalk(bs: seq<Block>, alloc: int): (k: int)
    ensures -1 <= k < |bs|
  {
    if bs == [] then -1
    else
      var r := FullWalk(Init(bs), alloc);
      if Usable(Last(bs), alloc) && (r < 0 || Last(bs).size < bs[r].size) then |bs| - 1 else r
  }

  /** All free blocks of the first n pools, one pool after the other. */
  function Flat(pools: seq<int>, lists: Lists, n: nat): seq<Block>
    requires n <= |pools| && forall j :: 0 <= j < n ==> pools[j] in lists
  {
    if n == 0 then [] else Flat(pools, lists, n - 1) + lists[pools[n - 1]]
  }

  lemma {:induction false} WalkIsPick(bs: seq<Block>, alloc: int)
    ensures FullWalk(bs, alloc) >= 0 ==> PickOf(bs, |bs|, alloc, FullWalk(bs, alloc))
    ensures FullWalk(bs, alloc) < 0 ==> NoUsable(bs, alloc)
  {
    if bs != [] {
      var init := Init(bs);
      WalkIsPick(init, alloc);
      forall i | 0 <= i < |init| ensures bs[i] == init[i] {}
    }
  }

  lemma PickIsUnique(bs: seq<Block>, alloc: int, j: nat, k: nat)
    requires PickOf(bs, |bs|, alloc, j) && PickOf(bs, |bs|, alloc, k)
    ensures j == k
  {
  }

  lemma {:induction false} FlatAt(pools: seq<int>, lists: Lists, n: nat, j: nat) returns (i: nat, k: nat)
    requires n <= |pools| && (forall l :: 0 <= l < n ==> pools[l] in lists) && j < |Flat(pools, lists, n)|
    ensures i < n && k < |lists[pools[i]]| && Flat(pools, lists, n)[j] == lists[pools[i]][k]
            && j == |Flat(pools, lists, i)| + k
    decreases n
  {
    var front := Flat(pools, lists, n - 1);
    if j < |front| { i, k := FlatAt(pools, lists, n - 1, j); } else { i, k := n - 1, j - |front|; }
  }

  lemma {:induction false} FlatIndex(pools: seq<int>, lists: Lists, n: nat, i: nat, k: nat)
    requires n <= |pools| && (forall l :: 0 <= l < n ==> pools[l] in lists) && i < n && k < |lists[pools[i]]|
    ensures |Flat(pools, lists, i)| + k < |Flat(pools, lists, n)|
            && Flat(pools, lists, n)[|Flat(pools, lists, i)| + k] == lists[pools[i]][k]
    decreases n
  {
    if i < n - 1 { FlatIndex(pools, lists, n - 1, i, k); }
  }

  lemma {:induction false} FlatGrows(pools: seq<int>, lists: Lists, i: nat, n: nat)
    requires i <= n <= |pools| && forall l :: 0 <= l < n ==> pools[l] in lists
    ensures |Flat(pools, lists, i)| <= |Flat(pools, lists, n)|
    decreases n
  {
    if i < n { FlatGrows(pools, lists, i, n - 1); }
  }

  lemma PicksAreListed(pools: seq<int>, lists: Lists, n: nat, alloc: int, i: nat, k: nat)
    requires PickOfAll(pools, lists, n, alloc, i, k)
    ensures forall l :: 0 <= l < n ==> pools[l] in lists
  {
  }

  /** The search over the chains picks the block that a walk of every free block of every
      retired pool would keep. */
  lemma BestFitIsFullWalk(pools: seq<int>, lists: Lists, n: nat, alloc: int, i: nat, k: nat)
    requires PickOfAll(pools, lists, n, alloc, i, k)
    ensures forall l :: 0 <= l < n ==> pools[l] in lists
    ensures var bs := Flat(pools, lists, n);
            FullWalk(bs, alloc) == |Flat(pools, lists, i)| + k && bs[FullWalk(bs, alloc)] == lists[pools[i]][k]
  {
    PicksAreListed(pools, lists, n, alloc, i, k);
    var bs, at := Flat(pools, lists, n), |Flat(pools, lists, i)| + k;
    FlatIndex(pools, lists, n, i, k);
    forall j | 0 <= j < |bs| && Usable(bs[j], alloc) ensures bs[at].size <= bs[j].size
    && (j < at ==> bs[at].size < bs[j].size) {
      PickedFirst(pools, lists, n, alloc, i, k, j);
    }
    assert PickOf(bs, |bs|, alloc, at);
    WalkIsPick(bs, alloc);
    PickIsUnique(bs, alloc, at, FullWalk(bs, alloc));
  }

  lemma PickedFirst(pools: seq<int>, lists: Lists, n: nat, alloc: int, i: nat, k: nat, j: nat)
    requires PickOfAll(pools, lists, n, alloc, i, k) && (forall l :: 0 <= l < n ==> pools[l] in lists)
    requires j < |Flat(pools, lists, n)| && Usable(Flat(pools, lists, n)[j], alloc)
    ensures lists[pools[i]][k].size <= Flat(pools, lists, n)[j].size
    ensures j < |Flat(pools, lists, i)| + k ==> lists[pools[i]][k].size < Flat(pools, lists, n)[j].size
  {
    var i', k' := FlatAt(pools, lists, n, j);
    assert AtLeast(lists[pools[i']], alloc, lists[pools[i]][k].size);
    if i' < i { assert MoreThan(lists[pools[i']], alloc, lists[pools[i]][k].size); }
    if i < i' {
      FlatGrows(pools, lists, i + 1, i');
      assert |Flat(pools, lists, i + 1)| == |Flat(pools, lists, i)| + |lists[pools[i]]|;
    }
  }

  lemma NothingToWalk(pools: seq<int>, lists: Lists, n: nat, alloc: int)
    requires NoneUsable(pools, lists, n, alloc)
    ensures FullWalk(Flat(pools, lists, n), alloc) == -1
  {
    var bs := Flat(pools, lists, n);
    WalkIsPick(bs, alloc);
    if FullWalk(bs, alloc) >= 0 {
      var i, k := FlatAt(pools, lists, n, FullWalk(bs, alloc));
      NoneThere(pools, lists, n, alloc, i, k);
    }
  }

  lemma NoneThere(pools: seq<int>, lists: Lists, n: nat, alloc: int, i: nat, k: nat)
    requires NoneUsable(pools, lists, n, alloc) && i < n && k < |lists[pools[i]]|
    ensures !Usable(lists[pools[i]][k], alloc)
  {
    assert NoUsable(lists[pools[i]], alloc);
  }
}
