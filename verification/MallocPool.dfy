/** What each operation does to one pool: handing a block out, taking it back, cutting it. */
module MallocPool {
  import opened MallocBlocks
  import opened MallocList
  import opened MallocTake
  import opened MallocSearch
  import opened MallocState
  import opened MallocSteps

  /** Nobody's bytes: x lies in the pool, below end, and overlaps no live or free block. */
  ghost predicate Unused(ms: int, end: int, v: View, x: Block) {
    && ms + MSET <= x.at && End(x) <= end && x.size > 0 && Apart(v.free, x)
    && forall at :: at in v.live ==> Clear(LiveBlock(v.live, at), x)
  }

  lemma StartsOutside(bs: seq<Block>, x: Block, a: int)
    requires Ordered(bs) && Apart(bs, x) && Starts(bs, a)
    ensures a < x.at || End(x) <= a
  {
    var i :| 0 <= i < |bs| && bs[i].at == a;
    OrderedAt(bs, i);
    assert Clear(bs[i], x);
  }

  // ---------- handing out ----------

  function Granted(m: Mem, ms: int, at: int, n: int): Mem
    requires HasPool(m, ms)
  {
    m[at := Header(at - ms, n)][ms := m[ms].(refs := m[ms].refs + 1)]
  }

  /** A pool's lists only depend on their heads and on the nodes. */
  lemma ListsKept(m: Mem, m': Mem, ms: int, bs: seq<Block>, current: bool)
    requires ListAt(m, ms, bs) && (!current ==> RetiredOk(m, ms, bs)) && HasPool(m', ms)
    requires m'[ms].freelist == m[ms].freelist && m'[ms].big == m[ms].big && m'[ms].maxFree == m[ms].maxFree
    requires forall a :: Starts(bs, a) ==> Same(m, m', a)
    ensures ListAt(m', ms, bs) && (!current ==> RetiredOk(m', ms, bs))
  {
    LinkedFrame(m, m', bs, 0);
    if !current { ChainedFrame(m, m', bs, 0); }
  }

  lemma LayoutGrant(ms: int, end: int, v: View, at: int, n: int)
    requires Layout(ms, end, v) && n >= 0 && Unused(ms, end, v, Block(at, BlockSize(n)))
    ensures Layout(ms, end, View(v.live[at := n], v.free)) && at !in v.live
  {
    BlockSizeBounds(n);
    forall a | a in v.live ensures a != at { BlockSizeBounds(v.live[a]); }
    var live' := v.live[at := n];
    forall a, b | a in live' && b in live' && a != b ensures Clear(LiveBlock(live', a), LiveBlock(live', b)) {
      if a in v.live && b in v.live { assert Clear(LiveBlock(v.live, a), LiveBlock(v.live, b)); }
    }
    forall a | a in live' ensures Apart(v.free, LiveBlock(live', a)) {}
  }

  lemma PayloadsOutside(m: Mem, m': Mem, ms: int, end: int, v: View, at: int, size: int, v': View)
    requires Layout(ms, end, v) && (forall a :: a in v.live ==> Clear(LiveBlock(v.live, a), Block(at, size)))
    requires size > 0 && SameBut3(m, m', ms, at, ms) && forall a :: a in v.live ==>
      a in v'.live && v'.live[a] == v.live[a]
    ensures PayloadsKept(m, m', v, v', 0)
    ensures forall a :: a in v.live ==> Same(m, m', a)
  {
    forall a | a in v.live ensures SameWithin(m, m', a + MHDR, a + MHDR + v.live[a]) && Same(m, m', a) {
      BlockSizeBounds(v.live[a]);
      assert Clear(LiveBlock(v.live, a), Block(at, size));
    }
  }

  /** Bytes nobody uses become a live block. */
  lemma GrantBlock(m: Mem, ms: int, len: int, v: View, current: bool, at: int, n: int)
    requires PoolOk(m, ms, len, v, current) && n >= 0 && Unused(ms, ms + m[ms].size, v, Block(at, BlockSize(n)))
    ensures var m', v' := Granted(m, ms, at, n), View(v.live[at := n], v.free);
            && PoolOk(m', ms, len, v', current) && PayloadsKept(m, m', v, v', 0) && SameOutside(m, m', ms, ms + len)
            && at !in v.live && m'[ms].nextPool == m[ms].nextPool
  {
    hide Layout, RetiredOk, Linked, Chained, Unused;
    var m', x := Granted(m, ms, at, n), Block(at, BlockSize(n));
    BlockSizeBounds(n);
    UnusedParts(m, ms, v, x);
    ListsKept(m, m', ms, v.free, current);
    LayoutGrant(ms, ms + m[ms].size, v, at, n);
    PayloadsOutside(m, m', ms, ms + m[ms].size, v, at, BlockSize(n), View(v.live[at := n], v.free));
  }

  lemma UnusedParts(m: Mem, ms: int, v: View, x: Block)
    requires HasPool(m, ms) && ListAt(m, ms, v.free) && Unused(ms, ms + m[ms].size, v, x)
    ensures forall a :: Starts(v.free, a) ==> a != ms && a != x.at
    ensures forall a :: a in v.live ==> Clear(LiveBlock(v.live, a), x)
    ensures ms + MSET <= x.at < ms + m[ms].size
  {
    NoStartBelow(v.free, ms);
    forall a | Starts(v.free, a) ensures a != x.at { StartsOutside(v.free, x, a); }
  }

  /** Raising the bump pointer. */
  lemma SizeRaised(m: Mem, ms: int, len: int, v: View, size: int)
    requires PoolOk(m, ms, len, v, true) && m[ms].size <= size <= len
    ensures PoolOk(m[ms := m[ms].(size := size)], ms, len, v, true)
    ensures forall x: Block :: ms + m[ms].size <= x.at && End(x) <= ms + size && x.size > 0 ==>
      Unused(ms, ms + size, v, x)
  {
    var m' := m[ms := m[ms].(size := size)];
    NoStartBelow(v.free, ms);
    ListsKept(m, m', ms, v.free, true);
    forall at | at in v.live ensures Same(m, m', at) { BlockSizeBounds(v.live[at]); }
  }

  // ---------- taking a free block off the list ----------

  lemma TakenAt(bs: seq<Block>, k: nat, alloc: int, i: nat) returns (j: nat)
    requires k < |bs| && 0 < alloc <= bs[k].size && i < |Taken(bs, k, alloc)|
    ensures j < |bs| && bs[j].at <= Taken(bs, k, alloc)[i].at && End(Taken(bs, k, alloc)[i]) == End(bs[j])
    ensures j == k ==> Taken(bs, k, alloc)[i] == Block(bs[k].at + alloc, bs[k].size - alloc)
    ensures j != k ==> Taken(bs, k, alloc)[i] == bs[j]
  {
    var r := |Rest(bs[k], alloc)|;
    j := if i < k then i else if i < k + r then k else i - r + 1;
  }

  /** What is taken off the list overlaps no live block and nothing left on the list. */
  lemma TakenUnused(ms: int, end: int, v: View, k: nat, alloc: int)
    requires Ordered(v.free) && Layout(ms, end, v) && k < |v.free| && 0 < alloc <= v.free[k].size
    ensures var v' := View(v.live, Taken(v.free, k, alloc));
            Layout(ms, end, v') && Unused(ms, end, v', Block(v.free[k].at, alloc))
  {
    var bs, out, x := v.free, Taken(v.free, k, alloc), Block(v.free[k].at, alloc);
    forall i | 0 <= i < |out| ensures ms + MSET <= out[i].at && End(out[i]) <= end && Clear(out[i], x) {
      var j := TakenAt(bs, k, alloc, i);
      if j < k { OrderedPair(bs, j, k); }
      if k < j { OrderedPair(bs, k, j); }
    }
    forall at | at in v.live ensures Apart(out, LiveBlock(v.live, at)) && Clear(LiveBlock(v.live, at), x) {
      assert Apart(bs, LiveBlock(v.live, at));
      forall i | 0 <= i < |out| ensures Clear(out[i], LiveBlock(v.live, at)) {
        var j := TakenAt(bs, k, alloc, i);
        assert Clear(bs[j], LiveBlock(v.live, at));
      }
      assert Clear(bs[k], LiveBlock(v.live, at));
    }
  }

  /** A list operation touches no live block: it writes the pool's record, free nodes and x. */
  lemma LiveUntouched(m: Mem, m': Mem, ms: int, end: int, v: View, x: int, live': map<int, int>, free': seq<Block>)
    requires Ordered(v.free) && Layout(ms, end, v) && SameElsewhere(m, m', ms, x, v.free)
    requires x == ms || forall at :: at in v.live ==> x < at || End(LiveBlock(v.live, at)) <= x
    requires forall at :: at in v.live ==> at in live' && live'[at] == v.live[at]
    ensures forall at :: at in v.live ==> Same(m, m', at)
    ensures PayloadsKept(m, m', v, View(live', free'), 0)
  {
    forall at | at in v.live ensures SameWithin(m, m', at, at + MHDR + v.live[at]) {
      BlockSizeBounds(v.live[at]);
      forall a | at <= a < at + MHDR + v.live[at] ensures Same(m, m', a) {
        if Starts(v.free, a) { StartsOutside(v.free, LiveBlock(v.live, at), a); }
      }
    }
    forall at | at in v.live ensures Same(m, m', at) { assert SameWithin(m, m', at, at + MHDR + v.live[at]); }
    forall at | at in v.live ensures SameWithin(m, m', at + MHDR, at + MHDR + v.live[at]) {
      assert SameWithin(m, m', at, at + MHDR + v.live[at]);
    }
  }

  lemma SpotClear(ms: int, end: int, v: View, k: nat, alloc: int)
    requires Layout(ms, end, v) && k < |v.free| && 0 < alloc <= v.free[k].size
    ensures var x := SplitSpot(ms, v.free[k], alloc); x == ms || forall at :: at in v.live ==>
      x < at || End(LiveBlock(v.live, at)) <= x
    ensures var x := SplitSpot(ms, v.free[k], alloc); x == ms || ms < x < end
  {
    forall at | at in v.live ensures Clear(v.free[k], LiveBlock(v.live, at)) {
      assert Apart(v.free, LiveBlock(v.live, at));
    }
  }

  lemma ElsewhereInside(m: Mem, m': Mem, ms: int, end: int, bs: seq<Block>, x: int)
    requires Ordered(bs) && Inside(bs, ms + MSET, end) && SameElsewhere(m, m', ms, x, bs) && ms <= x < end && ms < end
    ensures SameOutside(m, m', ms, end)
  {
    forall a | a < ms || end <= a ensures Same(m, m', a) {
      if Starts(bs, a) { StartsInside(bs, ms + MSET, end, a); }
    }
  }

  /** A block came off the free list; its bytes are nobody's for now. */
  lemma TakenPool(m: Mem, m': Mem, ms: int, len: int, v: View, was: bool, current: bool, k: nat, alloc: int)
    requires PoolOk(m, ms, len, v, was) && k < |v.free| && 0 < alloc <= v.free[k].size && (was ==> current)
    requires ListAt(m', ms, Taken(v.free, k, alloc)) && (!current ==> RetiredOk(m', ms, Taken(v.free, k, alloc)))
    requires m'[ms] == m[ms].(freelist := m'[ms].freelist, big := m'[ms].big)
    requires SameElsewhere(m, m', ms, SplitSpot(ms, v.free[k], alloc), v.free)
    ensures var v' := View(v.live, Taken(v.free, k, alloc));
            && PoolOk(m', ms, len, v', current) && Unused(ms, ms + m'[ms].size, v', Block(v.free[k].at, alloc))
            && PayloadsKept(m, m', v, v', 0) && SameOutside(m, m', ms, ms + len)
  {
    hide Layout, RetiredOk, Linked, Chained, Unused, SameElsewhere;
    var end := ms + m[ms].size;
    TakenUnused(ms, end, v, k, alloc);
    SpotClear(ms, end, v, k, alloc);
    LiveUntouched(m, m', ms, end, v, SplitSpot(ms, v.free[k], alloc), v.live, Taken(v.free, k, alloc));
    LayoutParts(ms, end, v);
    ElsewhereInside(m, m', ms, end, v.free, SplitSpot(ms, v.free[k], alloc));
  }

  lemma LayoutParts(ms: int, end: int, v: View)
    requires Layout(ms, end, v)
    ensures Inside(v.free, ms + MSET, end) && LiveInside(v.live, ms + MSET, end)
  {
  }
}
