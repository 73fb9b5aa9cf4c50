/** Taking the block that the best-fit search picked out of its retired pool. */
module MallocServe {
  import opened MallocBlocks
  import opened MallocList
  import opened MallocFree
  import opened MallocTake
  import opened MallocBest
  import opened MallocSearch

  lemma {:induction false} LastBigIndex(bs: seq<Block>) returns (i: nat)
    requires Ordered(bs) && LastBig(bs) != 0
    ensures i < |bs| && bs[i].at == LastBig(bs)
    decreases |bs|
  {
    if Big(Last(bs)) { return |bs| - 1; }
    assert bs == Init(bs) + [Last(bs)];
    OrderedParts(Init(bs), [Last(bs)]);
    i := LastBigIndex(Init(bs));
  }

  /** The node before block k, found from the chained block before it. */
  method FindPrev(memory: Memory, ms: int, best: int, bestBefore: int, ghost bs: seq<Block>,
                  ghost k: nat) returns (prevNode: int)
    requires ListAt(memory.mem, ms, bs) && k < |bs| && best == bs[k].at && bestBefore == LastBig(bs[..k])
    ensures prevNode == LastAt(bs[..k])
  {
    ghost var l: nat := 0;
    PrefixOk(ms, bs, k);
    if bestBefore != 0 {
      l := LastBigIndex(bs[..k]);
      l := l + 1;
      LinkedAt(memory.mem, bs, 0, l - 1);
      assert bs[..k][l - 1] == bs[l - 1];
    } else {
      assert bs[0..] == bs;
    }
    prevNode := bestBefore;
    var cur := if bestBefore != 0 then memory.mem[bestBefore].next else memory.mem[ms].freelist;
    while cur != best
      invariant l <= k && prevNode == LastAt(bs[..l]) && cur == bs[l].at
      decreases k - l
    {
      LinkedAt(memory.mem, bs, 0, l);
      prevNode := cur;
      cur := memory.mem[cur].next;
      l := l + 1;
    }
    if l < k { OrderedPair(bs, l, k); OrderedAt(bs, l); }
  }

  /** The chain pointers of what is left: everything before b still leads to b, what follows
      is whole. */
  lemma ChainAround(m: Mem, m': Mem, ms: int, bs: seq<Block>, k: nat)
    requires ListAt(m, ms, bs) && ChainAt(m, ms, bs) && k < |bs| && Big(bs[k])
    requires forall a :: HasNode(m, a) && !In(bs[k], a) ==> HasNode(m', a) && m'[a].nextBig == m[a].nextBig
    requires HasPool(m', ms) && m'[ms].big == m[ms].big
    ensures HasNode(m, bs[k].at) && m[bs[k].at].nextBig == FirstBig(bs[k + 1..], 0)
    ensures ChainSoFar(m', ms, bs[..k], bs[k].at) && Chained(m', bs[k + 1..], 0)
  {
    var pre, post := bs[..k], bs[k + 1..];
    assert bs == pre + bs[k..] && bs[k..] == [bs[k]] + post && bs[k..][1..] == post;
    ChainedJoin(m, pre, bs[k..], 0);
    FirstBigJoin(pre, bs[k..], 0);
    forall i | 0 <= i < |pre| ensures !In(bs[k], pre[i].at) { OrderedPair(bs, i, k); OrderedAt(bs, i); }
    forall i | 0 <= i < |post| ensures !In(bs[k], post[i].at) { OrderedPair(bs, k, k + 1 + i); }
    ChainedOutside(m, m', pre, bs[k].at, bs[k]);
    ChainedOutside(m, m', post, 0, bs[k]);
  }

  lemma {:induction false} ChainedOutside(m: Mem, m': Mem, bs: seq<Block>, to: int, b: Block)
    requires Chained(m, bs, to) && forall i :: 0 <= i < |bs| ==> !In(b, bs[i].at)
    requires forall a :: HasNode(m, a) && !In(b, a) ==> HasNode(m', a) && m'[a].nextBig == m[a].nextBig
    ensures Chained(m', bs, to)
  {
    if bs != [] {
      forall i | 0 <= i < |bs[1..]| ensures !In(b, bs[1..][i].at) { assert bs[1..][i] == bs[i + 1]; }
      ChainedOutside(m, m', bs[1..], to, b);
    }
  }

  /** The record whose chain link is set again starts no other block. */
  lemma LinkApart(m: Mem, ms: int, pre: seq<Block>, b: Block, rest: seq<Block>, post: seq<Block>, link: int)
    requires Fits(ms, pre, b, post) && (rest == [] || (|rest| == 1 && In(b, rest[0].at)))
    requires if LastBig(pre) == 0 then HasPool(m, ms) else HasNode(m, LastBig(pre)) && Starts(pre, LastBig(pre))
    ensures forall a :: Starts(rest, a) || Starts(post, a) ==> Same(m, WithChainLink(m, ms, LastBig(pre), link), a)
  {
    hide Chained, FirstBig, LastBig, Ordered;
    NotAmong(ms, pre, b, post);
    if LastBig(pre) != 0 { PreApart(ms, pre, b, post, LastBig(pre)); }
  }

  /** Closing the chain around what is left of b. */
  lemma ChainClosed(m: Mem, ms: int, pre: seq<Block>, b: Block, rest: seq<Block>, post: seq<Block>)
    requires Fits(ms, pre, b, post) && ChainSoFar(m, ms, pre, b.at) && Chained(m, rest, FirstBig(post, 0))
             && Chained(m, post, 0)
    requires rest == [] || (|rest| == 1 && In(b, rest[0].at))
    ensures var link := FirstBig(rest, FirstBig(post, 0));
            && (if LastBig(pre) == 0 then HasPool(m, ms) else HasNode(m, LastBig(pre)))
            && ChainAt(WithChainLink(m, ms, LastBig(pre), link), ms, pre + (rest + post))
  {
    hide Chained, FirstBig, LastBig, Ordered, Starts, Same, WithChainLink;
    var link := FirstBig(rest, FirstBig(post, 0));
    Relay(m, ms, pre, b.at, link);
    var m' := WithChainLink(m, ms, LastBig(pre), link);
    LinkApart(m, ms, pre, b, rest, post, link);
    ChainedFrame(m, m', post, 0);
    ChainedFrame(m, m', rest, FirstBig(post, 0));
    ChainedJoin(m', rest, post, 0);
    FirstBigJoin(rest, post, 0);
    ChainedJoin(m', pre, rest + post, 0);
    FirstBigJoin(pre, rest + post, 0);
  }

  lemma TakenStaysBounded(bs: seq<Block>, k: nat, alloc: int, limit: int)
    requires k < |bs| && 0 < alloc && Bounded(bs, limit)
    ensures Bounded(Taken(bs, k, alloc), limit)
  {
    var out, r := Taken(bs, k, alloc), |Rest(bs[k], alloc)|;
    forall i | 0 <= i < |out| ensures out[i].size <= limit {
      if i < k { assert out[i] == bs[i]; } else if i >= k + r { assert out[i] == bs[i - r + 1]; }
    }
  }

  /** What *prev holds once the block after prevNode has been taken. */
  lemma AfterPrev(m: Mem, ms: int, pre: seq<Block>, tail: seq<Block>)
    requires HasPool(m, ms) && m[ms].freelist == Front(pre + tail, 0) && Linked(m, pre + tail, 0)
    ensures pre != [] ==> HasNode(m, Last(pre).at) && m[Last(pre).at].next == Front(tail, 0)
    ensures pre == [] ==> m[ms].freelist == Front(tail, 0)
    ensures tail != [] ==> HasNode(m, tail[0].at)
  {
    LinkedJoin(m, pre, tail, 0);
    if pre != [] { LinkedAt(m, pre, Front(tail, 0), |pre| - 1); }
  }

  /** Points what was split off, if it is big, at the big block after it; link is where the
      big block before must lead. */
  method MarkSplit(memory: Memory, ms: int, alloc: int, prevNode: int, after: int, remainder: int,
                   ghost pre: seq<Block>, ghost b: Block, ghost post: seq<Block>)
    returns (link: int)
    requires Fits(ms, pre, b, post) && 0 < alloc <= b.size && remainder == b.size - alloc
    requires HasPool(memory.mem, ms) && prevNode == LastAt(pre) && after == FirstBig(post, 0)
    requires var l := pre + (Rest(b, alloc) + post); memory.mem[ms].freelist == Front(l, 0) && Linked(memory.mem, l, 0)
    requires ChainSoFar(memory.mem, ms, pre, b.at) && Chained(memory.mem, post, 0)
    modifies memory
    ensures ChainSoFar(memory.mem, ms, pre, b.at) && Chained(memory.mem, post, 0)
    ensures Chained(memory.mem, Rest(b, alloc), after) && link == FirstBig(Rest(b, alloc), after)
    ensures OnlyBig(old(memory.mem), memory.mem) && forall a :: a != SplitSpot(ms, b, alloc) ==>
      Same(old(memory.mem), memory.mem, a)
    ensures HasPool(memory.mem, ms) && memory.mem[ms] == old(memory.mem)[ms]
  {
    ghost var rest := Rest(b, alloc);
    ghost var m1 := memory.mem;
    link := after;
    NotAmong(ms, pre, b, post);
    AfterPrev(m1, ms, pre, rest + post);
    if remainder >= RETIRED_FIT_MIN {
      link := if prevNode != 0 then memory.mem[prevNode].next else memory.mem[ms].freelist;
      memory.mem := WithBig(memory.mem, link, after);
      NotAmong(ms, pre, rest[0], post);
      ChainedFrame(m1, memory.mem, pre, b.at);
      ChainedFrame(m1, memory.mem, post, 0);
    }
    if rest != [] { ChainedOne(memory.mem, rest[0], after); assert rest == [rest[0]]; }
  }

  /** Repairs the chain around what is left of the block that was taken. */
  method ChainTaken(memory: Memory, ms: int, alloc: int, prevNode: int, bestBefore: int, after: int, remainder: int,
                    ghost pre: seq<Block>, ghost b: Block, ghost post: seq<Block>)
    requires Fits(ms, pre, b, post) && 0 < alloc <= b.size && remainder == b.size - alloc
    requires HasPool(memory.mem, ms) && prevNode == LastAt(pre) && bestBefore == LastBig(pre)
             && after == FirstBig(post, 0)
    requires ListAt(memory.mem, ms, pre + (Rest(b, alloc) + post))
    requires ChainSoFar(memory.mem, ms, pre, b.at) && Chained(memory.mem, post, 0)
    modifies memory
    ensures var l := pre + (Rest(b, alloc) + post); ListAt(memory.mem, ms, l) && ChainAt(memory.mem, ms, l)
    ensures memory.mem[ms] == old(memory.mem)[ms].(big := memory.mem[ms].big)
    ensures forall a :: a != ms && (bestBefore == 0 || a != bestBefore) && a != SplitSpot(ms, b, alloc) ==>
      Same(old(memory.mem), memory.mem, a)
  {
    ghost var rest := Rest(b, alloc);
    ghost var l := pre + (rest + post);
    ghost var m1 := memory.mem;
    var link := MarkSplit(memory, ms, alloc, prevNode, after, remainder, pre, b, post);
    ghost var m2 := memory.mem;
    ChainClosed(m2, ms, pre, b, rest, post);
    memory.mem := WithChainLink(memory.mem, ms, bestBefore, link);
    ListKept(m1, m2, memory.mem, ms, l, bestBefore);
    forall a | a != ms && (bestBefore == 0 || a != bestBefore)
    && a != SplitSpot(ms, b, alloc) ensures Same(m1, memory.mem, a) {
      assert Same(m1, m2, a);
    }
  }

  lemma ListKept(m1: Mem, m2: Mem, m3: Mem, ms: int, l: seq<Block>, tail: int)
    requires ListAt(m1, ms, l) && OnlyBig(m1, m2) && HasPool(m2, ms) && m2[ms] == m1[ms]
    requires if tail == 0 then HasPool(m3, ms) && m3 == m2[ms := m2[ms].(big := m3[ms].big)]
      else OnlyBig(m2, m3) && HasPool(m3, ms) && m3[ms] == m2[ms]
    ensures ListAt(m3, ms, l)
  {
    LinkedKeep(m1, m2, l, 0);
    if tail == 0 {
      NoStartBelow(l, ms);
      LinkedFrame(m2, m3, l, 0);
    } else {
      LinkedKeep(m2, m3, l, 0);
    }
  }

  /** The second half of old_pool_best_fit. */
  method TakeBest(memory: Memory, ms: int, alloc: int, best: int, bestBefore: int, ghost bs: seq<Block>, ghost k: nat)
    requires RetiredOk(memory.mem, ms, bs) && k < |bs| && RETIRED_FIT_MIN <= alloc <= bs[k].size
    requires best == bs[k].at && bestBefore == LastBig(bs[..k])
    modifies memory
    ensures RetiredOk(memory.mem, ms, Taken(bs, k, alloc))
    ensures var p, p' := old(memory.mem)[ms], memory.mem[ms]; p' == p.(freelist := p'.freelist, big := p'.big)
    ensures SameElsewhere(old(memory.mem), memory.mem, ms, SplitSpot(ms, bs[k], alloc), bs)
  {
    ghost var pre, b, rest, post := bs[..k], bs[k], Rest(bs[k], alloc), bs[k + 1..];
    ghost var m0 := memory.mem;
    SplitAt(memory.mem, ms, bs, k);
    var prevNode := FindPrev(memory, ms, best, bestBefore, bs, k);
    LinkedAt(memory.mem, bs, 0, k);
    var after := memory.mem[best].nextBig;
    var remainder := memory.mem[best].blockSize - alloc;
    var fn := TakeBlock(memory, ms, prevNode, alloc, pre, b, post);
    ghost var m1 := memory.mem;
    TakenFrame(m0, m1, ms, bs, k, alloc);
    ChainAround(m0, m1, ms, bs, k);
    TakenIsOrdered(ms, bs, k, alloc);
    assert Taken(bs, k, alloc) == pre + (rest + post);
    ChainTaken(memory, ms, alloc, prevNode, bestBefore, after, remainder, pre, b, post);
    TakenStaysBounded(bs, k, alloc, m0[ms].maxFree);
    TakenFrame2(m0, m1, memory.mem, ms, bs, k, alloc);
  }

  lemma TakenFrame2(m0: Mem, m1: Mem, m2: Mem, ms: int, bs: seq<Block>, k: nat, alloc: int)
    requires Ordered(bs) && Above(bs, ms) && k < |bs| && SameElsewhere(m0, m1, ms, SplitSpot(ms, bs[k], alloc), bs)
    requires var t := LastBig(bs[..k]);
      forall a :: a != ms && (t == 0 || a != t) && a != SplitSpot(ms, bs[k], alloc) ==> Same(m1, m2, a)
    ensures SameElsewhere(m0, m2, ms, SplitSpot(ms, bs[k], alloc), bs)
  {
    if LastBig(bs[..k]) != 0 {
      PrefixOk(ms, bs, k);
      var i := LastBigIndex(bs[..k]);
      assert bs[i].at == LastBig(bs[..k]);
    }
    forall a | a != ms && a != SplitSpot(ms, bs[k], alloc) && !Starts(bs, a) ensures Same(m0, m2, a) {
      assert Same(m0, m1, a) && Same(m1, m2, a);
    }
  }
}
