/** Handing out free blocks: block_fits, take_block and the first-fit freelist_take. */
module MallocTake {
  import opened MallocBlocks
  import opened MallocList
  import opened MallocFree

  /** Blocks whose user pointer would be page-aligned are passed over. */
  predicate Usable(b: Block, alloc: int) { b.size >= alloc && (b.at + MHDR) % PGSIZE != 0 }

  /** What is left of a block after alloc bytes are handed out, if it can be a block itself. */
  function Rest(b: Block, alloc: int): seq<Block> {
    if b.size - alloc >= 2 * MHDR then [Block(b.at + alloc, b.size - alloc)] else []
  }

  /** Where what is left starts; ms, which changes anyway, when nothing is. */
  function SplitSpot(ms: int, b: Block, alloc: int): int { if Rest(b, alloc) == [] then ms else b.at + alloc }

  function Taken(bs: seq<Block>, k: nat, alloc: int): seq<Block>
    requires k < |bs|
  {
    bs[..k] + Rest(bs[k], alloc) + bs[k + 1..]
  }

  lemma SplitAt(m: Mem, ms: int, bs: seq<Block>, k: nat)
    requires ListAt(m, ms, bs) && k < |bs|
    ensures Linked3(m, ms, bs[..k], bs[k], bs[k + 1..]) && Fits(ms, bs[..k], bs[k], bs[k + 1..])
    ensures bs == bs[..k] + [bs[k]] + bs[k + 1..]
    ensures k > 0 ==> End(bs[k - 1]) < bs[k].at
    ensures k + 1 < |bs| ==> End(bs[k]) < bs[k + 1].at
  {
    var pre, post := bs[..k], bs[k + 1..];
    assert bs == pre + bs[k..] && bs[k..] == [bs[k]] + post;
    LinkedJoin(m, pre, bs[k..], 0);
    LinkedJoin(m, [bs[k]], post, 0);
    assert [bs[k]][1..] == [];
    OrderedAround(bs, k);
  }

  lemma OrderedAround(bs: seq<Block>, k: nat)
    requires Ordered(bs) && k < |bs|
    ensures Ordered(bs[..k]) && Ordered(bs[k + 1..]) && bs[k].at > 0 && bs[k].size > 0
    ensures k > 0 ==> End(bs[k - 1]) < bs[k].at && bs[0].at < bs[k].at
    ensures k + 1 < |bs| ==> End(bs[k]) < bs[k + 1].at
  {
    hide Ordered;
    var pre, post := bs[..k], bs[k + 1..];
    assert bs == pre + bs[k..] && bs[k..] == [bs[k]] + post;
    OrderedParts(pre, bs[k..]);
    OrderedParts([bs[k]], post);
    OrderedAt(bs, k);
    OrderedAt(bs, 0);
    if k > 0 {
      OrderedPair(bs, k - 1, k);
      OrderedPair(bs, 0, k);
    }
    if k + 1 < |bs| { OrderedPair(bs, k, k + 1); }
  }

  lemma JoinAbove(ms: int, pre: seq<Block>, post: seq<Block>)
    requires Above(pre, ms) && Above(post, ms)
    ensures Above(pre + post, ms)
  {
    if pre == [] { assert pre + post == post; } else { assert (pre + post)[0] == pre[0]; }
  }

  lemma LastOfJoin(pre: seq<Block>, post: seq<Block>)
    ensures post != [] ==> Last(pre + post) == Last(post)
    ensures post == [] ==> pre + post == pre
  {
  }

  lemma TakenIsOrdered(ms: int, bs: seq<Block>, k: nat, alloc: int)
    requires Ordered(bs) && Above(bs, ms) && k < |bs| && 0 < alloc <= bs[k].size
    ensures Ordered(Taken(bs, k, alloc)) && Above(Taken(bs, k, alloc), ms)
  {
    OrderedAround(bs, k);
    var pre, rest, post := bs[..k], Rest(bs[k], alloc), bs[k + 1..];
    OrderedJoin(pre, rest);
    LastOfJoin(pre, rest);
    OrderedJoin(pre + rest, post);
    JoinAbove(ms, pre, rest);
    JoinAbove(ms, pre + rest, post);
  }

  /** Handing out alloc bytes of block k takes just those bytes, or the whole block when what
      would be left is too small, off the list. */
  lemma TakenBytes(bs: seq<Block>, k: nat, alloc: int, a: int)
    requires Ordered(bs) && k < |bs| && 0 < alloc <= bs[k].size
    ensures Covers(Taken(bs, k, alloc), a) <==>
      Covers(bs, a) && !In(Block(bs[k].at, if Rest(bs[k], alloc) == [] then bs[k].size else alloc), a)
  {
    hide Ordered;
    var pre, rest, post := bs[..k], Rest(bs[k], alloc), bs[k + 1..];
    assert bs == pre + [bs[k]] + post;
    CoversParts(pre + [bs[k]], post, a);
    CoversParts(pre, [bs[k]], a);
    CoversOne(bs[k], a);
    CoversParts(pre + rest, post, a);
    CoversParts(pre, rest, a);
    if rest != [] { CoversOne(rest[0], a); }
    if In(bs[k], a) {
      if Covers(pre, a) {
        var i :| 0 <= i < |pre| && In(pre[i], a);
        OrderedPair(bs, i, k);
      }
      if Covers(post, a) {
        var i :| 0 <= i < |post| && In(post[i], a);
        OrderedPair(bs, k, k + 1 + i);
      }
    }
  }

  /** Relinking the list around what is left of b. */
  lemma Retaken(m: Mem, ms: int, pre: seq<Block>, b: Block, post: seq<Block>, alloc: int, junk: int, size: int)
    requires Fits(ms, pre, b, post) && Linked3(m, ms, pre, b, post) && 0 < alloc <= b.size
    requires size == if Rest(b, alloc) == [] then b.size else alloc
    ensures if LastAt(pre) == 0 then HasPool(m, ms) else HasNode(m, LastAt(pre))
    ensures var rest := Rest(b, alloc);
            var m1 := m[b.at := m[b.at].(blockSize := size)];
            var m2 := if rest == [] then m1 else m1[rest[0].at := Node(Front(post, 0), rest[0].size, junk)];
            && (if LastAt(pre) == 0 then HasPool(m2, ms) else HasNode(m2, LastAt(pre)))
            && var m3 := WithLink(m2, ms, LastAt(pre), Front(rest + post, 0));
            && HasPool(m3, ms) && m3[ms].freelist == Front(pre + (rest + post), 0) && Linked(m3, pre + (rest + post), 0)
  {
    var rest := Rest(b, alloc);
    NotAmong(ms, pre, b, post);
    if rest != [] { NotAmong(ms, pre, rest[0], post); }
    if pre != [] { Relink(m, pre, b.at, b.at); }
    var m1 := m[b.at := m[b.at].(blockSize := size)];
    var m2 := if rest == [] then m1 else m1[rest[0].at := Node(Front(post, 0), rest[0].size, junk)];
    LinkedFrame(m, m2, pre, b.at);
    LinkedFrame(m, m2, post, 0);
    var to := Front(rest + post, 0);
    if pre != [] { Relink(m2, pre, b.at, to); }
    var m3 := WithLink(m2, ms, LastAt(pre), to);
    LinkedFrame(m2, m3, post, 0);
    if rest != [] { assert rest[1..] == []; }
    LinkedJoin(m3, rest, post, 0);
    LinkedJoin(m3, pre, rest + post, 0);
  }

  /** Unlinks the block after prevNode, putting what alloc does not need back in its place.
      The chain of big blocks is the caller's to keep. */
  method TakeBlock(memory: Memory, ms: int, prevNode: int, alloc: int, ghost pre: seq<Block>, ghost b: Block,
                   ghost post: seq<Block>)
    returns (fn: int)
    requires Fits(ms, pre, b, post) && Linked3(memory.mem, ms, pre, b, post) && prevNode == LastAt(pre)
    requires 0 < alloc <= b.size
    modifies memory
    ensures fn == b.at
    ensures var rest := Rest(b, alloc);
            && HasPool(memory.mem, ms) && memory.mem[ms].freelist == Front(pre + (rest + post), 0)
            && Linked(memory.mem, pre + (rest + post), 0)
    ensures memory.mem[ms] == old(memory.mem)[ms].(freelist := memory.mem[ms].freelist)
    ensures forall a :: a != ms && (prevNode == 0 || a != prevNode) && a != b.at && a != SplitSpot(ms, b, alloc) ==>
      Same(old(memory.mem), memory.mem, a)
    ensures forall a :: HasNode(old(memory.mem), a) && !In(b, a) ==>
      HasNode(memory.mem, a) && memory.mem[a].nextBig == old(memory.mem)[a].nextBig
    ensures HasNode(memory.mem, b.at)
  {
    hide Linked, Ordered;
    NotAmong(ms, pre, b, post);
    var junk: int := *;
    Retaken(memory.mem, ms, pre, b, post, alloc, junk, if Rest(b, alloc) == [] then b.size else alloc);
    fn := if prevNode == 0 then memory.mem[ms].freelist else memory.mem[prevNode].next;
    if pre != [] { Relink(memory.mem, pre, b.at, b.at); }
    var remainder := memory.mem[fn].blockSize - alloc;
    var next := memory.mem[fn].next;
    ghost var m := memory.mem;
    if remainder >= 2 * MHDR {
      var split := fn + alloc;
      memory.mem := memory.mem[fn := memory.mem[fn].(blockSize := alloc)][split := Node(next, remainder, junk)];
      next := split;
    } else {
      assert m[fn := m[fn].(blockSize := b.size)] == m;
    }
    memory.mem := WithLink(memory.mem, ms, prevNode, next);
  }

  /** The first block that will do, taken off the pool's list; 0 if there is none. */
  method FreelistTake(memory: Memory, ms: int, alloc: int, ghost bs: seq<Block>) returns (fn: int, ghost k: nat)
    requires ListAt(memory.mem, ms, bs) && alloc > 0
    modifies memory
    ensures fn == 0 ==> memory.mem == old(memory.mem) && forall i :: 0 <= i < |bs| ==> !Usable(bs[i], alloc)
    ensures fn != 0 ==>
      && k < |bs| && fn == bs[k].at && Usable(bs[k], alloc) && (forall i :: 0 <= i < k ==> !Usable(bs[i], alloc))
      && ListAt(memory.mem, ms, Taken(bs, k, alloc))
      && memory.mem[ms] == old(memory.mem)[ms].(freelist := memory.mem[ms].freelist)
      && SameElsewhere(old(memory.mem), memory.mem, ms, SplitSpot(ms, bs[k], alloc), bs)
  {
    var prevNode;
    prevNode, fn, k := 0, memory.mem[ms].freelist, 0;
    assert bs[0..] == bs;
    while fn != 0
      invariant k <= |bs| && prevNode == LastAt(bs[..k]) && fn == Front(bs[k..], 0)
      invariant memory.mem == old(memory.mem)
      invariant forall i :: 0 <= i < k ==> !Usable(bs[i], alloc)
      decreases |bs| - k
    {
      LinkedAt(memory.mem, bs, 0, k);
      if memory.mem[fn].blockSize >= alloc && (fn + MHDR) % PGSIZE != 0 {
        ghost var m := memory.mem;
        ghost var pre, rest, post := bs[..k], Rest(bs[k], alloc), bs[k + 1..];
        SplitAt(memory.mem, ms, bs, k);
        fn := TakeBlock(memory, ms, prevNode, alloc, pre, bs[k], post);
        TakenIsOrdered(ms, bs, k, alloc);
        assert Taken(bs, k, alloc) == pre + (rest + post);
        TakenFrame(m, memory.mem, ms, bs, k, alloc);
        return;
      }
      prevNode := fn;
      fn := memory.mem[fn].next;
      k := k + 1;
    }
    if k < |bs| { OrderedAt(bs, k); }
  }

  lemma TakenFrame(m: Mem, m': Mem, ms: int, bs: seq<Block>, k: nat, alloc: int)
    requires k < |bs|
    requires forall a ::
      a != ms && (LastAt(bs[..k]) == 0 || a != LastAt(bs[..k])) && a != bs[k].at && a != SplitSpot(ms, bs[k], alloc)
      ==> Same(m, m', a)
    ensures SameElsewhere(m, m', ms, SplitSpot(ms, bs[k], alloc), bs)
  {
    assert Starts(bs, bs[k].at);
    if k > 0 { assert bs[k - 1].at == LastAt(bs[..k]); }
  }
}
