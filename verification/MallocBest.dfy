/** The retired pools' chains of big blocks: building one when a pool retires, and the
    best-fit search that walks only them. */
module MallocBest {
  import opened MallocBlocks
  import opened MallocList
  import opened MallocFree

  // ---------- building the chain ----------

  /** Writing through a pointer to the chain's link after big block tail, or to the chain's
      head if that is 0. */
  function WithChainLink(m: Mem, ms: int, tail: int, to: int): Mem
    requires if tail == 0 then HasPool(m, ms) else HasNode(m, tail)
  {
    if tail == 0 then m[ms := m[ms].(big := to)] else WithBig(m, tail, to)
  }

  /** The chain of the first blocks, with its last link still to be set. */
  ghost predicate ChainSoFar(m: Mem, ms: int, bs: seq<Block>, t: int) {
    HasPool(m, ms) && m[ms].big == FirstBig(bs, t) && Chained(m, bs, t)
  }

  lemma Relay(m: Mem, ms: int, bs: seq<Block>, t: int, to: int)
    requires Ordered(bs) && Above(bs, ms) && ChainSoFar(m, ms, bs, t)
    ensures if LastBig(bs) == 0 then HasPool(m, ms) else HasNode(m, LastBig(bs)) && Starts(bs, LastBig(bs))
    ensures ChainSoFar(WithChainLink(m, ms, LastBig(bs), to), ms, bs, to)
  {
    if LastBig(bs) == 0 {
      NoBigLeadsOn(m, bs, t, to);
      NoStartBelow(bs, ms);
      ChainedFrame(m, WithChainLink(m, ms, 0, to), bs, to);
    } else {
      Rechain(m, bs, t, to);
    }
  }

  /** One more block behind the chain. */
  lemma ChainMore(m: Mem, ms: int, bs: seq<Block>, b: Block, t: int)
    requires HasNode(m, b.at) && ChainSoFar(m, ms, bs, if Big(b) then b.at else t)
    ensures ChainSoFar(m, ms, bs + [b], if Big(b) then m[b.at].nextBig else t)
  {
    var t' := if Big(b) then m[b.at].nextBig else t;
    ChainedOne(m, b, t');
    ChainedJoin(m, bs, [b], t');
    FirstBigJoin(bs, [b], t');
  }

  lemma PrefixStarts(bs: seq<Block>, j: nat, a: int)
    requires j <= |bs| && Starts(bs[..j], a)
    ensures Starts(bs, a)
  {
    var i :| 0 <= i < j && bs[..j][i].at == a;
    assert bs[i].at == a;
  }

  /** The write keeps the free list. */
  lemma ChainLinkKeeps(m: Mem, ms: int, bs: seq<Block>, j: nat, to: int)
    requires ListAt(m, ms, bs) && j <= |bs|
    requires var tail := LastBig(bs[..j]); tail == 0 || (HasNode(m, tail) && Starts(bs[..j], tail))
    ensures var m' := WithChainLink(m, ms, LastBig(bs[..j]), to);
            ListAt(m', ms, bs) && m'[ms] == m[ms].(big := m'[ms].big) && SameElsewhere(m, m', ms, ms, bs)
  {
    var tail := LastBig(bs[..j]);
    var m' := WithChainLink(m, ms, tail, to);
    if tail == 0 {
      NoStartBelow(bs, ms);
      LinkedFrame(m, m', bs, 0);
    } else {
      PrefixStarts(bs, j, tail);
      LinkedKeep(m, m', bs, 0);
    }
  }

  /** The chain of a pool that retires, from its free list. */
  method BuildChain(memory: Memory, ms: int, ghost bs: seq<Block>)
    requires ListAt(memory.mem, ms, bs)
    modifies memory
    ensures ListAt(memory.mem, ms, bs) && ChainAt(memory.mem, ms, bs)
    ensures memory.mem[ms] == old(memory.mem)[ms].(big := memory.mem[ms].big)
    ensures SameElsewhere(old(memory.mem), memory.mem, ms, ms, bs)
  {
    var fn, tail := memory.mem[ms].freelist, 0;
    ghost var j: nat, t := 0, memory.mem[ms].big;
    assert bs[0..] == bs;
    while fn != 0
      invariant j <= |bs| && fn == Front(bs[j..], 0) && tail == LastBig(bs[..j])
      invariant ListAt(memory.mem, ms, bs) && ChainSoFar(memory.mem, ms, bs[..j], t)
      invariant memory.mem[ms] == old(memory.mem)[ms].(big := memory.mem[ms].big)
      invariant SameElsewhere(old(memory.mem), memory.mem, ms, ms, bs)
      decreases |bs| - j
    {
      LinkedAt(memory.mem, bs, 0, j);
      LastBigSnoc(bs, j);
      PrefixOk(ms, bs, j);
      if memory.mem[fn].blockSize >= RETIRED_FIT_MIN {
        ghost var m := memory.mem;
        Relay(memory.mem, ms, bs[..j], t, fn);
        ChainLinkKeeps(memory.mem, ms, bs, j, fn);
        memory.mem := WithChainLink(memory.mem, ms, tail, fn);
        LinkedAt(memory.mem, bs, 0, j);
        tail := fn;
        ChainMore(memory.mem, ms, bs[..j], bs[j], t);
        t := memory.mem[fn].nextBig;
      } else {
        ChainMore(memory.mem, ms, bs[..j], bs[j], t);
      }
      assert bs[..j + 1] == bs[..j] + [bs[j]];
      fn := memory.mem[fn].next;
      j := j + 1;
    }
    if j < |bs| { OrderedAt(bs, j); }
    assert bs[..j] == bs;
    Relay(memory.mem, ms, bs, t, 0);
    ChainLinkKeeps(memory.mem, ms, bs, |bs|, 0);
    memory.mem := WithChainLink(memory.mem, ms, tail, 0);
  }

  lemma PrefixOk(ms: int, bs: seq<Block>, j: nat)
    requires Ordered(bs) && Above(bs, ms) && j <= |bs|
    ensures Ordered(bs[..j]) && Above(bs[..j], ms)
  {
    assert bs == bs[..j] + bs[j..];
    OrderedParts(bs[..j], bs[j..]);
  }
}
