/** old_pool_best_fit: the tightest free block of all retired pools, found by walking only
    their big blocks. */
module MallocSearch {
  import opened MallocBlocks
  import opened MallocList
  import opened MallocFree
  import opened MallocTake

  function PoolAt(pools: seq<int>, i: nat): int { if i < |pools| then pools[i] else 0 }

  /** The list of retired pools that starts at first. */
  ghost predicate Retired(m: Mem, first: int, pools: seq<int>) {
    && first == PoolAt(pools, 0)
    && (forall i :: 0 <= i < |pools| ==>
        pools[i] > 0 && HasPool(m, pools[i]) && m[pools[i]].nextPool == PoolAt(pools, i + 1))
    && (forall i, j :: 0 <= i < j < |pools| ==> pools[i] != pools[j])
  }

  ghost predicate Bounded(bs: seq<Block>, limit: int) { forall i :: 0 <= i < |bs| ==> bs[i].size <= limit }

  /** A retired pool's free list, chain of big blocks and bound on block sizes. */
  ghost predicate RetiredOk(m: Mem, p: int, bs: seq<Block>) {
    ListAt(m, p, bs) && ChainAt(m, p, bs) && Bounded(bs, m[p].maxFree)
  }

  type Lists = map<int, seq<Block>>

  ghost predicate AllRetiredOk(m: Mem, pools: seq<int>, lists: Lists) {
    forall i :: 0 <= i < |pools| ==> pools[i] in lists && RetiredOk(m, pools[i], lists[pools[i]])
  }

  /** No pool's record lies where another pool's list has a node. */
  ghost predicate RecordsApart(pools: seq<int>, lists: Lists) {
    forall p, q :: p in pools && q in pools && q in lists ==> !Starts(lists[q], p)
  }

  // ---------- the pick ----------

  /** Block k is the smallest usable one of the first n, the first of those. */
  ghost predicate PickOf(bs: seq<Block>, n: nat, alloc: int, k: nat) {
    && k < n <= |bs| && Usable(bs[k], alloc)
    && (forall i :: 0 <= i < n && Usable(bs[i], alloc) ==> bs[k].size <= bs[i].size)
    && (forall i :: 0 <= i < k && Usable(bs[i], alloc) ==> bs[k].size < bs[i].size)
  }

  /** No usable block among the first n is below the cap; cap 0 stands for none. */
  ghost predicate NothingBelow(bs: seq<Block>, n: nat, alloc: int, cap: int) {
    n <= |bs| && forall i :: 0 <= i < n && Usable(bs[i], alloc) ==> cap != 0 && cap <= bs[i].size
  }

  /** Every usable block has at least, or more than, the given size. */
  ghost predicate AtLeast(bs: seq<Block>, alloc: int, size: int) {
    forall l :: 0 <= l < |bs| && Usable(bs[l], alloc) ==> size <= bs[l].size
  }

  ghost predicate MoreThan(bs: seq<Block>, alloc: int, size: int) {
    forall l :: 0 <= l < |bs| && Usable(bs[l], alloc) ==> size < bs[l].size
  }

  ghost predicate NoUsable(bs: seq<Block>, alloc: int) { forall l :: 0 <= l < |bs| ==> !Usable(bs[l], alloc) }

  /** The pick over the first n pools: block k of pool i. Every usable block is at least as
      large, and those that come before it are larger. */
  ghost predicate PickOfAll(pools: seq<int>, lists: Lists, n: nat, alloc: int, i: nat, k: nat) {
    && i < n <= |pools| && pools[i] in lists && PickOf(lists[pools[i]], |lists[pools[i]]|, alloc, k)
    && (forall j :: 0 <= j < n ==> pools[j] in lists && AtLeast(lists[pools[j]], alloc, lists[pools[i]][k].size))
    && (forall j :: 0 <= j < i ==> MoreThan(lists[pools[j]], alloc, lists[pools[i]][k].size))
  }

  ghost predicate NoneUsable(pools: seq<int>, lists: Lists, n: nat, alloc: int) {
    n <= |pools| && forall j :: 0 <= j < n ==> pools[j] in lists && NoUsable(lists[pools[j]], alloc)
  }

  // ---------- one pool ----------

  /** The first big block from index j on. */
  lemma {:induction false} NextBigIndex(m: Mem, bs: seq<Block>, j: nat) returns (k: nat)
    requires j <= |bs| && Ordered(bs)
    ensures j <= k <= |bs| && forall i :: j <= i < k ==> !Big(bs[i])
    ensures k < |bs| ==> Big(bs[k]) && FirstBig(bs[j..], 0) == bs[k].at && bs[k].at != 0
    ensures k == |bs| ==> FirstBig(bs[j..], 0) == 0
    ensures LastBig(bs[..k]) == LastBig(bs[..j])
    decreases |bs| - j
  {
    if j == |bs| { return j; }
    if Big(bs[j]) {
      OrderedAt(bs, j);
      return j;
    }
    k := NextBigIndex(m, bs, j + 1);
    assert bs[j..][1..] == bs[j + 1..];
    LastBigSnoc(bs, j);
  }

  lemma ChainedAt(m: Mem, bs: seq<Block>, k: nat)
    requires Chained(m, bs, 0) && k < |bs|
    ensures HasNode(m, bs[k].at) && (Big(bs[k]) ==> m[bs[k].at].nextBig == FirstBig(bs[k + 1..], 0))
  {
    assert bs == bs[..k] + bs[k..];
    ChainedJoin(m, bs[..k], bs[k..], 0);
    assert bs[k..][1..] == bs[k + 1..];
  }

  /** Where the search stands after the first n blocks: better says that block k beats the
      cap, and then it is the pick so far. */
  ghost predicate Scanned(bs: seq<Block>, n: nat, alloc: int, cap: int, better: bool, k: nat) {
    if better then PickOf(bs, n, alloc, k) && (cap != 0 ==> bs[k].size < cap) else NothingBelow(bs, n, alloc, cap)
  }

  lemma ScanBetter(bs: seq<Block>, n: nat, alloc: int, cap: int, better: bool, k: nat)
    requires Scanned(bs, n, alloc, cap, better, k) && n < |bs| && Usable(bs[n], alloc)
    requires if better then bs[n].size < bs[k].size else cap == 0 || bs[n].size < cap
    ensures Scanned(bs, n + 1, alloc, cap, true, n)
  {
  }

  lemma ScanPast(bs: seq<Block>, n: nat, n': nat, alloc: int, cap: int, better: bool, k: nat)
    requires Scanned(bs, n, alloc, cap, better, k) && n <= n' <= |bs|
    requires forall i :: n <= i < n' ==>
      !Usable(bs[i], alloc) || (if better then bs[k].size <= bs[i].size else cap != 0 && cap <= bs[i].size)
    ensures Scanned(bs, n', alloc, cap, better, k)
  {
  }

  lemma ScanStart(bs: seq<Block>, alloc: int, cap: int, largest: int)
    ensures Scanned(bs, 0, alloc, cap, false, 0) && Bounded(bs[..0], largest)
  {
  }

  lemma ScanNext(bs: seq<Block>, n: nat, alloc: int, cap: int, better: bool, k: nat)
    requires Scanned(bs, n, alloc, cap, better, k) && n < |bs| && (better ==> k < |bs|)
    requires !Usable(bs[n], alloc) || (if better then bs[k].size <= bs[n].size else cap != 0 && cap <= bs[n].size)
    ensures Scanned(bs, n + 1, alloc, cap, better, k)
  {
  }

  /** Blocks that are not big cannot serve. */
  lemma ScanSmall(bs: seq<Block>, n: nat, n': nat, alloc: int, cap: int, better: bool, k: nat, largest: int)
    requires Scanned(bs, n, alloc, cap, better, k) && n <= n' <= |bs| && alloc >= RETIRED_FIT_MIN
    requires Bounded(bs[..n], largest) && largest >= RETIRED_FIT_MIN - 1
    requires forall i :: n <= i < n' ==> !Big(bs[i])
    ensures Scanned(bs, n', alloc, cap, better, k) && Bounded(bs[..n'], largest)
  {
    ScanPast(bs, n, n', alloc, cap, better, k);
    forall i | 0 <= i < n' ensures bs[..n'][i].size <= largest {
      if i < n { assert bs[..n][i] == bs[i]; }
    }
  }

  lemma BoundNext(bs: seq<Block>, n: nat, l: int, largest: int)
    requires n < |bs| && l <= largest && Bounded(bs[..n], l) && bs[n].size <= largest
    ensures Bounded(bs[..n + 1], largest)
  {
    var more := bs[..n + 1];
    forall i | 0 <= i < |more| ensures more[i].size <= largest {
      if i < n { assert bs[..n][i] == bs[i]; }
    }
  }

  /** The size to beat. */
  ghost function ToBeat(bs: seq<Block>, cap: int, better: bool, k: nat): int
    requires better ==> k < |bs|
  {
    if better then bs[k].size else cap
  }

  lemma NoBetter(bs: seq<Block>, alloc: int, cap: int, k: nat)
    requires Scanned(bs, k + 1, alloc, cap, true, k) && k < |bs| && bs[k].size == alloc
    ensures Scanned(bs, |bs|, alloc, cap, true, k)
  {
  }

  /** Walks one pool's big blocks for a better fit than best, whose size is cap. */
  method ScanPool(memory: Memory, ms: int, alloc: int, best0: int, before0: int, ghost bs: seq<Block>, ghost cap: int)
    returns (best: int, bestBefore: int, better: bool, exact: bool, largest: int, ghost k: nat)
    requires ListAt(memory.mem, ms, bs) && ChainAt(memory.mem, ms, bs) && alloc >= RETIRED_FIT_MIN
    requires if best0 == 0 then cap == 0 else cap >= alloc && HasNode(memory.mem, best0)
                                              && memory.mem[best0].blockSize == cap
    ensures Scanned(bs, |bs|, alloc, cap, better, k) && (better ==> k < |bs|)
    ensures if better then best == bs[k].at && bestBefore == LastBig(bs[..k])
      else best == best0 && bestBefore == before0
    ensures exact ==> better && bs[k].size == alloc
    ensures !exact ==> Bounded(bs, largest)
  {
    hide PickOf, NothingBelow, Linked, Chained, Ordered, Bounded, Scanned;
    best, bestBefore, better, exact, largest, k := best0, before0, false, false, RETIRED_FIT_MIN - 1, 0;
    ScanStart(bs, alloc, cap, largest);
    var before, fn := 0, memory.mem[ms].big;
    assert bs[0..] == bs;
    ghost var j := NextBigIndex(memory.mem, bs, 0);
    ScanSmall(bs, 0, j, alloc, cap, better, k, largest);
    while fn != 0
      invariant j <= |bs| && before == LastBig(bs[..j])
      invariant if j < |bs| then Big(bs[j]) && fn == bs[j].at != 0 else fn == 0
      invariant Bounded(bs[..j], largest) && largest >= RETIRED_FIT_MIN - 1
      invariant Scanned(bs, j, alloc, cap, better, k) && (better ==> k < j)
      invariant if better then best == bs[k].at && bestBefore == LastBig(bs[..k])
        else best == best0 && bestBefore == before0
      invariant if best == 0 then !better && cap == 0 else HasNode(memory.mem, best)
                                                           && memory.mem[best].blockSize == ToBeat(bs, cap, better, k)
      decreases |bs| - j
    {
      LinkedAt(memory.mem, bs, 0, j);
      ChainedAt(memory.mem, bs, j);
      ghost var was := largest;
      if memory.mem[fn].blockSize > largest { largest := memory.mem[fn].blockSize; }
      if memory.mem[fn].blockSize >= alloc && (fn + MHDR) % PGSIZE != 0
         && (best == 0 || memory.mem[fn].blockSize < memory.mem[best].blockSize) {
        ScanBetter(bs, j, alloc, cap, better, k);
        best, bestBefore, better, k := fn, before, true, j;
        if memory.mem[fn].blockSize == alloc {
          exact := true;
          NoBetter(bs, alloc, cap, k);
          return;
        }
      } else {
        ScanNext(bs, j, alloc, cap, better, k);
      }
      before := fn;
      LastBigSnoc(bs, j);
      fn := memory.mem[fn].nextBig;
      ghost var j' := NextBigIndex(memory.mem, bs, j + 1);
      BoundNext(bs, j, was, largest);
      ScanSmall(bs, j + 1, j', alloc, cap, better, k, largest);
      j := j';
    }
    assert bs[..j] == bs;
  }

  // ---------- all pools ----------

  /** At most the bound on block sizes differs. */
  predicate SameButBound(m: Mem, m': Mem, a: int) {
    Same(m, m', a) || (HasPool(m, a) && HasPool(m', a) && m'[a] == m[a].(maxFree := m'[a].maxFree))
  }

  ghost predicate OnlyBounds(m: Mem, m': Mem, pools: seq<int>) {
    forall a :: if a in pools then SameButBound(m, m', a) else Same(m, m', a)
  }

  lemma RetiredFrame(m: Mem, m': Mem, q: int, bs: seq<Block>)
    requires RetiredOk(m, q, bs) && HasPool(m', q) && m'[q] == m[q].(maxFree := m'[q].maxFree)
    requires Bounded(bs, m'[q].maxFree) && forall a :: Starts(bs, a) ==> Same(m, m', a)
    ensures RetiredOk(m', q, bs)
  {
    LinkedFrame(m, m', bs, 0);
    ChainedFrame(m, m', bs, 0);
  }

  lemma BoundWrittenAt(m: Mem, m': Mem, pools: seq<int>, lists: Lists, p: int, i: nat)
    requires AllRetiredOk(m, pools, lists) && RecordsApart(pools, lists) && i < |pools|
    requires p in pools && HasPool(m, p) && HasPool(m', p) && m' == m[p := m'[p]]
    requires m'[p] == m[p].(maxFree := m'[p].maxFree) && p in lists && Bounded(lists[p], m'[p].maxFree)
    ensures pools[i] in lists && RetiredOk(m', pools[i], lists[pools[i]])
  {
    hide RetiredOk, Bounded, Starts;
    var q := pools[i];
    assert RetiredOk(m, q, lists[q]) && !Starts(lists[q], p);
    RetiredLimit(m, q, lists[q]);
    RetiredFrame(m, m', q, lists[q]);
  }

  lemma BoundWrittenList(m: Mem, m': Mem, first: int, pools: seq<int>, p: int)
    requires Retired(m, first, pools) && p in pools && HasPool(m, p) && HasPool(m', p) && m' == m[p := m'[p]]
    requires m'[p] == m[p].(maxFree := m'[p].maxFree)
    ensures Retired(m', first, pools) && OnlyBounds(m, m', pools)
  {
  }

  lemma BoundWritten(m: Mem, m': Mem, first: int, pools: seq<int>, lists: Lists, p: int)
    requires Retired(m, first, pools) && AllRetiredOk(m, pools, lists) && RecordsApart(pools, lists)
    requires p in pools && HasPool(m, p) && HasPool(m', p) && m' == m[p := m'[p]]
    requires m'[p] == m[p].(maxFree := m'[p].maxFree) && p in lists && Bounded(lists[p], m'[p].maxFree)
    ensures Retired(m', first, pools) && AllRetiredOk(m', pools, lists) && OnlyBounds(m, m', pools)
  {
    hide RetiredOk, Bounded, Starts, RecordsApart, Retired, OnlyBounds;
    BoundWrittenList(m, m', first, pools, p);
    forall i | 0 <= i < |pools| ensures pools[i] in lists && RetiredOk(m', pools[i], lists[pools[i]]) {
      BoundWrittenAt(m, m', pools, lists, p, i);
    }
  }

  lemma RetiredLimit(m: Mem, q: int, bs: seq<Block>)
    requires RetiredOk(m, q, bs)
    ensures HasPool(m, q) && Bounded(bs, m[q].maxFree)
  {
  }

  lemma PickMore(pools: seq<int>, lists: Lists, n: nat, alloc: int, i: nat, k: nat)
    requires n < |pools| && pools[n] in lists && PickOfAll(pools, lists, n, alloc, i, k)
    requires NothingBelow(lists[pools[n]], |lists[pools[n]]|, alloc, lists[pools[i]][k].size)
    ensures PickOfAll(pools, lists, n + 1, alloc, i, k)
  {
  }

  lemma PickHere(pools: seq<int>, lists: Lists, n: nat, alloc: int, found: bool, i: nat, k: nat, k': nat)
    requires n < |pools| && pools[n] in lists && PickOf(lists[pools[n]], |lists[pools[n]]|, alloc, k')
    requires if found then PickOfAll(pools, lists, n, alloc, i, k) && lists[pools[n]][k'].size < lists[pools[i]][k].size
             else NoneUsable(pools, lists, n, alloc)
    ensures PickOfAll(pools, lists, n + 1, alloc, n, k')
  {
  }

  lemma NoneMore(pools: seq<int>, lists: Lists, n: nat, alloc: int)
    requires n < |pools| && pools[n] in lists && NoneUsable(pools, lists, n, alloc)
    requires NothingBelow(lists[pools[n]], |lists[pools[n]]|, alloc, 0)
    ensures NoneUsable(pools, lists, n + 1, alloc)
  {
  }

  lemma PickExact(pools: seq<int>, lists: Lists, n: nat, alloc: int, i: nat, k: nat)
    requires PickOfAll(pools, lists, n, alloc, i, k) && lists[pools[i]][k].size == alloc
    requires forall j :: 0 <= j < |pools| ==> pools[j] in lists
    ensures PickOfAll(pools, lists, |pools|, alloc, i, k)
  {
  }

  /** Where the search over all pools stands after the first n. */
  ghost predicate Searched(pools: seq<int>, lists: Lists, n: nat, alloc: int,
                           best: int, bestBefore: int, bestPool: int, i: nat, k: nat) {
    if best == 0 then NoneUsable(pools, lists, n, alloc)
    else PickOfAll(pools, lists, n, alloc, i, k) && best == lists[pools[i]][k].at
         && bestBefore == LastBig(lists[pools[i]][..k]) && bestPool == pools[i]
  }

  lemma BestIsThere(m: Mem, pools: seq<int>, lists: Lists, n: nat, alloc: int, i: nat, k: nat)
    requires AllRetiredOk(m, pools, lists) && PickOfAll(pools, lists, n, alloc, i, k)
    ensures var b := lists[pools[i]][k]; HasNode(m, b.at) && m[b.at].blockSize == b.size >= alloc && b.at > 0
  {
    assert RetiredOk(m, pools[i], lists[pools[i]]);
    LinkedAt(m, lists[pools[i]], 0, k);
    OrderedAt(lists[pools[i]], k);
  }

  /** What one more pool's scan does to the search. */
  lemma OneMorePool(m: Mem, pools: seq<int>, lists: Lists, n: nat, alloc: int, best: int, bestBefore: int,
                    bestPool: int,
                    i: nat, k: nat, better: bool, best': int, bestBefore': int, k': nat)
    requires n < |pools| && AllRetiredOk(m, pools, lists)
             && Searched(pools, lists, n, alloc, best, bestBefore, bestPool, i, k)
    requires var bs := lists[pools[n]];
             && Scanned(bs, |bs|, alloc, if best == 0 then 0 else lists[pools[i]][k].size, better, k')
             && (if better then best' == bs[k'].at && bestBefore' == LastBig(bs[..k'])
                 else best' == best && bestBefore' == bestBefore)
    requires alloc > 0
    ensures Searched(pools, lists, n + 1, alloc, best', bestBefore', if better then pools[n] else bestPool,
                     if better then n else i, if better then k' else k)
    ensures better ==> best' != 0
  {
    if better {
      PickHere(pools, lists, n, alloc, best != 0, i, k, k');
      BestIsThere(m, pools, lists, n + 1, alloc, n, k');
    } else if best != 0 {
      PickMore(pools, lists, n, alloc, i, k);
    } else {
      NoneMore(pools, lists, n, alloc);
    }
  }

  lemma AfterScan(m: Mem, pools: seq<int>, lists: Lists, n: nat, alloc: int, best: int, bestBefore: int, bestPool: int,
                  i: nat, k: nat, better: bool, exact: bool, best': int, bestBefore': int, k': nat)
    requires n < |pools| && AllRetiredOk(m, pools, lists)
             && Searched(pools, lists, n, alloc, best, bestBefore, bestPool, i, k)
    requires var bs := lists[pools[n]];
             && Scanned(bs, |bs|, alloc, if best == 0 then 0 else lists[pools[i]][k].size, better, k')
             && (if better then best' == bs[k'].at && bestBefore' == LastBig(bs[..k'])
                 else best' == best && bestBefore' == bestBefore)
             && (exact ==> better && bs[k'].size == alloc)
    requires alloc > 0
    ensures Searched(pools, lists, if exact then |pools| else n + 1, alloc, best', bestBefore',
                     if better then pools[n] else bestPool, if better then n else i, if better then k' else k)
  {
    OneMorePool(m, pools, lists, n, alloc, best, bestBefore, bestPool, i, k, better, best', bestBefore', k');
    if exact { PickExact(pools, lists, n + 1, alloc, n, k'); }
  }

  /** Scans the pool at ms, the n-th; a full walk of its chain makes its bound exact. */
  method SearchPool(memory: Memory, first: int, ms: int, alloc: int, best0: int, before0: int, pool0: int,
                    ghost pools: seq<int>, ghost lists: Lists, ghost n: nat, ghost i0: nat, ghost k0: nat)
    returns (best: int, bestBefore: int, bestPool: int, exact: bool, ghost i: nat, ghost k: nat)
    requires Retired(memory.mem, first, pools) && AllRetiredOk(memory.mem, pools, lists) && RecordsApart(pools, lists)
    requires alloc >= RETIRED_FIT_MIN && n < |pools| && ms == pools[n]
    requires Searched(pools, lists, n, alloc, best0, before0, pool0, i0, k0)
    modifies memory
    ensures Retired(memory.mem, first, pools) && AllRetiredOk(memory.mem, pools, lists)
    ensures OnlyBounds(old(memory.mem), memory.mem, pools)
    ensures Searched(pools, lists, if exact then |pools| else n + 1, alloc, best, bestBefore, bestPool, i, k)
  {
    hide Retired, RecordsApart, OnlyBounds, Linked, Chained, Ordered, NoneUsable;
    BoundsStay(memory.mem, pools);
    ghost var bs := lists[ms];
    assert RetiredOk(memory.mem, ms, bs);
    if best0 != 0 { BestIsThere(memory.mem, pools, lists, n, alloc, i0, k0); }
    ghost var cap := if best0 == 0 then 0 else lists[pools[i0]][k0].size;
    var better, largest;
    ghost var k';
    best, bestBefore, better, exact, largest, k' := ScanPool(memory, ms, alloc, best0, before0, bs, cap);
    AfterScan(memory.mem, pools, lists, n, alloc, best0, before0, pool0, i0, k0, better, exact, best, bestBefore, k');
    bestPool, i, k := if better then ms else pool0, if better then n else i0, if better then k' else k0;
    if exact { return; }
    ghost var m := memory.mem;
    memory.mem := memory.mem[ms := memory.mem[ms].(maxFree := largest)];
    BoundWritten(m, memory.mem, first, pools, lists, ms);
  }

  /** The pick over all retired pools, if any block is usable. A pool whose bound rules a fit
      out is passed over. */
  method FindBest(memory: Memory, first: int, alloc: int, ghost pools: seq<int>, ghost lists: Lists)
    returns (best: int, bestBefore: int, bestPool: int, ghost i: nat, ghost k: nat)
    requires Retired(memory.mem, first, pools) && AllRetiredOk(memory.mem, pools, lists) && RecordsApart(pools, lists)
    requires alloc >= RETIRED_FIT_MIN
    modifies memory
    ensures Retired(memory.mem, first, pools) && AllRetiredOk(memory.mem, pools, lists)
    ensures OnlyBounds(old(memory.mem), memory.mem, pools)
    ensures Searched(pools, lists, |pools|, alloc, best, bestBefore, bestPool, i, k)
  {
    hide Retired, AllRetiredOk, OnlyBounds, Searched, PoolAt, RecordsApart;
    best, bestBefore, bestPool, i, k := 0, 0, 0, 0, 0;
    SearchStart(pools, lists, alloc);
    BoundsStay(memory.mem, pools);
    RetiredNext(memory.mem, first, pools, 0);
    var ms := first;
    ghost var n: nat := 0;
    while ms != 0
      invariant n <= |pools| && ms == PoolAt(pools, n)
      invariant Retired(memory.mem, first, pools) && AllRetiredOk(memory.mem, pools, lists)
      invariant OnlyBounds(old(memory.mem), memory.mem, pools)
      invariant Searched(pools, lists, n, alloc, best, bestBefore, bestPool, i, k)
      decreases |pools| - n
    {
      RetiredNext(memory.mem, first, pools, n);
      if memory.mem[ms].maxFree < alloc {
        TooSmall(memory.mem, pools, lists, n, alloc);
        OneMorePool(memory.mem, pools, lists, n, alloc, best, bestBefore, bestPool, i, k, false, best, bestBefore, 0);
      } else {
        ghost var m := memory.mem;
        var exact;
        best, bestBefore, bestPool, exact, i,
            k := SearchPool(memory, first, ms, alloc, best, bestBefore, bestPool, pools, lists, n, i, k);
        BoundsChain(old(memory.mem), m, memory.mem, pools);
        if exact { return; }
      }
      RetiredNext(memory.mem, first, pools, n);
      ms := memory.mem[ms].nextPool;
      n := n + 1;
    }
    RetiredNext(memory.mem, first, pools, n);
  }

  lemma TooSmall(m: Mem, pools: seq<int>, lists: Lists, n: nat, alloc: int)
    requires AllRetiredOk(m, pools, lists) && n < |pools| && HasPool(m, pools[n]) && m[pools[n]].maxFree < alloc
    ensures pools[n] in lists && forall cap :: Scanned(lists[pools[n]], |lists[pools[n]]|, alloc, cap, false, 0)
  {
    assert RetiredOk(m, pools[n], lists[pools[n]]);
  }

  lemma BoundsStay(m: Mem, pools: seq<int>)
    ensures OnlyBounds(m, m, pools)
  {
  }

  lemma SearchStart(pools: seq<int>, lists: Lists, alloc: int)
    ensures Searched(pools, lists, 0, alloc, 0, 0, 0, 0, 0)
  {
  }

  lemma RetiredNext(m: Mem, first: int, pools: seq<int>, n: nat)
    requires Retired(m, first, pools) && n <= |pools|
    ensures first == PoolAt(pools, 0) && (PoolAt(pools, n) != 0 <==> n < |pools|)
    ensures n < |pools| ==> PoolAt(pools, n) == pools[n] && HasPool(m, pools[n])
                            && m[pools[n]].nextPool == PoolAt(pools, n + 1)
  {
  }

  lemma BoundsChain(m0: Mem, m1: Mem, m2: Mem, pools: seq<int>)
    requires OnlyBounds(m0, m1, pools) && OnlyBounds(m1, m2, pools)
    ensures OnlyBounds(m0, m2, pools)
  {
    forall a ensures if a in pools then SameButBound(m0, m2, a) else Same(m0, m2, a) {
      assert if a in pools then SameButBound(m0, m1, a) else Same(m0, m1, a);
      assert if a in pools then SameButBound(m1, m2, a) else Same(m1, m2, a);
    }
  }
}
