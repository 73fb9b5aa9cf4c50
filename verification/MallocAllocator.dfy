/** The pool allocator: malloc, free and what they are made of. */
module MallocAllocator {
  import opened Arithmetic
  import opened MallocBlocks
  import opened MallocCache
  import opened MallocList
  import opened MallocFree
  import opened MallocTake
  import opened MallocBest
  import opened MallocSearch
  import opened MallocServe
  import opened MallocState
  import opened MallocSteps
  import opened MallocMoves
  import opened MallocMaps
  import opened MallocLinks
  import opened MallocPool
  import opened MallocGive
  import opened MallocSettle
  import opened MallocRoom
  import opened MallocHold
  import opened MallocBytes

  const MSETLEN_MIN := 4096
  const MSETLEN_MAX := 64 * 1024
  const MSETMAX_MIN := 2048
  const MSETMAX_CAP := 32 * 1024
  const LARGE_PER_CLASS := 4
  const LONG := 4
  const EINVAL := 22
  const ENOMEM := 12

  class Allocator {
    const memory: Memory
    const kernel: Kernel
    const cache: Cache
    var pool: int
    var pool1: int
    var oldPools: int
    var poolLenNext: int
    var largeAllocs: int
    ghost var loose: int
    ghost var relaxed: int
    ghost var retired: seq<int>
    ghost var views: map<int, View>
    ghost var large: map<int, int>
    ghost var aligned: map<int, Aligned>
    ghost var data: map<int, Datum>

    ghost function S(): Snap
      reads this, memory, kernel, cache
    {
      Snap(memory.mem, kernel.maps, cache.Parked(), pool, pool1, oldPools, loose, relaxed, retired, views, large,
           aligned, data)
    }

    ghost predicate Ready()
      reads this, memory, kernel, cache, cache.kernel
    {
      cache.kernel == kernel && cache.Valid() && 0 < poolLenNext && Inv(S())
    }

    ghost predicate Settled()
      reads this, memory, kernel, cache, cache.kernel
    {
      Ready() && loose == 0 && relaxed == 0
    }

    /** Between calls no byte is under watch. */
    ghost predicate Valid()
      reads this, memory, kernel, cache, cache.kernel
    {
      Settled() && data == map[]
    }

    constructor ()
      ensures Valid() && views == map[] && large == map[] && aligned == map[]
      ensures fresh(memory) && fresh(kernel) && fresh(cache)
    {
      var k := new Kernel();
      memory := new Memory();
      kernel := k;
      cache := new Cache(k);
      pool, pool1, oldPools, poolLenNext, largeAllocs := 0, 0, 0, MSETLEN_MIN, 0;
      loose, relaxed, retired, views, large, aligned, data := 0, 0, [], map[], map[], map[], map[];
    }

    /** Puts bytes that nobody uses on a pool's free list. */
    method PutFree(ms: int, at: int, size: int)
      requires Ready() && ms in views && size >= MHDR && (ms == pool || (ms in retired && ms != relaxed))
      requires HasPool(memory.mem, ms) && Unused(ms, ms + memory.mem[ms].size, views[ms], Block(at, size))
      modifies this`views, memory, kernel`maps
      ensures Ready() && LiveKept(old(views), views) && views.Keys == old(views).Keys
      ensures HasPool(memory.mem, ms) && (ms == pool ==> SameBounds(old(memory.mem)[ms], memory.mem[ms]))
      ensures Freed(old(views)[ms].free, views[ms].free, ms + memory.mem[ms].len, Block(at, size))
      ensures OthersSame(old(views), ms, old(memory.mem), memory.mem)
      ensures forall p :: p in views && p != ms ==> views[p] == old(views)[p]
    {
      hide Inv, Inserted, SameElsewhere, ListAt, ChainAt, Unused, InsertReady, Mappings, SlotsOk, OthersSame,
          SameBounds, Freed;
      ghost var s, v := S(), views[ms];
      PutReady(s, ms, at, size);
      ghost var out := memory.FreelistInsert(kernel, ms, at, size, ms == pool, v.free);
      views := views[ms := View(v.live, out)];
      PutDone(s, ms, Block(at, size), memory.mem, out, kernel.maps);
      PutFrees(s, ms, Block(at, size), memory.mem, out);
      SlotsKept(cache.slots, s.maps, ms, memory.mem[ms].len);
    }

    /** The current pool's remaining bump room goes on its free list. */
    method FreeRoom(ms: int)
      requires Ready() && ms == pool != 0 && ms in views && HasPool(memory.mem, ms)
      modifies this`views, memory, kernel`maps
      ensures Ready() && LiveKept(old(views), views) && views.Keys == old(views).Keys
      ensures RoomFreed(old(memory.mem)[ms], ms, old(views)[ms].free, views[ms].free)
      ensures HasPool(memory.mem, ms) && OthersSame(old(views), ms, old(memory.mem), memory.mem)
      ensures var p, was := memory.mem[ms], old(memory.mem)[ms];
              p.size == p.len == was.len <= p.maxFree && p.refs == was.refs
      ensures forall p :: p in views && p != ms ==> views[p] == old(views)[p]
    {
      hide Inv, Freed;
      var tail := (memory.mem[ms].size + 7) / 8 * 8;
      RoomRaised(S(), tail);
      memory.mem := memory.mem[ms := memory.mem[ms].(size := memory.mem[ms].len, maxFree := memory.mem[ms].len)];
      if memory.mem[ms].len - tail >= 2 * MHDR {
        PutFree(ms, ms + tail, memory.mem[ms].len - tail);
      }
    }

    /** The current pool, which has live blocks, joins the retired ones, its remaining bump
        room on its free list. The caller sets pool. */
    method Retire(ms: int)
      requires Ready() && ms == pool != 0 && ms in views && HasPool(memory.mem, ms) && memory.mem[ms].refs > 0
               && ms != relaxed
      modifies this`views, this`retired, this`oldPools, memory, kernel`maps
      ensures cache.kernel == kernel && cache.Valid() && Inv(S().(pool := 0))
      ensures LiveKept(old(views), views) && views.Keys == old(views).Keys && oldPools == ms
              && retired == [ms] + old(retired)
      ensures RoomFreed(old(memory.mem)[ms], ms, old(views)[ms].free, views[ms].free)
      ensures OthersSame(old(views), ms, old(memory.mem), memory.mem)
      ensures forall p :: p in views && p != ms ==> views[p] == old(views)[p]
    {
      hide Inv, LiveKept, RoomFreed, OthersSame, SameElsewhere;
      ghost var m0, v0 := memory.mem, views;
      FreeRoom(ms);
      ghost var s1, m1 := S(), memory.mem;
      PoolList(s1, ms);
      BuildChain(memory, ms, views[ms].free);
      ghost var m2 := memory.mem;
      memory.mem := memory.mem[ms := memory.mem[ms].(nextPool := oldPools)];
      RetiredNow(s1, m2, memory.mem);
      OthersTwice(v0, views, ms, m0, m1, memory.mem);
      oldPools := ms;
      retired := [ms] + retired;
    }

    /** Takes a block off a pool's free list; 0 if none will do. The bytes are then nobody's,
        and a retired pool is relaxed, because its chain was not kept. */
    method TakeFree(ms: int, alloc: int) returns (fn: int)
      requires Ready() && ms in views && relaxed == 0 && alloc > 0
      modifies this`views, this`relaxed, memory
      ensures Ready() && LiveKept(old(views), views) && views.Keys == old(views).Keys && HasPool(memory.mem, ms)
      ensures fn == 0 ==> S() == old(S()) && NoUsable(views[ms].free, alloc)
      ensures fn != 0 ==>
        && relaxed == (if ms in retired then ms else 0)
        && Unused(ms, ms + memory.mem[ms].size, views[ms], Block(fn, alloc))
        && (exists k :: FirstFit(old(views)[ms].free, alloc, fn, k))
      ensures forall p :: p in views && p != ms ==> views[p] == old(views)[p]
      ensures OthersSame(old(views), ms, old(memory.mem), memory.mem) || fn == 0
    {
      hide Inv, SameElsewhere, ListAt, Unused, Mappings, SlotsOk, OthersSame, Taken;
      ghost var s, v := S(), views[ms];
      PoolList(s, ms);
      PoolInMaps(s, ms);
      ghost var k;
      fn, k := FreelistTake(memory, ms, alloc, v.free);
      if fn == 0 { return; }
      views := views[ms := View(v.live, Taken(v.free, k, alloc))];
      relaxed := if ms in retired then ms else 0;
      TakeDone(s, ms, memory.mem, k, alloc);
      assert FirstFit(v.free, alloc, fn, k);
    }

    /** Gives up the current pool, which is drained. */
    method GivePool()
      requires Ready() && pool != 0 && pool in views && views[pool].live == map[] && HasPool(memory.mem, pool)
      modifies this`views, this`pool, cache, kernel`maps
      ensures Ready() && pool == 0 && views == old(views) - {old(pool)}
    {
      hide Inv, Mappings, SlotsOk;
      ghost var s := S();
      PoolInMaps(s, pool);
      cache.Unmap(pool, memory.mem[pool].len);
      PoolGiven(s, kernel.maps, cache.Parked());
      views := views - {pool};
      pool := 0;
    }

    /** The current pool, which is drained, becomes the spare. */
    method SparePool()
      requires Ready() && pool != 0 && pool1 == 0 && pool in views && views[pool].live == map[]
      modifies this`views, this`pool, this`pool1
      ensures Ready() && pool == 0 && pool1 == old(pool) && views == old(views) - {old(pool)}
    {
      hide Inv;
      PoolToSpare(S());
      views := views - {pool};
      pool1 := pool;
      pool := 0;
    }

    /** Takes the i-th retired pool, the one after prev, off the list. */
    method Unlink(p: int, prev: int, ghost i: nat)
      requires Ready() && loose == 0 && (relaxed == 0 || relaxed == p) && i < |retired| && p == retired[i]
      requires prev == if i == 0 then 0 else retired[i - 1]
      modifies this`oldPools, this`loose, this`relaxed, this`retired, memory
      ensures Ready() && loose == p && relaxed == 0
      ensures HasPool(memory.mem, p) && HasPool(old(memory.mem), p) && memory.mem[p] == old(memory.mem)[p]
    {
      hide Inv, Mappings, SlotsOk;
      ghost var s := S();
      UnlinkRecord(s, i);
      if prev == 0 {
        oldPools := memory.mem[p].nextPool;
      } else {
        memory.mem := memory.mem[prev := memory.mem[prev].(nextPool := memory.mem[p].nextPool)];
      }
      Unlinked(s, i, oldPools);
      loose, relaxed, retired := p, 0, Without(retired, i);
    }

    /** The current pool joins the retired ones if it has live blocks, and otherwise becomes
        the spare or goes. */
    method SetAside()
      requires Ready() && pool != 0 && pool != relaxed
      modifies this`oldPools, this`retired, this`pool, this`pool1, this`views, memory, cache, kernel`maps
      ensures Ready() && pool == 0 && LiveKept(old(views), views)
      ensures OthersSame(old(views), old(pool), old(memory.mem), memory.mem)
      ensures forall p :: p in old(views) && p != old(pool) ==> p in views && views[p] == old(views)[p]
    {
      hide Inv, Mappings, SlotsOk;
      PoolInViews(S());
      PoolInMaps(S(), pool);
      SameRecords(S(), pool);
      if memory.mem[pool].refs > 0 {
        Retire(pool);
        pool := 0;
        return;
      }
      Drained(S(), pool);
      LiveDropped(views, pool);
      if pool1 == 0 {
        SparePool();
      } else {
        GivePool();
      }
    }

    /** Makes the i-th retired pool the current one; the one that was joins the retired ones
        if it has live blocks, and otherwise becomes the spare or goes. */
    method Promote(p: int, prev: int, ghost i: nat)
      requires Ready() && loose == 0 && relaxed == p && i < |retired| && p == retired[i] && p in views
      requires prev == if i == 0 then 0 else retired[i - 1]
      modifies this`oldPools, this`loose, this`relaxed, this`retired, this`pool, this`pool1, this`views, memory,
               cache, kernel`maps
      ensures Settled() && pool == p && p in views && views[p] == old(views)[p] && LiveKept(old(views), views)
      ensures HasPool(memory.mem, p) && HasPool(old(memory.mem), p) && memory.mem[p] == old(memory.mem)[p]
    {
      hide Inv, Mappings, SlotsOk, LiveKept;
      LiveKeptSelf(views);
      RetiredAt(S(), i);
      Unlink(p, prev, i);
      PoolInViews(S());
      if pool != 0 { SetAside(); }
      Adopt(p);
    }

    /** The pool that is on no list becomes the current one. */
    method Adopt(p: int)
      requires Ready() && loose == p != 0 && pool == 0 && relaxed == 0
      modifies this`loose, this`pool
      ensures Settled() && pool == p
    {
      hide Inv, Mappings, SlotsOk;
      LooseToPool(S());
      pool := p;
      loose := 0;
    }

    /** A block from some retired pool, which then becomes the current one; 0 if no retired
        pool has one that will do. */
    method OldPoolTake(alloc: int) returns (m: int)
      requires Settled() && alloc > 0
      modifies this`oldPools, this`loose, this`relaxed, this`retired, this`pool, this`pool1, this`views, memory,
               cache, kernel`maps
      ensures Settled() && LiveKept(old(views), views)
      ensures m == 0 ==> S() == old(S()) && forall j :: 0 <= j < |retired| ==>
        retired[j] in views && NoUsable(views[retired[j]].free, alloc)
      ensures m != 0 ==>
        && pool in views && HasPool(memory.mem, pool)
        && Unused(pool, pool + memory.mem[pool].size, views[pool], Block(m, alloc))
    {
      hide Inv, Mappings, SlotsOk, Unused, OthersSame, LiveKept;
      LiveKeptSelf(views);
      var prev, p := 0, oldPools;
      ghost var i: nat := 0;
      if |retired| > 0 { RetiredAt(S(), 0); }
      EmptyRetired(S());
      while p != 0
        invariant Settled() && S() == old(S()) && i <= |retired| && p == PoolAt(retired, i)
        invariant prev == if i == 0 then 0 else retired[i - 1]
        invariant forall j :: 0 <= j < i ==> retired[j] in views && NoUsable(views[retired[j]].free, alloc)
        decreases |retired| - i
      {
        RetiredAt(S(), i);
        m := 0;
        if memory.mem[p].maxFree >= alloc {
          m := TakeFree(p, alloc);
        } else {
          BoundRulesOut(S(), i, alloc);
        }
        if m != 0 {
          ghost var v1 := views;
          Promote(p, prev, i);
          LiveKeptTwice(old(views), v1, views);
          return;
        }
        prev := p;
        p := memory.mem[p].nextPool;
        i := i + 1;
      }
      if i < |retired| { RetiredAt(S(), i); }
      m := 0;
    }

    /** The tightest free block of all retired pools, the first of those, taken off its pool's
        list; 0 if none will do. The bytes are then nobody's. */
    method OldPoolBestFit(alloc: int) returns (m: int, owner: int)
      requires Settled() && alloc >= RETIRED_FIT_MIN
      modifies this`views, memory
      ensures Settled() && LiveKept(old(views), views) && views.Keys == old(views).Keys
      ensures m == 0 ==> views == old(views) && NoneUsable(retired, ListsOf(old(views)), |retired|, alloc)
      ensures m == 0 && pool != 0 ==> Same(old(memory.mem), memory.mem, pool)
      ensures m != 0 ==>
        && owner in views && owner in retired && HasPool(memory.mem, owner)
        && Unused(owner, owner + memory.mem[owner].size, views[owner], Block(m, alloc))
        && exists i, k :: PickOfAll(retired, ListsOf(old(views)), |retired|, alloc, i, k)
                          && PickedAt(retired, ListsOf(old(views)), i, k, owner, m)
    {
      hide Inv, Mappings, SlotsOk, Unused, RecordsApart, Retired, RetiredOk, AllRetiredOk, OnlyBounds, SameElsewhere,
          PickOfAll, NoneUsable, Taken, Same, ListAt, ChainAt;
      ghost var s, lists := S(), ListsOf(views);
      SearchReady(s);
      var best, bestBefore, bestPool;
      ghost var i, k;
      best, bestBefore, bestPool, i, k := FindBest(memory, oldPools, alloc, retired, lists);
      BoundsChanged(s, memory.mem);
      if best == 0 {
        PoolRecordSame(s, memory.mem);
        return 0, 0;
      }
      ghost var s1 := S();
      PickFacts(s1, lists, alloc, i, k);
      TakeBest(memory, bestPool, alloc, best, bestBefore, views[bestPool].free, k);
      ServeDone(s1, bestPool, memory.mem, k, alloc);
      views := views[bestPool := View(views[bestPool].live, Taken(views[bestPool].free, k, alloc))];
      m, owner := best, bestPool;
      assert PickedAt(retired, lists, i, k, owner, m);
    }

    method WidenPoolClass()
      requires poolLenNext > 0
      modifies this`poolLenNext
      ensures poolLenNext == if old(poolLenNext) < MSETLEN_MAX then 2 * old(poolLenNext) else old(poolLenNext)
    {
      if poolLenNext < MSETLEN_MAX { poolLenNext := poolLenNext * 2; }
    }

    method WidenUpTo(len: int)
      requires poolLenNext > 0
      modifies this`poolLenNext
      ensures poolLenNext > 0 && (poolLenNext >= len || poolLenNext >= MSETLEN_MAX)
    {
      while poolLenNext < len && poolLenNext < MSETLEN_MAX
        invariant poolLenNext > 0
        decreases MSETLEN_MAX - poolLenNext
      {
        WidenPoolClass();
      }
    }

    /** Extends the current pool in place so that its bump room reaches need bytes. */
    method PoolGrow(need: int) returns (ok: bool)
      requires Settled() && pool != 0 && pool in views && HasPool(memory.mem, pool)
      modifies this`poolLenNext, memory, kernel`maps
      ensures Settled() && HasPool(memory.mem, pool)
      ensures !ok ==> memory.mem == old(memory.mem) && kernel.maps == old(kernel.maps)
      ensures ok ==> need <= memory.mem[pool].len
                     && old(memory.mem)[pool].len + PGSIZE <= memory.mem[pool].len <= MSETLEN_MAX
      ensures memory.mem[pool] == old(memory.mem)[pool].(len := memory.mem[pool].len)
    {
      hide Inv, Mappings, SlotsOk;
      ghost var s := S();
      PoolInMaps(s, pool);
      var len := memory.mem[pool].len + PGSIZE;
      if len < need { len := RoundPage(need); }
      if len > MSETLEN_MAX { return false; }
      ok := kernel.Mremap(pool, memory.mem[pool].len, len);
      if !ok { return; }
      SlotsKept(cache.slots, s.maps, pool, len);
      KernelMaps(kernel);
      Grown(s, len);
      memory.mem := memory.mem[pool := memory.mem[pool].(len := len)];
      assert S() == s.(mem := memory.mem, maps := kernel.maps);
      WidenUpTo(len);
    }

    /** The spare goes to the cache or back to the system. */
    method GiveSpare()
      requires Ready() && pool1 != 0 && HasPool(memory.mem, pool1)
      modifies this`pool1, cache, kernel`maps
      ensures Ready() && pool1 == 0
    {
      hide Inv, Mappings, SlotsOk;
      ghost var s := S();
      PoolInViews(s);
      cache.Unmap(pool1, memory.mem[pool1].len);
      SpareGiven(s, kernel.maps, cache.Parked());
      pool1 := 0;
    }

    /** The current pool is being replaced: retired if it has live blocks, and otherwise the
        larger of it and the spare stays as the spare. */
    method Replace()
      requires Settled() && pool != 0
      modifies this`oldPools, this`retired, this`pool, this`pool1, this`views, memory, cache, kernel`maps
      ensures Settled() && pool == 0 && LiveKept(old(views), views)
    {
      hide Inv, Mappings, SlotsOk;
      PoolInViews(S());
      PoolInMaps(S(), pool);
      if memory.mem[pool].refs > 0 {
        Retire(pool);
        pool := 0;
        return;
      }
      Drained(S(), pool);
      LiveDropped(views, pool);
      if pool1 == 0 {
        SparePool();
      } else if memory.mem[pool].len > memory.mem[pool1].len {
        GiveSpare();
        SparePool();
      } else {
        GivePool();
      }
    }

    /** The spare, rewound, becomes the current pool. */
    method UseSpare()
      requires Settled() && pool == 0 && pool1 != 0 && HasPool(memory.mem, pool1)
      modifies this`pool, this`pool1, this`views, memory
      ensures Settled() && LiveKept(old(views), views) && pool == old(pool1)
      ensures Empty(pool, views, memory.mem) && memory.mem[pool].len == old(memory.mem)[pool].len
    {
      hide Inv, Mappings, SlotsOk;
      ghost var s := S();
      PoolInViews(s);
      pool := pool1;
      pool1 := 0;
      memory.mem := memory.mem[pool := memory.mem[pool].(size := MSET, refs := 0, freelist := 0)];
      views := views[pool := EMPTY];
      SpareToPool(s, memory.mem);
    }

    /** A mapping of at least total bytes that nothing uses yet; 0 if there is none to be had. */
    method MapFor(total: int) returns (base: int, got: int)
      requires Settled() && total > 0 && total % PGSIZE == 0
      modifies cache, kernel
      ensures kernel.refusals == old(kernel.refusals) + if base == 0 then 1 else 0
      ensures base == 0 ==> Settled()
      ensures base != 0 ==> cache.Valid() && base in kernel.maps && kernel.maps[base] == got >= total && base > 0
      ensures base != 0 ==> MappedAs(old(kernel.maps), old(cache.Parked()), base, kernel.maps, cache.Parked())
    {
      hide Inv, Mappings, SlotsOk, MappedAs;
      ghost var s := S();
      KernelMaps(kernel);
      base, got := cache.Map(total);
      KernelMaps(kernel);
      if base == 0 {
        MapFailed(s, kernel.maps, cache.Parked());
        return;
      }
      MappedNow(s, base, kernel.maps, cache.Parked());
      Positive(kernel.maps, base);
    }

    /** Maps a pool for want bytes in all; pool stays 0 if that fails. */
    method MapPool(want: int)
      requires Settled() && pool == 0 && want > 0
      modifies this`pool, this`views, memory, cache, kernel
      ensures kernel.refusals == old(kernel.refusals) + if pool == 0 then 1 else 0
      ensures Settled() && LiveKept(old(views), views)
      ensures pool != 0 ==> Empty(pool, views, memory.mem) && memory.mem[pool].len >= want
    {
      hide Inv, Mappings, SlotsOk, MappedAs;
      ghost var s := S();
      var base, len := MapFor(RoundPage(want));
      if base == 0 { return; }
      pool := base;
      var junk: int := *;
      memory.mem := memory.mem[pool := Pool(0, MSET, 0, 0, len, 0, junk)];
      views := views[pool := EMPTY];
      MapNewPool(s, base, kernel.maps, cache.Parked(), memory.mem);
      NotInViews(s, base, kernel.maps, cache.Parked());
    }

    /** The current pool, which is drained, starts over. */
    method Rewind()
      requires Settled() && pool != 0 && pool in views && HasPool(memory.mem, pool) && memory.mem[pool].refs == 0
      modifies this`views, memory
      ensures Settled() && LiveKept(old(views), views) && Empty(pool, views, memory.mem)
      ensures memory.mem[pool].len == old(memory.mem)[pool].len
    {
      hide Inv, Mappings, SlotsOk;
      Drained(S(), pool);
      RewindPool(S());
      memory.mem := memory.mem[pool := memory.mem[pool].(size := MSET, freelist := 0)];
      views := views[pool := EMPTY];
    }

    /** Makes pool a pool with room for want bytes in all; true if there is none to be had. */
    method MkPool(want: int) returns (failed: bool)
      requires Settled() && want > 0
      modifies this`oldPools, this`retired, this`pool, this`pool1, this`views, this`poolLenNext, memory, cache, kernel
      ensures kernel.refusals == old(kernel.refusals) + if failed then 1 else 0
      ensures Settled() && LiveKept(old(views), views)
      ensures failed ==> pool == 0
      ensures !failed ==> pool != 0 && Empty(pool, views, memory.mem) && memory.mem[pool].len >= want
    {
      hide Inv, Mappings, SlotsOk, LiveKept, Empty;
      LiveKeptSelf(views);
      var replacing := pool != 0;
      PoolInViews(S());
      if pool != 0 {
        PoolInMaps(S(), pool);
        if memory.mem[pool].refs == 0 && memory.mem[pool].len >= want {
          Rewind();
          return false;
        }
      }
      if pool != 0 { Replace(); }
      ghost var v1 := views;
      PoolInViews(S());
      if pool1 != 0 && memory.mem[pool1].len >= want {
        UseSpare();
        LiveKeptTwice(old(views), v1, views);
        return false;
      }
      MapPool(want);
      LiveKeptTwice(old(views), v1, views);
      if pool == 0 { return true; }
      if replacing { WidenPoolClass(); }
      failed := false;
    }

    // ---------- malloc ----------

    /** Largest object served from a pool. */
    function CurMsetmax(): (m: int)
      reads this
      ensures MSETMAX_MIN <= m <= MSETMAX_CAP
    {
      var m := poolLenNext / 2;
      if m > MSETMAX_CAP then MSETMAX_CAP else if m < MSETMAX_MIN then MSETMAX_MIN else m
    }

    /** Fills in the header of a block that is handed out. */
    method Grant(owner: int, m: int, n: int)
      requires Settled() && owner in views && HasPool(memory.mem, owner) && n >= 0
      requires Unused(owner, owner + memory.mem[owner].size, views[owner], Block(m, BlockSize(n)))
      modifies this`views, memory
      ensures Settled() && GaveSmall(old(views), views, owner, m + MHDR, n) && m > 0
    {
      hide Inv, Mappings, SlotsOk, Unused;
      ghost var s := S();
      GrantDone(s, owner, m, n);
      GrantWrites(s, owner, m, n);
      memory.mem := memory.mem[m := Header(m - owner, n)];
      memory.mem := memory.mem[owner := memory.mem[owner].(refs := memory.mem[owner].refs + 1)];
      views := views[owner := View(views[owner].live[m := n], views[owner].free)];
    }

    /** Hands out the block at the bump pointer. */
    method Bump(offset: int, n: int) returns (v: int)
      requires Settled() && pool != 0 && pool in views && HasPool(memory.mem, pool) && n >= 0
      requires offset == PageSkip(pool, memory.mem[pool].size) && offset + BlockSize(n) <= memory.mem[pool].len
      modifies this`views, memory
      ensures Settled() && GaveSmall(old(views), views, pool, v, n) && v > 0
    {
      hide Inv, Mappings, SlotsOk;
      ghost var s := S();
      PoolInMaps(s, pool);
      BlockSizeBounds(n);
      var m := pool + offset;
      var size := PageSkip(pool, offset + BlockSize(n));
      SkipFits(pool, offset + BlockSize(n), memory.mem[pool].len);
      BumpDone(s, m, n, size);
      memory.mem := memory.mem[m := Header(offset, n)];
      memory.mem := memory.mem[pool := memory.mem[pool].(refs := memory.mem[pool].refs + 1)];
      memory.mem := memory.mem[pool := memory.mem[pool].(size := size)];
      assert memory.mem == s.mem[m := Header(m - pool, n)][pool := s.mem[pool].(refs := s.mem[pool].refs + 1,
          size := size)];
      views := views[pool := View(views[pool].live[m := n], views[pool].free)];
      v := m + MHDR;
    }

    /** Fills in the header of a mapping for one large request. */
    method SetUpLarge(lm: int, total: int, n: int, ghost s: Snap)
      requires Inv(s) && S() == s.(maps := kernel.maps, parked := cache.Parked()) && n >= 0 && n + LARGE_HDR <= total
      requires MappedAs(s.maps, s.parked, lm, kernel.maps, cache.Parked()) && lm in kernel.maps
               && kernel.maps[lm] == total
      modifies this`large, memory
      ensures Inv(S()) && large == s.large[lm := n] && lm !in s.large
    {
      hide Inv, Mappings, SlotsOk, MappedAs, SameOutside, LargeAt;
      memory.mem := memory.mem[lm := Mapped(total)];
      memory.mem := memory.mem[lm + MHDR := Header(LARGE_MOFF, n)];
      LargeSetUp(s.mem, lm, total, n);
      MapLarge(s, lm, kernel.maps, cache.Parked(), memory.mem, n);
      large := large[lm := n];
    }

    /** A request that gets a mapping of its own. */
    method MallocLarge(n: int) returns (v: int)
      requires Settled() && n >= 0
      modifies this`large, this`largeAllocs, this`poolLenNext, memory, cache, kernel
      ensures kernel.refusals == old(kernel.refusals) + if v == 0 then 1 else 0
      ensures Settled()
      ensures v == 0 ==> large == old(large)
      ensures v != 0 ==> v - LARGE_HDR !in old(large) && large == old(large)[v - LARGE_HDR := n]
    {
      hide Inv, Mappings, SlotsOk, MappedAs;
      ghost var s := S();
      var lm, total := MapFor(RoundPage(n + LARGE_HDR));
      if lm == 0 { return 0; }
      largeAllocs := largeAllocs + 1;
      if largeAllocs % LARGE_PER_CLASS == 0 { WidenPoolClass(); }
      SetUpLarge(lm, total, n, s);
      v := lm + LARGE_HDR;
    }

    /** A request served from a pool. */
    method MallocSmall(n: int) returns (v: int)
      requires Settled() && n >= 0
      modifies this`oldPools, this`loose, this`relaxed, this`retired, this`pool, this`pool1, this`views,
               this`poolLenNext, memory, cache, kernel
      ensures kernel.refusals == old(kernel.refusals) + if v == 0 then 1 else 0
      ensures HasRoom(old(S()), BlockSize(n)) ==> v != 0 && kernel.asked == old(kernel.asked)
      ensures Settled()
      ensures v == 0 ==> LiveKept(old(views), views)
      ensures v != 0 ==> exists p :: GaveSmall(old(views), views, p, v, n)
    {
      hide Inv, Mappings, SlotsOk, Unused, LiveKept, GaveSmall, OthersSame, PickOfAll, NoneUsable;
      var alloc := BlockSize(n);
      BlockSizeBounds(n);
      LiveKeptSelf(views);
      if pool == 0 {
        var failed := MkPool(alloc + MSET + 8);
        if failed { return 0; }
      }
      ghost var v1 := views;
      if alloc >= RETIRED_FIT_MIN && oldPools != 0 {
        var m, owner := OldPoolBestFit(alloc);
        LiveKeptTwice(old(views), v1, views);
        if m != 0 {
          ghost var v2 := views;
          Grant(owner, m, n);
          GaveAfter(old(views), v2, views, owner, m + MHDR, n);
          return m + MHDR;
        }
      }
      v := MallocCurrent(n, alloc, old(views));
    }

    /** The rest of malloc: the current pool's free list, its bump room, the retired pools,
        growth, and a new pool. */
    method MallocCurrent(n: int, alloc: int, ghost v0: map<int, View>) returns (v: int)
      requires Settled() && n >= 0 && alloc == BlockSize(n) && pool != 0 && LiveKept(v0, views)
      modifies this`oldPools, this`loose, this`relaxed, this`retired, this`pool, this`pool1, this`views,
               this`poolLenNext, memory, cache, kernel
      ensures kernel.refusals == old(kernel.refusals) + if v == 0 then 1 else 0
      ensures HasRoom(old(S()), alloc) ==> v != 0 && kernel.asked == old(kernel.asked)
      ensures Settled()
      ensures v == 0 ==> LiveKept(v0, views)
      ensures v != 0 ==> exists p :: GaveSmall(v0, views, p, v, n)
    {
      hide Inv, Mappings, SlotsOk, Unused, LiveKept, GaveSmall, OthersSame;
      ghost var v1 := views;
      BlockSizeBounds(n);
      PoolInViews(S());
      var m := TakeFree(pool, alloc);
      LiveKeptTwice(v0, v1, views);
      v1 := views;
      if m != 0 {
        Grant(pool, m, n);
        GaveAfter(v0, v1, views, pool, m + MHDR, n);
        return m + MHDR;
      }
      v := MallocBump(n, alloc, v0);
    }

    /** The bump room, the retired pools if there is not enough of it, growth, and a new pool. */
    method MallocBump(n: int, alloc: int, ghost v0: map<int, View>) returns (v: int)
      requires Settled() && n >= 0 && alloc == BlockSize(n) && pool != 0 && LiveKept(v0, views)
      modifies this`oldPools, this`loose, this`relaxed, this`retired, this`pool, this`pool1, this`views,
               this`poolLenNext, memory, cache, kernel
      ensures kernel.refusals == old(kernel.refusals) + if v == 0 then 1 else 0
      ensures HasRoom(old(S()), alloc) && NoUsable(old(views)[old(pool)].free, alloc) ==>
        v != 0 && kernel.asked == old(kernel.asked)
      ensures Settled()
      ensures v == 0 ==> LiveKept(v0, views)
      ensures v != 0 ==> exists p :: GaveSmall(v0, views, p, v, n)
    {
      hide Inv, Mappings, SlotsOk, Unused, LiveKept, GaveSmall, OthersSame;
      ghost var v1 := views;
      BlockSizeBounds(n);
      PoolInViews(S());
      PoolInMaps(S(), pool);
      var offset := PageSkip(pool, memory.mem[pool].size);
      if offset + alloc > memory.mem[pool].len {
        var m := OldPoolTake(alloc);
        LiveKeptTwice(v0, v1, views);
        v1 := views;
        if m != 0 {
          Grant(pool, m, n);
          GaveAfter(v0, v1, views, pool, m + MHDR, n);
          return m + MHDR;
        }
        var failed := MakeRoom(offset, alloc);
        LiveKeptTwice(v0, v1, views);
        v1 := views;
        if failed { return 0; }
        offset := PageSkip(pool, memory.mem[pool].size);
      }
      v := Bump(offset, n);
      GaveAfter(v0, v1, views, pool, v, n);
    }

    /** Grows the current pool, or puts a new one in its place. */
    method MakeRoom(offset: int, alloc: int) returns (failed: bool)
      requires Settled() && pool != 0 && alloc > 0
      requires HasPool(memory.mem, pool) && offset == PageSkip(pool, memory.mem[pool].size)
      modifies this`oldPools, this`retired, this`pool, this`pool1, this`views, this`poolLenNext, memory, cache, kernel
      ensures kernel.refusals == old(kernel.refusals) + if failed then 1 else 0
      ensures Settled() && LiveKept(old(views), views)
      ensures !failed ==>
        && pool != 0 && pool in views && HasPool(memory.mem, pool)
        && PageSkip(pool, memory.mem[pool].size) + alloc <= memory.mem[pool].len
    {
      hide Inv, Mappings, SlotsOk;
      PoolInViews(S());
      PoolInMaps(S(), pool);
      failed := false;
      var ok := PoolGrow(offset + alloc + 8);
      if !ok {
        failed := MkPool(alloc + MSET + 8);
        if failed { return; }
        PoolInViews(S());
        PoolInMaps(S(), pool);
      }
    }

    /** A new block, with no regard to what is under watch. */
    method Allot(n: int) returns (v: int)
      requires Settled() && n >= 0
      modifies this, memory, cache, kernel
      ensures kernel.refusals == old(kernel.refusals) + if v == 0 then 1 else 0
      ensures FromPool(n, old(CurMsetmax())) && HasRoom(old(S()), BlockSize(n)) ==>
        v != 0 && kernel.asked == old(kernel.asked)
      ensures Settled() && aligned == old(aligned) && data == old(data)
      ensures v == 0 ==> LiveKept(old(views), views) && large == old(large)
      ensures v != 0 ==> Gave(old(views), old(large), views, large, v, n)
    {
      hide Inv, GaveSmall, LiveKept;
      LiveKeptSelf(views);
      if n >= CurMsetmax() && !HeaderSpillsPage(n) {
        v := MallocLarge(n);
      } else {
        v := MallocSmall(n);
      }
    }

    method Malloc(n: int) returns (v: int)
      requires Valid() && n >= 0
      modifies this, memory, cache, kernel
      ensures kernel.refusals == old(kernel.refusals) + if v == 0 then 1 else 0
      ensures FromPool(n, old(CurMsetmax())) && HasRoom(old(S()), BlockSize(n)) ==>
        v != 0 && kernel.asked == old(kernel.asked)
      ensures Valid() && aligned == old(aligned)
      ensures v == 0 ==> AllHeld(old(S()), S())
      ensures v != 0 ==>
        && Has(S(), v, n) && SameHeld(old(S()), S(), v, v) && (forall k :: !Has(old(S()), v, k))
        && NoAlias(aligned, v) && exists p :: HasRaw(views, large, v, p, n)
      ensures BytesKept(old(S()), S(), 0)
    {
      hide Inv, Gave, Has, SameHeld, AllHeld, LiveKept, NoAlias, HasRaw, Watch, BytesKept, RawsUnmoved;
      ghost var s := S();
      Watched(s, RawOf(s, 0), 0);
      data := Watch(s, RawOf(s, 0), 0);
      v := Allot(n);
      Unwatched(s, S(), RawOf(s, 0), 0);
      data := map[];
      KeptBytes(s, memory.mem, 0, 0);
      SameBytes(s, S(), 0);
      if v == 0 { KeptHeld(s, S()); } else { GaveHeld(s, S(), v, n); }
    }

    // ---------- free ----------

    /** Where a pool is on the retired list. */
    method FindRetired(ms: int) returns (prev: int, ghost i: nat)
      requires Ready() && ms in retired
      ensures i < |retired| && retired[i] == ms && prev == if i == 0 then 0 else retired[i - 1]
    {
      hide Inv;
      prev, i := 0, 0;
      var p := oldPools;
      EmptyRetired(S());
      ghost var at :| 0 <= at < |retired| && retired[at] == ms;
      while p != ms
        invariant i <= at && p == PoolAt(retired, i) && prev == if i == 0 then 0 else retired[i - 1]
        decreases at - i
      {
        RetiredAt(S(), i);
        prev := p;
        p := memory.mem[p].nextPool;
        i := i + 1;
      }
      RetiredAt(S(), i);
      SameIndex(S(), i, at);
    }

    /** The last live block of a retired pool has gone: the pool becomes the spare, or goes. */
    method DropRetired(ms: int)
      requires Ready() && loose == 0 && relaxed == ms && ms in retired && ms in views && views[ms].live == map[]
      modifies this`oldPools, this`loose, this`relaxed, this`retired, this`pool1, this`views, memory, cache, kernel`maps
      ensures Settled() && views == old(views) - {ms} && SetFree(S(), ms)
    {
      hide Inv, Mappings, SlotsOk;
      var prev;
      ghost var i;
      prev, i := FindRetired(ms);
      RetiredAt(S(), i);
      Unlink(ms, prev, i);
      DropLoose(ms);
    }

    method DropLoose(ms: int)
      requires Ready() && loose == ms != 0 && relaxed == 0 && ms in views && views[ms].live == map[]
               && HasPool(memory.mem, ms)
      modifies this`loose, this`pool1, this`views, cache, kernel`maps
      ensures Settled() && views == old(views) - {ms} && SetFree(S(), ms)
    {
      if pool1 != 0 { GiveLoose(ms); } else { SpareLoose(ms); }
    }

    method GiveLoose(ms: int)
      requires Ready() && loose == ms != 0 && relaxed == 0 && ms in views && views[ms].live == map[]
               && HasPool(memory.mem, ms)
      modifies this`loose, this`views, cache, kernel`maps
      ensures Settled() && views == old(views) - {ms} && SetFree(S(), ms)
    {
      hide Inv, Mappings, SlotsOk;
      ghost var s := S();
      PoolInMaps(s, ms);
      cache.Unmap(ms, memory.mem[ms].len);
      LooseGiven(s, kernel.maps, cache.Parked());
      views := views - {ms};
      loose := 0;
    }

    method SpareLoose(ms: int)
      requires Ready() && loose == ms != 0 && relaxed == 0 && pool1 == 0 && ms in views && views[ms].live == map[]
      modifies this`loose, this`pool1, this`views
      ensures Settled() && views == old(views) - {ms} && SetFree(S(), ms)
    {
      hide Inv, Mappings, SlotsOk;
      LooseToSpare(S());
      pool1 := ms;
      views := views - {ms};
      loose := 0;
    }

    /** Counts a block out of its pool. */
    method Release(ms: int, at: int)
      requires Ready() && ms in views && at in views[ms].live && HasPool(memory.mem, ms)
      requires NoAlias(aligned, at + MHDR) && NoData(data, at + MHDR)
      requires Exempt(S(), ms) || memory.mem[ms].refs > 1
      modifies this`views, memory
      ensures Ready() && views == old(views)[ms := View(old(views)[ms].live - {at}, old(views)[ms].free)]
      ensures HasPool(memory.mem, ms) && Unused(ms, ms + memory.mem[ms].size, views[ms],
                                                LiveBlock(old(views)[ms].live, at))
      ensures memory.mem[ms] == old(memory.mem)[ms].(refs := old(memory.mem)[ms].refs - 1)
    {
      hide Inv, Mappings, SlotsOk, Unused;
      ReleaseDone(S(), ms, at);
      memory.mem := memory.mem[ms := memory.mem[ms].(refs := memory.mem[ms].refs - 1)];
      views := views[ms := View(views[ms].live - {at}, views[ms].free)];
    }

    /** The last live block of a retired pool comes back. */
    method FreeLast(ms: int, at: int)
      requires Settled() && ms in retired && ms in views && at in views[ms].live && NoAlias(aligned, at + MHDR)
               && NoData(data, at + MHDR)
      requires HasPool(memory.mem, ms) && memory.mem[ms].refs == 1
      modifies this`oldPools, this`loose, this`relaxed, this`retired, this`pool1, this`views, memory, cache, kernel`maps
      ensures Settled() && TookSmall(old(views), views, ms, at + MHDR) && ms !in views && SetFree(S(), ms)
    {
      hide Inv, Mappings, SlotsOk, Unused, SetFree;
      Relax(S(), ms);
      relaxed := ms;
      Release(ms, at);
      Drained(S(), ms);
      DropRetired(ms);
    }

    /** A pool block comes back. */
    method FreeSmall(ms: int, at: int)
      requires Settled() && ms in views && at in views[ms].live && NoAlias(aligned, at + MHDR)
               && NoData(data, at + MHDR)
      modifies this`oldPools, this`loose, this`relaxed, this`retired, this`pool1, this`views, memory, cache, kernel`maps
      ensures Settled() && TookSmall(old(views), views, ms, at + MHDR) && Reclaimed(old(S()), S(), at + MHDR, ms)
    {
      hide Inv, Mappings, SlotsOk, Unused, OthersSame, Freed, SetFree;
      ghost var s := S();
      PoolInMaps(s, ms);
      InvViews(s, ms);
      PoolBlockHeader(s, ms, at);
      PoolInViews(s);
      OneLess(views[ms].live, at);
      var size := memory.mem[at].userSize;
      if memory.mem[ms].refs - 1 == 0 && ms != pool {
        FreeLast(ms, at);
        return;
      }
      Release(ms, at);
      ghost var v1 := views;
      BlockSizeBounds(size);
      PutFree(ms, at, BlockSize(size));
      TookAfter(old(views), v1, views, ms, at + MHDR);
      PoolInMaps(S(), ms);
    }

    /** A mapping comes back. */
    method FreeLarge(base: int)
      requires Settled() && base in large && NoAlias(aligned, base + LARGE_HDR) && NoData(data, base + LARGE_HDR)
      modifies this`large, cache, kernel`maps
      ensures Settled() && large == old(large) - {base} && SetFree(S(), base) && base !in views
    {
      hide Inv, Mappings, SlotsOk;
      ghost var s := S();
      LargeOwner(s, base);
      cache.Unmap(base, memory.mem[base].total);
      LargeGiven(s, base, kernel.maps, cache.Parked());
      large := large - {base};
      NotBoth(s, base);
    }

    /** Takes back a raw pointer. */
    method FreeRaw(v: int)
      requires Settled() && Held(S(), v) && v !in aligned && NoData(data, v)
      modifies this, memory, cache, kernel`maps
      ensures Settled() && Took(old(views), old(large), views, large, v) && aligned == old(aligned) && data == old(data)
      ensures BlockReclaimed(old(S()), S(), v)
    {
      hide Inv, Mappings, SlotsOk, TookSmall, Reclaimed, BlockReclaimed, SetFree;
      ghost var s := S();
      Dispatch(S(), v);
      LiveKeptSelf(views);
      var mhdr := v - MHDR;
      if memory.mem[mhdr].moff == LARGE_MOFF {
        FreeLarge(v - LARGE_HDR);
        LargeReclaimed(s, S(), v);
      } else {
        ghost var ms := mhdr - memory.mem[mhdr].moff;
        FreeSmall(mhdr - memory.mem[mhdr].moff, mhdr);
        OwnersReclaimed(s, S(), v, ms);
      }
    }

    /** Takes back an aligned pointer: the raw block behind it goes. */
    method FreeAligned(v: int)
      requires Valid() && Held(S(), v) && v in aligned && v - MHDR - WORD in memory.mem
               && memory.mem[v - MHDR - WORD] == Raw(aligned[v].raw)
      modifies this, memory, cache, kernel`maps
      ensures Valid()
      ensures SameHeld(old(S()), S(), v, v) && forall n :: !Has(S(), v, n)
      ensures BlockReclaimed(old(S()), S(), RawOf(old(S()), v))
              && RawsUnmoved(old(S()), memory.mem, RawOf(old(S()), v), RawOf(old(S()), v))
    {
      hide Inv, Took, Watch, RawsUnmoved, BlockReclaimed;
      ghost var s, raw := S(), RawOf(S(), v);
      AlignedRaw(s, v);
      aligned := aligned - {v};
      ghost var s1 := S();
      Watched(s1, raw, raw);
      data := Watch(s1, raw, raw);
      ghost var s2 := S();
      FreeRaw(memory.mem[v - MHDR - WORD].ptr);
      ghost var s3 := S();
      Unwatched(s1, S(), raw, raw);
      data := map[];
      ReclaimedOnly(s2, s, s3, S(), raw);
      SameRaws(s1, s, memory.mem, raw, raw);
      TookAligned(s, S(), v);
    }

    /** Takes back a pointer that no aligned block hides. */
    method FreePlain(v: int)
      requires Valid() && Held(S(), v) && v !in aligned
      modifies this, memory, cache, kernel`maps
      ensures Valid()
      ensures SameHeld(old(S()), S(), v, v) && forall n :: !Has(S(), v, n)
      ensures BlockReclaimed(old(S()), S(), RawOf(old(S()), v))
              && RawsUnmoved(old(S()), memory.mem, RawOf(old(S()), v), RawOf(old(S()), v))
    {
      hide Inv, Took, Watch, RawsUnmoved, BlockReclaimed;
      ghost var s := S();
      Watched(s, v, v);
      data := Watch(s, v, v);
      ghost var s2 := S();
      FreeRaw(v);
      ghost var s3 := S();
      Unwatched(s, S(), v, v);
      data := map[];
      ReclaimedOnly(s2, s, s3, S(), v);
      TookHeld(s, S(), v);
    }

    method Free(v: int)
      requires Valid() && (v == 0 || Held(S(), v))
      modifies this, memory, cache, kernel`maps
      ensures Valid()
      ensures v == 0 ==> S() == old(S())
      ensures v != 0 ==> SameHeld(old(S()), S(), v, v) && forall n :: !Has(S(), v, n)
      ensures v != 0 ==> BlockReclaimed(old(S()), S(), RawOf(old(S()), v))
      ensures BytesKept(old(S()), S(), v)
    {
      hide Inv, Has, SameHeld, BytesKept, RawsUnmoved, BlockReclaimed;
      if v == 0 {
        KeptNothing(S(), 0, 0);
        return;
      }
      ghost var s := S();
      Dispatch(s, v);
      if memory.mem[v - MHDR].moff == ALIGNED_MOFF {
        AlignedRaw(s, v);
        FreeAligned(v);
      } else {
        FreePlain(v);
      }
      KeptBytes(s, memory.mem, v, RawOf(s, v));
      SameBytes(s, S(), v);
    }

    // ---------- realloc ----------

    /** memcpy: n bytes to another place. */
    method CopyBytes(dst: int, src: int, n: int)
      requires n >= 0 && (dst + n <= src || src + n <= dst)
      modifies memory
      ensures SameOutside(old(memory.mem), memory.mem, dst, dst + n)
      ensures BytesMoved(old(memory.mem), memory.mem, src, dst, n)
    {
      var i := 0;
      while i < n
        invariant 0 <= i <= n && SameOutside(old(memory.mem), memory.mem, dst, dst + i)
        invariant BytesMoved(old(memory.mem), memory.mem, src, dst, i)
      {
        ghost var m1 := memory.mem;
        assert Same(old(memory.mem), m1, src + i);
        if src + i in memory.mem {
          memory.mem := memory.mem[dst + i := memory.mem[src + i]];
        } else {
          memory.mem := memory.mem - {dst + i};
        }
        MovedMore(old(memory.mem), m1, memory.mem, src, dst, i);
        i := i + 1;
      }
    }

    /** Gets a new block, to which the first k bytes are copied, and frees the old one. */
    method Move(v: int, sz: int, k: int, ghost n: int) returns (r: int)
      requires Valid() && Has(S(), v, n) && 0 <= k <= n && k <= sz
      modifies this, memory, cache, kernel
      ensures kernel.refusals == old(kernel.refusals) + if r == 0 then 1 else 0
      ensures Valid()
      ensures r == 0 ==> AllHeld(old(S()), S()) && BytesKept(old(S()), S(), 0)
      ensures r != 0 ==> r != v && Resized(old(S()), S(), v, r, sz) && Carried(old(S()), S(), v, r, k)
    {
      hide Inv, Has, SameHeld, Resized, BytesKept, SameOutside, BytesMoved, Carried;
      ghost var s := S();
      HeldIsHad(s, v, n);
      HeldPositive(s, v, n);
      r := Malloc(sz);
      if r == 0 { return; }
      ghost var s1 := S();
      StillHeld(s, s1, v, r);
      StillHas(s, s1, v, n, r);
      BlocksAreDisjoint(s1, v, n, r, sz);
      CopyBytes(r, v, k);
      ghost var s2 := S();
      MoreOutside(s1.mem, s2.mem, r, k, sz);
      UserWrote(s1, r, sz, s2.mem);
      HasOnly(s1, s2);
      SameHeldOver(s, s1, s2, v, r, sz);
      Free(v);
      Moved(s, s2, S(), v, r, sz);
      CarriedOver(s, s1, s2, S(), v, n, r, sz, k);
    }

    /** Writes the new length and size of a mapping for one large request. */
    method SetLarge(base: int, mapped: int, sz: int, ghost s: Snap)
      requires Inv(s) && base in s.large && base in s.maps && Mappings(s.maps[base := mapped])
               && NoAlias(s.aligned, base + LARGE_HDR)
      requires S() == s.(maps := s.maps[base := mapped]) && 0 <= sz && sz + LARGE_HDR <= mapped
      requires DataBelow(s.data, base + LARGE_HDR, base + LARGE_HDR + sz)
      modifies this`large, memory
      ensures Inv(S()) && Resized(s, S(), base + LARGE_HDR, base + LARGE_HDR, sz)
    {
      hide Inv, Mappings, SlotsOk, NoAlias, SameOutside, LargeAt, Resized;
      LargeOwner(s, base);
      LargeHeader(s, base);
      memory.mem := memory.mem[base := Mapped(mapped)];
      memory.mem := memory.mem[base + MHDR := memory.mem[base + MHDR].(userSize := sz)];
      InvMaps(s);
      Positive(s.maps, base);
      LargeSetUp2(s.mem, base, s.maps[base], mapped, sz);
      LargeDataStays(s, base, mapped, sz);
      LargeResized(s, base, mapped, memory.mem, sz);
      large := large[base := sz];
      LargeHeld(s, S(), base, sz);
    }

    /** Resizes a large block's mapping in place, if the system agrees. */
    method ResizeLarge(base: int, mapped: int, sz: int) returns (ok: bool)
      requires Settled() && base in large && NoAlias(aligned, base + LARGE_HDR) && 0 <= sz && sz + LARGE_HDR <= mapped
               && mapped % PGSIZE == 0
      requires DataBelow(data, base + LARGE_HDR, base + LARGE_HDR + sz)
      modifies this`large, memory, kernel`maps
      ensures Settled()
      ensures if ok then Resized(old(S()), S(), base + LARGE_HDR, base + LARGE_HDR, sz) else S() == old(S())
    {
      hide Inv, Mappings, SlotsOk, NoAlias, Resized;
      ghost var s := S();
      LargeOwner(s, base);
      ok := kernel.Mremap(base, memory.mem[base].total, mapped);
      if !ok { return; }
      SlotsKept(cache.slots, s.maps, base, mapped);
      KernelMaps(kernel);
      SetLarge(base, mapped, sz, s);
    }

    /** Likewise, watching the block's first k bytes and all others. */
    method ResizeInPlace(base: int, mapped: int, sz: int, ghost n: int, ghost k: int) returns (ok: bool)
      requires Valid() && base in large && NoAlias(aligned, base + LARGE_HDR) && 0 <= sz && sz + LARGE_HDR <= mapped
               && mapped % PGSIZE == 0
      requires Has(S(), base + LARGE_HDR, n) && k <= n && k <= sz
      modifies this`large, this`data, memory, kernel`maps
      ensures Valid()
      ensures !ok ==> S() == old(S())
      ensures ok ==> Resized(old(S()), S(), base + LARGE_HDR, base + LARGE_HDR, sz)
      ensures ok ==> Carried(old(S()), S(), base + LARGE_HDR, base + LARGE_HDR, k)
    {
      hide Inv, Has, Resized, NoAlias, Mappings, SlotsOk, AllHeld, Watch, RawsUnmoved, Carried, DataBelow;
      ghost var s, v := S(), base + LARGE_HDR;
      LargeIsRaw(s, base);
      Watched(s, v, v + sz);
      data := Watch(s, v, v + sz);
      ghost var s1 := S();
      ok := ResizeLarge(base, mapped, sz);
      ghost var s2 := S();
      Unwatched(s, s2, v, v + sz);
      data := map[];
      if ok {
        HasOnly(s1, s);
        HasOnly(s2, S());
        ResizedOnly(s1, s, s2, S(), v, v, sz);
        KeptInPlace(s, S(), v, n, k, v + sz);
      }
    }

    /** realloc to a smaller size, for a large block. */
    method ShrinkLarge(v: int, sz: int, ghost oldSize: int) returns (r: int)
      requires Valid() && v - LARGE_HDR in large && NoAlias(aligned, v) && Has(S(), v, oldSize) && 0 < sz <= oldSize
               && Held(S(), v)
      modifies this, memory, cache, kernel
      ensures Valid() && r != 0 && exists n :: Resized(old(S()), S(), v, r, n) && sz <= n <= oldSize
      ensures LargeTail(old(S()), v, sz, old(CurMsetmax())) && kernel.refusals == old(kernel.refusals) ==>
        Resized(old(S()), S(), v, r, sz)
      ensures Carried(old(S()), S(), v, r, sz) && kernel.refusals >= old(kernel.refusals)
    {
      hide Inv, Has, Resized, NoAlias, Mappings, SlotsOk, Held, AllHeld, Watch, RawsUnmoved, Carried, BytesKept,
          DataBelow;
      ghost var s := S();
      LargeOwner(s, v - LARGE_HDR);
      ResizedSame(s, v, oldSize);
      var base := v - LARGE_HDR;
      var mapped := memory.mem[base].total;
      var need := if sz >= CurMsetmax() then RoundPage(sz + LARGE_HDR) else sz + MHDR;
      if sz >= CurMsetmax() && mapped - need >= PGSIZE {
        var ok := ResizeInPlace(base, need, sz, oldSize, sz);
        if ok { return v; }
      }
      KeptNothing(s, v, sz);
      if mapped - need >= PGSIZE {
        r := Move(v, sz, sz, oldSize);
        if r != 0 { return; }
        ResizedAfter(s, S(), v, oldSize);
        KeptAll(s, S(), v, oldSize, sz);
      }
      r := v;
    }

    /** Splits the tail of a pool block off onto its pool's free list. */
    method CutTail(ms: int, at: int, sz: int)
      requires Settled() && ms in views && at in views[ms].live && NoAlias(aligned, at + MHDR)
               && 0 < sz <= views[ms].live[at]
      requires DataBelow(data, at + MHDR, at + MHDR + sz) && BlockSize(views[ms].live[at]) - BlockSize(sz) >= 2 * MHDR
      modifies this`views, memory, kernel`maps
      ensures Settled() && Resized(old(S()), S(), at + MHDR, at + MHDR, sz)
      ensures ms in views && HasPool(memory.mem, ms)
      ensures Freed(old(views)[ms].free, views[ms].free, ms + memory.mem[ms].len,
                    TailBlock(at + MHDR, old(views)[ms].live[at], sz))
    {
      hide Inv, Has, Resized, Mappings, SlotsOk, Unused, OthersSame, Freed;
      ghost var s := S();
      PoolBlockHeader(s, ms, at);
      CutDone(s, ms, at, sz);
      var newBlock := BlockSize(sz);
      var rest := BlockSize(memory.mem[at].userSize) - newBlock;
      memory.mem := memory.mem[at := memory.mem[at].(userSize := sz)];
      views := views[ms := View(views[ms].live[at := sz], views[ms].free)];
      ghost var v1 := views;
      InvViews(s, ms);
      PutFree(ms, at + newBlock, rest);
      assert LiveOf(views, ms) == LiveOf(v1, ms) && forall q :: q != ms ==> LiveOf(views, q) == LiveOf(v1, q);
      CutHeld(s, S(), ms, at + MHDR, sz);
    }

    /** realloc to a smaller size, for a pool block: splits the tail off, if it is big enough
        to be a block. */
    method ShrinkSmall(ms: int, v: int, sz: int)
      requires Valid() && ms in views && v - MHDR in views[ms].live && NoAlias(aligned, v)
               && 0 < sz <= views[ms].live[v - MHDR]
      modifies this`views, this`data, memory, kernel`maps
      ensures Valid()
      ensures exists n :: Resized(old(S()), S(), v, v, n) && sz <= n <= old(views[ms].live[v - MHDR])
      ensures PoolTail(old(views[ms].live[v - MHDR]), sz) ==>
        && Resized(old(S()), S(), v, v, sz)
        && Freed(old(views)[ms].free, views[ms].free, ms + memory.mem[ms].len,
                 TailBlock(v, old(views[ms].live[v - MHDR]), sz))
      ensures Carried(old(S()), S(), v, v, sz)
    {
      hide Inv, Has, Resized, Mappings, SlotsOk, Unused, OthersSame, Watch, RawsUnmoved, Carried, AllHeld;
      ghost var s, n := S(), views[ms].live[v - MHDR];
      var at := v - MHDR;
      PoolBlockHeader(s, ms, at);
      HasSmall(s, ms, at);
      if BlockSize(memory.mem[at].userSize) - BlockSize(sz) >= 2 * MHDR {
        NotHidden(s, v, ms);
        Watched(s, v, v + sz);
        data := Watch(s, v, v + sz);
        ghost var s1 := S();
        CutTail(ms, at, sz);
        ghost var s2 := S();
        Unwatched(s, s2, v, v + sz);
        data := map[];
        HasOnly(s1, s);
        HasOnly(s2, S());
        ResizedOnly(s1, s, s2, S(), v, v, sz);
        KeptInPlace(s, S(), v, n, sz, v + sz);
        return;
      }
      ResizedSame(s, v, n);
      KeptNothing(s, v, sz);
    }

    /** realloc to a smaller size, for an aligned block: only the size it reports changes. */
    method ShrinkAligned(v: int, sz: int, ghost oldSize: int)
      requires Valid() && v in aligned && Has(S(), v, oldSize) && 0 < sz <= oldSize == aligned[v].size
      requires v - MHDR in memory.mem && memory.mem[v - MHDR].Header?
      modifies this`aligned, this`data, memory
      ensures Valid() && Resized(old(S()), S(), v, v, sz) && Carried(old(S()), S(), v, v, sz)
    {
      hide Inv, Resized, Mappings, SlotsOk, Watch, RawsUnmoved, BytesKept, NoData;
      ghost var s, raw := S(), RawOf(S(), v);
      Watched(s, raw, raw);
      data := Watch(s, raw, raw);
      AlignedResized(S(), v, sz);
      memory.mem := memory.mem[v - MHDR := memory.mem[v - MHDR].(userSize := sz)];
      aligned := aligned[v := aligned[v].(size := sz)];
      Unwatched(s, S(), raw, raw);
      data := map[];
      AlignedHeld(s, S(), v, sz);
      HeldIsHad(s, v, oldSize);
      KeptBytes(s, memory.mem, v, raw);
      SameBytes(s, S(), v);
      forall i | 0 <= i < sz ensures CameAlong(s.mem, memory.mem, v, v, i) {}
    }

    /** realloc to a smaller size. */
    method Shrink(v: int, sz: int, oldSize: int) returns (r: int)
      requires Valid() && v != 0 && Has(S(), v, oldSize) && 0 < sz <= oldSize
      modifies this, memory, cache, kernel
      ensures Valid() && r != 0 && exists n :: Resized(old(S()), S(), v, r, n) && sz <= n <= oldSize
      ensures Tail(old(S()), v, sz, oldSize, old(CurMsetmax())) && kernel.refusals == old(kernel.refusals) ==>
        Resized(old(S()), S(), v, r, sz)
      ensures Carried(old(S()), S(), v, r, sz) && kernel.refusals >= old(kernel.refusals)
    {
      hide Inv, Resized, Mappings, SlotsOk, Carried, LargeTail, PoolTail, Freed;
      ghost var s := S();
      HeldIsHad(s, v, oldSize);
      Dispatch(s, v);
      SizeThere(s, v, oldSize);
      LargeShows(s, v);
      var mhdr := v - MHDR;
      var moff := memory.mem[mhdr].moff;
      if moff == LARGE_MOFF {
        r := ShrinkLarge(v, sz, oldSize);
        return;
      }
      if moff >= 0 {
        ShrinkSmall(mhdr - moff, v, sz);
        return v;
      }
      ShrinkAligned(v, sz, oldSize);
      r := v;
    }

    /** Grows a large block where it is, if its mapping has room or can get it. */
    method GrowLarge(v: int, sz: int, ghost n: int) returns (ok: bool)
      requires Valid() && v - LARGE_HDR in large && NoAlias(aligned, v) && Has(S(), v, n) && 0 <= n < sz
      modifies this`large, this`data, memory, kernel`maps
      ensures Valid()
      ensures !ok ==> S() == old(S())
      ensures ok ==> Resized(old(S()), S(), v, v, sz) && Carried(old(S()), S(), v, v, n)
      ensures RoomInMapping(old(S()), v, sz) ==> ok
    {
      hide Inv, Has, Resized, Mappings, SlotsOk, NoAlias, AllHeld, Watch, RawsUnmoved, Carried, DataBelow;
      ghost var s := S();
      var base := v - LARGE_HDR;
      LargeOwner(s, base);
      var mapped := memory.mem[base].total;
      if sz + LARGE_HDR <= mapped {
        GrowInMapping(v, sz, mapped, n);
        return true;
      }
      ok := ResizeInPlace(base, RoundPage(sz + LARGE_HDR), sz, n, n);
    }

    /** The mapping has room enough as it is. */
    method GrowInMapping(v: int, sz: int, mapped: int, ghost n: int)
      requires Valid() && v - LARGE_HDR in large && NoAlias(aligned, v) && Has(S(), v, n) && 0 <= n < sz
      requires v - LARGE_HDR in kernel.maps && kernel.maps[v - LARGE_HDR] == mapped && sz + LARGE_HDR <= mapped
      modifies this`large, this`data, memory
      ensures Valid() && Resized(old(S()), S(), v, v, sz) && Carried(old(S()), S(), v, v, n)
    {
      hide Inv, Has, Resized, Mappings, SlotsOk, NoAlias, AllHeld, Watch, RawsUnmoved, Carried, DataBelow;
      ghost var s := S();
      var base := v - LARGE_HDR;
      InvMaps(s);
      SameMap(s.maps, base);
      LargeIsRaw(s, base);
      Watched(s, v, v + sz);
      data := Watch(s, v, v + sz);
      ghost var s1 := S();
      SetLarge(base, mapped, sz, s1);
      ghost var s2 := S();
      Unwatched(s, s2, v, v + sz);
      data := map[];
      HasOnly(s1, s);
      HasOnly(s2, S());
      ResizedOnly(s1, s, s2, S(), v, v, sz);
      KeptInPlace(s, S(), v, n, n, v + sz);
    }

    method Realloc(v: int, sz: int) returns (r: int)
      requires Valid() && (v == 0 || Held(S(), v)) && sz >= 0
      modifies this, memory, cache, kernel
      ensures r == 0 && (v == 0 || sz > 0) ==> kernel.refusals > old(kernel.refusals)
      ensures Valid()
      ensures v == 0 && r == 0 ==> AllHeld(old(S()), S())
      ensures v == 0 && r != 0 ==> Has(S(), r, sz) && SameHeld(old(S()), S(), r, r) && forall k :: !Has(old(S()), r, k)
      ensures v != 0 && sz == 0 ==> r == 0 && SameHeld(old(S()), S(), v, v) && forall n :: !Has(S(), v, n)
      ensures v != 0 && sz > 0 && r == 0 ==> AllHeld(old(S()), S())
      ensures v != 0 && sz > 0 && r != 0 ==>
        exists n :: Resized(old(S()), S(), v, r, n) && (n == sz || sz <= n <= old(MSize(v)))
      ensures v != 0 && sz > 0 && r != 0 ==> Carried(old(S()), S(), v, r, Smaller(old(MSize(v)), sz))
      ensures v == 0 || r == 0 ==> BytesKept(old(S()), S(), if sz == 0 then v else 0)
      ensures v != 0 && 0 < sz <= old(MSize(v)) && Tail(old(S()), v, sz, old(MSize(v)), old(CurMsetmax()))
              && kernel.refusals == old(kernel.refusals) ==>
                Resized(old(S()), S(), v, r, sz)
      ensures v != 0 && sz > 0 && sz > old(MSize(v)) && RoomInMapping(old(S()), v, sz) ==> r == v
    {
      hide Inv, Has, Resized, Mappings, SlotsOk, NoAlias, AllHeld, SameHeld, BytesKept, Carried;
      if v == 0 {
        r := Malloc(sz);
        return;
      }
      if sz == 0 {
        Free(v);
        return 0;
      }
      ghost var s := S();
      Dispatch(s, v);
      var oldSize := MSize(v);
      HadSize(s, v);
      if sz <= oldSize {
        r := Shrink(v, sz, oldSize);
        return;
      }
      HeldPositive(s, v, oldSize);
      LargeShows(s, v);
      if memory.mem[v - MHDR].moff == LARGE_MOFF {
        var ok := GrowLarge(v, sz, oldSize);
        if ok { return v; }
      }
      r := Move(v, sz, oldSize, oldSize);
    }

    // ---------- aligned allocation ----------

    /** Writes the header of an aligned block inside a raw one, and below it the raw pointer. */
    method SetAligned(user: int, raw: int, size: int, ghost owner: int, ghost room: int)
      requires Valid() && HasRaw(views, large, raw, owner, room) && NoAlias(aligned, raw) && size >= 0
      requires raw + WORD + MHDR <= user && user + size <= raw + room
      modifies this`aligned, memory
      ensures Valid() && Has(S(), user, size) && NewAligned(old(S()), S(), user, raw)
      ensures SameOutside(old(memory.mem), memory.mem, raw, raw + room)
    {
      hide Inv, Mappings, SlotsOk, NoAlias;
      ghost var s := S();
      memory.mem := memory.mem[user - MHDR := Header(ALIGNED_MOFF, size)];
      memory.mem := memory.mem[user - MHDR - WORD := Raw(raw)];
      AlignedWritten(s, user, raw, size, owner, memory.mem);
      AlignedSet(s, user, Aligned(raw, owner, size), memory.mem);
      aligned := aligned[user := Aligned(raw, owner, size)];
    }

    /** A block aligned to more than malloc promises; the alignment is a power of two. */
    method AllocAligned(alignment: int, size: int) returns (user: int)
      requires Valid() && alignment > 0 && size >= 0
      modifies this, memory, cache, kernel
      ensures kernel.refusals == old(kernel.refusals) + if user == 0 then 1 else 0
      ensures Valid()
      ensures user == 0 ==> AllHeld(old(S()), S())
      ensures user != 0 ==> user % alignment == 0 && Has(S(), user, size) && SameHeld(old(S()), S(), user, user)
      ensures user != 0 ==> forall k :: !Has(old(S()), user, k)
      ensures BytesKept(old(S()), S(), 0)
    {
      hide Inv, Mappings, SlotsOk, NoAlias, Has, SameHeld, AllHeld, NewAligned, BytesKept, SameOutside;
      ghost var s := S();
      var raw := Malloc(size + alignment + MHDR + WORD);
      if raw == 0 { return 0; }
      ghost var s1 := S();
      ghost var owner :| HasRaw(views, large, raw, owner, size + alignment + MHDR + WORD);
      RawHeader(s1, raw, owner);
      user := RoundUp(raw + WORD + MHDR, alignment);
      SetAligned(user, raw, size, owner, size + alignment + MHDR + WORD);
      AlignedNew(s, s1, S(), user, raw, owner, size);
      KeptOver(s, s1, S(), raw, size + alignment + MHDR + WORD);
    }

    /** posix_memalign: 0, or the error and the pointer that out receives. */
    method PosixMemalign(alignment: int, size: int) returns (error: int, out: int)
      requires Valid() && size >= 0
      modifies this, memory, cache, kernel
      ensures error == EINVAL || error == ENOMEM || error == 0
      ensures error != EINVAL ==> (error == ENOMEM <==> kernel.refusals > old(kernel.refusals))
      ensures Valid()
      ensures error == EINVAL <==> alignment < WORD || !PowerOfTwo(alignment)
      ensures error != 0 || size == 0 ==> AllHeld(old(S()), S())
      ensures error == 0 && size == 0 ==> out == 0
      ensures error == 0 && size != 0 ==>
        && out != 0 && Has(S(), out, size) && SameHeld(old(S()), S(), out, out)
        && (alignment > 8 ==> out % alignment == 0) && forall k :: !Has(old(S()), out, k)
      ensures BytesKept(old(S()), S(), 0)
    {
      hide Inv, Has, SameHeld, BytesKept;
      KeptNothing(S(), 0, 0);
      if alignment < WORD || !PowerOfTwo(alignment) { return EINVAL, 0; }
      if size == 0 { return 0, 0; }
      if alignment <= 8 { out := Malloc(size); } else { out := AllocAligned(alignment, size); }
      error := if out == 0 then ENOMEM else 0;
    }

    /** The size recorded for a block. */
    function MSize(v: int): (n: int)
      reads this, memory
    {
      if v - MHDR in memory.mem && memory.mem[v - MHDR].Header? then memory.mem[v - MHDR].userSize else 0
    }
  }

  /** What realloc cuts off a pool block is large enough to be a block. */
  predicate PoolTail(oldSize: int, sz: int)
    requires 0 < sz <= oldSize
  {
    BlockSize(oldSize) - BlockSize(sz) >= 2 * MHDR
  }

  function TailBlock(v: int, oldSize: int, sz: int): Block
    requires 0 < sz <= oldSize
  {
    Block(v - MHDR + BlockSize(sz), BlockSize(oldSize) - BlockSize(sz))
  }

  /** What realloc leaves of a large block makes at least a page free. */
  predicate LargeTail(s: Snap, v: int, sz: int, msetmax: int) {
    v - LARGE_HDR in s.maps
    && s.maps[v - LARGE_HDR] - (if sz >= msetmax then RoundPage(sz + LARGE_HDR) else sz + MHDR) >= PGSIZE
  }

  /** A smaller size for v is worth something. */
  predicate Tail(s: Snap, v: int, sz: int, oldSize: int, msetmax: int)
    requires 0 < sz <= oldSize
  {
    v in s.aligned || if v - LARGE_HDR in s.large then LargeTail(s, v, sz, msetmax) else PoolTail(oldSize, sz)
  }

  /** v is a large block and its mapping has room for sz bytes. */
  predicate RoomInMapping(s: Snap, v: int, sz: int) {
    v !in s.aligned && v - LARGE_HDR in s.large && v - LARGE_HDR in s.maps && sz + LARGE_HDR <= s.maps[v - LARGE_HDR]
  }

  /** The header in front of a large block says so. */
  lemma LargeShows(s: Snap, v: int)
    requires Inv(s) && Held(s, v)
    ensures v !in s.aligned && v - LARGE_HDR in s.large ==>
      v - MHDR in s.mem && s.mem[v - MHDR].Header? && s.mem[v - MHDR].moff == LARGE_MOFF
  {
    hide Inv;
    if v !in s.aligned && v - LARGE_HDR in s.large { LargeHeader(s, v - LARGE_HDR); }
  }

  lemma PoolRecordSame(s: Snap, m': Mem)
    requires Inv(s) && OnlyBounds(s.mem, m', s.retired)
    ensures s.pool != 0 ==> Same(s.mem, m', s.pool)
  {
    hide Inv;
    PoolInViews(s);
    if s.pool != 0 { NoRecordSame(s, m', s.pool); }
  }

  /** Whether malloc serves a request from a pool, given the largest object of the present class. */
  predicate FromPool(n: int, msetmax: int) { n < msetmax || HeaderSpillsPage(n) }

  /** There is a pool, and its free list or its bump room, or a retired pool's free list, has a
      block of alloc bytes. */
  ghost predicate HasRoom(s: Snap, alloc: int) {
    && s.pool != 0 && s.pool in s.views && HasPool(s.mem, s.pool)
    && (|| !NoUsable(s.views[s.pool].free, alloc)
        || PageSkip(s.pool, s.mem[s.pool].size) + alloc <= s.mem[s.pool].len
        || exists j :: 0 <= j < |s.retired| && s.retired[j] in s.views && !NoUsable(s.views[s.retired[j]].free, alloc))
  }

  /** The bump room of the pool with record p, from the next multiple of 8 on, went on its free list,
      unless it is too short for a block. */
  ghost predicate RoomFreed(p: Cell, ms: int, bs: seq<Block>, out: seq<Block>)
    requires p.Pool?
  {
    var tail := (p.size + 7) / 8 * 8;
    if p.len - tail >= 2 * MHDR then Freed(bs, out, ms + p.len, Block(ms + tail, p.len - tail)) else out == bs
  }

  /** The mapping at p is the spare, or parked, or the system's again. */
  ghost predicate SetFree(s: Snap, p: int) { p == s.pool1 || p in s.parked || p !in s.maps }

  /** The bytes of the block behind raw pointer v are on the free list of its pool, apart from what the
      pool gave back; or its whole mapping is free. */
  ghost predicate Reclaimed(s: Snap, s': Snap, v: int, p: int) {
    if p in s.views && v - MHDR in s.views[p].live && p in s'.views && p in s'.maps
    then Freed(s.views[p].free, s'.views[p].free, p + s'.maps[p], LiveBlock(s.views[p].live, v - MHDR))
    else SetFree(s', p)
  }

  ghost predicate BlockReclaimed(s: Snap, s': Snap, v: int) {
    forall p :: RawSize(s.views, s.large, v, p) >= 0 ==> Reclaimed(s, s', v, p)
  }

  /** What became of the bytes does not depend on what is under watch or aligned. */
  lemma ReclaimedOnly(s: Snap, s0: Snap, s': Snap, s0': Snap, v: int)
    requires BlockReclaimed(s, s', v) && s0.views == s.views && s0.large == s.large
    requires s0'.views == s'.views && s0'.maps == s'.maps && s0'.pool1 == s'.pool1 && s0'.parked == s'.parked
    ensures BlockReclaimed(s0, s0', v)
  {
    forall p | RawSize(s0.views, s0.large, v, p) >= 0 ensures Reclaimed(s0, s0', v, p) {
      assert Reclaimed(s, s', v, p);
    }
  }

  /** Block k, at address at, is the first that will do. */
  ghost predicate FirstFit(bs: seq<Block>, alloc: int, at: int, k: nat) {
    k < |bs| && bs[k].at == at && Usable(bs[k], alloc) && forall i :: 0 <= i < k ==> !Usable(bs[i], alloc)
  }

  ghost predicate PickedAt(pools: seq<int>, lists: Lists, i: nat, k: nat, owner: int, at: int) {
    i < |pools| && pools[i] in lists && k < |lists[pools[i]]| && owner == pools[i] && at == lists[pools[i]][k].at
  }

  lemma KernelMaps(kernel: Kernel)
    requires kernel.Valid()
    ensures Mappings(kernel.maps)
  {
  }

  lemma PickFacts(s: Snap, lists: Lists, alloc: int, i: nat, k: nat)
    requires Inv(s) && s.relaxed == 0 && lists == ListsOf(s.views) && alloc > 0
             && PickOfAll(s.retired, lists, |s.retired|, alloc, i, k)
    ensures i < |s.retired| && s.retired[i] in s.views && s.retired[i] in lists && k < |s.views[s.retired[i]].free|
    ensures lists[s.retired[i]] == s.views[s.retired[i]].free && alloc <= s.views[s.retired[i]].free[k].size
    ensures s.views[s.retired[i]].free[k].at != 0
    ensures RetiredOk(s.mem, s.retired[i], s.views[s.retired[i]].free) && s.retired[i] in s.retired
            && HasPool(s.mem, s.retired[i])
  {
    RetiredLists(s, i);
    OrderedAt(s.views[s.retired[i]].free, k);
  }

  /** A pool with nothing in it. */
  ghost predicate Empty(p: int, views: map<int, View>, m: Mem) {
    p in views && views[p] == EMPTY && HasPool(m, p) && m[p].size == MSET && m[p].refs == 0
  }

  lemma MappedNow(s: Snap, base: int, maps': map<int, int>, parked': set<int>)
    requires Mappings(maps') && base in maps' && base !in parked' && parked' <= s.parked
    requires base !in s.maps.Keys - s.parked && maps'.Keys == (s.maps.Keys - s.parked) + parked' + {base}
    requires forall b :: b in maps' && b in s.maps && b != base ==> maps'[b] == s.maps[b]
    ensures MappedAs(s.maps, s.parked, base, maps', parked')
  {
  }

  lemma NotInViews(s: Snap, base: int, maps': map<int, int>, parked': set<int>)
    requires Inv(s) && MappedAs(s.maps, s.parked, base, maps', parked')
    ensures base !in s.views && base !in s.large
  {
    MappedApart(s, base, maps', parked');
  }

  function RoundUp(a: int, alignment: int): (r: int)
    requires alignment > 0
    ensures a <= r < a + alignment && r % alignment == 0
  {
    RoundUpMeans(a, alignment);
    (a + alignment - 1) / alignment * alignment
  }

  lemma RoundUpMeans(a: int, alignment: int)
    requires alignment > 0
    ensures var r := (a + alignment - 1) / alignment * alignment; a <= r < a + alignment && r % alignment == 0
  {
    var b := a + alignment - 1;
    assert b == b / alignment * alignment + b % alignment;
    MultipleOf(b / alignment, alignment);
  }

  lemma MultipleOf(q: int, d: int)
    requires d > 0
    ensures (q * d) % d == 0
  {
    var r := (q * d) % d;
    var k := (q * d) / d;
    assert q * d == k * d + r;
    assert r == (q - k) * d;
    assert (k - q) * d == -r;
    if q - k >= 1 { MultipleIsLarge(q - k, d); }
    if k - q >= 1 { MultipleIsLarge(k - q, d); }
  }

  lemma MultipleIsLarge(a: int, d: int)
    requires a >= 1 && d > 0
    ensures a * d >= d
  {
  }

  /** The raw block at raw is hidden behind the aligned one at user. */
  ghost predicate NewAligned(s: Snap, s': Snap, user: int, raw: int) {
    && s'.views == s.views && s'.large == s.large
    && user in s'.aligned && s'.aligned == s.aligned[user := s'.aligned[user]] && s'.aligned[user].raw == raw
  }

  lemma AlignedWritten(s: Snap, user: int, raw: int, size: int, owner: int, m': Mem)
    requires size >= 0 && raw + WORD + MHDR <= user && user + size <= raw + RawSize(s.views, s.large, raw, owner)
    requires m' == s.mem[user - MHDR := Header(ALIGNED_MOFF, size)][user - MHDR - WORD := Raw(raw)]
    ensures AlignedAt(m', s.views, s.large, user, Aligned(raw, owner, size))
    ensures SameOutside(s.mem, m', raw, raw + RawSize(s.views, s.large, raw, owner))
  {
  }

  lemma AlignedNew(s: Snap, s1: Snap, s2: Snap, user: int, raw: int, owner: int, size: int)
    requires Inv(s1) && Inv(s2) && SameHeld(s, s1, raw, raw) && (forall k :: !Has(s, raw, k)) && s1.aligned == s.aligned
    requires HasRaw(s1.views, s1.large, raw, owner, RawSize(s1.views, s1.large, raw, owner)) && NoAlias(s1.aligned, raw)
    requires NewAligned(s1, s2, user, raw) && Has(s2, user, size) && user > raw
    requires raw + WORD + MHDR <= user && user <= raw + RawSize(s1.views, s1.large, raw, owner)
    ensures SameHeld(s, s2, user, user) && forall k :: !Has(s, user, k)
  {
    hide Inv, NoAlias;
    NotAlignedBefore(s1, user, raw, owner);
    AlignedNoRaw(s2, user);
    assert user !in s1.aligned;
    forall k ensures !Has(s, user, k) {
      assert !Has(s1, user, k);
    }
    AliasIsLive(s2, user);
    RawIsNoAlias(s2, user);
    forall w, k | w != user ensures Has(s2, w, k) <==> Has(s, w, k) {
      if w != raw {
        AliasSame(s1, s2, user, raw, w);
        assert Has(s2, w, k) <==> Has(s1, w, k);
      } else {
        HiddenRaw(s2, user, raw);
      }
    }
  }

  lemma HiddenRaw(s: Snap, user: int, raw: int)
    requires user in s.aligned && s.aligned[user].raw == raw && raw !in s.aligned
    ensures forall k :: !Has(s, raw, k)
  {
  }

  lemma AliasSame(s1: Snap, s2: Snap, user: int, raw: int, w: int)
    requires NewAligned(s1, s2, user, raw) && w != raw && user !in s1.aligned
    ensures NoAlias(s2.aligned, w) <==> NoAlias(s1.aligned, w)
  {
    if NoAlias(s2.aligned, w) { forall x | x in s1.aligned ensures s1.aligned[x].raw != w { assert x in s2.aligned; } }
  }

  /** Inside a raw block that no aligned one uses there is no aligned pointer. */
  lemma NotAlignedBefore(s: Snap, user: int, raw: int, owner: int)
    requires Inv(s) && RawSize(s.views, s.large, raw, owner) >= 0 && NoAlias(s.aligned, raw)
    requires raw < user <= raw + RawSize(s.views, s.large, raw, owner)
    ensures user !in s.aligned
  {
    hide Inv;
    if user in s.aligned {
      AlignedRange(s, user);
      AlignedHeader(s, user);
      RawDisjoint(s, raw, owner, s.aligned[user].raw, s.aligned[user].owner);
    }
  }

  /** The bump pointer moves on so that no user pointer is page-aligned. */
  function PageSkip(p: int, offset: int): int { if (p + offset + MHDR) % PGSIZE == 0 then offset + LONG else offset }

  lemma SkipFits(p: int, end: int, len: int)
    requires p % PGSIZE == 0 && len % PGSIZE == 0 && end <= len
    ensures end <= PageSkip(p, end) <= len
  {
    if (p + end + MHDR) % PGSIZE == 0 {
      PagesOff(p, end + MHDR);
      if end + MHDR > len { PagesApart(end + MHDR, len); }
    }
  }

  lemma PagesOff(p: int, x: int)
    requires p % PGSIZE == 0
    ensures (p + x) % PGSIZE == x % PGSIZE
  {
  }

  lemma PagesApart(a: int, b: int)
    requires a % PGSIZE == 0 && b % PGSIZE == 0 && a > b
    ensures a >= b + PGSIZE
  {
  }

  /** A request whose header alone would spill onto another page. */
  predicate HeaderSpillsPage(n: int) {
    var rem := (n + LARGE_HDR) % PGSIZE;
    n < MSETMAX_CAP && rem != 0 && rem <= LARGE_HDR
  }

  lemma GrantWrites(s: Snap, owner: int, at: int, n: int)
    requires Inv(s) && owner in s.views && HasPool(s.mem, owner)
    requires Unused(owner, owner + s.mem[owner].size, s.views[owner], Block(at, BlockSize(n)))
    ensures at > owner > 0
  {
    PoolInMaps(s, owner);
  }

  lemma LargeSetUp(m: Mem, b: int, total: int, n: int)
    requires n >= 0 && n + LARGE_HDR <= total
    ensures var m' := m[b := Mapped(total)][b + MHDR := Header(LARGE_MOFF, n)];
            LargeAt(m', b, total, n) && SameOutside(m, m', b, b + total)
  {
  }

  lemma SameIndex(s: Snap, i: nat, j: nat)
    requires Inv(s) && i < |s.retired| && j < |s.retired| && s.retired[i] == s.retired[j]
    ensures i == j
  {
  }

  lemma InvViews(s: Snap, p: int)
    requires Inv(s) && p in s.views && s.loose == 0
    ensures p == s.pool || p in s.retired
  {
    ViewsKeys(s);
  }

  lemma AlignedRaw(s: Snap, u: int)
    requires Inv(s) && u in s.aligned
    ensures Inv(s.(aligned := s.aligned - {u})) && Held(s.(aligned := s.aligned - {u}), s.aligned[u].raw)
    ensures u - MHDR - WORD in s.mem && s.mem[u - MHDR - WORD] == Raw(s.aligned[u].raw)
            && s.aligned[u].raw !in s.aligned
  {
    hide Inv;
    AlignedDropped(s, u);
    AlignedRange(s, u);
    AlignedHeader(s, u);
    RawIsNoAlias(s, u);
  }

  /** A raw pointer is no aligned pointer: the headers in front of them differ. */
  lemma RawIsNoAlias(s: Snap, u: int)
    requires Inv(s) && u in s.aligned && RawSize(s.views, s.large, s.aligned[u].raw, s.aligned[u].owner) >= 0
    ensures s.aligned[u].raw !in s.aligned
  {
    hide Inv;
    RawHeader(s, s.aligned[u].raw, s.aligned[u].owner);
    if s.aligned[u].raw in s.aligned { AlignedHeader(s, s.aligned[u].raw); }
  }

  lemma StillHeld(s: Snap, s1: Snap, v: int, r: int)
    requires Held(s, v) && SameHeld(s, s1, r, r) && (forall k :: !Has(s, r, k))
    ensures Held(s1, v) && r != v
  {
    var n := HeldHas(s, v);
    assert Has(s1, v, n);
    HeldIsHad(s1, v, n);
  }

  lemma StillHas(s: Snap, s1: Snap, v: int, n: int, r: int)
    requires Has(s, v, n) && SameHeld(s, s1, r, r) && r != v
    ensures Has(s1, v, n)
  {
  }

  lemma MoreOutside(m: Mem, m': Mem, at: int, k: int, n: int)
    requires SameOutside(m, m', at, at + k) && k <= n
    ensures SameOutside(m, m', at, at + n)
  {
  }

  lemma SameHeldOver(s: Snap, s1: Snap, s2: Snap, v: int, r: int, sz: int)
    requires SameHeld(s, s1, r, r) && AllHeld(s1, s2) && Held(s1, v) && Has(s1, r, sz)
    requires s2.views == s1.views && s2.large == s1.large && s2.aligned == s1.aligned
    ensures SameHeld(s, s2, r, r) && Held(s2, v) && Has(s2, r, sz)
  {
  }

  /** The block at raw is new and the only one that was written to. */
  lemma KeptOver(s: Snap, s1: Snap, s2: Snap, raw: int, room: int)
    requires Inv(s) && Inv(s1) && SameHeld(s, s1, raw, raw) && (forall k :: !Has(s, raw, k)) && Has(s1, raw, room)
    requires BytesKept(s, s1, 0) && SameOutside(s1.mem, s2.mem, raw, raw + room)
    ensures BytesKept(s, s2, 0)
  {
    hide Inv;
    forall u, n | Has(s, u, n) && u != 0 ensures BytesUnmoved(s.mem, s2.mem, u, n) {
      assert Has(s1, u, n);
      BlocksAreDisjoint(s1, u, n, raw, room);
      UnmovedOver(s.mem, s1.mem, s2.mem, s2.mem, u, n, raw, room);
    }
  }

  function Smaller(a: int, b: int): int { if a < b then a else b }

  lemma OwnersReclaimed(s: Snap, s': Snap, v: int, p: int)
    requires Inv(s) && RawSize(s.views, s.large, v, p) >= 0 && Reclaimed(s, s', v, p)
    ensures BlockReclaimed(s, s', v)
  {
    hide Inv, RawSize, Reclaimed;
    forall q | RawSize(s.views, s.large, v, q) >= 0 ensures Reclaimed(s, s', v, q) { OneOwner(s, v, p, q); }
  }

  lemma LargeReclaimed(s: Snap, s': Snap, v: int)
    requires Inv(s) && v - LARGE_HDR in s.large && SetFree(s', v - LARGE_HDR)
    ensures BlockReclaimed(s, s', v)
  {
    hide Inv, SetFree;
    var p := v - LARGE_HDR;
    NotBoth(s, p);
    LargeOwner(s, p);
    OwnersReclaimed(s, s', v, p);
  }

  lemma OthersTwice(views: map<int, View>, views': map<int, View>, p: int, m: Mem, m1: Mem, m2: Mem)
    requires OthersSame(views, p, m, m1) && OthersSame(views', p, m1, m2) && views'.Keys == views.Keys
    ensures OthersSame(views, p, m, m2)
  {
    forall q | q in views && q != p ensures HasPool(m, q) && HasPool(m2, q) && m2[q] == m[q] { assert q in views'; }
  }

  lemma HeldHas(s: Snap, v: int) returns (n: int)
    requires Held(s, v)
    ensures Has(s, v, n)
  {
    if v in s.aligned {
      n := s.aligned[v].size;
    } else {
      var p :| RawSize(s.views, s.large, v, p) >= 0;
      n := RawSize(s.views, s.large, v, p);
      assert HasRaw(s.views, s.large, v, p, n);
    }
  }

  lemma LargeHeader(s: Snap, b: int)
    requires Inv(s) && b in s.large
    ensures b in s.mem && s.mem[b].Mapped? && b + MHDR in s.mem && s.mem[b + MHDR] == Header(LARGE_MOFF, s.large[b])
    ensures b in s.maps && s.mem[b].total == s.maps[b]
  {
    LargeOwner(s, b);
  }

  lemma LargeSetUp2(m: Mem, b: int, len: int, mapped: int, n: int)
    requires 0 <= n && n + LARGE_HDR <= mapped && b + MHDR in m && m[b + MHDR].Header? && m[b + MHDR].moff == LARGE_MOFF
    ensures var m' := m[b := Mapped(mapped)][b + MHDR := m[b + MHDR].(userSize := n)];
            LargeAt(m', b, mapped, n) && SameOutside(m, m', b, b + Larger(len, mapped))
  {
  }

  lemma LargeDataStays(s: Snap, b: int, mapped: int, n: int)
    requires Inv(s) && b in s.large && b + MHDR in s.mem && s.mem[b + MHDR].Header?
             && DataBelow(s.data, b + LARGE_HDR, b + LARGE_HDR + n)
    ensures var m' := s.mem[b := Mapped(mapped)][b + MHDR := s.mem[b + MHDR].(userSize := n)];
            DataStays(s.data, b + LARGE_HDR, s.mem, m', b + LARGE_HDR + n)
  {
    hide Inv;
    var m' := s.mem[b := Mapped(mapped)][b + MHDR := s.mem[b + MHDR].(userSize := n)];
    forall a | a in s.data && s.data[a].raw == b + LARGE_HDR ensures Same(s.mem, m', a) { InvDatum(s, a); }
  }

  lemma LargeIsRaw(s: Snap, b: int)
    requires Inv(s) && b in s.large
    ensures RawOf(s, b + LARGE_HDR) == b + LARGE_HDR
  {
    hide Inv;
    LargeOwner(s, b);
    NotBoth(s, b);
    NotHidden(s, b + LARGE_HDR, b);
  }

  lemma ResizedAfter(s: Snap, s': Snap, v: int, n: int)
    requires Has(s, v, n) && AllHeld(s, s')
    ensures Resized(s, s', v, v, n)
  {
  }

  lemma HasSmall(s: Snap, p: int, at: int)
    requires Inv(s) && p in s.views && at in s.views[p].live && NoAlias(s.aligned, at + MHDR)
    ensures Has(s, at + MHDR, s.views[p].live[at])
  {
    PoolBlockHeader(s, p, at);
    assert HasRaw(s.views, s.large, at + MHDR, p, s.views[p].live[at]);
  }

  /** The header records the size. */
  lemma SizeThere(s: Snap, v: int, n: int)
    requires Inv(s) && Has(s, v, n) && v - MHDR in s.mem && s.mem[v - MHDR].Header?
    ensures s.mem[v - MHDR].userSize == n
  {
    hide Inv;
    if v in s.aligned {
      AlignedHeader(s, v);
      if s.aligned[v].size != n {
        var p :| HasRaw(s.views, s.large, v, p, n);
        AlignedNoRaw(s, v);
      }
      return;
    }
    var p :| HasRaw(s.views, s.large, v, p, n);
    RawHeader(s, v, p);
    if p in s.large { LargeHeader(s, p); NotBoth(s, p); }
  }

  lemma HadSize(s: Snap, v: int)
    requires Inv(s) && Held(s, v) && v - MHDR in s.mem && s.mem[v - MHDR].Header?
    ensures Has(s, v, s.mem[v - MHDR].userSize)
  {
    var n := HeldHas(s, v);
    SizeThere(s, v, n);
  }

  lemma AlignedResized(s: Snap, u: int, n: int)
    requires Inv(s) && u in s.aligned && 0 <= n <= s.aligned[u].size && u - MHDR in s.mem && s.mem[u - MHDR].Header?
    requires NoData(s.data, s.aligned[u].raw)
    ensures Inv(s.(mem := s.mem[u - MHDR := s.mem[u - MHDR].(userSize := n)],
                   aligned := s.aligned[u := s.aligned[u].(size := n)]))
  {
    hide Inv;
    var a, m' := s.aligned[u].(size := n), s.mem[u - MHDR := s.mem[u - MHDR].(userSize := n)];
    AlignedHeader(s, u);
    AlignedRange(s, u);
    AlignedDropped(s, u);
    AlignedSet(s.(aligned := s.aligned - {u}), u, a, m');
    assert (s.aligned - {u})[u := a] == s.aligned[u := a];
  }
}
