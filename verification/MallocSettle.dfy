/** How putting bytes on a free list, and retiring a pool, keep what holds of the allocator. */
module MallocSettle {
  import opened MallocBlocks
  import opened MallocCache
  import opened MallocList
  import opened MallocFree
  import opened MallocTake
  import opened MallocSearch
  import opened MallocState
  import opened MallocSteps
  import opened MallocMoves
  import opened MallocMaps
  import opened MallocLinks
  import opened MallocPool
  import opened MallocGive

  /** The live blocks of the pool at p, none if there is no such pool. */
  ghost function LiveOf(views: map<int, View>, p: int): map<int, int> { if p in views then views[p].live else map[] }

  /** No pool gained or lost a live block. */
  ghost predicate LiveKept(views: map<int, View>, views': map<int, View>) {
    forall p :: LiveOf(views', p) == LiveOf(views, p)
  }

  lemma SlotsKept(slots: seq<Slot>, maps: map<int, int>, p: int, len: int)
    requires SlotsOk(slots, maps) && p !in Bases(slots)
    ensures SlotsOk(slots, maps[p := len])
  {
    forall i | 0 <= i < |slots| && slots[i].base != 0 ensures slots[i].base != p {
      assert slots[i].base in Bases(slots);
    }
  }

  /** A pool in use is not parked. */
  lemma PoolNotParked(s: Snap, p: int)
    requires Owners(s) && PoolsOk(s) && p in s.views
    ensures p in s.maps && p !in s.parked && Mappings(s.maps)
  {
    hide PoolOk, Mappings;
    InUseNotParked(s, p);
    OwnersMaps(s);
  }

  ghost predicate SameBounds(p: Cell, p': Cell) {
    p.Pool? && p'.Pool? && p'.size == p.size && p'.len == p.len && p'.refs == p.refs && p'.maxFree >= p.maxFree
  }

  ghost predicate Putting(s: Snap, ms: int, x: Block) {
    && Inv(s) && ms in s.views && x.size >= MHDR && (ms == s.pool || (ms in s.retired && ms != s.relaxed))
    && HasPool(s.mem, ms) && Unused(ms, ms + s.mem[ms].size, s.views[ms], x)
  }

  lemma PutReady(s: Snap, ms: int, at: int, size: int)
    requires Putting(s, ms, Block(at, size))
    ensures InsertReady(s.mem, ms, Block(at, size), s.views[ms].free)
    ensures ms in s.maps && s.maps[ms] == s.mem[ms].len && Mappings(s.maps) && ms !in s.parked
    ensures ms != s.pool ==> ChainAt(s.mem, ms, s.views[ms].free)
    ensures Exempt(s, ms) == (ms == s.pool)
  {
    hide PoolOk, Unused, AlignedAt, LargeAt, Retired, LargesOk, InsidesOk;
    PoolNotParked(s, ms);
    PoolHeader(s, ms);
    if ms == s.pool { NotParked(s, ms); }
    Insertable(s.mem, ms, s.maps[ms], s.views[ms], Exempt(s, ms), Block(at, size));
  }

  lemma Insertable(m: Mem, ms: int, len: int, v: View, current: bool, x: Block)
    requires PoolOk(m, ms, len, v, current) && HasPool(m, ms) && Unused(ms, ms + m[ms].size, v, x) && x.size >= MHDR
    ensures InsertReady(m, ms, x, v.free) && (!current ==> ChainAt(m, ms, v.free))
  {
  }

  lemma PutDone(s: Snap, ms: int, x: Block, m': Mem, out: seq<Block>, maps': map<int, int>)
    requires Putting(s, ms, x) && ms in s.maps && HasPool(m', ms) && Mappings(maps')
    requires maps' == if ms == s.pool then s.maps else s.maps[ms := m'[ms].len]
    requires ListAt(m', ms, out) && (ms != s.pool ==> ChainAt(m', ms, out))
             && SameElsewhere(s.mem, m', ms, x.at, s.views[ms].free)
    requires Inserted(s.mem[ms], m'[ms], ms, x, s.views[ms].free, out)
    requires ms == s.pool ==> m'[ms].len == s.mem[ms].len
    ensures Inv(s.(mem := m', maps := maps', views := s.views[ms := View(s.views[ms].live, out)]))
    ensures maps' == s.maps[ms := m'[ms].len]
    ensures ms == s.pool ==> SameBounds(s.mem[ms], m'[ms])
    ensures OthersSame(s.views, ms, s.mem, m')
  {
    hide Inv, PoolOk, Layout, Unused, Inserted, SameElsewhere, ListAt, ChainAt, Mappings, InsertReady;
    PutReady(s, ms, x.at, x.size);
    SameMap(s.maps, ms);
    NotLiveInv(s, ms);
    InsertedPool(s.mem, m', ms, s.maps[ms], s.views[ms], ms == s.pool, x, out);
    UpdatePool(s, ms, m', m'[ms].len, View(s.views[ms].live, out), 0);
    InsertedBounds(s.mem[ms], m'[ms], ms, x, s.views[ms].free, out);
  }

  lemma PutFrees(s: Snap, ms: int, x: Block, m': Mem, out: seq<Block>)
    requires Putting(s, ms, x) && HasPool(m', ms) && Inserted(s.mem[ms], m'[ms], ms, x, s.views[ms].free, out)
    ensures Freed(s.views[ms].free, out, ms + m'[ms].len, x)
  {
    hide Inv, Inserted, Covers, Ordered, Unused;
    PutReady(s, ms, x.at, x.size);
    PoolInMaps(s, ms);
    var bs := s.views[ms].free;
    forall a ensures Covers(out, a) <==> (Covers(bs, a) || In(x, a)) && a < ms + m'[ms].len {
      InsertedCovers(s.mem[ms], m'[ms], ms, x, bs, out, a);
    }
  }

  lemma NotLiveInv(s: Snap, p: int)
    requires Inv(s) && p in s.views
    ensures 0 !in s.views[p].live && p in s.maps && PoolOk(s.mem, p, s.maps[p], s.views[p], Exempt(s, p))
  {
    NotLive(s, p);
  }

  lemma InsertedBounds(p: Cell, p': Cell, ms: int, x: Block, bs: seq<Block>, out: seq<Block>)
    requires p.Pool? && p'.Pool? && Inserted(p, p', ms, x, bs, out)
    ensures p'.len == p.len ==> SameBounds(p, p')
  {
  }

  function Raised(s: Snap): Mem
    requires HasPool(s.mem, s.pool)
  {
    s.mem[s.pool := s.mem[s.pool].(size := s.mem[s.pool].len, maxFree := s.mem[s.pool].len)]
  }

  lemma RoomRaised(s: Snap, tail: int)
    requires Inv(s) && s.pool != 0 && s.pool in s.views && HasPool(s.mem, s.pool) && tail >= s.mem[s.pool].size
    ensures Inv(s.(mem := Raised(s))) && OthersSame(s.views, s.pool, s.mem, Raised(s))
    ensures var x := Block(s.pool + tail, s.mem[s.pool].len - tail);
            x.size > 0 ==> Unused(s.pool, s.pool + s.mem[s.pool].len, s.views[s.pool], x)
  {
    hide PoolOk, Unused, AlignedAt, LargeAt, Retired, LargesOk;
    var ms := s.pool;
    NotParked(s, ms);
    PoolHeader(s, ms);
    NotLive(s, ms);
    OwnersMaps(s);
    SameMap(s.maps, ms);
    SameMap(s.views, ms);
    BoundsRaised(s.mem, ms, s.maps[ms], s.views[ms], tail);
    UpdatePool(s, ms, Raised(s), s.maps[ms], s.views[ms], 0);
  }

  lemma BoundsRaised(m: Mem, ms: int, len: int, v: View, tail: int)
    requires PoolOk(m, ms, len, v, true) && HasPool(m, ms) && tail >= m[ms].size
    ensures var m' := m[ms := m[ms].(size := m[ms].len, maxFree := m[ms].len)];
            PoolOk(m', ms, len, v, true) && PayloadsKept(m, m', v, v, 0) && SameOutside(m, m', ms, ms + len)
    ensures len - tail > 0 ==> Unused(ms, ms + len, v, Block(ms + tail, len - tail))
  {
    var m' := m[ms := m[ms].(size := m[ms].len, maxFree := m[ms].len)];
    SizeRaised(m, ms, len, v, len);
    NoStartBelow(v.free, ms);
    LinkedFrame(m, m', v.free, 0);
    RecordWrite(m, m', ms, ms + m[ms].size, v, v);
  }

  lemma PoolList(s: Snap, p: int)
    requires Inv(s) && p in s.views
    ensures ListAt(s.mem, p, s.views[p].free)
  {
  }

  lemma RetiredNow(s: Snap, m2: Mem, m3: Mem)
    requires Inv(s) && s.pool != 0 && s.pool != s.relaxed && s.pool in s.views && HasPool(s.mem, s.pool)
             && HasPool(m2, s.pool)
    requires s.mem[s.pool].size == s.mem[s.pool].len <= s.mem[s.pool].maxFree && s.mem[s.pool].refs > 0
    requires ListAt(m2, s.pool, s.views[s.pool].free) && ChainAt(m2, s.pool, s.views[s.pool].free)
    requires m2[s.pool] == s.mem[s.pool].(big := m2[s.pool].big)
             && SameElsewhere(s.mem, m2, s.pool, s.pool, s.views[s.pool].free)
    requires m3 == m2[s.pool := m2[s.pool].(nextPool := s.first)]
    ensures Inv(s.(mem := m3, pool := 0, first := s.pool, retired := [s.pool] + s.retired))
    ensures OthersSame(s.views, s.pool, s.mem, m3)
  {
    hide PoolOk, Unused, AlignedAt, LargeAt, Retired, LargesOk, SameElsewhere;
    var ms := s.pool;
    NotParked(s, ms);
    PoolHeader(s, ms);
    NotLive(s, ms);
    OwnersMaps(s);
    SameMap(s.maps, ms);
    SameMap(s.views, ms);
    ChainedPool(s.mem, m2, m3, ms, s.maps[ms], s.views[ms], s.first);
    Weaker(m3, ms, s.maps[ms], s.views[ms], false);
    UpdatePool(s, ms, m3, s.maps[ms], s.views[ms], 0);
    RelistPool(s.(mem := m3));
  }

  lemma HeadsTwice(m: Mem, m2: Mem, m3: Mem, ms: int, v: View)
    requires Heads(m, ms, v.live)
    requires forall at :: at in v.live ==> Same(m, m2, at) && Same(m2, m3, at)
    ensures Heads(m3, ms, v.live)
  {
  }

  lemma ChainedPool(m: Mem, m2: Mem, m3: Mem, ms: int, len: int, v: View, next: int)
    requires PoolOk(m, ms, len, v, true) && HasPool(m, ms) && m[ms].size == m[ms].len <= m[ms].maxFree && m[ms].refs > 0
    requires ListAt(m2, ms, v.free) && ChainAt(m2, ms, v.free)
    requires m2[ms] == m[ms].(big := m2[ms].big) && SameElsewhere(m, m2, ms, ms, v.free)
    requires m3 == m2[ms := m2[ms].(nextPool := next)]
    ensures PoolOk(m3, ms, len, v, false) && PayloadsKept(m, m3, v, v, 0) && SameOutside(m, m3, ms, ms + len)
  {
    hide Layout, Heads, SameElsewhere, Linked, Chained, SameOutside, Ordered, ChainAt, PayloadsKept, SameWithin,
        Bounded;
    LayoutParts(ms, ms + len, v);
    LiveUntouched(m, m2, ms, ms + len, v, ms, v.live, v.free);
    ElsewhereInside(m, m2, ms, ms + len, v.free, ms);
    BlocksFit(ms, ms + len, v.free, m[ms].maxFree);
    NextListed(m2, m3, ms, v.free);
    RecordWrite(m2, m3, ms, ms + len, v, v);
    PayloadsTwice(m, m2, m3, v);
    OutsideTwice(m, m2, m3, ms, ms + len);
    HeadsTwice(m, m2, m3, ms, v);
  }

  lemma BlocksFit(ms: int, end: int, bs: seq<Block>, limit: int)
    requires Inside(bs, ms + MSET, end) && end - ms <= limit
    ensures Bounded(bs, limit)
  {
  }

  lemma NextListed(m: Mem, m': Mem, ms: int, bs: seq<Block>)
    requires ListAt(m, ms, bs) && ChainAt(m, ms, bs) && HasPool(m', ms) && m' == m[ms := m'[ms]]
    requires m'[ms] == m[ms].(nextPool := m'[ms].nextPool)
    ensures ListAt(m', ms, bs) && ChainAt(m', ms, bs)
  {
    NoStartBelow(bs, ms);
    LinkedFrame(m, m', bs, 0);
    ChainedFrame(m, m', bs, 0);
  }

  lemma PayloadsTwice(m: Mem, m2: Mem, m3: Mem, v: View)
    requires PayloadsKept(m, m2, v, v, 0) && forall a :: a in v.live ==>
      SameWithin(m2, m3, a + MHDR, a + MHDR + v.live[a])
    ensures PayloadsKept(m, m3, v, v, 0)
  {
    forall at | at in v.live && at != 0 ensures SameWithin(m, m3, at + MHDR, at + MHDR + v.live[at]) {
      assert SameWithin(m, m2, at + MHDR, at + MHDR + v.live[at])
          && SameWithin(m2, m3, at + MHDR, at + MHDR + v.live[at]);
      forall a | at + MHDR <= a < at + MHDR + v.live[at] ensures Same(m, m3, a) {
        assert Same(m, m2, a) && Same(m2, m3, a);
      }
    }
  }

  lemma OutsideTwice(m: Mem, m2: Mem, m3: Mem, ms: int, end: int)
    requires SameOutside(m, m2, ms, end) && ms in m3 && m3 == m2[ms := m3[ms]] && ms < end
    ensures SameOutside(m, m3, ms, end)
  {
    forall a | a < ms || end <= a ensures Same(m, m3, a) { assert Same(m, m2, a); }
  }

  // ---------- taking off a free list ----------

  /** The pool whose free list gives a block may be a retired one; it is relaxed then. */
  lemma TakeDone(s: Snap, ms: int, m': Mem, k: nat, alloc: int)
    requires Inv(s) && ms in s.views && s.relaxed == 0 && k < |s.views[ms].free|
             && 0 < alloc <= s.views[ms].free[k].size
    requires HasPool(s.mem, ms) && ListAt(m', ms, Taken(s.views[ms].free, k, alloc))
    requires m'[ms] == s.mem[ms].(freelist := m'[ms].freelist)
    requires SameElsewhere(s.mem, m', ms, SplitSpot(ms, s.views[ms].free[k], alloc), s.views[ms].free)
    ensures var v' := View(s.views[ms].live, Taken(s.views[ms].free, k, alloc));
            && Inv(s.(mem := m', relaxed := if ms in s.retired then ms else 0, views := s.views[ms := v']))
            && Unused(ms, ms + m'[ms].size, v', Block(s.views[ms].free[k].at, alloc))
            && OthersSame(s.views, ms, s.mem, m')
  {
    hide PoolOk, Layout, Unused, AlignedAt, LargeAt, SameElsewhere, ListAt, Retired, LargesOk, Mappings;
    var s1 := s.(relaxed := if ms in s.retired then ms else 0);
    if ms in s.retired { Relax(s, ms); }
    PoolHeader(s, ms);
    NotLive(s, ms);
    SameMap(s.maps, ms);
    OwnersMaps(s);
    TakenPool(s.mem, m', ms, s.maps[ms], s.views[ms], Exempt(s, ms), true, k, alloc);
    UpdatePool(s1, ms, m', s.maps[ms], View(s.views[ms].live, Taken(s.views[ms].free, k, alloc)), 0);
  }

  lemma PoolInMaps(s: Snap, p: int)
    requires Inv(s) && p in s.views
    ensures p in s.maps && p > 0 && HasPool(s.mem, p) && s.mem[p].len == s.maps[p] && s.mem[p].refs == |s.views[p].live|
    ensures s.maps[p] > 0 && s.maps[p] % PGSIZE == 0 && p % PGSIZE == 0 && p !in s.parked
            && MSET <= s.mem[p].size <= s.maps[p]
  {
    PoolNotParked(s, p);
    Positive(s.maps, p);
  }

  /** No block of the pool will do, by its bound or after a walk. */
  lemma BoundRulesOut(s: Snap, i: nat, alloc: int)
    requires Inv(s) && i < |s.retired| && s.relaxed == 0 && HasPool(s.mem, s.retired[i])
             && s.mem[s.retired[i]].maxFree < alloc
    ensures s.retired[i] in s.views && NoUsable(s.views[s.retired[i]].free, alloc)
  {
    var p := s.retired[i];
    assert p in SetOf(s.retired);
    assert PoolOk(s.mem, p, s.maps[p], s.views[p], Exempt(s, p));
    PoolHeader(s, p);
  }

  lemma RetiredAt(s: Snap, i: nat)
    requires Inv(s) && i < |s.retired|
    ensures s.retired[i] in s.views && HasPool(s.mem, s.retired[i])
            && s.mem[s.retired[i]].nextPool == PoolAt(s.retired, i + 1)
    ensures s.retired[i] != s.pool && s.retired[i] > 0 && s.first == PoolAt(s.retired, 0)
  {
    var p := s.retired[i];
    assert p in SetOf(s.retired);
    if s.pool != 0 { NotParked(s, s.pool); }
  }

  lemma SameRecords(s: Snap, p: int)
    requires Inv(s)
    ensures OthersSame(s.views, p, s.mem, s.mem)
  {
    hide PoolOk;
    forall q | q in s.views ensures HasPool(s.mem, q) { PoolHeader(s, q); }
  }

  lemma EmptyRetired(s: Snap)
    requires Inv(s)
    ensures s.first == PoolAt(s.retired, 0)
  {
  }

  lemma Drained(s: Snap, p: int)
    requires Inv(s) && p in s.views && HasPool(s.mem, p) && s.mem[p].refs <= 0
    ensures s.views[p].live == map[]
  {
    PoolInMaps(s, p);
    assert |s.views[p].live.Keys| == |s.views[p].live|;
    assert s.views[p].live.Keys == {};
  }

  lemma LiveDropped(views: map<int, View>, p: int)
    requires p in views && views[p].live == map[]
    ensures LiveKept(views, views - {p})
  {
  }

  lemma LiveKeptTwice(a: map<int, View>, b: map<int, View>, c: map<int, View>)
    requires LiveKept(a, b) && LiveKept(b, c)
    ensures LiveKept(a, c)
  {
    forall p ensures LiveOf(c, p) == LiveOf(a, p) {
      assert LiveOf(b, p) == LiveOf(a, p) && LiveOf(c, p) == LiveOf(b, p);
    }
  }

  lemma PoolInViews(s: Snap)
    requires Inv(s)
    ensures s.pool != 0 ==> s.pool in s.views && s.pool != s.loose && s.pool !in s.retired
    ensures s.loose != 0 ==> s.loose in s.views && s.loose !in s.retired
    ensures s.pool1 != 0 ==> s.pool1 in s.maps && HasPool(s.mem, s.pool1) && s.mem[s.pool1].len == s.maps[s.pool1]
                             && s.pool1 !in s.parked
    ensures s.pool1 != 0 ==> s.pool1 !in s.views
  {
    hide PoolOk, Mappings;
    ViewsKeys(s);
    if s.pool != 0 { NotParked(s, s.pool); }
    if s.loose != 0 { NotParked(s, s.loose); }
    if s.pool1 != 0 { NotParked(s, s.pool1); }
  }

  /** The record of the pool on its way from the retired list is as it was. */
  lemma UnlinkRecord(s: Snap, i: nat)
    requires Inv(s) && i < |s.retired|
    ensures HasPool(s.mem, s.retired[i]) && (i > 0 ==> HasPool(s.mem, s.retired[i - 1]) && s.retired[i - 1] > 0)
    ensures HasPool(UnlinkMem(s, i), s.retired[i]) && UnlinkMem(s, i)[s.retired[i]] == s.mem[s.retired[i]]
  {
    RetiredAt(s, i);
    if i > 0 { RetiredAt(s, i - 1); }
  }
}
