/** What holds of the pool allocator between calls. */
module MallocState {
  import opened MallocBlocks
  import opened MallocCache
  import opened MallocList
  import opened MallocSearch

  const LARGE_HDR := 16
  const LARGE_MOFF := -1
  const ALIGNED_MOFF := -2
  const WORD := 4

  /** The bytes a pool block for n user bytes takes. */
  function BlockSize(n: int): int { (n + MHDR + 7) / 8 * 8 }

  lemma BlockSizeBounds(n: int)
    requires n >= 0
    ensures MHDR + n <= BlockSize(n) <= n + MHDR + 7 && BlockSize(n) % 8 == 0
  {
  }

  /** One pool: its live blocks, by the address of their header, with the size asked for, and
      its free list. */
  datatype View = View(live: map<int, int>, free: seq<Block>)

  /** An over-aligned block: the pointer malloc gave for it, the pool or mapping that lies in,
      and the size asked for. */
  datatype Aligned = Aligned(raw: int, owner: int, size: int)

  /** A byte under watch: what memory holds there, and the handed-out raw block it belongs to. */
  datatype Datum = Datum(raw: int, owner: int, cell: Cell)

  /** The allocator's state. In the middle of a call one retired pool may be relaxed, not
      meeting what a retired pool must, or loose, on no list. */
  datatype Snap = Snap(mem: Mem, maps: map<int, int>, parked: set<int>, pool: int, pool1: int, first: int, loose: int,
                       relaxed: int, retired: seq<int>, views: map<int, View>, large: map<int, int>,
                       aligned: map<int, Aligned>, data: map<int, Datum>)

  // ---------- one pool ----------

  function LiveBlock(live: map<int, int>, at: int): Block
    requires at in live
  {
    Block(at, BlockSize(live[at]))
  }

  ghost predicate LiveInside(live: map<int, int>, lo: int, hi: int) {
    forall at :: at in live ==> lo <= at && 0 <= live[at] && End(LiveBlock(live, at)) <= hi
  }

  /** No two live blocks overlap. */
  ghost predicate LiveApart(live: map<int, int>) {
    forall a, b :: a in live && b in live && a != b ==> Clear(LiveBlock(live, a), LiveBlock(live, b))
  }

  /** No live block overlaps a free one. */
  ghost predicate LiveNotFree(live: map<int, int>, free: seq<Block>) {
    forall at :: at in live ==> Apart(free, LiveBlock(live, at))
  }

  /** Each live block still has the header that was written when it was handed out. */
  ghost predicate Heads(m: Mem, ms: int, live: map<int, int>) {
    forall at :: at in live ==> at in m && m[at] == Header(at - ms, live[at])
  }

  /** Live blocks, free blocks and the pool's record are pairwise disjoint and lie below end. */
  ghost predicate Layout(ms: int, end: int, v: View) {
    && Inside(v.free, ms + MSET, end) && LiveInside(v.live, ms + MSET, end)
    && LiveApart(v.live) && LiveNotFree(v.live, v.free)
  }

  ghost predicate PoolOk(m: Mem, ms: int, len: int, v: View, current: bool) {
    && ListAt(m, ms, v.free) && m[ms].len == len && MSET <= m[ms].size <= len
    && m[ms].refs == |v.live| && Heads(m, ms, v.live) && Layout(ms, ms + m[ms].size, v)
    && (!current ==> RetiredOk(m, ms, v.free) && m[ms].size == len && m[ms].refs > 0)
  }

  // ---------- everything ----------

  function One(p: int): set<int> { if p == 0 then {} else {p} }

  function SetOf(ps: seq<int>): set<int> { set p | p in ps }

  /** Every mapping has exactly one owner. */
  ghost predicate Owned(maps: map<int, int>, pool: set<int>, spare: set<int>, loose: set<int>, retired: set<int>,
                        large: set<int>, parked: set<int>) {
    && Mappings(maps) && maps.Keys == pool + spare + loose + retired + large + parked
    && (pool !! spare !! loose !! retired !! large !! parked)
  }

  ghost predicate Owners(s: Snap) {
    Owned(s.maps, One(s.pool), One(s.pool1), One(s.loose), SetOf(s.retired), s.large.Keys, s.parked)
  }

  /** Whether p need not meet what a retired pool must. */
  ghost predicate Exempt(s: Snap, p: int) { p !in s.retired || p == s.relaxed }

  ghost predicate PoolsOk(s: Snap) {
    && s.views.Keys == One(s.pool) + One(s.loose) + SetOf(s.retired)
    && forall p :: p in s.views ==> p in s.maps && PoolOk(s.mem, p, s.maps[p], s.views[p], Exempt(s, p))
  }

  ghost predicate SpareOk(m: Mem, maps: map<int, int>, pool1: int) {
    pool1 != 0 ==> pool1 in maps && HasPool(m, pool1) && m[pool1].len == maps[pool1]
  }

  ghost predicate LargeAt(m: Mem, b: int, mapped: int, n: int) {
    && b in m && m[b] == Mapped(mapped) && b + MHDR in m && m[b + MHDR] == Header(LARGE_MOFF, n)
    && 0 <= n && n + LARGE_HDR <= mapped
  }

  ghost predicate LargesOk(m: Mem, maps: map<int, int>, large: map<int, int>) {
    forall b :: b in large ==> b in maps && LargeAt(m, b, maps[b], large[b])
  }

  /** The size asked for behind raw pointer raw, -1 if it is none of owner's. */
  function RawSize(views: map<int, View>, large: map<int, int>, raw: int, owner: int): int {
    if owner in views && raw - MHDR in views[owner].live then views[owner].live[raw - MHDR]
    else if owner in large && raw == owner + LARGE_HDR then large[owner]
    else -1
  }

  ghost predicate AlignedAt(m: Mem, views: map<int, View>, large: map<int, int>, u: int, a: Aligned) {
    && 0 <= a.size && a.raw <= u - MHDR - WORD && u + a.size <= a.raw + RawSize(views, large, a.raw, a.owner)
    && u - MHDR in m && m[u - MHDR] == Header(ALIGNED_MOFF, a.size)
    && u - MHDR - WORD in m && m[u - MHDR - WORD] == Raw(a.raw)
  }

  ghost predicate DatumAt(m: Mem, views: map<int, View>, large: map<int, int>, a: int, d: Datum) {
    d.raw <= a < d.raw + RawSize(views, large, d.raw, d.owner) && a in m && m[a] == d.cell
  }

  /** What sits inside handed-out raw blocks: aligned blocks, and bytes under watch. */
  ghost predicate InsidesOk(m: Mem, views: map<int, View>, large: map<int, int>, aligned: map<int, Aligned>,
                            data: map<int, Datum>) {
    && (forall u :: u in aligned ==> AlignedAt(m, views, large, u, aligned[u]))
    && (forall u, w :: u in aligned && w in aligned && u != w ==> aligned[u].raw != aligned[w].raw)
    && (forall a :: a in data ==> DatumAt(m, views, large, a, data[a]))
  }

  ghost predicate Inv(s: Snap) {
    && Owners(s) && PoolsOk(s) && SpareOk(s.mem, s.maps, s.pool1) && Retired(s.mem, s.first, s.retired)
    && LargesOk(s.mem, s.maps, s.large) && InsidesOk(s.mem, s.views, s.large, s.aligned, s.data)
  }

  // ---------- frames ----------

  /** Nothing from lo up to hi differs. */
  ghost predicate SameWithin(m: Mem, m': Mem, lo: int, hi: int) { forall a :: lo <= a < hi ==> Same(m, m', a) }

  /** All differences are from lo up to hi. */
  ghost predicate SameOutside(m: Mem, m': Mem, lo: int, hi: int) { forall a :: a < lo || hi <= a ==> Same(m, m', a) }

  lemma StartsInside(bs: seq<Block>, lo: int, hi: int, a: int)
    requires Ordered(bs) && Inside(bs, lo, hi) && Starts(bs, a)
    ensures lo <= a < hi
  {
    var i :| 0 <= i < |bs| && bs[i].at == a;
    OrderedAt(bs, i);
  }

  lemma PoolFrame(m: Mem, m': Mem, ms: int, len: int, v: View, current: bool)
    requires PoolOk(m, ms, len, v, current) && SameWithin(m, m', ms, ms + len)
    ensures PoolOk(m', ms, len, v, current) && HasPool(m, ms) && HasPool(m', ms) && m'[ms] == m[ms]
  {
    forall a | Starts(v.free, a) ensures Same(m, m', a) { StartsInside(v.free, ms + MSET, ms + m[ms].size, a); }
    assert Same(m, m', ms);
    LinkedFrame(m, m', v.free, 0);
    if !current { ChainedFrame(m, m', v.free, 0); }
    forall at | at in v.live ensures at in m' && m'[at] == Header(at - ms, v.live[at]) {
      BlockSizeBounds(v.live[at]);
      assert Same(m, m', at);
    }
  }

  /** A live block lies in its pool. */
  lemma LiveRange(m: Mem, ms: int, len: int, v: View, current: bool, at: int)
    requires PoolOk(m, ms, len, v, current) && at in v.live
    ensures ms + MSET <= at && v.live[at] >= 0 && at + MHDR + v.live[at] <= ms + len
  {
    BlockSizeBounds(v.live[at]);
  }

  /** Where the user bytes of a raw pointer lie. */
  lemma RawRange(s: Snap, raw: int, owner: int)
    requires PoolsOk(s) && LargesOk(s.mem, s.maps, s.large) && RawSize(s.views, s.large, raw, owner) >= 0
    ensures owner in s.maps && owner + LARGE_HDR <= raw
            && raw + RawSize(s.views, s.large, raw, owner) <= owner + s.maps[owner]
  {
    if owner in s.views && raw - MHDR in s.views[owner].live {
      LiveRange(s.mem, owner, s.maps[owner], s.views[owner], Exempt(s, owner), raw - MHDR);
    }
  }

  lemma Disjoint(maps: map<int, int>, p: int, q: int)
    requires Mappings(maps) && p in maps && q in maps && p != q
    ensures p + maps[p] <= q || q + maps[q] <= p
  {
    assert Clear(Block(p, maps[p]), Block(q, maps[q]));
  }
}
