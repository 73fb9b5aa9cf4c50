/** How the best-fit search, growth and fresh pools keep what holds of the allocator. */
module MallocRoom {
  import opened MallocBlocks
  import opened MallocCache
  import opened MallocList
  import opened MallocTake
  import opened MallocSearch
  import opened MallocState
  import opened MallocSteps
  import opened MallocMoves
  import opened MallocMaps
  import opened MallocLinks
  import opened MallocPool
  import opened MallocGive
  import opened MallocSettle

  // ---------- the best-fit search ----------

  ghost function ListsOf(views: map<int, View>): Lists { map p | p in views :: views[p].free }

  lemma RetiredLists(s: Snap, i: nat)
    requires Inv(s) && s.relaxed == 0 && i < |s.retired|
    ensures s.retired[i] in s.views && RetiredOk(s.mem, s.retired[i], s.views[s.retired[i]].free)
  {
    var p := s.retired[i];
    assert p in SetOf(s.retired);
    PoolHeader(s, p);
    assert PoolOk(s.mem, p, s.maps[p], s.views[p], Exempt(s, p));
  }

  lemma StartsInPool(s: Snap, q: int, p: int)
    requires Inv(s) && q in s.views && p in s.views
    ensures !Starts(s.views[q].free, p)
  {
    PoolInMaps(s, p);
    PoolInMaps(s, q);
    OwnersMaps(s);
    PoolList(s, q);
    FreeInside(s.mem, q, s.maps[q], s.views[q], Exempt(s, q));
    if p != q { Disjoint(s.maps, p, q); }
    if Starts(s.views[q].free, p) { StartsInside(s.views[q].free, q + MSET, q + s.maps[q], p); }
  }

  lemma FreeInside(m: Mem, ms: int, len: int, v: View, current: bool)
    requires PoolOk(m, ms, len, v, current)
    ensures Inside(v.free, ms + MSET, ms + len)
  {
  }

  lemma SearchReady(s: Snap)
    requires Inv(s) && s.relaxed == 0
    ensures Retired(s.mem, s.first, s.retired) && AllRetiredOk(s.mem, s.retired, ListsOf(s.views))
    ensures RecordsApart(s.retired, ListsOf(s.views))
  {
    hide RetiredOk, PoolOk, Mappings, LargesOk, InsidesOk;
    forall i | 0 <= i < |s.retired| ensures s.retired[i] in ListsOf(s.views)
    && RetiredOk(s.mem, s.retired[i], ListsOf(s.views)[s.retired[i]]) {
      RetiredLists(s, i);
    }
    forall p, q | p in s.retired && q in s.retired && q in ListsOf(s.views) ensures !Starts(ListsOf(s.views)[q], p) {
      assert p in SetOf(s.retired) && q in SetOf(s.retired);
      StartsInPool(s, q, p);
    }
  }

  /** Inside a mapping there is no other pool's record. */
  lemma NotARecord(s: Snap, q: int, a: int)
    requires Inv(s) && q in s.maps && q <= a < q + s.maps[q] && (a == q ==> q !in s.retired)
    ensures a !in s.retired
  {
    OwnersMaps(s);
    forall i | 0 <= i < |s.retired| ensures s.retired[i] != a {
      RetiredAt(s, i);
      PoolInMaps(s, s.retired[i]);
      if s.retired[i] != q { Disjoint(s.maps, q, s.retired[i]); }
    }
  }

  lemma BoundsPool(s: Snap, m': Mem, p: int)
    requires Inv(s) && s.relaxed == 0 && p in s.views && p in s.maps && OnlyBounds(s.mem, m', s.retired)
    requires AllRetiredOk(m', s.retired, ListsOf(s.views))
    ensures PoolOk(m', p, s.maps[p], s.views[p], Exempt(s, p))
  {
    hide Inv, OnlyBounds, AllRetiredOk, PoolOk;
    PoolInMaps(s, p);
    InvPool(s, p);
    if p in s.retired {
      BoundsRetired(s, m', p);
    } else {
      forall a | p <= a < p + s.maps[p] ensures Same(s.mem, m', a) {
        NotARecord(s, p, a);
        NoRecordSame(s, m', a);
      }
      PoolFrame(s.mem, m', p, s.maps[p], s.views[p], Exempt(s, p));
    }
  }

  lemma NoRecordSame(s: Snap, m': Mem, a: int)
    requires OnlyBounds(s.mem, m', s.retired) && a !in s.retired
    ensures Same(s.mem, m', a)
  {
  }

  lemma BoundsRetired(s: Snap, m': Mem, p: int)
    requires Inv(s) && s.relaxed == 0 && p in s.views && p in s.maps && OnlyBounds(s.mem, m', s.retired)
             && p in s.retired && p > 0
    requires AllRetiredOk(m', s.retired, ListsOf(s.views)) && PoolOk(s.mem, p, s.maps[p], s.views[p], Exempt(s, p))
    ensures PoolOk(m', p, s.maps[p], s.views[p], Exempt(s, p))
  {
    hide Inv, Linked, Chained, Layout;
    var i :| 0 <= i < |s.retired| && s.retired[i] == p;
    assert RetiredOk(m', p, s.views[p].free);
    assert SameButBound(s.mem, m', p);
    forall at | at in s.views[p].live ensures Same(s.mem, m', at) {
      LiveRange(s.mem, p, s.maps[p], s.views[p], Exempt(s, p), at);
      NotARecord(s, p, at);
      NoRecordSame(s, m', at);
    }
  }

  lemma BoundsRest(s: Snap, m': Mem)
    requires Inv(s) && OnlyBounds(s.mem, m', s.retired)
    ensures SpareOk(m', s.maps, s.pool1) && LargesOk(m', s.maps, s.large)
    ensures InsidesOk(m', s.views, s.large, s.aligned, s.data)
  {
    hide Inv, OnlyBounds, SpareOk, LargesOk, InsidesOk;
    BoundsSpare(s, m');
    BoundsLarges(s, m');
    BoundsInsides(s, m');
  }

  lemma BoundsSpare(s: Snap, m': Mem)
    requires Inv(s) && OnlyBounds(s.mem, m', s.retired)
    ensures SpareOk(m', s.maps, s.pool1)
  {
    hide OnlyBounds, PoolsOk, LargesOk, InsidesOk, Retired, Owned;
    if s.pool1 != 0 {
      SpareNotRetired(s);
      NoRecordSame(s, m', s.pool1);
    }
  }

  lemma BoundsLarges(s: Snap, m': Mem)
    requires Inv(s) && OnlyBounds(s.mem, m', s.retired)
    ensures LargesOk(m', s.maps, s.large)
  {
    hide OnlyBounds, PoolsOk, SpareOk, InsidesOk, Retired, Mappings, Owned;
    forall b | b in s.large ensures b in s.maps && LargeAt(m', b, s.maps[b], s.large[b]) {
      LargeNotRetired(s, b);
      assert LargeAt(s.mem, b, s.maps[b], s.large[b]);
      NotARecord(s, b, b);
      NotARecord(s, b, b + MHDR);
      NoRecordSame(s, m', b);
      NoRecordSame(s, m', b + MHDR);
    }
  }

  /** What sits inside a handed-out block is no pool's record. */
  lemma InsideSame(s: Snap, m': Mem, raw: int, owner: int, a: int)
    requires Inv(s) && OnlyBounds(s.mem, m', s.retired) && raw <= a < raw + RawSize(s.views, s.large, raw, owner)
    ensures Same(s.mem, m', a)
  {
    hide OnlyBounds, PoolsOk, LargesOk, SpareOk, InsidesOk, Retired, Owners, RawSize;
    RawRange(s, raw, owner);
    NotARecord(s, owner, a);
    NoRecordSame(s, m', a);
  }

  lemma BoundsInsides(s: Snap, m': Mem)
    requires Inv(s) && OnlyBounds(s.mem, m', s.retired)
    ensures InsidesOk(m', s.views, s.large, s.aligned, s.data)
  {
    hide OnlyBounds, PoolsOk, LargesOk, SpareOk, Retired, Owners, RawSize;
    forall u | u in s.aligned ensures AlignedAt(m', s.views, s.large, u, s.aligned[u]) {
      var a := s.aligned[u];
      assert AlignedAt(s.mem, s.views, s.large, u, a);
      InsideSame(s, m', a.raw, a.owner, u - MHDR);
      InsideSame(s, m', a.raw, a.owner, u - MHDR - WORD);
    }
    forall x | x in s.data ensures DatumAt(m', s.views, s.large, x, s.data[x]) {
      assert DatumAt(s.mem, s.views, s.large, x, s.data[x]);
      InsideSame(s, m', s.data[x].raw, s.data[x].owner, x);
    }
  }

  lemma SpareNotRetired(s: Snap)
    requires Owners(s) && s.pool1 != 0
    ensures s.pool1 !in s.retired
  {
    NotParked(s, s.pool1);
    assert s.pool1 in s.retired ==> s.pool1 in SetOf(s.retired);
  }

  lemma LargeNotRetired(s: Snap, b: int)
    requires Owners(s) && b in s.large
    ensures b !in s.retired
  {
    NotParked(s, b);
    assert b in s.retired ==> b in SetOf(s.retired);
  }

  /** The search only makes bounds on block sizes exact. */
  lemma BoundsChanged(s: Snap, m': Mem)
    requires Inv(s) && s.relaxed == 0 && OnlyBounds(s.mem, m', s.retired)
    requires Retired(m', s.first, s.retired) && AllRetiredOk(m', s.retired, ListsOf(s.views))
    ensures Inv(s.(mem := m'))
  {
    hide PoolOk, Retired, LargesOk, InsidesOk, Owned, RetiredOk, OnlyBounds, AllRetiredOk;
    BoundsRest(s, m');
    var s' := s.(mem := m');
    forall p | p in s'.views ensures p in s'.maps && PoolOk(m', p, s'.maps[p], s'.views[p], Exempt(s', p)) {
      PoolHeader(s, p);
      BoundsPool(s, m', p);
      assert Exempt(s', p) == Exempt(s, p);
    }
  }

  /** A block came out of retired pool ms, whose chain was kept. */
  lemma ServeDone(s: Snap, ms: int, m': Mem, k: nat, alloc: int)
    requires Inv(s) && ms in s.views && ms in s.retired && s.relaxed == 0 && k < |s.views[ms].free|
             && 0 < alloc <= s.views[ms].free[k].size
    requires HasPool(s.mem, ms) && RetiredOk(m', ms, Taken(s.views[ms].free, k, alloc))
    requires m'[ms] == s.mem[ms].(freelist := m'[ms].freelist, big := m'[ms].big)
    requires SameElsewhere(s.mem, m', ms, SplitSpot(ms, s.views[ms].free[k], alloc), s.views[ms].free)
    ensures var v' := View(s.views[ms].live, Taken(s.views[ms].free, k, alloc));
            && Inv(s.(mem := m', views := s.views[ms := v'])) && HasPool(m', ms)
            && Unused(ms, ms + m'[ms].size, v', Block(s.views[ms].free[k].at, alloc))
  {
    hide PoolOk, Layout, Unused, AlignedAt, LargeAt, SameElsewhere, Linked, Retired, LargesOk, Mappings;
    PoolHeader(s, ms);
    NotLive(s, ms);
    SameMap(s.maps, ms);
    OwnersMaps(s);
    TakenPool(s.mem, m', ms, s.maps[ms], s.views[ms], Exempt(s, ms), false, k, alloc);
    UpdatePool(s, ms, m', s.maps[ms], View(s.views[ms].live, Taken(s.views[ms].free, k, alloc)), 0);
  }

  // ---------- growing, rewinding ----------

  /** The current pool has grown in place. */
  lemma Grown(s: Snap, len: int)
    requires Inv(s) && s.pool != 0 && s.pool in s.views && s.pool in s.maps && HasPool(s.mem, s.pool)
    requires s.maps[s.pool] <= len && Mappings(s.maps[s.pool := len])
    ensures Inv(s.(mem := s.mem[s.pool := s.mem[s.pool].(len := len)], maps := s.maps[s.pool := len]))
  {
    hide PoolOk, AlignedAt, DatumAt, LargeAt, Retired, LargesOk, Mappings;
    var ms := s.pool;
    var m' := s.mem[ms := s.mem[ms].(len := len)];
    NotParked(s, ms);
    PoolHeader(s, ms);
    NotLive(s, ms);
    SameMap(s.views, ms);
    LenRaised(s.mem, ms, s.maps[ms], s.views[ms], len);
    UpdatePool(s, ms, m', len, s.views[ms], 0);
  }

  lemma LenRaised(m: Mem, ms: int, len: int, v: View, len': int)
    requires PoolOk(m, ms, len, v, true) && HasPool(m, ms) && len <= len'
    ensures var m' := m[ms := m[ms].(len := len')];
            PoolOk(m', ms, len', v, true) && PayloadsKept(m, m', v, v, 0) && SameOutside(m, m', ms, ms + len')
  {
    var m' := m[ms := m[ms].(len := len')];
    NoStartBelow(v.free, ms);
    ListsKept(m, m', ms, v.free, true);
    RecordWrite(m, m', ms, ms + m[ms].size, v, v);
  }

  /** A drained current pool starts over. */
  lemma RewindPool(s: Snap)
    requires Inv(s) && s.pool != 0 && s.pool in s.views && HasPool(s.mem, s.pool) && s.views[s.pool].live == map[]
    ensures var m' := s.mem[s.pool := s.mem[s.pool].(size := MSET, freelist := 0)];
            Inv(s.(mem := m', views := s.views[s.pool := EMPTY])) && Rewound(m', s.pool, s.mem[s.pool].len)
  {
    hide Inv, PoolOk, Mappings;
    var ms := s.pool;
    var m' := s.mem[ms := s.mem[ms].(size := MSET, freelist := 0)];
    PoolInViews(s);
    PoolInMaps(s, ms);
    InvMaps(s);
    SameMap(s.maps, ms);
    EmptyPool(m', ms, s.maps[ms]);
    UpdatePool(s, ms, m', s.maps[ms], EMPTY, 0);
  }

  lemma InvMaps(s: Snap)
    requires Inv(s)
    ensures Mappings(s.maps)
  {
  }

  // ---------- handing out ----------

  /** Bytes nobody uses are handed out. */
  lemma GrantDone(s: Snap, owner: int, at: int, n: int)
    requires Inv(s) && owner in s.views && HasPool(s.mem, owner) && n >= 0
    requires Unused(owner, owner + s.mem[owner].size, s.views[owner], Block(at, BlockSize(n)))
    ensures at !in s.views[owner].live
    ensures Inv(s.(mem := Granted(s.mem, owner, at, n),
                   views := s.views[owner := View(s.views[owner].live[at := n], s.views[owner].free)]))
  {
    hide Inv, PoolOk, Unused, Mappings, Granted;
    var v := s.views[owner];
    PoolInMaps(s, owner);
    InvMaps(s);
    SameMap(s.maps, owner);
    LivePositive(s, owner);
    InvPool(s, owner);
    GrantBlock(s.mem, owner, s.maps[owner], v, Exempt(s, owner), at, n);
    UpdatePool(s, owner, Granted(s.mem, owner, at, n), s.maps[owner], View(v.live[at := n], v.free), 0);
  }

  lemma InvPool(s: Snap, p: int)
    requires Inv(s) && p in s.views
    ensures p in s.maps && PoolOk(s.mem, p, s.maps[p], s.views[p], Exempt(s, p))
  {
  }

  lemma LivePositive(s: Snap, p: int)
    requires Inv(s) && p in s.views
    ensures 0 !in s.views[p].live
  {
    NotLive(s, p);
  }

  /** The block at the bump pointer is handed out and the pointer moves past it. */
  lemma BumpDone(s: Snap, at: int, n: int, size: int)
    requires Inv(s) && s.pool != 0 && s.pool in s.views && HasPool(s.mem, s.pool) && n >= 0
    requires s.pool + s.mem[s.pool].size <= at && at + BlockSize(n) <= s.pool + size && size <= s.mem[s.pool].len
    ensures at !in s.views[s.pool].live
    ensures var p, v := s.pool, s.views[s.pool];
            var m' := s.mem[at := Header(at - p, n)][p := s.mem[p].(refs := s.mem[p].refs + 1, size := size)];
            Inv(s.(mem := m', views := s.views[p := View(v.live[at := n], v.free)]))
  {
    hide Inv, PoolOk, Unused, Mappings, Granted;
    var p := s.pool;
    var s1 := s.(mem := s.mem[p := s.mem[p].(size := size)]);
    BlockSizeBounds(n);
    PoolInViews(s);
    PoolInMaps(s, p);
    InvMaps(s);
    SameMap(s.maps, p);
    SameMap(s.views, p);
    LivePositive(s, p);
    InvPool(s, p);
    SizeRaised(s.mem, p, s.maps[p], s.views[p], size);
    RaisedKeeps(s.mem, p, s.maps[p], s.views[p], size);
    UpdatePool(s, p, s1.mem, s.maps[p], s.views[p], 0);
    assert s1 == Updated(s, p, s1.mem, s.maps[p], s.views[p]);
    GrantDone(s1, p, at, n);
    GrantedRaised(s.mem, p, at, n, size);
  }

  lemma RaisedKeeps(m: Mem, ms: int, len: int, v: View, size: int)
    requires PoolOk(m, ms, len, v, true) && HasPool(m, ms)
    ensures var m' := m[ms := m[ms].(size := size)]; PayloadsKept(m, m', v, v, 0) && SameOutside(m, m', ms, ms + len)
  {
    RecordWrite(m, m[ms := m[ms].(size := size)], ms, ms + m[ms].size, v, v);
  }

  lemma GrantedRaised(m: Mem, ms: int, at: int, n: int, size: int)
    requires HasPool(m, ms) && at != ms
    ensures Granted(m[ms := m[ms].(size := size)], ms, at, n) ==
            m[at := Header(at - ms, n)][ms := m[ms].(refs := m[ms].refs + 1, size := size)]
  {
  }

  // ---------- taking back ----------

  /** A live block is dropped from its pool's count. */
  lemma ReleaseDone(s: Snap, ms: int, at: int)
    requires Inv(s) && ms in s.views && at in s.views[ms].live && HasPool(s.mem, ms)
    requires NoAlias(s.aligned, at + MHDR) && NoData(s.data, at + MHDR)
    requires Exempt(s, ms) || s.mem[ms].refs > 1
    ensures var v' := View(s.views[ms].live - {at}, s.views[ms].free);
            && Inv(s.(mem := s.mem[ms := s.mem[ms].(refs := s.mem[ms].refs - 1)], views := s.views[ms := v']))
            && Unused(ms, ms + s.mem[ms].size, v', LiveBlock(s.views[ms].live, at))
  {
    hide Inv, PoolOk, Unused, Mappings;
    var m', v := s.mem[ms := s.mem[ms].(refs := s.mem[ms].refs - 1)], s.views[ms];
    PoolInMaps(s, ms);
    InvMaps(s);
    SameMap(s.maps, ms);
    InvPool(s, ms);
    ReleaseBlock(s.mem, ms, s.maps[ms], v, Exempt(s, ms), at);
    UpdatePool(s, ms, m', s.maps[ms], View(v.live - {at}, v.free), at);
  }

  /** Nothing of the raw block at raw is under watch from end on. */
  ghost predicate DataBelow(data: map<int, Datum>, raw: int, end: int) {
    forall a :: a in data && data[a].raw == raw ==> a < end
  }

  lemma InvDatum(s: Snap, a: int)
    requires Inv(s) && a in s.data
    ensures DatumAt(s.mem, s.views, s.large, a, s.data[a])
  {
  }

  /** A live block is cut; the tail of its bytes is nobody's. */
  lemma CutDone(s: Snap, ms: int, at: int, n: int)
    requires Inv(s) && ms in s.views && at in s.views[ms].live && NoAlias(s.aligned, at + MHDR)
    requires 0 <= n && BlockSize(n) < BlockSize(s.views[ms].live[at])
    requires DataBelow(s.data, at + MHDR, at + MHDR + n)
    ensures var v, v' := s.views[ms], View(s.views[ms].live[at := n], s.views[ms].free);
            && Inv(s.(mem := s.mem[at := Header(at - ms, n)], views := s.views[ms := v']))
            && HasPool(s.mem[at := Header(at - ms, n)], ms) && HasPool(s.mem, ms)
            && s.mem[at := Header(at - ms, n)][ms] == s.mem[ms]
            && Unused(ms, ms + s.mem[ms].size, v', Block(at + BlockSize(n), BlockSize(v.live[at]) - BlockSize(n)))
  {
    hide Inv, PoolOk, Unused, Mappings;
    var m', v := s.mem[at := Header(at - ms, n)], s.views[ms];
    PoolInMaps(s, ms);
    InvMaps(s);
    SameMap(s.maps, ms);
    InvPool(s, ms);
    CutBlock(s.mem, ms, s.maps[ms], v, Exempt(s, ms), at, n);
    forall a | a in s.data && s.data[a].raw == at + MHDR ensures Same(s.mem, m', a) { InvDatum(s, a); }
    UpdatePool(s, ms, m', s.maps[ms], View(v.live[at := n], v.free), at);
  }

  /** What the user may pass back: an aligned pointer, or a raw one that no aligned block hides. */
  ghost predicate Held(s: Snap, v: int) {
    v in s.aligned || (NoAlias(s.aligned, v) && exists owner :: RawSize(s.views, s.large, v, owner) >= 0)
  }

  lemma PoolBlockHeader(s: Snap, p: int, at: int)
    requires Inv(s) && p in s.views && at in s.views[p].live
    ensures at in s.mem && s.mem[at] == Header(at - p, s.views[p].live[at]) && s.views[p].live[at] >= 0
            && at - p >= MSET && p > 0
  {
    InvPool(s, p);
    LiveRange(s.mem, p, s.maps[p], s.views[p], Exempt(s, p), at);
    PoolInMaps(s, p);
  }

  lemma AlignedHeader(s: Snap, u: int)
    requires Inv(s) && u in s.aligned
    ensures AlignedAt(s.mem, s.views, s.large, u, s.aligned[u])
  {
  }

  /** The header in front of a raw pointer is no aligned block's. */
  lemma RawHeader(s: Snap, raw: int, owner: int)
    requires Inv(s) && RawSize(s.views, s.large, raw, owner) >= 0
    ensures raw - MHDR in s.mem && s.mem[raw - MHDR].Header? && raw > 0
    ensures var moff := s.mem[raw - MHDR].moff;
            if moff == LARGE_MOFF then owner in s.large && owner == raw - LARGE_HDR
            else (moff >= MSET && owner == raw - MHDR - moff && owner in s.views && raw - MHDR in s.views[owner].live
                  && s.mem[raw - MHDR].userSize == s.views[owner].live[raw - MHDR] >= 0)
  {
    hide Inv;
    if owner in s.views && raw - MHDR in s.views[owner].live {
      PoolBlockHeader(s, owner, raw - MHDR);
    } else {
      LargeOwner(s, owner);
    }
  }

  /** The header in front of a pointer tells what it is. */
  lemma Dispatch(s: Snap, v: int)
    requires Inv(s) && Held(s, v)
    ensures v - MHDR in s.mem && s.mem[v - MHDR].Header? && v > 0
    ensures var moff := s.mem[v - MHDR].moff;
            if moff == ALIGNED_MOFF then v in s.aligned && s.mem[v - MHDR].userSize == s.aligned[v].size
            else if moff == LARGE_MOFF then v - LARGE_HDR in s.large && NoAlias(s.aligned, v)
            else (v - MHDR - moff in s.views && v - MHDR in s.views[v - MHDR - moff].live && NoAlias(s.aligned, v)
                  && s.mem[v - MHDR].userSize == s.views[v - MHDR - moff].live[v - MHDR] >= 0 && moff >= MSET)
    ensures v in s.aligned ==> s.mem[v - MHDR].moff == ALIGNED_MOFF
  {
    hide Inv, NoAlias;
    if v in s.aligned {
      AlignedHeader(s, v);
      AlignedRange(s, v);
      return;
    }
    var owner :| RawSize(s.views, s.large, v, owner) >= 0;
    RawHeader(s, v, owner);
  }

  lemma AlignedRange(s: Snap, u: int)
    requires Inv(s) && u in s.aligned
    ensures RawSize(s.views, s.large, s.aligned[u].raw, s.aligned[u].owner) >= 0 && u > s.aligned[u].raw > 0
  {
    var a := s.aligned[u];
    assert AlignedAt(s.mem, s.views, s.large, u, a);
    RawRange(s, a.raw, a.owner);
    Positive(s.maps, a.owner);
  }

  lemma LargeOwner(s: Snap, b: int)
    requires Inv(s) && b in s.large
    ensures b in s.maps && b > 0 && b !in s.parked && LargeAt(s.mem, b, s.maps[b], s.large[b])
  {
    NotParked(s, b);
    Positive(s.maps, b);
  }
}
