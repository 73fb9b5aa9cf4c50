/** Taking a mapping into use, and moving a pool off the retired list. */
module MallocMaps {
  import opened MallocBlocks
  import opened MallocCache
  import opened MallocList
  import opened MallocSearch
  import opened MallocState
  import opened MallocSteps
  import opened MallocMoves

  /** base is newly the caller's; the cache may have shrunk. */
  ghost predicate MappedAs(maps: map<int, int>, parked: set<int>, base: int, maps': map<int, int>, parked': set<int>) {
    && Mappings(maps') && parked' <= parked
    && base in maps' && base !in parked' && base !in maps.Keys - parked
    && maps'.Keys == (maps.Keys - parked) + parked' + {base}
    && (forall b :: b in maps' && b in maps && b != base ==> maps'[b] == maps[b])
  }

  /** What the allocator uses, apart from base. */
  ghost function InUse(s: Snap, base: int): set<int> { s.views.Keys + s.large.Keys + One(s.pool1) - {base} }

  /** The mappings in use have kept their lengths and none reaches from base up to hi. */
  ghost predicate Separate(s: Snap, base: int, hi: int, maps': map<int, int>) {
    forall q :: q in InUse(s, base) && q in s.maps ==>
      q in maps' && maps'[q] == s.maps[q] && (hi <= q || q + s.maps[q] <= base)
  }

  lemma FreshPools(s: Snap, base: int, hi: int, maps': map<int, int>, m': Mem)
    requires PoolsOk(s) && base !in s.views && Separate(s, base, hi, maps') && SameOutside(s.mem, m', base, hi)
    ensures forall q :: q in s.views ==> q in maps' && PoolOk(m', q, maps'[q], s.views[q], Exempt(s, q))
    ensures forall q :: q in s.views ==> HasPool(s.mem, q) && HasPool(m', q) && m'[q] == s.mem[q]
  {
    hide PoolOk;
    forall q | q in s.views
      ensures q in maps' && PoolOk(m', q, maps'[q], s.views[q], Exempt(s, q)) && HasPool(s.mem, q) && HasPool(m', q)
              && m'[q] == s.mem[q]
    {
      assert q in InUse(s, base);
      PoolHeader(s, q);
      PoolFrame(s.mem, m', q, s.maps[q], s.views[q], Exempt(s, q));
    }
  }

  lemma FreshRetired(s: Snap, m': Mem)
    requires Retired(s.mem, s.first, s.retired) && PoolsOk(s)
    requires forall q :: q in s.views ==> HasPool(s.mem, q) && HasPool(m', q) && m'[q] == s.mem[q]
    ensures Retired(m', s.first, s.retired)
  {
    hide PoolOk;
    forall q | q in s.retired ensures HasPool(m', q) && HasPool(s.mem, q) && m'[q].nextPool == s.mem[q].nextPool {
      assert q in SetOf(s.retired);
    }
    forall i | 0 <= i < |s.retired| ensures HasPool(m', s.retired[i])
    && m'[s.retired[i]].nextPool == PoolAt(s.retired, i + 1) {
      assert s.retired[i] in s.retired;
    }
  }

  lemma FreshLarges(s: Snap, base: int, hi: int, maps': map<int, int>, m': Mem)
    requires Mappings(s.maps) && LargesOk(s.mem, s.maps, s.large) && SpareOk(s.mem, s.maps, s.pool1)
    requires base !in s.large && Separate(s, base, hi, maps') && SameOutside(s.mem, m', base, hi)
    ensures LargesOk(m', maps', s.large)
    ensures s.pool1 != base ==> SpareOk(m', maps', s.pool1)
  {
    forall b | b in s.large ensures b in maps' && LargeAt(m', b, maps'[b], s.large[b]) {
      assert b in InUse(s, base);
      assert LargeAt(s.mem, b, s.maps[b], s.large[b]);
      assert Same(s.mem, m', b) && Same(s.mem, m', b + MHDR);
    }
    if s.pool1 != 0 && s.pool1 != base {
      assert s.pool1 in InUse(s, base);
      assert Same(s.mem, m', s.pool1);
    }
  }

  lemma FreshAligned(s: Snap, base: int, hi: int, maps': map<int, int>, m': Mem, u: int)
    requires PoolsOk(s) && LargesOk(s.mem, s.maps, s.large) && u in s.aligned
             && AlignedAt(s.mem, s.views, s.large, u, s.aligned[u])
    requires base !in s.views && base !in s.large && Separate(s, base, hi, maps') && SameOutside(s.mem, m', base, hi)
    ensures AlignedAt(m', s.views, s.large, u, s.aligned[u])
  {
    hide PoolOk;
    var a := s.aligned[u];
    RawRange(s, a.raw, a.owner);
    assert a.owner in InUse(s, base);
    assert Same(s.mem, m', u - MHDR) && Same(s.mem, m', u - MHDR - WORD);
  }

  lemma FreshDatum(s: Snap, base: int, hi: int, maps': map<int, int>, m': Mem, x: int)
    requires PoolsOk(s) && LargesOk(s.mem, s.maps, s.large) && x in s.data
             && DatumAt(s.mem, s.views, s.large, x, s.data[x])
    requires base !in s.views && base !in s.large && Separate(s, base, hi, maps') && SameOutside(s.mem, m', base, hi)
    ensures DatumAt(m', s.views, s.large, x, s.data[x])
  {
    hide PoolOk;
    var d := s.data[x];
    RawRange(s, d.raw, d.owner);
    assert d.owner in InUse(s, base);
    assert Same(s.mem, m', x);
  }

  lemma FreshInsides(s: Snap, base: int, hi: int, maps': map<int, int>, m': Mem)
    requires PoolsOk(s) && LargesOk(s.mem, s.maps, s.large) && InsidesOk(s.mem, s.views, s.large, s.aligned, s.data)
    requires base !in s.views && base !in s.large && Separate(s, base, hi, maps') && SameOutside(s.mem, m', base, hi)
    ensures InsidesOk(m', s.views, s.large, s.aligned, s.data)
  {
    hide PoolOk, AlignedAt, DatumAt, LargeAt;
    forall u | u in s.aligned ensures AlignedAt(m', s.views, s.large, u, s.aligned[u]) {
      FreshAligned(s, base, hi, maps', m', u);
    }
    forall x | x in s.data ensures DatumAt(m', s.views, s.large, x, s.data[x]) {
      FreshDatum(s, base, hi, maps', m', x);
    }
  }

  /** Writing to a mapping that is not in use leaves what is in use alone. */
  lemma FreshKeeps(s: Snap, base: int, hi: int, maps': map<int, int>, m': Mem)
    requires Mappings(s.maps) && PoolsOk(s) && SpareOk(s.mem, s.maps, s.pool1) && Retired(s.mem, s.first, s.retired)
    requires LargesOk(s.mem, s.maps, s.large) && InsidesOk(s.mem, s.views, s.large, s.aligned, s.data)
    requires base !in s.views && base !in s.large
    requires Separate(s, base, hi, maps') && SameOutside(s.mem, m', base, hi)
    ensures forall q :: q in s.views ==> q in maps' && PoolOk(m', q, maps'[q], s.views[q], Exempt(s, q))
    ensures Retired(m', s.first, s.retired) && LargesOk(m', maps', s.large)
    ensures s.pool1 != base ==> SpareOk(m', maps', s.pool1)
    ensures InsidesOk(m', s.views, s.large, s.aligned, s.data)
  {
    hide PoolOk, LargeAt, AlignedAt, Retired, PoolsOk, LargesOk, InsidesOk, Mappings, Separate, SameOutside;
    FreshPools(s, base, hi, maps', m');
    FreshRetired(s, m');
    FreshLarges(s, base, hi, maps', m');
    FreshInsides(s, base, hi, maps', m');
  }

  /** A pool with nothing in it yet. */
  const EMPTY := View(map[], [])

  ghost predicate Rewound(m: Mem, p: int, len: int) {
    HasPool(m, p) && m[p].refs == 0 && m[p].size == MSET && m[p].freelist == 0 && m[p].len == len
  }

  lemma EmptyPool(m: Mem, p: int, len: int)
    requires Rewound(m, p, len) && p > 0 && len > 0 && len % PGSIZE == 0
    ensures PoolOk(m, p, len, EMPTY, true)
  {
  }

  lemma InsidesMore(s: Snap, m': Mem, p: int)
    requires p !in s.views && p !in s.large && InsidesOk(m', s.views, s.large, s.aligned, s.data)
    ensures InsidesOk(m', s.views[p := EMPTY], s.large, s.aligned, s.data)
  {
    forall u | u in s.aligned ensures AlignedAt(m', s.views[p := EMPTY], s.large, u, s.aligned[u]) {
      assert AlignedAt(m', s.views, s.large, u, s.aligned[u]);
    }
    forall a | a in s.data ensures DatumAt(m', s.views[p := EMPTY], s.large, a, s.data[a]) {
      assert DatumAt(m', s.views, s.large, a, s.data[a]);
    }
  }

  lemma PoolAdded(s: Snap, p: int, maps': map<int, int>, m': Mem, s': Snap)
    requires PoolsOk(s) && s.pool == 0 && p > 0 && p !in s.views && p in maps' && PoolOk(m', p, maps'[p], EMPTY, true)
    requires forall q :: q in s.views ==> q in maps' && PoolOk(m', q, maps'[q], s.views[q], Exempt(s, q))
    requires s'.views == s.views[p := EMPTY] && s'.mem == m' && s'.maps == maps' && s'.pool == p && s'.loose == s.loose
    requires s'.retired == s.retired && s'.relaxed == s.relaxed
    ensures PoolsOk(s')
  {
    hide PoolOk;
    assert p !in SetOf(s.retired);
    forall q | q in s'.views ensures q in maps' && PoolOk(m', q, maps'[q], s'.views[q], Exempt(s', q)) {
      assert q != p ==> Exempt(s', q) == Exempt(s, q);
    }
  }

  /** The spare, rewound, becomes the current pool. */
  lemma SpareToPool(s: Snap, m': Mem)
    requires Inv(s) && s.pool == 0 && s.pool1 != 0 && s.pool1 in s.maps
    requires Rewound(m', s.pool1, s.maps[s.pool1]) && m' == s.mem[s.pool1 := m'[s.pool1]]
    ensures Inv(s.(mem := m', pool := s.pool1, pool1 := 0, views := s.views[s.pool1 := EMPTY]))
  {
    hide PoolOk, Retired, PoolsOk, LargesOk, InsidesOk, Rewound, Mappings, Separate, SameOutside;
    hide Owned, SetOf;
    var p := s.pool1;
    SpareApart(s);
    SpareSeparate(s);
    FreshKeeps(s, p, p + s.maps[p], s.maps, m');
    Positive(s.maps, p);
    EmptyPool(m', p, s.maps[p]);
    InsidesMore(s, m', p);
    PoolAdded(s, p, s.maps, m', s.(mem := m', pool := p, pool1 := 0, views := s.views[p := EMPTY]));
  }

  lemma SpareApart(s: Snap)
    requires Owners(s) && PoolsOk(s) && s.pool1 != 0
    ensures s.pool1 !in s.views && s.pool1 !in s.large && Mappings(s.maps)
    ensures s.pool == 0 ==> Owners(s.(pool := s.pool1, pool1 := 0))
  {
    hide PoolOk, Mappings;
    NotParked(s, s.pool1);
    ViewsKeys(s);
  }

  lemma Positive(maps: map<int, int>, p: int)
    requires Mappings(maps) && p in maps
    ensures p > 0 && maps[p] > 0 && maps[p] % PGSIZE == 0 && p % PGSIZE == 0
  {
  }

  lemma SpareSeparate(s: Snap)
    requires Owners(s) && PoolsOk(s) && s.pool1 != 0
    ensures s.pool1 in s.maps && Separate(s, s.pool1, s.pool1 + s.maps[s.pool1], s.maps)
    ensures forall m': Mem :: s.pool1 in m' && m' == s.mem[s.pool1 := m'[s.pool1]] ==>
      SameOutside(s.mem, m', s.pool1, s.pool1 + s.maps[s.pool1])
  {
    hide PoolOk;
    NotParked(s, s.pool1);
    forall q | q in InUse(s, s.pool1) && q in s.maps ensures s.pool1 + s.maps[s.pool1] <= q
    || q + s.maps[q] <= s.pool1 {
      Disjoint(s.maps, s.pool1, q);
    }
  }

  // ---------- new mappings ----------

  /** What is in use was there before and is there after, away from the new mapping. */
  lemma MappedApart(s: Snap, base: int, maps': map<int, int>, parked': set<int>)
    requires Owners(s) && PoolsOk(s) && MappedAs(s.maps, s.parked, base, maps', parked')
    ensures base !in s.views && base !in s.large && base != s.pool1
    ensures Separate(s, base, base + maps'[base], maps')
  {
    hide PoolOk;
    forall q | q in InUse(s, base) + {base} && q in s.maps - s.parked
      ensures q != base && q in maps' && maps'[q] == s.maps[q] && (base + maps'[base] <= q || q + s.maps[q] <= base)
    {
      Disjoint(maps', q, base);
    }
    forall q | q in s.views.Keys + s.large.Keys + One(s.pool1) ensures q in s.maps.Keys - s.parked {
      InUseNotParked(s, q);
    }
  }

  lemma InUseNotParked(s: Snap, q: int)
    requires Owners(s) && PoolsOk(s) && q in s.views.Keys + s.large.Keys + One(s.pool1)
    ensures q in s.maps && q !in s.parked
  {
    hide PoolOk, Mappings;
    if q in s.views { ViewsKeys(s); }
  }

  lemma MappedOwners(s: Snap, base: int, maps': map<int, int>, parked': set<int>, n: int)
    requires Owners(s) && MappedAs(s.maps, s.parked, base, maps', parked')
    requires base !in One(s.pool) + One(s.loose) + SetOf(s.retired) + One(s.pool1) && base !in s.large
    ensures s.pool == 0 && base != 0 ==> Owners(s.(maps := maps', parked := parked', pool := base))
    ensures Owners(s.(maps := maps', parked := parked', large := s.large[base := n]))
  {
    hide Mappings;
    assert s.large[base := n].Keys == s.large.Keys + {base};
  }

  /** A fresh mapping, set up as an empty pool, becomes the current one. */
  lemma MapNewPool(s: Snap, base: int, maps': map<int, int>, parked': set<int>, m': Mem)
    requires Inv(s) && s.pool == 0 && MappedAs(s.maps, s.parked, base, maps', parked')
    requires Rewound(m', base, maps'[base]) && m' == s.mem[base := m'[base]]
    ensures Inv(s.(mem := m', maps := maps', parked := parked', pool := base, views := s.views[base := EMPTY]))
  {
    hide PoolOk, Retired, PoolsOk, LargesOk, InsidesOk, Rewound, Mappings, Separate, Owned, SetOf;
    OwnersMaps(s);
    Positive(maps', base);
    MappedApart(s, base, maps', parked');
    FreshKeeps(s, base, base + maps'[base], maps', m');
    EmptyPool(m', base, maps'[base]);
    InsidesMore(s, m', base);
    ViewsKeys(s);
    MappedOwners(s, base, maps', parked', 0);
    PoolAdded(s, base, maps', m', s.(mem := m', maps := maps', parked := parked', pool := base,
                                     views := s.views[base := EMPTY]));
  }

  lemma PoolsWith(s: Snap, maps': map<int, int>, m': Mem, s': Snap)
    requires PoolsOk(s) && forall q :: q in s.views ==> q in maps' && PoolOk(m', q, maps'[q], s.views[q], Exempt(s, q))
    requires s'.views == s.views && s'.mem == m' && s'.maps == maps' && s'.pool == s.pool && s'.loose == s.loose
    requires s'.retired == s.retired && s'.relaxed == s.relaxed
    ensures PoolsOk(s')
  {
    hide PoolOk;
    forall q | q in s'.views ensures q in maps' && PoolOk(m', q, maps'[q], s'.views[q], Exempt(s', q)) {
      assert Exempt(s', q) == Exempt(s, q);
    }
  }

  lemma LargesMore(m: Mem, maps: map<int, int>, large: map<int, int>, b: int, n: int)
    requires LargesOk(m, maps, large) && b in maps && LargeAt(m, b, maps[b], n)
    ensures LargesOk(m, maps, large[b := n])
  {
  }

  lemma InsidesLarger(m: Mem, s: Snap, b: int, n: int)
    requires InsidesOk(m, s.views, s.large, s.aligned, s.data) && (b in s.large ==> s.large[b] <= n)
    ensures InsidesOk(m, s.views, s.large[b := n], s.aligned, s.data)
  {
    forall u | u in s.aligned ensures AlignedAt(m, s.views, s.large[b := n], u, s.aligned[u]) {
      assert AlignedAt(m, s.views, s.large, u, s.aligned[u]);
    }
    forall a | a in s.data ensures DatumAt(m, s.views, s.large[b := n], a, s.data[a]) {
      assert DatumAt(m, s.views, s.large, a, s.data[a]);
    }
  }

  /** A fresh mapping for one large request. */
  lemma MapLarge(s: Snap, base: int, maps': map<int, int>, parked': set<int>, m': Mem, n: int)
    requires Inv(s) && MappedAs(s.maps, s.parked, base, maps', parked')
    requires LargeAt(m', base, maps'[base], n) && SameOutside(s.mem, m', base, base + maps'[base])
    ensures Inv(s.(mem := m', maps := maps', parked := parked', large := s.large[base := n]))
    ensures base !in s.large && base !in s.views
  {
    hide PoolOk, Retired, PoolsOk, LargesOk, InsidesOk, LargeAt, Mappings, Separate, Owned, SetOf, SameOutside;
    OwnersMaps(s);
    MappedApart(s, base, maps', parked');
    FreshKeeps(s, base, base + maps'[base], maps', m');
    LargesMore(m', maps', s.large, base, n);
    InsidesLarger(m', s, base, n);
    ViewsKeys(s);
    Positive(maps', base);
    MappedOwners(s, base, maps', parked', n);
    PoolsWith(s, maps', m', s.(mem := m', maps := maps', parked := parked', large := s.large[base := n]));
  }

  /** No mapping was to be had; the cache may have shrunk. */
  lemma MapFailed(s: Snap, maps': map<int, int>, parked': set<int>)
    requires Inv(s) && Mappings(maps') && parked' <= s.parked && maps'.Keys == (s.maps.Keys - s.parked) + parked'
    requires forall b :: b in maps' && b in s.maps ==> maps'[b] == s.maps[b]
    ensures Inv(s.(maps := maps', parked := parked'))
  {
    hide PoolOk, Retired, PoolsOk, LargesOk, InsidesOk, Mappings;
    forall q | q in s.views.Keys + s.large.Keys + One(s.pool1) ensures q in maps' { InUseNotParked(s, q); }
    PoolsFrame(s, s.(maps := maps', parked := parked'));
    LargesFrame(s.mem, s.maps, maps', s.large);
  }

  // ---------- resizing a mapping ----------

  ghost function OtherData(data: map<int, Datum>, raw: int): map<int, Datum> {
    map a | a in data && data[a].raw != raw :: data[a]
  }

  lemma DatumInLarge(s: Snap, b: int, a: int)
    requires Owners(s) && PoolsOk(s) && LargesOk(s.mem, s.maps, s.large) && b in s.large
    requires a in s.data && s.data[a].raw == b + LARGE_HDR && DatumAt(s.mem, s.views, s.large, a, s.data[a])
    ensures s.data[a].owner == b && b !in s.views
  {
    hide PoolOk;
    var owner := s.data[a].owner;
    RawRange(s, b + LARGE_HDR, owner);
    NotParked(s, b);
    ViewsKeys(s);
    assert LargeAt(s.mem, b, s.maps[b], s.large[b]);
    if owner != b { Disjoint(s.maps, owner, b); }
  }

  lemma DataInLarge(s: Snap, b: int, m': Mem, n: int)
    requires Owners(s) && PoolsOk(s) && LargesOk(s.mem, s.maps, s.large) && b in s.large
    requires InsidesOk(s.mem, s.views, s.large, s.aligned, s.data)
             && DataStays(s.data, b + LARGE_HDR, s.mem, m', b + LARGE_HDR + n)
    ensures forall a :: a in s.data && s.data[a].raw == b + LARGE_HDR ==>
      DatumAt(m', s.views, s.large[b := n], a, s.data[a])
  {
    hide PoolOk, PoolsOk, LargesOk, Owned, SetOf;
    forall a | a in s.data && s.data[a].raw == b + LARGE_HDR ensures DatumAt(m', s.views, s.large[b := n], a,
        s.data[a]) {
      assert DatumAt(s.mem, s.views, s.large, a, s.data[a]);
      DatumInLarge(s, b, a);
      assert Same(s.mem, m', a);
    }
  }

  lemma InsidesAgain(m: Mem, views: map<int, View>, large: map<int, int>, aligned: map<int, Aligned>,
                     data: map<int, Datum>, raw: int)
    requires InsidesOk(m, views, large, aligned, OtherData(data, raw))
    requires forall a :: a in data && data[a].raw == raw ==> DatumAt(m, views, large, a, data[a])
    ensures InsidesOk(m, views, large, aligned, data)
  {
    hide AlignedAt, DatumAt;
    forall a | a in data ensures DatumAt(m, views, large, a, data[a]) {
      if data[a].raw != raw { assert a in OtherData(data, raw); }
    }
  }

  lemma LessData(m: Mem, views: map<int, View>, large: map<int, int>, aligned: map<int, Aligned>,
                 data: map<int, Datum>, raw: int)
    requires InsidesOk(m, views, large, aligned, data)
    ensures InsidesOk(m, views, large, aligned, OtherData(data, raw)) && NoData(OtherData(data, raw), raw)
  {
    hide AlignedAt, DatumAt;
  }

  /** A large block's mapping, resized in place. */
  lemma LargeResized(s: Snap, b: int, len: int, m': Mem, n: int)
    requires Inv(s) && b in s.large && b in s.maps && Mappings(s.maps[b := len]) && NoAlias(s.aligned, b + LARGE_HDR)
    requires LargeAt(m', b, len, n) && SameOutside(s.mem, m', b, b + Larger(s.maps[b], len))
    requires DataStays(s.data, b + LARGE_HDR, s.mem, m', b + LARGE_HDR + n)
    ensures Inv(s.(mem := m', maps := s.maps[b := len], large := s.large[b := n]))
  {
    hide PoolOk, Retired, PoolsOk, LargesOk, InsidesOk, LargeAt, Mappings, Owned, SetOf, Separate, SameOutside,
        DataStays;
    var maps' := s.maps[b := len];
    var s1 := s.(data := OtherData(s.data, b + LARGE_HDR));
    var s0 := s1.(large := s.large - {b});
    LargeApart(s, b, maps', n);
    LessData(s.mem, s.views, s.large, s.aligned, s.data, b + LARGE_HDR);
    LargesLess(s, b, s.maps);
    InsidesWithout(s1, b);
    PoolsFrame(s, s1);
    PoolsWithout(s1, b);
    ResizeSeparate(s1, b, len);
    FreshKeeps(s0, b, b + Larger(s.maps[b], len), maps', m');
    LargesMore(m', maps', s0.large, b, n);
    InsidesLarger(m', s0, b, n);
    assert s0.large[b := n] == s.large[b := n];
    DataInLarge(s, b, m', n);
    InsidesAgain(m', s.views, s.large[b := n], s.aligned, s.data, b + LARGE_HDR);
    PoolsWith(s, maps', m', s.(mem := m', maps := maps', large := s.large[b := n]));
  }

  lemma PoolsWithout(s: Snap, b: int)
    requires PoolsOk(s)
    ensures PoolsOk(s.(large := s.large - {b}))
    ensures forall q :: Exempt(s.(large := s.large - {b}), q) == Exempt(s, q)
  {
    hide PoolOk;
  }

  lemma ResizeSeparate(s: Snap, b: int, len: int)
    requires Owners(s) && PoolsOk(s) && b in s.large && b in s.maps && Mappings(s.maps[b := len])
    ensures Separate(s.(large := s.large - {b}), b, b + Larger(s.maps[b], len), s.maps[b := len])
  {
    hide PoolOk;
    RoomFor(s.maps, b, len);
  }

  lemma LargeApart(s: Snap, b: int, maps': map<int, int>, n: int)
    requires Owners(s) && PoolsOk(s) && b in s.large && Mappings(maps') && maps'.Keys == s.maps.Keys
    ensures b !in s.views && b in s.maps && b != s.pool1 && Mappings(s.maps)
    ensures Owners(s.(maps := maps', large := s.large[b := n]))
  {
    hide PoolOk, Mappings;
    NotParked(s, b);
    ViewsKeys(s);
    assert s.large[b := n].Keys == s.large.Keys;
  }
}
