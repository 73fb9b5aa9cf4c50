/** How each kind of change keeps what holds of the pool allocator. */
module MallocSteps {
  import opened MallocBlocks
  import opened MallocCache
  import opened MallocList
  import opened MallocSearch
  import opened MallocState

  function Larger(a: int, b: int): int { if a < b then b else a }

  // ---------- changes inside one pool ----------

  /** The live blocks other than the one at gone keep their place, size and contents. */
  ghost predicate PayloadsKept(m: Mem, m': Mem, v: View, v': View, gone: int) {
    forall at :: at in v.live && at != gone ==>
      at in v'.live && v'.live[at] == v.live[at] && SameWithin(m, m', at + MHDR, at + MHDR + v.live[at])
  }

  /** No aligned block sits in the raw block at raw. */
  ghost predicate NoAlias(aligned: map<int, Aligned>, raw: int) { forall u :: u in aligned ==> aligned[u].raw != raw }

  /** No byte of the raw block at raw is under watch. */
  ghost predicate NoData(data: map<int, Datum>, raw: int) { forall a :: a in data ==> data[a].raw != raw }

  /** What is under watch in the raw block at raw is below end and as it was. */
  ghost predicate DataStays(data: map<int, Datum>, raw: int, m: Mem, m': Mem, end: int) {
    forall a :: a in data && data[a].raw == raw ==> a < end && Same(m, m', a)
  }

  function LiveSize(v: View, at: int): int { if at in v.live then v.live[at] else 0 }

  /** From p up to hi there is no other mapping. */
  ghost predicate Room(maps: map<int, int>, p: int, hi: int) {
    forall q :: q in maps && q != p ==> hi <= q || q + maps[q] <= p
  }

  lemma RoomFor(maps: map<int, int>, p: int, len: int)
    requires Mappings(maps) && p in maps && Mappings(maps[p := len])
    ensures Room(maps, p, p + Larger(maps[p], len))
  {
    forall q | q in maps && q != p ensures p + Larger(maps[p], len) <= q || q + maps[q] <= p {
      Disjoint(maps, p, q);
      Disjoint(maps[p := len], p, q);
    }
  }

  lemma ViewsNotLarge(s: Snap, p: int)
    requires Owners(s) && PoolsOk(s) && p in s.views
    ensures p !in s.large
  {
    assert p in One(s.pool) + One(s.loose) + SetOf(s.retired);
  }

  lemma AlignedHere(s: Snap, p: int, m': Mem, v': View, gone: int, u: int)
    requires Owners(s) && PoolsOk(s) && p in s.views && u in s.aligned && s.aligned[u].owner == p
    requires AlignedAt(s.mem, s.views, s.large, u, s.aligned[u])
    requires gone in s.views[p].live ==> s.aligned[u].raw != gone + MHDR
    requires PayloadsKept(s.mem, m', s.views[p], v', gone)
    ensures AlignedAt(m', s.views[p := v'], s.large, u, s.aligned[u])
  {
    hide PoolsOk, Owners;
    var at := s.aligned[u].raw - MHDR;
    ViewsNotLarge(s, p);
    assert at in s.views[p].live;
    assert Same(s.mem, m', u - MHDR) && Same(s.mem, m', u - MHDR - WORD);
  }

  lemma AlignedThere(s: Snap, p: int, hi: int, m': Mem, v': View, u: int)
    requires PoolsOk(s) && LargesOk(s.mem, s.maps, s.large) && u in s.aligned && s.aligned[u].owner != p
    requires AlignedAt(s.mem, s.views, s.large, u, s.aligned[u])
    requires Room(s.maps, p, hi) && SameOutside(s.mem, m', p, hi)
    ensures AlignedAt(m', s.views[p := v'], s.large, u, s.aligned[u])
  {
    hide PoolsOk, LargesOk;
    RawRange(s, s.aligned[u].raw, s.aligned[u].owner);
    assert Same(s.mem, m', u - MHDR) && Same(s.mem, m', u - MHDR - WORD);
  }

  lemma AlignedsKept(s: Snap, p: int, hi: int, m': Mem, v': View, gone: int)
    requires Inv(s) && p in s.views && (gone in s.views[p].live ==> NoAlias(s.aligned, gone + MHDR))
    requires PayloadsKept(s.mem, m', s.views[p], v', gone) && Room(s.maps, p, hi) && SameOutside(s.mem, m', p, hi)
    ensures forall u :: u in s.aligned ==> AlignedAt(m', s.views[p := v'], s.large, u, s.aligned[u])
  {
    forall u | u in s.aligned ensures AlignedAt(m', s.views[p := v'], s.large, u, s.aligned[u]) {
      if s.aligned[u].owner == p { AlignedHere(s, p, m', v', gone, u); } else { AlignedThere(s, p, hi, m', v', u); }
    }
  }

  lemma DatumHere(s: Snap, p: int, m': Mem, v': View, gone: int, a: int)
    requires Owners(s) && PoolsOk(s) && p in s.views && a in s.data && s.data[a].owner == p
    requires DatumAt(s.mem, s.views, s.large, a, s.data[a])
    requires gone in s.views[p].live ==> DataStays(s.data, gone + MHDR, s.mem, m', gone + MHDR + LiveSize(v', gone))
    requires PayloadsKept(s.mem, m', s.views[p], v', gone)
    ensures DatumAt(m', s.views[p := v'], s.large, a, s.data[a])
  {
    hide PoolsOk, Owners;
    var at := s.data[a].raw - MHDR;
    ViewsNotLarge(s, p);
    assert at in s.views[p].live;
    assert Same(s.mem, m', a);
  }

  lemma DatumThere(s: Snap, p: int, hi: int, m': Mem, v': View, a: int)
    requires PoolsOk(s) && LargesOk(s.mem, s.maps, s.large) && a in s.data && s.data[a].owner != p
    requires DatumAt(s.mem, s.views, s.large, a, s.data[a])
    requires Room(s.maps, p, hi) && SameOutside(s.mem, m', p, hi)
    ensures DatumAt(m', s.views[p := v'], s.large, a, s.data[a])
  {
    hide PoolsOk, LargesOk;
    RawRange(s, s.data[a].raw, s.data[a].owner);
    assert Same(s.mem, m', a);
  }

  lemma DataKept(s: Snap, p: int, hi: int, m': Mem, v': View, gone: int)
    requires Inv(s) && p in s.views
    requires gone in s.views[p].live ==> DataStays(s.data, gone + MHDR, s.mem, m', gone + MHDR + LiveSize(v', gone))
    requires PayloadsKept(s.mem, m', s.views[p], v', gone) && Room(s.maps, p, hi) && SameOutside(s.mem, m', p, hi)
    ensures forall a :: a in s.data ==> DatumAt(m', s.views[p := v'], s.large, a, s.data[a])
  {
    forall a | a in s.data ensures DatumAt(m', s.views[p := v'], s.large, a, s.data[a]) {
      if s.data[a].owner == p { DatumHere(s, p, m', v', gone, a); } else { DatumThere(s, p, hi, m', v', a); }
    }
  }

  lemma LargesKept(s: Snap, p: int, hi: int, m': Mem)
    requires LargesOk(s.mem, s.maps, s.large) && p !in s.large && Room(s.maps, p, hi) && SameOutside(s.mem, m', p, hi)
    ensures forall b :: b in s.large ==> LargeAt(m', b, s.maps[b], s.large[b])
  {
    forall b | b in s.large ensures LargeAt(m', b, s.maps[b], s.large[b]) {
      assert LargeAt(s.mem, b, s.maps[b], s.large[b]);
      assert Same(s.mem, m', b) && Same(s.mem, m', b + MHDR);
    }
  }

  lemma OtherPool(s: Snap, p: int, hi: int, m': Mem, q: int)
    requires PoolsOk(s) && q in s.views && q != p && Room(s.maps, p, hi) && SameOutside(s.mem, m', p, hi)
    ensures PoolOk(m', q, s.maps[q], s.views[q], Exempt(s, q)) && m'[q] == s.mem[q]
  {
    PoolFrame(s.mem, m', q, s.maps[q], s.views[q], Exempt(s, q));
  }

  lemma RetiredKept(s: Snap, p: int, m': Mem)
    requires Retired(s.mem, s.first, s.retired)
    requires forall q :: q in s.retired ==> HasPool(m', q) && HasPool(s.mem, q) && m'[q].nextPool == s.mem[q].nextPool
    ensures Retired(m', s.first, s.retired)
  {
    forall i | 0 <= i < |s.retired| ensures HasPool(m', s.retired[i])
    && m'[s.retired[i]].nextPool == PoolAt(s.retired, i + 1) {}
  }

  ghost function Updated(s: Snap, p: int, m': Mem, len: int, v': View): Snap {
    s.(mem := m', maps := s.maps[p := len], views := s.views[p := v'])
  }

  lemma SameOwners(s: Snap, maps': map<int, int>)
    requires Owners(s) && Mappings(maps') && maps'.Keys == s.maps.Keys
    ensures Owners(s.(maps := maps'))
  {
  }

  lemma UpdatedPools(s: Snap, p: int, hi: int, m': Mem, len: int, v': View)
    requires PoolsOk(s) && p in s.views && Room(s.maps, p, hi) && SameOutside(s.mem, m', p, hi)
    requires PoolOk(m', p, len, v', Exempt(s, p))
    ensures PoolsOk(Updated(s, p, m', len, v'))
  {
    forall q | q in s.views && q != p ensures PoolOk(m', q, s.maps[q], s.views[q], Exempt(s, q)) {
      OtherPool(s, p, hi, m', q);
    }
  }

  lemma UpdatedRetired(s: Snap, p: int, hi: int, m': Mem)
    requires PoolsOk(s) && Retired(s.mem, s.first, s.retired)
    requires Room(s.maps, p, hi) && SameOutside(s.mem, m', p, hi)
    requires HasPool(m', p) && HasPool(s.mem, p) && (p in s.retired ==> m'[p].nextPool == s.mem[p].nextPool)
    ensures Retired(m', s.first, s.retired)
  {
    forall q | q in s.retired ensures HasPool(m', q) && HasPool(s.mem, q) && m'[q].nextPool == s.mem[q].nextPool {
      assert q in SetOf(s.retired);
      assert PoolOk(s.mem, q, s.maps[q], s.views[q], Exempt(s, q));
      if q != p { OtherPool(s, p, hi, m', q); }
    }
    RetiredKept(s, p, m');
  }

  lemma UpdatedRest(s: Snap, p: int, hi: int, m': Mem, len: int)
    requires Mappings(s.maps) && SpareOk(s.mem, s.maps, s.pool1) && LargesOk(s.mem, s.maps, s.large) && p !in s.large
             && p != s.pool1
    requires Room(s.maps, p, hi) && SameOutside(s.mem, m', p, hi)
    ensures SpareOk(m', s.maps[p := len], s.pool1) && LargesOk(m', s.maps[p := len], s.large)
  {
    LargesKept(s, p, hi, m');
    if s.pool1 != 0 { assert Same(s.mem, m', s.pool1); }
  }

  /** The records of the pools other than p are as they were. */
  ghost predicate OthersSame(views: map<int, View>, p: int, m: Mem, m': Mem) {
    forall q :: q in views && q != p ==> HasPool(m, q) && HasPool(m', q) && m'[q] == m[q]
  }

  lemma OthersKept(s: Snap, p: int, hi: int, m': Mem)
    requires PoolsOk(s) && Room(s.maps, p, hi) && SameOutside(s.mem, m', p, hi)
    ensures OthersSame(s.views, p, s.mem, m')
  {
    hide PoolOk;
    forall q | q in s.views && q != p ensures HasPool(s.mem, q) && HasPool(m', q) && m'[q] == s.mem[q] {
      PoolFrame(s.mem, m', q, s.maps[q], s.views[q], Exempt(s, q));
    }
  }

  /** A change inside one pool's pages, which may be fewer or more afterwards. */
  lemma UpdatePool(s: Snap, p: int, m': Mem, len: int, v': View, gone: int)
    requires Inv(s) && p in s.views && Mappings(s.maps[p := len])
    requires SameOutside(s.mem, m', p, p + Larger(s.maps[p], len))
    requires PoolOk(m', p, len, v', Exempt(s, p))
    requires p in s.retired ==> HasPool(s.mem, p) && m'[p].nextPool == s.mem[p].nextPool
    requires PayloadsKept(s.mem, m', s.views[p], v', gone)
    requires gone in s.views[p].live ==> NoAlias(s.aligned, gone + MHDR)
    requires gone in s.views[p].live ==> DataStays(s.data, gone + MHDR, s.mem, m', gone + MHDR + LiveSize(v', gone))
    ensures Inv(Updated(s, p, m', len, v')) && OthersSame(s.views, p, s.mem, m')
  {
    var hi := p + Larger(s.maps[p], len);
    RoomFor(s.maps, p, len);
    ViewsNotLarge(s, p);
    NotSpare(s, p);
    SameOwners(s, s.maps[p := len]);
    UpdatedPools(s, p, hi, m', len, v');
    UpdatedRetired(s, p, hi, m');
    UpdatedRest(s, p, hi, m', len);
    AlignedsKept(s, p, hi, m', v', gone);
    DataKept(s, p, hi, m', v', gone);
    OthersKept(s, p, hi, m');
    FromParts(s, p, m', len, v');
  }

  lemma NotSpare(s: Snap, p: int)
    requires Owners(s) && PoolsOk(s) && p in s.views
    ensures p != s.pool1 && HasPool(s.mem, p)
  {
    assert p in One(s.pool) + One(s.loose) + SetOf(s.retired);
    assert p in s.maps;
    assert One(s.pool1) !! One(s.pool) + One(s.loose) + SetOf(s.retired);
  }

  lemma FromParts(s: Snap, p: int, m': Mem, len: int, v': View)
    requires InsidesOk(s.mem, s.views, s.large, s.aligned, s.data) && p in s.maps
             && Owners(s.(maps := s.maps[p := len])) && PoolsOk(Updated(s, p, m', len, v'))
    requires Retired(m', s.first, s.retired)
    requires SpareOk(m', s.maps[p := len], s.pool1) && LargesOk(m', s.maps[p := len], s.large)
    requires forall u :: u in s.aligned ==> AlignedAt(m', s.views[p := v'], s.large, u, s.aligned[u])
    requires forall a :: a in s.data ==> DatumAt(m', s.views[p := v'], s.large, a, s.data[a])
    ensures Inv(Updated(s, p, m', len, v'))
  {
  }
}
