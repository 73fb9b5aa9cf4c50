/** How mappings change owners: retiring, promoting, parking, mapping and giving back. */
module MallocMoves {
  import opened MallocCache
  import opened MallocList
  import opened MallocSearch
  import opened MallocState
  import opened MallocSteps

  /** p went to the cache, or back to the system. */
  ghost predicate Given(maps: map<int, int>, parked: set<int>, p: int, maps': map<int, int>, parked': set<int>) {
    (maps' == maps && parked' == parked + {p}) || (maps' == maps - {p} && parked' == parked)
  }

  lemma PoolHeader(s: Snap, p: int)
    requires PoolsOk(s) && p in s.views
    ensures p in s.maps && HasPool(s.mem, p) && s.mem[p].len == s.maps[p] && s.mem[p].refs == |s.views[p].live| && p > 0
  {
  }

  lemma NotParked(s: Snap, p: int)
    requires Owners(s) && (p in One(s.pool) || p in One(s.pool1) || p in One(s.loose) || p in s.large)
    ensures p in s.maps && p !in s.parked
    ensures p in One(s.pool) + One(s.loose) ==> p !in s.retired && p !in s.large && p != s.pool1
    ensures p in One(s.pool1) ==> p !in One(s.pool) + One(s.loose) + SetOf(s.retired) && p !in s.large
    ensures p in s.large ==> p !in One(s.pool) + One(s.loose) + SetOf(s.retired) && p != s.pool1
    ensures p in One(s.pool) ==> p != s.loose
  {
    assert p in s.large ==> p in s.large.Keys;
    assert p in s.retired ==> p in SetOf(s.retired);
  }

  // ---------- the parts, one at a time ----------

  /** Dropping a pool's view, with the pool. */
  lemma ViewDropped(s: Snap, p: int, s': Snap)
    requires PoolsOk(s) && p in s.views
    requires s'.views == s.views - {p} && s'.mem == s.mem && s'.relaxed == s.relaxed && s'.retired == s.retired
    requires One(s'.pool) + One(s'.loose) + SetOf(s.retired) == One(s.pool) + One(s.loose) + SetOf(s.retired) - {p}
    requires forall q :: q in s.maps && q != p ==> q in s'.maps && s'.maps[q] == s.maps[q]
    ensures PoolsOk(s')
  {
    hide PoolOk;
    forall q | q in s'.views ensures q in s'.maps && PoolOk(s'.mem, q, s'.maps[q], s'.views[q], Exempt(s', q)) {
      assert Exempt(s', q) == Exempt(s, q);
    }
  }

  /** A drained pool holds no aligned block and nothing under watch. */
  lemma NoneInside(s: Snap, p: int)
    requires p !in s.large && InsidesOk(s.mem, s.views, s.large, s.aligned, s.data) && p in s.views
             && s.views[p].live == map[]
    ensures InsidesOk(s.mem, s.views - {p}, s.large, s.aligned, s.data)
  {
    forall u | u in s.aligned ensures AlignedAt(s.mem, s.views - {p}, s.large, u, s.aligned[u]) {
      assert AlignedAt(s.mem, s.views, s.large, u, s.aligned[u]);
    }
    forall a | a in s.data ensures DatumAt(s.mem, s.views - {p}, s.large, a, s.data[a]) {
      assert DatumAt(s.mem, s.views, s.large, a, s.data[a]);
    }
  }

  lemma GivenMaps(s: Snap, p: int, maps': map<int, int>, parked': set<int>)
    requires Mappings(s.maps) && Given(s.maps, s.parked, p, maps', parked') && p in s.maps && p !in s.parked
    ensures Mappings(maps') && maps'.Keys == s.maps.Keys - {p} + (parked' - s.parked)
    ensures parked' - s.parked <= {p} && s.parked <= parked'
    ensures forall q :: q in s.maps && q != p ==> q in maps' && maps'[q] == s.maps[q]
  {
  }

  lemma LargesFrame(m: Mem, maps: map<int, int>, maps': map<int, int>, large: map<int, int>)
    requires LargesOk(m, maps, large) && forall q :: q in large && q in maps ==> q in maps' && maps'[q] == maps[q]
    ensures LargesOk(m, maps', large)
  {
    hide LargeAt;
  }

  lemma SetOfCons(p: int, ps: seq<int>)
    ensures SetOf([p] + ps) == {p} + SetOf(ps)
  {
  }

  lemma PoolDropped(s: Snap)
    requires Owners(s) && s.pool != 0
    ensures One(0) + One(s.loose) + SetOf(s.retired) == One(s.pool) + One(s.loose) + SetOf(s.retired) - {s.pool}
  {
    NotParked(s, s.pool);
  }

  lemma LooseDropped(s: Snap)
    requires Owners(s) && s.loose != 0
    ensures One(s.pool) + One(0) + SetOf(s.retired) == One(s.pool) + One(s.loose) + SetOf(s.retired) - {s.loose}
    ensures s.loose !in s.large && s.loose in s.maps && s.loose !in s.parked
  {
    NotParked(s, s.loose);
  }

  // ---------- between the current pool, the retired list and the spare ----------

  /** The current pool joins the retired list. */
  lemma RelistPool(s: Snap)
    requires Inv(s) && s.pool != 0 && s.pool != s.relaxed
    requires s.pool in s.views && s.pool in s.maps && PoolOk(s.mem, s.pool, s.maps[s.pool], s.views[s.pool], false)
    requires HasPool(s.mem, s.pool) && s.mem[s.pool].nextPool == s.first
    ensures Inv(s.(pool := 0, first := s.pool, retired := [s.pool] + s.retired))
  {
    hide PoolOk, LargesOk, InsidesOk, SpareOk, Mappings, Retired;
    var s' := s.(pool := 0, first := s.pool, retired := [s.pool] + s.retired);
    SetOfCons(s.pool, s.retired);
    NotParked(s, s.pool);
    PoolHeader(s, s.pool);
    RetiredCons(s);
    forall q | q in s'.views ensures PoolOk(s.mem, q, s.maps[q], s.views[q], Exempt(s', q)) {
      assert q != s.pool ==> Exempt(s', q) == Exempt(s, q);
    }
  }

  lemma RetiredCons(s: Snap)
    requires Retired(s.mem, s.first, s.retired) && s.pool > 0 && HasPool(s.mem, s.pool)
             && s.mem[s.pool].nextPool == s.first
    requires s.pool !in s.retired
    ensures Retired(s.mem, s.pool, [s.pool] + s.retired)
  {
    var ps := [s.pool] + s.retired;
    forall i | 0 <= i < |ps| ensures ps[i] > 0 && HasPool(s.mem, ps[i]) && s.mem[ps[i]].nextPool == PoolAt(ps, i + 1) {
      if i > 0 { assert ps[i] == s.retired[i - 1] && PoolAt(ps, i + 1) == PoolAt(s.retired, i); }
    }
    forall i, j | 0 <= i < j < |ps| ensures ps[i] != ps[j] {
      assert ps[j] == s.retired[j - 1];
      if i > 0 { assert ps[i] == s.retired[i - 1]; }
    }
  }

  lemma OwnersToSpare(s: Snap)
    requires Owners(s)
    ensures s.pool1 == 0 ==> Owners(s.(pool := 0, pool1 := s.pool)) && Owners(s.(loose := 0, pool1 := s.loose))
  {
    hide Mappings;
  }

  /** The current pool, drained, becomes the spare. */
  lemma PoolToSpare(s: Snap)
    requires Inv(s) && s.pool != 0 && s.pool1 == 0 && s.pool in s.views && s.views[s.pool].live == map[]
    ensures Inv(s.(pool := 0, pool1 := s.pool, views := s.views - {s.pool}))
  {
    hide PoolOk, PoolsOk, LargesOk, InsidesOk, Retired, Owned, SetOf;
    var s' := s.(pool := 0, pool1 := s.pool, views := s.views - {s.pool});
    PoolHeader(s, s.pool);
    NotParked(s, s.pool);
    PoolDropped(s);
    NoneInside(s, s.pool);
    OwnersToSpare(s);
    ViewDropped(s, s.pool, s');
  }

  /** Likewise for a loose pool. */
  lemma LooseToSpare(s: Snap)
    requires Inv(s) && s.loose != 0 && s.pool1 == 0 && s.loose in s.views && s.views[s.loose].live == map[]
    ensures Inv(s.(loose := 0, pool1 := s.loose, views := s.views - {s.loose}))
  {
    hide PoolOk, PoolsOk, LargesOk, InsidesOk, Retired, Owned, SetOf;
    var s' := s.(loose := 0, pool1 := s.loose, views := s.views - {s.loose});
    PoolHeader(s, s.loose);
    LooseDropped(s);
    NoneInside(s, s.loose);
    OwnersToSpare(s);
    ViewDropped(s, s.loose, s');
  }

  lemma LooseToPool(s: Snap)
    requires Inv(s) && s.loose != 0 && s.pool == 0
    ensures Inv(s.(loose := 0, pool := s.loose))
  {
    hide PoolOk, LargesOk, InsidesOk, SpareOk, Retired, Mappings;
    forall q | q in s.views ensures Exempt(s.(loose := 0, pool := s.loose), q) == Exempt(s, q) {}
  }

  // ---------- giving a mapping up ----------

  lemma OwnersMaps(s: Snap)
    requires Owners(s)
    ensures Mappings(s.maps)
  {
  }

  lemma PoolGivenOwners(s: Snap, maps': map<int, int>, parked': set<int>)
    requires Owners(s) && s.pool != 0 && Given(s.maps, s.parked, s.pool, maps', parked')
    ensures Owned(maps', One(0), One(s.pool1), One(s.loose), SetOf(s.retired), s.large.Keys, parked')
  {
    hide Mappings, Given, SetOf;
    NotParked(s, s.pool);
    GivenMaps(s, s.pool, maps', parked');
    var rest := One(s.pool1) + One(s.loose) + SetOf(s.retired) + s.large.Keys;
    assert s.maps.Keys - {s.pool} == rest + s.parked;
    assert rest !! parked' && s.pool !in rest;
  }

  lemma LooseGivenOwners(s: Snap, maps': map<int, int>, parked': set<int>)
    requires Owners(s) && s.loose != 0 && Given(s.maps, s.parked, s.loose, maps', parked')
    ensures Owned(maps', One(s.pool), One(s.pool1), One(0), SetOf(s.retired), s.large.Keys, parked')
  {
    hide Mappings, Given, SetOf;
    NotParked(s, s.loose);
    GivenMaps(s, s.loose, maps', parked');
    var rest := One(s.pool) + One(s.pool1) + SetOf(s.retired) + s.large.Keys;
    assert s.maps.Keys - {s.loose} == rest + s.parked;
    assert rest !! parked' && s.loose !in rest;
  }

  lemma LargeGivenOwners(s: Snap, b: int, maps': map<int, int>, parked': set<int>)
    requires Owners(s) && b in s.large && Given(s.maps, s.parked, b, maps', parked')
    ensures Owned(maps', One(s.pool), One(s.pool1), One(s.loose), SetOf(s.retired), (s.large - {b}).Keys, parked')
  {
    hide Mappings, Given, SetOf;
    NotParked(s, b);
    GivenMaps(s, b, maps', parked');
    assert (s.large - {b}).Keys == s.large.Keys - {b};
    var rest := One(s.pool) + One(s.pool1) + One(s.loose) + SetOf(s.retired) + (s.large.Keys - {b});
    assert s.maps.Keys - {b} == rest + s.parked;
    assert rest !! parked' && b !in rest;
  }

  lemma PoolGiven(s: Snap, maps': map<int, int>, parked': set<int>)
    requires Inv(s) && s.pool != 0 && s.pool in s.views && s.views[s.pool].live == map[]
    requires Given(s.maps, s.parked, s.pool, maps', parked')
    ensures Inv(s.(pool := 0, views := s.views - {s.pool}, maps := maps', parked := parked'))
  {
    hide PoolOk, PoolsOk, LargesOk, InsidesOk, Retired, Mappings, Given, Owned, SetOf;
    var s' := s.(pool := 0, views := s.views - {s.pool}, maps := maps', parked := parked');
    PoolGivenOwners(s, maps', parked');
    NotParked(s, s.pool);
    OwnersMaps(s);
    GivenMaps(s, s.pool, maps', parked');
    PoolDropped(s);
    NoneInside(s, s.pool);
    ViewDropped(s, s.pool, s');
    LargesFrame(s.mem, s.maps, maps', s.large);
  }

  lemma LooseGiven(s: Snap, maps': map<int, int>, parked': set<int>)
    requires Inv(s) && s.loose != 0 && s.loose in s.views && s.views[s.loose].live == map[]
    requires Given(s.maps, s.parked, s.loose, maps', parked')
    ensures Inv(s.(loose := 0, views := s.views - {s.loose}, maps := maps', parked := parked'))
  {
    hide PoolOk, PoolsOk, LargesOk, InsidesOk, Retired, Mappings, Given, Owned, SetOf;
    var s' := s.(loose := 0, views := s.views - {s.loose}, maps := maps', parked := parked');
    LooseGivenOwners(s, maps', parked');
    NotParked(s, s.loose);
    OwnersMaps(s);
    GivenMaps(s, s.loose, maps', parked');
    LooseDropped(s);
    NoneInside(s, s.loose);
    ViewDropped(s, s.loose, s');
    LargesFrame(s.mem, s.maps, maps', s.large);
  }

  lemma PoolsFrame(s: Snap, s': Snap)
    requires PoolsOk(s)
    requires s'.views == s.views && s'.mem == s.mem && s'.relaxed == s.relaxed && s'.retired == s.retired
    requires s'.pool == s.pool && s'.loose == s.loose
    requires forall q :: q in s.views && q in s.maps ==> q in s'.maps && s'.maps[q] == s.maps[q]
    ensures PoolsOk(s')
  {
    hide PoolOk;
    forall q | q in s'.views ensures q in s'.maps && PoolOk(s'.mem, q, s'.maps[q], s'.views[q], Exempt(s', q)) {
      assert Exempt(s', q) == Exempt(s, q);
    }
  }

  lemma ViewsKeys(s: Snap)
    requires PoolsOk(s)
    ensures s.views.Keys == One(s.pool) + One(s.loose) + SetOf(s.retired)
  {
  }

  lemma SpareGiven(s: Snap, maps': map<int, int>, parked': set<int>)
    requires Inv(s) && s.pool1 != 0 && Given(s.maps, s.parked, s.pool1, maps', parked')
    ensures Inv(s.(pool1 := 0, maps := maps', parked := parked'))
  {
    hide PoolOk, PoolsOk, LargesOk, InsidesOk, Retired, Mappings, Given;
    NotParked(s, s.pool1);
    GivenMaps(s, s.pool1, maps', parked');
    ViewsKeys(s);
    PoolsFrame(s, s.(pool1 := 0, maps := maps', parked := parked'));
    LargesFrame(s.mem, s.maps, maps', s.large);
  }

  /** A large block goes. */
  lemma LargeGiven(s: Snap, b: int, maps': map<int, int>, parked': set<int>)
    requires Inv(s) && b in s.large && NoAlias(s.aligned, b + LARGE_HDR) && NoData(s.data, b + LARGE_HDR)
             && Given(s.maps, s.parked, b, maps', parked')
    ensures Inv(s.(large := s.large - {b}, maps := maps', parked := parked'))
  {
    hide PoolOk, PoolsOk, LargesOk, InsidesOk, Retired, Mappings, Given, Owned, SetOf;
    LargeGivenOwners(s, b, maps', parked');
    NotParked(s, b);
    OwnersMaps(s);
    GivenMaps(s, b, maps', parked');
    ViewsKeys(s);
    PoolsFrame(s, s.(large := s.large - {b}, maps := maps', parked := parked'));
    LargesLess(s, b, maps');
    InsidesWithout(s, b);
  }

  lemma LargesLess(s: Snap, b: int, maps': map<int, int>)
    requires LargesOk(s.mem, s.maps, s.large) && forall q :: q in s.maps && q != b ==>
      q in maps' && maps'[q] == s.maps[q]
    ensures LargesOk(s.mem, maps', s.large - {b})
  {
    hide LargeAt;
  }

  lemma InsidesWithout(s: Snap, b: int)
    requires InsidesOk(s.mem, s.views, s.large, s.aligned, s.data) && NoAlias(s.aligned, b + LARGE_HDR)
             && NoData(s.data, b + LARGE_HDR)
    ensures InsidesOk(s.mem, s.views, s.large - {b}, s.aligned, s.data)
  {
    forall u | u in s.aligned ensures AlignedAt(s.mem, s.views, s.large - {b}, u, s.aligned[u]) {
      assert AlignedAt(s.mem, s.views, s.large, u, s.aligned[u]);
    }
    forall a | a in s.data ensures DatumAt(s.mem, s.views, s.large - {b}, a, s.data[a]) {
      assert DatumAt(s.mem, s.views, s.large, a, s.data[a]);
    }
  }
}
