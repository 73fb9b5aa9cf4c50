/** Taking a pool off the retired list, and writes inside the blocks that are handed out. */
module MallocLinks {
  import opened MallocBlocks
  import opened MallocCache
  import opened MallocList
  import opened MallocSearch
  import opened MallocState
  import opened MallocSteps
  import opened MallocMoves
  import opened MallocMaps
  import opened MallocPool
  import opened MallocGive

  // ---------- writes inside a live block ----------

  /** The owner of a live block may write anything into its bytes. */
  lemma WriteInside(m: Mem, m': Mem, ms: int, len: int, v: View, current: bool, at: int)
    requires PoolOk(m, ms, len, v, current) && at in v.live && SameOutside(m, m', at + MHDR, at + MHDR + v.live[at])
    ensures PoolOk(m', ms, len, v, current) && HasPool(m, ms) && HasPool(m', ms) && m'[ms] == m[ms]
    ensures PayloadsKept(m, m', v, v, at) && SameOutside(m, m', ms, ms + len)
  {
    hide Layout, Linked, Chained, RetiredOk, Ordered, SameWithin, SameOutside;
    WriteApart(m, m', ms, len, ms + m[ms].size, v, at);
    ListsKept(m, m', ms, v.free, current);
    assert Same(m, m', ms);
    forall a | a in v.live ensures a in m' && m'[a] == Header(a - ms, v.live[a]) { assert Same(m, m', a); }
  }

  /** The bytes of a live block are apart from all records and from the other blocks. */
  lemma WriteApart(m: Mem, m': Mem, ms: int, len: int, end: int, v: View, at: int)
    requires Layout(ms, end, v) && end <= ms + len && Ordered(v.free) && at in v.live
    requires SameOutside(m, m', at + MHDR, at + MHDR + v.live[at])
    ensures Same(m, m', ms) && SameOutside(m, m', ms, ms + len)
    ensures forall a :: Starts(v.free, a) ==> Same(m, m', a)
    ensures forall a :: a in v.live ==> Same(m, m', a)
    ensures forall a :: a in v.live && a != at ==> SameWithin(m, m', a + MHDR, a + MHDR + v.live[a])
  {
    hide Ordered, Same;
    var b := LiveBlock(v.live, at);
    BlockSizeBounds(v.live[at]);
    assert Apart(v.free, b);
    forall a | Starts(v.free, a) ensures Same(m, m', a) { StartsOutside(v.free, b, a); }
    forall a | a in v.live ensures Same(m, m', a) && (a != at ==> SameWithin(m, m', a + MHDR, a + MHDR + v.live[a])) {
      BlockSizeBounds(v.live[a]);
      if a != at { assert Clear(LiveBlock(v.live, a), b); }
    }
  }

  /** Whoever holds a raw pointer may write anything into the bytes behind it. */
  lemma PayloadWritten(s: Snap, raw: int, owner: int, m': Mem)
    requires Inv(s) && RawSize(s.views, s.large, raw, owner) >= 0 && NoAlias(s.aligned, raw)
    requires SameOutside(s.mem, m', raw, raw + RawSize(s.views, s.large, raw, owner))
    requires DataStays(s.data, raw, s.mem, m', raw + RawSize(s.views, s.large, raw, owner))
    ensures Inv(s.(mem := m'))
  {
    hide PoolOk, Retired, LargeAt, AlignedAt, DatumAt, DataStays;
    if owner in s.views && raw - MHDR in s.views[owner].live {
      var at := raw - MHDR;
      PoolHeader(s, owner);
      OwnersMaps(s);
      WriteInside(s.mem, m', owner, s.maps[owner], s.views[owner], Exempt(s, owner), at);
      SameMap(s.maps, owner);
      SameMap(s.views, owner);
      UpdatePool(s, owner, m', s.maps[owner], s.views[owner], at);
    } else {
      OwnersMaps(s);
      LargeWritten(s, owner, m');
      SameMap(s.maps, owner);
      SameMap(s.large, owner);
      LargeResized(s, owner, s.maps[owner], m', s.large[owner]);
    }
  }

  lemma SameMap<T>(m: map<int, T>, k: int)
    requires k in m
    ensures m[k := m[k]] == m
  {
  }

  lemma LargeWritten(s: Snap, b: int, m': Mem)
    requires Mappings(s.maps) && LargesOk(s.mem, s.maps, s.large) && b in s.large
    requires SameOutside(s.mem, m', b + LARGE_HDR, b + LARGE_HDR + s.large[b])
    ensures b in s.maps && LargeAt(m', b, s.maps[b], s.large[b]) && SameOutside(s.mem, m', b, b + s.maps[b])
  {
    assert LargeAt(s.mem, b, s.maps[b], s.large[b]);
    assert Same(s.mem, m', b) && Same(s.mem, m', b + MHDR);
  }

  // ---------- aligned blocks ----------

  lemma AlignedDropped(s: Snap, u: int)
    requires Inv(s) && u in s.aligned
    ensures Inv(s.(aligned := s.aligned - {u})) && NoAlias(s.aligned - {u}, s.aligned[u].raw)
  {
    hide PoolOk, Retired, LargesOk, AlignedAt, DatumAt, Mappings;
    PoolsFrame(s, s.(aligned := s.aligned - {u}));
  }

  lemma NothingStays(s: Snap, raw: int, m': Mem, end: int)
    requires NoData(s.data, raw)
    ensures DataStays(s.data, raw, s.mem, m', end)
  {
  }

  lemma OwnersFrame(s: Snap, s': Snap)
    requires Owners(s) && s'.maps == s.maps && s'.pool == s.pool && s'.pool1 == s.pool1 && s'.loose == s.loose
    requires s'.retired == s.retired && s'.large == s.large && s'.parked == s.parked
    ensures Owners(s')
  {
    hide Owned;
  }

  /** An aligned block's header and parked pointer, written inside the raw block. */
  lemma AlignedSet(s: Snap, u: int, a: Aligned, m': Mem)
    requires Inv(s) && NoAlias(s.aligned, a.raw) && NoData(s.data, a.raw) && AlignedAt(m', s.views, s.large, u, a)
    requires RawSize(s.views, s.large, a.raw, a.owner) >= 0
    requires SameOutside(s.mem, m', a.raw, a.raw + RawSize(s.views, s.large, a.raw, a.owner))
    ensures Inv(s.(mem := m', aligned := s.aligned[u := a]))
  {
    hide PoolOk, PoolsOk, Retired, LargesOk, AlignedAt, DatumAt, Mappings, Owners, SameOutside, RawSize;
    NothingStays(s, a.raw, m', a.raw + RawSize(s.views, s.large, a.raw, a.owner));
    PayloadWritten(s, a.raw, a.owner, m');
    PoolsFrame(s.(mem := m'), s.(mem := m', aligned := s.aligned[u := a]));
    OwnersFrame(s, s.(mem := m', aligned := s.aligned[u := a]));
  }

  // ---------- the retired list ----------

  lemma Relax(s: Snap, p: int)
    requires Inv(s) && s.relaxed == 0
    ensures Inv(s.(relaxed := p))
  {
    hide Retired, LargesOk, InsidesOk, Mappings, PoolOk;
    var s' := s.(relaxed := p);
    forall q | q in s'.views ensures PoolOk(s'.mem, q, s'.maps[q], s'.views[q], Exempt(s', q)) {
      Weaker(s.mem, q, s.maps[q], s.views[q], Exempt(s, q));
      PoolHeader(s, q);
      assert Exempt(s', q) == Exempt(s, q) || Exempt(s', q);
    }
  }

  lemma Weaker(m: Mem, ms: int, len: int, v: View, current: bool)
    requires PoolOk(m, ms, len, v, current)
    ensures PoolOk(m, ms, len, v, true)
  {
  }

  lemma NextWritten(m: Mem, m': Mem, ms: int, len: int, v: View, current: bool, next: int)
    requires PoolOk(m, ms, len, v, current) && m' == m[ms := m[ms].(nextPool := next)]
    ensures PoolOk(m', ms, len, v, current) && PayloadsKept(m, m', v, v, 0)
  {
    hide Linked, Chained, RetiredOk, Layout, Ordered, SameWithin;
    NoStartBelow(v.free, ms);
    ListsKept(m, m', ms, v.free, current);
    RecordWrite(m, m', ms, ms + m[ms].size, v, v);
  }

  function Without(ps: seq<int>, i: nat): seq<int>
    requires i < |ps|
  {
    ps[..i] + ps[i + 1..]
  }

  /** The write that takes the i-th retired pool off the list. */
  function UnlinkMem(s: Snap, i: nat): Mem
    requires i < |s.retired| && HasPool(s.mem, s.retired[i]) && (i > 0 ==> HasPool(s.mem, s.retired[i - 1]))
  {
    if i == 0 then s.mem
    else s.mem[s.retired[i - 1] := s.mem[s.retired[i - 1]].(nextPool := s.mem[s.retired[i]].nextPool)]
  }

  function Skip(i: nat, j: nat): nat { if j < i then j else j + 1 }

  lemma WithoutAt(ps: seq<int>, i: nat, j: nat)
    requires i < |ps| && j < |ps| - 1
    ensures Without(ps, i)[j] == ps[Skip(i, j)]
    ensures j + 1 != i ==> PoolAt(Without(ps, i), j + 1) == PoolAt(ps, Skip(i, j) + 1)
    ensures j + 1 == i ==> PoolAt(Without(ps, i), j + 1) == PoolAt(ps, i + 1)
  {
  }

  lemma RetiredWithout(s: Snap, i: nat)
    requires Retired(s.mem, s.first, s.retired) && i < |s.retired|
    ensures HasPool(s.mem, s.retired[i]) && (i > 0 ==> HasPool(s.mem, s.retired[i - 1]))
    ensures Retired(UnlinkMem(s, i), if i == 0 then s.mem[s.retired[i]].nextPool else s.first, Without(s.retired, i))
  {
    var ps, out, m' := s.retired, Without(s.retired, i), UnlinkMem(s, i);
    forall j | 0 <= j < |out| ensures out[j] > 0 && HasPool(m', out[j]) && m'[out[j]].nextPool == PoolAt(out, j + 1) {
      WithoutAt(ps, i, j);
    }
    forall j, k | 0 <= j < k < |out| ensures out[j] != out[k] {
      WithoutAt(ps, i, j);
      WithoutAt(ps, i, k);
    }
  }

  lemma SetOfConcat(ps: seq<int>, qs: seq<int>)
    ensures SetOf(ps + qs) == SetOf(ps) + SetOf(qs)
  {
  }

  lemma SetOfWithout(s: Snap, i: nat)
    requires Retired(s.mem, s.first, s.retired) && i < |s.retired|
    ensures SetOf(Without(s.retired, i)) == SetOf(s.retired) - {s.retired[i]}
    ensures s.retired[i] in SetOf(s.retired) && s.retired[i] > 0
  {
    var ps, p := s.retired, s.retired[i];
    forall k | 0 <= k < |ps| && k != i ensures ps[k] != p {}
    SetOfConcat(ps[..i], ps[i + 1..]);
    SetOfConcat(ps[..i], [p]);
    SetOfConcat(ps[..i] + [p], ps[i + 1..]);
    assert ps == ps[..i] + [p] + ps[i + 1..];
    assert p !in ps[..i] && p !in ps[i + 1..];
  }

  lemma UnlinkOwners(s: Snap, i: nat)
    requires Owners(s) && Retired(s.mem, s.first, s.retired) && i < |s.retired| && s.loose == 0
    ensures Owners(s.(loose := s.retired[i], retired := Without(s.retired, i)))
    ensures One(s.pool) + One(s.retired[i]) + SetOf(Without(s.retired,
                                                            i)) == One(s.pool) + One(s.loose) + SetOf(s.retired)
    ensures forall p :: p in Without(s.retired, i) ==> p != s.retired[i]
  {
    hide Mappings, Retired;
    SetOfWithout(s, i);
    forall p | p in Without(s.retired, i) ensures p != s.retired[i] { assert p in SetOf(Without(s.retired, i)); }
  }

  /** The write does not harm the pool before. */
  lemma UnlinkPools(s: Snap, i: nat)
    requires Inv(s) && i < |s.retired| && HasPool(s.mem, s.retired[i]) && (i > 0 ==> HasPool(s.mem, s.retired[i - 1]))
    ensures var m' := UnlinkMem(s, i);
            && PoolsOk(s.(mem := m')) && SpareOk(m', s.maps, s.pool1) && LargesOk(m', s.maps, s.large)
            && InsidesOk(m', s.views, s.large, s.aligned, s.data)
  {
    hide PoolOk, Retired, AlignedAt, DatumAt, LargeAt;
    if i == 0 { return; }
    var m', q := UnlinkMem(s, i), s.retired[i - 1];
    assert q in SetOf(s.retired);
    PoolHeader(s, q);
    OwnersMaps(s);
    NotSpare(s, q);
    ViewsNotLarge(s, q);
    SameMap(s.maps, q);
    SameMap(s.views, q);
    NextWritten(s.mem, m', q, s.maps[q], s.views[q], Exempt(s, q), s.mem[s.retired[i]].nextPool);
    Positive(s.maps, q);
    RoomFor(s.maps, q, s.maps[q]);
    NotLive(s, q);
    UpdatedPools(s, q, q + s.maps[q], m', s.maps[q], s.views[q]);
    UpdatedRest(s, q, q + s.maps[q], m', s.maps[q]);
    AlignedsKept(s, q, q + s.maps[q], m', s.views[q], 0);
    DataKept(s, q, q + s.maps[q], m', s.views[q], 0);
  }

  lemma NotLive(s: Snap, p: int)
    requires PoolsOk(s) && p in s.views
    ensures 0 !in s.views[p].live
  {
    forall at | at in s.views[p].live ensures at > 0 { LiveRange(s.mem, p, s.maps[p], s.views[p], Exempt(s, p), at); }
  }

  lemma Unlinked(s: Snap, i: nat, first: int)
    requires Inv(s) && i < |s.retired| && s.loose == 0 && (s.relaxed == 0 || s.relaxed == s.retired[i])
    requires HasPool(s.mem, s.retired[i]) && (i > 0 ==> HasPool(s.mem, s.retired[i - 1]))
    requires first == if i == 0 then s.mem[s.retired[i]].nextPool else s.first
    ensures Inv(s.(mem := UnlinkMem(s, i), first := first, relaxed := 0, loose := s.retired[i],
                   retired := Without(s.retired, i)))
  {
    hide PoolOk, Retired, InsidesOk, LargesOk, Owned, SetOf;
    var s1 := s.(mem := UnlinkMem(s, i));
    var s' := s1.(first := first, relaxed := 0, loose := s.retired[i], retired := Without(s.retired, i));
    RetiredWithout(s, i);
    UnlinkOwners(s, i);
    UnlinkPools(s, i);
    forall q | q in s'.views ensures PoolOk(s'.mem, q, s'.maps[q], s'.views[q], Exempt(s', q)) {
      NowLoose(s1, s', i, q);
    }
  }

  lemma NowLoose(s: Snap, s': Snap, i: nat, q: int)
    requires PoolsOk(s) && q in s.views && i < |s.retired| && (s.relaxed == 0 || s.relaxed == s.retired[i])
    requires s'.mem == s.mem && s'.maps == s.maps && s'.views == s.views && s'.relaxed == 0
             && s'.retired == Without(s.retired, i)
    requires forall p :: p in Without(s.retired, i) ==> p != s.retired[i]
    ensures PoolOk(s'.mem, q, s'.maps[q], s'.views[q], Exempt(s', q))
  {
    assert PoolOk(s.mem, q, s.maps[q], s.views[q], Exempt(s, q));
    assert q !in s.retired ==> q !in s'.retired;
    if q in s'.retired { assert q != s.retired[i] && q in s.retired; }
    PoolHeader(s, q);
  }
}
