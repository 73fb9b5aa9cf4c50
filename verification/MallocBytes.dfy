/** The bytes of the blocks that users hold: where they lie, that users may write them, and how
    it is shown that the allocator does not. */
module MallocBytes {
  import opened MallocBlocks
  import opened MallocList
  import opened MallocState
  import opened MallocSteps
  import opened MallocLinks
  import opened MallocRoom
  import opened MallocHold

  // ---------- where blocks lie ----------

  /** Blocks of different owners lie in different mappings. */
  lemma RawApart(s: Snap, v: int, p: int, w: int, q: int)
    requires Inv(s) && RawSize(s.views, s.large, v, p) >= 0 && RawSize(s.views, s.large, w, q) >= 0 && p != q
    ensures v + RawSize(s.views, s.large, v, p) <= w - MHDR || w + RawSize(s.views, s.large, w, q) <= v - MHDR
  {
    hide Inv, RawSize;
    RawInside(s, v, p);
    RawInside(s, w, q);
    InvMaps(s);
    Disjoint(s.maps, p, q);
  }

  lemma RawInside(s: Snap, v: int, p: int)
    requires Inv(s) && RawSize(s.views, s.large, v, p) >= 0
    ensures p in s.maps && p + LARGE_HDR <= v && v + RawSize(s.views, s.large, v, p) <= p + s.maps[p]
  {
    hide PoolsOk, LargesOk, RawSize, Owners, InsidesOk;
    RawRange(s, v, p);
  }

  /** The headers and bytes of two raw blocks do not overlap. */
  lemma RawDisjoint(s: Snap, v: int, p: int, w: int, q: int)
    requires Inv(s) && RawSize(s.views, s.large, v, p) >= 0 && RawSize(s.views, s.large, w, q) >= 0 && v != w
    ensures v + RawSize(s.views, s.large, v, p) <= w - MHDR || w + RawSize(s.views, s.large, w, q) <= v - MHDR
  {
    hide Inv;
    if p != q {
      RawApart(s, v, p, w, q);
      return;
    }
    NotBoth(s, p);
    if p in s.views { LiveDisjoint(s, p, v - MHDR, w - MHDR); }
  }

  lemma LiveDisjoint(s: Snap, p: int, a: int, b: int)
    requires Inv(s) && p in s.views && a in s.views[p].live && b in s.views[p].live && a != b
    ensures a + MHDR + s.views[p].live[a] <= b || b + MHDR + s.views[p].live[b] <= a
  {
    InvPool(s, p);
    BlockSizeBounds(s.views[p].live[a]);
    BlockSizeBounds(s.views[p].live[b]);
    assert Clear(LiveBlock(s.views[p].live, a), LiveBlock(s.views[p].live, b));
  }

  /** Every block a user holds lies within the bytes of one raw block. */
  lemma RawBehind(s: Snap, u: int, n: int) returns (raw: int, owner: int)
    requires Inv(s) && Has(s, u, n)
    ensures RawSize(s.views, s.large, raw, owner) >= 0 && raw <= u
            && u + n <= raw + RawSize(s.views, s.large, raw, owner)
    ensures if u in s.aligned then raw == s.aligned[u].raw && s.aligned[u].size == n
      else raw == u && NoAlias(s.aligned, u)
  {
    hide Inv;
    if u in s.aligned {
      if s.aligned[u].size != n {
        var p :| HasRaw(s.views, s.large, u, p, n);
        AlignedNoRaw(s, u);
      }
      AlignedRange(s, u);
      AlignedHeader(s, u);
      return s.aligned[u].raw, s.aligned[u].owner;
    }
    owner :| HasRaw(s.views, s.large, u, owner, n);
    raw := u;
  }

  lemma DistinctRaws(s: Snap, u: int, w: int)
    requires Inv(s) && u in s.aligned && w in s.aligned && u != w
    ensures s.aligned[u].raw != s.aligned[w].raw
  {
  }

  /** No two blocks that users hold overlap. */
  lemma BlocksAreDisjoint(s: Snap, u: int, n: int, w: int, k: int)
    requires Inv(s) && Has(s, u, n) && Has(s, w, k) && u != w
    ensures u + n <= w || w + k <= u
  {
    hide Inv;
    var raw, p := RawBehind(s, u, n);
    var raw', q := RawBehind(s, w, k);
    if u in s.aligned && w in s.aligned { DistinctRaws(s, u, w); }
    RawDisjoint(s, raw, p, raw', q);
  }

  // ---------- what users write ----------

  /** Whatever a user writes into the bytes of a block, aligned or not, the invariant stays and
      every other block keeps its bytes. */
  lemma UserWrote(s: Snap, u: int, n: int, m': Mem)
    requires Inv(s) && s.data == map[] && Has(s, u, n) && SameOutside(s.mem, m', u, u + n)
    ensures Inv(s.(mem := m'))
    ensures forall w, k :: w != u && Has(s, w, k) ==> SameWithin(s.mem, m', w, w + k)
  {
    hide Inv, RawSize, NoAlias;
    var raw, owner := RawBehind(s, u, n);
    forall w, k | w != u && Has(s, w, k) ensures SameWithin(s.mem, m', w, w + k) { BlocksAreDisjoint(s, u, n, w, k); }
    assert SameOutside(s.mem, m', raw, raw + RawSize(s.views, s.large, raw, owner));
    if u in s.aligned { UserWroteAligned(s, u, m'); } else { PayloadWritten(s, raw, owner, m'); }
  }

  /** The header and the parked pointer in front of an aligned block are outside its bytes. */
  lemma UserWroteAligned(s: Snap, u: int, m': Mem)
    requires Inv(s) && s.data == map[] && u in s.aligned && SameOutside(s.mem, m', u, u + s.aligned[u].size)
    ensures Inv(s.(mem := m'))
  {
    hide Inv;
    var a := s.aligned[u];
    AlignedHeader(s, u);
    AlignedRange(s, u);
    AliasIsLive(s, u);
    AlignedDropped(s, u);
    assert Same(s.mem, m', u - MHDR) && Same(s.mem, m', u - MHDR - WORD);
    var dropped := s.(aligned := s.aligned - {u});
    AlignedSet(dropped, u, a, m');
    assert dropped.aligned[u := a] == s.aligned;
  }

  // ---------- what the allocator does not write ----------

  /** Whatever the byte at a held is still there. */
  predicate Unmoved(m: Mem, m': Mem, a: int) { a in m ==> a in m' && m'[a] == m[a] }

  /** a is a byte of a handed-out raw block, and below end if the block is the one at cut. */
  ghost predicate PinnedBy(s: Snap, cut: int, end: int, a: int, raw: int, owner: int) {
    raw <= a < raw + RawSize(s.views, s.large, raw, owner) && (raw != cut || a < end)
  }

  ghost predicate Pinned(s: Snap, cut: int, end: int, a: int) {
    exists raw, owner :: PinnedBy(s, cut, end, a, raw, owner)
  }

  ghost function PinOf(s: Snap, cut: int, end: int, a: int): (d: Datum)
    requires a in s.mem && Pinned(s, cut, end, a)
    ensures PinnedBy(s, cut, end, a, d.raw, d.owner) && d.cell == s.mem[a]
  {
    var raw, owner :| PinnedBy(s, cut, end, a, raw, owner);
    Datum(raw, owner, s.mem[a])
  }

  /** All bytes of handed-out blocks, those of the block at cut only up to end. */
  ghost function Watch(s: Snap, cut: int, end: int): map<int, Datum> {
    map a | a in s.mem && Pinned(s, cut, end, a) :: PinOf(s, cut, end, a)
  }

  lemma Watched(s: Snap, cut: int, end: int)
    requires Inv(s)
    ensures Inv(s.(data := Watch(s, cut, end))) && DataBelow(Watch(s, cut, end), cut, end)
    ensures end <= cut ==> NoData(Watch(s, cut, end), cut)
  {
    hide PoolOk, LargesOk, AlignedAt, Owned;
    var s', data := s.(data := Watch(s, cut, end)), Watch(s, cut, end);
    forall a | a in data ensures DatumAt(s.mem, s.views, s.large, a, data[a])
    && (data[a].raw == cut ==> a < end && end > cut) {
      assert PinnedBy(s, cut, end, a, data[a].raw, data[a].owner);
    }
    SamePools(s, s');
  }

  lemma SamePools(s: Snap, s': Snap)
    requires PoolsOk(s) && s'.(data := s.data) == s
    ensures PoolsOk(s')
  {
    hide PoolOk;
    forall p | p in s'.views ensures p in s'.maps && PoolOk(s'.mem, p, s'.maps[p], s'.views[p], Exempt(s', p)) {
      assert Exempt(s', p) == Exempt(s, p);
    }
  }

  /** The handed-out raw blocks keep their bytes, the one at cut those up to end. */
  ghost predicate RawsUnmoved(s: Snap, m': Mem, cut: int, end: int) {
    forall a, raw, owner :: PinnedBy(s, cut, end, a, raw, owner) ==> Unmoved(s.mem, m', a)
  }

  lemma Unwatched(s: Snap, s': Snap, cut: int, end: int)
    requires Inv(s') && s'.data == Watch(s, cut, end)
    ensures Inv(s'.(data := map[])) && RawsUnmoved(s, s'.mem, cut, end)
  {
    hide PoolOk, LargesOk, AlignedAt, Owned;
    SamePools(s', s'.(data := map[]));
    forall a, raw, owner | PinnedBy(s, cut, end, a, raw, owner) ensures Unmoved(s.mem, s'.mem, a) {
      if a in s.mem {
        assert Pinned(s, cut, end, a);
        assert a in s'.data;
        assert DatumAt(s'.mem, s'.views, s'.large, a, s'.data[a]);
      }
    }
  }

  // ---------- as users see it ----------

  ghost predicate BytesUnmoved(m: Mem, m': Mem, u: int, n: int) { forall a :: u <= a < u + n ==> Unmoved(m, m', a) }

  /** Every block but the one at v keeps its bytes. */
  ghost predicate BytesKept(s: Snap, s': Snap, v: int) {
    forall u, n :: Has(s, u, n) && u != v ==> BytesUnmoved(s.mem, s'.mem, u, n)
  }

  /** The first k bytes of the block at v are those of the one at r. */
  ghost predicate BytesMoved(m: Mem, m': Mem, v: int, r: int, k: int) {
    forall i :: 0 <= i < k ==> CameAlong(m, m', v, r, i)
  }

  predicate CameAlong(m: Mem, m': Mem, v: int, r: int, i: int) { v + i in m ==> r + i in m' && m'[r + i] == m[v + i] }

  /** One more byte is copied. */
  lemma MovedMore(m: Mem, m1: Mem, m2: Mem, v: int, r: int, k: nat)
    requires SameOutside(m, m1, r, r + k) && BytesMoved(m, m1, v, r, k) && Same(m, m1, v + k)
    requires m2 == if v + k in m1 then m1[r + k := m1[v + k]] else m1 - {r + k}
    ensures SameOutside(m, m2, r, r + k + 1) && BytesMoved(m, m2, v, r, k + 1)
  {
    forall a | a < r || r + k + 1 <= a ensures Same(m, m2, a) { assert Same(m, m1, a); }
    forall i | 0 <= i < k + 1 ensures CameAlong(m, m2, v, r, i) {
      if i < k { assert CameAlong(m, m1, v, r, i); }
    }
  }

  /** The block at v has become the one at r, with its first k bytes, and all others keep
      theirs. */
  ghost predicate Carried(s: Snap, s': Snap, v: int, r: int, k: int) {
    BytesKept(s, s', v) && BytesMoved(s.mem, s'.mem, v, r, k)
  }

  /** The raw pointer a user's pointer stands for. */
  function RawOf(s: Snap, v: int): int { if v in s.aligned then s.aligned[v].raw else v }

  lemma KeptBytes(s: Snap, m': Mem, v: int, end: int)
    requires Inv(s) && (v == 0 || Held(s, v)) && RawsUnmoved(s, m', RawOf(s, v), end)
    ensures BytesKept(s, s.(mem := m'), v)
  {
    hide Inv, RawSize;
    forall u, n | Has(s, u, n) && u != v ensures BytesUnmoved(s.mem, m', u, n) {
      var raw, owner := RawBehind(s, u, n);
      RawHeader(s, raw, owner);
      DifferentRaws(s, u, v, raw);
      forall a | u <= a < u + n ensures Unmoved(s.mem, m', a) { assert PinnedBy(s, RawOf(s, v), end, a, raw, owner); }
    }
  }

  lemma DifferentRaws(s: Snap, u: int, v: int, raw: int)
    requires Inv(s) && u != v && raw > 0 && (v == 0 || Held(s, v))
    requires if u in s.aligned then raw == s.aligned[u].raw else raw == u && NoAlias(s.aligned, u)
    ensures raw != RawOf(s, v)
  {
    hide Inv;
    if v == 0 {
      if v in s.aligned { AlignedRange(s, v); }
      return;
    }
    if u in s.aligned && v in s.aligned { DistinctRaws(s, u, v); }
  }

  /** Only the memory counts. */
  lemma SameBytes(s: Snap, s': Snap, v: int)
    requires BytesKept(s, s.(mem := s'.mem), v)
    ensures BytesKept(s, s', v)
  {
  }

  lemma SameRaws(s: Snap, s': Snap, m': Mem, cut: int, end: int)
    requires RawsUnmoved(s, m', cut, end) && s'.views == s.views && s'.large == s.large && s'.mem == s.mem
    ensures RawsUnmoved(s', m', cut, end)
  {
    forall a, raw, owner | PinnedBy(s', cut, end, a, raw, owner) ensures Unmoved(s'.mem, m', a) {
      assert PinnedBy(s, cut, end, a, raw, owner);
    }
  }

  lemma KeptNothing(s: Snap, v: int, k: int)
    ensures BytesKept(s, s, v) && Carried(s, s, v, v, k)
  {
  }

  lemma NotHidden(s: Snap, v: int, owner: int)
    requires Inv(s) && RawSize(s.views, s.large, v, owner) >= 0
    ensures RawOf(s, v) == v
  {
    hide Inv;
    if v in s.aligned { AlignedNoRaw(s, v); }
  }

  lemma KeptAll(s: Snap, s': Snap, v: int, n: int, k: int)
    requires Inv(s) && BytesKept(s, s', 0) && Has(s, v, n) && k <= n
    ensures Carried(s, s', v, v, k)
  {
    hide Inv;
    HeldPositive(s, v, n);
    forall i | 0 <= i < k ensures CameAlong(s.mem, s'.mem, v, v, i) { assert Unmoved(s.mem, s'.mem, v + i); }
    forall u, w | Has(s, u, w) && u != v ensures BytesUnmoved(s.mem, s'.mem, u, w) { HeldPositive(s, u, w); }
  }

  lemma HeldPositive(s: Snap, u: int, n: int)
    requires Inv(s) && Has(s, u, n)
    ensures u > 0 && n >= 0
  {
    hide Inv;
    var raw, owner := RawBehind(s, u, n);
    RawHeader(s, raw, owner);
    if u in s.aligned { AlignedHeader(s, u); }
  }

  /** A block that stays where it is keeps its first k bytes. */
  lemma KeptInPlace(s: Snap, s': Snap, v: int, n: int, k: int, end: int)
    requires Inv(s) && Has(s, v, n) && k <= n && v + k <= end && RawsUnmoved(s, s'.mem, RawOf(s, v), end)
    ensures Carried(s, s', v, v, k)
  {
    hide Inv, RawSize;
    HeldIsHad(s, v, n);
    KeptBytes(s, s'.mem, v, end);
    SameBytes(s, s', v);
    var raw, owner := RawBehind(s, v, n);
    forall i | 0 <= i < k ensures CameAlong(s.mem, s'.mem, v, v, i) {
      assert PinnedBy(s, RawOf(s, v), end, v + i, raw, owner);
    }
  }

  /** malloc, memcpy, free. */
  lemma CarriedOver(s: Snap, s1: Snap, s2: Snap, s3: Snap, v: int, n: int, r: int, sz: int, k: int)
    requires Inv(s) && Inv(s1) && Has(s, v, n) && Has(s1, r, sz) && k <= n && k <= sz && r != v
    requires SameHeld(s, s1, r, r) && (forall w :: !Has(s, r, w)) && BytesKept(s, s1, 0)
    requires s2 == s1.(mem := s2.mem) && SameOutside(s1.mem, s2.mem, r, r + sz) && BytesMoved(s1.mem, s2.mem, v, r, k)
    requires BytesKept(s2, s3, v)
    ensures Carried(s, s3, v, r, k)
  {
    hide Inv;
    assert Has(s2, r, sz) && BytesUnmoved(s2.mem, s3.mem, r, sz);
    HeldPositive(s, v, n);
    assert BytesUnmoved(s.mem, s1.mem, v, n);
    forall i | 0 <= i < k ensures CameAlong(s.mem, s3.mem, v, r, i) {
      assert Unmoved(s.mem, s1.mem, v + i) && CameAlong(s1.mem, s2.mem, v, r, i) && Unmoved(s2.mem, s3.mem, r + i);
    }
    forall u, w | Has(s, u, w) && u != v ensures BytesUnmoved(s.mem, s3.mem, u, w) {
      assert Has(s1, u, w) && Has(s2, u, w);
      HeldPositive(s, u, w);
      BlocksAreDisjoint(s1, u, w, r, sz);
      UnmovedOver(s.mem, s1.mem, s2.mem, s3.mem, u, w, r, sz);
    }
  }

  lemma UnmovedOver(m: Mem, m1: Mem, m2: Mem, m3: Mem, u: int, n: int, r: int, sz: int)
    requires BytesUnmoved(m, m1, u, n) && SameOutside(m1, m2, r, r + sz) && BytesUnmoved(m2, m3, u, n)
    requires u + n <= r || r + sz <= u
    ensures BytesUnmoved(m, m3, u, n)
  {
    forall a | u <= a < u + n ensures Unmoved(m, m3, a) {
      assert Unmoved(m, m1, a) && Same(m1, m2, a) && Unmoved(m2, m3, a);
    }
  }

  /** What is held does not depend on the memory or on what is under watch. */
  lemma HasOnly(s: Snap, s': Snap)
    requires s'.views == s.views && s'.large == s.large && s'.aligned == s.aligned
    ensures AllHeld(s, s')
  {
  }

  lemma ResizedOnly(s: Snap, s0: Snap, s': Snap, s0': Snap, v: int, r: int, n: int)
    requires Resized(s, s', v, r, n) && AllHeld(s, s0) && AllHeld(s', s0')
    ensures Resized(s0, s0', v, r, n)
  {
  }
}
