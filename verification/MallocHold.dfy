/** What the allocator's users hold, and what one call does to it. */
module MallocHold {
  import opened MallocBlocks
  import opened MallocState
  import opened MallocSteps
  import opened MallocLinks
  import opened MallocSettle
  import opened MallocRoom

  /** v is a new block of n bytes in the pool at p; no other live block changed. */
  ghost predicate GaveSmall(views: map<int, View>, views': map<int, View>, p: int, v: int, n: int) {
    && v - MHDR !in LiveOf(views, p) && LiveOf(views', p) == LiveOf(views, p)[v - MHDR := n]
    && forall q :: q != p ==> LiveOf(views', q) == LiveOf(views, q)
  }

  /** v is a new block of n bytes; nothing else that was handed out changed. */
  ghost predicate Gave(views: map<int, View>, large: map<int, int>, views': map<int, View>, large': map<int, int>,
                       v: int, n: int) {
    || ((exists p :: GaveSmall(views, views', p, v, n)) && large' == large)
    || (LiveKept(views, views') && v - LARGE_HDR !in large && large' == large[v - LARGE_HDR := n])
  }

  lemma GaveAfter(a: map<int, View>, b: map<int, View>, c: map<int, View>, p: int, v: int, n: int)
    requires LiveKept(a, b) && GaveSmall(b, c, p, v, n)
    ensures GaveSmall(a, c, p, v, n)
  {
    assert LiveOf(b, p) == LiveOf(a, p);
    forall q | q != p ensures LiveOf(c, q) == LiveOf(a, q) { assert LiveOf(b, q) == LiveOf(a, q); }
  }

  lemma LiveKeptSelf(a: map<int, View>)
    ensures LiveKept(a, a)
  {
  }

  /** The block behind pointer v in the pool at p is gone; no other live block changed. */
  ghost predicate TookSmall(views: map<int, View>, views': map<int, View>, p: int, v: int) {
    && v - MHDR in LiveOf(views, p) && LiveOf(views', p) == LiveOf(views, p) - {v - MHDR}
    && forall q :: q != p ==> LiveOf(views', q) == LiveOf(views, q)
  }

  /** The block behind raw pointer v is gone; nothing else that was handed out changed. */
  ghost predicate Took(views: map<int, View>, large: map<int, int>, views': map<int, View>, large': map<int, int>,
                       v: int) {
    || ((exists p :: TookSmall(views, views', p, v)) && large' == large)
    || (LiveKept(views, views') && v - LARGE_HDR in large && large' == large - {v - LARGE_HDR})
  }

  lemma TookAfter(a: map<int, View>, b: map<int, View>, c: map<int, View>, p: int, v: int)
    requires TookSmall(a, b, p, v) && LiveKept(b, c)
    ensures TookSmall(a, c, p, v)
  {
    assert LiveOf(c, p) == LiveOf(b, p);
    forall q | q != p ensures LiveOf(c, q) == LiveOf(a, q) { assert LiveOf(c, q) == LiveOf(b, q); }
  }

  // ---------- as users see it ----------

  ghost predicate HasRaw(views: map<int, View>, large: map<int, int>, v: int, owner: int, n: int) {
    RawSize(views, large, v, owner) == n >= 0
  }

  /** A user holds a block of n bytes at v: an aligned one, or one that no aligned block hides. */
  ghost predicate Has(s: Snap, v: int, n: int) {
    || (v in s.aligned && s.aligned[v].size == n)
    || (NoAlias(s.aligned, v) && exists owner :: HasRaw(s.views, s.large, v, owner, n))
  }

  /** Nothing at pointers other than v and w changed hands. */
  ghost predicate SameHeld(s: Snap, s': Snap, v: int, w: int) {
    forall u, n :: u != v && u != w ==> (Has(s', u, n) <==> Has(s, u, n))
  }

  lemma RawSizeLive(views: map<int, View>, large: map<int, int>, v: int, p: int)
    ensures RawSize(views, large, v, p) ==
      if v - MHDR in LiveOf(views, p) then LiveOf(views, p)[v - MHDR]
      else if p in large && v == p + LARGE_HDR then large[p] else -1
  {
  }

  /** A raw pointer has one owner. */
  lemma OneOwner(s: Snap, v: int, p: int, q: int)
    requires Inv(s) && RawSize(s.views, s.large, v, p) >= 0 && RawSize(s.views, s.large, v, q) >= 0
    ensures p == q
  {
    hide Inv;
    RawHeader(s, v, p);
    RawHeader(s, v, q);
  }

  lemma AliasIsLive(s: Snap, u: int)
    requires Inv(s) && u in s.aligned
    ensures RawSize(s.views, s.large, s.aligned[u].raw, s.aligned[u].owner) >= 0
  {
    AlignedRange(s, u);
  }

  /** A block that was just handed out is no alias of anything. */
  lemma NewIsNoAlias(s: Snap, s': Snap, v: int, p: int)
    requires Inv(s) && Inv(s') && RawSize(s'.views, s'.large, v, p) >= 0 && RawSize(s.views, s.large, v, p) < 0
    requires forall w, q :: (w != v || q != p) ==> RawSize(s'.views, s'.large, w, q) == RawSize(s.views, s.large, w, q)
    ensures NoAlias(s.aligned, v) && forall q :: RawSize(s.views, s.large, v, q) < 0
  {
    hide Inv;
    forall q ensures RawSize(s.views, s.large, v, q) < 0 {
      if q != p && RawSize(s'.views, s'.large, v, q) >= 0 { OneOwner(s', v, p, q); }
    }
    forall u | u in s.aligned ensures s.aligned[u].raw != v { AliasIsLive(s, u); }
  }

  /** The sizes behind all raw pointers but v are as they were. */
  ghost predicate RawsKept(s: Snap, s': Snap, v: int, p: int) {
    forall w, q :: (w != v || q != p) ==> RawSize(s'.views, s'.large, w, q) == RawSize(s.views, s.large, w, q)
  }

  lemma NotBoth(s: Snap, p: int)
    requires Inv(s)
    ensures p in s.large ==> p !in s.views
  {
    if p in s.views { ViewsNotLarge(s, p); }
  }

  lemma GaveRaws(s: Snap, s': Snap, v: int, n: int) returns (p: int)
    requires Gave(s.views, s.large, s'.views, s'.large, v, n) && n >= 0 && Inv(s')
    ensures RawsKept(s, s', v, p) && RawSize(s'.views, s'.large, v, p) == n && RawSize(s.views, s.large, v, p) < 0
  {
    hide Inv;
    if (exists q :: GaveSmall(s.views, s'.views, q, v, n)) && s'.large == s.large {
      p :| GaveSmall(s.views, s'.views, p, v, n);
    } else {
      p := v - LARGE_HDR;
      assert LiveOf(s'.views, p) == LiveOf(s.views, p);
    }
    NotBoth(s', p);
    forall w, q | w != v || q != p ensures RawSize(s'.views, s'.large, w, q) == RawSize(s.views, s.large, w, q) {
      RawSizeLive(s'.views, s'.large, w, q);
      RawSizeLive(s.views, s.large, w, q);
      assert LiveKept(s.views, s'.views) ==> LiveOf(s'.views, q) == LiveOf(s.views, q);
    }
    RawSizeLive(s'.views, s'.large, v, p);
    RawSizeLive(s.views, s.large, v, p);
  }

  /** malloc adds one block to what is held. */
  lemma GaveHeld(s: Snap, s': Snap, v: int, n: int)
    requires Inv(s) && Inv(s') && n >= 0 && Gave(s.views, s.large, s'.views, s'.large, v, n) && s'.aligned == s.aligned
    ensures Has(s', v, n) && SameHeld(s, s', v, v) && NoAlias(s.aligned, v) && forall k :: !Has(s, v, k)
    ensures forall w, q :: RawSize(s.views, s.large, w, q) >= 0 ==>
      RawSize(s'.views, s'.large, w, q) == RawSize(s.views, s.large, w, q)
    ensures exists p :: HasRaw(s'.views, s'.large, v, p, n)
  {
    hide Inv, Gave;
    var p := GaveRaws(s, s', v, n);
    NewIsNoAlias(s, s', v, p);
    assert HasRaw(s'.views, s'.large, v, p, n);
    NewNotAligned(s, s', v, p);
    forall w, k | w != v ensures Has(s', w, k) <==> Has(s, w, k) {
      forall q ensures HasRaw(s'.views, s'.large, w, q, k) <==> HasRaw(s.views, s.large, w, q, k) {}
    }
  }

  lemma NewNotAligned(s: Snap, s': Snap, v: int, p: int)
    requires Inv(s') && s'.aligned == s.aligned && RawSize(s'.views, s'.large, v, p) >= 0
    ensures v !in s.aligned
  {
    hide Inv;
    RawHeader(s', v, p);
    if v in s.aligned { AlignedHeader(s', v); }
  }

  lemma TookRaws(s: Snap, s': Snap, v: int) returns (p: int)
    requires Took(s.views, s.large, s'.views, s'.large, v) && Inv(s)
    ensures RawsKept(s, s', v, p) && RawSize(s.views, s.large, v, p) >= 0 && RawSize(s'.views, s'.large, v, p) < 0
  {
    hide Inv;
    if (exists q :: TookSmall(s.views, s'.views, q, v)) && s'.large == s.large {
      p :| TookSmall(s.views, s'.views, p, v);
      assert p in s.views;
      SizesPositive(s, p, v);
    } else {
      p := v - LARGE_HDR;
      assert LiveOf(s'.views, p) == LiveOf(s.views, p);
      LargeOwner(s, p);
    }
    NotBoth(s, p);
    forall w, q | w != v || q != p ensures RawSize(s'.views, s'.large, w, q) == RawSize(s.views, s.large, w, q) {
      RawSizeLive(s'.views, s'.large, w, q);
      RawSizeLive(s.views, s.large, w, q);
      assert LiveKept(s.views, s'.views) ==> LiveOf(s'.views, q) == LiveOf(s.views, q);
    }
    RawSizeLive(s'.views, s'.large, v, p);
    RawSizeLive(s.views, s.large, v, p);
  }

  lemma SizesPositive(s: Snap, p: int, v: int)
    requires Inv(s) && p in s.views && v - MHDR in s.views[p].live
    ensures s.views[p].live[v - MHDR] >= 0
  {
    PoolBlockHeader(s, p, v - MHDR);
  }

  /** free takes one block from what is held. */
  lemma TookHeld(s: Snap, s': Snap, v: int)
    requires Inv(s) && v !in s.aligned && NoAlias(s.aligned, v) && Took(s.views, s.large, s'.views, s'.large, v)
             && s'.aligned == s.aligned
    ensures SameHeld(s, s', v, v) && forall n :: !Has(s', v, n)
    ensures forall w, q :: w != v ==> RawSize(s'.views, s'.large, w, q) == RawSize(s.views, s.large, w, q)
  {
    hide Inv, Took;
    var p := TookRaws(s, s', v);
    forall q ensures RawSize(s'.views, s'.large, v, q) < 0 {
      if q != p && RawSize(s.views, s.large, v, q) >= 0 { OneOwner(s, v, p, q); }
    }
    forall w, k | w != v ensures Has(s', w, k) <==> Has(s, w, k) {
      forall q ensures HasRaw(s'.views, s'.large, w, q, k) <==> HasRaw(s.views, s.large, w, q, k) {}
    }
  }

  /** Dropping an alias shows the raw block behind it; freeing that hides it again. */
  lemma TookAligned(s: Snap, s': Snap, u: int)
    requires Inv(s) && u in s.aligned && s'.aligned == s.aligned - {u}
    requires Took(s.views, s.large, s'.views, s'.large, s.aligned[u].raw)
    requires s.aligned[u].raw !in s.aligned
    ensures SameHeld(s, s', u, u) && forall n :: !Has(s', u, n)
  {
    hide Inv, Took;
    var raw := s.aligned[u].raw;
    var s1 := s.(aligned := s.aligned - {u});
    AlignedDropped(s, u);
    TookHeld(s1, s', raw);
    forall w, k | w != u && w != raw ensures Has(s1, w, k) <==> Has(s, w, k) { AliasApart(s, u, w); }
    assert !NoAlias(s.aligned, raw);
    AlignedNoRaw(s, u);
  }

  lemma AliasApart(s: Snap, u: int, w: int)
    requires u in s.aligned && w != s.aligned[u].raw
    ensures NoAlias(s.aligned - {u}, w) <==> NoAlias(s.aligned, w)
  {
    if NoAlias(s.aligned - {u}, w) {
      forall x | x in s.aligned ensures s.aligned[x].raw != w { if x != u { assert x in s.aligned - {u}; } }
    }
  }

  /** An aligned pointer is no raw one. */
  lemma AlignedNoRaw(s: Snap, u: int)
    requires Inv(s) && u in s.aligned
    ensures forall q :: RawSize(s.views, s.large, u, q) < 0
  {
    hide Inv;
    AlignedHeader(s, u);
    forall q ensures RawSize(s.views, s.large, u, q) < 0 {
      if RawSize(s.views, s.large, u, q) >= 0 { RawHeader(s, u, q); }
    }
  }

  /** Nothing changed hands. */
  ghost predicate AllHeld(s: Snap, s': Snap) { forall u, n :: Has(s', u, n) <==> Has(s, u, n) }

  lemma KeptHeld(s: Snap, s': Snap)
    requires LiveKept(s.views, s'.views) && s'.large == s.large && s'.aligned == s.aligned
    ensures AllHeld(s, s')
  {
    forall w, q ensures RawSize(s'.views, s'.large, w, q) == RawSize(s.views, s.large, w, q) {
      RawSizeLive(s'.views, s'.large, w, q);
      RawSizeLive(s.views, s.large, w, q);
      assert LiveOf(s'.views, q) == LiveOf(s.views, q);
    }
    forall w, k ensures Has(s', w, k) <==> Has(s, w, k) {
      forall q ensures HasRaw(s'.views, s'.large, w, q, k) <==> HasRaw(s.views, s.large, w, q, k) {}
    }
  }

  /** The block at v became one of n bytes at r, and nothing else changed hands. */
  ghost predicate Resized(s: Snap, s': Snap, v: int, r: int, n: int) {
    && Has(s', r, n) && SameHeld(s, s', v, r)
    && (r != v ==> (forall k :: !Has(s', v, k)) && (forall k :: !Has(s, r, k)))
  }

  lemma HeldIsHad(s: Snap, v: int, n: int)
    requires Has(s, v, n)
    ensures Held(s, v)
  {
    if v !in s.aligned {
      var p :| HasRaw(s.views, s.large, v, p, n);
    }
  }

  /** malloc for the new block, then free for the old one. */
  lemma Moved(s: Snap, s1: Snap, s2: Snap, v: int, r: int, n: int)
    requires Has(s1, r, n) && SameHeld(s, s1, r, r) && (forall k :: !Has(s, r, k)) && r != v
    requires SameHeld(s1, s2, v, v) && forall k :: !Has(s2, v, k)
    ensures Resized(s, s2, v, r, n)
  {
  }

  lemma ResizedInPlace(s: Snap, s': Snap, v: int, p: int, n: int)
    requires RawsKept(s, s', v, p) && RawSize(s'.views, s'.large, v, p) == n >= 0
    requires s'.aligned == s.aligned && NoAlias(s.aligned, v)
    ensures Resized(s, s', v, v, n)
  {
    assert HasRaw(s'.views, s'.large, v, p, n);
    forall w, k | w != v ensures Has(s', w, k) <==> Has(s, w, k) {
      forall q ensures HasRaw(s'.views, s'.large, w, q, k) <==> HasRaw(s.views, s.large, w, q, k) {}
    }
  }

  lemma ResizedSame(s: Snap, v: int, n: int)
    requires Has(s, v, n)
    ensures Resized(s, s, v, v, n)
  {
  }

  lemma CutHeld(s: Snap, s': Snap, p: int, v: int, n: int)
    requires Inv(s) && p in s.views && v - MHDR in s.views[p].live && NoAlias(s.aligned, v) && n >= 0
    requires s'.large == s.large && s'.aligned == s.aligned && p in s'.views
    requires LiveOf(s'.views, p) == s.views[p].live[v - MHDR := n] && forall q :: q != p ==>
      LiveOf(s'.views, q) == LiveOf(s.views, q)
    ensures Resized(s, s', v, v, n)
  {
    hide Inv;
    forall w, q | w != v || q != p ensures RawSize(s'.views, s'.large, w, q) == RawSize(s.views, s.large, w, q) {
      RawSizeLive(s'.views, s'.large, w, q);
      RawSizeLive(s.views, s.large, w, q);
    }
    ResizedInPlace(s, s', v, p, n);
  }

  lemma LargeHeld(s: Snap, s': Snap, b: int, n: int)
    requires Inv(s) && b in s.large && NoAlias(s.aligned, b + LARGE_HDR) && n >= 0
    requires s'.views == s.views && s'.large == s.large[b := n] && s'.aligned == s.aligned
    ensures Resized(s, s', b + LARGE_HDR, b + LARGE_HDR, n)
  {
    hide Inv;
    NotBoth(s, b);
    ResizedInPlace(s, s', b + LARGE_HDR, b, n);
  }

  lemma AlignedHeld(s: Snap, s': Snap, u: int, n: int)
    requires Inv(s) && u in s.aligned && s'.views == s.views && s'.large == s.large
    requires s'.aligned == s.aligned[u := s.aligned[u].(size := n)]
    ensures Resized(s, s', u, u, n)
  {
    forall w ensures NoAlias(s'.aligned, w) <==> NoAlias(s.aligned, w) {
      if NoAlias(s'.aligned, w) { forall x | x in s.aligned ensures s.aligned[x].raw != w { assert x in s'.aligned; } }
    }
  }
}
