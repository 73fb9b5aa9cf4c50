/** What freeing does to one pool: the block leaves the live ones and joins the free list. */
module MallocGive {
  import opened MallocBlocks
  import opened MallocList
  import opened MallocFree
  import opened MallocSearch
  import opened MallocState
  import opened MallocSteps
  import opened MallocPool

  // ---------- inserting, as seen by a block that stays clear ----------

  lemma CoversAt(bs: seq<Block>, i: nat, a: int)
    requires i < |bs| && In(bs[i], a)
    ensures Covers(bs, a)
  {
  }

  lemma NoCommonByte(bs: seq<Block>, l: Block, a: int)
    requires Apart(bs, l) && In(l, a)
    ensures !Covers(bs, a)
  {
    forall i | 0 <= i < |bs| ensures !In(bs[i], a) { assert Clear(bs[i], l); }
  }

  lemma InsertClear(bs: seq<Block>, x: Block, l: Block)
    requires Ordered(bs) && x.at > 0 && x.size > 0 && Apart(bs, x) && Apart(bs, l) && Clear(x, l) && l.size > 0
    ensures Apart(Insert(bs, x), l)
  {
    var out := Insert(bs, x);
    InsertKeepsOrder(bs, x);
    forall i | 0 <= i < |out| ensures Clear(out[i], l) {
      OrderedAt(out, i);
      var a := if out[i].at < l.at then l.at else out[i].at;
      if In(out[i], a) && In(l, a) {
        CoversAt(out, i, a);
        InsertAddsBytes(bs, x, a);
        NoCommonByte(bs, l, a);
      }
    }
  }

  lemma CoveredInside(bs: seq<Block>, lo: int, hi: int, a: int)
    requires Inside(bs, lo, hi) && Covers(bs, a)
    ensures lo <= a < hi
  {
  }

  lemma InsertInside(bs: seq<Block>, x: Block, lo: int, hi: int)
    requires Ordered(bs) && Inside(bs, lo, hi) && lo <= x.at && End(x) <= hi && x.at > 0 && x.size > 0 && Apart(bs, x)
    ensures Inside(Insert(bs, x), lo, hi)
  {
    var out := Insert(bs, x);
    InsertKeepsOrder(bs, x);
    forall i | 0 <= i < |out| ensures lo <= out[i].at && End(out[i]) <= hi {
      OrderedAt(out, i);
      forall a | In(out[i], a) ensures lo <= a < hi {
        CoversAt(out, i, a);
        InsertAddsBytes(bs, x, a);
        if Covers(bs, a) { CoveredInside(bs, lo, hi, a); }
      }
      assert In(out[i], out[i].at) && In(out[i], End(out[i]) - 1);
    }
  }

  /** The list after the end of the pool was trimmed off its last block. */
  ghost predicate CutList(whole: seq<Block>, out: seq<Block>, k: nat, size: int) {
    k < |whole| && out == whole[..k] + [Block(whole[k].at, size)] + whole[k + 1..]
  }

  lemma CutAt(whole: seq<Block>, out: seq<Block>, k: nat, size: int, i: nat)
    requires CutList(whole, out, k, size) && i < |whole|
    ensures |out| == |whole| && out[i] == if i == k then Block(whole[k].at, size) else whole[i]
  {
  }

  lemma CutClear(whole: seq<Block>, out: seq<Block>, k: nat, size: int, l: Block)
    requires CutList(whole, out, k, size) && size <= whole[k].size && Apart(whole, l)
    ensures Apart(out, l)
  {
    forall i | 0 <= i < |out| ensures Clear(out[i], l) {
      CutAt(whole, out, k, size, i);
      assert Clear(whole[i], l);
    }
  }

  /** If the block reaches the end it is the last, and everything else stays below it. */
  lemma CutInside(whole: seq<Block>, out: seq<Block>, k: nat, size: int, lo: int, hi: int)
    requires Ordered(whole) && Inside(whole, lo, hi) && CutList(whole, out, k, size) && 0 < size <= whole[k].size
    requires End(whole[k]) == hi
    ensures Inside(out, lo, whole[k].at + size)
  {
    forall i | 0 <= i < |out| ensures lo <= out[i].at && End(out[i]) <= whole[k].at + size {
      CutAt(whole, out, k, size, i);
      if i < k { OrderedPair(whole, i, k); }
      if k < i { OrderedPair(whole, k, i); OrderedAt(whole, i); }
    }
  }

  lemma LiveBelow(live: map<int, int>, whole: seq<Block>, k: nat, lo: int, hi: int, size: int)
    requires LiveInside(live, lo, hi) && k < |whole| && End(whole[k]) == hi && 0 < size
    requires forall at :: at in live ==> Apart(whole, LiveBlock(live, at))
    ensures LiveInside(live, lo, whole[k].at + size)
  {
    forall at | at in live ensures End(LiveBlock(live, at)) <= whole[k].at + size {
      BlockSizeBounds(live[at]);
      assert Clear(whole[k], LiveBlock(live, at));
    }
  }

  /** Layout of the pool once the freed bytes are on its list and its end may be trimmed. */
  lemma InsertedLayout(ms: int, size: int, v: View, x: Block, p: Cell, p': Cell, out: seq<Block>)
    requires Ordered(v.free) && Layout(ms, ms + size, v) && Unused(ms, ms + size, v, x) && 0 < ms
    requires p.Pool? && p'.Pool? && Inserted(p, p', ms, x, v.free, out) && p.size == size <= p.len
    requires p.size < p.len ==> p'.len == p.len
    ensures Layout(ms, ms + p'.size, View(v.live, out))
    ensures p'.size <= p'.len <= p.len && (size == p.len ==> p'.size == p'.len) && MSET <= p'.size
  {
    var whole := Insert(v.free, x);
    InsertKeepsOrder(v.free, x);
    InsertInside(v.free, x, ms + MSET, ms + size);
    forall at | at in v.live ensures Apart(whole, LiveBlock(v.live, at)) {
      BlockSizeBounds(v.live[at]);
      assert Apart(v.free, LiveBlock(v.live, at));
      InsertClear(v.free, x, LiveBlock(v.live, at));
    }
    var k, cut := InsertedCut(p, p', ms, x, v.free, out);
    forall at | at in v.live ensures Apart(out, LiveBlock(v.live, at)) {
      CutClear(whole, out, k, cut, LiveBlock(v.live, at));
    }
    if p'.len < p.len {
      CutInside(whole, out, k, cut, ms + MSET, ms + size);
      LiveBelow(v.live, whole, k, ms + MSET, ms + size, cut);
    } else {
      forall i | 0 <= i < |out| ensures ms + MSET <= out[i].at && End(out[i]) <= ms + size {
        CutAt(whole, out, k, cut, i);
      }
    }
  }

  /** Where the joined block is, and how long it is after trimming. */
  lemma InsertedCut(p: Cell, p': Cell, ms: int, x: Block, bs: seq<Block>, out: seq<Block>) returns (k: nat, size: int)
    requires p.Pool? && p'.Pool? && Inserted(p, p', ms, x, bs, out) && x.size > 0 && Ordered(bs)
    requires x.at > ms && (bs != [] ==> bs[0].at > ms)
    ensures CutList(Insert(bs, x), out, k, size) && size <= Insert(bs, x)[k].size
    ensures Trimmed(p.len, p'.len, Insert(bs, x)[k].at - ms, Insert(bs, x)[k].size, size)
    ensures p'.len < p.len ==>
      0 < size && End(Insert(bs, x)[k]) == ms + p.len && Insert(bs, x)[k].at + size == ms + p'.len
    ensures p'.maxFree == Larger(p.maxFree, size) && p'.len <= p.len
    ensures p' == p.(freelist := p'.freelist, big := p'.big, len := p'.len, size := p'.size, maxFree := p'.maxFree)
    ensures p'.size == if p'.len < p.len && p.size > p'.len then p'.len else p.size
  {
    var pre, post := bs[..Spot(bs, x.at)], bs[Spot(bs, x.at)..];
    var pre', y, post' := BeforeJoin(pre, x), Joined(pre, x, post), AfterJoin(x, post);
    var whole := Insert(bs, x);
    size :| InsertedAs(p, p', ms, pre', y, post', size, out);
    k := |pre'|;
    assert whole[..k] == pre' && whole[k] == y && whole[k + 1..] == post';
    if TouchesPrev(pre, x) {
      OrderedAt(bs, |pre| - 1); OrderedAt(bs, 0); if |pre| > 1 { OrderedPair(bs, 0, |pre| - 1); }
    }
    assert y.at > ms;
  }

  // ---------- one pool ----------

  lemma InsertedBounded(bs: seq<Block>, p: Cell, p': Cell, ms: int, x: Block, out: seq<Block>)
    requires p.Pool? && p'.Pool? && Inserted(p, p', ms, x, bs, out)
    requires Ordered(bs) && Bounded(bs, p'.maxFree) && x.size > 0
    ensures Bounded(out, p'.maxFree)
  {
    hide Ordered, Joined, Trimmed;
    var pre, post := bs[..Spot(bs, x.at)], bs[Spot(bs, x.at)..];
    var pre', y, post' := BeforeJoin(pre, x), Joined(pre, x, post), AfterJoin(x, post);
    var size :| InsertedAs(p, p', ms, pre', y, post', size, out);
    forall i | 0 <= i < |out| ensures out[i].size <= p'.maxFree {
      if i < |pre'| { assert out[i] == bs[i]; } else if i > |pre'| { assert out[i] == bs[|bs| - |out| + i]; }
    }
  }

  /** The freed block's bytes joined the list. */
  lemma InsertedPool(m: Mem, m': Mem, ms: int, len: int, v: View, current: bool, x: Block, out: seq<Block>)
    requires PoolOk(m, ms, len, v, current) && Unused(ms, ms + m[ms].size, v, x)
    requires ListAt(m', ms, out) && (!current ==> ChainAt(m', ms, out)) && SameElsewhere(m, m', ms, x.at, v.free)
    requires Inserted(m[ms], m'[ms], ms, x, v.free, out) && (current ==> m'[ms].len == len)
    ensures var v' := View(v.live, out);
            PoolOk(m', ms, m'[ms].len, v', current) && PayloadsKept(m, m', v, v', 0) && SameOutside(m, m', ms, ms + len)
    ensures m'[ms].nextPool == m[ms].nextPool && m'[ms].len <= len
  {
    hide Layout, Linked, Chained, Unused, SameElsewhere, Inserted;
    InsertedFields(m[ms], m'[ms], ms, x, v.free, out, v);
    InsertedSize(m, m', ms, len, v, x, out);
    UnusedParts(m, ms, v, x);
    UnusedSpot(ms, ms + m[ms].size, v, x);
    LiveUntouched(m, m', ms, ms + m[ms].size, v, x.at, v.live, out);
    LayoutParts(ms, ms + m[ms].size, v);
    ElsewhereInside(m, m', ms, ms + m[ms].size, v.free, x.at);
    if !current {
      BoundedUp(v.free, m[ms].maxFree, m'[ms].maxFree);
      InsertedBounded(v.free, m[ms], m'[ms], ms, x, out);
    }
  }

  /** Putting x back frees its bytes, apart from those that went with the end of the pool. */
  lemma InsertedCovers(p: Cell, p': Cell, ms: int, x: Block, bs: seq<Block>, out: seq<Block>, a: int)
    requires p.Pool? && p'.Pool? && Inserted(p, p', ms, x, bs, out)
    requires Ordered(bs) && Apart(bs, x) && x.at > 0 && x.size > 0 && Inside(bs, ms + MSET, ms + p.len)
             && End(x) <= ms + p.len
    ensures Covers(out, a) <==> (Covers(bs, a) || In(x, a)) && a < ms + p'.len
  {
    hide Ordered, Covers, Apart, BeforeJoin, Joined, AfterJoin;
    var pre, post := bs[..Spot(bs, x.at)], bs[Spot(bs, x.at)..];
    var before, y, after := BeforeJoin(pre, x), Joined(pre, x, post), AfterJoin(x, post);
    var size :| InsertedAs(p, p', ms, before, y, after, size, out);
    assert Insert(bs, x) == before + [y] + after;
    InsertAddsBytes(bs, x, a);
    InsertKeepsOrder(bs, x);
    InsertBelow(bs, x, ms + p.len);
    if p'.len != p.len {
      CutCovers(before, y, after, size, ms + p.len, ms + p'.len, a);
    } else if Covers(out, a) {
      CoversBelow(Insert(bs, x), ms + p.len, a);
    }
  }

  /** All blocks end at hi or before. */
  ghost predicate Below(bs: seq<Block>, hi: int) { forall i :: 0 <= i < |bs| ==> End(bs[i]) <= hi }

  lemma CoversBelow(bs: seq<Block>, hi: int, a: int)
    requires Below(bs, hi) && Covers(bs, a)
    ensures a < hi
  {
  }

  lemma InsertBelow(bs: seq<Block>, x: Block, hi: int)
    requires Ordered(bs) && Apart(bs, x) && x.at > 0 && x.size > 0 && Below(bs, hi) && End(x) <= hi
    ensures Below(Insert(bs, x), hi)
  {
    hide Ordered, Apart, Insert, Covers;
    InsertKeepsOrder(bs, x);
    var out := Insert(bs, x);
    forall i | 0 <= i < |out| ensures End(out[i]) <= hi {
      OrderedAt(out, i);
      var last := End(out[i]) - 1;
      LastCovered(out, i);
      InsertAddsBytes(bs, x, last);
      if Covers(bs, last) { CoversBelow(bs, hi, last); }
    }
  }

  lemma LastCovered(bs: seq<Block>, i: nat)
    requires i < |bs| && bs[i].size > 0
    ensures Covers(bs, End(bs[i]) - 1)
  {
    assert In(bs[i], End(bs[i]) - 1);
  }

  /** The block at the end, and nothing behind it, is cut with the pool. */
  lemma CutCovers(before: seq<Block>, y: Block, after: seq<Block>, size: int, end: int, end': int, a: int)
    requires Ordered(before + [y] + after) && Below(before + [y] + after, end) && End(y) == end && y.at < end' < end
             && size == end' - y.at
    ensures Covers(before + [Block(y.at, size)] + after, a) <==> Covers(before + [y] + after, a) && a < end'
  {
    hide Ordered, Covers;
    var bs := before + [y] + after;
    if after != [] {
      assert bs[|before|] == y && bs[|before| + 1] == after[0];
      OrderedPair(bs, |before|, |before| + 1);
      OrderedAt(bs, |before| + 1);
      assert false;
    }
    forall i | 0 <= i < |before| ensures End(before[i]) <= end' {
      assert bs[i] == before[i] && bs[|before|] == y;
      OrderedPair(bs, i, |before|);
    }
    CoversParts(before + [y], after, a); CoversParts(before, [y], a); CoversOne(y, a);
    CoversParts(before + [Block(y.at, size)], after, a);
    CoversParts(before, [Block(y.at, size)], a);
    CoversOne(Block(y.at, size), a);
    if Covers(before, a) { CoversBelow(before, end', a); }
    NoneCovered(a);
  }

  lemma NoneCovered(a: int)
    ensures !Covers([], a)
  {
  }

  /** What is free are the bytes that were, and those of x, as far as the mapping still reaches. */
  ghost predicate Freed(bs: seq<Block>, out: seq<Block>, end: int, x: Block) {
    forall a :: Covers(out, a) <==> (Covers(bs, a) || In(x, a)) && a < end
  }

  lemma BoundedUp(bs: seq<Block>, limit: int, limit': int)
    requires Bounded(bs, limit) && limit <= limit'
    ensures Bounded(bs, limit')
  {
  }

  lemma UnusedSpot(ms: int, end: int, v: View, x: Block)
    requires Unused(ms, end, v, x)
    ensures forall at :: at in v.live ==> x.at < at || End(LiveBlock(v.live, at)) <= x.at
    ensures x.size > 0
  {
    forall at | at in v.live ensures x.at < at || End(LiveBlock(v.live, at)) <= x.at {
      assert Clear(LiveBlock(v.live, at), x);
    }
  }

  lemma InsertedFields(p: Cell, p': Cell, ms: int, x: Block, bs: seq<Block>, out: seq<Block>, v: View)
    requires p.Pool? && p'.Pool? && Inserted(p, p', ms, x, bs, out)
    ensures p'.refs == p.refs && p'.nextPool == p.nextPool && p'.maxFree >= p.maxFree && p'.len <= p.len
  {
  }

  lemma InsertedSize(m: Mem, m': Mem, ms: int, len: int, v: View, x: Block, out: seq<Block>)
    requires ListAt(m, ms, v.free) && Layout(ms, ms + m[ms].size, v) && Unused(ms, ms + m[ms].size, v, x)
    requires HasPool(m', ms) && Inserted(m[ms], m'[ms], ms, x, v.free, out) && m[ms].size <= m[ms].len
    requires m[ms].size < m[ms].len ==> m'[ms].len == m[ms].len
    ensures Layout(ms, ms + m'[ms].size, View(v.live, out)) && MSET <= m'[ms].size <= m'[ms].len
    ensures m[ms].size == m[ms].len ==> m'[ms].size == m'[ms].len
  {
    InsertedLayout(ms, m[ms].size, v, x, m[ms], m'[ms], out);
  }

  lemma OneLess(live: map<int, int>, at: int)
    requires at in live
    ensures |live - {at}| == |live| - 1
  {
    assert live.Keys == (live - {at}).Keys + {at};
    assert |live.Keys| == |live| && |(live - {at}).Keys| == |live - {at}|;
  }

  lemma LayoutRelease(ms: int, end: int, v: View, at: int)
    requires Layout(ms, end, v) && at in v.live
    ensures Layout(ms, end, View(v.live - {at}, v.free))
            && Unused(ms, end, View(v.live - {at}, v.free), LiveBlock(v.live, at))
  {
    BlockSizeBounds(v.live[at]);
    var live' := v.live - {at};
    assert Apart(v.free, LiveBlock(v.live, at));
    forall a | a in live' ensures Clear(LiveBlock(live', a), LiveBlock(v.live, at)) {
      assert Clear(LiveBlock(v.live, a), LiveBlock(v.live, at));
    }
    forall a, b | a in live' && b in live' && a != b ensures Clear(LiveBlock(live', a), LiveBlock(live', b)) {
      assert Clear(LiveBlock(v.live, a), LiveBlock(v.live, b));
    }
    forall a | a in live' ensures Apart(v.free, LiveBlock(live', a)) { assert Apart(v.free, LiveBlock(v.live, a)); }
  }

  lemma RecordWrite(m: Mem, m': Mem, ms: int, end: int, v: View, v': View)
    requires Layout(ms, end, v) && SameBut3(m, m', ms, ms, ms)
    requires forall a :: a in v'.live ==> a in v.live && v'.live[a] == v.live[a]
    ensures forall a :: a in v.live ==> Same(m, m', a) && SameWithin(m, m', a + MHDR, a + MHDR + v.live[a])
  {
    forall a | a in v.live ensures Same(m, m', a) && SameWithin(m, m', a + MHDR, a + MHDR + v.live[a]) {
      BlockSizeBounds(v.live[a]);
    }
  }

  /** A live block is dropped: its header is no longer kept, its bytes are nobody's. */
  lemma ReleaseBlock(m: Mem, ms: int, len: int, v: View, current: bool, at: int)
    requires PoolOk(m, ms, len, v, current) && at in v.live && (!current ==> m[ms].refs > 1)
    ensures var m', v' := m[ms := m[ms].(refs := m[ms].refs - 1)], View(v.live - {at}, v.free);
            && PoolOk(m', ms, len, v', current) && Unused(ms, ms + m[ms].size, v', LiveBlock(v.live, at))
            && PayloadsKept(m, m', v, v', at) && SameOutside(m, m', ms, ms + len)
  {
    hide Layout, RetiredOk, Linked, Chained, Unused;
    var m', v' := m[ms := m[ms].(refs := m[ms].refs - 1)], View(v.live - {at}, v.free);
    NoStartBelow(v.free, ms);
    ListsKept(m, m', ms, v.free, current);
    LayoutRelease(ms, ms + m[ms].size, v, at);
    RecordWrite(m, m', ms, ms + m[ms].size, v, v');
    OneLess(v.live, at);
  }

  lemma LayoutCut(ms: int, end: int, v: View, at: int, n: int)
    requires Layout(ms, end, v) && at in v.live && 0 <= n && BlockSize(n) < BlockSize(v.live[at])
    ensures var v' := View(v.live[at := n], v.free);
            && Layout(ms, end, v')
            && Unused(ms, end, v', Block(at + BlockSize(n), BlockSize(v.live[at]) - BlockSize(n)))
  {
    BlockSizeBounds(n);
    BlockSizeBounds(v.live[at]);
    var live', b := v.live[at := n], LiveBlock(v.live, at);
    assert Apart(v.free, b);
    forall a | a in live' && a != at ensures Clear(LiveBlock(live', a), b) { assert Clear(LiveBlock(v.live, a), b); }
    forall a, c | a in live' && c in live' && a != c ensures Clear(LiveBlock(live', a), LiveBlock(live', c)) {
      assert Clear(LiveBlock(v.live, a), LiveBlock(v.live, c));
    }
    forall a | a in live' ensures Apart(v.free, LiveBlock(live', a)) { assert Apart(v.free, LiveBlock(v.live, a)); }
  }

  lemma HeaderWrite(m: Mem, m': Mem, ms: int, end: int, v: View, at: int)
    requires Layout(ms, end, v) && Ordered(v.free) && at in v.live && SameBut3(m, m', at, at, at)
    ensures forall a :: Starts(v.free, a) ==> Same(m, m', a)
    ensures forall a :: a in v.live && a != at ==> Same(m, m', a) && SameWithin(m, m', a + MHDR, a + MHDR + v.live[a])
    ensures ms + MSET <= at < end
  {
    var b := LiveBlock(v.live, at);
    BlockSizeBounds(v.live[at]);
    assert Apart(v.free, b);
    forall a | Starts(v.free, a) ensures a != at { StartsOutside(v.free, b, a); }
    forall a | a in v.live && a != at ensures SameWithin(m, m', a + MHDR, a + MHDR + v.live[a]) && Same(m, m', a) {
      BlockSizeBounds(v.live[a]);
      assert Clear(LiveBlock(v.live, a), b);
    }
  }

  /** A live block is cut to n bytes; the tail of its old bytes is nobody's. */
  lemma CutBlock(m: Mem, ms: int, len: int, v: View, current: bool, at: int, n: int)
    requires PoolOk(m, ms, len, v, current) && at in v.live && 0 <= n && BlockSize(n) < BlockSize(v.live[at])
    ensures var m', v' := m[at := Header(at - ms, n)], View(v.live[at := n], v.free);
            && PoolOk(m', ms, len, v', current) && HasPool(m, ms) && HasPool(m', ms) && m'[ms] == m[ms]
            && Unused(ms, ms + m[ms].size, v', Block(at + BlockSize(n), BlockSize(v.live[at]) - BlockSize(n)))
            && PayloadsKept(m, m', v, v', at) && SameOutside(m, m', ms, ms + len)
  {
    hide Layout, RetiredOk, Linked, Chained, Unused;
    var m', v' := m[at := Header(at - ms, n)], View(v.live[at := n], v.free);
    HeaderWrite(m, m', ms, ms + m[ms].size, v, at);
    ListsKept(m, m', ms, v.free, current);
    LayoutCut(ms, ms + m[ms].size, v, at, n);
    assert v'.live.Keys == v.live.Keys;
    assert |v.live.Keys| == |v.live| && |v'.live.Keys| == |v'.live|;
  }
}
