/** The free lists in memory: nodes overlaid on free blocks, linked by address, and a second
    chain through the big blocks of a retired pool. */
module MallocList {
  import opened MallocBlocks

  /** What a record in memory holds, by the address where it starts. A pool begins with its
      own record, a handed-out block with Header, a free one with Node, a mapping for one large
      request with Mapped. Raw is the pointer parked below an aligned block's Header, and
      Byte is a byte of a user's. */
  datatype Cell =
    | Pool(refs: int, size: int, freelist: int, nextPool: int, len: int, maxFree: int, big: int)
    | Node(next: int, blockSize: int, nextBig: int)
    | Header(moff: int, userSize: int)
    | Mapped(total: int)
    | Raw(ptr: int)
    | Byte(value: int)

  type Mem = map<int, Cell>

  predicate HasNode(m: Mem, a: int) { a in m && m[a].Node? }

  predicate HasPool(m: Mem, a: int) { a in m && m[a].Pool? }

  /** The node of free block b, followed by the one at next. */
  ghost predicate IsNode(m: Mem, b: Block, next: int) {
    HasNode(m, b.at) && m[b.at].blockSize == b.size && m[b.at].next == next
  }

  ghost predicate Linked(m: Mem, bs: seq<Block>, to: int) {
    bs == [] || (IsNode(m, bs[0], Front(bs[1..], to)) && Linked(m, bs[1..], to))
  }

  /** Each big block leads to the next one. */
  ghost predicate Chained(m: Mem, bs: seq<Block>, to: int) {
    bs == [] ||
    (HasNode(m, bs[0].at) && (Big(bs[0]) ==> m[bs[0].at].nextBig == FirstBig(bs[1..], to)) && Chained(m, bs[1..], to))
  }

  /** The free list of the pool at ms is bs. */
  ghost predicate ListAt(m: Mem, ms: int, bs: seq<Block>) {
    HasPool(m, ms) && m[ms].freelist == Front(bs, 0) && Linked(m, bs, 0) && Ordered(bs) && Above(bs, ms)
  }

  ghost predicate ChainAt(m: Mem, ms: int, bs: seq<Block>) {
    HasPool(m, ms) && m[ms].big == FirstBig(bs, 0) && Chained(m, bs, 0)
  }

  ghost predicate Above(bs: seq<Block>, ms: int) { 0 < ms && (bs != [] ==> ms < bs[0].at) }

  /** The same, taken apart at block x. */
  ghost predicate Linked3(m: Mem, ms: int, pre: seq<Block>, x: Block, post: seq<Block>) {
    && HasPool(m, ms) && m[ms].freelist == Front(pre, x.at)
    && Linked(m, pre, x.at) && IsNode(m, x, Front(post, 0)) && Linked(m, post, 0)
  }

  predicate Same(m: Mem, m': Mem, a: int) { (a in m <==> a in m') && (a in m ==> m[a] == m'[a]) }

  ghost predicate SameBut3(m: Mem, m': Mem, a: int, b: int, c: int) {
    forall k :: k != a && k != b && (c == 0 || k != c) ==> Same(m, m', k)
  }

  /** Only the pool's record, the one at x and those of the listed blocks differ. */
  ghost predicate SameElsewhere(m: Mem, m': Mem, ms: int, x: int, bs: seq<Block>) {
    forall k :: k != ms && k != x && !Starts(bs, k) ==> Same(m, m', k)
  }

  ghost predicate KeepsBig(m: Mem, m': Mem) {
    forall a :: HasNode(m, a) ==> HasNode(m', a) && m'[a].nextBig == m[a].nextBig
  }

  // ---------- taking lists apart ----------

  lemma {:induction false} LinkedJoin(m: Mem, pre: seq<Block>, post: seq<Block>, to: int)
    ensures Linked(m, pre + post, to) <==> Linked(m, pre, Front(post, to)) && Linked(m, post, to)
  {
    if pre == [] {
      assert pre + post == post;
    } else {
      assert (pre + post)[1..] == pre[1..] + post;
      LinkedJoin(m, pre[1..], post, to);
    }
  }

  lemma {:induction false} FirstBigJoin(pre: seq<Block>, post: seq<Block>, to: int)
    ensures FirstBig(pre + post, to) == FirstBig(pre, FirstBig(post, to))
  {
    if pre == [] {
      assert pre + post == post;
    } else {
      assert (pre + post)[1..] == pre[1..] + post;
      FirstBigJoin(pre[1..], post, to);
    }
  }

  lemma {:induction false} ChainedJoin(m: Mem, pre: seq<Block>, post: seq<Block>, to: int)
    ensures Chained(m, pre + post, to) <==> Chained(m, pre, FirstBig(post, to)) && Chained(m, post, to)
  {
    if pre == [] {
      assert pre + post == post;
    } else {
      assert (pre + post)[1..] == pre[1..] + post;
      FirstBigJoin(pre[1..], post, to);
      ChainedJoin(m, pre[1..], post, to);
    }
  }

  lemma SplitLast(bs: seq<Block>)
    requires bs != []
    ensures bs == Init(bs) + [Last(bs)]
  {
  }

  /** All of the blocks start below a. */
  lemma {:induction false} NoStartAbove(bs: seq<Block>, a: int)
    requires Ordered(bs) && (bs != [] ==> Last(bs).at < a)
    ensures !Starts(bs, a)
  {
    if Starts(bs, a) {
      var i :| 0 <= i < |bs| && bs[i].at == a;
      OrderedAt(bs, i);
      if i < |bs| - 1 { OrderedPair(bs, i, |bs| - 1); }
    }
  }

  lemma {:induction false} NoStartBelow(bs: seq<Block>, a: int)
    requires Ordered(bs) && (bs != [] ==> a < bs[0].at)
    ensures !Starts(bs, a)
  {
    if Starts(bs, a) {
      var i :| 0 <= i < |bs| && bs[i].at == a;
      OrderedAt(bs, 0);
      OrderedAt(bs, i);
    }
  }

  lemma StartsParts(pre: seq<Block>, post: seq<Block>, a: int)
    ensures Starts(pre + post, a) <==> Starts(pre, a) || Starts(post, a)
  {
    var bs := pre + post;
    if Starts(bs, a) {
      var i :| 0 <= i < |bs| && bs[i].at == a;
      if i < |pre| { assert pre[i].at == a; } else { assert post[i - |pre|].at == a; }
    }
    if Starts(pre, a) {
      var i :| 0 <= i < |pre| && pre[i].at == a;
      assert bs[i].at == a;
    }
    if Starts(post, a) {
      var i :| 0 <= i < |post| && post[i].at == a;
      assert bs[|pre| + i].at == a;
    }
  }

  // ---------- writes that leave a list alone ----------

  lemma {:induction false} LinkedFrame(m: Mem, m': Mem, bs: seq<Block>, to: int)
    requires Linked(m, bs, to) && forall a :: Starts(bs, a) ==> Same(m, m', a)
    ensures Linked(m', bs, to)
  {
    if bs != [] {
      assert Starts(bs, bs[0].at);
      forall a | Starts(bs[1..], a) ensures Same(m, m', a) { TailStarts(bs, a); }
      LinkedFrame(m, m', bs[1..], to);
    }
  }

  lemma TailStarts(bs: seq<Block>, a: int)
    requires bs != [] && Starts(bs[1..], a)
    ensures Starts(bs, a)
  {
    var i :| 0 <= i < |bs[1..]| && bs[1..][i].at == a;
    assert bs[i + 1].at == a;
  }

  lemma {:induction false} ChainedKeep(m: Mem, m': Mem, bs: seq<Block>, to: int)
    requires Chained(m, bs, to) && KeepsBig(m, m')
    ensures Chained(m', bs, to)
  {
    if bs != [] {
      ChainedKeep(m, m', bs[1..], to);
    }
  }

  lemma {:induction false} ChainedFrame(m: Mem, m': Mem, bs: seq<Block>, to: int)
    requires Chained(m, bs, to) && forall a :: Starts(bs, a) ==> Same(m, m', a)
    ensures Chained(m', bs, to)
  {
    if bs != [] {
      assert Starts(bs, bs[0].at);
      forall a | Starts(bs[1..], a) ensures Same(m, m', a) { TailStarts(bs, a); }
      ChainedFrame(m, m', bs[1..], to);
    }
  }

  // ---------- the last big block ----------

  lemma {:induction false} NoBigLeadsOn(m: Mem, bs: seq<Block>, to: int, to': int)
    requires LastBig(bs) == 0 && Ordered(bs) && Chained(m, bs, to)
    ensures FirstBig(bs, to') == to' && Chained(m, bs, to')
    decreases |bs|
  {
    if bs != [] {
      SplitLast(bs);
      OrderedParts(Init(bs), [Last(bs)]);
      OrderedAt(bs, |bs| - 1);
      ChainedJoin(m, Init(bs), [Last(bs)], to);
      NoBigLeadsOn(m, Init(bs), FirstBig([Last(bs)], to), to');
      ChainedJoin(m, Init(bs), [Last(bs)], to');
      FirstBigJoin(Init(bs), [Last(bs)], to');
    }
  }

  function WithBig(m: Mem, a: int, to: int): Mem
    requires HasNode(m, a)
  {
    m[a := m[a].(nextBig := to)]
  }

  /** Pointing the last big block elsewhere. */
  lemma {:induction false} Rechain(m: Mem, bs: seq<Block>, to: int, to': int)
    requires LastBig(bs) != 0 && Ordered(bs) && Chained(m, bs, to)
    ensures Starts(bs, LastBig(bs)) && HasNode(m, LastBig(bs)) && m[LastBig(bs)].nextBig == to
    ensures FirstBig(bs, to') == FirstBig(bs, to)
    ensures Chained(WithBig(m, LastBig(bs), to'), bs, to')
    decreases |bs|
  {
    var q, l := Init(bs), Last(bs);
    SplitLast(bs);
    OrderedParts(q, [l]);
    FirstBigJoin(q, [l], to);
    FirstBigJoin(q, [l], to');
    ChainedJoin(m, q, [l], to);
    assert [l][1..] == [];
    if Big(l) {
      var m' := WithBig(m, l.at, to');
      assert bs[|bs| - 1].at == l.at;
      if q != [] { OrderedAt(q, |q| - 1); }
      NoStartAbove(q, l.at);
      ChainedFrame(m, m', q, l.at);
      ChainedJoin(m', q, [l], to');
    } else {
      Rechain(m, q, to, to');
      var m' := WithBig(m, LastBig(q), to');
      StartsParts(q, [l], LastBig(bs));
      ChainedJoin(m', q, [l], to');
    }
  }
}
