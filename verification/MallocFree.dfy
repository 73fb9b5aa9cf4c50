/** Putting a freed block back: freelist_insert. */
module MallocFree {
  import opened MallocBlocks
  import opened MallocCache
  import opened MallocList

  function LastAt(bs: seq<Block>): int { if bs == [] then 0 else Last(bs).at }

  function WithNext(m: Mem, a: int, to: int): Mem
    requires HasNode(m, a)
  {
    m[a := m[a].(next := to)]
  }

  /** Writing through a pointer to the link after prevNode, or to the list's head if that is 0. */
  function WithLink(m: Mem, ms: int, prevNode: int, to: int): Mem
    requires if prevNode == 0 then HasPool(m, ms) else HasNode(m, prevNode)
  {
    if prevNode == 0 then m[ms := m[ms].(freelist := to)] else WithNext(m, prevNode, to)
  }

  /** There is room for x between pre and post. */
  ghost predicate Fits(ms: int, pre: seq<Block>, x: Block, post: seq<Block>) {
    && Ordered(pre) && Ordered(post) && Above(pre, ms) && Above(post, ms) && ms < x.at && 0 < x.size
    && (pre != [] ==> End(Last(pre)) <= x.at) && (post != [] ==> End(x) <= post[0].at)
  }

  ghost predicate Linked2(m: Mem, ms: int, pre: seq<Block>, post: seq<Block>) {
    HasPool(m, ms) && m[ms].freelist == Front(pre, Front(post, 0)) && Linked(m, pre, Front(post, 0))
    && Linked(m, post, 0)
  }

  lemma NotAmong(ms: int, pre: seq<Block>, x: Block, post: seq<Block>)
    requires Fits(ms, pre, x, post)
    ensures !Starts(pre, x.at) && !Starts(post, x.at) && !Starts(pre, ms) && !Starts(post, ms)
    ensures pre != [] ==> !Starts(post, Last(pre).at) && !Starts(Init(pre), Last(pre).at)
    ensures pre != [] ==> Last(pre).at < x.at && ms < Last(pre).at
  {
    if pre != [] {
      OrderedAt(pre, |pre| - 1);
      if |pre| > 1 {
        OrderedPair(pre, |pre| - 2, |pre| - 1);
        OrderedAt(pre, |pre| - 2);
        OrderedAt(pre, 0);
        OrderedPair(pre, 0, |pre| - 1);
      }
      SplitLast(pre);
      OrderedParts(Init(pre), [Last(pre)]);
      NoStartBelow(post, Last(pre).at);
      NoStartAbove(Init(pre), Last(pre).at);
    }
    NoStartAbove(pre, x.at);
    NoStartBelow(post, x.at);
    NoStartBelow(pre, ms);
    NoStartBelow(post, ms);
  }

  /** Pointing the last block elsewhere. */
  lemma Relink(m: Mem, pre: seq<Block>, to: int, to': int)
    requires pre != [] && Linked(m, pre, to) && !Starts(Init(pre), Last(pre).at)
    ensures HasNode(m, Last(pre).at) && IsNode(m, Last(pre), to) && Linked(WithNext(m, Last(pre).at, to'), pre, to')
  {
    var q, l := Init(pre), Last(pre);
    SplitLast(pre);
    LinkedJoin(m, q, [l], to);
    assert [l][1..] == [];
    var m' := WithNext(m, l.at, to');
    LinkedFrame(m, m', q, l.at);
    LinkedJoin(m', q, [l], to');
  }

  lemma Attached(m: Mem, ms: int, pre: seq<Block>, x: Block, post: seq<Block>, junk: int)
    requires Fits(ms, pre, x, post) && Linked2(m, ms, pre, post)
    ensures var m1 := m[x.at := Node(Front(post, 0), x.size, junk)];
            && (if LastAt(pre) == 0 then HasPool(m1, ms) else HasNode(m1, LastAt(pre)))
            && Linked3(WithLink(m1, ms, LastAt(pre), x.at), ms, pre, x, post)
  {
    NotAmong(ms, pre, x, post);
    var m1 := m[x.at := Node(Front(post, 0), x.size, junk)];
    LinkedFrame(m, m1, pre, Front(post, 0));
    LinkedFrame(m, m1, post, 0);
    if pre != [] {
      Relink(m1, pre, Front(post, 0), x.at);
    }
    var m2 := WithLink(m1, ms, LastAt(pre), x.at);
    LinkedFrame(m1, m2, post, 0);
  }

  lemma JoinedAfter(m: Mem, ms: int, pre: seq<Block>, x: Block, post: seq<Block>)
    requires Fits(ms, pre, x, post) && Linked3(m, ms, pre, x, post) && TouchesNext(x, post)
    ensures HasNode(m, post[0].at) && m[post[0].at].blockSize == post[0].size
    ensures var m' := m[x.at := m[x.at].(blockSize := x.size + post[0].size, next := m[post[0].at].next)];
            Linked3(m', ms, pre, JoinNext(x, post), AfterJoin(x, post))
  {
    NotAmong(ms, pre, x, post);
    var m' := m[x.at := m[x.at].(blockSize := x.size + post[0].size, next := m[post[0].at].next)];
    LinkedFrame(m, m', pre, x.at);
    LinkedFrame(m, m', post, 0);
  }

  lemma JoinedBefore(m: Mem, ms: int, pre: seq<Block>, x: Block, y: Block, rest: seq<Block>)
    requires Fits(ms, pre, y, rest) && x.at == y.at && Linked3(m, ms, pre, y, rest) && TouchesPrev(pre, x)
    ensures HasNode(m, Last(pre).at) && m[Last(pre).at].blockSize == Last(pre).size
    ensures var m' := m[Last(pre).at := m[Last(pre).at].(blockSize := Last(pre).size + y.size, next := m[y.at].next)];
            Linked3(m', ms, BeforeJoin(pre, x), JoinPrev(pre, x, y), rest)
  {
    NotAmong(ms, pre, y, rest);
    Relink(m, pre, y.at, y.at);
    var q, l := Init(pre), Last(pre);
    SplitLast(pre);
    LinkedJoin(m, q, [l], y.at);
    var m' := m[l.at := m[l.at].(blockSize := l.size + y.size, next := m[y.at].next)];
    LinkedFrame(m, m', q, l.at);
    LinkedFrame(m, m', rest, 0);
    if q == [] { assert pre[0] == l; } else { assert pre[0] == q[0]; }
  }

  lemma Fits2(ms: int, pre: seq<Block>, x: Block, post: seq<Block>)
    requires Fits(ms, pre, x, post)
    ensures Fits(ms, pre, JoinNext(x, post), AfterJoin(x, post))
    ensures Fits(ms, BeforeJoin(pre, x), Joined(pre, x, post), AfterJoin(x, post))
  {
    var y, rest := JoinNext(x, post), AfterJoin(x, post);
    if TouchesNext(x, post) { OrderedAt(post, 0); }
    if rest != [] && TouchesNext(x, post) { OrderedPair(post, 0, 1); }
    if TouchesPrev(pre, x) {
      OrderedAt(pre, |pre| - 1);
      SplitLast(pre);
      OrderedParts(Init(pre), [Last(pre)]);
      if |pre| > 1 { OrderedPair(pre, 0, |pre| - 1); OrderedAt(pre, 0); }
    }
  }

  // ---------- the code ----------

  function RoundPage(n: int): int { (n + (PGSIZE - 1)) / PGSIZE * PGSIZE }

  lemma LinkedAt(m: Mem, bs: seq<Block>, to: int, k: nat)
    requires Linked(m, bs, to) && k < |bs|
    ensures IsNode(m, bs[k], Front(bs[k + 1..], to))
  {
    assert bs == bs[..k] + bs[k..];
    LinkedJoin(m, bs[..k], bs[k..], to);
    assert bs[k..][1..] == bs[k + 1..];
  }

  lemma LastBigSnoc(bs: seq<Block>, k: nat)
    requires k < |bs|
    ensures LastBig(bs[..k + 1]) == if Big(bs[k]) then bs[k].at else LastBig(bs[..k])
  {
    assert Init(bs[..k + 1]) == bs[..k];
  }

  lemma ChainedOne(m: Mem, b: Block, to: int)
    requires HasNode(m, b.at) && (Big(b) ==> m[b.at].nextBig == to)
    ensures Chained(m, [b], to) && FirstBig([b], to) == if Big(b) then b.at else to
  {
    assert [b][1..] == [];
  }

  lemma ChainWhole(m: Mem, pre: seq<Block>, b: Block, post: seq<Block>)
    requires Chained(m, pre, FirstBig([b], FirstBig(post, 0)))
    requires Chained(m, [b], FirstBig(post, 0)) && Chained(m, post, 0)
    ensures Chained(m, pre + [b] + post, 0)
    ensures FirstBig(pre + [b] + post, 0) == FirstBig(pre, FirstBig([b], FirstBig(post, 0)))
  {
    ChainedJoin(m, [b], post, 0);
    FirstBigJoin([b], post, 0);
    ChainedJoin(m, pre, [b] + post, 0);
    FirstBigJoin(pre, [b] + post, 0);
    assert pre + [b] + post == pre + ([b] + post);
  }

  lemma PreApart(ms: int, pre: seq<Block>, x: Block, post: seq<Block>, a: int)
    requires Fits(ms, pre, x, post) && Starts(pre, a)
    ensures ms < a < x.at && !Starts(post, a)
  {
    var i :| 0 <= i < |pre| && pre[i].at == a;
    OrderedAt(pre, i);
    OrderedAt(pre, |pre| - 1);
    if i < |pre| - 1 { OrderedPair(pre, i, |pre| - 1); }
    NoStartBelow(post, a);
  }

  /** A block at offset off that reaches the end of a pool of length len may be cut to a
      whole page boundary that leaves it at least a header, and the pool with it. */
  ghost predicate Trimmed(len: int, len': int, off: int, size: int, size': int) {
    || (len' == len && size' == size)
    || (off + size == len && len' < len && len' == RoundPage(off + MHDR) && size' == len' - off && size >= PGSIZE)
  }

  ghost predicate InsertReady(m: Mem, ms: int, x: Block, bs: seq<Block>) {
    && ListAt(m, ms, bs) && Inside(bs, ms + MSET, ms + m[ms].len) && Apart(bs, x)
    && ms + MSET <= x.at && MHDR <= x.size && End(x) <= ms + m[ms].len
  }

  /** The pool's record and its free list after x went back. */
  ghost predicate Inserted(p: Cell, p': Cell, ms: int, x: Block, bs: seq<Block>, out: seq<Block>)
    requires p.Pool? && p'.Pool?
  {
    var pre, post := bs[..Spot(bs, x.at)], bs[Spot(bs, x.at)..];
    var y := Joined(pre, x, post);
    exists size :: InsertedAs(p, p', ms, BeforeJoin(pre, x), y, AfterJoin(x, post), size, out)
  }

  ghost predicate InsertedAs(p: Cell, p': Cell, ms: int, pre: seq<Block>, y: Block, post: seq<Block>, size: int,
                             out: seq<Block>)
    requires p.Pool? && p'.Pool?
  {
    && Trimmed(p.len, p'.len, y.at - ms, y.size, size) && out == pre + [Block(y.at, size)] + post
    && p' == p.(freelist := p'.freelist, big := p'.big, len := p'.len,
                size := if p'.len < p.len && p.size > p'.len then p'.len else p.size,
                maxFree := if size > p.maxFree then size else p.maxFree)
  }

  lemma SplitList(m: Mem, ms: int, x: Block, bs: seq<Block>)
    requires InsertReady(m, ms, x, bs)
    ensures var (pre, post) := (bs[..Spot(bs, x.at)], bs[Spot(bs, x.at)..]);
            bs == pre + post && Fits(ms, pre, x, post) && Linked2(m, ms, pre, post)
  {
    var pre, post := bs[..Spot(bs, x.at)], bs[Spot(bs, x.at)..];
    AroundSpot(bs, x);
    LinkedJoin(m, pre, post, 0);
    if post != [] { OrderedAt(bs, |pre|); OrderedAt(bs, 0); }
  }

  /** Writing a node where the freed block is leaves the list alone. */
  lemma NodeWritten(m: Mem, m': Mem, ms: int, x: Block, bs: seq<Block>)
    requires InsertReady(m, ms, x, bs) && x.at in m' && m' == m[x.at := m'[x.at]]
    ensures InsertReady(m', ms, x, bs)
  {
    var pre, post := bs[..Spot(bs, x.at)], bs[Spot(bs, x.at)..];
    SplitList(m, ms, x, bs);
    NotAmong(ms, pre, x, post);
    StartsParts(pre, post, x.at);
    LinkedFrame(m, m', bs, 0);
  }

  lemma NodesAround(m: Mem, ms: int, pre: seq<Block>, post: seq<Block>)
    requires Linked2(m, ms, pre, post)
    ensures pre != [] ==> HasNode(m, Last(pre).at) && m[Last(pre).at].blockSize == Last(pre).size
    ensures post != [] ==> HasNode(m, post[0].at) && m[post[0].at].blockSize == post[0].size
  {
    if pre != [] { LinkedAt(m, pre, Front(post, 0), |pre| - 1); }
  }

  lemma SplitChain(m0: Mem, m: Mem, ms: int, x: Block, bs: seq<Block>, pre: seq<Block>, post: seq<Block>)
    requires InsertReady(m0, ms, x, bs) && ChainAt(m0, ms, bs) && Fits(ms, pre, x, post) && bs == pre + post
    requires HasPool(m, ms) && m[ms] == m0[ms] && forall a :: a != x.at ==> Same(m0, m, a)
    ensures var t := FirstBig(post, 0);
            && Chained(m, pre, t) && Chained(m, post, 0) && m[ms].big == FirstBig(pre, t)
            && (LastBig(pre) == 0 ==> m[ms].big == t)
            && (LastBig(pre) != 0 ==> HasNode(m, LastBig(pre)) && m[LastBig(pre)].nextBig == t)
  {
    NotAmong(ms, pre, x, post);
    ChainedJoin(m0, pre, post, 0);
    FirstBigJoin(pre, post, 0);
    var t := FirstBig(post, 0);
    ChainedFrame(m0, m, pre, t);
    ChainedFrame(m0, m, post, 0);
    if LastBig(pre) == 0 { NoBigLeadsOn(m, pre, t, t); } else { Rechain(m, pre, t, t); }
  }

  /** What the last big block before the joined one leads to. */
  ghost function ChainTarget(pre: seq<Block>, x: Block, post: seq<Block>): int {
    FirstBig(if TouchesPrev(pre, x) then [Last(pre)] else [], FirstBig(post, 0))
  }

  /** Joining leaves the chain up to the joined block as it was. */
  lemma CarryChain(m1: Mem, m2: Mem, ms: int, x: Block, pre: seq<Block>, post: seq<Block>)
    requires Chained(m1, pre, FirstBig(post, 0)) && Chained(m1, post, 0) && KeepsBig(m1, m2)
    requires HasPool(m1, ms) && HasPool(m2, ms) && m2[ms].big == m1[ms].big == FirstBig(pre, FirstBig(post, 0))
    ensures var t := ChainTarget(pre, x, post);
            && Chained(m2, BeforeJoin(pre, x), t) && Chained(m2, AfterJoin(x, post), 0)
            && m2[ms].big == FirstBig(BeforeJoin(pre, x), t)
  {
    var t := FirstBig(post, 0);
    ChainedKeep(m1, m2, pre, t);
    ChainedKeep(m1, m2, post, 0);
    if TouchesPrev(pre, x) {
      SplitLast(pre);
      ChainedJoin(m2, Init(pre), [Last(pre)], t);
      FirstBigJoin(Init(pre), [Last(pre)], t);
    }
  }

  lemma LastStarts(bs: seq<Block>, pre: seq<Block>, post: seq<Block>)
    requires bs == pre + post
    ensures pre != [] ==> Starts(bs, Last(pre).at)
  {
    if pre != [] { assert bs[|pre| - 1].at == Last(pre).at; }
  }

  lemma JoinedStarts(bs: seq<Block>, pre: seq<Block>, x: Block, post: seq<Block>)
    requires bs == pre + post
    ensures Joined(pre, x, post).at == x.at || Starts(bs, Joined(pre, x, post).at)
    ensures forall k :: Starts(BeforeJoin(pre, x), k) ==> Starts(bs, k)
  {
    LastStarts(bs, pre, post);
    forall k | Starts(BeforeJoin(pre, x), k) ensures Starts(bs, k) {
      var i :| 0 <= i < |BeforeJoin(pre, x)| && BeforeJoin(pre, x)[i].at == k;
      assert bs[i].at == k;
    }
  }

  /** Which chained block comes before the joined one. */
  lemma BeforeIs(ms: int, pre: seq<Block>, x: Block, post: seq<Block>)
    requires Fits(ms, pre, x, post)
    ensures var bigBefore := if pre != [] then LastBig(Init(pre)) else 0;
            LastBig(BeforeJoin(pre, x)) ==
              if Joined(pre, x, post).at == LastAt(pre) then bigBefore
              else if pre != [] && Big(Last(pre)) then LastAt(pre) else bigBefore
  {
    NotAmong(ms, pre, x, post);
  }

  lemma InsertedFrom(p: Cell, p1: Cell, p': Cell, ms: int, x: Block, bs: seq<Block>, size: int, out: seq<Block>)
    requires p.Pool? && p1.Pool? && p'.Pool? && p1 == p.(freelist := p1.freelist)
    requires var pre, post := bs[..Spot(bs, x.at)], bs[Spot(bs, x.at)..];
             InsertedAs(p1, p', ms, BeforeJoin(pre, x), Joined(pre, x, post), AfterJoin(x, post), size, out)
    ensures Inserted(p, p', ms, x, bs, out)
  {
    var pre, post := bs[..Spot(bs, x.at)], bs[Spot(bs, x.at)..];
    assert InsertedAs(p, p', ms, BeforeJoin(pre, x), Joined(pre, x, post), AfterJoin(x, post), size, out);
  }

  /** The joined block touches neither neighbour. */
  lemma StrictGaps(bs: seq<Block>, pre: seq<Block>, x: Block, post: seq<Block>)
    requires Ordered(bs) && bs == pre + post && x.size > 0
    requires (pre != [] ==> End(Last(pre)) <= x.at) && (post != [] ==> End(x) <= post[0].at)
    ensures var pre', y, post' := BeforeJoin(pre, x), Joined(pre, x, post), AfterJoin(x, post);
            (pre' != [] ==> End(Last(pre')) < y.at) && (post' != [] ==> End(y) < post'[0].at)
  {
    OrderedParts(pre, post);
    if TouchesPrev(pre, x) && |pre| > 1 { OrderedPair(pre, |pre| - 2, |pre| - 1); }
    if TouchesNext(x, post) && |post| > 1 { OrderedPair(post, 0, 1); }
  }

  /** Changing the middle block's size and the pool's bounds. */
  lemma ResizeMiddle(m: Mem, m': Mem, ms: int, pre: seq<Block>, y: Block, post: seq<Block>, size: int)
    requires Fits(ms, pre, y, post) && Linked3(m, ms, pre, y, post) && HasPool(m', ms) && 0 < size <= y.size
    requires m' == m[ms := m'[ms]][y.at := m[y.at].(blockSize := size)] && m'[ms].freelist == m[ms].freelist
    ensures Linked3(m', ms, pre, Block(y.at, size), post) && Fits(ms, pre, Block(y.at, size), post) && KeepsBig(m, m')
  {
    NotAmong(ms, pre, y, post);
    LinkedFrame(m, m', pre, y.at);
    LinkedFrame(m, m', post, 0);
  }

  ghost predicate OnlyBig(m: Mem, m': Mem) {
    forall a :: HasNode(m, a) ==> HasNode(m', a) && m'[a] == m[a].(nextBig := m'[a].nextBig)
  }

  lemma {:induction false} LinkedKeep(m: Mem, m': Mem, bs: seq<Block>, to: int)
    requires Linked(m, bs, to) && OnlyBig(m, m')
    ensures Linked(m', bs, to)
  {
    if bs != [] { LinkedKeep(m, m', bs[1..], to); }
  }

  lemma LinkedKeep3(m: Mem, m': Mem, ms: int, pre: seq<Block>, y: Block, post: seq<Block>)
    requires Linked3(m, ms, pre, y, post) && OnlyBig(m, m') && HasPool(m', ms) && m'[ms].freelist == m[ms].freelist
    ensures Linked3(m', ms, pre, y, post)
  {
    LinkedKeep(m, m', pre, y.at);
    LinkedKeep(m, m', post, 0);
  }

  lemma WholeList(m: Mem, ms: int, pre: seq<Block>, y: Block, post: seq<Block>)
    requires Linked3(m, ms, pre, y, post) && Fits(ms, pre, y, post)
    requires (pre != [] ==> End(Last(pre)) < y.at) && (post != [] ==> End(y) < post[0].at)
    ensures ListAt(m, ms, pre + [y] + post)
  {
    assert [y][1..] == [];
    LinkedJoin(m, [y], post, 0);
    LinkedJoin(m, pre, [y] + post, 0);
    OrderedJoin([y], post);
    OrderedJoin(pre, [y] + post);
    assert pre + [y] + post == pre + ([y] + post);
  }

  /** Writing a pool's record without touching its lists' heads. */
  lemma PoolWrite(m: Mem, m': Mem, ms: int, bs: seq<Block>, chained: bool)
    requires ListAt(m, ms, bs) && (chained ==> ChainAt(m, ms, bs))
    requires HasPool(m', ms) && m' == m[ms := m'[ms]] && m'[ms].freelist == m[ms].freelist && m'[ms].big == m[ms].big
    ensures ListAt(m', ms, bs) && (chained ==> ChainAt(m', ms, bs))
  {
    NoStartBelow(bs, ms);
    LinkedFrame(m, m', bs, 0);
    if chained { ChainedFrame(m, m', bs, 0); }
  }

  class Memory {
    var mem: Mem

    constructor ()
      ensures mem == map[]
    {
      mem := map[];
    }

    /** The sorted position of an address: the node before it, the one after it and, for a
        chained list, the big block before the node before it. 0 stands for none. */
    method FindSpot(ms: int, at: int, chained: bool, ghost bs: seq<Block>)
      returns (prevNode: int, cur: int, bigBefore: int)
      requires ListAt(mem, ms, bs)
      ensures var pre, post := bs[..Spot(bs, at)], bs[Spot(bs, at)..];
              && prevNode == LastAt(pre) && cur == Front(post, 0)
              && bigBefore == if chained && pre != [] then LastBig(Init(pre)) else 0
    {
      prevNode, cur, bigBefore := 0, mem[ms].freelist, 0;
      ghost var k: nat := 0;
      while cur != 0 && cur < at
        invariant k <= |bs| && (k > 0 ==> bs[k - 1].at < at)
        invariant prevNode == LastAt(bs[..k]) && cur == Front(bs[k..], 0)
        invariant bigBefore == if chained && k > 0 then LastBig(bs[..k - 1]) else 0
        decreases |bs| - k
      {
        LinkedAt(mem, bs, 0, k);
        if k > 0 {
          LinkedAt(mem, bs, 0, k - 1);
          LastBigSnoc(bs, k - 1);
          OrderedAt(bs, k - 1);
        }
        if chained && prevNode != 0 && mem[prevNode].blockSize >= RETIRED_FIT_MIN {
          bigBefore := prevNode;
        }
        prevNode := cur;
        cur := mem[cur].next;
        k := k + 1;
      }
      if k < |bs| { OrderedAt(bs, k); }
      SpotIs(bs, at, k);
      if k > 0 { assert Init(bs[..k]) == bs[..k - 1]; }
    }

    method Attach(ms: int, x: int, prevNode: int, cur: int, ghost pre: seq<Block>, ghost size: int,
                  ghost post: seq<Block>)
      requires Fits(ms, pre, Block(x, size), post) && Linked2(mem, ms, pre, post)
      requires HasNode(mem, x) && mem[x].blockSize == size && prevNode == LastAt(pre) && cur == Front(post, 0)
      modifies this
      ensures Linked3(mem, ms, pre, Block(x, size), post)
      ensures KeepsBig(old(mem), mem) && SameBut3(old(mem), mem, ms, x, prevNode)
      ensures mem[ms] == old(mem)[ms].(freelist := mem[ms].freelist)
    {
      NotAmong(ms, pre, Block(x, size), post);
      Attached(mem, ms, pre, Block(x, size), post, mem[x].nextBig);
      mem := mem[x := mem[x].(next := cur)];
      mem := WithLink(mem, ms, prevNode, x);
    }

    method JoinAfter(ms: int, x: int, cur: int, bigAfter0: int, chained: bool, curWasBig: bool,
                     ghost pre: seq<Block>, ghost size: int, ghost post: seq<Block>)
      returns (bigAfter: int)
      requires Fits(ms, pre, Block(x, size), post) && Linked3(mem, ms, pre, Block(x, size), post)
      requires cur == Front(post, 0) && curWasBig == (post != [] && Big(post[0]))
      requires chained ==> Chained(mem, post, 0) && bigAfter0 == FirstBig(post, 0)
      modifies this
      ensures Linked3(mem, ms, pre, JoinNext(Block(x, size), post), AfterJoin(Block(x, size), post))
      ensures chained ==> bigAfter == FirstBig(AfterJoin(Block(x, size), post), 0)
      ensures KeepsBig(old(mem), mem) && forall a :: a != x ==> Same(old(mem), mem, a)
    {
      ghost var b := Block(x, size);
      bigAfter := bigAfter0;
      if post != [] { OrderedAt(post, 0); }
      if cur != 0 && x + mem[x].blockSize == cur {
        JoinedAfter(mem, ms, pre, b, post);
        if chained && curWasBig { bigAfter := mem[cur].nextBig; }
        mem := mem[x := mem[x].(blockSize := mem[x].blockSize + mem[cur].blockSize, next := mem[cur].next)];
      }
    }

    method JoinBefore(ms: int, x: int, prevNode: int, ghost pre: seq<Block>, ghost size: int, ghost y: Block,
                      ghost rest: seq<Block>)
      returns (fn: int)
      requires x == y.at && prevNode == LastAt(pre) && Fits(ms, pre, y, rest) && Linked3(mem, ms, pre, y, rest)
      modifies this
      ensures var b := Block(x, size);
              Linked3(mem, ms, BeforeJoin(pre, b), JoinPrev(pre, b, y), rest) && fn == JoinPrev(pre, b, y).at
      ensures KeepsBig(old(mem), mem) && forall a :: a != prevNode ==> Same(old(mem), mem, a)
      ensures prevNode == 0 ==> mem == old(mem)
    {
      fn := x;
      NotAmong(ms, pre, y, rest);
      if pre != [] { Relink(mem, pre, x, x); }
      if prevNode != 0 && prevNode + mem[prevNode].blockSize == x {
        JoinedBefore(mem, ms, pre, Block(x, size), y, rest);
        mem := mem[prevNode := mem[prevNode].(blockSize := mem[prevNode].blockSize + mem[x].blockSize,
                                              next := mem[x].next)];
        fn := prevNode;
      }
    }

    /** Links the node at x in between prevNode and cur and joins it with those it touches. */
    method LinkIn(ms: int, x: int, prevNode: int, cur: int, bigAfter0: int, chained: bool, curWasBig: bool,
                  ghost pre: seq<Block>, ghost size: int, ghost post: seq<Block>)
      returns (fn: int, bigAfter: int)
      requires Fits(ms, pre, Block(x, size), post) && Linked2(mem, ms, pre, post)
      requires HasNode(mem, x) && mem[x].blockSize == size
      requires prevNode == LastAt(pre) && cur == Front(post, 0) && curWasBig == (post != [] && Big(post[0]))
      requires chained ==> Chained(mem, post, 0) && bigAfter0 == FirstBig(post, 0)
      modifies this
      ensures var b := Block(x, size);
              && Linked3(mem, ms, BeforeJoin(pre, b), Joined(pre, b, post), AfterJoin(b, post))
              && fn == Joined(pre, b, post).at
              && (chained ==> bigAfter == FirstBig(AfterJoin(b, post), 0))
      ensures KeepsBig(old(mem), mem) && SameBut3(old(mem), mem, ms, x, prevNode)
      ensures mem[ms] == old(mem)[ms].(freelist := mem[ms].freelist)
    {
      ghost var b := Block(x, size);
      NotAmong(ms, pre, b, post);
      ghost var m0 := mem;
      Attach(ms, x, prevNode, cur, pre, size, post);
      ghost var mA := mem;
      if chained { ChainedKeep(m0, mem, post, 0); }
      bigAfter := JoinAfter(ms, x, cur, bigAfter0, chained, curWasBig, pre, size, post);
      Fits2(ms, pre, b, post);
      ghost var m1 := mem;
      fn := JoinBefore(ms, x, prevNode, pre, size, JoinNext(b, post), AfterJoin(b, post));
      assert Same(mA, m1, ms) && (prevNode != 0 ==> Same(m1, mem, ms));
      forall k | k != ms && k != x && (prevNode == 0 || k != prevNode) ensures Same(m0, mem, k) {
        assert Same(m0, mA, k) && Same(mA, m1, k) && Same(m1, mem, k);
      }
    }

    /** Gives the whole pages of a retired pool from byte offset start to its end back to the
        system, unless that refuses. */
    method PoolTrimEnd(kernel: Kernel, ms: int, start: int) returns (len: int)
      requires kernel.Valid() && HasPool(mem, ms) && ms in kernel.maps && kernel.maps[ms] == mem[ms].len && start > 0
      modifies this, kernel`maps
      ensures kernel.Valid() && kernel.maps == old(kernel.maps)[ms := len]
      ensures var p := old(mem)[ms];
              && mem == old(mem)[ms := p.(len := len, size := if len < p.len && p.size > len then len else p.size)]
              && (len == p.len || (len == RoundPage(start) < p.len))
    {
      var keep := RoundPage(start);
      if keep >= mem[ms].len { return mem[ms].len; }
      var ok := kernel.Mremap(ms, mem[ms].len, keep);
      if ok {
        mem := mem[ms := mem[ms].(len := keep)];
        if mem[ms].size > keep {
          mem := mem[ms := mem[ms].(size := keep)];
        }
      }
      return mem[ms].len;
    }

    /** Puts the block at fn into the chain of big blocks, if it is big, between before and
        bigAfter. */
    method ChainIn(ms: int, fn: int, before: int, bigAfter: int, ghost pre: seq<Block>, ghost size: int,
                   ghost post: seq<Block>, ghost t: int)
      requires HasPool(mem, ms) && HasNode(mem, fn) && mem[fn].blockSize == size
      requires Fits(ms, pre, Block(fn, size), post)
      requires mem[ms].big == FirstBig(pre, t) && Chained(mem, pre, t) && Chained(mem, post, 0)
      requires before == LastBig(pre) && bigAfter == FirstBig(post, 0)
      modifies this
      ensures ChainAt(mem, ms, pre + [Block(fn, size)] + post)
      ensures OnlyBig(old(mem), mem)
      ensures mem[ms] == old(mem)[ms].(big := mem[ms].big)
      ensures SameElsewhere(old(mem), mem, ms, fn, pre)
    {
      hide Chained, Ordered, LastBig;
      ghost var b := Block(fn, size);
      NotAmong(ms, pre, b, post);
      var link := bigAfter;
      if mem[fn].blockSize >= RETIRED_FIT_MIN {
        ghost var m0 := mem;
        mem := WithBig(mem, fn, bigAfter);
        link := fn;
        ChainedFrame(m0, mem, pre, t);
        ChainedFrame(m0, mem, post, 0);
      }
      ChainedOne(mem, b, bigAfter);
      if before != 0 {
        ghost var m0 := mem;
        Rechain(mem, pre, t, link);
        mem := WithBig(mem, before, link);
        PreApart(ms, pre, b, post, before);
        ChainedFrame(m0, mem, post, 0);
        ChainedFrame(m0, mem, [b], bigAfter);
      } else {
        ghost var m0 := mem;
        NoBigLeadsOn(mem, pre, t, link);
        mem := mem[ms := mem[ms].(big := link)];
        ChainedFrame(m0, mem, pre, link);
        ChainedFrame(m0, mem, post, 0);
        ChainedFrame(m0, mem, [b], bigAfter);
      }
      ChainWhole(mem, pre, b, post);
    }

    /** A retired pool's free block that reaches its end: hands its whole pages back. */
    method TrimBlock(kernel: Kernel, ms: int, fn: int, current: bool, ghost size: int) returns (ghost size': int)
      requires kernel.Valid() && HasPool(mem, ms) && HasNode(mem, fn) && mem[fn].blockSize == size && ms < fn
      requires !current ==> ms in kernel.maps && kernel.maps[ms] == mem[ms].len
      modifies this, kernel`maps
      ensures HasPool(mem, ms) && HasNode(mem, fn)
      ensures kernel.Valid() && kernel.maps == if current then old(kernel.maps) else old(kernel.maps)[ms := mem[ms].len]
      ensures var p, p' := old(mem)[ms], mem[ms];
              && p' == p.(len := p'.len, size := if p'.len < p.len && p.size > p'.len then p'.len else p.size)
              && mem == old(mem)[ms := p'][fn := old(mem)[fn].(blockSize := size')]
              && Trimmed(p.len, p'.len, fn - ms, size, size')
      ensures current ==> mem == old(mem) && size' == size
    {
      size' := size;
      if !current && fn + mem[fn].blockSize == ms + mem[ms].len && mem[fn].blockSize >= PGSIZE {
        var off := fn - ms;
        var len := PoolTrimEnd(kernel, ms, off + MHDR);
        if len < off + mem[fn].blockSize {
          mem := mem[fn := mem[fn].(blockSize := len - off)];
          size' := len - off;
        }
      }
    }

    /** Writes the node of a freed block and finds its place. */
    method Locate(ms: int, at: int, size: int, chained: bool, ghost bs: seq<Block>, ghost pre: seq<Block>,
                  ghost post: seq<Block>)
      returns (prevNode: int, cur: int, bigBefore: int, bigAfter: int, prevWasBig: bool, curWasBig: bool)
      requires InsertReady(mem, ms, Block(at, size), bs) && (chained ==> ChainAt(mem, ms, bs))
      requires pre == bs[..Spot(bs, at)] && post == bs[Spot(bs, at)..]
      modifies this
      ensures Fits(ms, pre, Block(at, size), post) && Linked2(mem, ms, pre, post)
      ensures HasNode(mem, at) && mem[at].blockSize == size && bs == pre + post
      ensures prevNode == LastAt(pre) && cur == Front(post, 0)
      ensures prevWasBig == (pre != [] && Big(Last(pre))) && curWasBig == (post != [] && Big(post[0]))
      ensures chained ==>
        && Chained(mem, pre, FirstBig(post, 0)) && Chained(mem, post, 0)
        && mem[ms].big == FirstBig(pre, FirstBig(post, 0))
        && bigAfter == FirstBig(post, 0) && bigBefore == if pre != [] then LastBig(Init(pre)) else 0
      ensures mem == old(mem)[at := mem[at]]
    {
      hide Ordered, Linked, Chained, Apart, Inside;
      ghost var x := Block(at, size);
      ghost var m0 := mem;
      var junkNext, junkBig: int := *, *;
      mem := mem[at := Node(junkNext, size, junkBig)];
      NodeWritten(m0, mem, ms, x, bs);
      prevNode, cur, bigBefore := FindSpot(ms, at, chained, bs);
      SplitList(mem, ms, x, bs);
      assert pre != [] ==> ms < Last(pre).at by { NotAmong(ms, pre, x, post); }
      NodesAround(mem, ms, pre, post);
      prevWasBig := prevNode != 0 && mem[prevNode].blockSize >= RETIRED_FIT_MIN;
      curWasBig := cur != 0 && mem[cur].blockSize >= RETIRED_FIT_MIN;
      bigAfter := 0;
      if chained {
        SplitChain(m0, mem, ms, x, bs, pre, post);
        bigAfter := if prevWasBig then mem[prevNode].nextBig else if bigBefore != 0 then mem[bigBefore].nextBig
            else mem[ms].big;
      }
    }

    /** Writes the node of a freed block and links it in, joined with the blocks it touches.
        before and bigAfter are the chained blocks around the one it ends up in. */
    method LinkFreed(ms: int, at: int, size: int, chained: bool, ghost bs: seq<Block>, ghost pre: seq<Block>,
                     ghost post: seq<Block>)
      returns (fn: int, before: int, bigAfter: int)
      requires InsertReady(mem, ms, Block(at, size), bs) && (chained ==> ChainAt(mem, ms, bs))
      requires pre == bs[..Spot(bs, at)] && post == bs[Spot(bs, at)..]
      modifies this
      ensures var x := Block(at, size);
              && Linked3(mem, ms, BeforeJoin(pre, x), Joined(pre, x, post), AfterJoin(x, post))
              && Fits(ms, BeforeJoin(pre, x), Joined(pre, x, post), AfterJoin(x, post))
              && fn == Joined(pre, x, post).at
      ensures chained ==>
        var x := Block(at, size);
        && Chained(mem, BeforeJoin(pre, x), ChainTarget(pre, x, post)) && Chained(mem, AfterJoin(x, post), 0)
        && mem[ms].big == FirstBig(BeforeJoin(pre, x), ChainTarget(pre, x, post))
        && before == LastBig(BeforeJoin(pre, x)) && bigAfter == FirstBig(AfterJoin(x, post), 0)
      ensures SameElsewhere(old(mem), mem, ms, at, bs)
      ensures mem[ms] == old(mem)[ms].(freelist := mem[ms].freelist)
    {
      hide FirstBig, LastBig, Chained, Linked, Linked2, Linked3, Ordered, BeforeJoin, AfterJoin, Joined, ChainTarget,
          KeepsBig, InsertReady, Apart, Inside;
      ghost var x := Block(at, size);
      ghost var m0 := mem;
      var prevNode, cur, bigBefore, bigAfter0, prevWasBig, curWasBig := Locate(ms, at, size, chained, bs, pre, post);
      ghost var m1 := mem;
      fn, bigAfter := LinkIn(ms, at, prevNode, cur, bigAfter0, chained, curWasBig, pre, size, post);
      Fits2(ms, pre, x, post);
      before := if fn == prevNode then bigBefore else if prevWasBig then prevNode else bigBefore;
      if chained {
        CarryChain(m1, mem, ms, x, pre, post);
        BeforeIs(ms, pre, x, post);
      }
      LastStarts(bs, pre, post);
      forall k | k != ms && k != at && !Starts(bs, k) ensures Same(m0, mem, k) {
        assert Same(m1, mem, k);
      }
    }

    /** Puts a freed block into a pool's sorted free list, joining it with its neighbours. In
        a retired pool this keeps the chain of big blocks and may shorten the pool. */
    method FreelistInsert(kernel: Kernel, ms: int, at: int, size: int, current: bool, ghost bs: seq<Block>)
      returns (ghost out: seq<Block>)
      requires kernel.Valid() && InsertReady(mem, ms, Block(at, size), bs)
      requires !current ==> ChainAt(mem, ms, bs) && ms in kernel.maps && kernel.maps[ms] == mem[ms].len
      modifies this, kernel`maps
      ensures ListAt(mem, ms, out) && (!current ==> ChainAt(mem, ms, out))
      ensures kernel.Valid() && kernel.maps == if current then old(kernel.maps) else old(kernel.maps)[ms := mem[ms].len]
      ensures SameElsewhere(old(mem), mem, ms, at, bs)
      ensures Inserted(old(mem)[ms], mem[ms], ms, Block(at, size), bs, out)
      ensures current ==> mem[ms].len == old(mem)[ms].len && mem[ms].big == old(mem)[ms].big
    {
      ghost var x := Block(at, size);
      ghost var pre, post := bs[..Spot(bs, at)], bs[Spot(bs, at)..];
      SplitList(mem, ms, x, bs);
      ghost var m0 := mem;
      var fn, before, bigAfter := LinkFreed(ms, at, size, !current, bs, pre, post);
      ghost var m1 := mem;
      StrictGaps(bs, pre, x, post);
      ghost var cut;
      out, cut := Settle(kernel, ms, fn, before, bigAfter, current, BeforeJoin(pre, x), Joined(pre, x, post),
                         AfterJoin(x, post),
                    ChainTarget(pre, x, post));
      InsertedFrom(m0[ms], m1[ms], mem[ms], ms, x, bs, cut, out);
      JoinedStarts(bs, pre, x, post);
      forall k | k != ms && k != at && !Starts(bs, k) ensures Same(m0, mem, k) {
        assert Same(m0, m1, k) && Same(m1, mem, k);
      }
    }

    /** The second half of freelist_insert: trims the pool if the joined block reaches its
        end, puts the block into the chain and raises the bound on block sizes. */
    method Settle(kernel: Kernel, ms: int, fn: int, before: int, bigAfter: int, current: bool,
                  ghost pre: seq<Block>, ghost y: Block, ghost post: seq<Block>, ghost t: int)
      returns (ghost out: seq<Block>, ghost size: int)
      requires kernel.Valid() && Linked3(mem, ms, pre, y, post) && Fits(ms, pre, y, post) && fn == y.at
      requires (pre != [] ==> End(Last(pre)) < y.at) && (post != [] ==> End(y) < post[0].at)
      requires !current ==> ms in kernel.maps && kernel.maps[ms] == mem[ms].len
      requires !current ==>
        && Chained(mem, pre, t) && Chained(mem, post, 0) && mem[ms].big == FirstBig(pre, t)
        && before == LastBig(pre) && bigAfter == FirstBig(post, 0)
      modifies this, kernel`maps
      ensures ListAt(mem, ms, out) && (!current ==> ChainAt(mem, ms, out))
      ensures kernel.Valid() && kernel.maps == if current then old(kernel.maps) else old(kernel.maps)[ms := mem[ms].len]
      ensures SameElsewhere(old(mem), mem, ms, fn, pre)
      ensures InsertedAs(old(mem)[ms], mem[ms], ms, pre, y, post, size, out)
      ensures current ==> mem[ms].len == old(mem)[ms].len && mem[ms].big == old(mem)[ms].big
    {
      ghost var m1 := mem;
      size := TrimBlock(kernel, ms, fn, current, y.size);
      ghost var y' := Block(fn, size);
      ResizeMiddle(m1, mem, ms, pre, y, post, size);
      ghost var m2 := mem;
      if !current {
        ChainedKeep(m1, m2, pre, t);
        ChainedKeep(m1, m2, post, 0);
        ChainIn(ms, fn, before, bigAfter, pre, size, post, t);
        LinkedKeep3(m2, mem, ms, pre, y', post);
      }
      ghost var m3 := mem;
      if mem[fn].blockSize > mem[ms].maxFree {
        mem := mem[ms := mem[ms].(maxFree := mem[fn].blockSize)];
      }
      out := pre + [y'] + post;
      WholeList(m3, ms, pre, y', post);
      PoolWrite(m3, mem, ms, out, !current);
      forall k | k != ms && k != fn && !Starts(pre, k) ensures Same(m1, mem, k) {
        assert Same(m2, m3, k);
      }
    }
  }
}
