/** Free lists as values: blocks in address order, no two of them touching. */
module MallocBlocks {
  const PGSIZE := 4096
  const RETIRED_FIT_MIN := 1024
  const MHDR := 8
  const MSET := 32

  datatype Block = Block(at: int, size: int)

  function End(b: Block): int { b.at + b.size }

  predicate Big(b: Block) { b.size >= RETIRED_FIT_MIN }

  function Last(bs: seq<Block>): Block
    requires bs != []
  {
    bs[|bs| - 1]
  }

  function Init(bs: seq<Block>): seq<Block>
    requires bs != []
  {
    bs[..|bs| - 1]
  }

  /** Where a list starts, or where it leads when it is empty. */
  function Front(bs: seq<Block>, to: int): int { if bs == [] then to else bs[0].at }

  function FirstBig(bs: seq<Block>, to: int): int {
    if bs == [] then to else if Big(bs[0]) then bs[0].at else FirstBig(bs[1..], to)
  }

  /** The last big block's address, 0 if there is none. */
  function LastBig(bs: seq<Block>): int {
    if bs == [] then 0 else if Big(Last(bs)) then Last(bs).at else LastBig(Init(bs))
  }

  /** In address order, with a gap after every block. */
  ghost predicate Ordered(bs: seq<Block>) {
    bs == [] || (bs[0].at > 0 && bs[0].size > 0 && (|bs| > 1 ==> End(bs[0]) < bs[1].at) && Ordered(bs[1..]))
  }

  ghost predicate Covers(bs: seq<Block>, a: int) { exists i :: 0 <= i < |bs| && In(bs[i], a) }

  predicate In(b: Block, a: int) { b.at <= a < End(b) }

  predicate Clear(x: Block, y: Block) { End(x) <= y.at || End(y) <= x.at }

  /** x overlaps none of the blocks. */
  ghost predicate Apart(bs: seq<Block>, x: Block) { forall i :: 0 <= i < |bs| ==> Clear(bs[i], x) }

  ghost predicate Starts(bs: seq<Block>, a: int) { exists i :: 0 <= i < |bs| && bs[i].at == a }

  /** All of the blocks lie in [lo, hi). */
  ghost predicate Inside(bs: seq<Block>, lo: int, hi: int) {
    forall i :: 0 <= i < |bs| ==> lo <= bs[i].at && End(bs[i]) <= hi
  }

  // ---------- inserting a freed block ----------

  /** How many leading blocks start below the address. */
  function Spot(bs: seq<Block>, at: int): (k: nat)
    ensures k <= |bs|
  {
    if bs == [] || bs[0].at >= at then 0 else 1 + Spot(bs[1..], at)
  }

  predicate TouchesNext(x: Block, post: seq<Block>) { post != [] && End(x) == post[0].at }

  predicate TouchesPrev(pre: seq<Block>, x: Block) { pre != [] && End(Last(pre)) == x.at }

  /** x joined with the block after it, if they touch. */
  function JoinNext(x: Block, post: seq<Block>): Block {
    if TouchesNext(x, post) then Block(x.at, x.size + post[0].size) else x
  }

  function AfterJoin(x: Block, post: seq<Block>): seq<Block> { if TouchesNext(x, post) then post[1..] else post }

  /** y, which starts where x does, joined with the block before it, if they touch. */
  function JoinPrev(pre: seq<Block>, x: Block, y: Block): Block {
    if TouchesPrev(pre, x) then Block(Last(pre).at, Last(pre).size + y.size) else y
  }

  /** The block that x ends up in. */
  function Joined(pre: seq<Block>, x: Block, post: seq<Block>): Block {
    JoinPrev(pre, x, JoinNext(x, post))
  }

  function BeforeJoin(pre: seq<Block>, x: Block): seq<Block> { if TouchesPrev(pre, x) then Init(pre) else pre }

  function Insert(bs: seq<Block>, x: Block): seq<Block> {
    var (pre, post) := (bs[..Spot(bs, x.at)], bs[Spot(bs, x.at)..]);
    BeforeJoin(pre, x) + [Joined(pre, x, post)] + AfterJoin(x, post)
  }

  // ---------- pieces of ordered lists ----------

  lemma {:induction false} OrderedAt(bs: seq<Block>, i: nat)
    requires Ordered(bs) && i < |bs|
    ensures bs[i].at > 0 && bs[i].size > 0
    ensures i > 0 ==> End(bs[0]) < bs[i].at
  {
    if i > 0 {
      OrderedAt(bs[1..], i - 1);
      assert bs[1..][i - 1] == bs[i];
    }
  }

  lemma {:induction false} OrderedPair(bs: seq<Block>, i: nat, j: nat)
    requires Ordered(bs) && i < j < |bs|
    ensures End(bs[i]) < bs[j].at
  {
    if i == 0 {
      OrderedAt(bs, j);
    } else {
      OrderedPair(bs[1..], i - 1, j - 1);
      assert bs[1..][i - 1] == bs[i] && bs[1..][j - 1] == bs[j];
    }
  }

  lemma {:induction false} OrderedParts(pre: seq<Block>, post: seq<Block>)
    requires Ordered(pre + post)
    ensures Ordered(pre) && Ordered(post)
    ensures pre != [] && post != [] ==> End(Last(pre)) < post[0].at
  {
    if pre == [] {
      assert pre + post == post;
    } else {
      assert (pre + post)[1..] == pre[1..] + post;
      OrderedParts(pre[1..], post);
    }
  }

  lemma {:induction false} OrderedJoin(pre: seq<Block>, post: seq<Block>)
    requires Ordered(pre) && Ordered(post)
    requires pre != [] && post != [] ==> End(Last(pre)) < post[0].at
    ensures Ordered(pre + post)
  {
    if pre == [] {
      assert pre + post == post;
    } else {
      assert (pre + post)[1..] == pre[1..] + post;
      OrderedJoin(pre[1..], post);
    }
  }

  lemma {:induction false} SpotSplits(bs: seq<Block>, at: int)
    requires Ordered(bs)
    ensures var k := Spot(bs, at);
            (k > 0 ==> bs[k - 1].at < at) && (k < |bs| ==> bs[k].at >= at)
  {
    if bs != [] && bs[0].at < at { SpotSplits(bs[1..], at); }
  }

  lemma {:induction false} SpotIs(bs: seq<Block>, at: int, k: nat)
    requires Ordered(bs) && k <= |bs|
    requires (k > 0 ==> bs[k - 1].at < at) && (k < |bs| ==> bs[k].at >= at)
    ensures Spot(bs, at) == k
  {
    if k > 0 {
      if k > 1 { OrderedPair(bs, 0, k - 1); OrderedAt(bs, 0); }
      SpotIs(bs[1..], at, k - 1);
    }
  }

  lemma CoversParts(pre: seq<Block>, post: seq<Block>, a: int)
    ensures Covers(pre + post, a) <==> Covers(pre, a) || Covers(post, a)
  {
    var bs := pre + post;
    if Covers(bs, a) {
      var i :| 0 <= i < |bs| && In(bs[i], a);
      if i < |pre| { assert In(pre[i], a); } else { assert In(post[i - |pre|], a); }
    }
    if Covers(pre, a) {
      var i :| 0 <= i < |pre| && In(pre[i], a);
      assert In(bs[i], a);
    }
    if Covers(post, a) {
      var i :| 0 <= i < |post| && In(post[i], a);
      assert In(bs[|pre| + i], a);
    }
  }

  lemma CoversOne(b: Block, a: int)
    ensures Covers([b], a) <==> In(b, a)
  {
    assert [b][0] == b;
  }

  // ---------- what Insert means ----------

  lemma JoinNextOrdered(x: Block, post: seq<Block>)
    requires x.at > 0 && x.size > 0 && Ordered(post) && (post != [] ==> End(x) <= post[0].at)
    ensures Ordered([JoinNext(x, post)] + AfterJoin(x, post))
  {
    OrderedJoin([JoinNext(x, post)], AfterJoin(x, post));
  }

  lemma JoinNextCovers(x: Block, post: seq<Block>, a: int)
    requires x.size > 0 && (post != [] ==> End(x) <= post[0].at && post[0].size > 0)
    ensures Covers([JoinNext(x, post)] + AfterJoin(x, post), a) <==> In(x, a) || Covers(post, a)
  {
    CoversParts([JoinNext(x, post)], AfterJoin(x, post), a);
    CoversOne(JoinNext(x, post), a);
    if TouchesNext(x, post) {
      assert post == [post[0]] + post[1..];
      CoversParts([post[0]], post[1..], a);
      CoversOne(post[0], a);
    }
  }

  lemma OrderedOne(b: Block)
    requires b.at > 0 && b.size > 0
    ensures Ordered([b])
  {
  }

  lemma JoinPrevOrdered(pre: seq<Block>, x: Block, y: Block, rest: seq<Block>)
    requires Ordered(pre) && Ordered([y] + rest) && x.at == y.at && (pre != [] ==> End(Last(pre)) <= y.at)
    ensures Ordered(BeforeJoin(pre, x) + [JoinPrev(pre, x, y)] + rest)
  {
    hide Ordered;
    var z, pre' := JoinPrev(pre, x, y), BeforeJoin(pre, x);
    OrderedParts([y], rest);
    OrderedAt([y] + rest, 0);
    if TouchesPrev(pre, x) {
      assert pre == Init(pre) + [Last(pre)];
      OrderedParts(Init(pre), [Last(pre)]);
      OrderedAt(pre, |pre| - 1);
    }
    OrderedOne(z);
    OrderedJoin([z], rest);
    OrderedJoin(pre', [z] + rest);
    assert pre' + [z] + rest == pre' + ([z] + rest);
  }

  lemma JoinPrevCovers(pre: seq<Block>, x: Block, y: Block, rest: seq<Block>, a: int)
    requires x.at == y.at && y.size > 0 && (pre != [] ==> Last(pre).size > 0)
    ensures Covers(BeforeJoin(pre, x) + [JoinPrev(pre, x, y)] + rest, a) <==> Covers(pre, a) || Covers([y] + rest, a)
  {
    var z, pre' := JoinPrev(pre, x, y), BeforeJoin(pre, x);
    if TouchesPrev(pre, x) {
      assert pre == Init(pre) + [Last(pre)];
      CoversParts(Init(pre), [Last(pre)], a);
      CoversOne(Last(pre), a);
    }
    assert pre' + [z] + rest == pre' + ([z] + rest);
    CoversParts(pre', [z] + rest, a);
    CoversParts([z], rest, a);
    CoversParts([y], rest, a);
    CoversOne(y, a);
    CoversOne(z, a);
  }

  /** The blocks around the spot for x, where there is room for it. */
  lemma {:induction false} AroundSpot(bs: seq<Block>, x: Block)
    requires Ordered(bs) && x.at > 0 && x.size > 0 && Apart(bs, x)
    ensures var (pre, post) := (bs[..Spot(bs, x.at)], bs[Spot(bs, x.at)..]);
            && bs == pre + post && Ordered(pre) && Ordered(post)
            && (pre != [] ==> End(Last(pre)) <= x.at && Last(pre).size > 0)
            && (post != [] ==> End(x) <= post[0].at && post[0].size > 0)
  {
    hide Ordered, Spot;
    var k := Spot(bs, x.at);
    SpotSplits(bs, x.at);
    assert bs == bs[..k] + bs[k..];
    assert k > 0 ==> Last(bs[..k]) == bs[k - 1];
    OrderedParts(bs[..k], bs[k..]);
    if k < |bs| { assert Clear(bs[k], x); OrderedAt(bs, k); }
    if k > 0 { assert Clear(bs[k - 1], x); OrderedAt(bs, k - 1); }
  }

  /** Inserting keeps the list ordered and without touching blocks. */
  lemma InsertKeepsOrder(bs: seq<Block>, x: Block)
    requires Ordered(bs) && x.at > 0 && x.size > 0 && Apart(bs, x)
    ensures Ordered(Insert(bs, x))
  {
    var pre, post := bs[..Spot(bs, x.at)], bs[Spot(bs, x.at)..];
    AroundSpot(bs, x);
    JoinNextOrdered(x, post);
    JoinPrevOrdered(pre, x, JoinNext(x, post), AfterJoin(x, post));
  }

  /** Inserting adds exactly the bytes of the freed block. */
  lemma InsertAddsBytes(bs: seq<Block>, x: Block, a: int)
    requires Ordered(bs) && x.at > 0 && x.size > 0 && Apart(bs, x)
    ensures Covers(Insert(bs, x), a) <==> Covers(bs, a) || In(x, a)
  {
    var pre, post := bs[..Spot(bs, x.at)], bs[Spot(bs, x.at)..];
    AroundSpot(bs, x);
    JoinNextCovers(x, post, a);
    JoinPrevCovers(pre, x, JoinNext(x, post), AfterJoin(x, post), a);
    CoversParts(pre, post, a);
  }

  /** The bytes determine the list: there is only one way to keep them in order with no two
      blocks touching. */
  lemma {:induction false} OrderedIsCanonical(bs: seq<Block>, cs: seq<Block>)
    requires Ordered(bs) && Ordered(cs) && forall a :: Covers(bs, a) <==> Covers(cs, a)
    ensures bs == cs
    decreases |bs|
  {
    if bs == [] {
      if cs != [] { FirstStart(cs, bs); }
      return;
    }
    assert In(bs[0], bs[0].at) && Covers(cs, bs[0].at);
    FirstStart(bs, cs);
    FirstStart(cs, bs);
    FirstEnd(bs, cs);
    FirstEnd(cs, bs);
    assert bs[0] == cs[0];
    assert bs == [bs[0]] + bs[1..] && cs == [cs[0]] + cs[1..];
    OrderedParts([bs[0]], bs[1..]);
    OrderedParts([cs[0]], cs[1..]);
    forall a ensures Covers(bs[1..], a) <==> Covers(cs[1..], a) {
      TailCovers(bs, a);
      TailCovers(cs, a);
    }
    OrderedIsCanonical(bs[1..], cs[1..]);
  }

  lemma TailCovers(bs: seq<Block>, a: int)
    requires Ordered(bs) && bs != []
    ensures Covers(bs[1..], a) <==> Covers(bs, a) && !In(bs[0], a)
  {
    assert bs == [bs[0]] + bs[1..];
    CoversParts([bs[0]], bs[1..], a);
    CoversOne(bs[0], a);
    if Covers(bs[1..], a) {
      var i :| 0 <= i < |bs[1..]| && In(bs[1..][i], a);
      OrderedPair(bs, 0, i + 1);
    }
  }

  lemma FirstStart(bs: seq<Block>, cs: seq<Block>)
    requires Ordered(bs) && Ordered(cs) && bs != [] && forall a :: Covers(bs, a) <==> Covers(cs, a)
    ensures cs != [] && cs[0].at <= bs[0].at
  {
    assert In(bs[0], bs[0].at) && Covers(bs, bs[0].at);
    assert Covers(cs, bs[0].at);
    var i :| 0 <= i < |cs| && In(cs[i], bs[0].at);
    OrderedAt(cs, i);
  }

  lemma FirstEnd(bs: seq<Block>, cs: seq<Block>)
    requires Ordered(bs) && Ordered(cs) && bs != [] && cs != [] && bs[0].at == cs[0].at
    requires forall a :: Covers(bs, a) <==> Covers(cs, a)
    ensures End(bs[0]) <= End(cs[0])
  {
    var e := End(cs[0]);
    if e < End(bs[0]) {
      assert In(bs[0], e) && Covers(bs, e);
      assert Covers(cs, e);
      var i :| 0 <= i < |cs| && In(cs[i], e);
      OrderedAt(cs, i);
    }
  }
}
