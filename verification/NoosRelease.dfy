/** Putting a chunk back on the free list: release and trim, as values. */
module NoosRelease {
  import opened NoosChunks

  predicate TouchesNext(post: seq<Chunk>) { post != [] && post[0].free }

  predicate TouchesPrev(pre: seq<Chunk>) { pre != [] && Last(pre).free }

  function JoinNext(x: Chunk, post: seq<Chunk>): Chunk {
    if TouchesNext(post) then Chunk(x.at, x.size + post[0].size, true) else x.(free := true)
  }

  function AfterJoin(post: seq<Chunk>): seq<Chunk> { if TouchesNext(post) then post[1..] else post }

  function JoinPrev(pre: seq<Chunk>, y: Chunk): Chunk {
    if TouchesPrev(pre) then Chunk(Last(pre).at, Last(pre).size + y.size, true) else y
  }

  function BeforeJoin(pre: seq<Chunk>): seq<Chunk> { if TouchesPrev(pre) then Init(pre) else pre }

  /** The chunks once x, between pre and post, is free and merged with its free neighbours. */
  function Released(pre: seq<Chunk>, x: Chunk, post: seq<Chunk>): seq<Chunk> {
    BeforeJoin(pre) + [JoinPrev(pre, JoinNext(x, post))] + AfterJoin(post)
  }

  lemma NextTiles(x: Chunk, post: seq<Chunk>, lo: int)
    requires Tiled([x] + post, lo)
    ensures Tiled([JoinNext(x, post)] + AfterJoin(post), lo)
    ensures EndOf([JoinNext(x, post)] + AfterJoin(post), lo) == EndOf([x] + post, lo)
  {
    assert ([x] + post)[1..] == post;
    assert ([JoinNext(x, post)] + AfterJoin(post))[1..] == AfterJoin(post);
  }

  lemma PrevTiles(pre: seq<Chunk>, y: Chunk, rest: seq<Chunk>, lo: int)
    requires Tiled(pre + ([y] + rest), lo)
    ensures var out := BeforeJoin(pre) + ([JoinPrev(pre, y)] + rest);
            Tiled(out, lo) && EndOf(out, lo) == EndOf(pre + ([y] + rest), lo)
  {
    hide Tiled, EndOf, RoundUp;
    if TouchesPrev(pre) {
      var q, l, z := Init(pre), Last(pre), JoinPrev(pre, y);
      SplitLast(pre);
      assert pre + ([y] + rest) == q + ([l] + ([y] + rest));
      TiledJoin(q, [l] + ([y] + rest), lo);
      EndOfJoin(q, [l] + ([y] + rest), lo);
      WordSizes();
      FrontTiled(l, [y] + rest, EndOf(q, lo));
      FrontTiled(y, rest, End(l));
      FrontTiled(z, rest, EndOf(q, lo));
      TiledJoin(q, [z] + rest, lo);
      EndOfJoin(q, [z] + rest, lo);
    }
  }

  /** Releasing keeps the heap tiled over the same stretch. */
  lemma ReleaseTiles(pre: seq<Chunk>, x: Chunk, post: seq<Chunk>, lo: int)
    requires Tiled(pre + [x] + post, lo)
    ensures Tiled(Released(pre, x, post), lo) && EndOf(Released(pre, x, post), lo) == EndOf(pre + [x] + post, lo)
  {
    hide Tiled, EndOf;
    var y, rest := JoinNext(x, post), AfterJoin(post);
    assert pre + [x] + post == pre + ([x] + post);
    TiledJoin(pre, [x] + post, lo);
    EndOfJoin(pre, [x] + post, lo);
    NextTiles(x, post, EndOf(pre, lo));
    TiledJoin(pre, [y] + rest, lo);
    EndOfJoin(pre, [y] + rest, lo);
    PrevTiles(pre, y, rest, lo);
    assert Released(pre, x, post) == BeforeJoin(pre) + ([JoinPrev(pre, y)] + rest);
  }

  /** Releasing leaves no two neighbours both free: everything that can merge has. */
  lemma ReleaseMerges(pre: seq<Chunk>, x: Chunk, post: seq<Chunk>)
    requires NoTwoFree(pre + [x] + post)
    ensures NoTwoFree(Released(pre, x, post))
  {
    hide NoTwoFree;
    var rest, z, q := AfterJoin(post), JoinPrev(pre, JoinNext(x, post)), BeforeJoin(pre);
    assert pre + [x] + post == pre + ([x] + post);
    NoTwoFreeJoin(pre, [x] + post);
    FrontFree(x, post);
    if TouchesNext(post) { assert post == [post[0]] + rest; FrontFree(post[0], rest); }
    if TouchesPrev(pre) { SplitLast(pre); NoTwoFreeJoin(q, [Last(pre)]); }
    FrontFree(z, rest);
    NoTwoFreeJoin(q, [z] + rest);
    assert Released(pre, x, post) == q + ([z] + rest);
  }

  /** The other live chunks stay, and nothing else is live. */
  lemma ReleaseLives(pre: seq<Chunk>, x: Chunk, post: seq<Chunk>)
    ensures Lives(Released(pre, x, post)) == Lives(pre) + Lives(post)
  {
    var rest, z := AfterJoin(post), JoinPrev(pre, JoinNext(x, post));
    LivesJoin(BeforeJoin(pre), [z] + rest);
    LivesJoin([z], rest);
    LivesOne(z);
    assert Released(pre, x, post) == BeforeJoin(pre) + ([z] + rest);
    if TouchesNext(post) { assert post == [post[0]] + post[1..]; LivesJoin([post[0]], post[1..]); LivesOne(post[0]); }
    if TouchesPrev(pre) { SplitLast(pre); LivesJoin(Init(pre), [Last(pre)]); LivesOne(Last(pre)); }
  }

  // ---------- the same in memory ----------

  /** The other live chunks' bytes, headers included, are untouched. */
  ghost predicate LivesSame(m: Memory, m': Memory, lives: set<Chunk>) {
    forall c :: c in lives ==> Same(m, m', c.at, End(c))
  }

  ghost predicate SameButIn(m: Memory, m': Memory, lo: int, hi: int) { forall x :: x < lo || hi <= x ==> m'(x) == m(x) }

  /** The headers before x and after it, with x's size; pre's last free chunk leads to t. */
  ghost predicate Linked3(m: Memory, pre: seq<Chunk>, x: Chunk, post: seq<Chunk>, t: int) {
    Linked(m, pre, t) && Word(m, x.at, x.size) && Linked(m, post, 0)
  }

  lemma Pieces(pre: seq<Chunk>, x: Chunk, post: seq<Chunk>, lo: int)
    requires Tiled(pre + [x] + post, lo)
    ensures Tiled(pre, lo) && x.at == EndOf(pre, lo) && MIN_CHUNK <= x.size && x.size % ALIGN == 0
            && Tiled(post, End(x))
    ensures lo <= x.at && End(x) <= EndOf(pre + [x] + post, lo) == EndOf(post, End(x))
  {
    assert pre + [x] + post == pre + ([x] + post) && ([x] + post)[1..] == post;
    TiledJoin(pre, [x] + post, lo);
    EndOfJoin(pre, [x] + post, lo);
    EndOfGrows(pre, lo);
    EndOfGrows(post, End(x));
  }

  /** Writes made while x is joined with what follows it. */
  function NextMem(m: Memory, x: Chunk, post: seq<Chunk>): Memory {
    if TouchesNext(post)
    then Store(Store(m, x.at, x.size + post[0].size), x.at + HEADER, FirstFree(post[1..], 0))
    else Store(m, x.at + HEADER, FirstFree(post, 0))
  }

  lemma NextLinks(m: Memory, pre: seq<Chunk>, x: Chunk, post: seq<Chunk>, lo: int, t: int)
    requires Tiled(pre + [x] + post, lo) && Linked3(m, pre, x, post, t)
    ensures var m', y := NextMem(m, x, post), JoinNext(x, post);
            && Linked(m', pre, t) && Word(m', y.at, y.size) && Word(m', y.at + HEADER, FirstFree(AfterJoin(post), 0))
            && Linked(m', AfterJoin(post), 0) && SameButIn(m, m', x.at, End(x))
  {
    hide Word, NextMem, Tiled, EndOf, Linked;
    var m' := NextMem(m, x, post);
    Pieces(pre, x, post, lo);
    NextWritten(m, x, post);
    LinkedFrame(m, m', pre, lo, t);
    LinkedFrame(m, m', post, End(x), 0);
    if TouchesNext(post) { assert post == [post[0]] + post[1..]; FrontLinked(m', post[0], post[1..], 0); }
  }

  lemma NextWritten(m: Memory, x: Chunk, post: seq<Chunk>)
    requires MIN_CHUNK <= x.size && Word(m, x.at, x.size)
    ensures var m' := NextMem(m, x, post);
            && SameButIn(m, m', x.at, End(x)) && Word(m', x.at, JoinNext(x, post).size)
            && Word(m', x.at + HEADER, FirstFree(AfterJoin(post), 0))
  {
    var m' := NextMem(m, x, post);
    var m1 := if TouchesNext(post) then Store(m, x.at, x.size + post[0].size) else m;
    WordSizes();
    Stored(m, x.at, x.size + (if TouchesNext(post) then post[0].size else 0));
    Stored(m1, x.at + HEADER, FirstFree(AfterJoin(post), 0));
    WordFrame(m1, m', x.at, JoinNext(x, post).size, x.at, x.at + HEADER);
  }

  /** Writes made while y is joined with what comes before it, or linked in behind it. The
      list's head is not in memory. */
  function PrevMem(m: Memory, pre: seq<Chunk>, y: Chunk, next: int): Memory {
    if TouchesPrev(pre)
    then Store(Store(m, Last(pre).at, Last(pre).size + y.size), Last(pre).at + HEADER, next)
    else if LastFree(pre) != 0 then Store(m, LastFree(pre) + HEADER, y.at) else m
  }

  lemma PrevLinks(m: Memory, pre: seq<Chunk>, y: Chunk, rest: seq<Chunk>, lo: int, t: int)
    requires 0 < lo && Tiled(pre + ([y] + rest), lo) && Linked(m, pre, t) && y.free
    requires Word(m, y.at, y.size) && Word(m, y.at + HEADER, FirstFree(rest, 0)) && Linked(m, rest, 0)
    ensures var out := BeforeJoin(pre) + ([JoinPrev(pre, y)] + rest); Linked(PrevMem(m, pre, y, FirstFree(rest, 0)),
            out, 0)
    ensures LastFree(pre) != 0 ==> FirstFree(BeforeJoin(pre) + ([JoinPrev(pre, y)] + rest), 0) == FirstFree(pre, t)
    ensures LastFree(pre) == 0 ==> FirstFree(BeforeJoin(pre) + ([JoinPrev(pre, y)] + rest), 0) == y.at
  {
    hide Tiled, Linked, EndOf, RoundUp, Word, FirstFree;
    var m', z := PrevMem(m, pre, y, FirstFree(rest, 0)), JoinPrev(pre, y);
    WordSizes();
    TiledJoin(pre, [y] + rest, lo);
    FrontTiled(y, rest, EndOf(pre, lo));
    EndOfGrows(pre, lo);
    EndOfGrows(rest, End(y));
    FrontLinked(m', y, rest, 0);
    FrontLinked(m', z, rest, 0);
    FirstFreeJoin(BeforeJoin(pre), [z] + rest, 0);
    if TouchesPrev(pre) {
      PrevJoined(m, pre, y, rest, lo, t);
    } else if LastFree(pre) != 0 {
      Relink(m, pre, lo, t, y.at);
      Stored(m, LastFree(pre) + HEADER, y.at);
      WordFrame(m, m', y.at, y.size, y.at, End(y));
      WordFrame(m, m', y.at + HEADER, FirstFree(rest, 0), y.at, End(y));
      LinkedFrame(m, m', rest, End(y), 0);
      LinkedJoin(m', pre, [y] + rest, 0);
    } else {
      NoFreeLeadsOn(m, pre, lo, t, y.at);
      LinkedJoin(m', pre, [y] + rest, 0);
    }
  }

  lemma PrevJoined(m: Memory, pre: seq<Chunk>, y: Chunk, rest: seq<Chunk>, lo: int, t: int)
    requires 0 < lo && Tiled(pre + ([y] + rest), lo) && Linked(m, pre, t) && y.free && TouchesPrev(pre)
             && Linked(m, rest, 0)
    ensures var out := Init(pre) + ([JoinPrev(pre, y)] + rest); Linked(PrevMem(m, pre, y, FirstFree(rest, 0)), out, 0)
    ensures FirstFree(Init(pre) + ([JoinPrev(pre, y)] + rest), 0) == FirstFree(pre, t) && LastFree(pre) != 0
  {
    hide Tiled, EndOf, Linked, FirstFree, Word, Same, RoundUp, PrevMem, Store, Load, Linked3;
    PrevMemJoined(m, pre, y, FirstFree(rest, 0));
    WordSizes();
    var q, l, z, next := Init(pre), Last(pre), JoinPrev(pre, y), FirstFree(rest, 0);
    var m' := PrevMem(m, pre, y, next);
    SplitLast(pre);
    TiledJoin(pre, [y] + rest, lo);
    TiledJoin(q, [l], lo);
    EndOfJoin(q, [l], lo);
    LastTiled(l, EndOf(q, lo));
    EndOfGrows(q, lo);
    LinkedJoin(m, q, [l], t);
    FirstFreeJoin(q, [l], t);
    assert [l] == [l] + [];
    FrontLinked(m, l, [], t);
    FrontTiled(y, rest, End(l));
    JoinWritten(m, l, z.size, next, lo, l.at, End(y), EndOf(rest, End(y)));
    LinkedFrame(m, m', q, lo, l.at);
    LinkedFrame(m, m', rest, End(y), 0);
    FrontLinked(m', z, rest, 0);
    FirstFreeJoin(q, [z] + rest, 0);
    LinkedJoin(m', q, [z] + rest, 0);
  }

  lemma PrevMemJoined(m: Memory, pre: seq<Chunk>, y: Chunk, next: int)
    requires TouchesPrev(pre)
    ensures PrevMem(m, pre, y, next) == Store(Store(m, Last(pre).at, Last(pre).size + y.size), Last(pre).at + HEADER,
                                              next)
    ensures LastFree(pre) == Last(pre).at
  {
  }

  lemma LastTiled(l: Chunk, lo: int)
    requires Tiled([l], lo)
    ensures l.at == lo && MIN_CHUNK <= l.size && EndOf([l], lo) == End(l)
  {
    assert [l][1..] == [];
  }

  lemma JoinWritten(m: Memory, l: Chunk, size: int, next: int, lo: int, mid: int, after: int, end: int)
    requires lo <= mid <= l.at && End(l) <= after && MIN_CHUNK <= l.size
    ensures var m' := Store(Store(m, l.at, size), l.at + HEADER, next);
            && Word(m', l.at, size) && Word(m', l.at + HEADER, next) && Same(m, m', lo, mid) && Same(m, m', after, end)
  {
    WordSizes();
    var m1 := Store(m, l.at, size);
    Stored(m, l.at, size);
    Stored(m1, l.at + HEADER, next);
    WordFrame(m1, Store(m1, l.at + HEADER, next), l.at, size, l.at, l.at + HEADER);
  }

  // ---------- the whole heap ----------

  ghost predicate HeapIs(m: Memory, cs: seq<Chunk>, lo: int, brk: int, first: int) {
    && 0 < brk && 0 < lo && lo % ALIGN == 0 && (if cs == [] then brk <= lo < brk + ALIGN else brk == EndOf(cs, lo))
    && Tiled(cs, lo) && NoTwoFree(cs) && Linked(m, cs, 0) && first == FirstFree(cs, 0)
  }

  lemma SelfSame(m: Memory, lives: set<Chunk>)
    ensures LivesSame(m, m, lives)
  {
  }

  /** What the header words around a live chunk hold. */
  lemma ReleaseReady(m: Memory, pre: seq<Chunk>, x: Chunk, post: seq<Chunk>, lo: int)
    requires Tiled(pre + [x] + post, lo) && 0 < lo && Linked(m, pre + [x] + post, 0) && !x.free
    ensures Linked3(m, pre, x, post, FirstFree(post, 0)) && Load(m, x.at) == x.size
    ensures TouchesNext(post) <==> FirstFree(post, 0) != 0 && End(x) == FirstFree(post, 0)
    ensures TouchesNext(post) ==> Load(m, post[0].at) == post[0].size
    ensures x.at > 0 && MIN_CHUNK <= x.size && Tiled(post, End(x)) && Linked(m, post, 0)
  {
    Pieces(pre, x, post, lo);
    assert pre + [x] + post == pre + ([x] + post) && ([x] + post)[1..] == post;
    LinkedJoin(m, pre, [x] + post, 0);
    LoadWord(m, x.at, x.size);
    var k := NextFree(post, End(x), 0);
    assert post[0..] == post;
    if k < |post| { Starts(post, End(x), k); if k > 0 { AtOrder(post, End(x), 0, k); Starts(post, End(x), 0); } }
    if TouchesNext(post) { LoadWord(m, post[0].at, post[0].size); }
  }

  lemma NextOfNext(m: Memory, x: Chunk, post: seq<Chunk>, v: int)
    requires TouchesNext(post) && Tiled(post, End(x)) && Linked(m, post, 0) && MIN_CHUNK <= x.size
    ensures Load(Store(m, x.at, v), post[0].at + HEADER) == FirstFree(post[1..], 0)
  {
    Stored(m, x.at, v);
    var m' := Store(m, x.at, v);
    WordFrame(m, m', post[0].at + HEADER, FirstFree(post[1..], 0), End(x), End(post[0]));
    LoadWord(m', post[0].at + HEADER, FirstFree(post[1..], 0));
  }

  lemma StoredBelow(m: Memory, a: int, v: int, b: int, w: int)
    requires Word(m, b, w) && a + W <= b
    ensures Load(Store(m, a, v), b) == w
  {
    Stored(m, a, v);
    WordFrame(m, Store(m, a, v), b, w, b, b + W);
    LoadWord(Store(m, a, v), b, w);
  }

  /** After the first merge. */
  lemma NextReady(m: Memory, pre: seq<Chunk>, x: Chunk, post: seq<Chunk>, lo: int)
    requires Tiled(pre + [x] + post, lo) && 0 < lo && Linked3(m, pre, x, post, FirstFree(post, 0)) && !x.free
    ensures var m1, y, after := NextMem(m, x, post), JoinNext(x, post), FirstFree(AfterJoin(post), 0);
            && Load(m1, x.at) == y.size && Word(m1, x.at + HEADER, after)
            && (LastFree(pre) != 0 ==>
                  && (TouchesPrev(pre) <==> LastFree(pre) + Load(m1, LastFree(pre)) == x.at)
                  && LastFree(pre) + MIN_CHUNK <= x.at)
            && (TouchesPrev(pre) ==> Load(m1, LastFree(pre)) == Last(pre).size && LastFree(pre) == Last(pre).at != 0)
  {
    hide Tiled, Linked, EndOf, RoundUp, NextMem, Word, LastFree, FirstFree, SameButIn;
    var m1, y, t := NextMem(m, x, post), JoinNext(x, post), FirstFree(post, 0);
    WordSizes();
    NextLinks(m, pre, x, post, lo, t);
    LoadWord(m1, y.at, y.size);
    Pieces(pre, x, post, lo);
    LastIsFree(pre);
    if TouchesPrev(pre) { Starts(pre, lo, |pre| - 1); }
    if LastFree(pre) != 0 { LastReady(m1, pre, lo, t); }
  }

  lemma LastReady(m: Memory, pre: seq<Chunk>, lo: int, t: int)
    requires Tiled(pre, lo) && 0 < lo && Linked(m, pre, t) && LastFree(pre) != 0
    ensures TouchesPrev(pre) <==> LastFree(pre) + Load(m, LastFree(pre)) == EndOf(pre, lo)
    ensures LastFree(pre) + MIN_CHUNK <= EndOf(pre, lo)
            && (TouchesPrev(pre) ==> Load(m, LastFree(pre)) == Last(pre).size)
  {
    hide Tiled, Linked, EndOf, RoundUp, Word, LastFree, FirstFree;
    WordSizes();
    var i := LastFreeAt(pre);
    LinkedAt(m, pre, t, i);
    LoadWord(m, pre[i].at, pre[i].size);
    LastEnds(pre, lo);
    Starts(pre, lo, i);
    Starts(pre, lo, |pre| - 1);
    if i < |pre| - 1 { AtOrder(pre, lo, i, |pre| - 1); }
  }

  lemma ReleaseDone(m: Memory, m1: Memory, pre: seq<Chunk>, x: Chunk, post: seq<Chunk>, lo: int, brk: int)
    requires HeapIs(m, pre + [x] + post, lo, brk, FirstFree(pre + [x] + post, 0)) && !x.free
             && m1 == NextMem(m, x, post)
    ensures var after, y := FirstFree(AfterJoin(post), 0), JoinNext(x, post);
            var m2, out := PrevMem(m1, pre, y, after), Released(pre, x, post);
            && HeapIs(m2, out, lo, brk, if LastFree(pre) == 0 then x.at else FirstFree(pre + [x] + post, 0))
            && LivesSame(m, m2, Lives(pre + [x] + post) - {x})
  {
    hide Tiled, Linked, NoTwoFree, Word, Lives, LivesSame, EndOf, PrevMem, NextMem, Released, FirstFree, LastFree;
    var y, rest, t := JoinNext(x, post), AfterJoin(post), FirstFree(post, 0);
    var m2 := PrevMem(m1, pre, y, FirstFree(rest, 0));
    ReleaseReady(m, pre, x, post, lo);
    NextLinks(m, pre, x, post, lo, t);
    ReleaseTiles(pre, x, post, lo);
    ReleaseMerges(pre, x, post);
    NextTiled(pre, x, post, lo);
    PrevLinks(m1, pre, y, rest, lo, t);
    ReleasedShape(pre, x, post);
    ReleaseSame(m, m1, m2, pre, x, post, lo);
  }

  lemma ReleasedShape(pre: seq<Chunk>, x: Chunk, post: seq<Chunk>)
    requires !x.free
    ensures Released(pre, x, post) == BeforeJoin(pre) + ([JoinPrev(pre, JoinNext(x, post))] + AfterJoin(post)) != []
    ensures FirstFree(pre + [x] + post, 0) == FirstFree(pre, FirstFree(post, 0)) && pre + [x] + post != []
  {
    assert pre + [x] + post == pre + ([x] + post);
    FirstFreeJoin(pre, [x] + post, 0);
    assert ([x] + post)[1..] == post;
  }

  lemma NextTiled(pre: seq<Chunk>, x: Chunk, post: seq<Chunk>, lo: int)
    requires Tiled(pre + [x] + post, lo)
    ensures Tiled(pre + ([JoinNext(x, post)] + AfterJoin(post)), lo)
  {
    assert pre + [x] + post == pre + ([x] + post);
    TiledJoin(pre, [x] + post, lo);
    NextTiles(x, post, EndOf(pre, lo));
    TiledJoin(pre, [JoinNext(x, post)] + AfterJoin(post), lo);
  }

  /** Only free chunks, and the one being freed, are written to. */
  lemma ReleaseSame(m: Memory, m1: Memory, m2: Memory, pre: seq<Chunk>, x: Chunk, post: seq<Chunk>, lo: int)
    requires Tiled(pre + [x] + post, lo) && 0 < lo && !x.free && SameButIn(m, m1, x.at, End(x))
    requires m2 == PrevMem(m1, pre, JoinNext(x, post), FirstFree(AfterJoin(post), 0))
    ensures LivesSame(m, m2, Lives(pre + [x] + post) - {x})
  {
    hide PrevMem, Tiled, LastFree;
    var cs, f := pre + [x] + post, LastFree(pre);
    WordSizes();
    PrevMemSame(m1, pre, JoinNext(x, post), FirstFree(AfterJoin(post), 0));
    LastIsFree(pre);
    if TouchesPrev(pre) { Starts(cs, lo, |pre| - 1); }
    forall c | c in Lives(cs) - {x} ensures Same(m, m2, c.at, End(c)) {
      assert x == cs[|pre|];
      Apart(cs, lo, c, x);
      if f != 0 {
        var i := LastFreeAt(pre);
        assert pre[i] == cs[i];
        Apart(cs, lo, c, pre[i]);
        Starts(cs, lo, i);
      }
      forall a | c.at <= a < End(c) ensures m2(a) == m(a) {
        assert m1(a) == m(a);
        assert f == 0 || a < f || f + HEADER + W <= a;
      }
    }
  }

  lemma PrevMemSame(m: Memory, pre: seq<Chunk>, y: Chunk, next: int)
    ensures var f := LastFree(pre);
            forall a :: (f == 0 && !TouchesPrev(pre)) || a < f || f + HEADER + W <= a ==>
              PrevMem(m, pre, y, next)(a) == m(a)
  {
    LastIsFree(pre);
  }

  lemma LastIsFree(pre: seq<Chunk>)
    ensures TouchesPrev(pre) ==> LastFree(pre) == Last(pre).at
  {
  }
}
