/** Changing a live chunk's size where it stands. */
module NoosResize {
  import opened NoosChunks
  import opened NoosRelease
  import opened NoosTake

  lemma SizeWritten(m: Memory, pre: seq<Chunk>, x: Chunk, post: seq<Chunk>, lo: int, size: int)
    requires Tiled(pre + [x] + post, lo) && Linked(m, pre + [x] + post, 0) && !x.free
    ensures var m' := Store(m, x.at, size); Linked(m', pre, FirstFree(post, 0)) && Word(m', x.at, size)
                                            && Linked(m', post, 0)
    ensures FirstFree(pre + [x] + post, 0) == FirstFree(pre, FirstFree(post, 0))
  {
    var m' := Store(m, x.at, size);
    Pieces(pre, x, post, lo);
    WordSizes();
    assert pre + [x] + post == pre + ([x] + post) && ([x] + post)[1..] == post;
    LinkedJoin(m, pre, [x] + post, 0);
    FirstFreeJoin(pre, [x] + post, 0);
    Stored(m, x.at, size);
    LinkedFrame(m, m', pre, lo, FirstFree(post, 0));
    LinkedFrame(m, m', post, End(x), 0);
  }

  lemma OneLinked(m: Memory, pre: seq<Chunk>, y: Chunk, post: seq<Chunk>)
    requires !y.free && Linked(m, pre, FirstFree(post, 0)) && Word(m, y.at, y.size) && Linked(m, post, 0)
    ensures Linked(m, pre + [y] + post, 0) && FirstFree(pre + [y] + post, 0) == FirstFree(pre, FirstFree(post, 0))
  {
    assert pre + [y] + post == pre + ([y] + post) && ([y] + post)[1..] == post;
    FirstFreeJoin(pre, [y] + post, 0);
    LinkedJoin(m, pre, [y] + post, 0);
  }

  lemma LiveBetween(pre: seq<Chunk>, y: Chunk, post: seq<Chunk>)
    requires !y.free
    ensures NoTwoFree(pre + [y] + post) <==> NoTwoFree(pre) && NoTwoFree(post)
    ensures Lives(pre + [y] + post) == Lives(pre) + {y} + Lives(post)
  {
    assert pre + [y] + post == pre + ([y] + post);
    NoTwoFreeJoin(pre, [y] + post);
    NoTwoFreeJoin([y], post);
    LivesJoin(pre, [y] + post);
    LivesJoin([y], post);
    LivesOne(y);
  }

  /** x takes in the live chunk after it. */
  lemma JoinLive(m: Memory, pre: seq<Chunk>, x: Chunk, f: Chunk, post: seq<Chunk>, lo: int, brk: int, first: int)
    requires HeapIs(m, pre + [x] + ([f] + post), lo, brk, first) && !x.free && !f.free
    ensures var y := Chunk(x.at, x.size + f.size, false);
            var m' := Store(m, x.at, y.size);
            && HeapIs(m', pre + [y] + post, lo, brk, first)
            && Lives(pre + [y] + post) == Lives(pre) + {y} + Lives(post)
            && Lives(pre + [x] + ([f] + post)) == Lives(pre) + {x, f} + Lives(post)
            && LivesSame(m, m', Lives(pre) + Lives(post)) && Same(m, m', x.at + W, End(y))
  {
    hide Tiled, Linked, NoTwoFree, Lives, Same, Word;
    var y := Chunk(x.at, x.size + f.size, false);
    var m' := Store(m, x.at, y.size);
    SizeWritten(m, pre, x, [f] + post, lo, y.size);
    FrontLive(m', f, post);
    OneLinked(m', pre, y, post);
    LiveBetween(pre, x, [f] + post);
    LiveBetween([], f, post);
    LiveBetween(pre, y, post);
    assert [] + [f] + post == [f] + post;
    NoTwoFreeNil();
    JoinTiles(pre, x, f, post, lo);
    Stored(m, x.at, y.size);
    SizeSame(m, m', pre, x, [f] + post, lo, y.size);
    assert Lives([f] + post) == {f} + Lives(post) by { LivesNil(); }
    FewerSame(m, m', Lives(pre) + Lives([f] + post), Lives(pre) + Lives(post));
  }

  lemma NoTwoFreeNil()
    ensures NoTwoFree([])
  {
  }

  lemma LivesNil()
    ensures Lives([]) == {}
  {
  }

  lemma FewerSame(m: Memory, m': Memory, more: set<Chunk>, fewer: set<Chunk>)
    requires LivesSame(m, m', more) && fewer <= more
    ensures LivesSame(m, m', fewer)
  {
  }

  lemma FrontLive(m: Memory, f: Chunk, post: seq<Chunk>)
    requires Linked(m, [f] + post, 0) && !f.free
    ensures Linked(m, post, 0) && FirstFree([f] + post, 0) == FirstFree(post, 0)
  {
    assert ([f] + post)[1..] == post;
  }

  lemma {:induction false} JoinTiles(pre: seq<Chunk>, x: Chunk, f: Chunk, post: seq<Chunk>, lo: int)
    requires Tiled(pre + [x] + ([f] + post), lo)
    ensures var y := Chunk(x.at, x.size + f.size, false);
            Tiled(pre + [y] + post, lo) && EndOf(pre + [y] + post, lo) == EndOf(pre + [x] + ([f] + post), lo)
    ensures Tiled([f] + post, End(x)) && MIN_CHUNK <= f.size && f.at == End(x)
  {
    hide Tiled, EndOf, RoundUp;
    var y := Chunk(x.at, x.size + f.size, false);
    WordSizes();
    Pieces(pre, x, [f] + post, lo);
    FrontTiled(f, post, End(x));
    SumAligned(x.size, f.size);
    FrontTiled(y, post, x.at);
    FrontTiled(x, [f] + post, x.at);
    MiddleIs(pre, y, post);
    MiddleIs(pre, x, [f] + post);
    TiledJoin(pre, [y] + post, lo);
    EndOfJoin(pre, [y] + post, lo);
    EndOfJoin(pre, [x] + ([f] + post), lo);
  }

  lemma SizeSame(m: Memory, m': Memory, pre: seq<Chunk>, x: Chunk, post: seq<Chunk>, lo: int, size: int)
    requires Tiled(pre + [x] + post, lo) && m' == Store(m, x.at, size)
    ensures LivesSame(m, m', Lives(pre) + Lives(post)) && SameFrom(m, m', x.at + W)
  {
    var cs := pre + [x] + post;
    Pieces(pre, x, post, lo);
    WordSizes();
    forall c | c in Lives(pre) + Lives(post) ensures Same(m, m', c.at, End(c)) {
      if c in Lives(pre) {
        var i :| 0 <= i < |pre| && pre[i] == c;
        Starts(pre, lo, i);
      } else {
        var i :| 0 <= i < |post| && post[i] == c;
        Starts(post, End(x), i);
      }
    }
  }

  /** The highest chunk, live, grown with the break. */
  lemma ExtendLast(m: Memory, pre: seq<Chunk>, x: Chunk, lo: int, brk: int, first: int, size: int)
    requires HeapIs(m, pre + [x], lo, brk, first) && !x.free && x.size <= size && size % ALIGN == 0
    ensures var y := Chunk(x.at, size, false);
            var m' := Store(m, x.at, size);
            && HeapIs(m', pre + [y], lo, x.at + size, first) && brk == End(x)
            && Lives(pre + [x]) == Lives(pre) + {x} && Lives(pre + [y]) == Lives(pre) + {y}
            && LivesSame(m, m', Lives(pre)) && SameFrom(m, m', x.at + W)
  {
    var y, m' := Chunk(x.at, size, false), Store(m, x.at, size);
    assert pre + [x] + [] == pre + [x] && pre + [y] + [] == pre + [y] && [x][1..] == [] && [y][1..] == [];
    SizeWritten(m, pre, x, [], lo, size);
    OneLinked(m', pre, y, []);
    LiveBetween(pre, x, []);
    LiveBetween(pre, y, []);
    Pieces(pre, x, [], lo);
    TiledJoin(pre, [y], lo);
    EndOfJoin(pre, [y], lo);
    LivesNil();
    SizeSame(m, m', pre, x, [], lo, size);
  }

  /** A live chunk cut in two live ones. */
  lemma SplitLive(m: Memory, pre: seq<Chunk>, x: Chunk, post: seq<Chunk>, lo: int, brk: int, first: int, size: int)
    requires HeapIs(m, pre + [x] + post, lo, brk, first) && !x.free && MIN_CHUNK <= size && size % ALIGN == 0
             && x.size - size >= MIN_CHUNK
    ensures var y, r := Chunk(x.at, size, false), Chunk(x.at + size, x.size - size, false);
            var m' := Store(Store(m, r.at, r.size), x.at, size);
            && HeapIs(m', pre + [y] + ([r] + post), lo, brk, first)
            && Lives(pre + [y] + ([r] + post)) == Lives(pre) + {y, r} + Lives(post)
            && Lives(pre + [x] + post) == Lives(pre) + {x} + Lives(post)
            && LivesSame(m, m', Lives(pre) + Lives(post)) && Same(m, m', x.at + W, End(y))
  {
    var y, r := Chunk(x.at, size, false), Chunk(x.at + size, x.size - size, false);
    var m1 := Store(m, r.at, r.size);
    var m' := Store(m1, x.at, size);
    hide Tiled, Linked, NoTwoFree, Lives;
    WordSizes();
    PiecesHere(pre, x, post, lo);
    Stored(m, r.at, r.size);
    LiveWritten(m, m1, pre, x, post, lo);
    SizeWritten(m1, pre, x, post, lo, size);
    Stored(m1, x.at, size);
    WordFrame(m1, m', r.at, r.size, r.at, r.at + W);
    BackLive(m', r, post);
    OneLinked(m', pre, y, [r] + post);
    LiveBetween(pre, x, post);
    LiveBetween([], r, post);
    assert [] + [r] + post == [r] + post;
    NoTwoFreeNil();
    LivesNil();
    LiveBetween(pre, y, [r] + post);
    SplitTiles(pre, x, post, lo, size);
    OthersWritten(m, m1, pre + [x] + post, lo, x);
    SizeSame(m1, m', pre, x, post, lo, size);
    TwiceSame(m, m1, m', pre, x, post, lo);
  }

  lemma PiecesHere(pre: seq<Chunk>, x: Chunk, post: seq<Chunk>, lo: int)
    requires Tiled(pre + [x] + post, lo)
    ensures MIN_CHUNK <= x.size && x in pre + [x] + post
  {
    Pieces(pre, x, post, lo);
    assert (pre + [x] + post)[|pre|] == x;
  }

  lemma BackLive(m: Memory, f: Chunk, post: seq<Chunk>)
    requires Linked(m, post, 0) && Word(m, f.at, f.size) && !f.free
    ensures Linked(m, [f] + post, 0) && FirstFree([f] + post, 0) == FirstFree(post, 0)
  {
    assert ([f] + post)[1..] == post;
  }

  lemma SplitTiles(pre: seq<Chunk>, x: Chunk, post: seq<Chunk>, lo: int, size: int)
    requires Tiled(pre + [x] + post, lo) && MIN_CHUNK <= size && size % ALIGN == 0 && x.size - size >= MIN_CHUNK
    ensures var y, r := Chunk(x.at, size, false), Chunk(x.at + size, x.size - size, false);
            Tiled(pre + [y] + ([r] + post), lo) && EndOf(pre + [y] + ([r] + post), lo) == EndOf(pre + [x] + post, lo)
  {
    hide Tiled, EndOf, RoundUp;
    var y, r := Chunk(x.at, size, false), Chunk(x.at + size, x.size - size, false);
    Pieces(pre, x, post, lo);
    FrontTiled(x, post, x.at);
    FrontTiled(r, post, End(y));
    FrontTiled(y, [r] + post, x.at);
    assert pre + [x] + post == pre + ([x] + post) && pre + [y] + ([r] + post) == pre + ([y] + ([r] + post));
    TiledJoin(pre, [y] + ([r] + post), lo);
    EndOfJoin(pre, [y] + ([r] + post), lo);
    EndOfJoin(pre, [x] + post, lo);
  }

  lemma TwiceSame(m: Memory, m1: Memory, m2: Memory, pre: seq<Chunk>, x: Chunk, post: seq<Chunk>, lo: int)
    requires Tiled(pre + [x] + post, lo) && LivesSame(m, m1, Lives(pre + [x] + post) - {x})
             && LivesSame(m1, m2, Lives(pre) + Lives(post))
    requires !x.free
    ensures LivesSame(m, m2, Lives(pre) + Lives(post))
  {
    var cs := pre + [x] + post;
    LiveBetween(pre, x, post);
    forall c | c in Lives(pre) + Lives(post) ensures Same(m, m2, c.at, End(c)) {
      NotX(pre, x, post, lo, c);
      assert Same(m, m1, c.at, End(c)) && Same(m1, m2, c.at, End(c));
    }
  }

  lemma NotX(pre: seq<Chunk>, x: Chunk, post: seq<Chunk>, lo: int, c: Chunk)
    requires Tiled(pre + [x] + post, lo) && (c in pre || c in post)
    ensures c != x
  {
    Pieces(pre, x, post, lo);
    if c in pre {
      var i :| 0 <= i < |pre| && pre[i] == c;
      Starts(pre, lo, i);
      EndOfGrows(pre, lo);
    } else {
      var i :| 0 <= i < |post| && post[i] == c;
      Starts(post, End(x), i);
    }
    WordSizes();
  }
}
