/** Handing a chunk out, growing the heap, and writes inside a chunk that is handed out. */
module NoosTake {
  import opened NoosChunks
  import opened NoosRelease

  // ---------- handing out ----------

  /** Chunk x cut down to size bytes; what is left stays free if it can be a chunk. */
  function Cut(x: Chunk, size: int): Chunk {
    if x.size - size >= MIN_CHUNK then Chunk(x.at, size, false) else Chunk(x.at, x.size, false)
  }

  function Rest(x: Chunk, size: int): seq<Chunk> {
    if x.size - size >= MIN_CHUNK then [Chunk(x.at + size, x.size - size, true)] else []
  }

  function Taken(pre: seq<Chunk>, x: Chunk, post: seq<Chunk>, size: int): seq<Chunk> {
    pre + ([Cut(x, size)] + Rest(x, size) + post)
  }

  lemma TakenTiles(pre: seq<Chunk>, x: Chunk, post: seq<Chunk>, size: int, lo: int)
    requires Tiled(pre + [x] + post, lo) && MIN_CHUNK <= size <= x.size && size % ALIGN == 0
    ensures Tiled(Taken(pre, x, post, size), lo) && EndOf(Taken(pre, x, post, size), lo) == EndOf(pre + [x] + post, lo)
  {
    var y := [Cut(x, size)] + Rest(x, size) + post;
    assert pre + [x] + post == pre + ([x] + post) && ([x] + post)[1..] == post;
    TiledJoin(pre, [x] + post, lo);
    EndOfJoin(pre, [x] + post, lo);
    assert y[1..] == Rest(x, size) + post;
    if Rest(x, size) != [] { assert (Rest(x, size) + post)[1..] == post; } else { assert Rest(x, size) + post == post; }
    TiledJoin(pre, y, lo);
    EndOfJoin(pre, y, lo);
  }

  lemma TakenMerged(pre: seq<Chunk>, x: Chunk, post: seq<Chunk>, size: int)
    requires NoTwoFree(pre + [x] + post) && x.free
    ensures NoTwoFree(Taken(pre, x, post, size))
  {
    var c, r := Cut(x, size), Rest(x, size);
    assert pre + [x] + post == pre + ([x] + post);
    NoTwoFreeJoin(pre, [x] + post);
    NoTwoFreeJoin([x], post);
    NoTwoFreeJoin(r, post);
    NoTwoFreeJoin([c], r + post);
    NoTwoFreeJoin(pre, [c] + (r + post));
    assert [c] + r + post == [c] + (r + post);
  }

  lemma TakenLives(pre: seq<Chunk>, x: Chunk, post: seq<Chunk>, size: int)
    requires x.free
    ensures Lives(Taken(pre, x, post, size)) == Lives(pre + [x] + post) + {Cut(x, size)}
  {
    var c, r := Cut(x, size), Rest(x, size);
    LivesJoin(pre, [c] + r + post);
    LivesJoin([c] + r, post);
    LivesJoin([c], r);
    LivesJoin(pre + [x], post);
    LivesJoin(pre, [x]);
    if r != [] { LivesOne(r[0]); }
  }

  /** Writing through a pointer to the link after free chunk before; the list's head is not
      in memory. */
  function LinkMem(m: Memory, before: int, v: int): Memory { if before == 0 then m else Store(m, before + HEADER, v) }

  function SplitMem(m: Memory, x: Chunk, size: int, next: int): Memory {
    if x.size - size >= MIN_CHUNK then Store(Store(m, x.at + size, x.size - size), x.at + size + HEADER, next) else m
  }

  function SizeMem(m: Memory, x: Chunk, size: int): Memory {
    if x.size - size >= MIN_CHUNK then Store(m, x.at, size) else m
  }

  lemma TakenLinks(m: Memory, pre: seq<Chunk>, x: Chunk, post: seq<Chunk>, size: int, lo: int)
    requires 0 < lo && Tiled(pre + [x] + post, lo) && Linked(m, pre + [x] + post, 0) && x.free
             && MIN_CHUNK <= size <= x.size
    ensures var next := FirstFree(post, 0);
            var m1 := SplitMem(m, x, size, next);
            var m2 := LinkMem(m1, LastFree(pre), FirstFree(Rest(x, size), next));
            var m3 := SizeMem(m2, x, size);
            && Linked(m3, Taken(pre, x, post, size), 0)
            && FirstFree(Taken(pre, x, post, size), 0) ==
                 (if LastFree(pre) == 0 then FirstFree(Rest(x, size), next) else FirstFree(pre + [x] + post, 0))
  {
    hide Word, Tiled, SizeMem, LinkMem, SplitMem, LastFree;
    var next, c, r := FirstFree(post, 0), Cut(x, size), Rest(x, size);
    var v := FirstFree(r, next);
    var m3 := SizeMem(LinkMem(SplitMem(m, x, size, next), LastFree(pre), v), x, size);
    var y := [c] + r + post;
    assert pre + [x] + post == pre + ([x] + post) && ([x] + post)[1..] == post;
    LinkedJoin(m, pre, [x] + post, 0);
    FirstFreeJoin(pre, [x] + post, 0);
    CutLinks(m, m3, pre, x, post, size, lo);
    PreLinks(m, m3, pre, x, post, size, lo, next, v);
    assert y[1..] == r + post;
    FirstFreeJoin(r, post, 0);
    FirstFreeJoin(pre, y, 0);
    LinkedJoin(m3, pre, y, 0);
  }

  /** The headers before x after the split: the last free one leads to v. */
  lemma PreLinks(m: Memory, m3: Memory, pre: seq<Chunk>, x: Chunk, post: seq<Chunk>, size: int, lo: int, next: int,
                 v: int)
    requires 0 < lo && Tiled(pre + [x] + post, lo) && Linked(m, pre, x.at) && MIN_CHUNK <= size <= x.size
    requires m3 == SizeMem(LinkMem(SplitMem(m, x, size, next), LastFree(pre), v), x, size)
    ensures Linked(m3, pre, v) && FirstFree(pre, v) == if LastFree(pre) == 0 then v else FirstFree(pre, x.at)
  {
    hide Word, Linked;
    var m1 := SplitMem(m, x, size, next);
    var m2 := LinkMem(m1, LastFree(pre), v);
    Pieces(pre, x, post, lo);
    WordSizes();
    LinkedFrame(m, m1, pre, lo, x.at);
    if LastFree(pre) == 0 { NoFreeLeadsOn(m1, pre, lo, x.at, v); } else { Relink(m1, pre, lo, x.at, v); }
    LinkedFrame(m2, m3, pre, lo, v);
  }

  /** The headers from x on after the split. */
  lemma CutLinks(m: Memory, m3: Memory, pre: seq<Chunk>, x: Chunk, post: seq<Chunk>, size: int, lo: int)
    requires 0 < lo && Tiled(pre + [x] + post, lo) && Linked(m, pre, x.at) && Linked(m, [x] + post, 0) && x.free
             && MIN_CHUNK <= size <= x.size
    requires m3 == SizeMem(LinkMem(SplitMem(m, x, size, FirstFree(post, 0)), LastFree(pre),
                                   FirstFree(Rest(x, size), FirstFree(post, 0))), x, size)
    ensures Linked(m3, [Cut(x, size)] + Rest(x, size) + post, 0)
  {
    hide Word, SizeMem, LinkMem, SplitMem, Tiled;
    var next, c, r := FirstFree(post, 0), Cut(x, size), Rest(x, size);
    CutWords(m, m3, pre, x, post, size, lo, next, FirstFree(r, next));
    assert ([x] + post)[1..] == post;
    LinkedFrame(m, m3, post, End(x), 0);
    assert ([c] + r + post)[1..] == r + post;
    if r == [] { assert r + post == post; } else { assert (r + post)[1..] == post; }
  }

  /** The words that handing out writes. */
  lemma CutWords(m: Memory, m3: Memory, pre: seq<Chunk>, x: Chunk, post: seq<Chunk>, size: int, lo: int, next: int,
                 v: int)
    requires 0 < lo && Tiled(pre + [x] + post, lo) && Linked(m, pre, x.at) && Word(m, x.at, x.size) && x.free
             && MIN_CHUNK <= size <= x.size
    requires m3 == SizeMem(LinkMem(SplitMem(m, x, size, next), LastFree(pre), v), x, size)
    ensures Word(m3, x.at, Cut(x, size).size) && Same(m, m3, End(x), EndOf(post, End(x))) && Tiled(post, End(x))
    ensures var r := Rest(x, size); r != [] ==> Word(m3, r[0].at, r[0].size) && Word(m3, r[0].at + HEADER, next)
  {
    hide Word, Linked, Store, Same;
    var r, f := Rest(x, size), LastFree(pre);
    Pieces(pre, x, post, lo);
    WordSizes();
    if f != 0 { Relink(m, pre, lo, x.at, 0); }
    EndOfGrows(post, End(x));
    if r == [] {
      KeepWord(m, f, v, x.at, x.size);
      KeepSame(m, f, v, End(x), EndOf(post, End(x)));
      return;
    }
    var a := Store(m, r[0].at, r[0].size);
    var m1 := Store(a, r[0].at + HEADER, next);
    var m2 := LinkMem(m1, f, v);
    Stored(m, r[0].at, r[0].size);
    StoreWord(a, r[0].at + HEADER, next, r[0].at, r[0].size);
    Stored(a, r[0].at + HEADER, next);
    KeepWord(m1, f, v, r[0].at, r[0].size);
    KeepWord(m1, f, v, r[0].at + HEADER, next);
    StoreWord(m2, x.at, size, r[0].at, r[0].size);
    StoreWord(m2, x.at, size, r[0].at + HEADER, next);
    Stored(m2, x.at, size);
    FourStores(m, a, m1, m2, m3, f, v, End(x), EndOf(post, End(x)), r[0].at, r[0].size, next, x.at, size);
  }

  lemma StoreWord(m: Memory, a: int, v: int, b: int, w: int)
    requires Word(m, b, w) && (a + W <= b || b + W <= a)
    ensures Word(Store(m, a, v), b, w)
  {
  }

  lemma KeepWord(m: Memory, f: int, v: int, b: int, w: int)
    requires Word(m, b, w) && (f == 0 || f + HEADER + W <= b)
    ensures Word(LinkMem(m, f, v), b, w)
  {
  }

  lemma KeepSame(m: Memory, f: int, v: int, lo: int, hi: int)
    requires f == 0 || f + HEADER + W <= lo
    ensures Same(m, LinkMem(m, f, v), lo, hi)
  {
  }

  lemma FourStores(m: Memory, a: Memory, m1: Memory, m2: Memory, m3: Memory, f: int, v: int, lo: int, hi: int,
                   r: int, rsize: int, next: int, x: int, size: int)
    requires a == Store(m, r, rsize) && m1 == Store(a, r + HEADER, next) && m2 == LinkMem(m1, f, v)
             && m3 == Store(m2, x, size)
    requires r + HEADER + W <= lo && x + W <= lo && (f == 0 || f + HEADER + W <= lo)
    ensures Same(m, m3, lo, hi)
  {
    WordSizes();
  }

  /** Handing out writes to free chunks only. */
  lemma TakenSame(m: Memory, pre: seq<Chunk>, x: Chunk, post: seq<Chunk>, size: int, lo: int, next: int, v: int)
    requires 0 < lo && Tiled(pre + [x] + post, lo) && x.free && MIN_CHUNK <= size <= x.size
    ensures LivesSame(m, SizeMem(LinkMem(SplitMem(m, x, size, next), LastFree(pre), v), x, size),
                      Lives(pre + [x] + post))
  {
    var cs, f := pre + [x] + post, LastFree(pre);
    var m3 := SizeMem(LinkMem(SplitMem(m, x, size, next), f, v), x, size);
    WordSizes();
    forall c | c in Lives(cs) ensures Same(m, m3, c.at, End(c)) {
      assert x == cs[|pre|];
      Apart(cs, lo, c, x);
      if f != 0 {
        var i := LastFreeAt(pre);
        assert pre[i] == cs[i];
        Apart(cs, lo, c, pre[i]);
        Starts(cs, lo, i);
      }
    }
  }

  // ---------- writes inside a live chunk ----------

  /** Everything but the size word of a live chunk is its owner's to write. */
  lemma LiveWritten(m: Memory, m': Memory, pre: seq<Chunk>, x: Chunk, post: seq<Chunk>, lo: int)
    requires Tiled(pre + [x] + post, lo) && Linked(m, pre + [x] + post, 0) && !x.free
             && SameButIn(m, m', x.at + W, End(x))
    ensures Linked(m', pre + [x] + post, 0)
  {
    Pieces(pre, x, post, lo);
    WordSizes();
    assert pre + [x] + post == pre + ([x] + post) && ([x] + post)[1..] == post;
    LinkedJoin(m, pre, [x] + post, 0);
    LinkedFrame(m, m', pre, lo, FirstFree([x] + post, 0));
    LinkedFrame(m, m', post, End(x), 0);
    WordFrame(m, m', x.at, x.size, x.at, x.at + W);
    LinkedJoin(m', pre, [x] + post, 0);
  }

  lemma OthersWritten(m: Memory, m': Memory, cs: seq<Chunk>, lo: int, x: Chunk)
    requires Tiled(cs, lo) && x in cs && SameButIn(m, m', x.at, End(x))
    ensures LivesSame(m, m', Lives(cs) - {x})
  {
    forall c | c in Lives(cs) - {x} ensures Same(m, m', c.at, End(c)) { Apart(cs, lo, c, x); }
  }

  // ---------- growing ----------

  /** A new chunk at the top. */
  lemma GrownTop(m: Memory, cs: seq<Chunk>, lo: int, brk: int, first: int, base: int, size: int)
    requires HeapIs(m, cs, lo, brk, first) && MIN_CHUNK <= size && size % ALIGN == 0
    requires base == (if cs == [] then lo else brk)
    ensures var m' := Store(m, base, size);
            && HeapIs(m', cs + [Chunk(base, size, false)], lo, base + size, first)
            && LivesSame(m, m', Lives(cs)) && Lives(cs + [Chunk(base, size, false)]) == Lives(cs) + {Chunk(base, size,
                false)}
  {
    var m', c := Store(m, base, size), Chunk(base, size, false);
    TiledJoin(cs, [c], lo);
    EndOfJoin(cs, [c], lo);
    EndOfGrows(cs, lo);
    assert [c][1..] == [];
    NoTwoFreeJoin(cs, [c]);
    Stored(m, base, size);
    LinkedFrame(m, m', cs, lo, 0);
    LinkedJoin(m', cs, [c], 0);
    FirstFreeJoin(cs, [c], 0);
    LivesJoin(cs, [c]);
    LivesOne(c);
    forall d | d in Lives(cs) ensures Same(m, m', d.at, End(d)) {
      var i :| 0 <= i < |cs| && cs[i] == d;
      Starts(cs, lo, i);
    }
  }

  /** The highest free chunk, which reaches the break, extended and handed out. */
  lemma GrownLast(m: Memory, pre: seq<Chunk>, x: Chunk, lo: int, brk: int, first: int, size: int)
    requires HeapIs(m, pre + [x], lo, brk, first) && x.free && x.size <= size && size % ALIGN == 0
    ensures var m1 := LinkMem(m, LastFree(pre), 0);
            var m' := Store(m1, x.at, size);
            && HeapIs(m', pre + [Chunk(x.at, size, false)], lo, x.at + size, if LastFree(pre) == 0 then 0 else first)
            && LivesSame(m, m', Lives(pre + [x]))
            && Lives(pre + [Chunk(x.at, size, false)]) == Lives(pre + [x]) + {Chunk(x.at, size, false)}
  {
    var m1 := LinkMem(m, LastFree(pre), 0);
    var m', c := Store(m1, x.at, size), Chunk(x.at, size, false);
    WordSizes();
    assert pre + [x] + [] == pre + [x] && [x][1..] == [] && [c][1..] == [];
    Pieces(pre, x, [], lo);
    TiledJoin(pre, [c], lo);
    EndOfJoin(pre, [c], lo);
    NoTwoFreeJoin(pre, [x]);
    NoTwoFreeJoin(pre, [c]);
    LinkedJoin(m, pre, [x], 0);
    FirstFreeJoin(pre, [x], 0);
    FirstFreeJoin(pre, [c], 0);
    if LastFree(pre) == 0 { NoFreeLeadsOn(m, pre, lo, x.at, 0); } else { Relink(m, pre, lo, x.at, 0); }
    Stored(m1, x.at, size);
    LinkedFrame(m1, m', pre, lo, 0);
    LinkedJoin(m', pre, [c], 0);
    LivesJoin(pre, [x]);
    LivesJoin(pre, [c]);
    LivesOne(x);
    LivesOne(c);
    GrownSame(m, m', pre, x, lo, size);
  }

  lemma GrownSame(m: Memory, m': Memory, pre: seq<Chunk>, x: Chunk, lo: int, size: int)
    requires Tiled(pre + [x], lo) && x.free && m' == Store(LinkMem(m, LastFree(pre), 0), x.at, size)
    ensures LivesSame(m, m', Lives(pre + [x]))
  {
    var cs, f := pre + [x], LastFree(pre);
    WordSizes();
    assert x == cs[|pre|];
    Starts(cs, lo, |pre|);
    forall c | c in Lives(cs) ensures Same(m, m', c.at, End(c)) {
      Apart(cs, lo, c, x);
      if f != 0 {
        var i := LastFreeAt(pre);
        assert pre[i] == cs[i];
        Apart(cs, lo, c, pre[i]);
        Starts(cs, lo, i);
      }
    }
  }
}
