/** Resizing and aligning what has been handed out. */
module NoosMove {
  import opened Arithmetic
  import opened NoosChunks
  import opened NoosRelease
  import opened NoosTake
  import opened NoosResize
  import opened NoosHeld

  // ---------- from a pointer to its chunk ----------

  /** The chunk p points into, by the word in front of p. */
  function ChunkOf(m: Memory, p: int): int { p + Load(m, p - W) - HEADER }

  function UsableSize(m: Memory, p: int): int { if p == 0 then 0 else ChunkOf(m, p) + Load(m, ChunkOf(m, p)) - p }

  /** Every pointer handed out, aligned or not, leads back to the chunk that holds it. */
  lemma ChunkOfHeld(m: Memory, cs: seq<Chunk>, lo: int, held: map<int, Chunk>, p: int) returns (i: nat)
    requires Tiled(cs, lo) && 0 < lo && Linked(m, cs, 0) && HeldOk(m, cs, held) && p in held
    ensures ChunkOf(m, p) == held[p].at && UsableSize(m, p) == End(held[p]) - p
    ensures i < |cs| && cs[i] == held[p] && !cs[i].free && 0 < held[p].at < p && Load(m, held[p].at) == held[p].size
  {
    i :| 0 <= i < |cs| && cs[i] == held[p];
    LoadWord(m, p - W, held[p].at + HEADER - p);
    LinkedAt(m, cs, 0, i);
    LoadWord(m, cs[i].at, cs[i].size);
    AtPositive(cs, lo, i);
  }

  lemma NullNotHeld(m: Memory, cs: seq<Chunk>, lo: int, held: map<int, Chunk>)
    requires Tiled(cs, lo) && 0 < lo && HeldOk(m, cs, held)
    ensures 0 !in held
  {
    if 0 in held { LiveSizes(cs, lo, held[0]); }
  }

  // ---------- writing through a pointer ----------

  /** Whatever is written between a pointer and its chunk's end, the heap stays in order and
      the other chunks keep their bytes. */
  lemma UserWrote(m: Memory, m': Memory, cs: seq<Chunk>, lo: int, brk: int, first: int, held: map<int, Chunk>, p: int)
    requires HeapIs(m, cs, lo, brk, first) && HeldOk(m, cs, held) && p in held && SameButIn(m, m', p, End(held[p]))
    ensures HeapIs(m', cs, lo, brk, first) && HeldOk(m', cs, held) && LivesSame(m, m', Lives(cs) - {held[p]})
  {
    var x := held[p];
    PayloadWrote(m, m', cs, lo, brk, first, x);
    assert PointsTo(m', p, x);
    forall q | q in held && q != p ensures PointsTo(m', q, held[q]) {
      LiveSizes(cs, lo, held[q]);
      PointsFrame(m, m', q, held[q]);
    }
  }

  lemma PayloadWrote(m: Memory, m': Memory, cs: seq<Chunk>, lo: int, brk: int, first: int, x: Chunk)
    requires HeapIs(m, cs, lo, brk, first) && x in Lives(cs) && SameButIn(m, m', x.at + HEADER, End(x))
    ensures HeapIs(m', cs, lo, brk, first) && LivesSame(m, m', Lives(cs) - {x})
  {
    var i :| 0 <= i < |cs| && cs[i] == x;
    SplitOut(cs, i);
    LiveWritten(m, m', cs[..i], x, cs[i + 1..], lo);
    OthersWritten(m, m', cs, lo, x);
  }

  // ---------- a chunk changes size where it stands ----------

  /** The i-th chunk, live, becomes y, keeping its bytes; the other live chunks stay. */
  ghost predicate Reshaped(m: Memory, m': Memory, cs: seq<Chunk>, cs': seq<Chunk>, i: nat, y: Chunk) {
    && i < |cs| && i < |cs'| && cs'[i] == y && !cs[i].free && !y.free && y.at == cs[i].at
    && Lives(cs') == Lives(cs) - {cs[i]} + {y}
    && LivesSame(m, m', Lives(cs) - {cs[i]})
    && Same(m, m', y.at + W, y.at + if y.size < cs[i].size then y.size else cs[i].size)
  }

  lemma ReshapedTwice(m: Memory, m1: Memory, m2: Memory, cs: seq<Chunk>, cs1: seq<Chunk>, cs2: seq<Chunk>, lo: int,
                      i: nat, y: Chunk, z: Chunk)
    requires Reshaped(m, m1, cs, cs1, i, y) && Reshaped(m1, m2, cs1, cs2, i, z) && z.size <= y.size && Tiled(cs, lo)
             && Tiled(cs1, lo)
    ensures Reshaped(m, m2, cs, cs2, i, z)
  {
    var x := cs[i];
    forall c | c in Lives(cs) - {x} ensures c in Lives(cs1) - {y} {
      if c == y { SameAt(cs, lo, x, c); }
    }
    forall c | c in Lives(cs1) - {y} ensures c in Lives(cs) - {x} {}
    forall c | c in Lives(cs) - {x} ensures Same(m, m2, c.at, End(c)) {
      assert Same(m, m1, c.at, End(c)) && Same(m1, m2, c.at, End(c));
    }
  }

  lemma ReshapedNot(m: Memory, cs: seq<Chunk>, i: nat)
    requires i < |cs| && !cs[i].free
    ensures Reshaped(m, m, cs, cs, i, cs[i])
  {
  }

  /** What the lemmas about three pieces say, said of the whole. */
  lemma ReshapedPieces(m: Memory, m': Memory, pre: seq<Chunk>, x: Chunk, post: seq<Chunk>, lo: int, cs': seq<Chunk>,
                       y: Chunk)
    requires Tiled(pre + [x] + post, lo) && !x.free && !y.free && x.at == y.at && |pre| < |cs'| && cs'[|pre|] == y
    requires Lives(cs') == Lives(pre) + {y} + Lives(post) && LivesSame(m, m', Lives(pre) + Lives(post))
    requires Same(m, m', y.at + W, y.at + if y.size < x.size then y.size else x.size)
    ensures Reshaped(m, m', pre + [x] + post, cs', |pre|, y)
  {
    var cs := pre + [x] + post;
    LiveBetween(pre, x, post);
    forall c | c in Lives(pre) + Lives(post) ensures c != x { NotX(pre, x, post, lo, c); }
    assert Lives(cs) - {x} == Lives(pre) + Lives(post);
  }

  /** x takes in the free chunk f right behind it. */
  lemma Absorbed(m: Memory, pre: seq<Chunk>, x: Chunk, f: Chunk, post: seq<Chunk>, lo: int, brk: int, first: int)
    requires HeapIs(m, pre + [x] + ([f] + post), lo, brk, first) && !x.free && f.free
    ensures var next, before, y := FirstFree(post, 0), LastFree(pre + [x]), Chunk(x.at, x.size + f.size, false);
            var m' := Store(LinkMem(m, before, next), x.at, y.size);
            && HeapIs(m', pre + [y] + post, lo, brk, if before == 0 then next else first)
            && Reshaped(m, m', pre + [x] + ([f] + post), pre + [y] + post, |pre|, y)
            && Load(LinkMem(m, before, next), x.at) == x.size && Load(LinkMem(m, before, next), f.at) == f.size
  {
    hide Tiled, Linked, NoTwoFree, Lives, LivesSame, Same, Word, Store, FirstFree, LastFree, EndOf, Reshaped, Load,
        HeapIs, LinkMem;
    var next, before, y, g := FirstFree(post, 0), LastFree(pre + [x]), Chunk(x.at, x.size + f.size, false),
        f.(free := false);
    var m1 := LinkMem(m, before, next);
    var m' := Store(m1, x.at, y.size);
    var cs := pre + [x] + ([f] + post);
    assert pre + [x] + [f] + post == cs && pre + [x] + [g] + post == pre + [x] + ([g] + post);
    InParts(m, cs, lo, brk, first);
    WholeTaken(m, pre + [x], f, post, lo, brk, first);
    InParts(m1, pre + [x] + ([g] + post), lo, brk, if before == 0 then next else first);
    JoinLive(m1, pre, x, g, post, lo, brk, if before == 0 then next else first);
    AbsorbedSame(m, m1, m', pre, x, f, post, lo);
    BehindPre(pre, y, post);
    ReshapedPieces(m, m', pre, x, [f] + post, lo, pre + [y] + post, y);
    HeaderHolds(m1, pre, x, [g] + post);
    HeaderHolds(m1, pre + [x], g, post);
  }

  lemma InParts(m: Memory, cs: seq<Chunk>, lo: int, brk: int, first: int)
    requires HeapIs(m, cs, lo, brk, first)
    ensures Tiled(cs, lo) && Linked(m, cs, 0) && 0 < lo
  {
  }

  lemma BehindPre(pre: seq<Chunk>, y: Chunk, post: seq<Chunk>)
    ensures |pre| < |pre + [y] + post| && (pre + [y] + post)[|pre|] == y
  {
  }

  lemma HeaderHolds(m: Memory, pre: seq<Chunk>, x: Chunk, post: seq<Chunk>)
    requires Linked(m, pre + [x] + post, 0)
    ensures Load(m, x.at) == x.size
  {
    var cs := pre + [x] + post;
    assert cs[|pre|] == x;
    LinkedAt(m, cs, 0, |pre|);
    LoadWord(m, x.at, x.size);
  }

  /** Taking all of free chunk f off the list. */
  lemma WholeTaken(m: Memory, pre: seq<Chunk>, f: Chunk, post: seq<Chunk>, lo: int, brk: int, first: int)
    requires HeapIs(m, pre + [f] + post, lo, brk, first) && f.free
    ensures var next, before := FirstFree(post, 0), LastFree(pre);
            var m1 := LinkMem(m, before, next);
            && HeapIs(m1, pre + ([f.(free := false)] + post), lo, brk, if before == 0 then next else first)
            && LivesSame(m, m1, Lives(pre + [f] + post))
  {
    hide Tiled, Linked, NoTwoFree, Lives, LivesSame, Same, Word, Store, FirstFree, LastFree, EndOf;
    var next, before := FirstFree(post, 0), LastFree(pre);
    Pieces(pre, f, post, lo);
    WordSizes();
    TakenTiles(pre, f, post, f.size, lo);
    TakenMerged(pre, f, post, f.size);
    TakenLinks(m, pre, f, post, f.size, lo);
    NoRest(f, next);
    TakenSame(m, pre, f, post, f.size, lo, next, next);
    assert [f.(free := false)] + [] + post == [f.(free := false)] + post;
    EndOfGrows(pre + [f] + post, lo);
  }

  lemma NoRest(f: Chunk, next: int)
    ensures Cut(f, f.size) == f.(free := false) && Rest(f, f.size) == [] && FirstFree(Rest(f, f.size), next) == next
  {
    WordSizes();
  }

  lemma AbsorbedSame(m: Memory, m1: Memory, m': Memory, pre: seq<Chunk>, x: Chunk, f: Chunk, post: seq<Chunk>, lo: int)
    requires Tiled(pre + [x] + ([f] + post), lo) && !x.free && f.free
             && LivesSame(m, m1, Lives(pre + [x] + ([f] + post)))
    requires LivesSame(m1, m', Lives(pre) + Lives(post)) && Same(m1, m', x.at + W, x.at + x.size + f.size)
    ensures Lives([f] + post) == Lives(post) && LivesSame(m, m', Lives(pre) + Lives(post))
            && Same(m, m', x.at + W, End(x))
  {
    LiveBetween(pre, x, [f] + post);
    LivesJoin([f], post);
    LivesOne(f);
    JoinTiles(pre, x, f, post, lo);
    forall c | c in Lives(pre) + Lives(post) ensures Same(m, m', c.at, End(c)) {
      assert Same(m, m1, c.at, End(c)) && Same(m1, m', c.at, End(c));
    }
    assert Same(m, m1, x.at, End(x));
    WordSizes();
  }

  /** The highest chunk grown with the break. */
  lemma Extended(m: Memory, pre: seq<Chunk>, x: Chunk, lo: int, brk: int, first: int, size: int)
    requires HeapIs(m, pre + [x], lo, brk, first) && !x.free && x.size <= size && size % ALIGN == 0
    ensures var y := Chunk(x.at, size, false);
            var m' := Store(m, x.at, size);
            && HeapIs(m', pre + [y], lo, x.at + size, first) && brk == End(x)
            && Reshaped(m, m', pre + [x], pre + [y], |pre|, y)
  {
    ExtendLast(m, pre, x, lo, brk, first, size);
    assert pre + [x] + [] == pre + [x];
    LivesNil();
    ReshapedPieces(m, Store(m, x.at, size), pre, x, [], lo, pre + [Chunk(x.at, size, false)], Chunk(x.at, size, false));
  }

  /** x cut down to size bytes and the rest released. */
  lemma Trimmed(m: Memory, m1: Memory, m2: Memory, pre: seq<Chunk>, x: Chunk, post: seq<Chunk>, lo: int, brk: int,
                first: int, size: int)
    requires HeapIs(m, pre + [x] + post, lo, brk, first) && !x.free && MIN_CHUNK <= size && size % ALIGN == 0
             && x.size - size >= MIN_CHUNK
    requires var r := Chunk(x.at + size, x.size - size, false);
             m1 == Store(Store(m, r.at, r.size), x.at, size)
             && LivesSame(m1, m2, Lives(pre + [Chunk(x.at, size, false)] + ([r] + post)) - {r})
    ensures var y, r := Chunk(x.at, size, false), Chunk(x.at + size, x.size - size, false);
            Reshaped(m, m2, pre + [x] + post, Released(pre + [y], r, post), |pre|, y)
  {
    hide Tiled, Linked, NoTwoFree, Same, Store, FirstFree, EndOf, Released, Reshaped;
    var y, r := Chunk(x.at, size, false), Chunk(x.at + size, x.size - size, false);
    SplitLive(m, pre, x, post, lo, brk, first, size);
    ReleaseLives(pre + [y], r, post);
    LivesJoin(pre, [y]);
    LivesOne(y);
    assert pre + [y] + [r] + post == pre + [y] + ([r] + post);
    forall c | c in Lives(pre) + Lives(post) || c == y ensures c != r { NotX(pre + [y], r, post, lo, c); }
    TrimmedSame(m, m1, m2, Lives(pre) + Lives(post), y, r);
    ReleasedFront(pre, y, r, post);
    ReshapedPieces(m, m2, pre, x, post, lo, Released(pre + [y], r, post), y);
  }

  lemma TrimmedSame(m: Memory, m1: Memory, m2: Memory, others: set<Chunk>, y: Chunk, r: Chunk)
    requires LivesSame(m, m1, others) && Same(m, m1, y.at + W, End(y)) && LivesSame(m1, m2, others + {y})
    ensures LivesSame(m, m2, others) && Same(m, m2, y.at + W, End(y))
  {
    forall c | c in others ensures Same(m, m2, c.at, End(c)) {
      assert Same(m, m1, c.at, End(c)) && Same(m1, m2, c.at, End(c));
    }
    assert Same(m1, m2, y.at, End(y));
    WordSizes();
  }

  lemma ReleasedFront(pre: seq<Chunk>, y: Chunk, r: Chunk, post: seq<Chunk>)
    requires !y.free
    ensures var cs := Released(pre + [y], r, post); |pre| < |cs| && cs[|pre|] == y
  {
  }

  /** A pointer stays what it is when its chunk changes size. */
  lemma HeldChanged(m: Memory, m': Memory, cs: seq<Chunk>, cs': seq<Chunk>, lo: int, held: map<int, Chunk>, p: int,
                    i: nat, z: Chunk)
    requires HeldOk(m, cs, held) && p in held && i < |cs| && held[p] == cs[i] && Reshaped(m, m', cs, cs', i, z)
             && Tiled(cs, lo) && Tiled(cs', lo)
    requires p == cs[i].at + HEADER
    ensures HeldOk(m', cs', held[p := z]) && LivesSame(m, m', Owned(held) - {held[p]})
  {
    hide Lives, Same, Word, Tiled, PointsTo;
    var h := held[p := z];
    forall q | q in h ensures h[q] in Lives(cs') && PointsTo(m', q, h[q]) && (q != p ==> h[q] != z) {
      if q == p { SameRoom(m, m', cs, cs', lo, i, z); } else { OthersRoom(m, m', cs, cs', lo, i, z, q, held[q]); }
    }
    OwnedChanged(held, p, z);
  }

  lemma SameRoom(m: Memory, m': Memory, cs: seq<Chunk>, cs': seq<Chunk>, lo: int, i: nat, z: Chunk)
    requires Reshaped(m, m', cs, cs', i, z) && Tiled(cs, lo) && Tiled(cs', lo) && PointsTo(m, cs[i].at + HEADER, cs[i])
    ensures z in Lives(cs') && PointsTo(m', cs[i].at + HEADER, z)
  {
    var x := cs[i];
    LiveSizes(cs, lo, x);
    LiveSizes(cs', lo, z);
    WordSizes();
    WordFrame(m, m', x.at + W, 0, x.at + W, x.at + HEADER);
  }

  lemma OthersRoom(m: Memory, m': Memory, cs: seq<Chunk>, cs': seq<Chunk>, lo: int, i: nat, z: Chunk, q: int, c: Chunk)
    requires Reshaped(m, m', cs, cs', i, z) && Tiled(cs, lo) && c in Lives(cs) && c != cs[i] && PointsTo(m, q, c)
    ensures c in Lives(cs') && PointsTo(m', q, c) && c != z
  {
    LiveSizes(cs, lo, c);
    PointsFrame(m, m', q, c);
    if c == z { SameAt(cs, lo, cs[i], z); }
  }

  lemma OwnedChanged(held: map<int, Chunk>, p: int, z: Chunk)
    requires p in held && forall q :: q in held && q != p ==> held[q] != held[p]
    ensures Owned(held[p := z]) == Owned(held) - {held[p]} + {z}
  {
    var h := held[p := z];
    assert h[p] == z && p in h;
    forall v | v in Owned(held) - {held[p]} ensures v in Owned(h) {
      var q :| q in held && held[q] == v;
      assert q in h && h[q] == v;
    }
    forall v | v in Owned(h) ensures v in Owned(held) - {held[p]} + {z} {
      var q :| q in h && h[q] == v;
      if q != p { assert q in held && held[q] == v; }
    }
  }

  lemma NowAt(m: Memory, m': Memory, cs: seq<Chunk>, cs': seq<Chunk>, i: nat, y: Chunk)
    requires Reshaped(m, m', cs, cs', i, y) && Linked(m', cs', 0)
    ensures i < |cs'| && cs'[i] == y && y.at == cs[i].at && !y.free && Load(m', y.at) == y.size
  {
    LoadSize(m', cs', i);
  }

  lemma LoadSize(m: Memory, cs: seq<Chunk>, i: nat)
    requires Linked(m, cs, 0) && i < |cs|
    ensures Load(m, cs[i].at) == cs[i].size
  {
    LinkedAt(m, cs, 0, i);
    LoadWord(m, cs[i].at, cs[i].size);
  }

  lemma SecondAt(pre: seq<Chunk>, y: Chunk, r: Chunk, post: seq<Chunk>)
    ensures var cs, i := pre + [y] + ([r] + post), |pre| + 1;
            i < |cs| && cs[i] == r && cs[..i] == pre + [y] && cs[i + 1..] == post
  {
  }

  lemma ReleasedLives(cs: seq<Chunk>, lo: int, i: nat)
    requires Tiled(cs, lo) && i < |cs| && !cs[i].free
    ensures Lives(Released(cs[..i], cs[i], cs[i + 1..])) == Lives(cs) - {cs[i]}
  {
    hide Tiled, Lives, Released;
    var pre, x, post := cs[..i], cs[i], cs[i + 1..];
    SplitOut(cs, i);
    ReleaseLives(pre, x, post);
    LiveBetween(pre, x, post);
    if x in Lives(pre) + Lives(post) { LivesIn(pre); LivesIn(post); NotX(pre, x, post, lo, x); }
  }

  lemma LivesIn(cs: seq<Chunk>)
    ensures forall c :: c in Lives(cs) ==> c in cs
  {
  }

  lemma OwnedLess(held: map<int, Chunk>, p: int)
    requires p in held && forall q :: q in held && q != p ==> held[q] != held[p]
    ensures Owned(held - {p}) == Owned(held) - {held[p]}
  {
    var h := held - {p};
    forall v | v in Owned(held) && v != held[p] ensures v in Owned(h) {
      var q :| q in held && held[q] == v;
      assert q in h && h[q] == v;
    }
    forall v | v in Owned(h) ensures v in Owned(held) && v != held[p] {
      var q :| q in h && h[q] == v;
      assert q in held && held[q] == v;
    }
  }

  lemma PlainAligned(cs: seq<Chunk>, lo: int, c: Chunk)
    requires Tiled(cs, lo) && lo % ALIGN == 0 && c in Lives(cs)
    ensures (c.at + HEADER) % ALIGN == 0
  {
    LiveSizes(cs, lo, c);
    WordSizes();
  }

  // ---------- moving ----------

  /** The n bytes at to are those that were at from. */
  ghost predicate Copied(m: Memory, from: int, m': Memory, to: int, n: int) {
    forall x :: to <= x < to + n ==> m'(x) == m(from + (x - to))
  }

  /** The memory with n bytes copied, read before any of them is written. */
  function BytesPut(m: Memory, from: int, to: int, n: int): Memory {
    x => if to <= x < to + n then m(from + (x - to)) else m(x)
  }

  lemma BytesPutAt(m: Memory, from: int, to: int, n: int, x: int)
    ensures BytesPut(m, from, to, n)(x) == if to <= x < to + n then m(from + (x - to)) else m(x)
  {
  }

  lemma BytesPutIs(m: Memory, from: int, to: int, n: int)
    ensures SameButIn(m, BytesPut(m, from, to, n), to, to + n) && Copied(m, from, BytesPut(m, from, to, n), to, n)
  {
    hide BytesPut;
    var m' := BytesPut(m, from, to, n);
    forall x | x < to || to + n <= x ensures m'(x) == m(x) { BytesPutAt(m, from, to, n, x); }
    forall x | to <= x < to + n ensures m'(x) == m(from + (x - to)) { BytesPutAt(m, from, to, n, x); }
  }

  /** Bytes copied from chunk c to chunk d survive c being freed. */
  lemma CopyKept(m0: Memory, m1: Memory, m2: Memory, m3: Memory, p: int, c: Chunk, q: int, d: Chunk, len: int)
    requires Same(m0, m1, c.at, End(c)) && c.at <= p && p + len <= End(c) && Same(m2, m3, d.at, End(d)) && d.at <= q
             && q + len <= End(d)
    requires Copied(m1, p, m2, q, len)
    ensures Copied(m0, p, m3, q, len)
  {
  }

  lemma SameTwice(m: Memory, m1: Memory, m2: Memory, m3: Memory, others: set<Chunk>)
    requires LivesSame(m, m1, others) && LivesSame(m1, m2, others) && LivesSame(m2, m3, others)
    ensures LivesSame(m, m3, others)
  {
    forall c | c in others ensures Same(m, m3, c.at, End(c)) {
      assert Same(m, m1, c.at, End(c)) && Same(m1, m2, c.at, End(c)) && Same(m2, m3, c.at, End(c));
    }
  }

  // ---------- aligning ----------

  lemma BigPower(a: int)
    requires PowerOfTwo(a) && a > ALIGN
    ensures a % ALIGN == 0
  {
    assert PowerOfTwo(a / 2) && PowerOfTwo(a / 2 / 2);
  }

  function AlignUp(p: int, a: int): int
    requires a > 0
  {
    (p + a - 1) / a * a
  }

  predicate Aligned(p: int, a: int)
    requires a > 0
  {
    p % a == 0
  }

  /** The next multiple of a is at most a - 8 bytes away, and if it is away at all it is at
      least 8: room for the offset word. */
  lemma AlignRoom(p: int, a: int)
    requires p % ALIGN == 0 && p > 0 && PowerOfTwo(a) && a > ALIGN
    ensures var r := AlignUp(p, a); Aligned(r, a) && r % ALIGN == 0 && p <= r <= p + a - ALIGN
                                    && (r != p ==> p + ALIGN <= r)
  {
    hide AlignUp, Aligned;
    BigPower(a);
    Within(p, a);
    Multiples(p, a);
    Room(p, AlignUp(p, a), a);
  }

  lemma Room(p: int, r: int, a: int)
    requires p % ALIGN == 0 && r % ALIGN == 0 && a % ALIGN == 0 && p <= r < p + a
    ensures r <= p + a - ALIGN && (r != p ==> p + ALIGN <= r)
  {
  }

  lemma Multiples(p: int, a: int)
    requires p > 0 && a > 0 && a % ALIGN == 0
    ensures Aligned(AlignUp(p, a), a) && AlignUp(p, a) % ALIGN == 0
  {
    Within(p, a);
    MultipleOf((p + a - 1) / a, a);
    ManyEights((p + a - 1) / a, a);
  }

  lemma Within(p: int, a: int)
    requires p > 0 && a > 0
    ensures p <= AlignUp(p, a) < p + a && (p + a - 1) / a >= 0
  {
    var q := (p + a - 1) / a;
    assert p + a - 1 == q * a + (p + a - 1) % a;
  }

  lemma MultipleOf(q: nat, a: int)
    requires a > 0
    ensures (q * a) % a == 0
  {
    if q > 0 {
      MultipleOf(q - 1, a);
      assert q * a == (q - 1) * a + a;
      AddOne((q - 1) * a, a);
    }
  }

  lemma AddOne(x: int, a: int)
    requires a > 0
    ensures (x + a) % a == x % a
  {
    var d, e := x / a, (x + a) / a;
    var f := d + 1 - e;
    assert a * f == (x + a) % a - x % a by { assert x == a * d + x % a && x + a == a * e + (x + a) % a; }
    if f >= 1 { Bounded(a, f); } else if f <= -1 { Bounded(a, -f); }
  }

  lemma Bounded(a: int, f: int)
    requires a > 0 && f >= 1
    ensures a * f >= a
  {
  }

  lemma {:induction false} ManyEights(q: nat, a: int)
    requires a % ALIGN == 0
    ensures (q * a) % ALIGN == 0
  {
    if q > 0 {
      ManyEights(q - 1, a);
      assert q * a == (q - 1) * a + a;
      SumAligned((q - 1) * a, a);
    }
  }

  /** The payload pointer of d is replaced by one further in. */
  lemma Realigned(m: Memory, cs: seq<Chunk>, lo: int, brk: int, first: int, held: map<int, Chunk>, p: int, r: int)
    requires HeapIs(m, cs, lo, brk, first) && HeldOk(m, cs, held) && p in held && p == held[p].at + HEADER
             && p + ALIGN <= r <= End(held[p])
    ensures var m' := Store(m, r - W, p - r);
            && HeapIs(m', cs, lo, brk, first) && HeldOk(m', cs, (held - {p})[r := held[p]])
            && LivesSame(m, m', Lives(cs) - {held[p]}) && r !in held
  {
    hide Tiled, Linked, NoTwoFree, Word, Same;
    var m', d, h := Store(m, r - W, p - r), held[p], (held - {p})[r := held[p]];
    PayloadWrote(m, m', cs, lo, brk, first, d);
    forall q | q in held && q != p ensures PointsTo(m', q, held[q]) && q != r {
      LiveSizes(cs, lo, held[q]);
      PointsFrame(m, m', q, held[q]);
      Apart(cs, lo, held[q], d);
    }
    Stored(m, r - W, p - r);
    OwnedLess(held, p);
    HeldValues(held - {p}, r, d);
  }

  lemma ReshapedKeeps(m: Memory, m': Memory, cs: seq<Chunk>, cs': seq<Chunk>, i: nat, z: Chunk)
    requires Reshaped(m, m', cs, cs', i, z)
    ensures z.at == cs[i].at && Same(m, m', z.at + HEADER, if z.size < cs[i].size then End(z) else End(cs[i]))
  {
  }

  /** After q has been handed out as well. */
  lemma StillHeld(held: map<int, Chunk>, held': map<int, Chunk>, p: int, q: int)
    requires p in held && q !in held && q in held' && held' == held[q := held'[q]] && held'[q] !in Owned(held)
    requires forall s :: s in held && s != p ==> held[s] != held[p]
    ensures p in held' && held'[p] == held[p] && p != q && Owned(held') == Owned(held) + {held'[q]}
    ensures held' - {p} == (held - {p})[q := held'[q]]
    ensures Owned(held) - {held[p]} <= Owned(held' - {p}) && held'[q] in Owned(held' - {p})
  {
    HeldValues(held, q, held'[q]);
    OwnedLess(held', p);
  }

  lemma HeldParts(m: Memory, cs: seq<Chunk>, lo: int, brk: int, first: int, held: map<int, Chunk>, p: int)
    requires HeapIs(m, cs, lo, brk, first) && HeldOk(m, cs, held) && p in held
    ensures UsableSize(m, p) == End(held[p]) - p && held[p].at < p <= End(held[p]) && Lives(cs) == Owned(held)
            && held[p] in Owned(held) && p > 0
  {
    var i := ChunkOfHeld(m, cs, lo, held, p);
  }

  lemma WroteWithin(m: Memory, m': Memory, lo: int, mid: int, hi: int)
    requires SameButIn(m, m', lo, mid) && mid <= hi
    ensures SameButIn(m, m', lo, hi)
  {
  }

  lemma CopyMoved(m0: Memory, m1: Memory, m2: Memory, m3: Memory, held: map<int, Chunk>, held': map<int, Chunk>,
                  p: int, q: int, len: int)
    requires p in held && q in held' && LivesSame(m0, m1, Owned(held)) && LivesSame(m2, m3, Owned(held' - {p}))
             && q != p
    requires held[p].at <= p && p + len <= End(held[p]) && held'[q].at <= q && q + len <= End(held'[q])
    requires Copied(m1, p, m2, q, len)
    ensures Copied(m0, p, m3, q, len)
  {
    var h := held' - {p};
    assert q in h && h[q] in Owned(h) && held[p] in Owned(held);
    CopyKept(m0, m1, m2, m3, p, held[p], q, held'[q], len);
  }

  lemma SmallPower(a: int, r: int)
    requires PowerOfTwo(a) && a <= ALIGN && r % ALIGN == 0
    ensures Aligned(r, a)
  {
    hide Aligned, PowerOfTwo;
    SmallPowers(a);
    EightIsMore(r);
  }

  lemma EightIsMore(r: int)
    requires r % ALIGN == 0
    ensures Aligned(r, 1) && Aligned(r, 2) && Aligned(r, 4) && Aligned(r, 8)
  {
    FourInEight(r);
    TwoInFour(r);
  }

  lemma FourInEight(r: int)
    requires r % 8 == 0
    ensures r % 4 == 0
  {
  }

  lemma TwoInFour(r: int)
    requires r % 4 == 0
    ensures r % 2 == 0
  {
    var k := r / 4;
    assert r == 2 * (2 * k);
  }

  lemma SmallPowers(a: int)
    requires PowerOfTwo(a) && a <= ALIGN
    ensures a == 1 || a == 2 || a == 4 || a == 8
  {
    if a > 1 { assert PowerOfTwo(a / 2); if a > 2 { assert PowerOfTwo(a / 2 / 2); } }
  }

  lemma AllButNull(m: Memory, cs: seq<Chunk>, lo: int, brk: int, first: int, held: map<int, Chunk>)
    requires HeapIs(m, cs, lo, brk, first) && HeldOk(m, cs, held)
    ensures 0 !in held && held - {0} == held
  {
    NullNotHeld(m, cs, lo, held);
  }

  lemma ChunkAt(m: Memory, cs: seq<Chunk>, lo: int, brk: int, first: int, held: map<int, Chunk>, p: int)
    requires HeapIs(m, cs, lo, brk, first) && HeldOk(m, cs, held) && p in held
    ensures ChunkOf(m, p) == held[p].at && (held[p].at + HEADER) % ALIGN == 0
  {
    var i := ChunkOfHeld(m, cs, lo, held, p);
    PlainAligned(cs, lo, held[p]);
  }

  /** A block resized where it stands holds n bytes and keeps its old ones. */
  lemma KeptHere(m: Memory, m': Memory, p: int, c: Chunk, d: Chunk, n: int, size: int)
    requires c.at + HEADER == p && d.at == c.at && d.size >= size >= n + HEADER
    requires Same(m, m', p, if d.size < c.size then End(d) else End(c))
    ensures p + n <= End(d) && Copied(m, p, m', p, if End(c) - p < n then End(c) - p else n)
  {
  }
}
