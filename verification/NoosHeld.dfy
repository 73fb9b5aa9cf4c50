/** The pointers handed out by the no-OS heap, and how each operation changes them. */
module NoosHeld {
  import opened NoosChunks
  import opened NoosRelease
  import opened NoosTake

  const ENOMEM := 12
  const EINVAL := 22
  const SIZE_MAX: int := if W == 4 then 0xFFFF_FFFF else 0xFFFF_FFFF_FFFF_FFFF

  // ---------- what is handed out ----------

  /** The word in front of pointer p leads to chunk c's payload. */
  ghost predicate PointsTo(m: Memory, p: int, c: Chunk) {
    && c.at + HEADER <= p <= End(c) && Word(m, p - W, c.at + HEADER - p)
    && (p == c.at + HEADER || c.at + HEADER + ALIGN <= p)
  }

  /** Every pointer leads to its own live chunk, and every live chunk has a pointer. */
  ghost predicate HeldOk(m: Memory, cs: seq<Chunk>, held: map<int, Chunk>) {
    && (forall p :: p in held ==> held[p] in Lives(cs) && PointsTo(m, p, held[p]))
    && (forall p, q :: p in held && q in held && p != q ==> held[p] != held[q])
    && Lives(cs) == Owned(held)
  }

  /** The chunks that are handed out. */
  ghost function Owned(held: map<int, Chunk>): set<Chunk> { set p | p in held :: held[p] }

  lemma PointsFrame(m: Memory, m': Memory, p: int, c: Chunk)
    requires PointsTo(m, p, c) && Same(m, m', c.at, End(c)) && MIN_CHUNK <= c.size
    ensures PointsTo(m', p, c)
  {
    WordFrame(m, m', p - W, c.at + HEADER - p, c.at, End(c));
  }

  // ---------- handing out and taking back ----------

  lemma SameAt(cs: seq<Chunk>, lo: int, c: Chunk, d: Chunk)
    requires Tiled(cs, lo) && c in cs && d in cs && c.at == d.at
    ensures c == d
  {
    var i :| 0 <= i < |cs| && cs[i] == c;
    var j :| 0 <= j < |cs| && cs[j] == d;
    Starts(cs, lo, i);
    Starts(cs, lo, j);
    WordSizes();
    if c != d { Apart(cs, lo, c, d); }
  }

  lemma LiveSizes(cs: seq<Chunk>, lo: int, c: Chunk)
    requires Tiled(cs, lo) && c in Lives(cs)
    ensures MIN_CHUNK <= c.size && c.size % ALIGN == 0 && lo <= c.at && !c.free && c in cs
            && (lo % ALIGN == 0 ==> c.at % ALIGN == 0)
  {
    var i :| 0 <= i < |cs| && cs[i] == c;
    Starts(cs, lo, i);
  }

  /** A pointer leads to one chunk only. */
  lemma OneChunk(cs: seq<Chunk>, lo: int, m: Memory, p: int, c: Chunk, q: int, d: Chunk)
    requires Tiled(cs, lo) && c in Lives(cs) && d in Lives(cs) && PointsTo(m, p, c) && PointsTo(m, q, d) && c != d
    ensures p != q
  {
    LiveSizes(cs, lo, c);
    LiveSizes(cs, lo, d);
    Apart(cs, lo, c, d);
  }

  /** A chunk that was not live before is handed out as p. */
  lemma HeldMore(m: Memory, m': Memory, cs: seq<Chunk>, cs': seq<Chunk>, lo: int, held: map<int, Chunk>, p: int,
                 d: Chunk)
    requires HeldOk(m, cs, held) && LivesSame(m, m', Lives(cs)) && Tiled(cs, lo) && Tiled(cs', lo)
    requires Lives(cs') == Lives(cs) + {d} && d !in Lives(cs) && PointsTo(m', p, d)
    ensures HeldOk(m', cs', held[p := d]) && p !in held
  {
    forall q | q in held ensures PointsTo(m', q, held[q]) && q != p {
      LiveSizes(cs, lo, held[q]);
      PointsFrame(m, m', q, held[q]);
      OneChunk(cs', lo, m', p, d, q, held[q]);
    }
    HeldValues(held, p, d);
  }

  lemma HeldValues(held: map<int, Chunk>, p: int, d: Chunk)
    requires p !in held
    ensures Owned(held[p := d]) == Owned(held) + {d}
  {
    var h := held[p := d];
    assert p in h && h[p] == d;
    forall v | v in Owned(held) ensures v in Owned(h) {
      var q :| q in held && held[q] == v;
      assert q in h && h[q] == v;
    }
  }

  /** The chunk of p is no longer live. */
  lemma HeldLess(m: Memory, m': Memory, cs: seq<Chunk>, cs': seq<Chunk>, lo: int, held: map<int, Chunk>, p: int)
    requires HeldOk(m, cs, held) && p in held && LivesSame(m, m', Lives(cs) - {held[p]}) && Tiled(cs, lo)
    requires Lives(cs') == Lives(cs) - {held[p]}
    ensures HeldOk(m', cs', held - {p}) && Owned(held - {p}) == Owned(held) - {held[p]}
  {
    var h := held - {p};
    forall q | q in h ensures h[q] in Lives(cs') && PointsTo(m', q, h[q]) {
      LiveSizes(cs, lo, held[q]);
      PointsFrame(m, m', q, held[q]);
    }
    forall v | v in Owned(held) && v != held[p] ensures v in Owned(h) {
      var q :| q in held && held[q] == v;
      assert q in h && h[q] == v;
    }
    forall v | v in Owned(h) ensures v in Owned(held) && v != held[p] {
      var q :| q in h && h[q] == v;
      assert q in held && held[q] == v;
    }
  }

  /** Chunk size for an n-byte request, or 0 if it cannot be represented. */
  function ChunkSizeFor(n: int): int {
    if n > SIZE_MAX / 2 then 0
    else if RoundUp(n + HEADER) < MIN_CHUNK then MIN_CHUNK else RoundUp(n + HEADER)
  }

  lemma SizeFits(n: int)
    requires 0 <= n
    ensures var size := ChunkSizeFor(n); size != 0 ==> size >= MIN_CHUNK && size >= n + HEADER && size % ALIGN == 0
    ensures ChunkSizeFor(n) == 0 <==> n > SIZE_MAX / 2
    ensures ChunkSizeFor(n) < n + 2 * W + 8 || ChunkSizeFor(n) < 3 * W + 8
  {
    WordSizes();
  }

  /** No chunk can be large enough for n bytes at this alignment. */
  predicate TooLarge(alignment: int, n: int) {
    if alignment <= ALIGN then ChunkSizeFor(n) == 0
    else n > SIZE_MAX / 2 || ChunkSizeFor(n + alignment - ALIGN) == 0
  }

  /** The chunks after one of size bytes has been made at the break: the last chunk grows if it is
      free, otherwise a new one follows. */
  function Grown(cs: seq<Chunk>, brk: int, size: int): seq<Chunk> {
    if cs != [] && Last(cs).free then Init(cs) + [Chunk(Last(cs).at, size, false)]
    else cs + [Chunk(RoundUp(brk), size, false)]
  }

  /** Chunk i is free, large enough, and the lowest such. */
  ghost predicate FirstFit(cs: seq<Chunk>, size: int, i: nat) {
    i < |cs| && cs[i].free && cs[i].size >= size && forall l :: 0 <= l < i && cs[l].free ==> cs[l].size < size
  }

  /** A chunk of size bytes was handed out at address at: the first that fits, cut to size, or else one
      from the break. */
  ghost predicate Served(cs: seq<Chunk>, brk: int, cs': seq<Chunk>, brk': int, size: int, at: int) {
    if NoneFits(cs, size)
    then cs' == Grown(cs, brk, size) && at == Last(cs').at && brk' == at + size
    else brk' == brk && exists i: nat :: FirstFit(cs, size, i) && ServedFrom(cs, cs', size, at, i)
  }

  ghost predicate ServedFrom(cs: seq<Chunk>, cs': seq<Chunk>, size: int, at: int, i: nat) {
    i < |cs| && at == cs[i].at && cs' == Taken(cs[..i], cs[i], cs[i + 1..], size)
  }

  /** The chunk behind chunk i is free and the two have size bytes. */
  ghost predicate NextFits(cs: seq<Chunk>, i: nat, size: int) {
    i + 1 < |cs| && cs[i + 1].free && cs[i].size + cs[i + 1].size >= size
  }

  /** Chunk d has size bytes, or has them together with the free chunk behind it. */
  ghost predicate FitsHere(cs: seq<Chunk>, d: Chunk, size: int) {
    d.size >= size || exists i: nat :: i < |cs| && cs[i] == d && NextFits(cs, i, size)
  }

  lemma ServedFirst(cs: seq<Chunk>, brk: int, size: int, i: nat)
    requires FirstFit(cs, size, i)
    ensures !NoneFits(cs, size) && Served(cs, brk, Taken(cs[..i], cs[i], cs[i + 1..], size), brk, size, cs[i].at)
  {
    assert ServedFrom(cs, Taken(cs[..i], cs[i], cs[i + 1..], size), size, cs[i].at, i);
  }

  lemma ServedGrown(cs: seq<Chunk>, brk: int, size: int)
    requires NoneFits(cs, size)
    ensures var cs', at := Grown(cs, brk, size), Last(Grown(cs, brk, size)).at;
            Served(cs, brk, cs', at + size, size, at)
  {
  }

  lemma AboveZero(m: Memory, cs: seq<Chunk>, lo: int, brk: int, first: int)
    requires HeapIs(m, cs, lo, brk, first)
    ensures 0 < brk && Tiled(cs, lo)
  {
  }

  /** Whether chunk i fits depends on it and on what is behind it. */
  lemma FitsAt(cs: seq<Chunk>, lo: int, i: nat, size: int)
    requires Tiled(cs, lo) && i < |cs|
    ensures FitsHere(cs, cs[i], size) <==> cs[i].size >= size || NextFits(cs, i, size)
  {
    forall k: nat | k < |cs| && cs[k] == cs[i] ensures k == i {
      WordSizes();
      if k < i { AtOrder(cs, lo, k, i); Starts(cs, lo, k); }
      if i < k { AtOrder(cs, lo, i, k); Starts(cs, lo, i); }
    }
  }

  /** Where the highest free chunk ends. */
  lemma TopTouches(m: Memory, cs: seq<Chunk>, lo: int, brk: int, first: int, top: int, i: nat)
    requires HeapIs(m, cs, lo, brk, first)
    requires top == 0 ==> FirstFree(cs, 0) == 0
    requires top != 0 ==> i < |cs| && cs[i].free && cs[i].at == top && FirstFree(cs[i + 1..], 0) == 0
    ensures (top != 0 && End(cs[i]) == brk) <==> (cs != [] && Last(cs).free)
    ensures cs != [] && Last(cs).free ==> i == |cs| - 1
  {
    hide Linked, NoTwoFree, FirstFree;
    if cs == [] { return; }
    LastEnds(cs, lo);
    var k := |cs| - 1;
    AtPositive(cs, lo, k);
    if top == 0 {
      assert cs[0..] == cs;
      var l := NextFree(cs, lo, 0);
    } else {
      if End(cs[i]) == brk { TopIsLast(cs, lo, brk, i); }
      var l := NextFree(cs, lo, i + 1);
    }
  }

  /** No free chunk has size bytes. */
  ghost predicate NoneFits(cs: seq<Chunk>, size: int) { forall i :: 0 <= i < |cs| && cs[i].free ==> cs[i].size < size }

  lemma OffsetWritten(m: Memory, cs: seq<Chunk>, lo: int, brk: int, first: int, d: Chunk)
    requires HeapIs(m, cs, lo, brk, first) && d in Lives(cs)
    ensures var m' := Store(m, d.at + W, 0);
            HeapIs(m', cs, lo, brk, first) && PointsTo(m', d.at + HEADER, d) && LivesSame(m, m', Lives(cs) - {d})
  {
    var m' := Store(m, d.at + W, 0);
    var i :| 0 <= i < |cs| && cs[i] == d;
    LiveSizes(cs, lo, d);
    WordSizes();
    SplitOut(cs, i);
    Stored(m, d.at + W, 0);
    LiveWritten(m, m', cs[..i], d, cs[i + 1..], lo);
    OthersWritten(m, m', cs, lo, d);
  }

  // ---------- the class's steps ----------

  lemma SpotAt(cs: seq<Chunk>, lo: int, i: nat)
    requires i < |cs|
    ensures Spot(cs, lo, i) == cs[i].at
  {
  }

  lemma SpotBelow(cs: seq<Chunk>, lo: int, i: nat, k: nat)
    requires Tiled(cs, lo) && i <= |cs| && k < |cs| && cs[k].at < Spot(cs, lo, i)
    ensures k < i
  {
    if i < k { AtOrder(cs, lo, i, k); Starts(cs, lo, i); }
  }

  lemma LastFreeNext(cs: seq<Chunk>, i: nat)
    requires i < |cs| && cs[i].free
    ensures LastFree(cs[..i + 1]) == cs[i].at
  {
  }

  lemma LastFreeNone()
    ensures LastFree([]) == 0
  {
  }

  /** What a free chunk's header holds. */
  lemma TakeReady(m: Memory, cs: seq<Chunk>, lo: int, i: nat)
    requires Tiled(cs, lo) && 0 < lo && Linked(m, cs, 0) && i < |cs| && cs[i].free
    ensures Load(m, cs[i].at) == cs[i].size && Load(m, cs[i].at + HEADER) == FirstFree(cs[i + 1..], 0)
    ensures cs[i].at > 0 && cs[i].size % ALIGN == 0
    ensures EndOf(cs, lo) > lo && cs[..i] + [cs[i]] + cs[i + 1..] == cs
  {
    LinkedAt(m, cs, 0, i);
    LoadWord(m, cs[i].at, cs[i].size);
    LoadWord(m, cs[i].at + HEADER, FirstFree(cs[i + 1..], 0));
    Starts(cs, lo, i);
    EndOfGrows(cs, lo);
    WordSizes();
  }

  /** A free chunk with no free one after it that ends at the break is the last chunk. */
  lemma TopIsLast(cs: seq<Chunk>, lo: int, brk: int, i: nat)
    requires Tiled(cs, lo) && i < |cs| && brk == EndOf(cs, lo) && End(cs[i]) == brk
    ensures i == |cs| - 1 && cs == cs[..i] + [cs[i]]
  {
    if i < |cs| - 1 { AtOrder(cs, lo, i, |cs| - 1); Starts(cs, lo, |cs| - 1); WordSizes(); }
  }

  /** Only the first growth pads. */
  lemma PadOnce(cs: seq<Chunk>, lo: int, brk: int)
    requires Tiled(cs, lo) && lo % ALIGN == 0 && (if cs == [] then brk <= lo < brk + ALIGN else brk == EndOf(cs, lo))
    ensures RoundUp(brk) == if cs == [] then lo else brk
  {
    if cs != [] {
      LastEnds(cs, lo);
      Starts(cs, lo, |cs| - 1);
    }
  }

  lemma FreeNotLive(m: Memory, cs: seq<Chunk>, lo: int, brk: int, first: int, x: Chunk, d: Chunk)
    requires HeapIs(m, cs, lo, brk, first) && x in cs && x.free && d.at == x.at
    ensures d !in Lives(cs) && 0 < x.at
  {
    var i :| 0 <= i < |cs| && cs[i] == x;
    AtPositive(cs, lo, i);
    if d in Lives(cs) { SameAt(cs, lo, x, d); }
  }

  lemma TopNotLive(cs: seq<Chunk>, lo: int, d: Chunk)
    requires Tiled(cs, lo) && EndOf(cs, lo) <= d.at
    ensures d !in Lives(cs)
  {
    forall c | c in Lives(cs) ensures c != d {
      var i :| 0 <= i < |cs| && cs[i] == c;
      Starts(cs, lo, i);
      WordSizes();
    }
  }

  /** A chunk that has just become live is handed out with offset 0. */
  lemma NewHeld(m0: Memory, m1: Memory, cs0: seq<Chunk>, cs: seq<Chunk>, lo: int, brk: int, first: int,
                held: map<int, Chunk>, d: Chunk)
    requires HeldOk(m0, cs0, held) && HeapIs(m1, cs, lo, brk, first) && LivesSame(m0, m1, Lives(cs0)) && Tiled(cs0, lo)
    requires Lives(cs) == Lives(cs0) + {d} && d !in Lives(cs0)
    ensures var m2, p := Store(m1, d.at + W, 0), d.at + HEADER;
            && HeapIs(m2, cs, lo, brk, first) && HeldOk(m2, cs, held[p := d]) && p !in held && p % ALIGN == 0 && p > 0
            && LivesSame(m0, m2, Lives(cs0))
  {
    hide Tiled, Linked, NoTwoFree, HeldOk, FirstFree, EndOf, Store, PointsTo;
    var m2 := Store(m1, d.at + W, 0);
    OffsetWritten(m1, cs, lo, brk, first, d);
    LiveSizes(cs, lo, d);
    WordSizes();
    forall c | c in Lives(cs0) ensures Same(m0, m2, c.at, End(c)) { assert c in Lives(cs) - {d}; }
    HeldMore(m0, m2, cs0, cs, lo, held, d.at + HEADER, d);
  }
}
