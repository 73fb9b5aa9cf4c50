/** The break-based heap as values: chunks that tile it, and the memory that holds their
    headers and the links of the free list. */
module NoosChunks {
  const ALIGN := 8

  /** sizeof(long) and of a pointer, on either kind of target. */
  type WordSize = w: int | w == 4 || w == 8 witness 4

  const W: WordSize
  const HEADER := 2 * W
  const MIN_CHUNK := RoundUp(3 * W)

  function RoundUp(n: int): int { (n + (ALIGN - 1)) / ALIGN * ALIGN }

  // ---------- memory ----------

  /** A byte holds user data, or is the k-th byte of a word that was stored whole. */
  datatype Byte = Data(value: int) | Part(word: int, k: int)

  type Memory = int -> Byte

  ghost predicate Word(m: Memory, a: int, v: int) { forall k :: 0 <= k < W ==> m(a + k) == Part(v, k) }

  function Load(m: Memory, a: int): int { if m(a).Part? then m(a).word else 0 }

  function Store(m: Memory, a: int, v: int): Memory { x => if a <= x < a + W then Part(v, x - a) else m(x) }

  ghost predicate Same(m: Memory, m': Memory, lo: int, hi: int) { forall x :: lo <= x < hi ==> m'(x) == m(x) }

  ghost predicate SameFrom(m: Memory, m': Memory, lo: int) { forall x :: lo <= x ==> m'(x) == m(x) }

  lemma LoadWord(m: Memory, a: int, v: int)
    requires Word(m, a, v)
    ensures Load(m, a) == v
  {
    assert m(a + 0) == Part(v, 0);
  }

  lemma WordFrame(m: Memory, m': Memory, a: int, v: int, lo: int, hi: int)
    requires Word(m, a, v) && Same(m, m', lo, hi) && lo <= a && a + W <= hi
    ensures Word(m', a, v)
  {
    forall k | 0 <= k < W ensures m'(a + k) == Part(v, k) { assert m'(a + k) == m(a + k); }
  }

  lemma Stored(m: Memory, a: int, v: int)
    ensures Word(Store(m, a, v), a, v)
    ensures forall lo, hi :: hi <= a || a + W <= lo ==> Same(m, Store(m, a, v), lo, hi)
  {
  }

  // ---------- chunks ----------

  /** A chunk with its size, header included. */
  datatype Chunk = Chunk(at: int, size: int, free: bool)

  function End(c: Chunk): int { c.at + c.size }

  function EndOf(cs: seq<Chunk>, lo: int): int { if cs == [] then lo else EndOf(cs[1..], End(cs[0])) }

  /** The chunks lie one after the other from lo on. */
  ghost predicate Tiled(cs: seq<Chunk>, lo: int) {
    cs == [] || (cs[0].at == lo && MIN_CHUNK <= cs[0].size && cs[0].size % ALIGN == 0 && Tiled(cs[1..], End(cs[0])))
  }

  ghost predicate NoTwoFree(cs: seq<Chunk>) {
    |cs| <= 1 || (!(cs[0].free && cs[1].free) && NoTwoFree(cs[1..]))
  }

  function FirstFree(cs: seq<Chunk>, to: int): int {
    if cs == [] then to else if cs[0].free then cs[0].at else FirstFree(cs[1..], to)
  }

  function Last(cs: seq<Chunk>): Chunk
    requires cs != []
  {
    cs[|cs| - 1]
  }

  function Init(cs: seq<Chunk>): seq<Chunk>
    requires cs != []
  {
    cs[..|cs| - 1]
  }

  /** The last free chunk's address, 0 if there is none. */
  function LastFree(cs: seq<Chunk>): int {
    if cs == [] then 0 else if Last(cs).free then Last(cs).at else LastFree(Init(cs))
  }

  ghost function Lives(cs: seq<Chunk>): set<Chunk> { set c | c in cs && !c.free }

  /** Each chunk's header holds its size, and each free one leads to the next free one. */
  ghost predicate Linked(m: Memory, cs: seq<Chunk>, to: int) {
    cs == [] ||
    (Word(m, cs[0].at, cs[0].size) && (cs[0].free ==> Word(m, cs[0].at + HEADER, FirstFree(cs[1..], to)))
     && Linked(m, cs[1..], to))
  }

  lemma WordSizes()
    ensures MIN_CHUNK >= 3 * W && HEADER % ALIGN == 0 && MIN_CHUNK % ALIGN == 0
  {
  }

  lemma SumAligned(m: int, n: int)
    requires m % ALIGN == 0 && n % ALIGN == 0
    ensures (m + n) % ALIGN == 0
  {
  }

  // ---------- taking lists of chunks apart ----------

  lemma {:induction false} EndOfJoin(pre: seq<Chunk>, post: seq<Chunk>, lo: int)
    ensures EndOf(pre + post, lo) == EndOf(post, EndOf(pre, lo))
  {
    if pre == [] {
      assert pre + post == post;
    } else {
      assert (pre + post)[1..] == pre[1..] + post; EndOfJoin(pre[1..], post, End(pre[0]));
    }
  }

  lemma {:induction false} TiledJoin(pre: seq<Chunk>, post: seq<Chunk>, lo: int)
    ensures Tiled(pre + post, lo) <==> Tiled(pre, lo) && Tiled(post, EndOf(pre, lo))
  {
    if pre == [] {
      assert pre + post == post;
    } else {
      assert (pre + post)[1..] == pre[1..] + post; TiledJoin(pre[1..], post, End(pre[0]));
    }
  }

  lemma {:induction false} NoTwoFreeJoin(pre: seq<Chunk>, post: seq<Chunk>)
    ensures NoTwoFree(pre + post) <==>
      NoTwoFree(pre) && NoTwoFree(post) && (pre != [] && post != [] ==> !(Last(pre).free && post[0].free))
  {
    if pre == [] {
      assert pre + post == post;
    } else {
      assert (pre + post)[1..] == pre[1..] + post;
      NoTwoFreeJoin(pre[1..], post);
      if |pre| > 1 { assert Last(pre[1..]) == Last(pre); }
    }
  }

  lemma {:induction false} FirstFreeJoin(pre: seq<Chunk>, post: seq<Chunk>, to: int)
    ensures FirstFree(pre + post, to) == FirstFree(pre, FirstFree(post, to))
  {
    if pre == [] {
      assert pre + post == post;
    } else {
      assert (pre + post)[1..] == pre[1..] + post; FirstFreeJoin(pre[1..], post, to);
    }
  }

  lemma {:induction false} LinkedJoin(m: Memory, pre: seq<Chunk>, post: seq<Chunk>, to: int)
    ensures Linked(m, pre + post, to) <==> Linked(m, pre, FirstFree(post, to)) && Linked(m, post, to)
  {
    if pre == [] {
      assert pre + post == post;
    } else {
      assert (pre + post)[1..] == pre[1..] + post;
      FirstFreeJoin(pre[1..], post, to);
      LinkedJoin(m, pre[1..], post, to);
    }
  }

  lemma FrontTiled(c: Chunk, cs: seq<Chunk>, lo: int)
    ensures Tiled([c] + cs, lo) <==> c.at == lo && MIN_CHUNK <= c.size && c.size % ALIGN == 0 && Tiled(cs, End(c))
    ensures EndOf([c] + cs, lo) == EndOf(cs, End(c))
  {
    assert ([c] + cs)[1..] == cs;
  }

  lemma MiddleIs(pre: seq<Chunk>, c: Chunk, cs: seq<Chunk>)
    ensures pre + [c] + cs == pre + ([c] + cs)
  {
  }

  lemma FrontFree(c: Chunk, cs: seq<Chunk>)
    ensures NoTwoFree([c] + cs) <==> NoTwoFree(cs) && !(c.free && cs != [] && cs[0].free)
  {
    assert ([c] + cs)[1..] == cs;
  }

  lemma FrontLinked(m: Memory, c: Chunk, cs: seq<Chunk>, to: int)
    ensures Linked(m, [c] + cs, to) <==>
      Word(m, c.at, c.size) && (c.free ==> Word(m, c.at + HEADER, FirstFree(cs, to))) && Linked(m, cs, to)
    ensures FirstFree([c] + cs, to) == if c.free then c.at else FirstFree(cs, to)
  {
    assert ([c] + cs)[1..] == cs;
  }

  lemma LivesJoin(pre: seq<Chunk>, post: seq<Chunk>)
    ensures Lives(pre + post) == Lives(pre) + Lives(post)
  {
  }

  lemma LivesOne(c: Chunk)
    ensures Lives([c]) == if c.free then {} else {c}
  {
  }

  lemma SplitLast(cs: seq<Chunk>)
    requires cs != []
    ensures cs == Init(cs) + [Last(cs)]
  {
  }

  lemma {:induction false} EndOfGrows(cs: seq<Chunk>, lo: int)
    requires Tiled(cs, lo)
    ensures lo <= EndOf(cs, lo) && (cs != [] ==> lo + MIN_CHUNK <= EndOf(cs, lo))
  {
    if cs != [] { EndOfGrows(cs[1..], End(cs[0])); }
  }

  lemma {:induction false} LinkedFrame(m: Memory, m': Memory, cs: seq<Chunk>, lo: int, to: int)
    requires Tiled(cs, lo) && Linked(m, cs, to) && Same(m, m', lo, EndOf(cs, lo))
    ensures Linked(m', cs, to)
  {
    if cs != [] {
      var e := EndOf(cs, lo);
      EndOfGrows(cs[1..], End(cs[0]));
      WordFrame(m, m', cs[0].at, cs[0].size, lo, e);
      if cs[0].free { WordFrame(m, m', cs[0].at + HEADER, FirstFree(cs[1..], to), lo, e); }
      LinkedFrame(m, m', cs[1..], End(cs[0]), to);
    }
  }

  lemma {:induction false} NoFreeLeadsOn(m: Memory, cs: seq<Chunk>, lo: int, to: int, to': int)
    requires Tiled(cs, lo) && 0 < lo && LastFree(cs) == 0 && Linked(m, cs, to)
    ensures FirstFree(cs, to') == to' && Linked(m, cs, to')
    decreases |cs|
  {
    if cs != [] {
      SplitLast(cs);
      TiledJoin(Init(cs), [Last(cs)], lo);
      EndOfGrows(Init(cs), lo);
      LinkedJoin(m, Init(cs), [Last(cs)], to);
      NoFreeLeadsOn(m, Init(cs), lo, FirstFree([Last(cs)], to), to');
      LinkedJoin(m, Init(cs), [Last(cs)], to');
      FirstFreeJoin(Init(cs), [Last(cs)], to');
    }
  }

  /** When it is the last chunk of all. */
  lemma RelinkLast(m: Memory, q: seq<Chunk>, l: Chunk, lo: int, to: int)
    requires Tiled(q, lo) && l.at == EndOf(q, lo) && MIN_CHUNK <= l.size && l.free
    requires Linked(m, q, l.at) && Word(m, l.at, l.size)
    ensures Linked(Store(m, l.at + HEADER, to), q + [l], to)
  {
    var a, m' := l.at + HEADER, Store(m, l.at + HEADER, to);
    Stored(m, a, to);
    LinkedFrame(m, m', q, lo, l.at);
    WordFrame(m, m', l.at, l.size, l.at, l.at + W);
    assert [l][1..] == [];
    LinkedJoin(m', q, [l], to);
  }

  lemma OneLive(m: Memory, l: Chunk, to: int)
    requires !l.free && Word(m, l.at, l.size)
    ensures FirstFree([l], to) == to && Linked(m, [l], to)
  {
    assert [l][1..] == [];
  }

  /** When live chunks follow it. */
  lemma RelinkFront(m: Memory, q: seq<Chunk>, l: Chunk, a: int, lo: int, to: int)
    requires l.at == EndOf(q, lo) && a + W <= l.at && !l.free && Word(m, l.at, l.size)
    requires Linked(Store(m, a, to), q, to)
    ensures Linked(Store(m, a, to), q + [l], to)
  {
    var m' := Store(m, a, to);
    Stored(m, a, to);
    WordFrame(m, m', l.at, l.size, l.at, l.at + W);
    OneLive(m', l, to);
    LinkedJoin(m', q, [l], to);
  }

  /** Pointing the last free chunk elsewhere. */
  lemma {:induction false} Relink(m: Memory, cs: seq<Chunk>, lo: int, to: int, to': int)
    requires Tiled(cs, lo) && LastFree(cs) != 0 && Linked(m, cs, to)
    ensures lo <= LastFree(cs) && LastFree(cs) + MIN_CHUNK <= EndOf(cs, lo)
    ensures Word(m, LastFree(cs) + HEADER, to) && FirstFree(cs, to') == FirstFree(cs, to)
    ensures Linked(Store(m, LastFree(cs) + HEADER, to'), cs, to')
    decreases |cs|
  {
    var q, l := Init(cs), Last(cs);
    SplitLast(cs);
    TiledJoin(q, [l], lo);
    EndOfJoin(q, [l], lo);
    EndOfGrows(q, lo);
    LinkedJoin(m, q, [l], to);
    FirstFreeJoin(q, [l], to);
    FirstFreeJoin(q, [l], to');
    if l.free {
      RelinkLast(m, q, l, lo, to');
    } else {
      Relink(m, q, lo, to, to');
      RelinkFront(m, q, l, LastFree(q) + HEADER, lo, to');
    }
  }

  // ---------- finding chunks ----------

  lemma {:induction false} AtOrder(cs: seq<Chunk>, lo: int, i: nat, j: nat)
    requires Tiled(cs, lo) && i < j < |cs|
    ensures End(cs[i]) <= cs[j].at
  {
    assert cs == cs[..i + 1] + cs[i + 1..];
    TiledJoin(cs[..i + 1], cs[i + 1..], lo);
    SplitLast(cs[..i + 1]);
    EndOfJoin(cs[..i], [cs[i]], lo);
    assert cs[..i + 1] == cs[..i] + [cs[i]] && [cs[i]][1..] == [];
    Starts(cs[i + 1..], EndOf(cs[..i + 1], lo), j - i - 1);
  }

  lemma {:induction false} Starts(cs: seq<Chunk>, lo: int, j: nat)
    requires Tiled(cs, lo) && j < |cs|
    ensures lo <= cs[j].at && MIN_CHUNK <= cs[j].size && cs[j].at + cs[j].size <= EndOf(cs, lo)
            && cs[j].size % ALIGN == 0
    ensures lo % ALIGN == 0 ==> cs[j].at % ALIGN == 0
  {
    if j == 0 {
      EndOfGrows(cs[1..], End(cs[0]));
    } else {
      Starts(cs[1..], End(cs[0]), j - 1);
    }
  }

  /** Different chunks do not overlap. */
  lemma Apart(cs: seq<Chunk>, lo: int, c: Chunk, d: Chunk)
    requires Tiled(cs, lo) && c in cs && d in cs && c != d
    ensures End(c) <= d.at || End(d) <= c.at
  {
    var i :| 0 <= i < |cs| && cs[i] == c;
    var j :| 0 <= j < |cs| && cs[j] == d;
    if i < j { AtOrder(cs, lo, i, j); } else { AtOrder(cs, lo, j, i); }
  }

  /** The first free chunk from index j on. */
  lemma {:induction false} NextFree(cs: seq<Chunk>, lo: int, j: nat) returns (k: nat)
    requires Tiled(cs, lo) && 0 < lo && j <= |cs|
    ensures j <= k <= |cs| && forall i :: j <= i < k ==> !cs[i].free
    ensures FirstFree(cs[j..], 0) == (if k < |cs| then cs[k].at else 0) && LastFree(cs[..k]) == LastFree(cs[..j])
    ensures k < |cs| ==> cs[k].free && cs[k].at > 0
    decreases |cs| - j
  {
    if j == |cs| { return j; }
    Starts(cs, lo, j);
    if cs[j].free { return j; }
    k := NextFree(cs, lo, j + 1);
    assert cs[j..][1..] == cs[j + 1..];
    assert Init(cs[..j + 1]) == cs[..j];
  }

  lemma LinkedAt(m: Memory, cs: seq<Chunk>, to: int, k: nat)
    requires Linked(m, cs, to) && k < |cs|
    ensures Word(m, cs[k].at, cs[k].size) && (cs[k].free ==> Word(m, cs[k].at + HEADER, FirstFree(cs[k + 1..], to)))
  {
    assert cs == cs[..k] + cs[k..];
    LinkedJoin(m, cs[..k], cs[k..], to);
    assert cs[k..][1..] == cs[k + 1..];
  }

  lemma {:induction false} LastFreeAt(cs: seq<Chunk>) returns (i: nat)
    requires LastFree(cs) != 0
    ensures i < |cs| && cs[i].free && cs[i].at == LastFree(cs) && (Last(cs).free ==> i == |cs| - 1)
    decreases |cs|
  {
    if Last(cs).free { return |cs| - 1; }
    i := LastFreeAt(Init(cs));
  }

  /** Where chunk i starts; past the last one, where the chunks end. */
  ghost function Spot(cs: seq<Chunk>, lo: int, i: nat): int
    requires i <= |cs|
  {
    if i < |cs| then cs[i].at else EndOf(cs, lo)
  }

  /** Walking to the first free chunk k that is not below chunk i finds the free chunks around it. */
  lemma SpotFound(cs: seq<Chunk>, lo: int, i: nat, j: nat, k: nat)
    requires Tiled(cs, lo) && 0 < lo && j <= k <= |cs| && j <= i <= |cs| && (forall l :: j <= l < k ==> !cs[l].free)
    requires k < |cs| ==> cs[k].free && cs[k].at >= Spot(cs, lo, i)
    requires FirstFree(cs[j..], 0) == if k < |cs| then cs[k].at else 0
    ensures LastFree(cs[..i]) == LastFree(cs[..j]) && FirstFree(cs[i..], 0) == FirstFree(cs[j..], 0)
    ensures (i < |cs| && cs[i].free) <==> FirstFree(cs[i..], 0) == Spot(cs, lo, i)
  {
    SpotAfter(cs, lo, i);
    if k < |cs| { Starts(cs, lo, k); if k < i { SpotAbove(cs, lo, k, i); } }
    NoneBetween(cs, j, i);
    if i < k && k < |cs| { AtOrder(cs, lo, i, k); Starts(cs, lo, i); }
  }

  lemma SpotAfter(cs: seq<Chunk>, lo: int, i: nat)
    requires Tiled(cs, lo) && i <= |cs|
    ensures lo <= Spot(cs, lo, i)
  {
    if i < |cs| { Starts(cs, lo, i); } else { EndOfGrows(cs, lo); }
  }

  lemma SpotAbove(cs: seq<Chunk>, lo: int, k: nat, i: nat)
    requires Tiled(cs, lo) && k < i <= |cs|
    ensures cs[k].at < End(cs[k]) <= Spot(cs, lo, i)
  {
    Starts(cs, lo, k);
    if i < |cs| { AtOrder(cs, lo, k, i); }
  }

  /** The next chunk starts where this one ends. */
  lemma SpotNext(cs: seq<Chunk>, lo: int, i: nat)
    requires Tiled(cs, lo) && i < |cs|
    ensures Spot(cs, lo, i + 1) == End(cs[i])
  {
    var pre, post := cs[..i + 1], cs[i + 1..];
    assert cs == pre + post && Last(pre) == cs[i];
    TiledJoin(pre, post, lo);
    EndOfJoin(pre, post, lo);
    LastEnds(pre, lo);
  }

  lemma AtPositive(cs: seq<Chunk>, lo: int, i: nat)
    requires Tiled(cs, lo) && 0 < lo && i < |cs|
    ensures cs[i].at > 0
  {
    Starts(cs, lo, i);
  }

  lemma {:induction false} NoneBetween(cs: seq<Chunk>, j: nat, i: nat)
    requires j <= i <= |cs| && forall l :: j <= l < i ==> !cs[l].free
    ensures LastFree(cs[..i]) == LastFree(cs[..j]) && FirstFree(cs[i..], 0) == FirstFree(cs[j..], 0)
    decreases i - j
  {
    if j < i {
      NoneBetween(cs, j + 1, i);
      assert cs[j..][1..] == cs[j + 1..];
      assert Init(cs[..j + 1]) == cs[..j];
    }
  }

  lemma SplitOut(cs: seq<Chunk>, i: nat)
    requires i < |cs|
    ensures cs == cs[..i] + [cs[i]] + cs[i + 1..] && cs[i..] == [cs[i]] + cs[i + 1..]
    ensures FirstFree(cs[i..], 0) == if cs[i].free then cs[i].at else FirstFree(cs[i + 1..], 0)
  {
    assert cs[i..][1..] == cs[i + 1..];
  }

  lemma LastEnds(cs: seq<Chunk>, lo: int)
    requires Tiled(cs, lo) && cs != []
    ensures End(Last(cs)) == EndOf(cs, lo)
  {
    SplitLast(cs);
    TiledJoin(Init(cs), [Last(cs)], lo);
    EndOfJoin(Init(cs), [Last(cs)], lo);
    assert [Last(cs)][1..] == [];
  }
}
