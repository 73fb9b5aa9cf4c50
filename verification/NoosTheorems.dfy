/** What the no-OS heap's invariant says about every reachable heap. */
module NoosTheorems {
  import opened Arithmetic
  import opened NoosChunks
  import opened NoosRelease
  import opened NoosTake
  import opened NoosHeld

  function LiveBytes(cs: seq<Chunk>): int {
    if cs == [] then 0 else LiveBytes(cs[1..]) + if cs[0].free then 0 else cs[0].size
  }

  function FreeBytes(cs: seq<Chunk>): int {
    if cs == [] then 0 else FreeBytes(cs[1..]) + if cs[0].free then cs[0].size else 0
  }

  lemma {:induction false} TilesAddUp(cs: seq<Chunk>, lo: int)
    requires Tiled(cs, lo)
    ensures LiveBytes(cs) + FreeBytes(cs) == EndOf(cs, lo) - lo
  {
    if cs != [] { TilesAddUp(cs[1..], End(cs[0])); }
  }

  /** The largest request malloc takes is half of what a word can say. */
  lemma LargestRequest(n: int)
    requires 0 <= n
    ensures ChunkSizeFor(n) == 0 <==> n > (Pow(256, W) - 1) / 2
  {
    WordValues();
    SizeFits(n);
  }

  /** Not a byte between the heap's start and the break is lost: each is in a live or a free chunk. */
  lemma NothingLost(m: Memory, cs: seq<Chunk>, lo: int, brk: int, first: int)
    requires HeapIs(m, cs, lo, brk, first) && cs != []
    ensures LiveBytes(cs) + FreeBytes(cs) == brk - lo
  {
    TilesAddUp(cs, lo);
  }

  /** Every address from the heap's start to the break is in exactly one chunk. */
  lemma OneChunkEach(m: Memory, cs: seq<Chunk>, lo: int, brk: int, first: int, x: int) returns (i: nat)
    requires HeapIs(m, cs, lo, brk, first) && cs != [] && lo <= x < brk
    ensures i < |cs| && cs[i].at <= x < End(cs[i])
    ensures forall j :: 0 <= j < |cs| && cs[j].at <= x < End(cs[j]) ==> j == i
  {
    i := ChunkWith(cs, lo, x);
    forall j | 0 <= j < |cs| && cs[j].at <= x < End(cs[j]) ensures j == i {
      if j < i { AtOrder(cs, lo, j, i); } else if i < j { AtOrder(cs, lo, i, j); }
    }
  }

  lemma {:induction false} ChunkWith(cs: seq<Chunk>, lo: int, x: int) returns (i: nat)
    requires Tiled(cs, lo) && lo <= x < EndOf(cs, lo)
    ensures i < |cs| && cs[i].at <= x < End(cs[i])
  {
    if x < End(cs[0]) { return 0; }
    i := ChunkWith(cs[1..], End(cs[0]), x);
    i := i + 1;
  }

  /** The free chunks' addresses, lowest first. */
  function FreeAts(cs: seq<Chunk>): seq<int> {
    if cs == [] then [] else if cs[0].free then [cs[0].at] + FreeAts(cs[1..]) else FreeAts(cs[1..])
  }

  /** Following next pointers from a meets exactly the addresses ats, then null. */
  ghost predicate Walk(m: Memory, a: int, ats: seq<int>)
    decreases |ats|
  {
    if ats == [] then a == 0 else a == ats[0] && a != 0 && Walk(m, Load(m, a + HEADER), ats[1..])
  }

  ghost predicate Rising(ats: seq<int>) { |ats| <= 1 || (ats[0] < ats[1] && Rising(ats[1..])) }

  lemma {:induction false} ListWalks(m: Memory, cs: seq<Chunk>, lo: int)
    requires Tiled(cs, lo) && 0 < lo && Linked(m, cs, 0)
    ensures Walk(m, FirstFree(cs, 0), FreeAts(cs)) && Rising(FreeAts(cs)) && forall a :: a in FreeAts(cs) ==> lo <= a
  {
    if cs != [] {
      ListWalks(m, cs[1..], End(cs[0]));
      WordSizes();
      if cs[0].free {
        LoadWord(m, cs[0].at + HEADER, FirstFree(cs[1..], 0));
        var rest := FreeAts(cs[1..]);
        assert FreeAts(cs) == [cs[0].at] + rest && FreeAts(cs)[1..] == rest;
        if rest != [] { assert rest[0] in rest; }
      }
    }
  }

  /** The list that a program can walk is the free chunks and nothing else, in address order. */
  lemma FreeListIsFreeChunks(m: Memory, cs: seq<Chunk>, lo: int, brk: int, first: int)
    requires HeapIs(m, cs, lo, brk, first)
    ensures Walk(m, first, FreeAts(cs)) && Rising(FreeAts(cs))
  {
    ListWalks(m, cs, lo);
  }

  lemma {:induction false} Merged(cs: seq<Chunk>, i: nat)
    requires NoTwoFree(cs) && i + 1 < |cs|
    ensures !(cs[i].free && cs[i + 1].free)
  {
    if i > 0 { Merged(cs[1..], i - 1); }
  }

  /** Free chunks never touch: between two of them there is something live. */
  lemma FreeChunksApart(m: Memory, cs: seq<Chunk>, lo: int, brk: int, first: int, i: nat, j: nat)
    requires HeapIs(m, cs, lo, brk, first) && i < j < |cs| && cs[i].free && cs[j].free
    ensures End(cs[i]) + MIN_CHUNK <= cs[j].at && exists k :: i < k < j && !cs[k].free
  {
    Merged(cs, i);
    assert !cs[i + 1].free;
    AtOrder(cs, lo, i, i + 1);
    AtOrder(cs, lo, i + 1, j);
    Starts(cs, lo, i + 1);
  }

  /** Once everything has been freed, the whole heap is one free chunk. */
  lemma AllFreedIsOne(m: Memory, cs: seq<Chunk>, lo: int, brk: int, first: int, held: map<int, Chunk>)
    requires HeapIs(m, cs, lo, brk, first) && HeldOk(m, cs, held) && held == map[] && cs != []
    ensures cs == [Chunk(lo, brk - lo, true)] && first == lo
  {
    assert Owned(held) == {};
    NoneLive(cs, 0);
    if |cs| > 1 { NoneLive(cs, 1); assert false; }
    assert cs == [cs[0]] && cs[1..] == [];
    assert EndOf(cs[1..], End(cs[0])) == End(cs[0]);
  }

  lemma NoneLive(cs: seq<Chunk>, i: nat)
    requires i < |cs|
    ensures cs[i].free <==> cs[i] !in Lives(cs)
  {
  }

  /** Two pointers that are handed out never share a byte, and each is inside the heap. */
  lemma PayloadsApart(m: Memory, cs: seq<Chunk>, lo: int, brk: int, first: int, held: map<int, Chunk>, p: int, q: int)
    requires HeapIs(m, cs, lo, brk, first) && HeldOk(m, cs, held) && p in held && q in held && p != q
    ensures lo + HEADER <= p <= End(held[p]) <= brk
    ensures End(held[p]) <= q || End(held[q]) <= p
  {
    var i :| 0 <= i < |cs| && cs[i] == held[p];
    Starts(cs, lo, i);
    LiveSizes(cs, lo, held[q]);
    Apart(cs, lo, held[p], held[q]);
    WordSizes();
  }

  /** A free puts back exactly what the malloc took, when nothing happened in between and the
      chunk was cut from a free one whose rest is still a chunk. */
  lemma FreeUndoesTake(pre: seq<Chunk>, x: Chunk, post: seq<Chunk>, size: int)
    requires NoTwoFree(pre + [x] + post) && x.free && MIN_CHUNK <= size <= x.size
    ensures var i, cs := |pre|, Taken(pre, x, post, size);
            i < |cs| && cs[i] == Cut(x, size) && Released(cs[..i], cs[i], cs[i + 1..]) == pre + [x] + post
  {
    hide NoTwoFree, RoundUp, Cut, Rest, Taken, JoinNext, AfterJoin;
    AloneBetween(pre, x, post);
    TakenAt(pre, x, post, size);
    Rejoined(x, post, size);
  }

  lemma TakenAt(pre: seq<Chunk>, x: Chunk, post: seq<Chunk>, size: int)
    ensures var i, cs := |pre|, Taken(pre, x, post, size);
            i < |cs| && cs[i] == Cut(x, size) && cs[..i] == pre && cs[i + 1..] == Rest(x, size) + post
  {
    hide Cut, Rest, RoundUp;
  }

  lemma Rejoined(x: Chunk, post: seq<Chunk>, size: int)
    requires x.free && !TouchesNext(post)
    ensures JoinNext(Cut(x, size), Rest(x, size) + post) == x && AfterJoin(Rest(x, size) + post) == post
  {
    hide RoundUp;
    var r := Rest(x, size);
    if r == [] { assert r + post == post; } else { assert (r + post)[1..] == post; }
  }

  lemma AloneBetween(pre: seq<Chunk>, x: Chunk, post: seq<Chunk>)
    requires NoTwoFree(pre + [x] + post) && x.free
    ensures !TouchesPrev(pre) && !TouchesNext(post)
  {
    assert pre + [x] + post == pre + ([x] + post);
    NoTwoFreeJoin(pre, [x] + post);
    NoTwoFreeJoin([x], post);
  }
}
