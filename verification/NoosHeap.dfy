/** The allocator of the no-OS build: one heap grown through the break, a free list sorted by
    address, first fit, neighbours merged on free. */
module NoosHeap {
  import opened Arithmetic
  import opened NoosChunks
  import opened NoosRelease
  import opened NoosTake
  import opened NoosResize
  import opened NoosHeld
  import opened NoosMove

  class Heap {
    var mem: Memory
    var brk: int
    var freeList: int
    ghost var cs: seq<Chunk>
    ghost var lo: int
    ghost var held: map<int, Chunk>
    /** How often the system has refused to say or to move the break. */
    ghost var refusals: nat

    ghost predicate Tidy()
      reads this
    {
      HeapIs(mem, cs, lo, brk, freeList)
    }

    ghost predicate Valid()
      reads this
    {
      Tidy() && HeldOk(mem, cs, held)
    }

    /** The heap before the first call, wherever the break is. */
    constructor (brk: int, mem: Memory)
      requires 0 < brk
      ensures Valid() && held == map[] && cs == [] && this.brk == brk
    {
      this.brk := brk;
      this.mem := mem;
      freeList := 0;
      cs := [];
      lo := RoundUp(brk);
      held := map[];
      refusals := 0;
    }

    /** Moves the break, if there is memory; the old break, or -1. */
    method Sbrk(delta: int) returns (r: int)
      requires 0 <= delta && 0 < brk
      modifies this`brk, this`refusals
      ensures r == -1 || r == old(brk)
      ensures brk == if r == -1 then old(brk) else old(brk) + delta
      ensures refusals == old(refusals) + if r == -1 then 1 else 0
    {
      var refused: bool := *;
      if refused {
        refusals := refusals + 1;
        return -1;
      }
      r := brk;
      brk := brk + delta;
    }

    /** Where the break is, or -1: sbrk(0). */
    method Break() returns (r: int)
      requires 0 < brk
      modifies this`refusals
      ensures r == -1 || r == brk
      ensures refusals == old(refusals) + if r == -1 then 1 else 0
    {
      var refused: bool := *;
      if refused {
        refusals := refusals + 1;
        return -1;
      }
      r := brk;
    }

    /** The free chunks around address c, where chunk i starts. */
    method FindSpot(c: int, ghost i: nat) returns (before: int, next: int)
      requires Tidy() && i <= |cs| && c == Spot(cs, lo, i)
      ensures before == LastFree(cs[..i]) && next == FirstFree(cs[i..], 0)
      ensures next == c <==> i < |cs| && cs[i].free
    {
      hide Tiled, Linked, NoTwoFree, LastFree, FirstFree, Spot, EndOf, Load, Word;
      before, next := 0, freeList;
      LastFreeNone();
      ghost var j: nat := 0;
      assert cs[0..] == cs;
      ghost var k := NextFree(cs, lo, 0);
      while next != 0 && next < c
        invariant j <= k <= |cs| && j <= i && before == LastFree(cs[..j])
        invariant next == FirstFree(cs[j..], 0) == (if k < |cs| then cs[k].at else 0)
        invariant (forall l :: j <= l < k ==> !cs[l].free) && (k < |cs| ==> cs[k].free && cs[k].at > 0)
        decreases |cs| - j
      {
        SpotBelow(cs, lo, i, k);
        TakeReady(mem, cs, lo, k);
        LastFreeNext(cs, k);
        before := next;
        next := Load(mem, next + HEADER);
        j := k + 1;
        k := NextFree(cs, lo, j);
      }
      SpotFound(cs, lo, i, j, k);
    }

    /** Puts a chunk back on the free list, merged with its free neighbours. A chunk that is
        free already stays as it is. */
    method Release(c: int, ghost i: nat)
      requires Tidy() && i < |cs| && cs[i].at == c
      modifies this`mem, this`freeList, this`cs
      ensures Tidy() && cs == if old(cs)[i].free then old(cs) else Released(old(cs)[..i], old(cs)[i], old(cs)[i + 1..])
      ensures old(cs)[i].free ==> mem == old(mem) && freeList == old(freeList)
      ensures LivesSame(old(mem), mem, Lives(old(cs)) - {old(cs)[i]})
    {
      hide Tiled, Linked, NoTwoFree, Word, Lives, Linked3, LivesSame, EndOf, LastFree, FirstFree, Load, Store,
          Released, AfterJoin, Same;
      ghost var pre, x, post := cs[..i], cs[i], cs[i + 1..];
      SplitOut(cs, i);
      SpotAt(cs, lo, i);
      var before, next := FindSpot(c, i);
      if next == c {
        SelfSame(mem, Lives(cs) - {x});
        return;
      }
      ghost var m0 := mem;
      ReleaseReady(m0, pre, x, post, lo);
      if next != 0 && c + Load(mem, c) == next {
        mem := Store(mem, c, Load(mem, c) + Load(mem, next));
        NextOfNext(m0, x, post, x.size + post[0].size);
        mem := Store(mem, c + HEADER, Load(mem, next + HEADER));
      } else {
        mem := Store(mem, c + HEADER, next);
      }
      ghost var m1, y, after := mem, JoinNext(x, post), FirstFree(AfterJoin(post), 0);
      NextReady(m0, pre, x, post, lo);
      if before != 0 && before + Load(mem, before) == c {
        mem := Store(mem, before, Load(mem, before) + Load(mem, c));
        StoredBelow(m1, before, Last(pre).size + y.size, c + HEADER, after);
        mem := Store(mem, before + HEADER, Load(mem, c + HEADER));
      } else if before == 0 {
        freeList := c;
      } else {
        mem := Store(mem, before + HEADER, c);
      }
      ReleaseDone(m0, m1, pre, x, post, lo, brk);
      cs := Released(pre, x, post);
    }

    /** The first free chunk of at least size bytes and the free chunk before it; 0 if none. */
    method FindFit(size: int) returns (before: int, c: int, ghost i: nat)
      requires Tidy()
      ensures c == 0 ==> NoneFits(cs, size)
      ensures c != 0 ==> FirstFit(cs, size, i) && cs[i].at == c && before == LastFree(cs[..i])
    {
      hide Tiled, Linked, NoTwoFree, Word, Load, LastFree, FirstFree, EndOf;
      before, c := 0, freeList;
      LastFreeNone();
      assert cs[0..] == cs;
      i := NextFree(cs, lo, 0);
      if i < |cs| { TakeReady(mem, cs, lo, i); }
      while c != 0 && Load(mem, c) < size
        invariant i <= |cs| && c == (if i < |cs| then cs[i].at else 0) && before == LastFree(cs[..i])
        invariant i < |cs| ==>
          cs[i].free && cs[i].at > 0 && Load(mem, c) == cs[i].size && Load(mem, c + HEADER) == FirstFree(cs[i + 1..], 0)
        invariant forall l :: 0 <= l < i && cs[l].free ==> cs[l].size < size
        decreases |cs| - i
      {
        LastFreeNext(cs, i);
        before := c;
        c := Load(mem, c + HEADER);
        i := NextFree(cs, lo, i + 1);
        if i < |cs| { TakeReady(mem, cs, lo, i); }
      }
    }

    /** Hands out size bytes of free chunk c. */
    method Take(before: int, c: int, size: int, ghost i: nat)
      requires Tidy() && i < |cs| && cs[i].free && cs[i].at == c && before == LastFree(cs[..i])
      requires MIN_CHUNK <= size <= cs[i].size && size % ALIGN == 0
      modifies this`mem, this`freeList, this`cs
      ensures Tidy() && cs == Taken(old(cs)[..i], old(cs)[i], old(cs)[i + 1..], size)
      ensures LivesSame(old(mem), mem, Lives(old(cs))) && Lives(cs) == Lives(old(cs)) + {Cut(old(cs)[i], size)}
    {
      hide Tiled, Linked, NoTwoFree, Word, Lives, LivesSame, Store;
      ghost var pre, x, post := cs[..i], cs[i], cs[i + 1..];
      SplitOut(cs, i);
      ghost var m, next0 := mem, FirstFree(post, 0);
      TakeReady(m, cs, lo, i);
      TakenLinks(m, pre, x, post, size, lo);
      TakenTiles(pre, x, post, size, lo);
      TakenMerged(pre, x, post, size);
      TakenLives(pre, x, post, size);
      TakenSame(m, pre, x, post, size, lo, next0, FirstFree(Rest(x, size), next0));
      var next := Load(mem, c + HEADER);
      var total := Load(mem, c);
      var link := next;
      if total - size >= MIN_CHUNK {
        link := c + size;
        mem := Store(Store(mem, link, total - size), link + HEADER, next);
      }
      if before == 0 { freeList := link; } else { mem := Store(mem, before + HEADER, link); }
      if total - size >= MIN_CHUNK { mem := Store(mem, c, size); }
      cs := Taken(pre, x, post, size);
    }

    /** The highest free chunk and the free chunk before it; 0 if none. */
    method FindTop() returns (before: int, top: int, ghost i: nat)
      requires Tidy()
      ensures top == 0 ==> FirstFree(cs, 0) == 0
      ensures top != 0 ==>
        && i < |cs| && cs[i].free && cs[i].at == top && before == LastFree(cs[..i])
        && Load(mem, top) == cs[i].size && FirstFree(cs[i + 1..], 0) == 0
    {
      hide Tiled, Linked, NoTwoFree, Word, Load, LastFree, FirstFree, EndOf;
      before, top := 0, freeList;
      LastFreeNone();
      i := NextFree(cs, lo, 0);
      assert cs[0..] == cs;
      if i < |cs| { TakeReady(mem, cs, lo, i); }
      while top != 0 && Load(mem, top + HEADER) != 0
        invariant i <= |cs| && top == (if i < |cs| then cs[i].at else 0) && before == LastFree(cs[..i])
        invariant i < |cs| ==>
          cs[i].free && cs[i].at > 0 && Load(mem, top + HEADER) == FirstFree(cs[i + 1..], 0)
          && Load(mem, top) == cs[i].size
        invariant top == 0 ==> FirstFree(cs, 0) == 0
        decreases |cs| - i
      {
        LastFreeNext(cs, i);
        before := top;
        top := Load(mem, top + HEADER);
        i := NextFree(cs, lo, i + 1);
        TakeReady(mem, cs, lo, i);
      }
    }

    /** Pushes the break so that the highest free chunk, which ends at it, has size bytes. */
    method ExtendTop(before: int, top: int, size: int, ghost i: nat) returns (ok: bool)
      requires Tidy() && i < |cs| && cs[i].free && cs[i].at == top && before == LastFree(cs[..i]) && End(cs[i]) == brk
      requires Load(mem, top) == cs[i].size && cs[i].size <= size && size % ALIGN == 0
      modifies this`mem, this`freeList, this`cs, this`brk, this`refusals
      ensures Tidy()
      ensures !ok ==> mem == old(mem) && cs == old(cs) && freeList == old(freeList) && brk == old(brk)
      ensures !ok <==> refusals > old(refusals)
      ensures ok ==> cs == Grown(old(cs), old(brk), size) && brk == top + size
      ensures ok ==> Lives(cs) == Lives(old(cs)) + {Chunk(top, size, false)} && LivesSame(old(mem), mem, Lives(old(cs)))
    {
      hide Tiled, Linked, NoTwoFree, Word, Lives, LivesSame, Store, LastFree;
      TopIsLast(cs, lo, brk, i);
      ghost var pre, x := cs[..i], cs[i];
      GrownLast(mem, pre, x, lo, brk, freeList, size);
      var r := Sbrk(size - Load(mem, top));
      if r == -1 { return false; }
      if before == 0 { freeList := 0; } else { mem := Store(mem, before + HEADER, 0); }
      mem := Store(mem, top, size);
      cs := pre + [Chunk(top, size, false)];
      ok := true;
    }

    /** A new chunk on top of the heap; 0 if the break cannot move. */
    method NewTop(size: int) returns (c: int)
      requires Tidy() && MIN_CHUNK <= size && size % ALIGN == 0
      modifies this`mem, this`cs, this`brk, this`refusals
      ensures Tidy()
      ensures c == 0 ==> mem == old(mem) && cs == old(cs) && brk == old(brk)
      ensures c == 0 <==> refusals > old(refusals)
      ensures c != 0 ==> c == RoundUp(old(brk)) && brk == c + size && cs == old(cs) + [Chunk(c, size, false)]
      ensures c != 0 ==>
        && Chunk(c, size, false) !in Lives(old(cs)) && Lives(cs) == Lives(old(cs)) + {Chunk(c, size, false)}
        && LivesSame(old(mem), mem, Lives(old(cs)))
    {
      hide Tiled, Linked, NoTwoFree, Word, Lives, LivesSame, Store;
      c := 0;
      var pad := RoundUp(brk) - brk;
      PadOnce(cs, lo, brk);
      ghost var brk0 := brk;
      var base := Sbrk(pad + size);
      if base == -1 { return; }
      c := base + pad;
      TopNotLive(cs, lo, Chunk(c, size, false));
      GrownTop(mem, cs, lo, brk0, freeList, c, size);
      mem := Store(mem, c, size);
      cs := cs + [Chunk(c, size, false)];
    }

    /** A new chunk of size bytes from the break; 0 if that is refused. */
    method HeapGrow(size: int) returns (c: int)
      requires Tidy() && NoneFits(cs, size) && MIN_CHUNK <= size && size % ALIGN == 0
      modifies this`mem, this`freeList, this`cs, this`brk, this`refusals
      ensures Tidy()
      ensures c == 0 ==> mem == old(mem) && cs == old(cs) && freeList == old(freeList) && brk == old(brk)
      ensures c == 0 <==> refusals > old(refusals)
      ensures c != 0 ==> cs == Grown(old(cs), old(brk), size) && c == Last(cs).at && brk == c + size
      ensures c != 0 ==>
        && Chunk(c, size, false) !in Lives(old(cs)) && Lives(cs) == Lives(old(cs)) + {Chunk(c, size, false)}
        && LivesSame(old(mem), mem, Lives(old(cs)))
    {
      hide HeapIs, Lives, LivesSame, LastFree, FirstFree;
      c := 0;
      AboveZero(mem, cs, lo, brk, freeList);
      var top0 := Break();
      if top0 == -1 { return; }
      var before, top;
      ghost var i;
      before, top, i := FindTop();
      TopTouches(mem, cs, lo, brk, freeList, top, i);
      if top != 0 && top + Load(mem, top) == top0 {
        FreeNotLive(mem, cs, lo, brk, freeList, cs[i], Chunk(top, size, false));
        var ok := ExtendTop(before, top, size, i);
        if ok { c := top; }
        return;
      }
      c := NewTop(size);
    }

    method Malloc(n: int) returns (p: int, error: int)
      requires Valid() && 0 <= n
      modifies this
      ensures Valid()
      ensures p == 0 ==> error == ENOMEM && held == old(held) && mem == old(mem) && cs == old(cs) && brk == old(brk)
      ensures p == 0 <==> ChunkSizeFor(n) == 0 || refusals > old(refusals)
      ensures refusals > old(refusals) ==> NoneFits(old(cs), ChunkSizeFor(n))
      ensures p != 0 ==> Served(old(cs), old(brk), cs, brk, ChunkSizeFor(n), p - HEADER)
      ensures p != 0 ==>
        && error == 0 && p % ALIGN == 0 && p !in old(held) && p in held && held == old(held)[p := held[p]]
        && held[p].at + HEADER == p && p + n <= End(held[p]) && held[p] !in Owned(old(held))
        && held[p].size < ChunkSizeFor(n) + MIN_CHUNK
      ensures LivesSame(old(mem), mem, Owned(old(held)))
    {
      hide Tiled, Linked, NoTwoFree, Word, Lives, LivesSame, Store, PointsTo, Served, NoneFits, Grown, Taken, HeapIs;
      ghost var m0, cs0, brk0 := mem, cs, brk;
      AboveZero(mem, cs, lo, brk, freeList);
      SizeFits(n);
      SelfSame(mem, Lives(cs));
      var size := ChunkSizeFor(n);
      if size == 0 { return 0, ENOMEM; }
      var before, c;
      ghost var i, d;
      before, c, i := FindFit(size);
      if c != 0 {
        d := Cut(cs[i], size);
        FreeNotLive(mem, cs, lo, brk, freeList, cs[i], d);
        ServedFirst(cs, brk, size, i);
        Take(before, c, size, i);
      } else {
        c := HeapGrow(size);
        if c == 0 { return 0, ENOMEM; }
        ServedGrown(cs0, brk0, size);
        d := Chunk(c, size, false);
      }
      ghost var m1 := mem;
      mem := Store(mem, c + W, 0);
      NewHeld(m0, m1, cs0, cs, lo, brk, freeList, held, d);
      p := c + HEADER;
      held := held[p := d];
      error := 0;
    }

    /** p was freed and its chunk still stands on the free list by itself. */
    ghost predicate FreedBefore(p: int)
      reads this
    {
      exists i :: 0 <= i < |cs| && cs[i].free && Word(mem, p - W, cs[i].at + HEADER - p)
    }

    /** Freeing twice, as long as the chunk has not merged, changes nothing. */
    method Free(p: int)
      requires Valid() && (p == 0 || p in held || FreedBefore(p))
      modifies this`mem, this`freeList, this`cs, this`held
      ensures Valid() && held == old(held) - {p} && LivesSame(old(mem), mem, Owned(held))
      ensures p !in old(held) ==> mem == old(mem) && freeList == old(freeList) && cs == old(cs)
    {
      hide Tiled, Linked, NoTwoFree, Word, Lives, LivesSame, PointsTo, Released, Owned;
      NullNotHeld(mem, cs, lo, held);
      SelfSame(mem, Owned(held));
      assert p !in held ==> held - {p} == held;
      if p == 0 { return; }
      ghost var m0, cs0 := mem, cs;
      ghost var i: nat;
      if p in held {
        i := ChunkOfHeld(mem, cs, lo, held, p);
      } else {
        i :| i < |cs| && cs[i].free && Word(mem, p - W, cs[i].at + HEADER - p);
        LoadWord(mem, p - W, cs[i].at + HEADER - p);
      }
      Release(ChunkOf(mem, p), i);
      if p in held {
        ReleasedLives(cs0, lo, i);
        HeldLess(m0, mem, cs0, cs, lo, held, p);
      }
      held := held - {p};
    }

    /** Cuts chunk i, at c, down to size bytes and frees what is left, if that is a chunk. */
    method Trim(c: int, size: int, ghost i: nat) returns (ghost y: Chunk)
      requires Tidy() && i < |cs| && cs[i].at == c && !cs[i].free && MIN_CHUNK <= size <= cs[i].size
               && size % ALIGN == 0
      modifies this`mem, this`freeList, this`cs
      ensures Tidy() && y.size == (if old(cs)[i].size - size < MIN_CHUNK then old(cs)[i].size else size)
      ensures Reshaped(old(mem), mem, old(cs), cs, i, y)
    {
      hide Tiled, Linked, NoTwoFree, Word, Lives, LivesSame, Same, Store, Released, Reshaped, FirstFree, EndOf;
      ghost var m, pre, x, post, first := mem, cs[..i], cs[i], cs[i + 1..], freeList;
      y := x;
      ReshapedNot(mem, cs, i);
      SplitOut(cs, i);
      HeaderHolds(mem, pre, x, post);
      if Load(mem, c) - size < MIN_CHUNK { return; }
      var rest, left := c + size, Load(mem, c) - size;
      ghost var r := Chunk(rest, left, false);
      y := Chunk(c, size, false);
      SplitLive(m, pre, x, post, lo, brk, first, size);
      mem := Store(Store(mem, rest, left), c, size);
      cs := pre + [y] + ([r] + post);
      ghost var m1 := mem;
      SecondAt(pre, y, r, post);
      Release(rest, i + 1);
      Trimmed(m, m1, mem, pre, x, post, lo, brk, first, size);
    }

    /** Joins free chunk f, right behind chunk i at c, to that chunk. */
    method Absorb(before: int, f: int, c: int, ghost i: nat) returns (ghost y: Chunk)
      requires Tidy() && i + 1 < |cs| && cs[i].at == c && !cs[i].free && cs[i + 1].at == f && cs[i + 1].free
               && before == LastFree(cs[..i + 1])
      modifies this`mem, this`freeList, this`cs
      ensures Tidy() && y.size == old(cs)[i].size + old(cs)[i + 1].size && Reshaped(old(mem), mem, old(cs), cs, i, y)
    {
      hide Tiled, Linked, NoTwoFree, Word, Lives, LivesSame, Same, Store, Reshaped, FirstFree, LastFree, EndOf, Load;
      ghost var pre, x, g, post := cs[..i], cs[i], cs[i + 1], cs[i + 2..];
      assert cs == pre + [x] + ([g] + post) && cs[..i + 1] == pre + [x];
      Absorbed(mem, pre, x, g, post, lo, brk, freeList);
      TakeReady(mem, cs, lo, i + 1);
      var next := Load(mem, f + HEADER);
      if before == 0 { freeList := next; } else { mem := Store(mem, before + HEADER, next); }
      mem := Store(mem, c, Load(mem, c) + Load(mem, f));
      y := Chunk(c, x.size + g.size, false);
      cs := pre + [y] + post;
    }

    /** Pushes the break so that chunk i, which ends at it, has size bytes. */
    method Extend(c: int, size: int, ghost i: nat) returns (ok: bool, ghost y: Chunk)
      requires Tidy() && i < |cs| && cs[i].at == c && !cs[i].free && End(cs[i]) == brk && cs[i].size <= size
               && size % ALIGN == 0
      modifies this`mem, this`brk, this`cs, this`refusals
      ensures Tidy() && Reshaped(old(mem), mem, old(cs), cs, i, y)
      ensures if ok then y.size == size else y == old(cs)[i] && mem == old(mem) && cs == old(cs) && brk == old(brk)
      ensures refusals >= old(refusals)
    {
      hide Tiled, Linked, NoTwoFree, Word, Lives, LivesSame, Same, Store, Reshaped, FirstFree, EndOf, Load;
      ghost var pre, x := cs[..i], cs[i];
      ok, y := false, x;
      TopIsLast(cs, lo, brk, i);
      ReshapedNot(mem, cs, i);
      LoadSize(mem, cs, i);
      Extended(mem, pre, x, lo, brk, freeList, size);
      var r := Sbrk(size - Load(mem, c));
      if r == -1 { return; }
      mem := Store(mem, c, size);
      y := Chunk(c, size, false);
      cs := pre + [y];
      ok := true;
    }

    /** Chunk i, at c, takes in its free neighbour or moves the break, if either gives it size bytes. */
    method GrowInPlace(c: int, size: int, ghost i: nat) returns (ghost y: Chunk)
      requires Tidy() && i < |cs| && cs[i].at == c && !cs[i].free && cs[i].size < size && size % ALIGN == 0
      modifies this`mem, this`freeList, this`brk, this`cs, this`refusals
      ensures Tidy() && Reshaped(old(mem), mem, old(cs), cs, i, y) && old(cs)[i].size <= y.size
      ensures y.size < size ==> mem == old(mem) && cs == old(cs) && freeList == old(freeList) && brk == old(brk)
      ensures y.size >= size <==> Load(mem, c) >= size
      ensures NextFits(old(cs), i, size) ==> y.size >= size
      ensures refusals >= old(refusals)
    {
      hide Tiled, Linked, NoTwoFree, Word, Lives, LivesSame, Same, Store, Reshaped, FirstFree, LastFree, EndOf, Load,
          Spot;
      y := cs[i];
      ReshapedNot(mem, cs, i);
      LoadSize(mem, cs, i);
      SpotNext(cs, lo, i);
      SpotAfter(cs, lo, i + 1);
      var end := c + Load(mem, c);
      var before, f := FindSpot(end, i + 1);
      if f != 0 && f == end {
        SpotAt(cs, lo, i + 1);
        LoadSize(mem, cs, i + 1);
        AtPositive(cs, lo, i + 1);
        Starts(cs, lo, i + 1);
        if Load(mem, c) + Load(mem, f) >= size { y := Absorb(before, f, c, i); }
      } else if f == 0 {
        var top := Break();
        if end == top {
          var ok;
          ok, y := Extend(c, size, i);
        }
      }
      NowAt(old(mem), mem, old(cs), cs, i, y);
    }

    /** Tries to give p's chunk size bytes where it stands. */
    method ResizeHere(p: int, size: int) returns (ok: bool)
      requires Valid() && p in held && p == held[p].at + HEADER && MIN_CHUNK <= size && size % ALIGN == 0
      modifies this
      ensures Valid()
      ensures !ok ==> mem == old(mem) && held == old(held)
      ensures FitsHere(old(cs), old(held)[p], size) ==> ok
      ensures refusals >= old(refusals)
      ensures ok ==>
        && p in held && held == old(held)[p := held[p]] && held[p].at == old(held)[p].at
        && size <= held[p].size < size + MIN_CHUNK
        && Same(old(mem), mem, p, if held[p].size < old(held)[p].size then End(held[p]) else End(old(held)[p]))
      ensures LivesSame(old(mem), mem, Owned(old(held)) - {old(held)[p]})
    {
      hide Tiled, Linked, NoTwoFree, Word, Lives, LivesSame, Reshaped, Owned, PointsTo, Load;
      ghost var m0, cs0, y := mem, cs, held[p];
      SelfSame(mem, Owned(held) - {held[p]});
      ghost var i := ChunkOfHeld(mem, cs, lo, held, p);
      var c := ChunkOf(mem, p);
      ReshapedNot(mem, cs, i);
      FitsAt(cs, lo, i, size);
      if Load(mem, c) < size { y := GrowInPlace(c, size, i); }
      NowAt(m0, mem, cs0, cs, i, y);
      ok := Load(mem, c) >= size;
      if ok {
        ghost var m1, cs1 := mem, cs;
        ghost var z := Trim(c, size, i);
        ReshapedTwice(m0, m1, mem, cs0, cs1, cs, lo, i, y, z);
        HeldChanged(m0, mem, cs0, cs, lo, held, p, i, z);
        ReshapedKeeps(m0, mem, cs0, cs, i, z);
        held := held[p := z];
      }
    }

    method Copy(to: int, from: int, n: int)
      modifies this`mem
      ensures SameButIn(old(mem), mem, to, to + n)
      ensures Copied(old(mem), from, mem, to, n)
    {
      hide BytesPut;
      BytesPutIs(mem, from, to, n);
      mem := BytesPut(mem, from, to, n);
    }

    /** Moves p's bytes to a new block of n bytes. */
    method Move(p: int, n: int) returns (r: int, error: int)
      requires Valid() && p in held && 0 <= n
      modifies this
      ensures Valid()
      ensures r == 0 ==> error == ENOMEM && held == old(held) && mem == old(mem)
      ensures r == 0 <==> ChunkSizeFor(n) == 0 || refusals > old(refusals)
      ensures r != 0 ==>
        && r !in old(held) && r in held && held == (old(held) - {p})[r := held[r]]
        && r == held[r].at + HEADER && r + n <= End(held[r]) && error == 0
        && Copied(old(mem), p, mem, r, if End(old(held)[p]) - p < n then End(old(held)[p]) - p else n)
      ensures LivesSame(old(mem), mem, Owned(old(held)) - {old(held)[p]})
    {
      hide Tiled, Linked, NoTwoFree, Word, Lives, LivesSame, Load, HeapIs;
      ghost var m0, held0, others := mem, held, Owned(held) - {held[p]};
      SelfSame(mem, others);
      var q;
      q, error := Malloc(n);
      if q == 0 { return 0, error; }
      ghost var m1, held1 := mem, held;
      StillHeld(held0, held1, p, q);
      HeldParts(mem, cs, lo, brk, freeList, held, p);
      var keep := UsableSize(mem, p);
      var len := if keep < n then keep else n;
      Copy(q, p, len);
      ghost var m2 := mem;
      WroteWithin(m1, m2, q, q + len, End(held[q]));
      UserWrote(m1, m2, cs, lo, brk, freeList, held, q);
      FewerSame(m0, m1, Owned(held0), others);
      FewerSame(m1, m2, Lives(cs) - {held[q]}, others);
      Free(p);
      FewerSame(m2, mem, Owned(held), others);
      SameTwice(m0, m1, m2, mem, others);
      CopyMoved(m0, m1, m2, mem, held0, held1, p, q, len);
      r := q;
    }

    /** r is where p's block is now: at least n bytes, the old ones kept as far as they fit, and
        nothing else handed out has moved. */
    twostate predicate NowAtLeast(p: int, r: int, n: int)
      reads this
    {
      && r != 0 && r in held && (r == p || r !in old(held)) && held == (old(held) - {p})[r := held[r]]
      && r == held[r].at + HEADER && r % ALIGN == 0 && r + n <= End(held[r])
      && (p in old(held) ==> Copied(old(mem), p, mem, r, if End(old(held)[p]) - p < n then End(old(held)[p]) - p
                                    else n))
    }

    /** p is not over-aligned, and its chunk, or it and the free one behind it, has room for n bytes. */
    twostate predicate MayStay(p: int, n: int)
      reads this
    {
      && p in old(held) && p == old(held)[p].at + HEADER && n != 0 && ChunkSizeFor(n) != 0
      && FitsHere(old(cs), old(held)[p], ChunkSizeFor(n))
    }

    method Realloc(p: int, n: int) returns (r: int, error: int)
      requires Valid() && 0 <= n && (p == 0 || p in held)
      modifies this
      ensures Valid() && LivesSame(old(mem), mem, Owned(old(held) - {p}))
      ensures p != 0 && n == 0 ==> r == 0 && held == old(held) - {p}
      ensures r == 0 && (p == 0 || n != 0) ==> error == ENOMEM && held == old(held) && mem == old(mem)
      ensures r == 0 && (p == 0 || n != 0) ==> ChunkSizeFor(n) == 0 || refusals > old(refusals)
      ensures ChunkSizeFor(n) == 0 ==> r == 0
      ensures MayStay(p, n) ==> r == p
      ensures r != 0 ==> error == 0 && NowAtLeast(p, r, n)
      ensures r == p && p != 0 ==> held[p].size < ChunkSizeFor(n) + MIN_CHUNK
    {
      hide Tiled, Linked, NoTwoFree, Word, LivesSame, Load, PointsTo, HeapIs, Same, Copied, Lives;
      ghost var m0, held0 := mem, held;
      error := 0;
      if p == 0 {
        AllButNull(mem, cs, lo, brk, freeList, held);
        r, error := Malloc(n);
        return;
      }
      OwnedLess(held, p);
      HeldParts(mem, cs, lo, brk, freeList, held, p);
      if n == 0 {
        Free(p);
        r := 0;
        return;
      }
      SelfSame(mem, Owned(held - {p}));
      var size := ChunkSizeFor(n);
      SizeFits(n);
      if size == 0 { return 0, ENOMEM; }
      ChunkAt(mem, cs, lo, brk, freeList, held, p);
      if ChunkOf(mem, p) + HEADER == p {
        var ok := ResizeHere(p, size);
        if ok {
          KeptHere(m0, mem, p, held0[p], held[p], n, size);
          ChunkAt(mem, cs, lo, brk, freeList, held, p);
          assert held == (held0 - {p})[p := held[p]];
          r := p;
          return;
        }
      }
      r, error := Move(p, n);
      if r != 0 { ChunkAt(mem, cs, lo, brk, freeList, held, r); }
    }

    method Memalign(alignment: int, n: int) returns (r: int, error: int)
      requires Valid() && 0 <= n
      modifies this
      ensures Valid() && LivesSame(old(mem), mem, Owned(old(held)))
      ensures r == 0 ==> error == (if PowerOfTwo(alignment) then ENOMEM else EINVAL) && held == old(held)
                         && mem == old(mem)
      ensures PowerOfTwo(alignment) ==> (r == 0 <==> TooLarge(alignment, n) || refusals > old(refusals))
      ensures r != 0 ==>
        && error == 0 && PowerOfTwo(alignment) && Aligned(r, alignment) && r % ALIGN == 0
        && r !in old(held) && r in held && held == old(held)[r := held[r]] && r + n <= End(held[r])
        && held[r] !in Owned(old(held))
    {
      hide Tiled, Linked, NoTwoFree, Word, LivesSame, Load, PointsTo, HeapIs, Same, Lives, Owned, Aligned;
      SelfSame(mem, Owned(held));
      if !PowerOfTwo(alignment) { return 0, EINVAL; }
      if alignment <= ALIGN {
        r, error := Malloc(n);
        if r != 0 { SmallPower(alignment, r); }
        return;
      }
      if n > SIZE_MAX / 2 { return 0, ENOMEM; }
      ghost var m0, held0 := mem, held;
      var p;
      p, error := Malloc(n + alignment - ALIGN);
      if p == 0 { return 0, error; }
      HeldParts(mem, cs, lo, brk, freeList, held, p);
      AlignRoom(p, alignment);
      r := AlignUp(p, alignment);
      if r != p {
        ghost var m1, held1 := mem, held;
        Realigned(m1, cs, lo, brk, freeList, held, p, r);
        mem := Store(mem, r - W, p - r);
        held := (held - {p})[r := held[p]];
        HeldValues(held0, p, held1[p]);
        assert held1 - {p} == held0;
        FewerSame(m1, mem, Lives(cs) - {held1[p]}, Owned(held0));
        SameTwice(m0, m0, m1, mem, Owned(held0));
        SelfSame(m0, Owned(held0));
      }
    }

    method PosixMemalign(alignment: int, n: int) returns (r: int, error: int)
      requires Valid() && 0 <= n
      modifies this
      ensures Valid() && LivesSame(old(mem), mem, Owned(old(held)))
      ensures error == EINVAL <==> alignment < W || !PowerOfTwo(alignment)
      ensures error != 0 ==> (error == EINVAL || error == ENOMEM) && held == old(held) && mem == old(mem)
      ensures error != EINVAL ==> (error == ENOMEM <==> TooLarge(alignment, n) || refusals > old(refusals))
      ensures error == 0 ==>
        && PowerOfTwo(alignment) && Aligned(r, alignment) && r !in old(held) && r in held
        && held == old(held)[r := held[r]] && r + n <= End(held[r])
    {
      hide Aligned, HeapIs, Owned, LivesSame;
      r := 0;
      SelfSame(mem, Owned(held));
      if alignment < W || !PowerOfTwo(alignment) { return 0, EINVAL; }
      var p, e := Memalign(alignment, n);
      if p == 0 { return 0, ENOMEM; }
      return p, 0;
    }
  }
}
