/** memcpy, memmove, memset and memchr of string.c. Memory is an array of bytes; an address is
    an index, and a word is four bytes. */
module StringCopy {
  import opened StringWords

  // ---------- what a copy leaves behind ----------

  /** Where the byte at i comes from when n bytes go from s to d. */
  function From(d: int, s: int, n: int, i: int): int { if d <= i < d + n then s + (i - d) else i }

  predicate Fits(len: int, at: int, n: int) { 0 <= at && 0 <= n && at + n <= len }

  /** m' is m with the n bytes at d replaced by those that m has at s. */
  ghost predicate Moved(m: seq<bv8>, m': seq<bv8>, d: int, s: int, n: int)
    requires Fits(|m|, d, n) && Fits(|m|, s, n)
  {
    |m'| == |m| && forall i :: 0 <= i < |m| ==> m'[i] == m[From(d, s, n, i)]
  }

  lemma MovedNone(m: seq<bv8>, d: int, s: int)
    requires Fits(|m|, d, 0) && Fits(|m|, s, 0)
    ensures Moved(m, m, d, s, 0)
  {
  }

  /** Going up: the bytes still to be read have not been written, if d is not above s or the
      two stretches are apart. */
  lemma MovedUp(m: seq<bv8>, m1: seq<bv8>, m2: seq<bv8>, d: int, s: int, k: int, l: int)
    requires Fits(|m|, d, k + l) && Fits(|m|, s, k + l) && 0 <= k && 0 <= l && (d <= s || s + k + l <= d)
    requires Moved(m, m1, d, s, k) && Moved(m1, m2, d + k, s + k, l)
    ensures Moved(m, m2, d, s, k + l)
  {
    forall i | 0 <= i < |m| ensures m2[i] == m[From(d, s, k + l, i)] {
      assert m2[i] == m1[From(d + k, s + k, l, i)];
    }
  }

  /** Going down, with d above s: likewise. */
  lemma MovedDown(m: seq<bv8>, m1: seq<bv8>, m2: seq<bv8>, d: int, s: int, k: int, l: int)
    requires Fits(|m|, d, k + l) && Fits(|m|, s, k + l) && 0 <= k && 0 <= l && s <= d
    requires Moved(m, m1, d + l, s + l, k) && Moved(m1, m2, d, s, l)
    ensures Moved(m, m2, d, s, k + l)
  {
    forall i | 0 <= i < |m| ensures m2[i] == m[From(d, s, k + l, i)] {
      assert m2[i] == m1[From(d, s, l, i)];
    }
  }

  lemma MovedMeans(m: seq<bv8>, m': seq<bv8>, d: int, s: int, n: int)
    requires Fits(|m|, d, n) && Fits(|m|, s, n) && Moved(m, m', d, s, n)
    ensures |m'| == |m| && m'[d..d + n] == m[s..s + n] && m'[..d] == m[..d] && m'[d + n..] == m[d + n..]
  {
  }

  // ---------- alignment ----------

  predicate Aligned(a: int) { a % 4 == 0 }

  predicate Alike(a: int, b: int) { a % 4 == b % 4 }

  /** How far the next aligned address is, and the last one. */
  function Ahead(a: int): (k: int)
    ensures 0 <= k <= 3
  {
    if a % 4 == 0 then 0 else 4 - a % 4
  }

  function Behind(a: int): (k: int)
    ensures 0 <= k <= 3
  {
    a % 4
  }

  lemma AheadIsNext(a: int, k: int)
    requires 0 <= k <= Ahead(a)
    ensures Aligned(a + k) <==> k == Ahead(a)
  {
  }

  lemma BehindIsLast(a: int, k: int)
    requires 0 <= k <= Behind(a)
    ensures Aligned(a - k) <==> k == Behind(a)
  {
  }

  lemma AlignedOn(a: int)
    requires Aligned(a)
    ensures Aligned(a + 4) && Aligned(a - 4)
  {
  }

  lemma AlikeOn(d: int, s: int, k: int)
    requires Alike(d, s) && Aligned(d + k)
    ensures Aligned(s + k)
  {
  }

  lemma AlikeBack(d: int, s: int, n: int, left: int)
    requires Alike(d + n, s + n) && Aligned(d + left)
    ensures Aligned(s + left)
  {
  }

  // ---------- single stores ----------

  method CopyByte(mem: array<bv8>, d: int, s: int)
    requires Fits(mem.Length, d, 1) && Fits(mem.Length, s, 1)
    modifies mem
    ensures Moved(old(mem[..]), mem[..], d, s, 1)
  {
    mem[d] := mem[s];
  }

  /** One word: read whole, then written whole. Stores are always to aligned addresses; loads
      too when the two are aligned alike. */
  method CopyWord(mem: array<bv8>, d: int, s: int, ghost alike: bool)
    requires Fits(mem.Length, d, 4) && Fits(mem.Length, s, 4) && Aligned(d) && (alike ==> Aligned(s))
    modifies mem
    ensures Moved(old(mem[..]), mem[..], d, s, 4)
  {
    var b0, b1, b2, b3 := mem[s], mem[s + 1], mem[s + 2], mem[s + 3];
    mem[d], mem[d + 1], mem[d + 2], mem[d + 3] := b0, b1, b2, b3;
  }

  /** The word at k. */
  method WordUp(mem: array<bv8>, ghost m: seq<bv8>, d: int, s: int, n: int, k: int,
                ghost alike: bool) returns (next: int)
    requires |m| == mem.Length && Fits(|m|, d, n) && Fits(|m|, s, n) && (d <= s || s + n <= d) && 0 <= k && k + 4 <= n
    requires Aligned(d + k) && (alike ==> Aligned(s + k)) && Moved(m, mem[..], d, s, k)
    modifies mem
    ensures next == k + 4 && Aligned(d + next) && (alike ==> Aligned(s + next)) && Moved(m, mem[..], d, s, next)
  {
    hide Moved, Aligned;
    ghost var m0 := mem[..];
    CopyWord(mem, d + k, s + k, alike);
    MovedUp(m, m0, mem[..], d, s, k, 4);
    AlignedOn(d + k);
    if alike { AlignedOn(s + k); }
    next := k + 4;
  }

  /** The byte at k. */
  method ByteUp(mem: array<bv8>, ghost m: seq<bv8>, d: int, s: int, n: int, k: int) returns (next: int)
    requires |m| == mem.Length && Fits(|m|, d, n) && Fits(|m|, s, n) && (d <= s || s + n <= d) && 0 <= k < n
             && Moved(m, mem[..], d, s, k)
    modifies mem
    ensures next == k + 1 && Moved(m, mem[..], d, s, next)
  {
    hide Moved;
    ghost var m0 := mem[..];
    CopyByte(mem, d + k, s + k);
    MovedUp(m, m0, mem[..], d, s, k, 1);
    next := k + 1;
  }

  /** Words upwards from k, four to a round, as long as they fit in n. */
  method WordsUp(mem: array<bv8>, ghost m: seq<bv8>, d: int, s: int, n: int, from: int,
                 ghost alike: bool) returns (k: int)
    requires |m| == mem.Length && Fits(|m|, d, n) && Fits(|m|, s, n) && (d <= s || s + n <= d) && 0 <= from <= n
    requires Aligned(d + from) && (alike ==> Aligned(s + from)) && Moved(m, mem[..], d, s, from)
    modifies mem
    ensures from <= k <= n < k + 4 && Moved(m, mem[..], d, s, k)
  {
    hide Moved, Aligned;
    k := from;
    while n - k >= 16
      invariant from <= k <= n && Aligned(d + k) && (alike ==> Aligned(s + k)) && Moved(m, mem[..], d, s, k)
    {
      k := WordUp(mem, m, d, s, n, k, alike);
      k := WordUp(mem, m, d, s, n, k, alike);
      k := WordUp(mem, m, d, s, n, k, alike);
      k := WordUp(mem, m, d, s, n, k, alike);
    }
    while n - k >= 4
      invariant from <= k <= n && Aligned(d + k) && (alike ==> Aligned(s + k)) && Moved(m, mem[..], d, s, k)
    {
      k := WordUp(mem, m, d, s, n, k, alike);
    }
  }

  /** Bytes upwards until d is aligned. */
  method BytesToAligned(mem: array<bv8>, ghost m: seq<bv8>, d: int, s: int, n: int) returns (k: int)
    requires m == mem[..] && Fits(mem.Length, d, n) && Fits(mem.Length, s, n) && (d <= s || s + n <= d) && n >= 3
    modifies mem
    ensures 0 <= k <= n && Aligned(d + k) && Moved(m, mem[..], d, s, k)
  {
    hide Moved, Aligned, Ahead;
    MovedNone(m, d, s);
    k := 0;
    AheadIsNext(d, k);
    while !Aligned(d + k)
      invariant 0 <= k <= Ahead(d) && (Aligned(d + k) <==> k == Ahead(d)) && Moved(m, mem[..], d, s, k)
      decreases Ahead(d) - k
    {
      k := ByteUp(mem, m, d, s, n, k);
      AheadIsNext(d, k);
    }
  }

  /** One to three bytes, without a loop. */
  method CopyFew(mem: array<bv8>, d: int, s: int, n: int)
    requires Fits(mem.Length, d, n) && Fits(mem.Length, s, n) && 1 <= n <= 3 && (d <= s || s + n <= d)
    modifies mem
    ensures Moved(old(mem[..]), mem[..], d, s, n)
  {
    mem[d] := mem[s];
    if n > 1 { mem[d + n - 2] := mem[s + n - 2]; }
    mem[d + n - 1] := mem[s + n - 1];
  }

  /** memcpy, for stretches that are apart and for those that overlap with d below s. */
  method Memcpy(mem: array<bv8>, d: int, s: int, n: int)
    requires Fits(mem.Length, d, n) && Fits(mem.Length, s, n) && (d <= s || s + n <= d)
    modifies mem
    ensures Moved(old(mem[..]), mem[..], d, s, n)
  {
    hide Moved, Aligned, Alike;
    ghost var m := mem[..];
    MovedNone(m, d, s);
    var k := 0;
    if n >= 8 && Alike(d, s) {
      k := BytesToAligned(mem, m, d, s, n);
      AlikeOn(d, s, k);
      k := WordsUp(mem, m, d, s, n, k, true);
    } else if n >= 4 {
      k := BytesToAligned(mem, m, d, s, n);
      k := WordsUp(mem, m, d, s, n, k, false);
    } else if n != 0 {
      CopyFew(mem, d, s, n);
      return;
    }
    while n - k != 0
      invariant 0 <= k <= n && Moved(m, mem[..], d, s, k)
      decreases n - k
    {
      k := ByteUp(mem, m, d, s, n, k);
    }
  }

  /** Bytes and words downwards from the ends. */
  method MoveDown(mem: array<bv8>, d: int, s: int, n: int)
    requires Fits(mem.Length, d, n) && Fits(mem.Length, s, n) && s < d
    modifies mem
    ensures Moved(old(mem[..]), mem[..], d, s, n)
  {
    hide Moved, Aligned, Alike, Behind;
    ghost var m := mem[..];
    var left := n;
    MovedNone(m, d + n, s + n);
    if n >= 8 && Alike(d + n, s + n) {
      BehindIsLast(d + n, 0);
      while !Aligned(d + left)
        decreases left
        invariant n - Behind(d + n) <= left <= n && (Aligned(d + left) <==> n - left == Behind(d + n))
                  && Moved(m, mem[..], d + left, s + left, n - left)
      {
        left := OneDown(mem, m, d, s, n, left);
        BehindIsLast(d + n, n - left);
        assert d + n - (n - left) == d + left;
      }
      AlikeBack(d, s, n, left);
      while left >= 16
        invariant 0 <= left <= n && Aligned(d + left) && Aligned(s + left)
                  && Moved(m, mem[..], d + left, s + left, n - left)
      {
        left := WordDown(mem, m, d, s, n, left);
        left := WordDown(mem, m, d, s, n, left);
        left := WordDown(mem, m, d, s, n, left);
        left := WordDown(mem, m, d, s, n, left);
      }
      while left >= 4
        invariant 0 <= left <= n && Aligned(d + left) && Aligned(s + left)
                  && Moved(m, mem[..], d + left, s + left, n - left)
      {
        left := WordDown(mem, m, d, s, n, left);
      }
    }
    while left != 0
      invariant 0 <= left <= n && Moved(m, mem[..], d + left, s + left, n - left)
    {
      left := OneDown(mem, m, d, s, n, left);
    }
  }

  method OneDown(mem: array<bv8>, ghost m: seq<bv8>, d: int, s: int, n: int, left: int) returns (next: int)
    requires |m| == mem.Length && Fits(|m|, d, n) && Fits(|m|, s, n) && s < d && 0 < left <= n
             && Moved(m, mem[..], d + left, s + left, n - left)
    modifies mem
    ensures next == left - 1 && Moved(m, mem[..], d + next, s + next, n - next)
  {
    hide Moved;
    ghost var m0 := mem[..];
    next := left - 1;
    CopyByte(mem, d + next, s + next);
    MovedDown(m, m0, mem[..], d + next, s + next, n - left, 1);
  }

  method WordDown(mem: array<bv8>, ghost m: seq<bv8>, d: int, s: int, n: int, left: int) returns (next: int)
    requires |m| == mem.Length && Fits(|m|, d, n) && Fits(|m|, s, n) && s < d && 4 <= left <= n
             && Moved(m, mem[..], d + left, s + left, n - left)
    requires Aligned(d + left) && Aligned(s + left)
    modifies mem
    ensures next == left - 4 && Aligned(d + next) && Aligned(s + next)
            && Moved(m, mem[..], d + next, s + next, n - next)
  {
    hide Moved, Aligned;
    AlignedOn(d + left);
    AlignedOn(s + left);
    ghost var m0 := mem[..];
    next := left - 4;
    CopyWord(mem, d + next, s + next, true);
    MovedDown(m, m0, mem[..], d + next, s + next, n - left, 4);
  }

  /** memmove: the bytes at d become those that were at s, however the two overlap, and no
      other byte changes. */
  method Memmove(mem: array<bv8>, d: int, s: int, n: int)
    requires Fits(mem.Length, d, n) && Fits(mem.Length, s, n)
    modifies mem
    ensures mem[d..d + n] == old(mem[s..s + n])
    ensures mem[..d] == old(mem[..d]) && mem[d + n..] == old(mem[d + n..])
  {
    ghost var m := mem[..];
    if d == s || n == 0 { return; }
    if d < s { Memcpy(mem, d, s, n); } else { MoveDown(mem, d, s, n); }
    MovedMeans(m, mem[..], d, s, n);
  }

  // ---------- memset ----------

  ghost predicate Filled(m: seq<bv8>, m': seq<bv8>, p: int, n: int, b: bv8)
    requires Fits(|m|, p, n)
  {
    |m'| == |m| && forall i :: 0 <= i < |m| ==> m'[i] == if p <= i < p + n then b else m[i]
  }

  method StoreWord(mem: array<bv8>, p: int, w: bv32, ghost m: seq<bv8>, ghost start: int, ghost b: bv8)
    requires Fits(mem.Length, p, 4) && Aligned(p) && w == Repeated(b) && |m| == mem.Length && 0 <= start <= p
             && Filled(m, mem[..], start, p - start, b)
    modifies mem
    ensures Filled(m, mem[..], start, p + 4 - start, b)
  {
    hide Byte, Repeated;
    RepeatedBytes(b);
    mem[p], mem[p + 1], mem[p + 2], mem[p + 3] := Byte(w, 0), Byte(w, 1), Byte(w, 2), Byte(w, 3);
  }

  /** Rounds of count words as long as they fit. */
  method StoreRounds(mem: array<bv8>, at: int, w: bv32, count: int, stop: int, ghost m: seq<bv8>, ghost start: int,
                     ghost b: bv8) returns (p: int)
    requires Fits(mem.Length, at, stop - at) && Aligned(at) && w == Repeated(b) && count >= 1
    requires |m| == mem.Length && 0 <= start <= at && Filled(m, mem[..], start, at - start, b)
    modifies mem
    ensures at <= p <= stop < p + 4 * count && Aligned(p) && Filled(m, mem[..], start, p - start, b)
  {
    hide Filled, Repeated, Aligned;
    p := at;
    while stop - p >= 4 * count
      invariant at <= p <= stop && Aligned(p) && Filled(m, mem[..], start, p - start, b)
      decreases stop - p
    {
      ghost var p0 := p;
      for j := 0 to count
        invariant p == p0 + 4 * j && Aligned(p) && Filled(m, mem[..], start, p - start, b)
      {
        StoreWord(mem, p, w, m, start, b);
        AlignedOn(p);
        p := p + 4;
      }
    }
  }

  method FillByte(mem: array<bv8>, p: int, ghost m: seq<bv8>, ghost start: int, b: bv8)
    requires Fits(mem.Length, p, 1) && |m| == mem.Length && 0 <= start <= p && Filled(m, mem[..], start, p - start, b)
    modifies mem
    ensures Filled(m, mem[..], start, p + 1 - start, b)
  {
    mem[p] := b;
  }

  /** memset: bytes to the first aligned address, then words in rounds of 32, 16, 4 and 1. */
  method Memset(mem: array<bv8>, at: int, value: bv32, num: int)
    requires Fits(mem.Length, at, num)
    modifies mem
    ensures Filled(old(mem[..]), mem[..], at, num, Low(value))
  {
    hide Filled, Repeated, Aligned, Ahead, Low;
    ghost var m := mem[..];
    var b := Low(value);
    var p, stop := at, at + num;
    FilledNone(m, at, b);
    if num >= 8 {
      AheadIsNext(at, 0);
      while !Aligned(p)
        invariant at <= p <= at + Ahead(at) && (Aligned(p) <==> p - at == Ahead(at))
                  && Filled(m, mem[..], at, p - at, b)
        decreases stop - p
      {
        FillByte(mem, p, m, at, b);
        p := p + 1;
        AheadIsNext(at, p - at);
        assert at + (p - at) == p;
      }
      var w := Repeated(b);
      p := StoreRounds(mem, p, w, 32, stop, m, at, b);
      p := StoreRounds(mem, p, w, 16, stop, m, at, b);
      p := StoreRounds(mem, p, w, 4, stop, m, at, b);
      p := StoreRounds(mem, p, w, 1, stop, m, at, b);
    }
    while p != stop
      invariant at <= p <= stop && Filled(m, mem[..], at, p - at, b)
      decreases stop - p
    {
      FillByte(mem, p, m, at, b);
      p := p + 1;
    }
  }

  lemma FilledNone(m: seq<bv8>, p: int, b: bv8)
    requires Fits(|m|, p, 0)
    ensures Filled(m, m, p, 0, b)
  {
  }

  // ---------- memchr ----------

  const NULL := -1

  /** c is not among the bytes from lo up to hi. */
  ghost predicate Without(m: seq<bv8>, lo: int, hi: int, c: bv8)
    requires 0 <= lo <= hi <= |m|
  {
    forall i :: lo <= i < hi ==> m[i] != c
  }

  lemma WithoutMore(m: seq<bv8>, lo: int, hi: int, c: bv8)
    requires 0 <= lo <= hi < |m| && Without(m, lo, hi, c) && m[hi] != c
    ensures Without(m, lo, hi + 1, c)
  {
  }

  lemma WithoutWord(m: seq<bv8>, lo: int, hi: int, c: bv8)
    requires 0 <= lo <= hi && hi + 4 <= |m| && Without(m, lo, hi, c)
    requires Misses(m[hi], m[hi + 1], m[hi + 2], m[hi + 3], Repeated(c))
    ensures Without(m, lo, hi + 4, c)
  {
    hide Misses, Repeated;
    MissesMeans(m[hi], m[hi + 1], m[hi + 2], m[hi + 3], c);
    forall i | lo <= i < hi + 4 ensures m[i] != c {
      if i >= hi { assert i == hi || i == hi + 1 || i == hi + 2 || i == hi + 3; }
    }
  }

  /** memchr: the first place of a character among n bytes, NULL if it is not there. */
  method Memchr(mem: array<bv8>, src: int, ch: bv32, n: int) returns (r: int)
    requires Fits(mem.Length, src, n)
    ensures var c := Low(ch);
      if r == NULL then Without(mem[..], src, src + n, c)
      else src <= r < src + n && mem[r] == c && Without(mem[..], src, r, c)
  {
    hide Misses, Repeated, Aligned, Without, Low;
    ghost var m := mem[..];
    var c := Low(ch);
    var s, left := src, n;
    var k := Repeated(c);
    WithoutNone(m, src, c);
    while !Aligned(s) && left != 0 && mem[s] != c
      invariant src <= s && 0 <= left && s + left == src + n && Without(m, src, s, c)
      decreases left
    {
      WithoutMore(m, src, s, c);
      s, left := s + 1, left - 1;
    }
    if left != 0 && mem[s] != c {
      while left >= 4 && Misses(mem[s], mem[s + 1], mem[s + 2], mem[s + 3], k)
        invariant src <= s && 0 <= left && s + left == src + n && Aligned(s) && Without(m, src, s, c)
      {
        WithoutWord(m, src, s, c);
        AlignedOn(s);
        s, left := s + 4, left - 4;
      }
    }
    while left != 0 && mem[s] != c
      invariant src <= s && 0 <= left && s + left == src + n && Without(m, src, s, c)
      decreases left
    {
      WithoutMore(m, src, s, c);
      s, left := s + 1, left - 1;
    }
    r := if left != 0 then s else NULL;
  }

  lemma WithoutNone(m: seq<bv8>, lo: int, c: bv8)
    requires 0 <= lo <= |m|
    ensures Without(m, lo, lo, c)
  {
  }
}
