/** qsort, a heapsort whose node i has children 2i and 2i+1 with node 0 above node 1, and bsearch. */
module Sorting {
  // ---------- comparing ----------

  /** A comparison function that orders all values, equal ones aside. */
  ghost predicate TotalPreorder<T(!new)>(cmp: (T, T) -> int) {
    && (forall x, y :: cmp(x, y) < 0 <==> cmp(y, x) > 0)
    && (forall x, y, z :: cmp(x, y) <= 0 && cmp(y, z) <= 0 ==> cmp(x, z) <= 0)
  }

  predicate Le<T>(cmp: (T, T) -> int, x: T, y: T) { cmp(x, y) <= 0 }

  ghost predicate Sorted<T>(cmp: (T, T) -> int, s: seq<T>) { forall i, j :: 0 <= i < j < |s| ==> Le(cmp, s[i], s[j]) }

  lemma LeTrans<T(!new)>(cmp: (T, T) -> int, x: T, y: T, z: T)
    requires TotalPreorder(cmp) && Le(cmp, x, y) && Le(cmp, y, z)
    ensures Le(cmp, x, z)
  {
  }

  lemma LeTotal<T(!new)>(cmp: (T, T) -> int, x: T, y: T)
    requires TotalPreorder(cmp)
    ensures Le(cmp, x, x) && (cmp(x, y) < 0 ==> Le(cmp, x, y)) && (cmp(x, y) >= 0 ==> Le(cmp, y, x))
  {
    assert cmp(x, x) < 0 <==> cmp(x, x) > 0;
    assert cmp(y, x) > 0 <==> cmp(x, y) < 0;
  }

  // ---------- exchanging ----------

  function Swapped<T>(s: seq<T>, i: nat, j: nat): (r: seq<T>)
    requires i < |s| && j < |s|
    ensures |r| == |s|
  {
    s[i := s[j]][j := s[i]]
  }

  lemma SwappedKeeps<T>(s: seq<T>, i: nat, j: nat, m: nat)
    requires i < m <= |s| && j < m
    ensures multiset(Swapped(s, i, j)[..m]) == multiset(s[..m])
    ensures Swapped(s, i, j)[m..] == s[m..]
  {
    var u := s[..m];
    assert Swapped(s, i, j)[..m] == Swapped(u, i, j);
    var without := multiset(u)[u[i] := multiset(u)[u[i]] - 1];
    assert multiset(u[i := u[j]]) == without[u[j] := without[u[j]] + 1];
  }

  /** The same elements in the first m places, and the same ones in each place after them. */
  ghost predicate Shuffled<T>(s: seq<T>, t: seq<T>, m: nat)
    requires m <= |s|
  {
    |t| == |s| && multiset(t[..m]) == multiset(s[..m]) && t[m..] == s[m..]
  }

  lemma ShuffledSwap<T>(s: seq<T>, t: seq<T>, m: nat, i: nat, j: nat)
    requires m <= |s| && Shuffled(s, t, m) && i < m && j < m
    ensures Shuffled(s, Swapped(t, i, j), m)
  {
    SwappedKeeps(t, i, j, m);
  }

  // ---------- the heap ----------

  /** Every node from the children of lo on, up to index n, is at most its parent. */
  ghost predicate Heap<T>(cmp: (T, T) -> int, s: seq<T>, lo: int, n: int) {
    n < |s| && forall j :: 1 <= j <= n && j / 2 >= lo ==> Le(cmp, s[j], s[j / 2])
  }

  /** The heap with node r still to be put in its place: only r may be smaller than its
      children, and those fit below r's parent. */
  ghost predicate HeapBut<T>(cmp: (T, T) -> int, s: seq<T>, lo: int, n: int, r: int) {
    && 0 <= lo <= r && n < |s|
    && (forall j :: 1 <= j <= n && j / 2 >= lo && j / 2 != r ==> Le(cmp, s[j], s[j / 2]))
    && (forall j :: 1 <= j <= n && j / 2 == r && r > lo ==> Le(cmp, s[j], s[r / 2]))
    && (r > lo ==> r / 2 >= lo)
  }

  /** The children of r that there are. */
  ghost predicate ChildOf(j: int, r: int, n: int) { 1 <= j <= n && j / 2 == r }

  lemma SiftStep<T(!new)>(cmp: (T, T) -> int, s: seq<T>, lo: int, n: int, r: int, c: int)
    requires TotalPreorder(cmp) && HeapBut(cmp, s, lo, n, r) && ChildOf(c, r, n) && Le(cmp, s[r], s[c])
    requires forall j :: ChildOf(j, r, n) ==> Le(cmp, s[j], s[c])
    ensures HeapBut(cmp, Swapped(s, r, c), lo, n, c)
  {
    hide TotalPreorder, Le;
    var t := Swapped(s, r, c);
    forall j | 1 <= j <= n && j / 2 >= lo && j / 2 != c ensures Le(cmp, t[j], t[j / 2]) {
      if j / 2 == r {
        assert ChildOf(j, r, n);
      } else if j == r {
        assert Le(cmp, s[c], s[r / 2]);
      }
    }
    forall j | 1 <= j <= n && j / 2 == c ensures Le(cmp, t[j], t[c / 2]) {
      assert Le(cmp, s[j], s[j / 2]);
    }
  }

  lemma SiftDone<T>(cmp: (T, T) -> int, s: seq<T>, lo: int, n: int, r: int)
    requires HeapBut(cmp, s, lo, n, r) && forall j :: ChildOf(j, r, n) ==> Le(cmp, s[j], s[r])
    ensures Heap(cmp, s, lo, n)
  {
    forall j | 1 <= j <= n && j / 2 >= lo ensures Le(cmp, s[j], s[j / 2]) {
      if j / 2 == r { assert ChildOf(j, r, n); }
    }
  }

  /** Sifts node root down among the nodes up to n: the heap reaches one node further. */
  method Fix<T(!new)>(a: array<T>, root: nat, n: int, cmp: (T, T) -> int)
    requires TotalPreorder(cmp) && root <= n < a.Length && Heap(cmp, a[..], root + 1, n)
    modifies a
    ensures Heap(cmp, a[..], root, n) && Shuffled(old(a[..]), a[..], n + 1)
  {
    hide TotalPreorder, Heap, HeapBut, ChildOf, Shuffled, Le;
    ghost var s0 := a[..];
    var r := root;
    HeapButStart(cmp, s0, root, n);
    while 2 * r <= n
      invariant root <= r <= n && HeapBut(cmp, a[..], root, n, r) && Shuffled(s0, a[..], n + 1)
      decreases n - r
    {
      var max := 2 * r;
      if max < n && cmp(a[max], a[max + 1]) < 0 { max := max + 1; }
      MaxChild(cmp, a[..], r, n, max);
      if max != 0 && cmp(a[r], a[max]) < 0 {
        LeTotal(cmp, a[r], a[max]);
        SiftStep(cmp, a[..], root, n, r, max);
        ShuffledSwap(s0, a[..], n + 1, r, max);
        ghost var s := a[..];
        a[r], a[max] := a[max], a[r];
        assert a[..] == Swapped(s, r, max);
        r := max;
      } else {
        NotBelow(cmp, a[..], r, n, max);
        SiftDone(cmp, a[..], root, n, r);
        return;
      }
    }
    NoChildren(cmp, a[..], r, n);
    SiftDone(cmp, a[..], root, n, r);
  }

  lemma HeapButStart<T>(cmp: (T, T) -> int, s: seq<T>, root: nat, n: int)
    requires root <= n < |s| && Heap(cmp, s, root + 1, n)
    ensures HeapBut(cmp, s, root, n, root) && Shuffled(s, s, n + 1)
  {
  }

  /** max is the greatest child; node 0 has only one, and none if the heap is a single node. */
  lemma MaxChild<T(!new)>(cmp: (T, T) -> int, s: seq<T>, r: nat, n: int, max: int)
    requires TotalPreorder(cmp) && 2 * r <= n < |s|
    requires max == if 2 * r < n && cmp(s[2 * r], s[2 * r + 1]) < 0 then 2 * r + 1 else 2 * r
    ensures max != 0 ==> ChildOf(max, r, n) && r < max && forall j :: ChildOf(j, r, n) ==> Le(cmp, s[j], s[max])
    ensures max == 0 ==> r == 0 && forall j :: ChildOf(j, r, n) ==> j == 1 && cmp(s[0], s[1]) >= 0
  {
    LeTotal(cmp, s[max], s[max]);
    if 2 * r < n { LeTotal(cmp, s[2 * r], s[2 * r + 1]); }
    forall j | ChildOf(j, r, n) ensures j == 2 * r || j == 2 * r + 1 {}
  }

  lemma NotBelow<T(!new)>(cmp: (T, T) -> int, s: seq<T>, r: nat, n: int, max: int)
    requires TotalPreorder(cmp) && r <= n < |s| && 0 <= max <= n && (max == 0 || cmp(s[r], s[max]) >= 0)
    requires max != 0 ==> forall j :: ChildOf(j, r, n) ==> Le(cmp, s[j], s[max])
    requires max == 0 ==> r == 0 && forall j :: ChildOf(j, r, n) ==> j == 1 && cmp(s[0], s[1]) >= 0
    ensures forall j :: ChildOf(j, r, n) ==> Le(cmp, s[j], s[r])
  {
    forall j | ChildOf(j, r, n) ensures Le(cmp, s[j], s[r]) {
      if max == 0 {
        LeTotal(cmp, s[0], s[1]);
      } else {
        LeTotal(cmp, s[r], s[max]);
        LeTrans(cmp, s[j], s[max], s[r]);
      }
    }
  }

  lemma NoChildren<T>(cmp: (T, T) -> int, s: seq<T>, r: nat, n: int)
    requires 2 * r > n && n < |s| && r < |s|
    ensures forall j :: ChildOf(j, r, n) ==> Le(cmp, s[j], s[r])
  {
  }

  /** The first node is a greatest one. */
  lemma {:induction false} RootIsGreatest<T(!new)>(cmp: (T, T) -> int, s: seq<T>, n: int, j: nat)
    requires TotalPreorder(cmp) && Heap(cmp, s, 0, n) && j <= n
    ensures Le(cmp, s[j], s[0])
  {
    LeTotal(cmp, s[0], s[0]);
    if j > 0 {
      RootIsGreatest(cmp, s, n, j / 2);
      LeTrans(cmp, s[j], s[j / 2], s[0]);
    }
  }

  // ---------- sorting ----------

  /** Past index i everything is in order and at least as great as what is left. */
  ghost predicate Settled<T>(cmp: (T, T) -> int, s: seq<T>, i: int) {
    && 0 <= i < |s| && Sorted(cmp, s[i + 1..])
    && forall j, k :: 0 <= j <= i < k < |s| ==> Le(cmp, s[j], s[k])
  }

  /** Moving the greatest one to place i settles that place. */
  lemma SettleOne<T(!new)>(cmp: (T, T) -> int, s: seq<T>, i: int)
    requires TotalPreorder(cmp) && 0 < i && Settled(cmp, s, i) && Heap(cmp, s, 0, i)
    ensures var t := Swapped(s, 0, i); Settled(cmp, t, i - 1) && Heap(cmp, t, 1, i - 1)
  {
    hide TotalPreorder, Le;
    var t := Swapped(s, 0, i);
    forall j, k | 0 <= j < i <= k < |t| ensures Le(cmp, t[j], t[k]) {
      if k == i { RootIsGreatest(cmp, s, i, if j == 0 then i else j); }
    }
    forall j, k | 0 <= j < k < |t| - i ensures Le(cmp, t[i..][j], t[i..][k]) {
      if j > 0 { assert s[i + 1..][j - 1] == t[i..][j] && s[i + 1..][k - 1] == t[i..][k]; }
    }
    forall j | 1 <= j <= i - 1 && j / 2 >= 1 ensures Le(cmp, t[j], t[j / 2]) {
      assert Le(cmp, s[j], s[j / 2]);
    }
  }

  /** Shuffling what is not settled keeps the rest settled. */
  lemma StaysSettled<T>(cmp: (T, T) -> int, s: seq<T>, t: seq<T>, i: int)
    requires Settled(cmp, s, i) && Shuffled(s, t, i + 1)
    ensures Settled(cmp, t, i)
  {
    forall j, k | 0 <= j <= i < k < |t| ensures Le(cmp, t[j], t[k]) {
      assert t[j] in multiset(t[..i + 1]) by { assert t[j] == t[..i + 1][j]; }
      assert t[j] in multiset(s[..i + 1]);
      var l :| 0 <= l <= i && s[l] == t[j];
      assert t[k] == t[i + 1..][k - i - 1] == s[i + 1..][k - i - 1] == s[k];
    }
  }

  ghost predicate Permuted<T>(s: seq<T>, t: seq<T>) { multiset(t) == multiset(s) }

  lemma PermutedSelf<T>(s: seq<T>)
    ensures Permuted(s, s)
  {
  }

  lemma PermutedMore<T>(s: seq<T>, t: seq<T>, u: seq<T>, m: nat)
    requires m <= |t| && Permuted(s, t) && Shuffled(t, u, m)
    ensures Permuted(s, u)
  {
    assert u == u[..m] + u[m..] && t == t[..m] + t[m..];
  }

  lemma PermutedSwap<T>(s: seq<T>, t: seq<T>, i: nat, j: nat)
    requires i < |t| && j < |t| && Permuted(s, t)
    ensures Permuted(s, Swapped(t, i, j))
  {
    SwappedKeeps(t, i, j, |t|);
    assert t[..|t|] == t && Swapped(t, i, j)[..|t|] == Swapped(t, i, j);
  }

  /** Half the nodes have no children; the others are sifted down, the last one first. */
  method BuildHeap<T(!new)>(a: array<T>, cmp: (T, T) -> int)
    requires TotalPreorder(cmp) && a.Length > 0
    modifies a
    ensures Heap(cmp, a[..], 0, a.Length - 1) && Permuted(old(a[..]), a[..])
  {
    hide TotalPreorder, Heap, Shuffled, Permuted, Le;
    ghost var s0 := a[..];
    var n := a.Length;
    var i := (n + 1) / 2;
    NoParents(cmp, s0, i, n - 1);
    PermutedSelf(s0);
    while i != 0
      invariant 0 <= i <= n && Heap(cmp, a[..], i, n - 1) && Permuted(s0, a[..])
    {
      ghost var s := a[..];
      Fix(a, i - 1, n - 1, cmp);
      PermutedMore(s0, s, a[..], n);
      i := i - 1;
    }
  }

  method Qsort<T(!new)>(a: array<T>, cmp: (T, T) -> int)
    requires TotalPreorder(cmp)
    modifies a
    ensures Sorted(cmp, a[..]) && Permuted(old(a[..]), a[..])
  {
    hide TotalPreorder, Heap, Shuffled, Permuted, Le, Settled;
    ghost var s0 := a[..];
    PermutedSelf(s0);
    var n := a.Length;
    if n == 0 { return; }
    BuildHeap(a, cmp);
    var i := n - 1;
    NothingSettled(cmp, a[..]);
    while i != 0
      invariant 0 <= i < n && Settled(cmp, a[..], i) && Heap(cmp, a[..], 0, i) && Permuted(s0, a[..])
    {
      SettleOne(cmp, a[..], i);
      PermutedSwap(s0, a[..], 0, i);
      ghost var s := a[..];
      a[0], a[i] := a[i], a[0];
      ghost var t := a[..];
      assert t == Swapped(s, 0, i);
      Fix(a, 0, i - 1, cmp);
      PermutedMore(s0, t, a[..], i);
      StaysSettled(cmp, t, a[..], i - 1);
      i := i - 1;
    }
    AllSettled(cmp, a[..]);
  }

  lemma NoParents<T>(cmp: (T, T) -> int, s: seq<T>, i: int, n: int)
    requires n == |s| - 1 && 2 * i >= |s|
    ensures Heap(cmp, s, i, n)
  {
  }

  lemma NothingSettled<T>(cmp: (T, T) -> int, s: seq<T>)
    requires s != []
    ensures Settled(cmp, s, |s| - 1)
  {
  }

  lemma AllSettled<T>(cmp: (T, T) -> int, s: seq<T>)
    requires Settled(cmp, s, 0)
    ensures Sorted(cmp, s)
  {
    forall i, j | 0 <= i < j < |s| ensures Le(cmp, s[i], s[j]) {
      if i > 0 { assert s[1..][i - 1] == s[i] && s[1..][j - 1] == s[j]; }
    }
  }

  // ---------- searching ----------

  /** The elements below the key come first, then those equal to it, then those above. */
  ghost predicate Partitioned<K, T>(s: seq<T>, key: K, cmp: (K, T) -> int) {
    forall i, j :: 0 <= i < j < |s| ==>
      (cmp(key, s[i]) <= 0 ==> cmp(key, s[j]) <= 0) && (cmp(key, s[i]) < 0 ==> cmp(key, s[j]) < 0)
  }

  /** What qsort leaves can be searched for every key. */
  lemma SortedIsPartitioned<T(!new)>(cmp: (T, T) -> int, s: seq<T>, key: T)
    requires TotalPreorder(cmp) && Sorted(cmp, s)
    ensures Partitioned(s, key, cmp)
  {
    forall i, j | 0 <= i < j < |s|
      ensures (cmp(key, s[i]) <= 0 ==> cmp(key, s[j]) <= 0) && (cmp(key, s[i]) < 0 ==> cmp(key, s[j]) < 0)
    {
      assert Le(cmp, s[i], s[j]);
      if cmp(key, s[j]) >= 0 { LeTotal(cmp, key, s[j]); }
    }
  }

  method Bsearch<K, T>(s: seq<T>, key: K, cmp: (K, T) -> int) returns (r: int)
    requires Partitioned(s, key, cmp)
    ensures r == -1 || (0 <= r < |s| && cmp(key, s[r]) == 0)
    ensures r == -1 <==> forall i :: 0 <= i < |s| ==> cmp(key, s[i]) != 0
  {
    var lo, nmemb := 0, |s|;
    while nmemb > 0
      invariant 0 <= lo && 0 <= nmemb && lo + nmemb <= |s|
      invariant forall i :: 0 <= i < lo ==> cmp(key, s[i]) > 0
      invariant forall i :: lo + nmemb <= i < |s| ==> cmp(key, s[i]) < 0
    {
      var mid := lo + nmemb / 2;
      var c := cmp(key, s[mid]);
      if c == 0 { return mid; }
      if c > 0 {
        lo := mid + 1;
        nmemb := nmemb - (nmemb / 2 + 1);
      } else {
        nmemb := nmemb / 2;
      }
    }
    r := -1;
  }

  // ---------- exchanging blocks of bytes ----------

  const TMP := 256

  /** Where byte i comes from when the n bytes at x and at y are exchanged. */
  function From(x: nat, y: nat, n: nat, i: int): int {
    if x <= i < x + n then i - x + y else if y <= i < y + n then i - y + x else i
  }

  ghost predicate Exchanged(m: seq<bv8>, m': seq<bv8>, x: nat, y: nat, n: nat)
    requires x + n <= |m| && y + n <= |m|
  {
    |m'| == |m| && forall i :: 0 <= i < |m| ==> m'[i] == m[From(x, y, n, i)]
  }

  /** Exchanges the n bytes at x and at y through a buffer that holds them. */
  method SwapPart(mem: array<bv8>, x: nat, y: nat, n: nat)
    requires n <= TMP && x + n <= mem.Length && y + n <= mem.Length && (x + n <= y || y + n <= x)
    modifies mem
    ensures Exchanged(old(mem[..]), mem[..], x, y, n)
  {
    var tmp := mem[x..x + n];
    forall i | x <= i < x + n { mem[i] := mem[i - x + y]; }
    forall i | y <= i < y + n { mem[i] := tmp[i - y]; }
  }

  lemma ExchangedMore(m: seq<bv8>, m1: seq<bv8>, m2: seq<bv8>, x: nat, y: nat, k: nat, l: nat)
    requires x + k + l <= |m| && y + k + l <= |m| && (x + k + l <= y || y + k + l <= x)
    requires Exchanged(m, m1, x, y, k) && Exchanged(m1, m2, x + k, y + k, l)
    ensures Exchanged(m, m2, x, y, k + l)
  {
    forall i | 0 <= i < |m| ensures m2[i] == m[From(x, y, k + l, i)] {
      assert m2[i] == m1[From(x + k, y + k, l, i)];
    }
  }

  /** Exchanges the sz bytes at x with those at y, at most 256 at a time. */
  method Swap(mem: array<bv8>, x: nat, y: nat, sz: nat)
    requires x + sz <= mem.Length && y + sz <= mem.Length && (x + sz <= y || y + sz <= x)
    modifies mem
    ensures Exchanged(old(mem[..]), mem[..], x, y, sz)
  {
    hide Exchanged;
    ghost var m := mem[..];
    var a, b, left := x, y, sz;
    ExchangedNone(m, x, y);
    while left != 0
      invariant 0 <= left <= sz && a == x + (sz - left) && b == y + (sz - left)
                && Exchanged(m, mem[..], x, y, sz - left)
    {
      var l := if left < TMP then left else TMP;
      ghost var m1 := mem[..];
      SwapPart(mem, a, b, l);
      ExchangedMore(m, m1, mem[..], x, y, sz - left, l);
      a, b, left := a + l, b + l, left - l;
    }
  }

  lemma ExchangedNone(m: seq<bv8>, x: nat, y: nat)
    requires x <= |m| && y <= |m|
    ensures Exchanged(m, m, x, y, 0)
  {
  }
}
