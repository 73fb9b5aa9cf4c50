/** The syntax trees of regcomp.c, as values, and the language each one denotes.

    A leaf is a range of characters with a position number, or the empty string; an
    iteration carries the source's two counts, with -1 for "no upper bound". */
module RegexSyntax {

  datatype Re =
    | Eps
    | Lit(lo: int, hi: int, pos: int)
    | Cat(left: Re, right: Re)
    | Alt(left: Re, right: Re)
    | Iter(arg: Re, min: int, max: int)

  const UNBOUNDED := -1

  /** The counts the parser can build: {m,n} with m <= n and n > 0, or no upper bound. */
  predicate Counts(min: int, max: int) {
    0 <= min && (max == UNBOUNDED || (min <= max && 1 <= max))
  }

  predicate WellCounted(t: Re) {
    match t
    case Eps => true
    case Lit(_, _, pos) => 0 <= pos
    case Cat(l, r) => WellCounted(l) && WellCounted(r)
    case Alt(l, r) => WellCounted(l) && WellCounted(r)
    case Iter(a, min, max) => Counts(min, max) && WellCounted(a)
  }

  // ---------- the language ----------

  ghost predicate Matches(t: Re, s: seq<int>)
    decreases t, 0, 1
  {
    match t
    case Eps => s == []
    case Lit(lo, hi, _) => |s| == 1 && lo <= s[0] <= hi
    case Cat(l, r) => exists k :: CatAt(l, r, s, k)
    case Alt(l, r) => Matches(l, s) || Matches(r, s)
    case Iter(a, min, max) => exists n: nat :: Allows(min, max, n) && Power(a, n, s)
  }

  /** s splits after k characters into a word of l and a word of r. */
  ghost predicate CatAt(l: Re, r: Re, s: seq<int>, k: int)
    decreases Cat(l, r), 0, 0
  {
    0 <= k <= |s| && Matches(l, s[..k]) && Matches(r, s[k..])
  }

  predicate Allows(min: int, max: int, n: nat) {
    min <= n && (max == UNBOUNDED || n <= max)
  }

  /** s is a concatenation of exactly n words of a. */
  ghost predicate Power(a: Re, n: nat, s: seq<int>)
    decreases a, n + 1, 1
  {
    if n == 0 then s == [] else exists k :: PowerAt(a, n, s, k)
  }

  /** The first of n > 0 words ends after k characters. */
  ghost predicate PowerAt(a: Re, n: nat, s: seq<int>, k: int)
    requires n > 0
    decreases a, n + 1, 0
  {
    0 <= k <= |s| && Matches(a, s[..k]) && Power(a, n - 1, s[k..])
  }

  ghost predicate SameLanguage(t: Re, u: Re) {
    forall s :: Matches(t, s) <==> Matches(u, s)
  }

  // ---------- introduction rules, and laws of powers ----------

  lemma CatIntro(l: Re, r: Re, u: seq<int>, v: seq<int>)
    requires Matches(l, u) && Matches(r, v)
    ensures Matches(Cat(l, r), u + v)
  {
    assert (u + v)[..|u|] == u && (u + v)[|u|..] == v;
    assert CatAt(l, r, u + v, |u|);
  }

  lemma CatElim(l: Re, r: Re, s: seq<int>) returns (k: nat)
    requires Matches(Cat(l, r), s)
    ensures CatAt(l, r, s, k)
  {
    k :| CatAt(l, r, s, k);
  }

  lemma PowerStep(a: Re, n: nat, u: seq<int>, v: seq<int>)
    requires Matches(a, u) && Power(a, n, v)
    ensures Power(a, n + 1, u + v)
  {
    assert (u + v)[..|u|] == u && (u + v)[|u|..] == v;
    assert PowerAt(a, n + 1, u + v, |u|);
  }

  lemma PowerFirst(a: Re, n: nat, s: seq<int>) returns (k: nat)
    requires n > 0 && Power(a, n, s)
    ensures PowerAt(a, n, s, k)
  {
    k :| PowerAt(a, n, s, k);
  }

  lemma {:induction false} PowerJoin(a: Re, m: nat, n: nat, u: seq<int>, v: seq<int>)
    requires Power(a, m, u) && Power(a, n, v)
    ensures Power(a, m + n, u + v)
    decreases m
  {
    if m == 0 {
      assert u + v == v;
    } else {
      var k :| PowerAt(a, m, u, k);
      PowerJoin(a, m - 1, n, u[k..], v);
      PowerStep(a, m - 1 + n, u[..k], u[k..] + v);
      assert u + v == u[..k] + (u[k..] + v);
    }
  }

  lemma {:induction false} PowerSplit(a: Re, m: nat, n: nat, s: seq<int>) returns (k: nat)
    requires Power(a, m + n, s)
    ensures k <= |s| && Power(a, m, s[..k]) && Power(a, n, s[k..])
    decreases m
  {
    if m == 0 {
      k := 0;
      assert s[0..] == s;
    } else {
      var i :| PowerAt(a, m + n, s, i);
      var j := PowerSplit(a, m - 1, n, s[i..]);
      k := i + j;
      PowerStep(a, m - 1, s[..i], s[i..][..j]);
      assert s[..k] == s[..i] + s[i..][..j];
      assert s[k..] == s[i..][j..];
    }
  }

  lemma PowerOne(a: Re, s: seq<int>)
    ensures Power(a, 1, s) <==> Matches(a, s)
  {
    if Matches(a, s) {
      PowerStep(a, 0, s, []);
      assert s + [] == s;
    }
    if Power(a, 1, s) {
      var k := PowerFirst(a, 1, s);
      assert s[..k] == s;
    }
  }

  /** Equal languages have equal powers, and so equal iterations. */
  lemma {:induction false} PowerCongruence(a: Re, b: Re, n: nat, s: seq<int>)
    requires SameLanguage(a, b)
    ensures Power(a, n, s) <==> Power(b, n, s)
    decreases n
  {
    if n > 0 {
      forall k ensures PowerAt(a, n, s, k) <==> PowerAt(b, n, s, k) {
        if 0 <= k <= |s| { PowerCongruence(a, b, n - 1, s[k..]); }
      }
    }
  }

  lemma IterCongruence(a: Re, b: Re, min: int, max: int)
    requires SameLanguage(a, b)
    ensures SameLanguage(Iter(a, min, max), Iter(b, min, max))
  {
    forall s, n: nat ensures Power(a, n, s) <==> Power(b, n, s) { PowerCongruence(a, b, n, s); }
  }

  lemma CatCongruence(a: Re, b: Re, c: Re, d: Re)
    requires SameLanguage(a, c) && SameLanguage(b, d)
    ensures SameLanguage(Cat(a, b), Cat(c, d))
  {
    forall s ensures Matches(Cat(a, b), s) <==> Matches(Cat(c, d), s) {
      assert forall k :: CatAt(a, b, s, k) <==> CatAt(c, d, s, k);
    }
  }
}
