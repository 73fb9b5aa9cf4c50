/** What tre_expand_ast computes, as a function on trees: counted repetitions become
    catenations of copies, and positions are renumbered by the walk's running counters. */
module RegexExpand {
  import opened RegexSyntax

  /** The counters of the walk: pos_add, pos_add_total, max_pos and iter_depth. */
  datatype Counters = Counters(add: int, total: int, maxPos: int, depth: nat)

  function Max(a: int, b: int): int { if a < b then b else a }

  /** How many leaves one copy renumbers (num_copied). */
  function Leaves(t: Re): nat {
    match t
    case Eps => 0
    case Lit(_, _, _) => 1
    case Cat(l, r) => Leaves(l) + Leaves(r)
    case Alt(l, r) => Leaves(l) + Leaves(r)
    case Iter(a, _, _) => Leaves(a)
  }

  /** The largest position in t, or -1. */
  function Highest(t: Re): int {
    match t
    case Eps => -1
    case Lit(_, _, pos) => Max(-1, pos)
    case Cat(l, r) => Max(Highest(l), Highest(r))
    case Alt(l, r) => Max(Highest(l), Highest(r))
    case Iter(a, _, _) => Highest(a)
  }

  /** A copy of t, with every position moved up by d. */
  function Shift(t: Re, d: int): Re {
    match t
    case Eps => Eps
    case Lit(lo, hi, pos) => Lit(lo, hi, pos + d)
    case Cat(l, r) => Cat(Shift(l, d), Shift(r, d))
    case Alt(l, r) => Alt(Shift(l, d), Shift(r, d))
    case Iter(a, min, max) => Iter(Shift(a, d), min, max)
  }

  /** Where copy number n of a starts, when copy number 0 starts at add. */
  function Offset(add: int, n: nat, a: Re): int { if n == 0 then add else Offset(add, n - 1, a) + Leaves(a) }

  /** n copies in a row, the first numbered from add. */
  function Copies(a: Re, add: int, n: nat): Re
    requires n >= 1
  {
    if n == 1 then Shift(a, add) else Cat(Copies(a, add, n - 1), Shift(a, Offset(add, n - 1, a)))
  }

  /** Up to n copies, each one optional once the one before it is left out. */
  function Optional(a: Re, add: int, n: nat): Re
    requires n >= 1
  {
    var copy := Shift(a, Offset(add, n - 1, a));
    Alt(Eps, if n == 1 then copy else Cat(copy, Optional(a, add, n - 1)))
  }

  lemma {:induction false} OffsetSum(add: int, m: nat, n: nat, a: Re)
    ensures Offset(Offset(add, m, a), n, a) == Offset(add, m + n, a)
    decreases n
  {
    if n > 0 { OffsetSum(add, m, n - 1, a); }
  }

  predicate Expands(min: int, max: int) { min > 1 || max > 1 }

  /** The copies that take the place of a{min,max}, numbered from add. */
  function Repeat(a: Re, add: int, min: int, max: int): Re
    requires Counts(min, max) && Expands(min, max)
  {
    var tailAdd := Offset(add, min, a);
    if max == UNBOUNDED then Cat(Copies(a, add, min), Iter(Shift(a, tailAdd), 0, UNBOUNDED))
    else if min == 0 then Optional(a, tailAdd, max)
    else if min == max then Copies(a, add, min)
    else Cat(Copies(a, add, min), Optional(a, tailAdd, max - min))
  }

  function CopyCount(min: int, max: int): int { if max == UNBOUNDED then min + 1 else max }

  /** What happens to an iteration once its argument has become a. */
  function AfterIter(a: Re, min: int, max: int, saved: int, c: Counters): (r: (Re, Counters))
    requires Counts(min, max) && c.depth > 0
  {
    var t := if Expands(min, max) then Repeat(a, saved, min, max) else Iter(a, min, max);
    var add := if Expands(min, max) then Offset(saved, CopyCount(min, max) - 1, a) else saved;
    var total := c.total + (add - saved);
    var maxPos := if Expands(min, max) then Max(c.maxPos, Highest(t)) else c.maxPos;
    (t, Counters(if c.depth == 1 then total else add, total, maxPos, c.depth - 1))
  }

  function EnterIter(min: int, max: int, c: Counters): Counters {
    c.(add := if Expands(min, max) then 0 else c.add, depth := c.depth + 1)
  }

  /** The whole walk over t. */
  function Expand(t: Re, c: Counters): (r: (Re, Counters))
    requires WellCounted(t)
    ensures r.1.depth == c.depth
  {
    match t
    case Eps => (t, c)
    case Lit(lo, hi, pos) =>
      (Lit(lo, hi, pos + c.add), c.(maxPos := Max(c.maxPos, pos + c.add)))
    case Cat(l, r) =>
      var (l', c1) := Expand(l, c);
      var (r', c2) := Expand(r, c1);
      (Cat(l', r'), c2)
    case Alt(l, r) =>
      var (l', c1) := Expand(l, c);
      var (r', c2) := Expand(r, c1);
      (Alt(l', r'), c2)
    case Iter(a, min, max) =>
      var (a', c1) := Expand(a, EnterIter(min, max, c));
      AfterIter(a', min, max, c.add, c1)
  }

  const START := Counters(0, 0, 0, 0)

  // ---------- expansion keeps the language ----------

  lemma {:induction false} ShiftKeepsLanguage(t: Re, d: int)
    ensures SameLanguage(t, Shift(t, d))
  {
    match t
    case Eps =>
    case Lit(_, _, _) =>
    case Cat(l, r) =>
      ShiftKeepsLanguage(l, d); ShiftKeepsLanguage(r, d);
      CatCongruence(l, r, Shift(l, d), Shift(r, d));
    case Alt(l, r) =>
      ShiftKeepsLanguage(l, d); ShiftKeepsLanguage(r, d);
    case Iter(a, min, max) =>
      ShiftKeepsLanguage(a, d);
      IterCongruence(a, Shift(a, d), min, max);
  }

  /** A word of a loop's first n rounds, and one more. */
  lemma PowerThenOne(init: Re, last: Re, a: Re, n: nat, s: seq<int>)
    requires (forall w :: Matches(init, w) <==> Power(a, n, w)) && SameLanguage(last, a)
    ensures Matches(Cat(init, last), s) <==> Power(a, n + 1, s)
  {
    hide Matches, Power;
    if Power(a, n + 1, s) {
      var k := PowerSplit(a, n, 1, s);
      PowerOne(a, s[k..]);
      CatIntro(init, last, s[..k], s[k..]);
      assert s[..k] + s[k..] == s;
    }
    if Matches(Cat(init, last), s) {
      var k := CatElim(init, last, s);
      PowerOne(a, s[k..]);
      PowerJoin(a, n, 1, s[..k], s[k..]);
      assert s[..k] + s[k..] == s;
    }
  }

  lemma {:induction false} CopiesLanguage(a: Re, add: int, n: nat, s: seq<int>)
    requires n >= 1
    ensures Matches(Copies(a, add, n), s) <==> Power(a, n, s)
    decreases n
  {
    hide Matches, Power, Shift, Offset;
    if n == 1 {
      ShiftKeepsLanguage(a, add);
      PowerOne(a, s);
    } else {
      var init, last := Copies(a, add, n - 1), Shift(a, Offset(add, n - 1, a));
      ShiftKeepsLanguage(a, Offset(add, n - 1, a));
      forall w ensures Matches(init, w) <==> Power(a, n - 1, w) { CopiesLanguage(a, add, n - 1, w); }
      PowerThenOne(init, last, a, n - 1, s);
    }
  }

  /** s is a concatenation of at most n words of a. */
  ghost predicate UpTo(a: Re, n: nat, s: seq<int>) {
    exists m: nat :: m <= n && Power(a, m, s)
  }

  lemma {:induction false} OptionalLanguage(a: Re, add: int, n: nat, s: seq<int>)
    requires n >= 1
    ensures Matches(Optional(a, add, n), s) <==> UpTo(a, n, s)
    decreases n
  {
    ShiftKeepsLanguage(a, Offset(add, n - 1, a));
    PowerOne(a, s);
    if UpTo(a, n, s) { OptionalAccepts(a, add, n, s); }
    if Matches(Optional(a, add, n), s) { OptionalSound(a, add, n, s); }
  }

  lemma {:induction false} OptionalAccepts(a: Re, add: int, n: nat, s: seq<int>)
    requires n >= 1 && UpTo(a, n, s)
    ensures Matches(Optional(a, add, n), s)
    decreases n, 0
  {
    var m: nat :| m <= n && Power(a, m, s);
    ShiftKeepsLanguage(a, Offset(add, n - 1, a));
    if m == 0 {
    } else if n == 1 {
      PowerOne(a, s);
    } else {
      var k := PowerFirst(a, m, s);
      assert UpTo(a, n - 1, s[k..]);
      OptionalAccepts(a, add, n - 1, s[k..]);
      assert CatAt(Shift(a, Offset(add, n - 1, a)), Optional(a, add, n - 1), s, k);
    }
  }

  lemma {:induction false} OptionalSound(a: Re, add: int, n: nat, s: seq<int>)
    requires n >= 1 && Matches(Optional(a, add, n), s)
    ensures UpTo(a, n, s)
    decreases n, 0
  {
    var copy := Shift(a, Offset(add, n - 1, a));
    ShiftKeepsLanguage(a, Offset(add, n - 1, a));
    if s == [] {
      assert Power(a, 0, s);
    } else if n == 1 {
      PowerOne(a, s);
    } else {
      var k := CatElim(copy, Optional(a, add, n - 1), s);
      OptionalSound(a, add, n - 1, s[k..]);
      var m: nat :| m <= n - 1 && Power(a, m, s[k..]);
      PowerStep(a, m, s[..k], s[k..]);
      assert s[..k] + s[k..] == s;
      assert m + 1 <= n && Power(a, m + 1, s);
    }
  }

  lemma RepeatRange(a: Re, add: int, min: int, max: int, s: seq<int>)
    requires Counts(min, max) && Expands(min, max) && 0 < min < max
    ensures Matches(Repeat(a, add, min, max), s) <==> Matches(Iter(a, min, max), s)
  {
    var tailAdd := Offset(add, min, a);
    var front, back := Copies(a, add, min), Optional(a, tailAdd, max - min);
    if Matches(Cat(front, back), s) {
      var k := CatElim(front, back, s);
      CopiesLanguage(a, add, min, s[..k]);
      OptionalLanguage(a, tailAdd, max - min, s[k..]);
      var i: nat :| i <= max - min && Power(a, i, s[k..]);
      PowerJoin(a, min, i, s[..k], s[k..]);
      assert s[..k] + s[k..] == s;
      assert Allows(min, max, min + i);
    }
    if Matches(Iter(a, min, max), s) {
      var j: nat :| Allows(min, max, j) && Power(a, j, s);
      var k := PowerSplit(a, min, j - min, s);
      assert UpTo(a, max - min, s[k..]);
      CopiesLanguage(a, add, min, s[..k]);
      OptionalLanguage(a, tailAdd, max - min, s[k..]);
      assert CatAt(front, back, s, k);
    }
  }

  lemma RepeatUnbounded(a: Re, add: int, min: int, s: seq<int>)
    requires min > 1
    ensures Matches(Repeat(a, add, min, UNBOUNDED), s) <==> Matches(Iter(a, min, UNBOUNDED), s)
  {
    var front, star := Copies(a, add, min), Iter(Shift(a, Offset(add, min, a)), 0, UNBOUNDED);
    ShiftKeepsLanguage(a, Offset(add, min, a));
    IterCongruence(a, Shift(a, Offset(add, min, a)), 0, UNBOUNDED);
    if Matches(Cat(front, star), s) {
      var k := CatElim(front, star, s);
      CopiesLanguage(a, add, min, s[..k]);
      assert Matches(Iter(a, 0, UNBOUNDED), s[k..]);
      var i: nat :| Allows(0, UNBOUNDED, i) && Power(a, i, s[k..]);
      PowerJoin(a, min, i, s[..k], s[k..]);
      assert s[..k] + s[k..] == s;
      assert Allows(min, UNBOUNDED, min + i);
    }
    if Matches(Iter(a, min, UNBOUNDED), s) {
      var j: nat :| Allows(min, UNBOUNDED, j) && Power(a, j, s);
      var k := PowerSplit(a, min, j - min, s);
      CopiesLanguage(a, add, min, s[..k]);
      assert Allows(0, UNBOUNDED, j - min);
      assert Matches(Iter(a, 0, UNBOUNDED), s[k..]);
      assert CatAt(front, star, s, k);
    }
  }

  /** The copies denote the iteration they replace, whatever positions they get. */
  lemma RepeatKeepsLanguage(a: Re, add: int, min: int, max: int)
    requires Counts(min, max) && Expands(min, max)
    ensures SameLanguage(Repeat(a, add, min, max), Iter(a, min, max))
  {
    forall s ensures Matches(Repeat(a, add, min, max), s) <==> Matches(Iter(a, min, max), s) {
      if max == UNBOUNDED {
        RepeatUnbounded(a, add, min, s);
      } else if min == 0 {
        OptionalLanguage(a, Offset(add, min, a), max, s);
        assert forall n: nat :: Allows(min, max, n) <==> n <= max;
      } else if min == max {
        CopiesLanguage(a, add, min, s);
        assert forall n: nat :: Allows(min, max, n) <==> n == min;
        assert Matches(Iter(a, min, max), s) <==> Power(a, min, s);
      } else {
        RepeatRange(a, add, min, max, s);
      }
    }
  }

  /** tre_expand_ast preserves the language of every tree, however deeply its
      repetitions nest, and from whatever counters it starts. */
  lemma {:induction false} ExpandKeepsLanguage(t: Re, c: Counters)
    requires WellCounted(t)
    ensures SameLanguage(t, Expand(t, c).0)
  {
    match t
    case Eps =>
    case Lit(_, _, _) =>
    case Cat(l, r) =>
      var (l', c1) := Expand(l, c);
      ExpandKeepsLanguage(l, c); ExpandKeepsLanguage(r, c1);
      CatCongruence(l, r, l', Expand(r, c1).0);
    case Alt(l, r) =>
      var (l', c1) := Expand(l, c);
      ExpandKeepsLanguage(l, c); ExpandKeepsLanguage(r, c1);
    case Iter(a, min, max) =>
      var a' := Expand(a, EnterIter(min, max, c)).0;
      ExpandKeepsLanguage(a, EnterIter(min, max, c));
      IterCongruence(a, a', min, max);
      if Expands(min, max) { RepeatKeepsLanguage(a', c.add, min, max); }
  }

  // ---------- what is left after expansion ----------

  /** Only the iterations the later passes handle: at most one, or any number, of times. */
  predicate Simple(t: Re) {
    match t
    case Eps => true
    case Lit(_, _, _) => true
    case Cat(l, r) => Simple(l) && Simple(r)
    case Alt(l, r) => Simple(l) && Simple(r)
    case Iter(a, min, max) => (min == 0 || min == 1) && (max == 1 || max == UNBOUNDED) && Simple(a)
  }

  lemma {:induction false} ShiftIsSimple(t: Re, d: int)
    requires Simple(t)
    ensures Simple(Shift(t, d))
  {
    match t
    case Eps =>
    case Lit(_, _, _) =>
    case Cat(l, r) => ShiftIsSimple(l, d); ShiftIsSimple(r, d);
    case Alt(l, r) => ShiftIsSimple(l, d); ShiftIsSimple(r, d);
    case Iter(a, _, _) => ShiftIsSimple(a, d);
  }

  lemma {:induction false} CopiesAreSimple(a: Re, add: int, n: nat)
    requires n >= 1 && Simple(a)
    ensures Simple(Copies(a, add, n)) && Simple(Optional(a, add, n))
    decreases n
  {
    ShiftIsSimple(a, add); ShiftIsSimple(a, Offset(add, n - 1, a));
    if n > 1 { CopiesAreSimple(a, add, n - 1); }
  }

  lemma {:induction false} ExpandIsSimple(t: Re, c: Counters)
    requires WellCounted(t)
    ensures Simple(Expand(t, c).0)
  {
    match t
    case Eps =>
    case Lit(_, _, _) =>
    case Cat(l, r) => ExpandIsSimple(l, c); ExpandIsSimple(r, Expand(l, c).1);
    case Alt(l, r) => ExpandIsSimple(l, c); ExpandIsSimple(r, Expand(l, c).1);
    case Iter(a, min, max) =>
      ExpandIsSimple(a, EnterIter(min, max, c));
      if Expands(min, max) {
        var a', tailAdd := Expand(a, EnterIter(min, max, c)).0, Offset(c.add, min, Expand(a, EnterIter(min, max, c)).0);
        ShiftIsSimple(a', tailAdd);
        if min > 0 { CopiesAreSimple(a', c.add, min); }
        if max > min { CopiesAreSimple(a', tailAdd, max - min); }
      }
  }
}
