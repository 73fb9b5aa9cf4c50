/** When the position counters of tre_expand_ast keep distinct leaves distinct.

    The walk remembers only the growth of the iteration it has just finished, so inside an
    outer iteration a leaf that follows a repetition of repetitions is numbered too low. */
module RegexNumbering {
  import opened RegexSyntax
  import opened RegexExpand
  import opened RegexPositions

  // ---------- the parser's numbering, and the trees that expand safely ----------

  /** The leaves of t are numbered lo, lo + 1, ..., hi - 1 from left to right, a bracket
      taking one number. */
  ghost predicate Numbered(t: Re, lo: int, hi: int)
    decreases t, 1
  {
    match t
    case Eps => lo == hi
    case Lit(_, _, pos) => pos == lo && hi == lo + 1
    case Cat(_, _) => exists mid :: NumberedAt(t, lo, mid, hi)
    case Alt(_, _) => (Bracket(t, lo) && hi == lo + 1) || exists mid :: NumberedAt(t, lo, mid, hi)
    case Iter(a, _, _) => Numbered(a, lo, hi)
  }

  ghost predicate NumberedAt(t: Re, lo: int, mid: int, hi: int)
    requires t.Cat? || t.Alt?
    decreases t, 0
  {
    Numbered(t.left, lo, mid) && Numbered(t.right, mid, hi)
  }

  /** No repetition in t adds leaves. */
  predicate NoGrowth(t: Re) {
    match t
    case Eps => true
    case Lit(_, _, _) => true
    case Cat(l, r) => NoGrowth(l) && NoGrowth(r)
    case Alt(l, r) => NoGrowth(l) && NoGrowth(r)
    case Iter(a, min, max) => (Expands(min, max) ==> Leaves(a) == 0) && NoGrowth(a)
  }

  /** The counters after t account for all of its growth, even inside an iteration. */
  predicate Lossless(t: Re) {
    match t
    case Eps => true
    case Lit(_, _, _) => true
    case Cat(l, r) => Lossless(l) && Lossless(r)
    case Alt(l, r) => Lossless(l) && Lossless(r)
    case Iter(a, _, _) => NoGrowth(a)
  }

  /** Inside an iteration, no leaf follows a part whose growth gets lost. */
  predicate Safe(t: Re, inside: bool) {
    match t
    case Eps => true
    case Lit(_, _, _) => true
    case Cat(l, r) => Safe(l, inside) && Safe(r, inside) && (inside ==> Lossless(l) || Leaves(r) == 0)
    case Alt(l, r) => Safe(l, inside) && Safe(r, inside) && (inside ==> Lossless(l) || Leaves(r) == 0)
    case Iter(a, _, _) => Safe(a, true)
  }

  ghost predicate Between(S: set<int>, a: int, b: int) { forall x :: x in S ==> a <= x < b }

  ghost predicate Exactly(S: set<int>, a: int, b: int) { forall x :: x in S <==> a <= x < b }

  // ---------- shifting ----------

  lemma {:induction false} ShiftPositions(t: Re, d: int, x: int)
    ensures x in Positions(Shift(t, d)) <==> x - d in Positions(t)
  {
    match t
    case Eps =>
    case Lit(_, _, _) =>
    case Cat(l, r) => ShiftPositions(l, d, x); ShiftPositions(r, d, x);
    case Alt(l, r) => ShiftPositions(l, d, x); ShiftPositions(r, d, x);
    case Iter(a, _, _) => ShiftPositions(a, d, x);
  }

  lemma {:induction false} ShiftBracket(t: Re, d: int, p: int)
    ensures Bracket(Shift(t, d), p + d) <==> Bracket(t, p)
  {
    match t
    case Eps =>
    case Lit(_, _, _) =>
    case Cat(l, r) =>
    case Alt(l, r) => ShiftBracket(l, d, p); ShiftBracket(r, d, p);
    case Iter(a, _, _) =>
  }

  ghost predicate MovedTo(S: set<int>, T: set<int>, d: int) { forall x :: x in T <==> x - d in S }

  lemma ShiftMoves(t: Re, d: int)
    ensures MovedTo(Positions(t), Positions(Shift(t, d)), d)
  {
    hide Positions, Shift;
    forall x ensures x in Positions(Shift(t, d)) <==> x - d in Positions(t) { ShiftPositions(t, d, x); }
  }

  lemma ShiftDisjoint(l: Re, r: Re, d: int)
    ensures Positions(Shift(l, d)) !! Positions(Shift(r, d)) <==> Positions(l) !! Positions(r)
  {
    hide *;
    ShiftMoves(l, d);
    ShiftMoves(r, d);
    MovedSets(Positions(l), Positions(r), Positions(Shift(l, d)), Positions(Shift(r, d)), d);
  }

  lemma MovedSets(a: set<int>, b: set<int>, a': set<int>, b': set<int>, d: int)
    requires MovedTo(a, a', d) && MovedTo(b, b', d)
    ensures a' !! b' <==> a !! b
  {
    if a !! b {
      forall x | x in a' ensures x !in b' { assert x - d in a; }
    }
    if a' !! b' {
      forall x | x in a ensures x !in b {
        assert (x + d) - d == x;
        assert x + d in a';
      }
    }
  }

  lemma {:induction false} ShiftDistinct(t: Re, d: int)
    ensures Distinct(Shift(t, d)) <==> Distinct(t)
  {
    match t
    case Eps =>
    case Lit(_, _, _) =>
    case Cat(l, r) => ShiftDistinct(l, d); ShiftDistinct(r, d); ShiftDisjoint(l, r, d);
    case Alt(l, r) =>
      ShiftDistinct(l, d); ShiftDistinct(r, d); ShiftDisjoint(l, r, d);
      if IsBracket(t) {
        var p :| Bracket(t, p);
        ShiftBracket(t, d, p);
      }
      if IsBracket(Shift(t, d)) {
        var p :| Bracket(Shift(t, d), p);
        ShiftBracket(t, d, p - d);
      }
    case Iter(a, _, _) => ShiftDistinct(a, d);
  }

  lemma {:induction false} ShiftLeaves(t: Re, d: int)
    ensures Leaves(Shift(t, d)) == Leaves(t)
  {
    match t
    case Eps =>
    case Lit(_, _, _) =>
    case Cat(l, r) => ShiftLeaves(l, d); ShiftLeaves(r, d);
    case Alt(l, r) => ShiftLeaves(l, d); ShiftLeaves(r, d);
    case Iter(a, _, _) => ShiftLeaves(a, d);
  }

  lemma ShiftBetween(t: Re, d: int, a: int, b: int)
    requires Between(Positions(t), a, b)
    ensures Between(Positions(Shift(t, d)), a + d, b + d)
  {
    forall x | x in Positions(Shift(t, d)) ensures a + d <= x < b + d { ShiftPositions(t, d, x); }
  }

  lemma ShiftExactly(t: Re, d: int, a: int, b: int)
    requires Exactly(Positions(t), a, b)
    ensures Exactly(Positions(Shift(t, d)), a + d, b + d)
  {
    forall x ensures x in Positions(Shift(t, d)) <==> a + d <= x < b + d { ShiftPositions(t, d, x); }
  }

  // ---------- copies ----------

  /** u is distinctly numbered within [a, b), with at least n leaves. */
  ghost predicate Fine(u: Re, a: int, b: int, n: int) {
    Distinct(u) && Between(Positions(u), a, b) && n <= Leaves(u)
  }

  lemma JoinFine(u: Re, v: Re, a: int, m: int, b: int, n: int, k: int)
    requires a <= m <= b
    requires (Fine(u, a, m, n) && Fine(v, m, b, k)) || (Fine(u, m, b, n) && Fine(v, a, m, k))
    ensures Fine(Cat(u, v), a, b, n + k) && Fine(Alt(u, v), a, b, n + k)
  {
    forall x | x in Positions(u) && x in Positions(v) ensures false { }
  }

  lemma {:induction false} CopiesFine(t: Re, lo: int, hi: int, add: int, n: nat)
    requires n >= 1 && lo <= hi && Fine(t, lo, hi, hi - lo)
    ensures var end := Offset(add, n - 1, t);
            add <= end && Fine(Copies(t, add, n), lo + add, hi + end, Leaves(t) + end - add)
    decreases n
  {
    var d := Offset(add, n - 1, t);
    ShiftDistinct(t, d); ShiftBetween(t, d, lo, hi); ShiftLeaves(t, d);
    if n > 1 {
      CopiesFine(t, lo, hi, add, n - 1);
      JoinFine(Copies(t, add, n - 1), Shift(t, d), lo + add, lo + d, hi + d,
               Leaves(t) + Offset(add, n - 2, t) - add, Leaves(t));
    }
  }

  lemma {:induction false} OptionalFine(t: Re, lo: int, hi: int, add: int, n: nat)
    requires n >= 1 && lo <= hi && Fine(t, lo, hi, hi - lo)
    ensures var end := Offset(add, n - 1, t);
            add <= end && Fine(Optional(t, add, n), lo + add, hi + end, Leaves(t) + end - add)
    decreases n
  {
    var d := Offset(add, n - 1, t);
    var copy := Shift(t, d);
    ShiftDistinct(t, d); ShiftBetween(t, d, lo, hi); ShiftLeaves(t, d);
    if n == 1 {
      JoinFine(Eps, copy, lo + add, lo + add, hi + d, 0, Leaves(t));
    } else {
      OptionalFine(t, lo, hi, add, n - 1);
      var inner, k := Optional(t, add, n - 1), Leaves(t) + Offset(add, n - 2, t) - add;
      JoinFine(copy, inner, lo + add, lo + d, hi + d, Leaves(t), k);
      JoinFine(Eps, Cat(copy, inner), lo + add, lo + add, hi + d, 0, Leaves(t) + k);
    }
  }

  lemma RepeatFine(t: Re, lo: int, hi: int, add: int, min: int, max: int)
    requires Counts(min, max) && Expands(min, max) && lo <= hi && Fine(t, lo, hi, hi - lo)
    ensures var end := Offset(add, CopyCount(min, max) - 1, t);
            add <= end && Fine(Repeat(t, add, min, max), lo + add, hi + end, Leaves(t) + end - add)
  {
    if max != UNBOUNDED && min == max {
      CopiesFine(t, lo, hi, add, min);
      return;
    }
    if min == 0 {
      OptionalFine(t, lo, hi, add, max);
      return;
    }
    if max == UNBOUNDED {
      UnboundedFine(t, lo, hi, add, min);
      return;
    }
    RangeFine(t, lo, hi, add, min, max);
  }

  lemma UnboundedFine(t: Re, lo: int, hi: int, add: int, min: int)
    requires 1 <= min && lo <= hi && Fine(t, lo, hi, hi - lo)
    ensures var end := Offset(add, min, t);
            add <= end && Fine(Cat(Copies(t, add, min), Iter(Shift(t, end), 0, UNBOUNDED)), lo + add, hi + end,
                               Leaves(t) + end - add)
  {
    var end, frontEnd := Offset(add, min, t), Offset(add, min - 1, t);
    CopiesFine(t, lo, hi, add, min);
    ShiftDistinct(t, end); ShiftBetween(t, end, lo, hi); ShiftLeaves(t, end);
    JoinFine(Copies(t, add, min), Iter(Shift(t, end), 0, UNBOUNDED), lo + add, lo + end, hi + end,
             Leaves(t) + frontEnd - add, Leaves(t));
  }

  lemma RangeFine(t: Re, lo: int, hi: int, add: int, min: int, max: int)
    requires 1 <= min < max && lo <= hi && Fine(t, lo, hi, hi - lo)
    ensures var end, tailAdd := Offset(add, max - 1, t), Offset(add, min, t);
            add <= end && Fine(Cat(Copies(t, add, min), Optional(t, tailAdd, max - min)), lo + add, hi + end,
                               Leaves(t) + end - add)
  {
    var end, tailAdd, frontEnd := Offset(add, max - 1, t), Offset(add, min, t), Offset(add, min - 1, t);
    CopiesFine(t, lo, hi, add, min);
    OptionalFine(t, lo, hi, tailAdd, max - min);
    OffsetSum(add, min, max - min - 1, t);
    JoinFine(Copies(t, add, min), Optional(t, tailAdd, max - min), lo + add, lo + tailAdd, hi + end,
             Leaves(t) + frontEnd - add, Leaves(t) + end - tailAdd);
  }

  // ---------- safe trees expand to distinctly numbered ones ----------

  lemma {:induction false} NumberedOrder(t: Re, lo: int, hi: int)
    requires Numbered(t, lo, hi)
    ensures lo <= hi && hi - lo <= Leaves(t) && (Leaves(t) == 0 ==> hi == lo)
  {
    match t
    case Eps =>
    case Lit(_, _, _) =>
    case Cat(l, r) =>
      var mid :| NumberedAt(t, lo, mid, hi);
      NumberedOrder(l, lo, mid); NumberedOrder(r, mid, hi);
    case Alt(l, r) =>
      if Bracket(t, lo) && hi == lo + 1 { BracketLeaves(t, lo); return; }
      var mid :| NumberedAt(t, lo, mid, hi);
      NumberedOrder(l, lo, mid); NumberedOrder(r, mid, hi);
    case Iter(a, _, _) => NumberedOrder(a, lo, hi);
  }

  lemma {:induction false} BracketLeaves(t: Re, p: int)
    requires Bracket(t, p)
    ensures 1 <= Leaves(t) && Lossless(t) && NoGrowth(t) && Positions(t) == {p}
  {
    match t
    case Lit(_, _, _) =>
    case Alt(l, r) => BracketLeaves(l, p); BracketLeaves(r, p);
  }

  lemma {:induction false} ExpandBracket(t: Re, c: Counters, p: int)
    requires Bracket(t, p) && WellCounted(t)
    ensures var (u, c') := Expand(t, c);
            Bracket(u, p + c.add) && c'.add == c.add && c'.total == c.total && Leaves(u) == Leaves(t)
  {
    match t
    case Lit(_, _, _) =>
    case Alt(l, r) => ExpandBracket(l, c, p); ExpandBracket(r, Expand(l, c).1, p);
  }

  lemma {:induction false} OffsetOfNothing(add: int, n: nat, a: Re)
    requires Leaves(a) == 0
    ensures Offset(add, n, a) == add
    decreases n
  {
    if n > 0 { OffsetOfNothing(add, n - 1, a); }
  }

  /** Where nothing grows, expansion leaves the counters and the number of leaves alone. */
  lemma {:induction false} NoGrowthCounters(t: Re, c: Counters)
    requires NoGrowth(t) && WellCounted(t) && c.depth > 0
    ensures var (u, c') := Expand(t, c); c'.add == c.add && c'.total == c.total
    ensures Leaves(t) == 0 ==> Leaves(Expand(t, c).0) == 0
  {
    match t
    case Eps =>
    case Lit(_, _, _) =>
    case Cat(l, r) => NoGrowthCounters(l, c); NoGrowthCounters(r, Expand(l, c).1);
    case Alt(l, r) => NoGrowthCounters(l, c); NoGrowthCounters(r, Expand(l, c).1);
    case Iter(a, min, max) =>
      NoGrowthCounters(a, EnterIter(min, max, c));
      if Expands(min, max) {
        var a' := Expand(a, EnterIter(min, max, c)).0;
        OffsetOfNothing(c.add, CopyCount(min, max) - 1, a');
        RepeatOfNothing(a', c.add, min, max);
      }
  }

  lemma RepeatOfNothing(a: Re, add: int, min: int, max: int)
    requires Leaves(a) == 0 && Counts(min, max) && Expands(min, max)
    ensures Leaves(Repeat(a, add, min, max)) == 0
  {
    var tailAdd := Offset(add, min, a);
    ShiftLeaves(a, tailAdd);
    if min > 0 { CopiesOfNothing(a, add, min); }
    if max > min { CopiesOfNothing(a, tailAdd, max - min); }
  }

  lemma {:induction false} CopiesOfNothing(a: Re, add: int, n: nat)
    requires Leaves(a) == 0 && n >= 1
    ensures Leaves(Copies(a, add, n)) == 0 && Leaves(Optional(a, add, n)) == 0
    decreases n
  {
    ShiftLeaves(a, add);
    ShiftLeaves(a, Offset(add, n - 1, a));
    if n > 1 { CopiesOfNothing(a, add, n - 1); }
  }

  lemma {:induction false} NothingGrows(t: Re)
    requires Leaves(t) == 0
    ensures NoGrowth(t)
  {
    match t
    case Eps =>
    case Cat(l, r) => NothingGrows(l); NothingGrows(r);
    case Alt(l, r) => NothingGrows(l); NothingGrows(r);
    case Iter(a, _, _) => NothingGrows(a);
  }

  lemma {:induction false} NoLeavesNoPositions(t: Re)
    requires Leaves(t) == 0
    ensures Positions(t) == {} && Distinct(t)
  {
    match t
    case Eps =>
    case Cat(l, r) => NoLeavesNoPositions(l); NoLeavesNoPositions(r);
    case Alt(l, r) => NoLeavesNoPositions(l); NoLeavesNoPositions(r);
    case Iter(a, _, _) => NoLeavesNoPositions(a);
  }

  /** The conditions under which the walk starts on a subtree. */
  ghost predicate Start(t: Re, c: Counters, lo: int, hi: int) {
    Numbered(t, lo, hi) && WellCounted(t) && (c.depth == 0 ==> c.add == c.total)
  }

  /** The walk turned t into u, which grew by c'.total - c.total positions. */
  ghost predicate Done(u: Re, c: Counters, c': Counters, lo: int, hi: int) {
    var g := c'.total - c.total;
    && 0 <= g && Fine(u, lo + c.add, hi + c.add + g, hi - lo + g)
    && c'.depth == c.depth && (c.depth == 0 ==> c'.add == c'.total)
  }

  lemma SplitPoint(t: Re, lo: int, hi: int) returns (mid: int)
    requires (t.Cat? || t.Alt?) && Numbered(t, lo, hi) && !(Bracket(t, lo) && hi == lo + 1)
    ensures NumberedAt(t, lo, mid, hi)
  {
    if t.Cat? { mid :| NumberedAt(t, lo, mid, hi); } else { mid :| NumberedAt(t, lo, mid, hi); }
  }

  lemma {:induction false} ExpandFine(t: Re, c: Counters, lo: int, hi: int)
    requires Start(t, c, lo, hi) && Safe(t, c.depth > 0)
    ensures var (u, c') := Expand(t, c);
            Done(u, c, c', lo, hi) && (c.depth > 0 && Lossless(t) ==> c'.add == c.add + (c'.total - c.total))
    decreases t, 1
  {
    NumberedOrder(t, lo, hi);
    if t.Cat? || t.Alt? {
      if Bracket(t, lo) && hi == lo + 1 {
        ExpandBracket(t, c, lo);
        BracketLeaves(Expand(t, c).0, lo + c.add);
        assert t.Alt? ==> IsBracket(Expand(t, c).0);
        return;
      }
      var mid := SplitPoint(t, lo, hi);
      PairFine(t, c, lo, mid, hi);
      return;
    }
    if t.Iter? { IterFine(t, c, lo, hi); }
  }

  lemma {:induction false} PairFine(t: Re, c: Counters, lo: int, mid: int, hi: int)
    requires (t.Cat? || t.Alt?) && NumberedAt(t, lo, mid, hi) && WellCounted(t) && (c.depth == 0 ==> c.add == c.total)
    requires Safe(t, c.depth > 0)
    ensures var (u, c') := Expand(t, c);
            Done(u, c, c', lo, hi) && (c.depth > 0 && Lossless(t) ==> c'.add == c.add + (c'.total - c.total))
    decreases t, 0
  {
    var l, r := t.left, t.right;
    var (l', c1) := Expand(l, c);
    var (r', c2) := Expand(r, c1);
    ExpandFine(l, c, lo, mid);
    NumberedOrder(l, lo, mid); NumberedOrder(r, mid, hi);
    var gl, gr := c1.total - c.total, c2.total - c1.total;
    if c.depth > 0 && Leaves(r) == 0 {
      NothingGrows(r);
      NoGrowthCounters(r, c1);
      NoLeavesNoPositions(r');
      return;
    }
    assert c.depth == 0 || Lossless(l);
    assert c1.add == c.add + gl;
    ExpandFine(r, c1, mid, hi);
    JoinFine(l', r', lo + c.add, mid + c1.add, hi + c1.add + gr, mid - lo + gl, hi - mid + gr);
  }

  lemma {:induction false} IterFine(t: Re, c: Counters, lo: int, hi: int)
    requires t.Iter? && Start(t, c, lo, hi) && Safe(t, c.depth > 0)
    ensures var (u, c') := Expand(t, c);
            Done(u, c, c', lo, hi) && (c.depth > 0 && Lossless(t) ==> c'.add == c.add + (c'.total - c.total))
    decreases t, 0
  {
    var a, min, max := t.arg, t.min, t.max;
    var c1 := EnterIter(min, max, c);
    var (a', c2) := Expand(a, c1);
    ExpandFine(a, c1, lo, hi);
    NumberedOrder(t, lo, hi);
    var ga := c2.total - c.total;
    if Lossless(t) { NoGrowthCounters(a, c1); }
    if Expands(min, max) {
      RepeatFine(a', lo, hi + ga, c.add, min, max);
    }
  }

  /** Expanding a safe, consecutively numbered expression leaves its leaves distinctly
      numbered, below the final state's number. */
  lemma SafeIsDistinct(t: Re, position: int)
    requires WellCounted(t) && Numbered(t, 0, position) && Safe(t, false)
    ensures var (u, c) := Expand(t, START); Distinct(WithFinal(u, Max(position + c.total, c.maxPos)))
  {
    ExpandFine(t, START, 0, position);
  }

  // ---------- unsafe trees without brackets expand to clashing ones ----------

  /** Every leaf of t has a number of its own. */
  ghost predicate Tight(t: Re, lo: int, hi: int) { Numbered(t, lo, hi) && Leaves(t) == hi - lo }

  lemma {:induction false} ManyLeaves(t: Re, p: int)
    requires t.Alt? && Bracket(t, p)
    ensures Leaves(t) >= 2
  {
    BracketLeaves(t.left, p); BracketLeaves(t.right, p);
  }

  lemma TightParts(t: Re, lo: int, hi: int) returns (mid: int)
    requires (t.Cat? || t.Alt?) && Tight(t, lo, hi)
    ensures NumberedAt(t, lo, mid, hi) && Tight(t.left, lo, mid) && Tight(t.right, mid, hi)
  {
    if t.Alt? && Bracket(t, lo) { ManyLeaves(t, lo); }
    mid := SplitPoint(t, lo, hi);
    NumberedOrder(t.left, lo, mid); NumberedOrder(t.right, mid, hi);
  }

  lemma {:induction false} ExpandLeaves(t: Re, c: Counters)
    requires WellCounted(t) && Leaves(t) > 0
    ensures Leaves(Expand(t, c).0) > 0
  {
    match t
    case Eps =>
    case Lit(_, _, _) =>
    case Cat(l, r) => if Leaves(l) > 0 { ExpandLeaves(l, c); } else { ExpandLeaves(r, Expand(l, c).1); }
    case Alt(l, r) => if Leaves(l) > 0 { ExpandLeaves(l, c); } else { ExpandLeaves(r, Expand(l, c).1); }
    case Iter(a, min, max) =>
      ExpandLeaves(a, EnterIter(min, max, c));
      if Expands(min, max) {
        var a' := Expand(a, EnterIter(min, max, c)).0;
        RepeatLeaves(a', c.add, min, max);
        OffsetGrows(c.add, CopyCount(min, max) - 1, a');
      }
  }

  lemma RepeatLeaves(a: Re, add: int, min: int, max: int)
    requires Counts(min, max) && Expands(min, max)
    ensures Leaves(Repeat(a, add, min, max)) == Leaves(a) + Offset(add, CopyCount(min, max) - 1, a) - add
  {
    var tailAdd := Offset(add, min, a);
    if min == 0 { CopiesLeaves(a, add, max); return; }
    CopiesLeaves(a, add, min);
    if min == max { return; }
    if max == UNBOUNDED { ShiftLeaves(a, tailAdd); return; }
    CopiesLeaves(a, tailAdd, max - min);
    OffsetSum(add, min, max - min - 1, a);
  }

  lemma {:induction false} CopiesLeaves(a: Re, add: int, n: nat)
    requires n >= 1
    ensures Leaves(Copies(a, add, n)) == Leaves(a) + Offset(add, n - 1, a) - add
    ensures Leaves(Optional(a, add, n)) == Leaves(a) + Offset(add, n - 1, a) - add
    decreases n
  {
    ShiftLeaves(a, add);
    ShiftLeaves(a, Offset(add, n - 1, a));
    if n > 1 { CopiesLeaves(a, add, n - 1); }
  }

  lemma {:induction false} OffsetGrows(add: int, n: nat, a: Re)
    ensures add <= Offset(add, n, a) && (n > 0 && Leaves(a) > 0 ==> add < Offset(add, n, a))
    decreases n
  {
    if n > 0 { OffsetGrows(add, n - 1, a); }
  }

  /** Inside an iteration the counter accounts for at most the growth, and for less than
      the growth when some of it gets lost. */
  lemma {:induction false} GrowthCounters(t: Re, c: Counters)
    requires WellCounted(t) && c.depth > 0
    ensures var c' := Expand(t, c).1;
            && 0 <= c'.add - c.add <= c'.total - c.total
            && (!NoGrowth(t) ==> c.total < c'.total)
            && (!Lossless(t) ==> c'.add - c.add < c'.total - c.total)
  {
    match t
    case Eps =>
    case Lit(_, _, _) =>
    case Cat(l, r) => GrowthCounters(l, c); GrowthCounters(r, Expand(l, c).1);
    case Alt(l, r) => GrowthCounters(l, c); GrowthCounters(r, Expand(l, c).1);
    case Iter(a, min, max) =>
      GrowthCounters(a, EnterIter(min, max, c));
      if Expands(min, max) {
        var a', n := Expand(a, EnterIter(min, max, c)).0, CopyCount(min, max) - 1;
        OffsetGrows(c.add, n, a');
        if Leaves(a) > 0 { ExpandLeaves(a, EnterIter(min, max, c)); }
      }
  }

  lemma CatExactly(S: set<int>, T: set<int>, a: int, m: int, b: int)
    requires a <= m <= b
    requires (Exactly(S, a, m) && Exactly(T, m, b)) || (Exactly(S, m, b) && Exactly(T, a, m))
    ensures Exactly(S + T, a, b)
  {
  }

  lemma {:induction false} CopiesExactly(t: Re, lo: int, hi: int, add: int, n: nat)
    requires n >= 1 && Exactly(Positions(t), lo, hi) && Leaves(t) == hi - lo
    ensures Exactly(Positions(Copies(t, add, n)), lo + add, hi + Offset(add, n - 1, t))
    ensures Exactly(Positions(Optional(t, add, n)), lo + add, hi + Offset(add, n - 1, t))
    decreases n
  {
    var d := Offset(add, n - 1, t);
    ShiftExactly(t, d, lo, hi);
    OffsetGrows(add, n - 1, t);
    if n > 1 {
      CopiesExactly(t, lo, hi, add, n - 1);
      CatExactly(Positions(Copies(t, add, n - 1)), Positions(Shift(t, d)), lo + add, lo + d, hi + d);
      CatExactly(Positions(Shift(t, d)), Positions(Optional(t, add, n - 1)), lo + add, lo + d, hi + d);
    }
  }

  lemma RepeatExactly(t: Re, lo: int, hi: int, add: int, min: int, max: int)
    requires Counts(min, max) && Expands(min, max) && Exactly(Positions(t), lo, hi) && Leaves(t) == hi - lo
    ensures Exactly(Positions(Repeat(t, add, min, max)), lo + add, hi + Offset(add, CopyCount(min, max) - 1, t))
  {
    if min == 0 { CopiesExactly(t, lo, hi, add, max); return; }
    CopiesExactly(t, lo, hi, add, min);
    if min == max { return; }
    var tailAdd := Offset(add, min, t);
    OffsetGrows(add, min, t);
    if max == UNBOUNDED {
      ShiftExactly(t, tailAdd, lo, hi);
      CatExactly(Positions(Copies(t, add, min)), Positions(Shift(t, tailAdd)), lo + add, lo + tailAdd, hi + tailAdd);
      return;
    }
    CopiesExactly(t, lo, hi, tailAdd, max - min);
    OffsetSum(add, min, max - min - 1, t);
    OffsetGrows(tailAdd, max - min - 1, t);
    CatExactly(Positions(Copies(t, add, min)), Positions(Optional(t, tailAdd, max - min)),
               lo + add, lo + tailAdd, hi + Offset(tailAdd, max - min - 1, t));
  }

  /** A safe tree whose leaves all have their own number expands to a whole interval. */
  ghost predicate Full(u: Re, c: Counters, c': Counters, lo: int, hi: int) {
    var g := c'.total - c.total;
    Exactly(Positions(u), lo + c.add, hi + c.add + g) && Leaves(u) == hi - lo + g
  }

  lemma {:induction false} ExpandExactly(t: Re, c: Counters, lo: int, hi: int)
    requires Start(t, c, lo, hi) && Safe(t, c.depth > 0) && Tight(t, lo, hi)
    ensures Full(Expand(t, c).0, c, Expand(t, c).1, lo, hi)
  {
    ExpandFine(t, c, lo, hi);
    if t.Cat? || t.Alt? {
      var l, r := t.left, t.right;
      var mid := TightParts(t, lo, hi);
      var (l', c1) := Expand(l, c);
      var (r', c2) := Expand(r, c1);
      ExpandFine(l, c, lo, mid);
      ExpandExactly(l, c, lo, mid);
      ExpandExactly(r, c1, mid, hi);
      PairExactly(t, c, lo, mid, hi);
      return;
    }
    if t.Iter? {
      var c1 := EnterIter(t.min, t.max, c);
      ExpandFine(t.arg, c1, lo, hi);
      ExpandExactly(t.arg, c1, lo, hi);
      IterExactly(t, c, lo, hi);
      return;
    }
  }

  lemma IterExactly(t: Re, c: Counters, lo: int, hi: int)
    requires t.Iter? && WellCounted(t)
    requires var c1 := EnterIter(t.min, t.max, c);
             Full(Expand(t.arg, c1).0, c1, Expand(t.arg, c1).1, lo, hi)
    ensures Full(Expand(t, c).0, c, Expand(t, c).1, lo, hi)
  {
    var (a', c2) := Expand(t.arg, EnterIter(t.min, t.max, c));
    if Expands(t.min, t.max) {
      RepeatExactly(a', lo, hi + c2.total - c.total, c.add, t.min, t.max);
      RepeatLeaves(a', c.add, t.min, t.max);
    }
  }

  lemma PairExactly(t: Re, c: Counters, lo: int, mid: int, hi: int)
    requires (t.Cat? || t.Alt?) && WellCounted(t) && (c.depth == 0 ==> c.add == c.total) && Safe(t, c.depth > 0)
    requires Tight(t.left, lo, mid) && Tight(t.right, mid, hi)
    requires var (l', c1) := Expand(t.left, c);
             Full(l', c, c1, lo, mid) && Full(Expand(t.right, c1).0, c1, Expand(t.right, c1).1, mid, hi)
    ensures Full(Expand(t, c).0, c, Expand(t, c).1, lo, hi)
  {
    var l, r := t.left, t.right;
    var (l', c1) := Expand(l, c);
    var (r', c2) := Expand(r, c1);
    ExpandFine(l, c, lo, mid);
    NumberedOrder(r, mid, hi);
    if c.depth > 0 && Leaves(r) == 0 {
      NothingGrows(r);
      NoGrowthCounters(r, c1);
      NoLeavesNoPositions(r');
      assert Positions(l') + {} == Positions(l');
      return;
    }
    ExpandFine(r, c1, mid, hi);
    CatExactly(Positions(l'), Positions(r'), lo + c.add, mid + c1.add, hi + c1.add + (c2.total - c1.total));
  }

  lemma {:induction false} CopiesClash(a: Re, add: int, n: nat)
    requires n >= 1 && !Distinct(a)
    ensures !Distinct(Copies(a, add, n)) && !Distinct(Optional(a, add, n))
    decreases n
  {
    ShiftDistinct(a, add);
    ShiftDistinct(a, Offset(add, n - 1, a));
    forall p ensures !Bracket(Optional(a, add, n), p) { }
    if n > 1 { CopiesClash(a, add, n - 1); }
  }

  lemma RepeatClash(a: Re, add: int, min: int, max: int)
    requires Counts(min, max) && Expands(min, max) && !Distinct(a)
    ensures !Distinct(Repeat(a, add, min, max))
  {
    if min == 0 { CopiesClash(a, add, max); return; }
    CopiesClash(a, add, min);
  }

  lemma {:induction false} IterationsAreNoBrackets(t: Re, c: Counters, p: int)
    requires WellCounted(t) && !Lossless(t)
    ensures !Bracket(Expand(t, c).0, p)
  {
    match t
    case Cat(_, _) =>
    case Alt(l, r) =>
      if !Lossless(l) { IterationsAreNoBrackets(l, c, p); } else { IterationsAreNoBrackets(r, Expand(l, c).1, p); }
    case Iter(a, min, max) =>
      if Expands(min, max) { RepeatIsNoBracket(Expand(a, EnterIter(min, max, c)).0, c.add, min, max, p); }
  }

  lemma RepeatIsNoBracket(a: Re, add: int, min: int, max: int, p: int)
    requires Counts(min, max) && Expands(min, max)
    ensures !Bracket(Repeat(a, add, min, max), p)
  {
  }

  /** An unsafe tree gives two different leaves the same position. */
  lemma {:induction false} ExpandClashes(t: Re, c: Counters, lo: int, hi: int)
    requires Start(t, c, lo, hi) && Tight(t, lo, hi) && !Safe(t, c.depth > 0)
    ensures !Distinct(Expand(t, c).0)
  {
    if t.Iter? {
      var c1 := EnterIter(t.min, t.max, c);
      ExpandClashes(t.arg, c1, lo, hi);
      if Expands(t.min, t.max) { RepeatClash(Expand(t.arg, c1).0, c.add, t.min, t.max); }
      return;
    }
    var l, r := t.left, t.right;
    var mid := TightParts(t, lo, hi);
    if !Safe(l, c.depth > 0) {
      ExpandClashes(l, c, lo, mid);
      PairClash(t, c);
      return;
    }
    ExpandFine(l, c, lo, mid);
    if !Safe(r, c.depth > 0) {
      ExpandClashes(r, Expand(l, c).1, mid, hi);
      PairClash(t, c);
      return;
    }
    LostGrowthClash(t, c, lo, mid, hi);
  }

  lemma PairClash(t: Re, c: Counters)
    requires (t.Cat? || t.Alt?) && WellCounted(t)
    requires var (l', c1) := Expand(t.left, c); !Distinct(l') || !Distinct(Expand(t.right, c1).0)
    ensures !Distinct(Expand(t, c).0)
  {
    var (l', c1) := Expand(t.left, c);
    var r' := Expand(t.right, c1).0;
    if t.Alt? && IsBracket(Alt(l', r')) {
      var p :| Bracket(Alt(l', r'), p);
      BracketIsDistinct(l', p);
      BracketIsDistinct(r', p);
    }
  }

  lemma {:induction false} BracketIsDistinct(t: Re, p: int)
    requires Bracket(t, p)
    ensures Distinct(t)
  {
  }

  /** The leaf after a part whose growth was lost gets a number that part already uses. */
  lemma LostGrowthClash(t: Re, c: Counters, lo: int, mid: int, hi: int)
    requires (t.Cat? || t.Alt?) && WellCounted(t) && c.depth > 0
    requires Tight(t.left, lo, mid) && Tight(t.right, mid, hi)
    requires Safe(t.left, true) && Safe(t.right, true) && !Lossless(t.left) && Leaves(t.right) > 0
    ensures !Distinct(Expand(t, c).0)
  {
    var (l', c1) := Expand(t.left, c);
    var (r', c2) := Expand(t.right, c1);
    ExpandExactly(t.left, c, lo, mid);
    ExpandFine(t.left, c, lo, mid);
    ExpandExactly(t.right, c1, mid, hi);
    ExpandFine(t.right, c1, mid, hi);
    GrowthCounters(t.left, c);
    NumberedOrder(t.left, lo, mid);
    var x := mid + c1.add;
    assert x in Positions(l') && x in Positions(r');
    if t.Alt? && IsBracket(Alt(l', r')) {
      var p :| Bracket(Alt(l', r'), p);
      IterationsAreNoBrackets(t.left, c, p);
    }
  }

  /** For an expression whose leaves all have their own number, the positions after
      expansion are distinct exactly when, inside an iteration, no leaf follows a part
      whose growth gets lost. */
  lemma DistinctExactlyWhenSafe(t: Re, position: int)
    requires WellCounted(t) && Tight(t, 0, position)
    ensures var (u, c) := Expand(t, START);
            Distinct(WithFinal(u, Max(position + c.total, c.maxPos))) <==> Safe(t, false)
  {
    if Safe(t, false) {
      SafeIsDistinct(t, position);
    } else {
      ExpandClashes(t, START, 0, position);
    }
  }
}
