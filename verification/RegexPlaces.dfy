/** Exactly which consecutively numbered trees expand to distinctly numbered ones, brackets of
    several ranges included.

    A copy moves the numbers by the leaves it copies, and a bracket has several leaves with one
    number, so that expansion leaves gaps between numbers and a leaf that is numbered too low may
    still fall into one. What counts is which numbers a part takes up. */
module RegexPlaces {
  import opened RegexSyntax
  import opened RegexExpand
  import opened RegexPositions
  import opened RegexNumbering

  // ---------- the numbers a part takes up inside an iteration ----------

  function Moved(S: set<int>, d: int): set<int> { set x | x in S :: x + d }

  lemma InMoved(S: set<int>, d: int, y: int)
    ensures y in Moved(S, d) <==> y - d in S
  {
    if y - d in S { assert y == (y - d) + d; }
  }

  function Steps(step: int, n: nat): int { if n == 0 then 0 else Steps(step, n - 1) + step }

  /** n copies of the numbers S, each step above the one before. */
  function Copied(S: set<int>, step: int, n: nat): set<int> {
    if n == 0 then {} else Copied(S, step, n - 1) + Moved(S, Steps(step, n - 1))
  }

  /** The leaves of t once its repetitions are copies. */
  function Grown(t: Re): nat
    requires WellCounted(t)
    ensures Grown(t) >= 0
  {
    match t
    case Eps => 0
    case Lit(_, _, _) => 1
    case Cat(l, r) => Grown(l) + Grown(r)
    case Alt(l, r) => Grown(l) + Grown(r)
    case Iter(a, min, max) => if Expands(min, max) then StepsOf(Grown(a), CopyCount(min, max)) else Grown(a)
  }

  function StepsOf(step: nat, n: nat): (s: nat)
    ensures s == Steps(step, n)
  {
    if n == 0 then 0 else StepsOf(step, n - 1) + step
  }

  /** How far the counter moves over t inside an iteration: only repetitions that are copied
      count, and only by the last of their copies. */
  function Counted(t: Re): int
    requires WellCounted(t)
  {
    match t
    case Eps => 0
    case Lit(_, _, _) => 0
    case Cat(l, r) => Counted(l) + Counted(r)
    case Alt(l, r) => Counted(l) + Counted(r)
    case Iter(a, min, max) => if Expands(min, max) then Steps(Grown(a), CopyCount(min, max) - 1) else 0
  }

  /** The numbers of t after expansion, counted from where the counter stands before it. */
  function Used(t: Re): set<int>
    requires WellCounted(t)
  {
    match t
    case Eps => {}
    case Lit(_, _, pos) => {pos}
    case Cat(l, r) => Used(l) + Moved(Used(r), Counted(l))
    case Alt(l, r) => Used(l) + Moved(Used(r), Counted(l))
    case Iter(a, min, max) => if Expands(min, max) then Copied(Used(a), Grown(a), CopyCount(min, max)) else Used(a)
  }

  /** Inside an iteration, what follows a part whose growth gets lost takes up none of its numbers. */
  predicate ClashFree(t: Re, inside: bool)
    requires WellCounted(t)
  {
    match t
    case Eps => true
    case Lit(_, _, _) => true
    case Cat(l, r) => ClashFree(l, inside) && ClashFree(r, inside)
    && (inside && !Lossless(l) ==> Used(l) !! Moved(Used(r), Counted(l)))
    case Alt(l, r) => ClashFree(l, inside) && ClashFree(r, inside)
    && (inside && !Lossless(l) ==> Used(l) !! Moved(Used(r), Counted(l)))
    case Iter(a, _, _) => ClashFree(a, true)
  }

  // ---------- copies ----------

  lemma {:induction false} StepsAdd(step: int, m: nat, n: nat)
    ensures Steps(step, m + n) == Steps(step, m) + Steps(step, n)
    decreases n
  {
    if n > 0 { StepsAdd(step, m, n - 1); }
  }

  lemma {:induction false} OffsetIsSteps(add: int, n: nat, a: Re)
    ensures Offset(add, n, a) == add + Steps(Leaves(a), n)
    decreases n
  {
    if n > 0 { OffsetIsSteps(add, n - 1, a); }
  }

  lemma {:induction false} CopiedApart(S: set<int>, step: int, m: nat, n: nat, y: int)
    ensures y in Copied(S, step, m + n) <==> y in Copied(S, step, m) || y - Steps(step, m) in Copied(S, step, n)
    decreases n
  {
    hide Moved;
    if n > 0 {
      CopiedApart(S, step, m, n - 1, y);
      StepsAdd(step, m, n - 1);
      assert m + n - 1 == m + (n - 1);
      InMoved(S, Steps(step, m + n - 1), y);
      InMoved(S, Steps(step, n - 1), y - Steps(step, m));
    }
  }

  lemma {:induction false} CopiedBetween(S: set<int>, step: nat, n: nat, lo: int, hi: int)
    requires Between(S, lo, hi) && n >= 1
    ensures Steps(step, n - 1) >= 0 && Between(Copied(S, step, n), lo, hi + Steps(step, n - 1))
    decreases n
  {
    hide Moved;
    if n > 1 { CopiedBetween(S, step, n - 1, lo, hi); } else { assert Copied(S, step, 0) == {}; }
    var d := Steps(step, n - 1);
    forall y | y in Moved(S, d) ensures lo <= y < hi + d {
      InMoved(S, d, y);
      assert lo <= y - d < hi;
    }
  }

  lemma {:induction false} CopiesPlaces(a: Re, add: int, n: nat, x: int)
    requires n >= 1
    ensures x in Positions(Copies(a, add, n)) <==> x - add in Copied(Positions(a), Leaves(a), n)
    ensures x in Positions(Optional(a, add, n)) <==> x - add in Copied(Positions(a), Leaves(a), n)
    decreases n
  {
    hide Moved;
    var d := Offset(add, n - 1, a);
    OffsetIsSteps(add, n - 1, a);
    ShiftPositions(a, d, x);
    InMoved(Positions(a), Steps(Leaves(a), n - 1), x - add);
    if n > 1 {
      CopiesPlaces(a, add, n - 1, x);
    } else {
      assert Copied(Positions(a), Leaves(a), 0) == {};
      assert Steps(Leaves(a), 0) == 0;
    }
  }

  lemma RepeatPlaces(a: Re, add: int, min: int, max: int, x: int)
    requires Counts(min, max) && Expands(min, max)
    ensures x in Positions(Repeat(a, add, min, max)) <==>
      x - add in Copied(Positions(a), Leaves(a), CopyCount(min, max))
  {
    hide Moved, Copies, Optional, Leaves, Shift;
    var tailAdd := Offset(add, min, a);
    OffsetIsSteps(add, min, a);
    if min > 0 { CopiesPlaces(a, add, min, x); }
    if max == UNBOUNDED {
      ShiftPositions(a, tailAdd, x);
      InMoved(Positions(a), Steps(Leaves(a), min), x - add);
    } else if max > min {
      CopiesPlaces(a, tailAdd, max - min, x);
      CopiedApart(Positions(a), Leaves(a), min, max - min, x - add);
      assert min + (max - min) == max;
    }
  }

  // ---------- expansion takes up those numbers ----------

  lemma {:induction false} GrownIs(t: Re, c: Counters)
    requires WellCounted(t)
    ensures Leaves(Expand(t, c).0) == Grown(t)
  {
    match t
    case Eps =>
    case Lit(_, _, _) =>
    case Cat(l, r) => GrownIs(l, c); GrownIs(r, Expand(l, c).1);
    case Alt(l, r) => GrownIs(l, c); GrownIs(r, Expand(l, c).1);
    case Iter(a, min, max) =>
      GrownIs(a, EnterIter(min, max, c));
      if Expands(min, max) {
        var a' := Expand(a, EnterIter(min, max, c)).0;
        RepeatLeaves(a', c.add, min, max);
        OffsetIsSteps(c.add, CopyCount(min, max) - 1, a');
      }
  }

  lemma {:induction false} CountedIs(t: Re, c: Counters)
    requires WellCounted(t) && c.depth > 0
    ensures Expand(t, c).1.add == c.add + Counted(t)
  {
    match t
    case Eps =>
    case Lit(_, _, _) =>
    case Cat(l, r) => CountedIs(l, c); CountedIs(r, Expand(l, c).1);
    case Alt(l, r) => CountedIs(l, c); CountedIs(r, Expand(l, c).1);
    case Iter(a, min, max) =>
      if Expands(min, max) {
        GrownIs(a, EnterIter(min, max, c));
        OffsetIsSteps(c.add, CopyCount(min, max) - 1, Expand(a, EnterIter(min, max, c)).0);
      }
  }

  lemma {:induction false} UsedIs(t: Re, c: Counters, x: int)
    requires WellCounted(t) && c.depth > 0
    ensures x in Positions(Expand(t, c).0) <==> x - c.add in Used(t)
    decreases t, 1
  {
    hide Moved;
    match t
    case Eps =>
    case Lit(_, _, _) =>
    case Cat(l, r) => UsedIs(l, c, x);
    UsedIs(r, Expand(l, c).1, x);
    CountedIs(l, c);
    InMoved(Used(r), Counted(l), x - c.add);
    case Alt(l, r) => UsedIs(l, c, x);
    UsedIs(r, Expand(l, c).1, x);
    CountedIs(l, c);
    InMoved(Used(r), Counted(l), x - c.add);
    case Iter(a, min, max) => UsedOfIter(a, min, max, c, x);
  }

  lemma {:induction false} UsedOfIter(a: Re, min: int, max: int, c: Counters, x: int)
    requires WellCounted(Iter(a, min, max)) && c.depth > 0
    ensures x in Positions(Expand(Iter(a, min, max), c).0) <==> x - c.add in Used(Iter(a, min, max))
    decreases Iter(a, min, max), 0
  {
    hide Moved, Copied;
    var c1 := EnterIter(min, max, c);
    var a' := Expand(a, c1).0;
    if Expands(min, max) {
      forall y ensures y in Positions(a') <==> y in Used(a) { UsedIs(a, c1, y); }
      assert Positions(a') == Used(a);
      GrownIs(a, c1);
      RepeatPlaces(a', c.add, min, max, x);
    } else {
      UsedIs(a, c1, x);
    }
  }

  // ---------- where the numbers lie ----------

  /** Whether safe or not: the walk turned t into u, within the numbers it has counted in all. */
  ghost predicate Ranged(u: Re, c: Counters, c': Counters, lo: int, hi: int) {
    var g := c'.total - c.total;
    && 0 <= g && Between(Positions(u), lo + c.add, hi + c.add + g) && hi - lo + g <= Leaves(u)
    && c'.depth == c.depth && (c.depth == 0 ==> c'.add == c'.total)
  }

  lemma {:induction false} ExpandRanged(t: Re, c: Counters, lo: int, hi: int)
    requires Start(t, c, lo, hi)
    ensures Ranged(Expand(t, c).0, c, Expand(t, c).1, lo, hi)
    ensures c.depth > 0 && Lossless(t) ==> Expand(t, c).1.add - c.add == Expand(t, c).1.total - c.total
    decreases t, 1
  {
    NumberedOrder(t, lo, hi);
    if t.Cat? || t.Alt? {
      if Bracket(t, lo) && hi == lo + 1 {
        ExpandBracket(t, c, lo);
        BracketLeaves(Expand(t, c).0, lo + c.add);
        return;
      }
      var mid := SplitPoint(t, lo, hi);
      PairRanged(t, c, lo, mid, hi);
      return;
    }
    if t.Iter? { IterRanged(t, c, lo, hi); }
  }

  lemma {:induction false} PairRanged(t: Re, c: Counters, lo: int, mid: int, hi: int)
    requires (t.Cat? || t.Alt?) && NumberedAt(t, lo, mid, hi) && WellCounted(t) && (c.depth == 0 ==> c.add == c.total)
    ensures Ranged(Expand(t, c).0, c, Expand(t, c).1, lo, hi)
    ensures c.depth > 0 && Lossless(t) ==> Expand(t, c).1.add - c.add == Expand(t, c).1.total - c.total
    decreases t, 0
  {
    var (l', c1) := Expand(t.left, c);
    ExpandRanged(t.left, c, lo, mid);
    ExpandRanged(t.right, c1, mid, hi);
    NumberedOrder(t.left, lo, mid);
    NumberedOrder(t.right, mid, hi);
    if c.depth > 0 { GrowthCounters(t.left, c); }
  }

  /** The copies lie between the numbers of the first one and those of the last. */
  lemma RepeatRanged(a: Re, add: int, min: int, max: int, lo: int, hi: int)
    requires Counts(min, max) && Expands(min, max) && Between(Positions(a), lo, hi)
    ensures Between(Positions(Repeat(a, add, min, max)), lo + add, hi + add + Steps(Leaves(a), CopyCount(min, max) - 1))
    ensures Leaves(Repeat(a, add, min, max)) == Leaves(a) + Steps(Leaves(a), CopyCount(min, max) - 1)
    ensures Offset(add, CopyCount(min, max) - 1, a) == add + Steps(Leaves(a), CopyCount(min, max) - 1)
    ensures Steps(Leaves(a), CopyCount(min, max) - 1) >= 0
  {
    hide Positions, Leaves, Steps, Offset, Repeat, Copied;
    var n := CopyCount(min, max);
    OffsetIsSteps(add, n - 1, a);
    RepeatLeaves(a, add, min, max);
    CopiedBetween(Positions(a), Leaves(a), n, lo, hi);
    forall x | x in Positions(Repeat(a, add, min, max)) ensures lo + add <= x < hi + add + Steps(Leaves(a), n - 1) {
      RepeatPlaces(a, add, min, max, x);
    }
  }

  /** What is left of an iteration after its argument has become a. */
  lemma AfterRanged(a: Re, c: Counters, c2: Counters, min: int, max: int, lo: int, hi: int)
    requires Counts(min, max) && Ranged(a, EnterIter(min, max, c), c2, lo, hi) && (c.depth == 0 ==> c.add == c.total)
    ensures Ranged(AfterIter(a, min, max, c.add, c2).0, c, AfterIter(a, min, max, c.add, c2).1, lo, hi)
    ensures c.depth > 0 && c2.add == EnterIter(min, max, c).add && c2.total == c.total ==>
      AfterIter(a, min, max, c.add, c2).1.add - c.add == AfterIter(a, min, max, c.add, c2).1.total - c.total
  {
    hide Steps, Repeat, Offset, Between;
    if Expands(min, max) { RepeatRanged(a, c.add, min, max, lo, hi + (c2.total - c.total)); }
  }

  lemma {:induction false} IterRanged(t: Re, c: Counters, lo: int, hi: int)
    requires t.Iter? && Start(t, c, lo, hi)
    ensures Ranged(Expand(t, c).0, c, Expand(t, c).1, lo, hi)
    ensures c.depth > 0 && Lossless(t) ==> Expand(t, c).1.add - c.add == Expand(t, c).1.total - c.total
    decreases t, 0
  {
    hide Ranged, AfterIter, NoGrowth;
    var a, min, max := t.arg, t.min, t.max;
    var c1 := EnterIter(min, max, c);
    var (a', c2) := Expand(a, c1);
    ExpandRanged(a, c1, lo, hi);
    if Lossless(t) { NoGrowthCounters(a, c1); }
    AfterRanged(a', c, c2, min, max, lo, hi);
  }

  // ---------- the exact condition ----------

  lemma {:induction false} BracketIsClashFree(t: Re, p: int, inside: bool)
    requires Bracket(t, p) && WellCounted(t)
    ensures ClashFree(t, inside)
  {
    match t
    case Lit(_, _, _) =>
    case Alt(l, r) => BracketLeaves(l, p); BracketIsClashFree(l, p, inside); BracketIsClashFree(r, p, inside);
  }

  lemma {:induction false} DistinctIsClashFree(t: Re, c: Counters, lo: int, hi: int)
    requires Start(t, c, lo, hi)
    ensures Distinct(Expand(t, c).0) <==> ClashFree(t, c.depth > 0)
    decreases t, 1
  {
    if t.Cat? || t.Alt? {
      if Bracket(t, lo) && hi == lo + 1 {
        ExpandBracket(t, c, lo);
        BracketIsDistinct(Expand(t, c).0, lo + c.add);
        BracketIsClashFree(t, lo, c.depth > 0);
        return;
      }
      var mid := SplitPoint(t, lo, hi);
      PairIsClashFree(t, c, lo, mid, hi);
      return;
    }
    if t.Iter? { IterIsClashFree(t, c, lo, hi); }
  }

  lemma {:induction false} IterIsClashFree(t: Re, c: Counters, lo: int, hi: int)
    requires t.Iter? && Start(t, c, lo, hi)
    ensures Distinct(Expand(t, c).0) <==> ClashFree(t, c.depth > 0)
    decreases t, 0
  {
    var c1 := EnterIter(t.min, t.max, c);
    var (a', c2) := Expand(t.arg, c1);
    DistinctIsClashFree(t.arg, c1, lo, hi);
    if Expands(t.min, t.max) {
      if Distinct(a') {
        ExpandRanged(t.arg, c1, lo, hi);
        NumberedOrder(t, lo, hi);
        RepeatFine(a', lo, hi + c2.total - c.total, c.add, t.min, t.max);
      } else {
        RepeatClash(a', c.add, t.min, t.max);
      }
    }
  }

  lemma UsedMoved(t: Re, c: Counters)
    requires WellCounted(t) && c.depth > 0
    ensures MovedTo(Used(t), Positions(Expand(t, c).0), c.add)
  {
    hide Moved, Expand, Used, Positions;
    forall x ensures x in Positions(Expand(t, c).0) <==> x - c.add in Used(t) { UsedIs(t, c, x); }
  }

  lemma MovedTwice(S: set<int>, T: set<int>, d: int, add: int)
    requires MovedTo(S, T, d + add)
    ensures MovedTo(Moved(S, d), T, add)
  {
    hide Moved;
    forall x ensures x in T <==> x - add in Moved(S, d) { InMoved(S, d, x - add); }
  }

  /** Two parts side by side: their numbers meet exactly if those they take up do. */
  lemma PartsMeet(l: Re, r: Re, c: Counters)
    requires WellCounted(l) && WellCounted(r) && c.depth > 0
    ensures Positions(Expand(l, c).0) !! Positions(Expand(r, Expand(l, c).1).0) <==>
      Used(l) !! Moved(Used(r), Counted(l))
  {
    hide *;
    var (l', c1) := Expand(l, c);
    var r' := Expand(r, c1).0;
    CountedIs(l, c);
    UsedMoved(l, c);
    UsedMoved(r, c1);
    MovedTwice(Used(r), Positions(r'), Counted(l), c.add);
    MovedSets(Used(l), Moved(Used(r), Counted(l)), Positions(l'), Positions(r'), c.add);
  }

  /** Parts that lie one behind the other do not meet, and are no bracket. */
  lemma PartsInOrder(l': Re, r': Re, a: int, m: int, b: int)
    requires Between(Positions(l'), a, m) && Between(Positions(r'), m, b)
    ensures Positions(l') !! Positions(r') && !IsBracket(Alt(l', r'))
  {
    forall x | x in Positions(l') && x in Positions(r') ensures false {}
    if IsBracket(Alt(l', r')) {
      var p :| Bracket(Alt(l', r'), p);
      BracketLeaves(l', p);
      BracketLeaves(r', p);
      assert false;
    }
  }

  lemma {:induction false} PairIsClashFree(t: Re, c: Counters, lo: int, mid: int, hi: int)
    requires (t.Cat? || t.Alt?) && NumberedAt(t, lo, mid, hi) && WellCounted(t) && (c.depth == 0 ==> c.add == c.total)
    ensures Distinct(Expand(t, c).0) <==> ClashFree(t, c.depth > 0)
    decreases t, 0
  {
    var (l', c1) := Expand(t.left, c);
    var (r', c2) := Expand(t.right, c1);
    ExpandRanged(t.left, c, lo, mid);
    ExpandRanged(t.right, c1, mid, hi);
    DistinctIsClashFree(t.left, c, lo, mid);
    DistinctIsClashFree(t.right, c1, mid, hi);
    if c.depth == 0 || Lossless(t.left) {
      PartsInOrder(l', r', lo + c.add, mid + c1.add, hi + c1.add + (c2.total - c1.total));
    } else {
      PartsMeet(t.left, t.right, c);
      forall p ensures !Bracket(Alt(l', r'), p) { IterationsAreNoBrackets(t.left, c, p); }
    }
  }

  /** For every consecutively numbered expression, the positions after expansion are distinct
      exactly when nothing inside an iteration takes up a number of a part in front of it whose
      growth gets lost. */
  lemma DistinctExactlyWhenClashFree(t: Re, position: int)
    requires WellCounted(t) && Numbered(t, 0, position)
    ensures var (u, c) := Expand(t, START);
            Distinct(WithFinal(u, Max(position + c.total, c.maxPos))) <==> ClashFree(t, false)
  {
    DistinctIsClashFree(t, START, 0, position);
    ExpandRanged(t, START, 0, position);
  }

  /** The simpler condition is enough, and where every leaf has its own number it is exact. */
  lemma SafeIsClashFree(t: Re, position: int)
    requires WellCounted(t) && Numbered(t, 0, position)
    ensures Safe(t, false) ==> ClashFree(t, false)
    ensures Tight(t, 0, position) ==> (ClashFree(t, false) <==> Safe(t, false))
  {
    DistinctExactlyWhenClashFree(t, position);
    if Safe(t, false) { SafeIsDistinct(t, position); }
    if Tight(t, 0, position) { DistinctExactlyWhenSafe(t, position); }
  }

  // ---------- a bracket that saves an unsafe tree ----------

  function TwoRanges(a: int, b: int): Re { Alt(Lit(a, a, 0), Lit(b, b, 0)) }

  /** (([ab]{2})*c)* */
  function BracketRounds(a: int, b: int, c: int): Re {
    Iter(Cat(Iter(Twice(a, b), 0, UNBOUNDED), Lit(c, c, 1)), 0, UNBOUNDED)
  }

  lemma TwoCopies(S: set<int>, step: int, y: int)
    ensures y in Copied(S, step, 2) <==> y in S || y - step in S
  {
    hide Moved;
    assert Steps(step, 0) == 0 && Steps(step, 1) == step;
    InMoved(S, 0, y);
    InMoved(S, step, y);
    assert Copied(S, step, 0) == {};
    assert Copied(S, step, 2) == Copied(S, step, 1) + Moved(S, step);
    assert Copied(S, step, 1) == Copied(S, step, 0) + Moved(S, 0);
  }

  function Twice(a: int, b: int): (t: Re)
    ensures WellCounted(t)
  {
    assert WellCounted(Lit(a, a, 0)) && WellCounted(Lit(b, b, 0)) && WellCounted(TwoRanges(a, b));
    Iter(TwoRanges(a, b), 2, 2)
  }

  lemma TwicePlaces(a: int, b: int, y: int)
    ensures y in Used(Twice(a, b)) <==> y == 0 || y == 2
  {
    assert CopyCount(2, 2) == 2;
    hide Moved, Copied;
    var ab := TwoRanges(a, b);
    assert WellCounted(Twice(a, b)) && WellCounted(ab);
    assert Used(ab) == {0} + Moved({0}, 0);
    forall z | z in Moved({0}, 0) ensures z == 0 { InMoved({0}, 0, z); }
    assert Used(ab) == {0};
    assert Grown(ab) == 2;
    TwoCopies({0}, 2, y);
  }

  /** The two copies of [ab] are numbered 0 and 2, and c falls between them. */
  lemma BracketFits(a: int, b: int, c: int)
    ensures var t := BracketRounds(a, b, c);
            WellCounted(t) && Numbered(t, 0, 2) && !Safe(t, false) && ClashFree(t, false)
  {
    hide Moved, Copied, Used;
    var ab := TwoRanges(a, b);
    var two := Twice(a, b);
    var many := Iter(two, 0, UNBOUNDED);
    var round := Cat(many, Lit(c, c, 1));
    assert WellCounted(many) && WellCounted(Lit(c, c, 1)) && WellCounted(round);
    assert Bracket(Lit(a, a, 0), 0) && Bracket(Lit(b, b, 0), 0) && Bracket(ab, 0);
    assert Numbered(ab, 0, 1) && Numbered(two, 0, 1) && Numbered(many, 0, 1);
    assert NumberedAt(round, 0, 1, 2);
    assert Leaves(ab) == 2 && !NoGrowth(two);
    assert Lossless(many) == NoGrowth(two) && Leaves(Lit(c, c, 1)) == 1;
    assert !Safe(round, true);
    RoundFits(many, a, b, c);
    assert ClashFree(round, true);
  }

  lemma RoundFits(many: Re, a: int, b: int, c: int)
    requires many == Iter(Twice(a, b), 0, UNBOUNDED) && WellCounted(many) && WellCounted(Lit(c, c, 1))
    ensures ClashFree(many, true) && Used(many) !! Moved(Used(Lit(c, c, 1)), Counted(many))
  {
    hide Moved, Copied;
    var two := Twice(a, b);
    assert WellCounted(TwoRanges(a, b));
    assert Counted(many) == 0 && Used(many) == Used(two) && Used(Lit(c, c, 1)) == {1};
    forall y | y in Used(many) ensures y !in Moved({1}, 0) {
      TwicePlaces(a, b, y);
      InMoved({1}, 0, y);
    }
    assert Lossless(Lit(a, a, 0)) && ClashFree(TwoRanges(a, b), true);
    assert ClashFree(two, true) && ClashFree(many, true);
  }
}
