/** An expression that the compiled automaton does not honour: x((a{2})*b)*y. Expansion gives
    the b the position of the second a, and the automaton then matches "xaby". And one where
    such a clash does no harm. */
module RegexClash {
  import opened RegexSyntax
  import opened RegexExpand
  import opened RegexPositions
  import opened RegexNumbering
  import opened RegexPlaces
  import opened RegexAst
  import opened RegexCopy
  import opened RegexMatch

  /** Four different characters. */
  datatype Letters = Letters(x: int, a: int, b: int, y: int)

  predicate Different(l: Letters) {
    l.x != l.a && l.x != l.b && l.x != l.y && l.a != l.b && l.a != l.y && l.b != l.y
  }

  function Pairs(l: Letters): Re { Iter(Iter(Lit(l.a, l.a, 1), 2, 2), 0, UNBOUNDED) }

  function Round(l: Letters): Re { Cat(Pairs(l), Lit(l.b, l.b, 2)) }

  function Rounds(l: Letters): Re { Iter(Round(l), 0, UNBOUNDED) }

  function Clash(l: Letters): Re { Cat(Cat(Lit(l.x, l.x, 0), Rounds(l)), Lit(l.y, l.y, 3)) }

  function Text(l: Letters): seq<int> { [l.x, l.a, l.b, l.y] }

  /** What expansion makes of it: the second a and the b share position 2. */
  function ExpandedPairs(l: Letters): Re { Iter(Cat(Lit(l.a, l.a, 1), Lit(l.a, l.a, 2)), 0, UNBOUNDED) }

  function ExpandedRounds(l: Letters): Re { Iter(Cat(ExpandedPairs(l), Lit(l.b, l.b, 2)), 0, UNBOUNDED) }

  function Expanded(l: Letters): Re { Cat(Cat(Lit(l.x, l.x, 0), ExpandedRounds(l)), Lit(l.y, l.y, 4)) }

  lemma CountsAreFine(l: Letters)
    ensures WellCounted(Iter(Lit(l.a, l.a, 1), 2, 2)) && WellCounted(Pairs(l)) && WellCounted(Rounds(l))
    ensures WellCounted(Clash(l))
  {
    var aa := Iter(Lit(l.a, l.a, 1), 2, 2);
    assert WellCounted(aa);
    assert WellCounted(Pairs(l));
    assert WellCounted(Round(l));
    assert WellCounted(Rounds(l));
  }

  lemma UnsafeNumbering(l: Letters)
    ensures WellCounted(Clash(l)) && Numbered(Clash(l), 0, 4) && !Safe(Clash(l), false)
  {
    var aa := Iter(Lit(l.a, l.a, 1), 2, 2);
    CountsAreFine(l);
    assert Numbered(aa, 1, 2);
    assert Numbered(Pairs(l), 1, 2);
    assert NumberedAt(Round(l), 1, 2, 3);
    assert Numbered(Rounds(l), 1, 3);
    assert Numbered(Lit(l.x, l.x, 0), 0, 1);
    assert NumberedAt(Cat(Lit(l.x, l.x, 0), Rounds(l)), 0, 1, 3);
    assert Numbered(Cat(Lit(l.x, l.x, 0), Rounds(l)), 0, 3);
    assert NumberedAt(Clash(l), 0, 3, 4);
    assert !NoGrowth(aa);
    assert !Lossless(Pairs(l));
    assert !Safe(Round(l), true);
    assert !Safe(Rounds(l), false);
  }

  lemma ExpandsTo(l: Letters)
    ensures WellCounted(Clash(l)) && Expand(Clash(l), START) == (Expanded(l), Counters(1, 1, 4, 0))
  {
    CountsAreFine(l);
    var a, aa := Lit(l.a, l.a, 1), Iter(Lit(l.a, l.a, 1), 2, 2);
    var pair := Cat(a, Lit(l.a, l.a, 2));
    assert Offset(0, 1, a) == 1;
    assert Copies(a, 0, 1) == a;
    assert Copies(a, 0, 2) == pair;
    assert Highest(pair) == 2;
    assert Expand(aa, Counters(0, 0, 0, 2)) == (pair, Counters(1, 1, 2, 2));
    assert Expand(Pairs(l), Counters(0, 0, 0, 1)) == (ExpandedPairs(l), Counters(0, 1, 2, 1));
    assert Expand(Round(l), Counters(0, 0, 0, 1)) == (Cat(ExpandedPairs(l), Lit(l.b, l.b, 2)), Counters(0, 1, 2, 1));
    assert Expand(Rounds(l), START) == (ExpandedRounds(l), Counters(1, 1, 2, 0));
    assert Expand(Cat(Lit(l.x, l.x, 0), Rounds(l)), START) == (Cat(Lit(l.x, l.x, 0), ExpandedRounds(l)),
                                                               Counters(1, 1, 2, 0));
    assert Expand(Lit(l.y, l.y, 3), Counters(1, 1, 2, 0)) == (Lit(l.y, l.y, 4), Counters(1, 1, 4, 0));
  }

  // ---------- the automaton accepts the text ----------

  lemma LiteralEnds(c: int, p: int)
    ensures First(Lit(c, c, p)) == Last(Lit(c, c, p)) == [Entry(p, c, c)] && !Nullable(Lit(c, c, p))
    ensures Starts(Lit(c, c, p), p)
  {
    assert Entry(p, c, c) in First(Lit(c, c, p));
  }

  lemma CatEnds(l: Re, r: Re)
    ensures First(Cat(l, r)) == (if Nullable(l) then First(r) + First(l) else First(l))
    ensures Last(Cat(l, r)) == (if Nullable(r) then Last(l) + Last(r) else Last(r))
    ensures Nullable(Cat(l, r)) == (Nullable(l) && Nullable(r))
  {
  }

  lemma StarEnds(a: Re)
    ensures var t := Iter(a, 0, UNBOUNDED); First(t) == First(a) && Last(t) == Last(a) && Nullable(t)
  {
  }

  lemma FollowJoin(l: Re, r: Re, e: Entry, q: int)
    requires e in Last(l) && Starts(r, q)
    ensures Follow(Cat(l, r), e, q)
  {
  }

  lemma FollowLeft(l: Re, r: Re, e: Entry, q: int)
    requires Follow(l, e, q)
    ensures Follow(Cat(l, r), e, q)
  {
  }

  lemma FollowRight(l: Re, r: Re, e: Entry, q: int)
    requires Follow(r, e, q)
    ensures Follow(Cat(l, r), e, q)
  {
  }

  lemma FollowRound(a: Re, e: Entry, q: int)
    requires Follow(a, e, q)
    ensures Follow(Iter(a, 0, UNBOUNDED), e, q)
  {
  }

  lemma StepBy(t: Re, e: Entry, c: int, q: int)
    requires Follow(t, e, q) && e.lo == c == e.hi
    ensures Step(t, e.pos, c, q)
  {
  }

  lemma StartBy(t: Re, e: Entry)
    requires e in First(t)
    ensures Starts(t, e.pos)
  {
  }

  lemma Transitions(l: Letters)
    ensures var t := WithFinal(Expanded(l), 5);
            Step(t, 0, l.x, 1) && Step(t, 1, l.a, 2) && Step(t, 2, l.b, 4) && Step(t, 4, l.y, 5) && Starts(t, 0)
  {
    hide First, Last, Nullable, Follow, Starts, Step;
    var lx, la, la2, lb, ly, lf := Lit(l.x, l.x, 0), Lit(l.a, l.a, 1), Lit(l.a, l.a, 2), Lit(l.b, l.b, 2),
        Lit(l.y, l.y, 4), Lit(0, 0, 5);
    var pair := Cat(la, la2);
    var pairs := Iter(pair, 0, UNBOUNDED);
    var round := Cat(pairs, lb);
    var rounds := Iter(round, 0, UNBOUNDED);
    var t2 := Cat(lx, rounds);
    var t1 := Cat(t2, ly);
    var t := Cat(t1, lf);
    var x, a, b, y := Entry(0, l.x, l.x), Entry(1, l.a, l.a), Entry(2, l.b, l.b), Entry(4, l.y, l.y);
    LiteralEnds(l.x, 0);
    LiteralEnds(l.a, 1);
    LiteralEnds(l.a, 2);
    LiteralEnds(l.b, 2);
    LiteralEnds(l.y, 4);
    LiteralEnds(0, 5);
    CatEnds(la, la2);
    StarEnds(pair);
    CatEnds(pairs, lb);
    StarEnds(round);
    CatEnds(lx, rounds);
    CatEnds(t2, ly);
    CatEnds(t1, lf);
    assert t == WithFinal(Expanded(l), 5);
    StartBy(t, x);
    StartBy(rounds, a);
    FollowJoin(lx, rounds, x, 1);
    FollowLeft(t2, ly, x, 1); FollowLeft(t1, lf, x, 1);
    StepBy(t, x, l.x, 1);
    FollowJoin(la, la2, a, 2);
    FollowRound(pair, a, 2); FollowLeft(pairs, lb, a, 2); FollowRound(round, a, 2); FollowRight(lx, rounds, a, 2);
    FollowLeft(t2, ly, a, 2); FollowLeft(t1, lf, a, 2);
    StepBy(t, a, l.a, 2);
    assert Last(t2) == [x] + [b];
    FollowJoin(t2, ly, b, 4);
    FollowLeft(t1, lf, b, 4);
    StepBy(t, b, l.b, 4);
    FollowJoin(t1, lf, y, 5);
    StepBy(t, y, l.y, 5);
  }

  lemma Accepted(l: Letters)
    ensures Accepts(WithFinal(Expanded(l), 5), 5, Text(l))
  {
    var t := WithFinal(Expanded(l), 5);
    Transitions(l);
    assert Text(l)[1..][1..][1..][1..] == [];
    assert Reaches(t, 5, Text(l)[1..][1..][1..][1..], 5);
    assert ReachesVia(t, 4, Text(l)[1..][1..][1..], 5, 5);
    assert ReachesVia(t, 2, Text(l)[1..][1..], 5, 4);
    assert ReachesVia(t, 1, Text(l)[1..], 5, 2);
    assert ReachesVia(t, 0, Text(l), 5, 1);
  }

  // ---------- the expression does not occur in it ----------

  /** After a leading a comes another one. */
  ghost predicate Doubled(l: Letters, s: seq<int>) { |s| > 0 && s[0] == l.a ==> |s| > 1 && s[1] == l.a }

  lemma {:induction false} PairsDouble(l: Letters, n: nat, s: seq<int>)
    requires Power(Iter(Lit(l.a, l.a, 1), 2, 2), n, s)
    ensures n == 0 ==> s == []
    ensures n > 0 ==> |s| > 1 && s[1] == l.a
  {
    var aa := Iter(Lit(l.a, l.a, 1), 2, 2);
    if n > 0 {
      var k := PowerFirst(aa, n, s);
      var m: nat :| Allows(2, 2, m) && Power(Lit(l.a, l.a, 1), m, s[..k]);
      var j := PowerFirst(Lit(l.a, l.a, 1), 2, s[..k]);
      var i := PowerFirst(Lit(l.a, l.a, 1), 1, s[..k][j..]);
      assert s[1] == s[..k][j..][..i][0];
    }
  }

  lemma RoundDoubles(l: Letters, s: seq<int>)
    requires Different(l) && Matches(Round(l), s)
    ensures |s| > 0 && Doubled(l, s)
  {
    var k := CatElim(Pairs(l), Lit(l.b, l.b, 2), s);
    assert Matches(Pairs(l), s[..k]);
    var n: nat :| Power(Iter(Lit(l.a, l.a, 1), 2, 2), n, s[..k]);
    PairsDouble(l, n, s[..k]);
    if n == 0 { assert s[k..][0] == s[0]; } else { assert s[..k][1] == s[1]; }
  }

  lemma RoundsDouble(l: Letters, n: nat, s: seq<int>)
    requires Different(l) && Power(Round(l), n, s)
    ensures Doubled(l, s)
  {
    if n > 0 {
      var k := PowerFirst(Round(l), n, s);
      RoundDoubles(l, s[..k]);
    }
  }

  lemma NotThere(l: Letters, i: int, e: int)
    requires Different(l)
    ensures !OccursAt(Clash(l), Text(l), i, e)
  {
    if OccursAt(Clash(l), Text(l), i, e) {
      var s := Text(l)[i..e];
      var front := Cat(Lit(l.x, l.x, 0), Rounds(l));
      var k := CatElim(front, Lit(l.y, l.y, 3), s);
      var j := CatElim(Lit(l.x, l.x, 0), Rounds(l), s[..k]);
      assert s[..k][..j][0] == s[0] == l.x && s[k..][0] == s[k] == l.y;
      assert i == 0 && k == 3 && j == 1;
      assert Matches(Rounds(l), s[..k][j..]);
      var n: nat :| Power(Round(l), n, s[..k][j..]);
      assert s[1] == l.a && s[2] == l.b;
      assert s[..k][j..] == [l.a, l.b];
      RoundsDouble(l, n, s[..k][j..]);
    }
  }

  lemma NowhereThere(l: Letters)
    requires Different(l)
    ensures !Occurs(Clash(l), Text(l))
  {
    forall i, e ensures !OccursAt(Clash(l), Text(l), i, e) { NotThere(l, i, e); }
  }

  lemma AcceptedAs(t: Re, position: int, word: seq<int>, u: Re, c: Counters, final: int)
    requires WellCounted(t) && Expand(t, START) == (u, c) && final == Max(position + c.total, c.maxPos)
    requires Accepts(WithFinal(u, final), final, word)
    ensures AcceptsCompiled(t, position, word)
  {
  }

  lemma AcceptedHere(l: Letters)
    ensures WellCounted(Clash(l)) && AcceptsCompiled(Clash(l), 4, Text(l))
  {
    ExpandsTo(l);
    Accepted(l);
    AcceptedAs(Clash(l), 4, Text(l), Expanded(l), Counters(1, 1, 4, 0), 5);
  }

  /** Compiled and matched, x((a{2})*b)*y is found in "xaby", where it does not occur. */
  lemma MatchesTooMuch(l: Letters)
    requires Different(l)
    ensures WellCounted(Clash(l)) && AcceptsCompiled(Clash(l), 4, Text(l)) && !Occurs(Clash(l), Text(l))
  {
    AcceptedHere(l);
    NowhereThere(l);
  }

  lemma ClashIsProper(l: Letters)
    requires 0 < l.x && 0 < l.a && 0 < l.b && 0 < l.y
    ensures Proper(Clash(l)) && 0 !in Text(l)
  {
    assert Proper(Pairs(l));
    assert Proper(Round(l));
    assert Proper(Rounds(l));
    assert Proper(Cat(Lit(l.x, l.x, 0), Rounds(l)));
  }

  /** So regcomp followed by regexec answers that it is there. */
  method AnswersTooMuch(mem: Arena, tree: Ptr, l: Letters) returns (ok: bool)
    requires Different(l) && 0 < l.x && 0 < l.a && 0 < l.b && 0 < l.y
    requires Tree(mem.nodes, tree, Clash(l)) && Unshared(mem.nodes, tree, Clash(l))
    modifies mem
    ensures ok && !Occurs(Clash(l), Text(l))
  {
    MatchesTooMuch(l);
    ClashIsProper(l);
    ok := CompileAndMatch(mem, tree, 4, Text(l), Clash(l));
    assert Text(l)[0..4] == Text(l);
    assert CompiledAt(Clash(l), 4, Text(l), 0, 4);
  }

  // ---------- a clash that does no harm ----------

  function Twos(a: int): Re { Iter(Iter(Lit(a, a, 0), 2, 2), 0, UNBOUNDED) }

  function OddRound(a: int): Re { Cat(Twos(a), Lit(a, a, 1)) }

  /** ((a{2})*a)* */
  function Harmless(a: int): Re { Iter(OddRound(a), 0, UNBOUNDED) }

  function ExpandedTwos(a: int): Re { Iter(Cat(Lit(a, a, 0), Lit(a, a, 1)), 0, UNBOUNDED) }

  function ExpandedHarmless(a: int): Re { Iter(Cat(ExpandedTwos(a), Lit(a, a, 1)), 0, UNBOUNDED) }

  lemma HarmlessCounts(a: int)
    ensures WellCounted(Iter(Lit(a, a, 0), 2, 2)) && WellCounted(Twos(a)) && WellCounted(OddRound(a))
            && WellCounted(Harmless(a))
  {
    assert WellCounted(Iter(Lit(a, a, 0), 2, 2));
    assert WellCounted(Twos(a));
    assert WellCounted(OddRound(a));
  }

  lemma HarmlessExpands(a: int)
    ensures WellCounted(Harmless(a)) && Expand(Harmless(a), START) == (ExpandedHarmless(a), Counters(1, 1, 1, 0))
  {
    HarmlessCounts(a);
    var l, two := Lit(a, a, 0), Iter(Lit(a, a, 0), 2, 2);
    var pair := Cat(l, Lit(a, a, 1));
    assert Offset(0, 1, l) == 1;
    assert Copies(l, 0, 1) == l;
    assert Copies(l, 0, 2) == pair;
    assert Highest(pair) == 1;
    assert Expand(two, Counters(0, 0, 0, 2)) == (pair, Counters(1, 1, 1, 2));
    assert Expand(Twos(a), Counters(0, 0, 0, 1)) == (ExpandedTwos(a), Counters(0, 1, 1, 1));
    assert Expand(OddRound(a), Counters(0, 0, 0, 1)) == (Cat(ExpandedTwos(a), Lit(a, a, 1)), Counters(0, 1, 1, 1));
  }

  lemma HarmlessClashes(a: int)
    ensures WellCounted(Harmless(a)) && Numbered(Harmless(a), 0, 2) && !ClashFree(Harmless(a), false)
  {
    HarmlessCounts(a);
    var l, two := Lit(a, a, 0), Iter(Lit(a, a, 0), 2, 2);
    assert Numbered(l, 0, 1) && Numbered(two, 0, 1) && Numbered(Twos(a), 0, 1);
    assert NumberedAt(OddRound(a), 0, 1, 2);
    assert Tight(l, 0, 1) && Tight(two, 0, 1) && Tight(Twos(a), 0, 1) && Tight(Lit(a, a, 1), 1, 2);
    assert Leaves(two) == 1 && Leaves(Twos(a)) == 1 && Leaves(OddRound(a)) == 2 && Leaves(Harmless(a)) == 2;
    assert Numbered(OddRound(a), 0, 2) && Tight(Harmless(a), 0, 2);
    assert !NoGrowth(two) && !Lossless(Twos(a)) && Leaves(Lit(a, a, 1)) == 1;
    assert !Safe(OddRound(a), true);
    SafeIsClashFree(Harmless(a), 2);
  }

  predicate AllLetter(s: seq<int>, a: int) { forall i :: 0 <= i < |s| ==> s[i] == a }

  /** Every leaf of t is a. */
  predicate OnlyLetter(t: Re, a: int) {
    match t
    case Eps => true
    case Lit(lo, hi, _) => lo == a == hi
    case Cat(l, r) => OnlyLetter(l, a) && OnlyLetter(r, a)
    case Alt(l, r) => OnlyLetter(l, a) && OnlyLetter(r, a)
    case Iter(b, _, _) => OnlyLetter(b, a)
  }

  lemma {:induction false} LetterEntries(t: Re, a: int, e: Entry)
    requires OnlyLetter(t, a) && (e in First(t) || e in Last(t))
    ensures e.lo == a == e.hi
  {
    match t
    case Lit(_, _, _) =>
    case Cat(l, r) =>
      if e in First(l) || e in Last(l) { LetterEntries(l, a, e); } else { LetterEntries(r, a, e); }
    case Alt(l, r) =>
      if e in First(l) || e in Last(l) { LetterEntries(l, a, e); } else { LetterEntries(r, a, e); }
    case Iter(b, _, _) => LetterEntries(b, a, e);
  }

  lemma {:induction false} LetterFollows(t: Re, a: int, e: Entry, q: int)
    requires OnlyLetter(t, a) && Follow(t, e, q)
    ensures e.lo == a == e.hi
  {
    match t
    case Cat(l, r) =>
      if Follow(l, e, q) { LetterFollows(l, a, e, q); }
      else if Follow(r, e, q) { LetterFollows(r, a, e, q); }
      else { LetterEntries(l, a, e); }
    case Alt(l, r) => if Follow(l, e, q) { LetterFollows(l, a, e, q); } else { LetterFollows(r, a, e, q); }
    case Iter(b, _, _) => if Follow(b, e, q) { LetterFollows(b, a, e, q); } else { LetterEntries(b, a, e); }
  }

  lemma {:induction false} LetterPath(t: Re, a: int, final: int, p: int, s: seq<int>, q: int)
    requires OnlyLetter(t, a) && Reaches(WithFinal(t, final), p, s, q)
    ensures AllLetter(s, a)
    decreases |s|
  {
    if s != [] {
      var u := WithFinal(t, final);
      var m :| ReachesVia(u, p, s, q, m);
      var e :| Follow(u, e, m) && e.pos == p && e.lo <= s[0] <= e.hi;
      assert !Follow(Lit(0, 0, final), e, m);
      if Follow(t, e, m) { LetterFollows(t, a, e, m); } else { LetterEntries(t, a, e); }
      LetterPath(t, a, final, m, s[1..], q);
    }
  }

  lemma {:induction false} LettersMatch(a: int, s: seq<int>)
    requires AllLetter(s, a)
    ensures Power(OddRound(a), |s|, s)
    decreases |s|
  {
    if s != [] {
      LettersMatch(a, s[1..]);
      var empty: seq<int> := [];
      assert Power(Iter(Lit(a, a, 0), 2, 2), 0, empty) && Allows(0, UNBOUNDED, 0);
      assert Matches(Twos(a), empty) && Matches(Lit(a, a, 1), [a]);
      CatIntro(Twos(a), Lit(a, a, 1), empty, [a]);
      assert empty + [a] == [a];
      PowerStep(OddRound(a), |s| - 1, [a], s[1..]);
      assert [a] + s[1..] == s;
    }
  }

  /** In ((a{2})*a)* two leaves get the same position, and still the compiled automaton accepts
      exactly the words of the expression: distinct positions are not needed for the answer. */
  lemma ClashWithoutHarm(a: int, s: seq<int>)
    ensures WellCounted(Harmless(a)) && Numbered(Harmless(a), 0, 2) && !ClashFree(Harmless(a), false)
    ensures AcceptsCompiled(Harmless(a), 2, s) <==> Matches(Harmless(a), s)
  {
    HarmlessClashes(a);
    HarmlessExpands(a);
    if Matches(Harmless(a), s) { NothingIsMissed(Harmless(a), 2, s); }
    if AcceptsCompiled(Harmless(a), 2, s) {
      var u, final := ExpandedHarmless(a), FinalOf(Harmless(a), 2);
      var p :| Starts(WithFinal(u, final), p) && Reaches(WithFinal(u, final), p, s, final);
      HarmlessLetters(a);
      LetterPath(u, a, final, p, s, final);
      LettersMatch(a, s);
      assert Allows(0, UNBOUNDED, |s|);
    }
  }

  lemma HarmlessLetters(a: int)
    ensures OnlyLetter(ExpandedHarmless(a), a)
  {
    assert OnlyLetter(ExpandedTwos(a), a);
  }
}
