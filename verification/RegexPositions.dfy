/** nullable, firstpos, lastpos and the transitions drawn from them, as functions of an
    expanded tree, and the theorem that the resulting position automaton accepts exactly
    the language of the tree. */
module RegexPositions {
  import opened RegexSyntax
  import opened RegexExpand

  /** One element of a firstpos or lastpos array. */
  datatype Entry = Entry(pos: int, lo: int, hi: int)

  function Nullable(t: Re): bool {
    match t
    case Eps => true
    case Lit(_, _, _) => false
    case Cat(l, r) => Nullable(l) && Nullable(r)
    case Alt(l, r) => Nullable(l) || Nullable(r)
    case Iter(a, min, _) => min == 0 || Nullable(a)
  }

  function First(t: Re): seq<Entry> {
    match t
    case Eps => []
    case Lit(lo, hi, pos) => [Entry(pos, lo, hi)]
    case Cat(l, r) => if Nullable(l) then First(r) + First(l) else First(l)
    case Alt(l, r) => First(l) + First(r)
    case Iter(a, _, _) => First(a)
  }

  function Last(t: Re): seq<Entry> {
    match t
    case Eps => []
    case Lit(lo, hi, pos) => [Entry(pos, lo, hi)]
    case Cat(l, r) => if Nullable(r) then Last(l) + Last(r) else Last(r)
    case Alt(l, r) => Last(l) + Last(r)
    case Iter(a, _, _) => Last(a)
  }

  ghost predicate Starts(t: Re, p: int) { exists e :: e in First(t) && e.pos == p }

  /** The automaton may leave position e.pos, on a character in e's range, for position q. */
  ghost predicate Follow(t: Re, e: Entry, q: int) {
    match t
    case Eps => false
    case Lit(_, _, _) => false
    case Cat(l, r) => Follow(l, e, q) || Follow(r, e, q) || (e in Last(l) && Starts(r, q))
    case Alt(l, r) => Follow(l, e, q) || Follow(r, e, q)
    case Iter(a, _, max) => Follow(a, e, q) || (max == UNBOUNDED && e in Last(a) && Starts(a, q))
  }

  ghost predicate Step(t: Re, p: int, c: int, q: int) {
    exists e :: Follow(t, e, q) && e.pos == p && e.lo <= c <= e.hi
  }

  ghost predicate Ends(t: Re, p: int, c: int) {
    exists e :: e in Last(t) && e.pos == p && e.lo <= c <= e.hi
  }

  /** From position p, s can be consumed, the last character at a last position. */
  ghost predicate Run(t: Re, p: int, s: seq<int>)
    decreases |s|
  {
    |s| > 0 && if |s| == 1 then Ends(t, p, s[0]) else exists q :: RunVia(t, p, s, q)
  }

  ghost predicate RunVia(t: Re, p: int, s: seq<int>, q: int)
    requires |s| > 1
    decreases |s|, 0
  {
    Step(t, p, s[0], q) && Run(t, q, s[1..])
  }

  // ---------- well-formed numbering ----------

  function Positions(t: Re): set<int> {
    match t
    case Eps => {}
    case Lit(_, _, pos) => {pos}
    case Cat(l, r) => Positions(l) + Positions(r)
    case Alt(l, r) => Positions(l) + Positions(r)
    case Iter(a, _, _) => Positions(a)
  }

  /** A union of ranges that all carry position p: what a bracket expression becomes. */
  predicate Bracket(t: Re, p: int) {
    match t
    case Lit(_, _, pos) => pos == p
    case Alt(l, r) => Bracket(l, p) && Bracket(r, p)
    case _ => false
  }

  ghost predicate IsBracket(t: Re) { exists p :: Bracket(t, p) }

  /** Distinct leaves have distinct positions, except inside one bracket. */
  ghost predicate Distinct(t: Re) {
    match t
    case Eps => true
    case Lit(_, _, _) => true
    case Cat(l, r) => Distinct(l) && Distinct(r) && Positions(l) !! Positions(r)
    case Alt(l, r) => IsBracket(t) || (Distinct(l) && Distinct(r) && Positions(l) !! Positions(r))
    case Iter(a, _, _) => Distinct(a)
  }

  // ---------- positions stay inside their subtree ----------

  lemma {:induction false} EntriesArePositions(t: Re, e: Entry)
    ensures e in First(t) || e in Last(t) ==> e.pos in Positions(t)
  {
    match t
    case Eps =>
    case Lit(_, _, _) =>
    case Cat(l, r) => EntriesArePositions(l, e); EntriesArePositions(r, e);
    case Alt(l, r) => EntriesArePositions(l, e); EntriesArePositions(r, e);
    case Iter(a, _, _) => EntriesArePositions(a, e);
  }

  lemma StartsArePositions(t: Re, p: int)
    ensures Starts(t, p) ==> p in Positions(t)
  {
    if Starts(t, p) {
      var e :| e in First(t) && e.pos == p;
      EntriesArePositions(t, e);
    }
  }

  lemma {:induction false} FollowsArePositions(t: Re, e: Entry, q: int)
    requires Follow(t, e, q)
    ensures e.pos in Positions(t) && q in Positions(t)
  {
    match t
    case Cat(l, r) =>
      EntriesArePositions(l, e); StartsArePositions(r, q);
      if Follow(l, e, q) { FollowsArePositions(l, e, q); }
      if Follow(r, e, q) { FollowsArePositions(r, e, q); }
    case Alt(l, r) =>
      if Follow(l, e, q) { FollowsArePositions(l, e, q); }
      if Follow(r, e, q) { FollowsArePositions(r, e, q); }
    case Iter(a, _, _) =>
      EntriesArePositions(a, e); StartsArePositions(a, q);
      if Follow(a, e, q) { FollowsArePositions(a, e, q); }
  }

  lemma StepsArePositions(t: Re, p: int, c: int, q: int)
    ensures Step(t, p, c, q) ==> p in Positions(t) && q in Positions(t)
    ensures Ends(t, p, c) ==> p in Positions(t)
  {
    if Step(t, p, c, q) {
      var e :| Follow(t, e, q) && e.pos == p && e.lo <= c <= e.hi;
      FollowsArePositions(t, e, q);
    }
    if Ends(t, p, c) {
      var e :| e in Last(t) && e.pos == p && e.lo <= c <= e.hi;
      EntriesArePositions(t, e);
    }
  }

  // ---------- runs of a tree in terms of runs of its parts ----------

  ghost predicate Begins(t: Re, s: seq<int>) {
    exists p :: Starts(t, p) && Run(t, p, s)
  }

  /** On u's own positions the automaton of t behaves as the automaton of u. */
  ghost predicate Embeds(t: Re, u: Re) {
    && (forall p, c, q :: p in Positions(u) ==> (Step(t, p, c, q) <==> Step(u, p, c, q)))
    && (forall p, c :: p in Positions(u) ==> (Ends(t, p, c) <==> Ends(u, p, c)))
  }

  /** The automaton of t can do all that the one of u can. */
  ghost predicate Covers(t: Re, u: Re) {
    && (forall p, c, q :: Step(u, p, c, q) ==> Step(t, p, c, q))
    && (forall p, c :: Ends(u, p, c) ==> Ends(t, p, c))
  }

  lemma {:induction false} CoveredRun(t: Re, u: Re, p: int, s: seq<int>)
    requires Covers(t, u) && Run(u, p, s)
    ensures Run(t, p, s)
    decreases |s|
  {
    if |s| > 1 {
      var q :| RunVia(u, p, s, q);
      CoveredRun(t, u, q, s[1..]);
      assert RunVia(t, p, s, q);
    }
  }

  lemma {:induction false} EmbeddedRun(t: Re, u: Re, p: int, s: seq<int>)
    requires Embeds(t, u) && p in Positions(u)
    ensures Run(t, p, s) <==> Run(u, p, s)
    decreases |s|
  {
    if |s| > 1 {
      forall q ensures RunVia(t, p, s, q) <==> RunVia(u, p, s, q) {
        StepsArePositions(u, p, s[0], q);
        if q in Positions(u) { EmbeddedRun(t, u, q, s[1..]); }
      }
    }
  }

  lemma StepOfCat(l: Re, r: Re, p: int, c: int, q: int)
    ensures Step(Cat(l, r), p, c, q) <==> Step(l, p, c, q) || Step(r, p, c, q) || (Ends(l, p, c) && Starts(r, q))
  {
    var t := Cat(l, r);
    if Step(t, p, c, q) {
      var e :| Follow(t, e, q) && e.pos == p && e.lo <= c <= e.hi;
    }
    if Ends(l, p, c) && Starts(r, q) {
      var e :| e in Last(l) && e.pos == p && e.lo <= c <= e.hi;
      assert Follow(t, e, q);
    }
    if Step(l, p, c, q) {
      var e :| Follow(l, e, q) && e.pos == p && e.lo <= c <= e.hi;
      assert Follow(t, e, q);
    }
    if Step(r, p, c, q) {
      var e :| Follow(r, e, q) && e.pos == p && e.lo <= c <= e.hi;
      assert Follow(t, e, q);
    }
  }

  lemma EndsOfCat(l: Re, r: Re, p: int, c: int)
    ensures Ends(Cat(l, r), p, c) <==> Ends(r, p, c) || (Nullable(r) && Ends(l, p, c))
  {
    var t := Cat(l, r);
    if Ends(l, p, c) && Nullable(r) {
      var e :| e in Last(l) && e.pos == p && e.lo <= c <= e.hi;
      assert e in Last(t);
    }
    if Ends(r, p, c) {
      var e :| e in Last(r) && e.pos == p && e.lo <= c <= e.hi;
      assert e in Last(t);
    }
  }

  lemma RightOfCat(l: Re, r: Re)
    requires Positions(l) !! Positions(r)
    ensures Embeds(Cat(l, r), r)
  {
    forall p, c, q | p in Positions(r) ensures Step(Cat(l, r), p, c, q) <==> Step(r, p, c, q) {
      StepOfCat(l, r, p, c, q);
      StepsArePositions(l, p, c, q);
    }
    forall p, c | p in Positions(r) ensures Ends(Cat(l, r), p, c) <==> Ends(r, p, c) {
      EndsOfCat(l, r, p, c);
      StepsArePositions(l, p, c, 0);
    }
  }

  lemma CatCovers(l: Re, r: Re)
    ensures Covers(Cat(l, r), r)
  {
    forall p, c, q ensures Step(r, p, c, q) ==> Step(Cat(l, r), p, c, q) { StepOfCat(l, r, p, c, q); }
    forall p, c ensures Ends(r, p, c) ==> Ends(Cat(l, r), p, c) { EndsOfCat(l, r, p, c); }
  }

  /** A run that starts in l leaves it after k characters, for a start of r. */
  ghost predicate Crosses(l: Re, r: Re, p: int, s: seq<int>, k: int) {
    1 <= k < |s| && Run(l, p, s[..k]) && Begins(r, s[k..])
  }

  lemma RunNext(t: Re, p: int, s: seq<int>) returns (q: int)
    requires |s| > 1 && Run(t, p, s)
    ensures RunVia(t, p, s, q)
  {
    q :| RunVia(t, p, s, q);
  }

  lemma RunExtend(t: Re, p: int, s: seq<int>, q: int, k: int)
    requires 1 < k <= |s| && Step(t, p, s[0], q) && Run(t, q, s[1..][..k - 1])
    ensures Run(t, p, s[..k])
  {
    assert s[..k][1..] == s[1..][..k - 1];
    assert RunVia(t, p, s[..k], q);
  }

  lemma {:induction false} LeftOfCatCrosses(l: Re, r: Re, p: int, s: seq<int>)
    requires Positions(l) !! Positions(r) && p in Positions(l) && Run(Cat(l, r), p, s)
    ensures (Nullable(r) && Run(l, p, s)) || exists k :: Crosses(l, r, p, s, k)
    decreases |s|
  {
    var t := Cat(l, r);
    if |s| == 1 {
      EndsOfCat(l, r, p, s[0]);
      StepsArePositions(r, p, s[0], 0);
    } else {
      var q :| RunVia(t, p, s, q);
      StepOfCat(l, r, p, s[0], q);
      StepsArePositions(r, p, s[0], q);
      if Step(l, p, s[0], q) {
        StepsArePositions(l, p, s[0], q);
        LeftOfCatCrosses(l, r, q, s[1..]);
        if Nullable(r) && Run(l, q, s[1..]) {
          assert RunVia(l, p, s, q);
        } else {
          var j :| Crosses(l, r, q, s[1..], j);
          RunExtend(l, p, s, q, j + 1);
          assert s[1..][j..] == s[j + 1..];
          assert Crosses(l, r, p, s, j + 1);
        }
      } else {
        StartsArePositions(r, q);
        RightOfCat(l, r);
        EmbeddedRun(t, r, q, s[1..]);
        assert Run(l, p, s[..1]);
        assert Crosses(l, r, p, s, 1);
      }
    }
  }

  lemma {:induction false} CrossingRuns(l: Re, r: Re, p: int, s: seq<int>, k: int)
    requires Crosses(l, r, p, s, k)
    ensures Run(Cat(l, r), p, s)
    decreases |s|
  {
    var t := Cat(l, r);
    if k == 1 {
      var q :| Starts(r, q) && Run(r, q, s[1..]);
      StepOfCat(l, r, p, s[0], q);
      CatCovers(l, r);
      CoveredRun(t, r, q, s[1..]);
      assert RunVia(t, p, s, q);
    } else {
      var q := RunNext(l, p, s[..k]);
      StepOfCat(l, r, p, s[0], q);
      assert s[..k][1..] == s[1..][..k - 1];
      assert s[1..][k - 1..] == s[k..];
      assert Crosses(l, r, q, s[1..], k - 1);
      CrossingRuns(l, r, q, s[1..], k - 1);
      assert RunVia(t, p, s, q);
    }
  }

  lemma {:induction false} LeftRuns(l: Re, r: Re, p: int, s: seq<int>)
    requires Nullable(r) && Run(l, p, s)
    ensures Run(Cat(l, r), p, s)
    decreases |s|
  {
    if |s| == 1 {
      EndsOfCat(l, r, p, s[0]);
    } else {
      var q :| RunVia(l, p, s, q);
      StepOfCat(l, r, p, s[0], q);
      LeftRuns(l, r, q, s[1..]);
      assert RunVia(Cat(l, r), p, s, q);
    }
  }

  lemma StepOfAlt(l: Re, r: Re, p: int, c: int, q: int)
    ensures Step(Alt(l, r), p, c, q) <==> Step(l, p, c, q) || Step(r, p, c, q)
    ensures Ends(Alt(l, r), p, c) <==> Ends(l, p, c) || Ends(r, p, c)
  {
    var t := Alt(l, r);
    if Step(l, p, c, q) {
      var e :| Follow(l, e, q) && e.pos == p && e.lo <= c <= e.hi;
      assert Follow(t, e, q);
    }
    if Step(r, p, c, q) {
      var e :| Follow(r, e, q) && e.pos == p && e.lo <= c <= e.hi;
      assert Follow(t, e, q);
    }
    if Ends(l, p, c) {
      var e :| e in Last(l) && e.pos == p && e.lo <= c <= e.hi;
      assert e in Last(t);
    }
    if Ends(r, p, c) {
      var e :| e in Last(r) && e.pos == p && e.lo <= c <= e.hi;
      assert e in Last(t);
    }
  }

  lemma SidesOfAlt(l: Re, r: Re)
    requires Positions(l) !! Positions(r)
    ensures Embeds(Alt(l, r), l) && Embeds(Alt(l, r), r)
  {
    forall p, c, q
      ensures p in Positions(l) ==> (Step(Alt(l, r), p, c, q) <==> Step(l, p, c, q))
      ensures p in Positions(r) ==> (Step(Alt(l, r), p, c, q) <==> Step(r, p, c, q))
    {
      StepOfAlt(l, r, p, c, q);
      StepsArePositions(l, p, c, q);
      StepsArePositions(r, p, c, q);
    }
    forall p, c
      ensures p in Positions(l) ==> (Ends(Alt(l, r), p, c) <==> Ends(l, p, c))
      ensures p in Positions(r) ==> (Ends(Alt(l, r), p, c) <==> Ends(r, p, c))
    {
      StepOfAlt(l, r, p, c, 0);
      StepsArePositions(l, p, c, 0);
      StepsArePositions(r, p, c, 0);
    }
  }

  lemma AltCovers(l: Re, r: Re)
    ensures Covers(Alt(l, r), l) && Covers(Alt(l, r), r)
  {
    forall p, c, q ensures Step(Alt(l, r), p, c, q) <==> Step(l, p, c, q) || Step(r, p, c, q) {
      StepOfAlt(l, r, p, c, q);
    }
    forall p, c ensures Ends(Alt(l, r), p, c) <==> Ends(l, p, c) || Ends(r, p, c) { StepOfAlt(l, r, p, c, 0); }
  }

  lemma StartsOfAlt(l: Re, r: Re, p: int)
    ensures Starts(Alt(l, r), p) <==> Starts(l, p) || Starts(r, p)
  {
    if Starts(l, p) {
      var e :| e in First(l) && e.pos == p;
      assert e in First(Alt(l, r));
    }
    if Starts(r, p) {
      var e :| e in First(r) && e.pos == p;
      assert e in First(Alt(l, r));
    }
  }

  lemma StartsOfCat(l: Re, r: Re, p: int)
    ensures Starts(Cat(l, r), p) <==> Starts(l, p) || (Nullable(l) && Starts(r, p))
  {
    if Starts(l, p) {
      var e :| e in First(l) && e.pos == p;
      assert e in First(Cat(l, r));
    }
    if Starts(r, p) && Nullable(l) {
      var e :| e in First(r) && e.pos == p;
      assert e in First(Cat(l, r));
    }
  }

  // ---------- iterations ----------

  lemma StepOfIter(a: Re, min: int, max: int, p: int, c: int, q: int)
    ensures Step(Iter(a, min, max), p, c, q) <==>
      Step(a, p, c, q) || (max == UNBOUNDED && Ends(a, p, c) && Starts(a, q))
    ensures Ends(Iter(a, min, max), p, c) <==> Ends(a, p, c)
  {
    var t := Iter(a, min, max);
    if Step(t, p, c, q) {
      var e :| Follow(t, e, q) && e.pos == p && e.lo <= c <= e.hi;
    }
    if Step(a, p, c, q) {
      var e :| Follow(a, e, q) && e.pos == p && e.lo <= c <= e.hi;
      assert Follow(t, e, q);
    }
    if max == UNBOUNDED && Ends(a, p, c) && Starts(a, q) {
      var e :| e in Last(a) && e.pos == p && e.lo <= c <= e.hi;
      assert Follow(t, e, q);
    }
  }

  ghost predicate Star(a: Re, s: seq<int>) { exists n: nat :: Power(a, n, s) }

  /** The first k characters of s are a run of a, and the rest is more words of a. */
  ghost predicate Rounds(a: Re, p: int, s: seq<int>, k: int) {
    1 <= k <= |s| && Run(a, p, s[..k]) && Star(a, s[k..])
  }

  /** On non-empty words, runs from a start of t are the words of t. */
  ghost predicate Correct(t: Re) {
    forall s :: |s| > 0 ==> (Matches(t, s) <==> Begins(t, s))
  }

  /** Half of it: the words are among the runs. */
  ghost predicate Complete(t: Re) {
    forall s :: |s| > 0 && Matches(t, s) ==> Begins(t, s)
  }

  lemma StarStep(a: Re, u: seq<int>, v: seq<int>)
    requires Matches(a, u) && Star(a, v)
    ensures Star(a, u + v)
  {
    var n: nat :| Power(a, n, v);
    PowerStep(a, n, u, v);
  }

  lemma {:induction false} FirstWord(a: Re, n: nat, s: seq<int>) returns (k: nat)
    requires Power(a, n, s) && |s| > 0
    ensures 1 <= k <= |s| && Matches(a, s[..k]) && Star(a, s[k..])
    decreases n
  {
    k := PowerFirst(a, n, s);
    if k == 0 {
      assert s[0..] == s;
      k := FirstWord(a, n - 1, s);
    }
  }

  lemma {:induction false} LoopRounds(a: Re, min: int, p: int, s: seq<int>)
    requires Correct(a) && Run(Iter(a, min, UNBOUNDED), p, s)
    ensures exists k :: Rounds(a, p, s, k)
    decreases |s|
  {
    var t := Iter(a, min, UNBOUNDED);
    if |s| == 1 {
      StepOfIter(a, min, UNBOUNDED, p, s[0], 0);
      assert s[..1] == s && Power(a, 0, s[1..]);
      assert Rounds(a, p, s, 1);
    } else {
      var q := RunNext(t, p, s);
      StepOfIter(a, min, UNBOUNDED, p, s[0], q);
      LoopRounds(a, min, q, s[1..]);
      var j :| Rounds(a, q, s[1..], j);
      if Step(a, p, s[0], q) {
        RunExtend(a, p, s, q, j + 1);
        assert s[1..][j..] == s[j + 1..];
        assert Rounds(a, p, s, j + 1);
      } else {
        assert Begins(a, s[1..][..j]);
        StarStep(a, s[1..][..j], s[1..][j..]);
        assert s[1..][..j] + s[1..][j..] == s[1..];
        assert Rounds(a, p, s, 1);
      }
    }
  }

  lemma {:induction false} RoundsLoop(a: Re, min: int, p: int, s: seq<int>, k: int)
    requires Complete(a) && Rounds(a, p, s, k)
    ensures Run(Iter(a, min, UNBOUNDED), p, s)
    decreases |s|
  {
    var t := Iter(a, min, UNBOUNDED);
    if |s| == 1 {
      assert s[..k] == s;
      StepOfIter(a, min, UNBOUNDED, p, s[0], 0);
    } else if k == 1 {
      var n: nat :| Power(a, n, s[1..]);
      var j := FirstWord(a, n, s[1..]);
      assert Begins(a, s[1..][..j]);
      var q :| Starts(a, q) && Run(a, q, s[1..][..j]);
      StepOfIter(a, min, UNBOUNDED, p, s[0], q);
      RoundsLoop(a, min, q, s[1..], j);
      assert RunVia(t, p, s, q);
    } else {
      var q := RunNext(a, p, s[..k]);
      assert s[..k][1..] == s[1..][..k - 1];
      assert s[1..][k - 1..] == s[k..];
      StepOfIter(a, min, UNBOUNDED, p, s[0], q);
      RoundsLoop(a, min, q, s[1..], k - 1);
      assert RunVia(t, p, s, q);
    }
  }

  // ---------- brackets ----------

  lemma {:induction false} BracketShape(t: Re, p: int)
    requires Bracket(t, p)
    ensures !Nullable(t) && First(t) == Last(t) && |First(t)| > 0
    ensures forall e :: e in First(t) ==> e.pos == p
    ensures forall e, q :: !Follow(t, e, q)
  {
    match t
    case Lit(_, _, _) =>
    case Alt(l, r) => BracketShape(l, p); BracketShape(r, p);
  }

  lemma {:induction false} BracketWords(t: Re, p: int, s: seq<int>)
    requires Bracket(t, p)
    ensures Matches(t, s) <==> |s| == 1 && Ends(t, p, s[0])
  {
    match t
    case Lit(lo, hi, pos) =>
      if |s| == 1 && lo <= s[0] <= hi { assert Entry(pos, lo, hi) in Last(t); }
    case Alt(l, r) =>
      BracketWords(l, p, s); BracketWords(r, p, s);
      if |s| == 1 { StepOfAlt(l, r, p, s[0], 0); }
  }

  lemma BracketCorrect(t: Re, p: int)
    requires Bracket(t, p)
    ensures Correct(t)
  {
    BracketShape(t, p);
    assert First(t)[0] in First(t) && Starts(t, p);
    forall s | |s| > 0 ensures Matches(t, s) <==> Begins(t, s) {
      BracketWords(t, p, s);
      if |s| > 1 && Begins(t, s) {
        var q :| Starts(t, q) && Run(t, q, s);
        var q' := RunNext(t, q, s);
      }
    }
  }

  // ---------- the theorem ----------

  lemma {:induction false} EmptyPower(a: Re, n: nat)
    requires Matches(a, [])
    ensures Power(a, n, [])
    decreases n
  {
    if n > 0 {
      EmptyPower(a, n - 1);
      var empty: seq<int> := [];
      PowerStep(a, n - 1, empty, empty);
      assert empty + empty == empty;
    }
  }

  lemma EmptyPowerWord(a: Re, n: nat)
    requires n > 0 && Power(a, n, [])
    ensures Matches(a, [])
  {
    var empty: seq<int> := [];
    var k := PowerFirst(a, n, empty);
    assert empty[..k] == [];
  }

  /** nullable is exactly membership of the empty word. */
  lemma {:induction false} NullableIsEmptyWord(t: Re)
    requires Simple(t)
    ensures Nullable(t) <==> Matches(t, [])
  {
    match t
    case Eps =>
    case Lit(_, _, _) =>
    case Cat(l, r) =>
      NullableIsEmptyWord(l); NullableIsEmptyWord(r);
      var empty: seq<int> := [];
      if Nullable(t) {
        CatIntro(l, r, empty, empty);
        assert empty + empty == empty;
      }
      if Matches(t, []) {
        var k := CatElim(l, r, empty);
        assert empty[..k] == [] && empty[k..] == [];
      }
    case Alt(l, r) => NullableIsEmptyWord(l); NullableIsEmptyWord(r);
    case Iter(a, min, max) =>
      NullableIsEmptyWord(a);
      if min == 0 {
        assert Allows(min, max, 0) && Power(a, 0, []);
      } else if Nullable(a) {
        EmptyPower(a, 1);
        assert Allows(min, max, 1);
      } else if Matches(t, []) {
        var n: nat :| Allows(min, max, n) && Power(a, n, []);
        EmptyPowerWord(a, n);
      }
  }

  lemma CatComplete(l: Re, r: Re)
    requires Complete(l) && Complete(r) && (Nullable(l) <==> Matches(l, [])) && (Nullable(r) <==> Matches(r, []))
    ensures Complete(Cat(l, r))
  {
    forall s | |s| > 0 && Matches(Cat(l, r), s) ensures Begins(Cat(l, r), s) { CatBegins(l, r, s); }
  }

  lemma CatBegins(l: Re, r: Re, s: seq<int>)
    requires Complete(l) && Complete(r) && (Nullable(l) <==> Matches(l, [])) && (Nullable(r) <==> Matches(r, []))
    requires |s| > 0 && Matches(Cat(l, r), s)
    ensures Begins(Cat(l, r), s)
  {
    var t := Cat(l, r);
    var k := CatElim(l, r, s);
    if k == 0 {
      assert s[..0] == [] && s[0..] == s;
      var p :| Starts(r, p) && Run(r, p, s);
      StartsOfCat(l, r, p);
      CatCovers(l, r);
      CoveredRun(t, r, p, s);
    } else {
      var p :| Starts(l, p) && Run(l, p, s[..k]);
      StartsOfCat(l, r, p);
      if k == |s| {
        assert s[..k] == s && s[k..] == [];
        LeftRuns(l, r, p, s);
      } else {
        assert Crosses(l, r, p, s, k);
        CrossingRuns(l, r, p, s, k);
      }
    }
  }

  lemma AltComplete(l: Re, r: Re)
    requires Complete(l) && Complete(r)
    ensures Complete(Alt(l, r))
  {
    var t := Alt(l, r);
    AltCovers(l, r);
    forall s | |s| > 0 && Matches(t, s) ensures Begins(t, s) {
      var u := if Matches(l, s) then l else r;
      var p :| Starts(u, p) && Run(u, p, s);
      StartsOfAlt(l, r, p);
      CoveredRun(t, u, p, s);
    }
  }

  lemma LoopComplete(a: Re, min: int)
    requires Complete(a)
    ensures Complete(Iter(a, min, UNBOUNDED))
  {
    var t := Iter(a, min, UNBOUNDED);
    forall s | |s| > 0 && Matches(t, s) ensures Begins(t, s) {
      var n: nat :| Allows(min, UNBOUNDED, n) && Power(a, n, s);
      var k := FirstWord(a, n, s);
      assert Begins(a, s[..k]);
      var p :| Starts(a, p) && Run(a, p, s[..k]);
      RoundsLoop(a, min, p, s, k);
      assert Starts(t, p);
    }
  }

  lemma OnceComplete(a: Re, min: int)
    requires Complete(a) && (min == 0 || min == 1)
    ensures Complete(Iter(a, min, 1))
  {
    var t := Iter(a, min, 1);
    assert Covers(t, a) by {
      forall p, c, q ensures Step(t, p, c, q) <==> Step(a, p, c, q) { StepOfIter(a, min, 1, p, c, q); }
      forall p, c ensures Ends(t, p, c) <==> Ends(a, p, c) { StepOfIter(a, min, 1, p, c, 0); }
    }
    forall s | |s| > 0 && Matches(t, s) ensures Begins(t, s) {
      PowerOne(a, s);
      var n: nat :| Allows(min, 1, n) && Power(a, n, s);
      assert n == 1 && Begins(a, s);
      var p :| Starts(a, p) && Run(a, p, s);
      CoveredRun(t, a, p, s);
      assert Starts(t, p);
    }
  }

  /** However the leaves are numbered, every word of a simple tree is a run of its automaton. */
  lemma {:induction false} EveryWordBegins(t: Re)
    requires Simple(t)
    ensures Complete(t)
  {
    match t
    case Eps =>
    case Lit(_, _, pos) => BracketCorrect(t, pos);
    case Cat(l, r) =>
      EveryWordBegins(l); EveryWordBegins(r);
      NullableIsEmptyWord(l); NullableIsEmptyWord(r);
      CatComplete(l, r);
    case Alt(l, r) =>
      EveryWordBegins(l); EveryWordBegins(r);
      AltComplete(l, r);
    case Iter(a, min, max) =>
      EveryWordBegins(a);
      if max == 1 { OnceComplete(a, min); } else { LoopComplete(a, min); }
  }

  lemma CatCorrect(l: Re, r: Re)
    requires Positions(l) !! Positions(r) && Correct(l) && Correct(r)
    requires Nullable(l) <==> Matches(l, [])
    requires Nullable(r) <==> Matches(r, [])
    ensures Correct(Cat(l, r))
  {
    CatComplete(l, r);
    forall s | |s| > 0 && Begins(Cat(l, r), s) ensures Matches(Cat(l, r), s) { CatSound(l, r, s); }
  }

  lemma CatSound(l: Re, r: Re, s: seq<int>)
    requires Positions(l) !! Positions(r) && Correct(l) && Correct(r)
    requires Nullable(l) <==> Matches(l, [])
    requires Nullable(r) <==> Matches(r, [])
    requires |s| > 0 && Begins(Cat(l, r), s)
    ensures Matches(Cat(l, r), s)
  {
    var t := Cat(l, r);
    var p :| Starts(t, p) && Run(t, p, s);
    StartsOfCat(l, r, p);
    var k: int;
    if Starts(l, p) {
      k := CatSoundLeft(l, r, p, s);
    } else {
      StartsArePositions(r, p);
      RightOfCat(l, r); EmbeddedRun(t, r, p, s);
      k := 0;
      assert s[..0] == [] && s[0..] == s;
      assert Begins(r, s);
    }
    assert CatAt(l, r, s, k);
  }

  lemma CatSoundLeft(l: Re, r: Re, p: int, s: seq<int>) returns (k: int)
    requires Positions(l) !! Positions(r) && Correct(l) && Correct(r)
    requires Nullable(r) <==> Matches(r, [])
    requires |s| > 0 && Starts(l, p) && Run(Cat(l, r), p, s)
    ensures CatAt(l, r, s, k)
  {
    StartsArePositions(l, p);
    LeftOfCatCrosses(l, r, p, s);
    if Nullable(r) && Run(l, p, s) {
      k := |s|;
      assert s[..k] == s && s[k..] == [];
      assert Begins(l, s);
    } else {
      k :| Crosses(l, r, p, s, k);
      assert Begins(l, s[..k]);
    }
  }

  lemma AltCorrect(l: Re, r: Re)
    requires Positions(l) !! Positions(r) && Correct(l) && Correct(r)
    ensures Correct(Alt(l, r))
  {
    var t := Alt(l, r);
    SidesOfAlt(l, r);
    forall s | |s| > 0 ensures Matches(t, s) <==> Begins(t, s) {
      forall p
        ensures Starts(l, p) ==> Starts(t, p) && (Run(t, p, s) <==> Run(l, p, s))
        ensures Starts(r, p) ==> Starts(t, p) && (Run(t, p, s) <==> Run(r, p, s))
        ensures Starts(t, p) ==> Starts(l, p) || Starts(r, p)
      {
        StartsOfAlt(l, r, p);
        StartsArePositions(l, p); StartsArePositions(r, p);
        if p in Positions(l) { EmbeddedRun(t, l, p, s); }
        if p in Positions(r) { EmbeddedRun(t, r, p, s); }
      }
    }
  }

  lemma LoopCorrect(a: Re, min: int)
    requires Correct(a) && (min == 0 || min == 1)
    ensures Correct(Iter(a, min, UNBOUNDED))
  {
    var t := Iter(a, min, UNBOUNDED);
    LoopComplete(a, min);
    forall s | |s| > 0 && Begins(t, s) ensures Matches(t, s) {
      var p :| Starts(t, p) && Run(t, p, s);
      LoopRounds(a, min, p, s);
      var k :| Rounds(a, p, s, k);
      assert Starts(a, p) && Begins(a, s[..k]);
      StarStep(a, s[..k], s[k..]);
      assert s[..k] + s[k..] == s;
      var n: nat :| Power(a, n, s);
      assert n != 0 && Allows(min, UNBOUNDED, n);
    }
  }

  lemma OnceCorrect(a: Re, min: int)
    requires Correct(a) && (min == 0 || min == 1)
    ensures Correct(Iter(a, min, 1))
  {
    var t := Iter(a, min, 1);
    assert Embeds(t, a) by {
      forall p, c, q ensures Step(t, p, c, q) <==> Step(a, p, c, q) { StepOfIter(a, min, 1, p, c, q); }
      forall p, c ensures Ends(t, p, c) <==> Ends(a, p, c) { StepOfIter(a, min, 1, p, c, 0); }
    }
    forall s | |s| > 0 ensures Matches(t, s) <==> Begins(t, s) {
      PowerOne(a, s);
      assert Allows(min, 1, 1);
      assert Matches(t, s) <==> Matches(a, s);
      forall p | Starts(a, p) ensures Run(t, p, s) <==> Run(a, p, s) {
        StartsArePositions(a, p);
        EmbeddedRun(t, a, p, s);
      }
      assert forall p :: Starts(t, p) <==> Starts(a, p);
    }
  }

  /** The position automaton of a simple, distinctly numbered tree accepts a non-empty
      word exactly when the word is in the language of the tree. */
  lemma {:induction false} AutomatonIsCorrect(t: Re)
    requires Simple(t) && Distinct(t)
    ensures Correct(t)
  {
    match t
    case Eps =>
    case Lit(_, _, pos) => BracketCorrect(t, pos);
    case Cat(l, r) =>
      AutomatonIsCorrect(l); AutomatonIsCorrect(r);
      NullableIsEmptyWord(l); NullableIsEmptyWord(r);
      CatCorrect(l, r);
    case Alt(l, r) =>
      if IsBracket(t) {
        var p :| Bracket(t, p);
        BracketCorrect(t, p);
      } else {
        AutomatonIsCorrect(l); AutomatonIsCorrect(r);
        AltCorrect(l, r);
      }
    case Iter(a, min, max) =>
      AutomatonIsCorrect(a);
      if max == 1 { OnceCorrect(a, min); } else { LoopCorrect(a, min); }
  }

  // ---------- the compiled automaton ----------

  /** The tree regcomp compiles: t followed by a dummy leaf whose position is the final state. */
  function WithFinal(t: Re, final: int): Re { Cat(t, Lit(0, 0, final)) }

  /** There is a path from p to q that consumes s. */
  ghost predicate Reaches(t: Re, p: int, s: seq<int>, q: int)
    decreases |s|
  {
    if s == [] then p == q else exists m :: ReachesVia(t, p, s, q, m)
  }

  ghost predicate ReachesVia(t: Re, p: int, s: seq<int>, q: int, m: int)
    requires s != []
    decreases |s|, 0
  {
    Step(t, p, s[0], m) && Reaches(t, m, s[1..], q)
  }

  ghost predicate Accepts(t: Re, final: int, s: seq<int>) {
    exists p :: Starts(t, p) && Reaches(t, p, s, final)
  }

  lemma EndsAtFinal(t: Re, final: int, p: int)
    ensures Ends(WithFinal(t, final), p, 0) <==> p == final
  {
    var leaf := Lit(0, 0, final);
    EndsOfCat(t, leaf, p, 0);
    assert Last(leaf) == [Entry(final, 0, 0)];
    if p == final { assert Entry(final, 0, 0) in Last(leaf); }
  }

  lemma {:induction false} RunToFinal(t: Re, final: int, p: int, s: seq<int>)
    ensures Run(WithFinal(t, final), p, s + [0]) <==> Reaches(WithFinal(t, final), p, s, final)
    decreases |s|
  {
    var u := WithFinal(t, final);
    if s == [] {
      EndsAtFinal(t, final, p);
      assert (s + [0])[0] == 0;
    } else {
      assert (s + [0])[1..] == s[1..] + [0];
      forall q ensures RunVia(u, p, s + [0], q) <==> ReachesVia(u, p, s, final, q) {
        RunToFinal(t, final, q, s[1..]);
      }
    }
  }

  lemma FinalLeaf(t: Re, final: int, s: seq<int>)
    ensures Matches(WithFinal(t, final), s + [0]) <==> Matches(t, s)
  {
    var leaf, w := Lit(0, 0, final), s + [0];
    if Matches(t, s) { CatIntro(t, leaf, s, [0]); }
    if Matches(WithFinal(t, final), w) {
      var k := CatElim(t, leaf, w);
      assert w[..k] == s;
    }
  }

  /** However the leaves are numbered, every word of t is spelled by a path to the final state. */
  lemma WordsAreAccepted(t: Re, final: int, s: seq<int>)
    requires Simple(t) && Matches(t, s)
    ensures Accepts(WithFinal(t, final), final, s)
  {
    var u := WithFinal(t, final);
    EveryWordBegins(u);
    FinalLeaf(t, final, s);
    var p :| Starts(u, p) && Run(u, p, s + [0]);
    RunToFinal(t, final, p, s);
  }

  /** A path from an initial state to the final state spells a word of t, and every word of
      t is spelled by one. */
  lemma AcceptsIsMatches(t: Re, final: int, s: seq<int>)
    requires Simple(t) && Distinct(WithFinal(t, final))
    ensures Accepts(WithFinal(t, final), final, s) <==> Matches(t, s)
  {
    var u := WithFinal(t, final);
    AutomatonIsCorrect(u);
    FinalLeaf(t, final, s);
    assert Matches(u, s + [0]) <==> Begins(u, s + [0]);
    forall p ensures Run(u, p, s + [0]) <==> Reaches(u, p, s, final) { RunToFinal(t, final, p, s); }
  }
}
