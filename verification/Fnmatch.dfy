/** fnmatch: the matcher that remembers one star. */
module Fnmatch {
  import opened CText
  import opened FnmatchPattern
  import opened FnmatchStar

  const FNM_NOMATCH := 1

  lemma AnyMore(done: seq<Range>, r: Range, c: char, f: Flags)
    ensures InAny(done + [r], c, f) <==> InAny(done, c, f) || InRange(r, c, f)
  {
    assert forall x :: x in done + [r] <==> x in done || x == r;
  }

  lemma NoneYet(c: char, f: Flags)
    ensures !InAny([], c, f)
  {
  }

  lemma OneChar(r: char, c: char, f: Flags)
    ensures Same(r, c, f) <==> InRange(Range(r, r), c, f)
  {
  }

  lemma RangeHit(lo: char, hi: char, c: char, f: Flags)
    ensures InRange(Range(lo, hi), c, f) <==> (f.casefold && Lower(lo) <= Lower(c) <= Lower(hi)) || lo <= c <= hi
  {
  }

  /** The character, or the two ends of the range, that p stands at. */
  method ReadItem(pat: string, at: nat, f: Flags) returns (lo: char, hi: char, isRange: bool, p: nat)
    requires Text(pat) && at < |pat| && pat[at] != ']'
    ensures at < p <= |pat| && (isRange || lo == hi)
    ensures Items(pat, at, f) == ([Range(lo, hi)] + Items(pat, p, f).0, Items(pat, p, f).1)
  {
    p := at;
    lo := At(pat, p);
    TextEnds(pat, p + 1);
    if lo == '\\' && !f.noescape && At(pat, p + 1) != '\0' {
      p := p + 1;
      lo := At(pat, p);
    }
    hi, isRange := lo, false;
    if At(pat, p + 1) == '-' {
      TextEnds(pat, p + 2);
      if At(pat, p + 2) != '\0' && At(pat, p + 2) != ']' {
        isRange := true;
        hi := At(pat, p + 2);
        p := p + 2;
        TextEnds(pat, p + 1);
        if hi == '\\' && !f.noescape && At(pat, p + 1) != '\0' {
          p := p + 1;
          hi := At(pat, p);
        }
      }
    }
    p := p + 1;
  }

  /** One bracket expression against one character. after is what follows the ']', 0 if there is none. */
  method Bracket(pat: string, at: nat, c: char, f: Flags) returns (hit: bool, after: nat)
    requires Text(pat) && at < |pat| && pat[at] == '['
    ensures after == if Closed(pat, at, f) then SetItems(pat, at, f).1 + 1 else 0
    ensures hit <==> Closed(pat, at, f) && InSet(pat, at, c, f)
  {
    hide InRange, Items, InAny;
    var p, negated, matched := at + 1, false, false;
    ghost var all, done := SetItems(pat, at, f), [];
    NoneYet(c, f);
    if At(pat, p) == '!' || At(pat, p) == '^' {
      negated := true;
      p := p + 1;
    }
    if At(pat, p) == ']' {
      if Same(']', c, f) { matched := true; }
      p := p + 1;
      OneChar(']', c, f);
      AnyMore([], Range(']', ']'), c, f);
      done := [] + [Range(']', ']')];
    }
    TextEnds(pat, p);
    assert done + Items(pat, p, f).0 == all.0;
    while At(pat, p) != '\0' && At(pat, p) != ']'
      invariant at < p <= |pat| && all == (done + Items(pat, p, f).0, Items(pat, p, f).1)
      invariant matched <==> InAny(done, c, f)
      invariant At(pat, p) == '\0' <==> p == |pat|
      decreases |pat| - p
    {
      ghost var rest := Items(pat, p, f);
      var lo, hi, isRange;
      lo, hi, isRange, p := ReadItem(pat, p, f);
      if isRange {
        if f.casefold {
          var want := Lower(c);
          if (want >= Lower(lo) && want <= Lower(hi)) || (c >= lo && c <= hi) { matched := true; }
        } else if c >= lo && c <= hi {
          matched := true;
        }
        RangeHit(lo, hi, c, f);
      } else {
        OneChar(lo, c, f);
        if Same(lo, c, f) { matched := true; }
      }
      AnyMore(done, Range(lo, hi), c, f);
      assert done + rest.0 == done + [Range(lo, hi)] + Items(pat, p, f).0;
      done := done + [Range(lo, hi)];
      TextEnds(pat, p);
    }
    ItemsEnd(pat, p, f);
    assert all.0 == done;
    if At(pat, p) != ']' { return false, 0; }
    after := p + 1;
    if f.pathname && c == '/' { return false, after; }
    hit := if negated then !matched else matched;
  }

  lemma ItemsEnd(pat: string, p: nat, f: Flags)
    requires p <= |pat| && (p < |pat| ==> pat[p] == ']')
    ensures Items(pat, p, f) == ([], p)
  {
  }

  /** The element at p against c: whether it matches, and then where the pattern goes on. */
  method TryElement(pat: string, at: nat, c: char, f: Flags) returns (hit: bool, p: nat)
    requires Text(pat) && at < |pat|
    ensures hit <==> Hit(pat, at, c, f)
    ensures p == if hit then ElementEnd(pat, at, f) else at
  {
    hit, p := false, at;
    if At(pat, p) == '[' {
      var after;
      hit, after := Bracket(pat, p, c, f);
      if hit {
        p := after;
      } else if after != 0 {
        hit := false;
      } else {
        hit := Same('[', c, f);
        if hit { p := p + 1; }
      }
    } else if At(pat, p) == '?' {
      hit := !(f.pathname && c == '/');
      if hit { p := p + 1; }
    } else {
      var want := At(pat, p);
      TextEnds(pat, p + 1);
      if want == '\\' && !f.noescape && At(pat, p + 1) != '\0' {
        want := At(pat, p + 1);
        if Same(want, c, f) {
          p := p + 2;
          hit := true;
        }
      } else if Same(want, c, f) {
        p := p + 1;
        hit := true;
      }
    }
  }

  /** Past a run of stars. */
  method SkipStars(pat: string, at: nat) returns (p: nat)
    requires at <= |pat|
    ensures at <= p <= |pat| && (forall i :: at <= i < p ==> pat[i] == '*') && (p < |pat| ==> pat[p] != '*')
  {
    p := at;
    while At(pat, p) == '*'
      invariant at <= p <= |pat| && forall i :: at <= i < p ==> pat[i] == '*'
      decreases |pat| - p
    {
      p := p + 1;
    }
  }

  /** Whether the string from a on has no slash. */
  method NoSlash(s: string, a: nat) returns (none: bool)
    requires Text(s) && a <= |s|
    ensures none <==> forall i :: a <= i < |s| ==> s[i] != '/'
  {
    var i := a;
    TextEnds(s, i);
    while At(s, i) != '\0' && At(s, i) != '/'
      invariant a <= i <= |s| && (forall j :: a <= j < i ==> s[j] != '/') && (At(s, i) == '\0' <==> i == |s|)
      decreases |s| - i
    {
      i := i + 1;
      TextEnds(s, i);
    }
    none := At(s, i) == '\0';
  }

  /** Where the matching stands: which star is remembered, if any, and how the pattern is tied to it. */
  ghost predicate Stands(pat: string, s: string, f: Flags, p: nat, a: nat, star: bool, starP: nat, starS: nat) {
    && p <= |pat| && a <= |s| && starP <= |pat| && starS <= a
    && if star
       then Steps(pat, starP, s, starS, p, a, f) && (Matches(pat, 0, s, 0, f) <==> FromStar(pat, starP, s, starS, f))
       else Matches(pat, 0, s, 0, f) <==> Matches(pat, p, s, a, f)
  }

  lemma StandsHit(pat: string, s: string, f: Flags, p: nat, a: nat, star: bool, starP: nat, starS: nat)
    requires Stands(pat, s, f, p, a, star, starP, starS) && p < |pat| && pat[p] != '*' && a < |s|
             && !Refused(pat, p, s, a, f) && Hit(pat, p, s[a], f)
    ensures Stands(pat, s, f, ElementEnd(pat, p, f), a + 1, star, starP, starS)
  {
    if star { StepsOne(pat, starP, s, starS, p, a, f); }
  }

  /** From the stars at p to the pattern r behind them: the new star replaces the old one. */
  lemma StandsStar(pat: string, s: string, f: Flags, p: nat, a: nat, star: bool, starP: nat, starS: nat, r: nat)
    requires Stands(pat, s, f, p, a, star, starP, starS) && p < r <= |pat| && forall i :: p <= i < r ==> pat[i] == '*'
    requires !Refused(pat, p, s, a, f)
    ensures Stands(pat, s, f, r, a, true, r, a)
  {
    hide Matches, FromStar, Steps, Refused;
    forall c: nat | a <= c <= |s| && Matches(pat, p, s, c, f) ensures FromStar(pat, r, s, c, f) {
      StarsAreOne(pat, p, r, s, c, f);
    }
    StarsAreOne(pat, p, r, s, a, f);
    if star { NewStarSuffices(pat, starP, s, starS, p, r, a, f); }
    NoSteps(pat, r, s, a, f);
  }

  lemma NoSteps(pat: string, r: nat, s: string, a: nat, f: Flags)
    requires r <= |pat| && a <= |s|
    ensures Steps(pat, r, s, a, r, a, f)
  {
  }

  /** The element at p does not match, or the pattern is used up with characters left: the
      remembered star has to take one more, if there is one and it may. */
  lemma StandsMiss(pat: string, s: string, f: Flags, p: nat, a: nat, star: bool, starP: nat, starS: nat)
    requires Stands(pat, s, f, p, a, star, starP, starS) && a < |s|
             && (if p < |pat| then pat[p] != '*' && !Hit(pat, p, s[a], f) else !MayEnd(s, a, f))
    ensures !Matches(pat, p, s, a, f)
    ensures !star ==> !Matches(pat, 0, s, 0, f)
    ensures star && StructuralSlash(s[starS], f) ==> !Matches(pat, 0, s, 0, f)
    ensures star && !StructuralSlash(s[starS], f) ==> Stands(pat, s, f, starP, starS + 1, true, starP, starS + 1)
  {
    assert !Matches(pat, p, s, a, f);
    if star {
      StepsMatch(pat, starP, s, starS, p, a, f);
      GiveMore(pat, starP, s, starS, f);
    }
  }

  /** When the elements so far lead up to a segment's start and the rest of the pattern does not
      match there, the remembered star has no other place. */
  lemma StandsForced(pat: string, s: string, f: Flags, p: nat, a: nat, star: bool, starP: nat, starS: nat)
    requires Stands(pat, s, f, p, a, star, starP, starS) && !Matches(pat, p, s, a, f) && Lead(s, a, f)
             && (star ==> a > starS)
    ensures !Matches(pat, 0, s, 0, f)
  {
    if star { ForcedSlash(pat, starP, s, starS, p, a, f); }
  }

  /** When the rest of the pattern matches, all of it does. */
  lemma StandsFound(pat: string, s: string, f: Flags, p: nat, a: nat, star: bool, starP: nat, starS: nat)
    requires Stands(pat, s, f, p, a, star, starP, starS) && p == |pat| && a < |s| && f.leadingDir && s[a] == '/'
    ensures Matches(pat, 0, s, 0, f)
  {
    if star {
      StepsMatch(pat, starP, s, starS, p, a, f);
      assert StarTakes(s, starS, starS, f) && Matches(pat, starP, s, starS, f);
    }
  }

  /** What the variable leading tells: a segment starts here, unless there is no match any more; and
      where one starts with a dot it is set. */
  ghost predicate Leads(pat: string, s: string, f: Flags, a: nat, star: bool, starS: nat, leading: bool)
    requires a <= |s|
  {
    && (leading ==> !Matches(pat, 0, s, 0, f) || (Lead(s, a, f) && (star ==> a > starS)))
    && (f.period && Lead(s, a, f) && a < |s| && s[a] == '.' ==> leading)
  }

  method Fnmatch(pat: string, s: string, f: Flags) returns (r: int, ghost rounds: nat)
    requires Text(pat) && Text(s)
    ensures r == 0 <==> Matches(pat, 0, s, 0, f)
    ensures r == 0 || r == FNM_NOMATCH
    ensures rounds <= (|s| + 1) * (|pat| + 1)
  {
    hide Matches, FromStar, Steps, Hit, ElementEnd, Stands, Leads;
    var p: nat, a: nat, star, starP: nat, starS: nat, leading := 0, 0, false, 0, 0, true;
    ghost var back: nat := 0;
    rounds := 0;
    Starts(pat, s, f);
    TextEnds(s, a);
    while At(s, a) != '\0'
      invariant p <= |pat| && starP <= |pat| && starP <= p && starS <= a <= |s| && (!star ==> starS == 0)
      invariant At(s, a) == '\0' <==> a == |s|
      invariant Stands(pat, s, f, p, a, star, starP, starS) && Leads(pat, s, f, a, star, starS, leading)
      invariant back <= starS && rounds <= back * (|pat| + 1) + p
      decreases |s| - starS, |pat| - p
    {
      TextEnds(pat, p);
      rounds := rounds + 1;
      RoundsFit(back, p, |s|, |pat|);
      if At(pat, p) == '\0' && f.leadingDir && At(s, a) == '/' {
        StandsFound(pat, s, f, p, a, star, starP, starS);
        return 0, rounds;
      }
      if f.period && leading && At(s, a) == '.' && At(pat, p) != '.' {
        LeadRefused(pat, s, f, p, a, star, starP, starS);
        return FNM_NOMATCH, rounds;
      }
      NotRefused(pat, s, f, p, a, star, starS, leading);
      if At(pat, p) == '*' {
        ghost var p0 := p;
        p := SkipStars(pat, p);
        TextEnds(pat, p);
        StandsStar(pat, s, f, p0, a, star, starP, starS, p);
        LeadsStar(pat, s, f, p0, a, star, starS, leading);
        if At(pat, p) == '\0' {
          StandsLast(pat, s, f, a);
          if f.pathname {
            var none := NoSlash(s, a);
            if none { return 0, rounds; }
            return if f.leadingDir then 0 else FNM_NOMATCH, rounds;
          }
          return 0, rounds;
        }
        star, starP, starS, leading := true, p, a, false;
        continue;
      }
      if At(pat, p) != '\0' {
        ghost var p0 := p;
        var hit;
        hit, p := TryElement(pat, p, At(s, a), f);
        if hit {
          StandsHit(pat, s, f, p0, a, star, starP, starS);
          LeadsHit(pat, s, f, a, star, starS);
          EndForward(pat, p0, f);
          leading := f.pathname && At(s, a) == '/';
          a := a + 1;
          TextEnds(s, a);
          continue;
        }
      }
      StandsMiss(pat, s, f, p, a, star, starP, starS);
      LeadsMiss(pat, s, f, p, a, star, starP, starS, leading);
      if !star { return FNM_NOMATCH, rounds; }
      if f.pathname && At(s, starS) == '/' { return FNM_NOMATCH, rounds; }
      if f.period && leading && At(s, starS) == '.' { return FNM_NOMATCH, rounds; }
      OneMoreBack(back, |pat|);
      back := back + 1;
      starS := starS + 1;
      a, p := starS, starP;
      TextEnds(s, a);
    }
    RoundsFit(back, p, |s|, |pat|);
    ghost var p0 := p;
    p := SkipStars(pat, p);
    TextEnds(pat, p);
    StandsEnd(pat, s, f, p0, star, starP, starS, p);
    r := if At(pat, p) != '\0' then FNM_NOMATCH else 0;
  }

  lemma Starts(pat: string, s: string, f: Flags)
    ensures Stands(pat, s, f, 0, 0, false, 0, 0) && Leads(pat, s, f, 0, false, 0, true)
  {
  }

  lemma LeadRefused(pat: string, s: string, f: Flags, p: nat, a: nat, star: bool, starP: nat, starS: nat)
    requires Stands(pat, s, f, p, a, star, starP, starS) && Leads(pat, s, f, a, star, starS, true)
    requires f.period && a < |s| && s[a] == '.' && (p < |pat| ==> pat[p] != '.')
    ensures !Matches(pat, 0, s, 0, f)
  {
    if Matches(pat, 0, s, 0, f) {
      assert !Matches(pat, p, s, a, f);
      StandsForced(pat, s, f, p, a, star, starP, starS);
    }
  }

  lemma NotRefused(pat: string, s: string, f: Flags, p: nat, a: nat, star: bool, starS: nat, leading: bool)
    requires p <= |pat| && a < |s| && Leads(pat, s, f, a, star, starS, leading)
    requires !(f.period && leading && s[a] == '.' && (p < |pat| ==> pat[p] != '.'))
    ensures !Refused(pat, p, s, a, f)
  {
  }

  lemma LeadsStar(pat: string, s: string, f: Flags, p: nat, a: nat, star: bool, starS: nat, leading: bool)
    requires p < |pat| && pat[p] == '*' && a < |s| && !Refused(pat, p, s, a, f)
    ensures Leads(pat, s, f, a, true, a, false)
  {
  }

  lemma LeadsHit(pat: string, s: string, f: Flags, a: nat, star: bool, starS: nat)
    requires a < |s| && starS <= a
    ensures Leads(pat, s, f, a + 1, star, starS, f.pathname && s[a] == '/')
  {
  }

  lemma LeadsMiss(pat: string, s: string, f: Flags, p: nat, a: nat, star: bool, starP: nat, starS: nat, leading: bool)
    requires Stands(pat, s, f, p, a, star, starP, starS) && Leads(pat, s, f, a, star, starS, leading)
    requires !Matches(pat, p, s, a, f) && a < |s| && starS <= a
    ensures leading ==> !Matches(pat, 0, s, 0, f)
    ensures star && !StructuralSlash(s[starS], f) ==> Leads(pat, s, f, starS + 1, true, starS + 1, leading)
  {
    if leading && Matches(pat, 0, s, 0, f) { StandsForced(pat, s, f, p, a, star, starP, starS); }
  }

  lemma EndForward(pat: string, p: nat, f: Flags)
    requires p < |pat|
    ensures p < ElementEnd(pat, p, f) <= |pat|
  {
  }

  lemma StandsLast(pat: string, s: string, f: Flags, a: nat)
    ensures Stands(pat, s, f, |pat|, a, true, |pat|, a) ==>
      (Matches(pat, 0, s, 0, f) <==>
       StarTakes(s, a, |s|, f) || (f.leadingDir && exists b :: a <= b < |s| && s[b] == '/'))
  {
    if Stands(pat, s, f, |pat|, a, true, |pat|, a) { LastStar(pat, s, a, f); }
  }

  lemma StandsEnd(pat: string, s: string, f: Flags, p: nat, star: bool, starP: nat, starS: nat, r: nat)
    requires Stands(pat, s, f, p, |s|, star, starP, starS)
    requires p <= r <= |pat| && (forall i :: p <= i < r ==> pat[i] == '*') && (r < |pat| ==> pat[r] != '*')
    ensures Matches(pat, 0, s, 0, f) <==> r == |pat|
  {
    if star { NothingLeft(pat, starP, s, starS, p, f); }
    OnlyStars(pat, p, r, s, f);
  }

  lemma RoundsFit(back: nat, p: nat, n: nat, m: nat)
    requires back <= n && p <= m
    ensures back * (m + 1) + p + 1 <= (n + 1) * (m + 1)
  {
    assert (n + 1) * (m + 1) == back * (m + 1) + (n + 1 - back) * (m + 1);
    assert (n + 1 - back) * (m + 1) >= m + 1 by { AtLeast(n + 1 - back, m + 1); }
  }

  lemma AtLeast(k: nat, x: nat)
    requires k >= 1
    ensures k * x >= x
  {
    assert k * x == x + (k - 1) * x;
  }

  lemma OneMoreBack(back: nat, m: nat)
    ensures (back + 1) * (m + 1) == back * (m + 1) + m + 1
  {
  }
}
