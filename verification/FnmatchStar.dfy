/** Why remembering one star is enough. */
module FnmatchStar {
  import opened FnmatchPattern

  lemma {:induction false} StepsForward(pat: string, q: nat, s: string, a: nat, p: nat, b: nat, f: Flags)
    requires q <= |pat| && a <= |s| && Steps(pat, q, s, a, p, b, f)
    ensures q <= p <= |pat| && a <= b <= |s|
    decreases |pat| - q
  {
    if q != p { StepsForward(pat, ElementEnd(pat, q, f), s, a + 1, p, b, f); }
  }

  /** One more element. */
  lemma {:induction false} StepsOne(pat: string, q: nat, s: string, a: nat, p: nat, b: nat, f: Flags)
    requires q <= |pat| && a <= |s| && Steps(pat, q, s, a, p, b, f)
    requires p < |pat| && pat[p] != '*' && b < |s| && !Refused(pat, p, s, b, f) && Hit(pat, p, s[b], f)
    ensures Steps(pat, q, s, a, ElementEnd(pat, p, f), b + 1, f)
    decreases |pat| - q
  {
    if q != p {
      StepsForward(pat, ElementEnd(pat, q, f), s, a + 1, p, b, f);
      StepsOne(pat, ElementEnd(pat, q, f), s, a + 1, p, b, f);
    }
  }

  /** Steps are forced: the pattern matches from their start exactly if it matches from their end. */
  lemma {:induction false} StepsMatch(pat: string, q: nat, s: string, a: nat, p: nat, b: nat, f: Flags)
    requires q <= |pat| && a <= |s| && p <= |pat| && b <= |s| && Steps(pat, q, s, a, p, b, f)
    ensures Matches(pat, q, s, a, f) <==> Matches(pat, p, s, b, f)
    decreases |pat| - q
  {
    if q != p { StepsMatch(pat, ElementEnd(pat, q, f), s, a + 1, p, b, f); }
  }

  /** The same elements further on in the string take the same number of characters. */
  lemma {:induction false} StepsShift(pat: string, q: nat, s: string, a: nat, p: nat, b: nat, f: Flags, d: nat)
    requires q <= |pat| && a + d <= |s| && p <= |pat| && b <= |s| && Steps(pat, q, s, a, p, b, f)
             && Matches(pat, q, s, a + d, f)
    ensures b + d <= |s| && Matches(pat, p, s, b + d, f) && Steps(pat, q, s, a + d, p, b + d, f)
    decreases |pat| - q
  {
    if q != p { StepsShift(pat, ElementEnd(pat, q, f), s, a + 1, p, b, f, d); }
  }

  /** If there is no slash between two starts of the same elements, there is none between
      their ends either: a slash that one of them takes is taken by the other d further on. */
  lemma {:induction false} SlashShift(pat: string, q: nat, s: string, a: nat, p: nat, b: nat, f: Flags, d: nat)
    requires q <= |pat| && a + d <= |s| && b + d <= |s| && p <= |pat|
    requires Steps(pat, q, s, a, p, b, f) && Steps(pat, q, s, a + d, p, b + d, f) && StarTakes(s, a, a + d, f)
    ensures StarTakes(s, b, b + d, f)
    decreases |pat| - q
  {
    if q != p {
      var e := ElementEnd(pat, q, f);
      if f.pathname && d > 0 {
        if s[a + d] == '/' { SlashOnly(pat, q, s[a + d], s[a], f); assert false; }
      }
      assert StarTakes(s, a + 1, a + 1 + d, f) by {
        forall i | f.pathname && a + 1 <= i < a + 1 + d ensures s[i] != '/' {}
      }
      StepsShift1(pat, q, s, a, p, b, f, d);
      SlashShift(pat, e, s, a + 1, p, b, f, d);
    }
  }

  lemma StepsShift1(pat: string, q: nat, s: string, a: nat, p: nat, b: nat, f: Flags, d: nat)
    requires q <= |pat| && a + d <= |s| && q != p && Steps(pat, q, s, a + d, p, b + d, f)
    ensures q < |pat| && a + d < |s| && Steps(pat, ElementEnd(pat, q, f), s, a + 1 + d, p, b + d, f)
  {
  }

  /** The newer star does all that the older one could: when elements lead from the old star's
      place (q, a) to a star with p behind it at b, giving the old star more characters finds
      nothing that the new star does not find. */
  lemma NewStarSuffices(pat: string, q: nat, s: string, a: nat, p0: nat, p: nat, b: nat, f: Flags)
    requires q <= |pat| && a <= |s| && p0 <= |pat| && b <= |s| && p <= |pat| && Steps(pat, q, s, a, p0, b, f)
    requires forall c: nat :: b <= c <= |s| && Matches(pat, p0, s, c, f) ==> FromStar(pat, p, s, c, f)
    requires FromStar(pat, p, s, b, f) ==> Matches(pat, p0, s, b, f)
    ensures FromStar(pat, q, s, a, f) <==> FromStar(pat, p, s, b, f)
  {
    StepsMatch(pat, q, s, a, p0, b, f);
    if FromStar(pat, p, s, b, f) {
      assert StarTakes(s, a, a, f) && Matches(pat, q, s, a, f);
    }
    if FromStar(pat, q, s, a, f) {
      var t :| a <= t <= |s| && StarTakes(s, a, t, f) && Matches(pat, q, s, t, f);
      var d := t - a;
      StepsShift(pat, q, s, a, p0, b, f, d);
      SlashShift(pat, q, s, a, p0, b, f, d);
      var u :| b + d <= u <= |s| && StarTakes(s, b + d, u, f) && Matches(pat, p, s, u, f);
      assert StarTakes(s, b, u, f);
    }
  }

  /** Stars in a row are one. */
  lemma {:induction false} StarsAreOne(pat: string, p0: nat, p: nat, s: string, a: nat, f: Flags)
    requires p0 < p <= |pat| && a <= |s| && forall i :: p0 <= i < p ==> pat[i] == '*'
    ensures Matches(pat, p0, s, a, f) <==> !Refused(pat, p0, s, a, f) && FromStar(pat, p, s, a, f)
    decreases p - p0
  {
    assert pat[p0] == '*';
    if Refused(pat, p0, s, a, f) { return; }
    if p0 + 1 < p {
      forall b | a <= b <= |s|
        ensures Matches(pat, p0 + 1, s, b, f) <==> !Refused(pat, p0 + 1, s, b, f) && FromStar(pat, p, s, b, f)
      {
        StarsAreOne(pat, p0 + 1, p, s, b, f);
      }
      if Matches(pat, p0, s, a, f) {
        var b :| a <= b <= |s| && StarTakes(s, a, b, f) && Matches(pat, p0 + 1, s, b, f);
        assert FromStar(pat, p, s, b, f);
        var c :| b <= c <= |s| && StarTakes(s, b, c, f) && Matches(pat, p, s, c, f);
        assert StarTakes(s, a, c, f);
      }
      if FromStar(pat, p, s, a, f) {
        assert pat[p0 + 1] == '*' && StarTakes(s, a, a, f) && Matches(pat, p0 + 1, s, a, f);
      }
    }
  }

  /** A star with nothing behind it takes the rest, if it may. */
  lemma LastStar(pat: string, s: string, a: nat, f: Flags)
    requires a <= |s|
    ensures FromStar(pat, |pat|, s, a, f) <==>
      StarTakes(s, a, |s|, f) || (f.leadingDir && exists b :: a <= b < |s| && s[b] == '/')
  {
    if StarTakes(s, a, |s|, f) { assert Matches(pat, |pat|, s, |s|, f); }
    if f.leadingDir && exists b :: a <= b < |s| && s[b] == '/' {
      var b := FirstSlash(s, a);
      assert StarTakes(s, a, b, f) && Matches(pat, |pat|, s, b, f);
    }
  }

  lemma {:induction false} FirstSlash(s: string, a: nat) returns (b: nat)
    requires a <= |s| && exists b :: a <= b < |s| && s[b] == '/'
    ensures a <= b < |s| && s[b] == '/' && forall i :: a <= i < b ==> s[i] != '/'
    decreases |s| - a
  {
    if s[a] == '/' { b := a; } else { b := FirstSlash(s, a + 1); }
  }

  /** A slash that the elements behind a star end with stands where it does; the star cannot take
      more. */
  lemma {:induction false} SlashInside(pat: string, q: nat, s: string, a: nat, p: nat, b: nat, f: Flags, d: nat)
    requires q <= |pat| && a + d <= |s| && b + d <= |s| && p <= |pat| && d > 0 && a < b && f.pathname
    requires Steps(pat, q, s, a, p, b, f) && Steps(pat, q, s, a + d, p, b + d, f) && StarTakes(s, a, a + d, f)
    ensures s[b - 1] != '/'
    decreases |pat| - q
  {
    var e := ElementEnd(pat, q, f);
    if e != p {
      if s[a + d] == '/' { SlashOnly(pat, q, s[a + d], s[a], f); assert false; }
      assert StarTakes(s, a + 1, a + 1 + d, f) by {
        forall i | f.pathname && a + 1 <= i < a + 1 + d ensures s[i] != '/' {}
      }
      StepsShift1(pat, q, s, a, p, b, f, d);
      StepsForward(pat, ElementEnd(pat, e, f), s, a + 2, p, b, f);
      SlashInside(pat, e, s, a + 1, p, b, f, d);
    }
  }

  /** When the elements behind a star lead up to a slash and no further, the star has no other place. */
  lemma ForcedSlash(pat: string, q: nat, s: string, a: nat, p: nat, b: nat, f: Flags)
    requires q <= |pat| && a <= |s| && p <= |pat| && b <= |s| && Steps(pat, q, s, a, p, b, f)
    requires f.pathname && a < b && s[b - 1] == '/' && !Matches(pat, p, s, b, f)
    ensures !FromStar(pat, q, s, a, f)
  {
    if FromStar(pat, q, s, a, f) {
      var t :| a <= t <= |s| && StarTakes(s, a, t, f) && Matches(pat, q, s, t, f);
      var d := t - a;
      StepsMatch(pat, q, s, a, p, b, f);
      StepsShift(pat, q, s, a, p, b, f, d);
      SlashInside(pat, q, s, a, p, b, f, d);
    }
  }

  /** When the elements behind a star fail, it has to take a character more. */
  lemma GiveMore(pat: string, q: nat, s: string, a: nat, f: Flags)
    requires q <= |pat| && a < |s| && !Matches(pat, q, s, a, f)
    ensures FromStar(pat, q, s, a, f) <==> !StructuralSlash(s[a], f) && FromStar(pat, q, s, a + 1, f)
  {
    if FromStar(pat, q, s, a, f) {
      var b :| a <= b <= |s| && StarTakes(s, a, b, f) && Matches(pat, q, s, b, f);
      assert StarTakes(s, a + 1, b, f);
    }
    if !StructuralSlash(s[a], f) && FromStar(pat, q, s, a + 1, f) {
      var b :| a + 1 <= b <= |s| && StarTakes(s, a + 1, b, f) && Matches(pat, q, s, b, f);
      assert StarTakes(s, a, b, f);
    }
  }

  /** Out of characters, a star cannot help. */
  lemma NothingLeft(pat: string, q: nat, s: string, a: nat, p: nat, f: Flags)
    requires q <= |pat| && a <= |s| && p <= |pat| && Steps(pat, q, s, a, p, |s|, f)
    ensures FromStar(pat, q, s, a, f) <==> Matches(pat, p, s, |s|, f)
  {
    StepsMatch(pat, q, s, a, p, |s|, f);
    if FromStar(pat, q, s, a, f) {
      var b :| a <= b <= |s| && StarTakes(s, a, b, f) && Matches(pat, q, s, b, f);
      StepsShift(pat, q, s, a, p, |s|, f, b - a);
      assert b - a == 0;
    }
    if Matches(pat, p, s, |s|, f) { assert StarTakes(s, a, a, f); }
  }

  /** At the end of the string only stars may be left. */
  lemma {:induction false} OnlyStars(pat: string, p: nat, r: nat, s: string, f: Flags)
    requires p <= r <= |pat| && (forall i :: p <= i < r ==> pat[i] == '*') && (r < |pat| ==> pat[r] != '*')
    ensures Matches(pat, p, s, |s|, f) <==> r == |pat|
    decreases r - p
  {
    if p < r {
      OnlyStars(pat, p + 1, r, s, f);
      assert pat[p] == '*';
      if r == |pat| { assert StarTakes(s, |s|, |s|, f); }
    }
  }
}
