/** FNM_LEADING_DIR and FNM_PERIOD: what they add to a match and take from it. */
module FnmatchFlags {
  import opened FnmatchPattern

  // ---------- elements read the same ----------

  /** Flags that read a pattern alike. */
  predicate SameReading(f: Flags, g: Flags) {
    f.pathname == g.pathname && f.noescape == g.noescape && f.casefold == g.casefold
  }

  lemma {:induction false} ItemsSame(pat: string, p: nat, f: Flags, g: Flags)
    requires p <= |pat| && SameReading(f, g)
    ensures Items(pat, p, f) == Items(pat, p, g)
    decreases |pat| - p
  {
    if p < |pat| {
      var q := Unescaped(pat, p, f);
      ItemsSame(pat, if IsRange(pat, q) then Unescaped(pat, q + 2, f) + 1 else q + 1, f, g);
    }
  }

  lemma InAnySame(rs: seq<Range>, c: char, f: Flags, g: Flags)
    requires SameReading(f, g)
    ensures InAny(rs, c, f) <==> InAny(rs, c, g)
  {
    forall r ensures InRange(r, c, f) <==> InRange(r, c, g) {}
  }

  lemma ElementSame(pat: string, p: nat, c: char, f: Flags, g: Flags)
    requires p < |pat| && SameReading(f, g)
    ensures ElementEnd(pat, p, f) == ElementEnd(pat, p, g) && (Hit(pat, p, c, f) <==> Hit(pat, p, c, g))
  {
    hide Items, InAny, Lower;
    var q := SetStart(pat, p);
    ItemsSame(pat, q, f, g);
    if q < |pat| { ItemsSame(pat, q + 1, f, g); }
    InAnySame(SetItems(pat, p, f).0, c, f, g);
  }

  // ---------- FNM_LEADING_DIR ----------

  /** The string ends at k, or k stands before a slash. */
  predicate DirEnds(s: string, k: nat) { k == |s| || (k < |s| && s[k] == '/') }

  ghost predicate MatchesTo(pat: string, p: nat, s: string, a: nat, k: nat, f: Flags)
    requires p <= |pat| && a <= k <= |s|
  {
    DirEnds(s, k) && Matches(pat, p, s[..k], a, f.(leadingDir := false))
  }

  lemma PlaceSame(pat: string, p: nat, s: string, a: nat, k: nat, f: Flags)
    requires p <= |pat| && a <= k <= |s| && DirEnds(s, k)
    ensures Refused(pat, p, s[..k], a, f.(leadingDir := false)) <==> Refused(pat, p, s, a, f)
  {
  }

  /** Under FNM_LEADING_DIR a pattern matches exactly if it matches some leading directory of the
      string, or all of it, without that flag. */
  lemma {:induction false} LeadingDir(pat: string, p: nat, s: string, a: nat, f: Flags)
    requires p <= |pat| && a <= |s| && f.leadingDir
    ensures Matches(pat, p, s, a, f) <==> exists k :: a <= k <= |s| && MatchesTo(pat, p, s, a, k, f)
    decreases |pat| - p
  {
    hide Hit, ElementEnd, Refused;
    if Matches(pat, p, s, a, f) {
      var k := DirFound(pat, p, s, a, f);
    }
    if exists k :: a <= k <= |s| && MatchesTo(pat, p, s, a, k, f) {
      var k :| a <= k <= |s| && MatchesTo(pat, p, s, a, k, f);
      DirMatches(pat, p, s, a, k, f);
    }
  }

  lemma {:induction false} DirFound(pat: string, p: nat, s: string, a: nat, f: Flags) returns (k: nat)
    requires p <= |pat| && a <= |s| && f.leadingDir && Matches(pat, p, s, a, f)
    ensures a <= k <= |s| && MatchesTo(pat, p, s, a, k, f)
    decreases |pat| - p
  {
    hide Hit, ElementEnd, Refused;
    var g := f.(leadingDir := false);
    if p == |pat| {
      k := a;
    } else if pat[p] == '*' {
      var b :| a <= b <= |s| && StarTakes(s, a, b, f) && Matches(pat, p + 1, s, b, f);
      k := DirFound(pat, p + 1, s, b, f);
      assert StarTakes(s[..k], a, b, g) && Matches(pat, p + 1, s[..k], b, g);
    } else {
      ElementSame(pat, p, s[a], f, g);
      k := DirFound(pat, ElementEnd(pat, p, f), s, a + 1, f);
    }
    PlaceSame(pat, p, s, a, k, f);
  }

  lemma {:induction false} DirMatches(pat: string, p: nat, s: string, a: nat, k: nat, f: Flags)
    requires p <= |pat| && a <= k <= |s| && f.leadingDir && MatchesTo(pat, p, s, a, k, f)
    ensures Matches(pat, p, s, a, f)
    decreases |pat| - p
  {
    hide Hit, ElementEnd, Refused;
    var g := f.(leadingDir := false);
    PlaceSame(pat, p, s, a, k, f);
    if p == |pat| { return; }
    if pat[p] == '*' {
      var b :| a <= b <= k && StarTakes(s[..k], a, b, g) && Matches(pat, p + 1, s[..k], b, g);
      DirMatches(pat, p + 1, s, b, k, f);
      assert StarTakes(s, a, b, f) && Matches(pat, p + 1, s, b, f);
    } else {
      ElementSame(pat, p, s[a], f, g);
      DirMatches(pat, ElementEnd(pat, p, f), s, a + 1, k, f);
    }
  }

  // ---------- FNM_PERIOD ----------

  /** No segment of the string from a on starts with a dot. */
  predicate NoDotFiles(s: string, a: nat, f: Flags)
    requires a <= |s|
  {
    forall i :: a <= i < |s| && s[i] == '.' ==> !Lead(s, i, f)
  }

  /** Without hidden names FNM_PERIOD changes nothing. */
  lemma {:induction false} NothingHidden(pat: string, p: nat, s: string, a: nat, f: Flags)
    requires p <= |pat| && a <= |s| && f.period && NoDotFiles(s, a, f)
    ensures Matches(pat, p, s, a, f) <==> Matches(pat, p, s, a, f.(period := false))
    decreases |pat| - p
  {
    hide Hit, ElementEnd, Lead;
    var g := f.(period := false);
    if p == |pat| { return; }
    if pat[p] == '*' {
      forall b | a <= b <= |s| ensures StarTakes(s, a, b, f) && Matches(pat, p + 1, s, b, f) <==>
                                       StarTakes(s, a, b, g) && Matches(pat, p + 1, s, b, g) {
        NothingHidden(pat, p + 1, s, b, f);
      }
      if Matches(pat, p, s, a, f) {
        var b :| a <= b <= |s| && StarTakes(s, a, b, f) && Matches(pat, p + 1, s, b, f);
        assert StarTakes(s, a, b, g) && Matches(pat, p + 1, s, b, g);
      }
      if Matches(pat, p, s, a, g) {
        var b :| a <= b <= |s| && StarTakes(s, a, b, g) && Matches(pat, p + 1, s, b, g);
        assert StarTakes(s, a, b, f) && Matches(pat, p + 1, s, b, f);
      }
    } else if a < |s| {
      ElementSame(pat, p, s[a], f, g);
      NothingHidden(pat, ElementEnd(pat, p, f), s, a + 1, f);
    }
  }

  /** A hidden name is only found by a pattern that starts with a dot. */
  lemma HiddenName(pat: string, s: string, f: Flags)
    requires f.period && s != "" && s[0] == '.' && Matches(pat, 0, s, 0, f)
    ensures pat != "" && pat[0] == '.'
  {
  }

  /** The dot has to stand there by itself: behind a backslash it matches a dot without FNM_PERIOD
      and not with it. */
  lemma EscapedDot(f: Flags)
    requires !f.noescape
    ensures Matches("\\.", 0, ".", 0, f) <==> !f.period
  {
  }
}
