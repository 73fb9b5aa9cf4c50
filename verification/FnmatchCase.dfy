/** FNM_CASEFOLD: how far a pattern and its other case match the same. */
module FnmatchCase {
  import opened FnmatchPattern
  import opened FnmatchGlob
  import opened FnmatchLaws

  /** The same text, letter case apart. */
  predicate Alike(u: string, v: string) { |u| == |v| && forall i :: 0 <= i < |u| ==> CaseEqual(u[i], v[i]) }

  predicate Letter(c: char) { 'A' <= c <= 'Z' || 'a' <= c <= 'z' }

  lemma LowersAgree(a: char, b: char)
    ensures CaseEqual(a, b) <==> Lower(a) == Lower(b)
  {
  }

  /** Only letters have another case. */
  lemma AlikeAt(u: string, v: string, i: nat)
    requires Alike(u, v) && i < |u|
    ensures !Letter(u[i]) || !Letter(v[i]) ==> u[i] == v[i]
    ensures Lower(u[i]) == Lower(v[i])
  {
    assert CaseEqual(u[i], v[i]);
  }

  lemma UnescapedAlike(u: string, v: string, p: nat, f: Flags)
    requires Alike(u, v) && p < |u|
    ensures Unescaped(u, p, f) == Unescaped(v, p, f)
  {
    AlikeAt(u, v, p);
  }

  ghost predicate RangesAlike(rs: seq<Range>, ts: seq<Range>) {
    |rs| == |ts| && forall i :: 0 <= i < |rs| ==>
      rs[i].lo == rs[i].hi && ts[i].lo == ts[i].hi && Lower(rs[i].lo) == Lower(ts[i].lo)
  }

  lemma {:induction false} ItemsAlike(u: string, v: string, p: nat, f: Flags)
    requires Alike(u, v) && '-' !in u && p <= |u|
    ensures Items(u, p, f).1 == Items(v, p, f).1 && RangesAlike(Items(u, p, f).0, Items(v, p, f).0)
    decreases |u| - p
  {
    if p < |u| {
      AlikeAt(u, v, p);
      UnescapedAlike(u, v, p, f);
      var q := Unescaped(u, p, f);
      NoDash(u, v, q);
      AlikeAt(u, v, q);
      ItemsAlike(u, v, q + 1, f);
    }
  }

  lemma NoDash(u: string, v: string, q: nat)
    requires Alike(u, v) && '-' !in u && q < |u|
    ensures !IsRange(u, q) && !IsRange(v, q)
  {
    if q + 1 < |u| {
      assert u[q + 1] in u;
      AlikeAt(u, v, q + 1);
    }
  }

  lemma SetItemsAlike(u: string, v: string, p: nat, f: Flags)
    requires Alike(u, v) && '-' !in u && p < |u|
    ensures SetItems(u, p, f).1 == SetItems(v, p, f).1 && RangesAlike(SetItems(u, p, f).0, SetItems(v, p, f).0)
    ensures Negated(u, p) == Negated(v, p) && Closed(u, p, f) == Closed(v, p, f)
  {
    hide Items, RangesAlike;
    if p + 1 < |u| { AlikeAt(u, v, p + 1); }
    var q := SetStart(u, p);
    if q < |u| { AlikeAt(u, v, q); }
    if q < |u| && u[q] == ']' {
      ItemsAlike(u, v, q + 1, f);
      MoreAlike(Range(']', ']'), Items(u, q + 1, f).0, Items(v, q + 1, f).0);
    } else {
      ItemsAlike(u, v, q, f);
    }
  }

  lemma MoreAlike(r: Range, rs: seq<Range>, ts: seq<Range>)
    requires RangesAlike(rs, ts) && r.lo == r.hi
    ensures RangesAlike([r] + rs, [r] + ts)
  {
  }

  lemma InAnyAlike(rs: seq<Range>, ts: seq<Range>, c: char, d: char, f: Flags)
    requires RangesAlike(rs, ts) && Lower(c) == Lower(d) && f.casefold && InAny(rs, c, f)
    ensures InAny(ts, d, f)
  {
    var r :| r in rs && InRange(r, c, f);
    var i :| 0 <= i < |rs| && rs[i] == r;
    assert InRange(ts[i], d, f);
  }

  lemma HitAlike(u: string, v: string, p: nat, c: char, d: char, f: Flags)
    requires Alike(u, v) && '-' !in u && p < |u| && CaseEqual(c, d) && f.casefold
    ensures ElementEnd(u, p, f) == ElementEnd(v, p, f) && (Hit(u, p, c, f) <==> Hit(v, p, d, f))
  {
    hide SetItems, InAny, Lower, Closed, Unescaped, Negated;
    AlikeAt(u, v, p);
    LowersAgree(c, d);
    UnescapedAlike(u, v, p, f);
    AlikeAt(u, v, Unescaped(u, p, f));
    if u[p] == '[' {
      SetItemsAlike(u, v, p, f);
      var rs, ts := SetItems(u, p, f).0, SetItems(v, p, f).0;
      if InAny(rs, c, f) { InAnyAlike(rs, ts, c, d, f); }
      if InAny(ts, d, f) { InAnyAlike(ts, rs, d, c, f); }
    }
  }

  /** Without ranges, patterns that differ only in case match strings that differ only in case alike. */
  lemma {:induction false} CaseBlind(u: string, v: string, p: nat, s: string, t: string, a: nat, f: Flags)
    requires Alike(u, v) && '-' !in u && p <= |u| && Alike(s, t) && a <= |s| && f.casefold
    ensures Matches(u, p, s, a, f) <==> Matches(v, p, t, a, f)
    decreases |u| - p
  {
    hide Hit, ElementEnd, CaseEqual, Refused, MayEnd;
    PlacesAlike(u, v, p, s, t, a, f);
    if p == |u| { return; }
    AlikeAt(u, v, p);
    if u[p] == '*' {
      forall b | a <= b <= |s| ensures StarTakes(s, a, b, f) && Matches(u, p + 1, s, b, f) <==>
                                       StarTakes(t, a, b, f) && Matches(v, p + 1, t, b, f) {
        CaseBlind(u, v, p + 1, s, t, b, f);
        StarAlike(s, t, a, b, f);
      }
      if Matches(u, p, s, a, f) {
        var b :| a <= b <= |s| && StarTakes(s, a, b, f) && Matches(u, p + 1, s, b, f);
        assert StarTakes(t, a, b, f) && Matches(v, p + 1, t, b, f);
      }
      if Matches(v, p, t, a, f) {
        var b :| a <= b <= |t| && StarTakes(t, a, b, f) && Matches(v, p + 1, t, b, f);
        assert StarTakes(s, a, b, f) && Matches(u, p + 1, s, b, f);
      }
    } else if a < |s| {
      HitAlike(u, v, p, s[a], t[a], f);
      CaseBlind(u, v, ElementEnd(u, p, f), s, t, a + 1, f);
    }
  }

  lemma PlacesAlike(u: string, v: string, p: nat, s: string, t: string, a: nat, f: Flags)
    requires Alike(u, v) && p <= |u| && Alike(s, t) && a <= |s|
    ensures Refused(u, p, s, a, f) <==> Refused(v, p, t, a, f)
    ensures MayEnd(s, a, f) <==> MayEnd(t, a, f)
  {
    if p < |u| { AlikeAt(u, v, p); }
    if a < |s| { AlikeAt(s, t, a); }
    if a > 0 { AlikeAt(s, t, a - 1); }
  }

  lemma StarAlike(s: string, t: string, a: nat, b: nat, f: Flags)
    requires Alike(s, t) && a <= b <= |s|
    ensures StarTakes(s, a, b, f) <==> StarTakes(t, a, b, f)
  {
    forall i | a <= i < b ensures s[i] == '/' <==> t[i] == '/' { AlikeAt(s, t, i); }
  }

  // ---------- ranges ----------

  /** As written the range holds a character that it does not hold in lower case. */
  predicate Spread(lo: char, hi: char) {
    ('A' <= lo <= 'Z' && '[' <= hi) || (lo <= 'Z' && '[' <= hi < 'z')
  }

  lemma SpreadShows(lo: char, hi: char)
    ensures Spread(lo, hi) <==> exists c :: lo <= c <= hi && !(Lower(lo) <= Lower(c) <= Lower(hi))
  {
    if 'A' <= lo <= 'Z' && '[' <= hi {
      assert lo <= '[' <= hi && Lower('[') < Lower(lo);
    } else if Spread(lo, hi) {
      assert lo <= 'Z' <= hi && Lower('Z') > Lower(hi);
    }
  }

  /** A range and the same range in other case match the same exactly if they are the same as
      written, or neither holds more as written than in lower case. */
  lemma RangeCase(lo: char, hi: char, lo': char, hi': char, f: Flags)
    requires RangeEnds(lo, hi) && RangeEnds(lo', hi') && CaseEqual(lo, lo') && CaseEqual(hi, hi')
    requires f.casefold && !f.leadingDir
    ensures (forall s :: Matches("[" + [lo] + "-" + [hi] + "]", 0, s, 0, f) <==>
                         Matches("[" + [lo'] + "-" + [hi'] + "]", 0, s, 0, f)) <==>
            (lo == lo' && hi == hi') || (!Spread(lo, hi) && !Spread(lo', hi'))
  {
    hide Matches, RangeEnds;
    var u, v := "[" + [lo] + "-" + [hi] + "]", "[" + [lo'] + "-" + [hi'] + "]";
    forall s ensures Matches(u, 0, s, 0, f) <==> OneChar(s, f) && Between(lo, s[0], hi, f) {
      RangeMatchesBetween(lo, hi, s, f);
    }
    forall s ensures Matches(v, 0, s, 0, f) <==> OneChar(s, f) && Between(lo', s[0], hi', f) {
      RangeMatchesBetween(lo', hi', s, f);
    }
    if (lo == lo' && hi == hi') || (!Spread(lo, hi) && !Spread(lo', hi')) {
      forall c ensures Between(lo, c, hi, f) <==> Between(lo', c, hi', f) { Unspread(lo, hi, lo', hi', c, f); }
    } else if Spread(lo, hi) {
      var c := SpreadDiffers(lo, hi, lo', hi', f);
      assert Matches(u, 0, [c], 0, f) && !Matches(v, 0, [c], 0, f);
    } else {
      var c := SpreadDiffers(lo', hi', lo, hi, f);
      assert Matches(v, 0, [c], 0, f) && !Matches(u, 0, [c], 0, f);
    }
  }

  lemma Unspread(lo: char, hi: char, lo': char, hi': char, c: char, f: Flags)
    requires CaseEqual(lo, lo') && CaseEqual(hi, hi') && f.casefold
    requires (lo == lo' && hi == hi') || (!Spread(lo, hi) && !Spread(lo', hi'))
    ensures Between(lo, c, hi, f) <==> Between(lo', c, hi', f)
  {
    hide Spread;
    SpreadShows(lo, hi);
    SpreadShows(lo', hi');
    LowersAgree(lo, lo');
    LowersAgree(hi, hi');
  }

  lemma SpreadDiffers(lo: char, hi: char, lo': char, hi': char, f: Flags) returns (c: char)
    requires CaseEqual(lo, lo') && CaseEqual(hi, hi') && f.casefold && Spread(lo, hi) && !(lo == lo' && hi == hi')
    ensures Between(lo, c, hi, f) && !Between(lo', c, hi', f) && OneChar([c], f)
  {
    SpreadShows(lo', hi');
    c := if 'A' <= lo <= 'Z' && '[' <= hi then '[' else 'Z';
  }

  /** "[Z-a]" finds '_' and "[z-a]", the same in other case, does not. */
  lemma CaseMatters(f: Flags)
    requires f.casefold && !f.leadingDir
    ensures Matches("[Z-a]", 0, "_", 0, f) && !Matches("[z-a]", 0, "_", 0, f)
  {
    RangeMatchesBetween('Z', 'a', "_", f);
    RangeMatchesBetween('z', 'a', "_", f);
    assert "[" + ['Z'] + "-" + ['a'] + "]" == "[Z-a]" && "[" + ['z'] + "-" + ['a'] + "]" == "[z-a]";
  }
}
