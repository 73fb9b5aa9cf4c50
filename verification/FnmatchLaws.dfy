/** What fnmatch answers to patterns as they are typed. FNM_LEADING_DIR, under which a match may end
    before any slash, has a law of its own; the others are for all other flags. */
module FnmatchLaws {
  import opened FnmatchPattern
  import opened FnmatchGlob

  /** No character of u means anything but itself. */
  predicate Literal(u: string) { forall c :: c in u ==> c != '*' && c != '?' && c != '[' && c != '\\' }

  /** The same text, letter case apart if the flags say so. */
  predicate SameText(u: string, s: string, f: Flags) {
    |u| == |s| && forall i :: 0 <= i < |u| ==> Equal(u[i], s[i], f)
  }

  predicate CrossesSlash(c: char, f: Flags) { f.pathname && c == '/' }

  /** A dot at n that FNM_PERIOD hides: the first character, or under FNM_PATHNAME one behind a slash. */
  predicate DotHides(s: string, n: nat, f: Flags) {
    f.period && n < |s| && s[n] == '.' && (n == 0 || (f.pathname && s[n - 1] == '/'))
  }

  /** s is one character that a wildcard may take. */
  predicate OneChar(s: string, f: Flags) { |s| == 1 && !CrossesSlash(s[0], f) && !DotHides(s, 0, f) }

  // ---------- literal text and stars ----------

  function Chars(u: string): seq<Part> { if u == "" then [] else [Chr(Plain(u[0]))] + Chars(u[1..]) }

  lemma {:induction false} CharsWritten(u: string, f: Flags)
    requires Literal(u)
    ensures Write(Chars(u)) == u && Ok(Chars(u), f)
  {
    if u != "" {
      assert u[0] in u && forall c :: c in u[1..] ==> c in u;
      CharsWritten(u[1..], f);
      assert u == [u[0]] + u[1..];
    }
  }

  lemma {:induction false} WriteJoin(ps: seq<Part>, qs: seq<Part>)
    ensures Write(ps + qs) == Write(ps) + Write(qs)
  {
    if ps == [] {
      assert ps + qs == qs;
    } else {
      assert (ps + qs)[1..] == ps[1..] + qs;
      WriteJoin(ps[1..], qs);
    }
  }

  predicate LeadAfter(s: string, lead: bool, n: nat, f: Flags)
    requires n <= |s|
  {
    if n == 0 then lead else f.pathname && s[n - 1] == '/'
  }

  /** Literal text in front takes just itself. */
  lemma {:induction false} CharsDenote(u: string, qs: seq<Part>, s: string, lead: bool, f: Flags)
    ensures Denotes(Chars(u) + qs, s, lead, f) <==>
      |u| <= |s| && SameText(u, s[..|u|], f) && Denotes(qs, s[|u|..], LeadAfter(s, lead, |u|, f), f)
    decreases |u|
  {
    var ps := Chars(u) + qs;
    if u == "" {
      assert ps == qs && s[0..] == s;
      return;
    }
    assert ps[0] == Chr(Plain(u[0])) && ps[1..] == Chars(u[1..]) + qs;
    if s != "" {
      CharsDenote(u[1..], qs, s[1..], f.pathname && s[0] == '/', f);
      if |u| <= |s| {
        assert s[1..][..|u| - 1] == s[..|u|][1..] && s[1..][|u| - 1..] == s[|u|..];
        assert LeadAfter(s[1..], f.pathname && s[0] == '/', |u| - 1, f) == LeadAfter(s, lead, |u|, f);
        SameTail(u, s[..|u|], f);
      }
    }
  }

  lemma SameTail(u: string, s: string, f: Flags)
    requires |u| == |s| > 0
    ensures SameText(u, s, f) <==> Equal(u[0], s[0], f) && SameText(u[1..], s[1..], f)
  {
    if SameText(u[1..], s[1..], f) {
      forall i | 0 < i < |u| ensures Equal(u[i], s[i], f) <==> Equal(u[1..][i - 1], s[1..][i - 1], f) {}
    }
  }

  lemma PatternIs(pat: string, ps: seq<Part>, s: string, f: Flags)
    requires pat == Write(ps) && Ok(ps, f)
    ensures Matches(pat, 0, s, 0, f) <==> Denotes(ps, s, true, f)
  {
    assert pat[0..|pat|] == pat && s[0..] == s;
    PatternDenotes(pat, 0, ps, s, 0, f);
  }

  /** Literal text matches itself only. */
  lemma TextMatchesItself(u: string, s: string, f: Flags)
    requires Literal(u) && !f.leadingDir
    ensures Matches(u, 0, s, 0, f) <==> SameText(u, s, f)
  {
    CharsWritten(u, f);
    PatternIs(u, Chars(u), s, f);
    assert Chars(u) + [] == Chars(u);
    CharsDenote(u, [], s, true, f);
    if |u| == |s| { assert s[..|u|] == s; }
  }

  /** A star between two texts stands for whatever is between them, without a slash under FNM_PATHNAME
      and without a hidden dot in front under FNM_PERIOD. */
  lemma StarMatchesBetween(u: string, v: string, s: string, f: Flags)
    requires Literal(u) && Literal(v) && !f.leadingDir
    ensures Matches(u + "*" + v, 0, s, 0, f) <==>
      && !DotHides(s, |u|, f) && |u| + |v| <= |s| && SameText(u, s[..|u|], f) && SameText(v, s[|s| - |v|..], f)
      && (f.pathname ==> '/' !in s[|u|..|s| - |v|])
  {
    hide Ok, Denotes, SameText, Write, Matches, Chars, Behind;
    StarParts(u, v, f);
    PatternIs(u + "*" + v, Chars(u) + ([Star] + Chars(v)), s, f);
    CharsDenote(u, [Star] + Chars(v), s, true, f);
    if |u| <= |s| {
      StarDenotesBefore(v, s[|u|..], LeadAfter(s, true, |u|, f), f);
      BehindIs(|u|, v, s, f);
    }
  }

  /** s is something a star may stand for, and v behind it. */
  predicate Behind(v: string, s: string, f: Flags) {
    |v| <= |s| && SameText(v, s[|s| - |v|..], f) && (f.pathname ==> '/' !in s[..|s| - |v|])
  }

  lemma BehindIs(n: nat, v: string, s: string, f: Flags)
    requires n <= |s|
    ensures Behind(v, s[n..], f) <==>
      n + |v| <= |s| && SameText(v, s[|s| - |v|..], f) && (f.pathname ==> '/' !in s[n..|s| - |v|])
  {
    hide SameText;
    if n + |v| <= |s| { Slices(s, n, |s| - |v|); }
  }

  lemma Slices(s: string, a: nat, b: nat)
    requires a <= b <= |s|
    ensures s[a..][b - a..] == s[b..] && s[a..][..b - a] == s[a..b]
  {
  }

  /** The parts that the pattern is written from. */
  lemma StarParts(u: string, v: string, f: Flags)
    requires Literal(u) && Literal(v)
    ensures var ps := Chars(u) + ([Star] + Chars(v)); u + "*" + v == Write(ps) && Ok(ps, f)
  {
    hide Write;
    CharsWritten(u, f);
    CharsWritten(v, f);
    WriteJoin(Chars(u), [Star] + Chars(v));
    WriteJoin([Star], Chars(v));
    StarWritten();
    AllOk(u, v, f);
  }

  lemma StarWritten()
    ensures Write([Star]) == "*"
  {
    assert [Star][1..] == [];
  }

  lemma AllOk(u: string, v: string, f: Flags)
    requires Ok(Chars(u), f) && Ok(Chars(v), f)
    ensures Ok(Chars(u) + ([Star] + Chars(v)), f)
  {
  }

  lemma StarDenotesBefore(v: string, s: string, lead: bool, f: Flags)
    requires !f.leadingDir
    ensures Denotes([Star] + Chars(v), s, lead, f) <==>
      Behind(v, s, f) && !(f.period && lead && s != "" && s[0] == '.')
  {
    var ps := [Star] + Chars(v);
    assert ps[1..] == Chars(v) && Chars(v) + [] == Chars(v);
    forall k | 0 <= k <= |s|
      ensures Denotes(Chars(v), s[k..], lead && k == 0, f) <==> |s| - k == |v| && SameText(v, s[k..], f)
    {
      CharsDenote(v, [], s[k..], lead && k == 0, f);
      if |s| - k == |v| { assert s[k..][..|v|] == s[k..]; }
    }
    if Denotes(ps, s, lead, f) { var k := StarSplit(ps, s, lead, f); }
    if Behind(v, s, f) {
      assert StarDenotes(ps, s, |s| - |v|, lead, f);
    }
  }

  // ---------- one part ----------

  lemma OneDenotes(part: Part, s: string, f: Flags)
    requires !part.Star? && !f.leadingDir
    ensures Denotes([part], s, true, f) <==>
      |s| == 1 && Takes(part, s[0], f) && (part == Chr(Plain('.')) || !DotHides(s, 0, f))
    ensures Write([part]) == WritePart(part) && (PartOk(part, f) ==> Ok([part], f))
  {
    assert [part][1..] == [];
  }

  /** '?' matches every one character, but no slash under FNM_PATHNAME. */
  lemma QuestionMark(s: string, f: Flags)
    requires !f.leadingDir
    ensures Matches("?", 0, s, 0, f) <==> OneChar(s, f)
  {
    OneDenotes(AnyChr, s, f);
    PatternIs("?", [AnyChr], s, f);
  }

  /** A character behind a backslash matches itself, whatever it means elsewhere; but a dot so written
      does not show a hidden one. */
  lemma Escaped(x: char, s: string, f: Flags)
    requires !f.noescape && !f.leadingDir
    ensures Matches(['\\', x], 0, s, 0, f) <==> SameText([x], s, f) && !DotHides(s, 0, f)
  {
    OneDenotes(Chr(Quoted(x)), s, f);
    PatternIs(['\\', x], [Chr(Quoted(x))], s, f);
  }

  /** With FNM_NOESCAPE a backslash is a character like any other. */
  lemma Unquoting(u: string, s: string, f: Flags)
    requires f.noescape && Literal(u) && !f.leadingDir
    ensures Matches("\\" + u, 0, s, 0, f) <==> SameText("\\" + u, s, f)
  {
    var ps := [Chr(Plain('\\'))] + Chars(u);
    CharsWritten(u, f);
    assert ps[1..] == Chars(u) && Write(ps) == "\\" + u;
    PatternIs("\\" + u, ps, s, f);
    assert Chars(u) + [] == Chars(u);
    if s != "" {
      CharsDenote(u, [], s[1..], f.pathname && s[0] == '/', f);
      if |u| + 1 == |s| {
        assert s[1..][..|u|] == s[1..] && ("\\" + u)[1..] == u;
        SameTail("\\" + u, s, f);
      }
    }
  }

  /** A last backslash is one, too. */
  lemma LastBackslash(s: string, f: Flags)
    requires !f.leadingDir
    ensures Matches("\\", 0, s, 0, f) <==> s == "\\"
  {
  }

  // ---------- sets ----------

  /** No character of cs means anything but itself in a set. */
  predicate SetLiteral(cs: string) { forall c :: c in cs ==> c != ']' && c != '-' && c != '\\' && c != '!' && c != '^' }

  function Ones(cs: string): (items: seq<Item>)
    ensures |items| == |cs| && forall i :: 0 <= i < |cs| ==> items[i] == One(Plain(cs[i]))
  {
    if cs == "" then [] else [One(Plain(cs[0]))] + Ones(cs[1..])
  }

  lemma {:induction false} OnesWritten(cs: string, first: bool, f: Flags)
    requires SetLiteral(cs)
    ensures WriteItems(Ones(cs)) == cs && ItemsOk(Ones(cs), first, f)
  {
    if cs != "" {
      assert cs[0] in cs && forall c :: c in cs[1..] ==> c in cs;
      OnesWritten(cs[1..], false, f);
      assert Ones(cs)[1..] == Ones(cs[1..]) && cs == [cs[0]] + cs[1..];
    }
  }

  /** The characters listed, or with '!' or '^' all others; never a slash under FNM_PATHNAME. */
  lemma SetMatchesListed(mark: string, cs: string, s: string, f: Flags)
    requires cs != "" && SetLiteral(cs) && (mark == "" || mark == "!" || mark == "^") && !f.leadingDir
    ensures Matches("[" + mark + cs + "]", 0, s, 0, f) <==>
      && OneChar(s, f)
      && (mark == "" <==> if f.casefold then exists i :: 0 <= i < |cs| && CaseEqual(cs[i], s[0]) else s[0] in cs)
  {
    hide Matches, Denotes, Listed;
    var part := Set(mark, false, Ones(cs));
    ListWritten(mark, cs, f);
    OneDenotes(part, s, f);
    PatternIs("[" + mark + cs + "]", [part], s, f);
    if |s| == 1 { ListedOnes(cs, s[0], f); }
  }

  lemma ListWritten(mark: string, cs: string, f: Flags)
    requires cs != "" && SetLiteral(cs) && (mark == "" || mark == "!" || mark == "^")
    ensures "[" + mark + cs + "]" == WritePart(Set(mark, false, Ones(cs))) && PartOk(Set(mark, false, Ones(cs)), f)
  {
    hide WriteItems, ItemsOk;
    OnesWritten(cs, true, f);
    assert cs[0] in cs;
    Bracketed(mark, "", cs);
  }

  lemma Bracketed(mark: string, close: string, cs: string)
    ensures "[" + mark + close + cs + "]" == "[" + (mark + (close + (cs + "]")))
    ensures close == "" ==> "[" + mark + cs + "]" == "[" + (mark + (close + (cs + "]")))
  {
    assert "" + (cs + "]") == cs + "]";
  }

  lemma ListedOnes(cs: string, c: char, f: Flags)
    ensures Listed(false, Ones(cs), c, f) <==>
      if f.casefold then exists i :: 0 <= i < |cs| && CaseEqual(cs[i], c) else c in cs
  {
    forall i | 0 <= i < |cs| ensures Holds(Ones(cs)[i], c, f) <==> Equal(cs[i], c, f) {}
    if f.casefold && exists i :: 0 <= i < |cs| && CaseEqual(cs[i], c) {
      var i :| 0 <= i < |cs| && CaseEqual(cs[i], c);
      assert Holds(Ones(cs)[i], c, f);
    }
    if !f.casefold && c in cs {
      var i :| 0 <= i < |cs| && cs[i] == c;
      assert Holds(Ones(cs)[i], c, f);
    }
  }

  /** A ']' first is a character of the set. */
  lemma BracketFirst(mark: string, cs: string, s: string, f: Flags)
    requires SetLiteral(cs) && (mark == "" || mark == "!" || mark == "^") && !f.casefold && !f.leadingDir
    ensures Matches("[" + mark + "]" + cs + "]", 0, s, 0, f) <==>
      OneChar(s, f) && (mark == "" <==> s[0] == ']' || s[0] in cs)
  {
    hide Matches, Denotes;
    var part := Set(mark, true, Ones(cs));
    CloseWritten(mark, cs, f);
    OneDenotes(part, s, f);
    PatternIs("[" + mark + "]" + cs + "]", [part], s, f);
    if |s| == 1 {
      ListedOnes(cs, s[0], f);
      assert Listed(true, Ones(cs), s[0], f) <==> s[0] == ']' || Listed(false, Ones(cs), s[0], f);
    }
  }

  lemma CloseWritten(mark: string, cs: string, f: Flags)
    requires SetLiteral(cs) && (mark == "" || mark == "!" || mark == "^")
    ensures "[" + mark + "]" + cs + "]" == WritePart(Set(mark, true, Ones(cs))) && PartOk(Set(mark, true, Ones(cs)), f)
  {
    hide WriteItems, ItemsOk;
    OnesWritten(cs, true, f);
    Bracketed(mark, "]", cs);
  }

  predicate RangeEnds(lo: char, hi: char) {
    lo != ']' && lo != '-' && lo != '\\' && lo != '!' && lo != '^' && hi != ']' && hi != '\\'
  }

  /** A range holds what lies between its ends. */
  lemma RangeMatchesBetween(lo: char, hi: char, s: string, f: Flags)
    requires RangeEnds(lo, hi) && !f.leadingDir
    ensures Matches("[" + [lo] + "-" + [hi] + "]", 0, s, 0, f) <==>
      OneChar(s, f) && Between(lo, s[0], hi, f)
    ensures !f.casefold ==> forall c :: Between(lo, c, hi, f) <==> lo <= c <= hi
  {
    hide Matches, Denotes;
    var it := Span(Plain(lo), Plain(hi));
    var part := Set("", false, [it]);
    SpanWritten(lo, hi, f);
    OneDenotes(part, s, f);
    PatternIs("[" + [lo] + "-" + [hi] + "]", [part], s, f);
    if |s| == 1 {
      assert [it][0] == it;
      assert Listed(false, [it], s[0], f) <==> Holds(it, s[0], f);
    }
  }

  lemma SpanWritten(lo: char, hi: char, f: Flags)
    requires RangeEnds(lo, hi)
    ensures var part := Set("", false, [Span(Plain(lo), Plain(hi))]);
      "[" + [lo] + "-" + [hi] + "]" == WritePart(part) && PartOk(part, f)
  {
    var it := Span(Plain(lo), Plain(hi));
    assert [it][1..] == [] && WriteItem(it) == [lo] + ("-" + [hi]);
    assert WriteItems([it]) == [lo] + ("-" + [hi]) && WriteItems([it])[0] == lo;
    assert ItemOk(it, true, f);
  }

  // ---------- a '[' that nothing closes ----------

  lemma {:induction false} NeverClosed(pat: string, p: nat, f: Flags)
    requires p <= |pat| && forall i :: p <= i < |pat| ==> pat[i] != ']'
    ensures Items(pat, p, f).1 == |pat|
    decreases |pat| - p
  {
    if p < |pat| {
      var q := Unescaped(pat, p, f);
      NeverClosed(pat, if IsRange(pat, q) then Unescaped(pat, q + 2, f) + 1 else q + 1, f);
    }
  }

  /** A '[' without a ']' is a character like any other. */
  lemma OpenBracket(u: string, s: string, f: Flags)
    requires Literal(u) && ']' !in u && !f.leadingDir
    ensures Matches("[" + u, 0, s, 0, f) <==> SameText("[" + u, s, f)
  {
    var pat := "[" + u;
    assert pat[1..|pat|] == u;
    forall i | 1 <= i < |pat| ensures pat[i] != ']' { assert pat[i] in u; }
    NeverClosed(pat, SetStart(pat, 0), f);
    if s != "" {
      FoldsAgree('[', s[0], f);
      CharsWritten(u, f);
      PatternDenotes(pat, 1, Chars(u), s, 1, f);
      assert Chars(u) + [] == Chars(u);
      CharsDenote(u, [], s[1..], f.pathname && s[0] == '/', f);
      if |u| + 1 == |s| {
        assert s[1..][..|u|] == s[1..] && pat[1..] == u;
        SameTail(pat, s, f);
      }
    }
  }
}
