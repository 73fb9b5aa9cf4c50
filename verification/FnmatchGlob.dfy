/** What patterns match, said of their parts and not of how the matcher reads them: literal
    characters, '?', '*' and sets, each written as a pattern writes it. */
module FnmatchGlob {
  import opened FnmatchPattern

  /** A character as it stands in a pattern: by itself or behind a backslash. */
  datatype Sign = Plain(c: char) | Quoted(c: char)

  datatype Item = One(k: Sign) | Span(lo: Sign, hi: Sign)

  /** A set is written '[', then mark, which is "", "!" or "^", then a ']' if close, the items and ']'. */
  datatype Part = Chr(k: Sign) | AnyChr | Star | Set(mark: string, close: bool, items: seq<Item>)

  // ---------- writing ----------

  function WriteSign(k: Sign): (s: string)
    ensures s != ""
  {
    match k
    case Plain(c) => [c]
    case Quoted(c) => ['\\', c]
  }

  function WriteItem(it: Item): (s: string)
    ensures s != ""
  {
    match it
    case One(k) => WriteSign(k)
    case Span(lo, hi) => WriteSign(lo) + ("-" + WriteSign(hi))
  }

  function WriteItems(items: seq<Item>): string {
    if items == [] then "" else WriteItem(items[0]) + WriteItems(items[1..])
  }

  function WriteClose(close: bool): string { if close then "]" else "" }

  function WritePart(p: Part): (s: string)
    ensures s != ""
  {
    match p
    case Chr(k) => WriteSign(k)
    case AnyChr => "?"
    case Star => "*"
    case Set(mark, close, items) => "[" + (mark + (WriteClose(close) + (WriteItems(items) + "]")))
  }

  function Write(ps: seq<Part>): string { if ps == [] then "" else WritePart(ps[0]) + Write(ps[1..]) }

  /** A backslash quotes only without FNM_NOESCAPE, and stands for itself only with it. */
  predicate SignOk(k: Sign, f: Flags) {
    match k
    case Plain(c) => c == '\\' ==> f.noescape
    case Quoted(_) => !f.noescape
  }

  /** A '-' by itself is written first or last in a set. */
  predicate ItemOk(it: Item, end: bool, f: Flags) {
    match it
    case One(k) => SignOk(k, f) && k != Plain(']') && (k == Plain('-') ==> end)
    case Span(lo, hi) => SignOk(lo, f) && SignOk(hi, f) && lo != Plain(']') && lo != Plain('-') && hi != Plain(']')
  }

  predicate ItemsOk(items: seq<Item>, first: bool, f: Flags) {
    items == [] || (ItemOk(items[0], first || |items| == 1, f) && ItemsOk(items[1..], false, f))
  }

  predicate StartsNegated(s: string) { s != "" && (s[0] == '!' || s[0] == '^') }

  predicate PartOk(p: Part, f: Flags) {
    match p
    case Chr(k) => SignOk(k, f) && k != Plain('*') && k != Plain('?') && k != Plain('[')
    case AnyChr => true
    case Star => true
    case Set(mark, close, items) =>
      && (mark == "" || mark == "!" || mark == "^") && ItemsOk(items, true, f) && (close || items != [])
      && (mark == "" && !close ==> !StartsNegated(WriteItems(items)))
  }

  predicate Ok(ps: seq<Part>, f: Flags) { forall p :: p in ps ==> PartOk(p, f) }

  // ---------- meaning ----------

  /** The same letter in either case. */
  predicate CaseEqual(a: char, b: char) {
    || a == b
    || ('A' <= a <= 'Z' && b as int - a as int == 'a' as int - 'A' as int)
    || ('A' <= b <= 'Z' && a as int - b as int == 'a' as int - 'A' as int)
  }

  predicate Equal(a: char, b: char, f: Flags) { a == b || (f.casefold && CaseEqual(a, b)) }

  /** With FNM_CASEFOLD a range holds what it holds as written, and what it holds in lower case. */
  predicate Between(lo: char, c: char, hi: char, f: Flags) {
    lo <= c <= hi || (f.casefold && Lower(lo) <= Lower(c) <= Lower(hi))
  }

  predicate Holds(it: Item, c: char, f: Flags) {
    match it
    case One(k) => Equal(k.c, c, f)
    case Span(lo, hi) => Between(lo.c, c, hi.c, f)
  }

  ghost predicate Listed(close: bool, items: seq<Item>, c: char, f: Flags) {
    (close && c == ']') || exists i :: 0 <= i < |items| && Holds(items[i], c, f)
  }

  ghost predicate Takes(p: Part, c: char, f: Flags)
    requires !p.Star?
  {
    match p
    case Chr(k) => Equal(k.c, c, f)
    case AnyChr => !(f.pathname && c == '/')
    case Set(mark, close, items) =>
      !(f.pathname && c == '/') && if mark == "" then Listed(close, items, c, f) else !Listed(close, items, c, f)
  }

  /** Under FNM_PERIOD a dot that starts a segment is only met by a dot that stands in the pattern by
      itself. */
  predicate HiddenDot(ps: seq<Part>, s: string, lead: bool, f: Flags) {
    f.period && lead && s != "" && s[0] == '.' && (ps == [] || ps[0] != Chr(Plain('.')))
  }

  /** The parts match s, which starts a segment if lead. */
  ghost predicate Denotes(ps: seq<Part>, s: string, lead: bool, f: Flags)
    decreases |ps|
  {
    if HiddenDot(ps, s, lead, f) then false
    else if ps == [] then s == "" || (f.leadingDir && s[0] == '/')
    else if ps[0].Star? then exists k :: 0 <= k <= |s| && StarDenotes(ps, s, k, lead, f)
    else s != "" && Takes(ps[0], s[0], f) && Denotes(ps[1..], s[1..], f.pathname && s[0] == '/', f)
  }

  ghost predicate StarDenotes(ps: seq<Part>, s: string, k: nat, lead: bool, f: Flags)
    requires ps != [] && k <= |s|
    decreases |ps|, 0
  {
    (f.pathname ==> '/' !in s[..k]) && Denotes(ps[1..], s[k..], lead && k == 0, f)
  }

  // ---------- the matcher reads what was written ----------

  lemma FoldsAgree(a: char, b: char, f: Flags)
    ensures Same(a, b, f) <==> Equal(a, b, f)
  {
  }

  /** w stands in pat at p. */
  predicate Here(pat: string, p: nat, w: string) { p + |w| <= |pat| && pat[p..p + |w|] == w }

  lemma HereParts(pat: string, p: nat, u: string, v: string)
    requires Here(pat, p, u + v)
    ensures Here(pat, p, u) && Here(pat, p + |u|, v)
    ensures u != "" ==> pat[p] == u[0]
    ensures |u| > 1 ==> pat[p + 1] == u[1]
  {
    assert pat[p..p + |u|] == (u + v)[..|u|] == u;
    assert pat[p + |u|..p + |u| + |v|] == (u + v)[|u|..] == v;
    if u != "" { assert pat[p..p + |u|][0] == pat[p]; }
    if |u| > 1 { assert pat[p..p + |u|][1] == pat[p + 1]; }
  }

  lemma SignHere(pat: string, p: nat, k: Sign, f: Flags)
    requires Here(pat, p, WriteSign(k)) && SignOk(k, f)
    ensures p < |pat| && Unescaped(pat, p, f) + 1 == p + |WriteSign(k)| && pat[Unescaped(pat, p, f)] == k.c
    ensures pat[p] == WriteSign(k)[0]
  {
    assert pat[p..p + |WriteSign(k)|][0] == pat[p];
    if k.Quoted? { assert pat[p..p + 2][1] == pat[p + 1]; }
  }

  function RangeOf(it: Item): Range {
    match it
    case One(k) => Range(k.c, k.c)
    case Span(lo, hi) => Range(lo.c, hi.c)
  }

  function RangesOf(items: seq<Item>): (rs: seq<Range>)
    ensures |rs| == |items| && forall i :: 0 <= i < |rs| ==> rs[i] == RangeOf(items[i])
  {
    if items == [] then [] else [RangeOf(items[0])] + RangesOf(items[1..])
  }

  /** What comes behind an item is a '-' only if that is the last one. */
  lemma NextItem(pat: string, p: nat, items: seq<Item>, f: Flags)
    requires Here(pat, p, WriteItems(items) + "]") && ItemsOk(items, false, f)
    ensures p < |pat| && (pat[p] == '-' ==> p + 1 < |pat| && pat[p + 1] == ']')
  {
    HereParts(pat, p, WriteItems(items), "]");
    if items != [] {
      HereParts(pat, p, WriteItem(items[0]), WriteItems(items[1..]));
      if pat[p] == '-' {
        assert items[1..] == [];
        assert WriteItems(items) == "-";
      }
    }
  }

  lemma OneRead(pat: string, p: nat, k: Sign, f: Flags)
    requires Here(pat, p, WriteSign(k)) && SignOk(k, f) && k != Plain(']')
    requires var q := p + |WriteSign(k)|; q < |pat| && (pat[q] == '-' ==> q + 1 < |pat| && pat[q + 1] == ']')
    ensures p < |pat| && pat[p] != ']'
    ensures var q := Unescaped(pat, p, f); !IsRange(pat, q) && q + 1 == p + |WriteSign(k)| && pat[q] == k.c
  {
    SignHere(pat, p, k, f);
  }

  lemma SpanRead(pat: string, p: nat, lo: Sign, hi: Sign, f: Flags)
    requires Here(pat, p, WriteItem(Span(lo, hi))) && SignOk(lo, f) && SignOk(hi, f)
    requires lo != Plain(']') && hi != Plain(']')
    ensures p < |pat| && pat[p] != ']'
    ensures var q := Unescaped(pat, p, f);
      && IsRange(pat, q) && pat[q] == lo.c && pat[Unescaped(pat, q + 2, f)] == hi.c
      && Unescaped(pat, q + 2, f) + 1 == p + |WriteItem(Span(lo, hi))|
  {
    HereParts(pat, p, WriteSign(lo), "-" + WriteSign(hi));
    HereParts(pat, p + |WriteSign(lo)|, "-", WriteSign(hi));
    SignHere(pat, p, lo, f);
    SignHere(pat, p + |WriteSign(lo)| + 1, hi, f);
  }

  lemma {:induction false} ItemsRead(pat: string, p: nat, items: seq<Item>, first: bool, f: Flags)
    requires Here(pat, p, WriteItems(items) + "]") && ItemsOk(items, first, f)
    ensures Items(pat, p, f) == (RangesOf(items), p + |WriteItems(items)|) && p + |WriteItems(items)| < |pat|
    decreases |items|
  {
    hide Unescaped, IsRange, Here, WriteItem, SignOk;
    ItemsFit(pat, p, items);
    if items == [] { return; }
    var w := WriteItem(items[0]);
    ItemsRead(pat, p + |w|, items[1..], false, f);
    NextItem(pat, p + |w|, items[1..], f);
    match items[0]
    case One(k) =>
      WriteOne(k);
      OneRead(pat, p, k, f);
    case Span(lo, hi) =>
      SpanRead(pat, p, lo, hi, f);
  }

  lemma WriteOne(k: Sign)
    ensures WriteItem(One(k)) == WriteSign(k)
  {
  }

  lemma {:induction false} ItemsFit(pat: string, p: nat, items: seq<Item>)
    requires Here(pat, p, WriteItems(items) + "]")
    ensures p + |WriteItems(items)| < |pat| && pat[p + |WriteItems(items)|] == ']'
    ensures items != [] ==>
      Here(pat, p, WriteItem(items[0])) && Here(pat, p + |WriteItem(items[0])|, WriteItems(items[1..]) + "]")
  {
    hide WriteItem, WriteItems, Here;
    HereParts(pat, p, WriteItems(items), "]");
    if items != [] {
      FirstWritten(items);
      HereParts(pat, p, WriteItem(items[0]), WriteItems(items[1..]) + "]");
    }
  }

  lemma FirstWritten(items: seq<Item>)
    requires items != []
    ensures WriteItems(items) + "]" == WriteItem(items[0]) + (WriteItems(items[1..]) + "]")
  {
  }

  /** The stretches a set is made of. */
  lemma SetHere(pat: string, p: nat, mark: string, close: bool, items: seq<Item>)
    requires Here(pat, p, WritePart(Set(mark, close, items)))
    ensures var q := p + 1 + |mark|;
      && p < |pat| && pat[p] == '[' && Here(pat, p + 1, mark) && Here(pat, q, WriteClose(close))
      && Here(pat, q + |WriteClose(close)|, WriteItems(items) + "]")
      && q + |WriteClose(close)| + |WriteItems(items)| + 1 == p + |WritePart(Set(mark, close, items))|
  {
    hide Here, WriteClose, WriteItems;
    var c, w := WriteClose(close), WriteItems(items) + "]";
    HereParts(pat, p, "[", mark + (c + w));
    HereParts(pat, p + 1, mark, c + w);
    HereParts(pat, p + 1 + |mark|, c, w);
  }

  /** The first item of a set does not look like its end. */
  lemma FirstItem(pat: string, p: nat, items: seq<Item>, f: Flags)
    requires Here(pat, p, WriteItems(items) + "]") && ItemsOk(items, true, f) && items != []
    ensures p < |pat| && pat[p] != ']' && WriteItems(items) != "" && pat[p] == WriteItems(items)[0]
  {
    HereParts(pat, p, WriteItems(items), "]");
    HereParts(pat, p, WriteItem(items[0]), WriteItems(items[1..]));
  }

  lemma NegatedRead(pat: string, p: nat, mark: string, close: bool, items: seq<Item>, f: Flags)
    requires Here(pat, p, WritePart(Set(mark, close, items))) && PartOk(Set(mark, close, items), f)
    ensures p < |pat| && SetStart(pat, p) == p + 1 + |mark| && (Negated(pat, p) <==> mark != "")
    ensures close <==> pat[p + 1 + |mark|] == ']'
  {
    hide WriteItems, ItemsOk;
    SetHere(pat, p, mark, close, items);
    if mark != "" { assert pat[p + 1..p + 2][0] == pat[p + 1]; }
    if close {
      assert pat[p + 1 + |mark|..p + 2 + |mark|][0] == pat[p + 1 + |mark|];
    } else {
      FirstItem(pat, p + 1 + |mark|, items, f);
    }
  }

  lemma SetRead(pat: string, p: nat, mark: string, close: bool, items: seq<Item>, f: Flags)
    requires Here(pat, p, WritePart(Set(mark, close, items))) && PartOk(Set(mark, close, items), f)
    ensures p < |pat| && pat[p] == '[' && Closed(pat, p, f) && (Negated(pat, p) <==> mark != "")
    ensures ElementEnd(pat, p, f) == p + |WritePart(Set(mark, close, items))|
    ensures SetItems(pat, p, f).0 == Front(close) + RangesOf(items)
  {
    hide Here, WriteItems, ItemsOk, Items, RangesOf, SetStart, Negated;
    SetHere(pat, p, mark, close, items);
    NegatedRead(pat, p, mark, close, items, f);
    ItemsRead(pat, p + 1 + |mark| + |WriteClose(close)|, items, true, f);
  }

  lemma RangeHolds(it: Item, c: char, f: Flags)
    ensures InRange(RangeOf(it), c, f) <==> Holds(it, c, f)
  {
  }

  function Front(close: bool): seq<Range> { if close then [Range(']', ']')] else [] }

  lemma {:induction false} ListedInAny(close: bool, items: seq<Item>, c: char, f: Flags)
    ensures InAny(Front(close) + RangesOf(items), c, f) <==> Listed(close, items, c, f)
  {
    hide RangesOf, InAny, Listed;
    if InAny(Front(close) + RangesOf(items), c, f) { InAnyIsListed(close, items, c, f); }
    if Listed(close, items, c, f) { ListedIsInAny(close, items, c, f); }
  }

  lemma {:induction false} InAnyIsListed(close: bool, items: seq<Item>, c: char, f: Flags)
    requires InAny(Front(close) + RangesOf(items), c, f)
    ensures Listed(close, items, c, f)
  {
    hide Holds, InRange, RangesOf, RangeOf;
    var rs, n := Front(close) + RangesOf(items), |Front(close)|;
    var r :| r in rs && InRange(r, c, f);
    var i :| 0 <= i < |rs| && rs[i] == r;
    if i >= n {
      RangeHolds(items[i - n], c, f);
    } else {
      ClosesItself(c, f);
    }
  }

  lemma {:induction false} ListedIsInAny(close: bool, items: seq<Item>, c: char, f: Flags)
    requires Listed(close, items, c, f)
    ensures InAny(Front(close) + RangesOf(items), c, f)
  {
    hide Holds, InRange, RangesOf, RangeOf;
    var rs, n := Front(close) + RangesOf(items), |Front(close)|;
    if close && c == ']' {
      ClosesItself(c, f);
      assert rs[0] in rs;
    } else {
      var i :| 0 <= i < |items| && Holds(items[i], c, f);
      RangeHolds(items[i], c, f);
      assert rs[n + i] in rs;
    }
  }

  lemma ClosesItself(c: char, f: Flags)
    ensures InRange(Range(']', ']'), c, f) <==> c == ']'
  {
  }

  /** A part takes the characters it is said to take, and the pattern goes on behind it. */
  lemma PartRead(pat: string, p: nat, part: Part, c: char, f: Flags)
    requires Here(pat, p, WritePart(part)) && PartOk(part, f) && !part.Star?
    ensures p < |pat| && pat[p] != '*' && ElementEnd(pat, p, f) == p + |WritePart(part)|
    ensures Hit(pat, p, c, f) <==> Takes(part, c, f)
  {
    hide SetItems, Listed, InAny, Equal, Same, Closed;
    match part
    case Chr(k) =>
      SignHere(pat, p, k, f);
      FoldsAgree(k.c, c, f);
    case AnyChr =>
      assert pat[p..p + 1][0] == pat[p];
    case Set(mark, close, items) =>
      SetRead(pat, p, mark, close, items, f);
      ListedInAny(close, items, c, f);
  }

  lemma StarRead(pat: string, p: nat)
    requires Here(pat, p, WritePart(Star))
    ensures p < |pat| && pat[p] == '*'
  {
    assert pat[p..p + 1][0] == pat[p];
  }

  lemma PartsHere(pat: string, p: nat, ps: seq<Part>)
    requires Here(pat, p, Write(ps)) && ps != []
    ensures Here(pat, p, WritePart(ps[0])) && Here(pat, p + |WritePart(ps[0])|, Write(ps[1..]))
    ensures |Write(ps)| == |WritePart(ps[0])| + |Write(ps[1..])|
  {
    hide WritePart;
    HereParts(pat, p, WritePart(ps[0]), Write(ps[1..]));
  }

  /** A pattern written from parts matches exactly the strings that the parts denote. */
  lemma {:induction false} PatternDenotes(pat: string, p: nat, ps: seq<Part>, s: string, a: nat, f: Flags)
    requires Here(pat, p, Write(ps)) && p + |Write(ps)| == |pat| && Ok(ps, f) && a <= |s|
    ensures Matches(pat, p, s, a, f) <==> Denotes(ps, s[a..], Lead(s, a, f), f)
    decreases |ps|
  {
    hide Here, WritePart, PartOk, Hit, Takes, ElementEnd, Refused, HiddenDot;
    DotRead(pat, p, ps, s, a, f);
    if Refused(pat, p, s, a, f) || ps == [] { return; }
    PartsHere(pat, p, ps);
    var q := p + |WritePart(ps[0])|;
    assert ps[0] in ps && forall x :: x in ps[1..] ==> x in ps;
    if ps[0].Star? {
      StarRead(pat, p);
      StarPart(pat, p, ps, s, a, f);
    } else {
      if a < |s| {
        PartRead(pat, p, ps[0], s[a], f);
        PatternDenotes(pat, q, ps[1..], s, a + 1, f);
        assert s[a..][1..] == s[a + 1..] && Lead(s, a + 1, f) == (f.pathname && s[a] == '/');
      } else {
        PartRead(pat, p, ps[0], '/', f);
      }
    }
  }

  lemma {:induction false} StarPart(pat: string, p: nat, ps: seq<Part>, s: string, a: nat, f: Flags)
    requires Here(pat, p, Write(ps)) && p + |Write(ps)| == |pat| && Ok(ps, f) && a <= |s|
    requires ps != [] && ps[0] == Star && p < |pat| && pat[p] == '*'
    requires !Refused(pat, p, s, a, f) && !HiddenDot(ps, s[a..], Lead(s, a, f), f)
    ensures Matches(pat, p, s, a, f) <==> Denotes(ps, s[a..], Lead(s, a, f), f)
    decreases |ps|, 0
  {
    hide Here, PartOk, Hit, ElementEnd, Refused, HiddenDot, Lead;
    PartsHere(pat, p, ps);
    assert forall x :: x in ps[1..] ==> x in ps;
    var lead := Lead(s, a, f);
    forall b | a <= b <= |s|
      ensures StarTakes(s, a, b, f) && Matches(pat, p + 1, s, b, f) <==> StarDenotes(ps, s[a..], b - a, lead, f)
    {
      PatternDenotes(pat, p + 1, ps[1..], s, b, f);
      assert s[a..][b - a..] == s[b..] && s[a..][..b - a] == s[a..b];
      NoSlashBetween(s, a, b);
      if StarTakes(s, a, b, f) { StarLeads(s, a, b, f); }
    }
    if Denotes(ps, s[a..], lead, f) {
      var k := StarSplit(ps, s[a..], lead, f);
      assert StarTakes(s, a, a + k, f) && Matches(pat, p + 1, s, a + k, f);
    }
    if Matches(pat, p, s, a, f) {
      var b :| a <= b <= |s| && StarTakes(s, a, b, f) && Matches(pat, p + 1, s, b, f);
      assert StarDenotes(ps, s[a..], b - a, lead, f);
    }
  }

  /** Behind what a star takes no segment starts. */
  lemma StarLeads(s: string, a: nat, b: nat, f: Flags)
    requires StarTakes(s, a, b, f)
    ensures Lead(s, b, f) == (Lead(s, a, f) && b == a)
  {
  }

  /** A dot in the pattern by itself is one of the parts. */
  lemma DotRead(pat: string, p: nat, ps: seq<Part>, s: string, a: nat, f: Flags)
    requires Here(pat, p, Write(ps)) && p + |Write(ps)| == |pat| && Ok(ps, f) && a <= |s|
    ensures Refused(pat, p, s, a, f) <==> HiddenDot(ps, s[a..], Lead(s, a, f), f)
  {
    hide Ok;
    if ps != [] {
      PartsHere(pat, p, ps);
      FirstOf(pat, p, ps[0]);
    }
  }

  lemma FirstOf(pat: string, p: nat, part: Part)
    requires Here(pat, p, WritePart(part))
    ensures p < |pat| && (pat[p] == '.' <==> part == Chr(Plain('.')))
  {
    var w := WritePart(part);
    assert pat[p] == pat[p..p + |w|][0] == w[0];
  }

  lemma StarSplit(ps: seq<Part>, s: string, lead: bool, f: Flags) returns (k: nat)
    requires ps != [] && ps[0] == Star && Denotes(ps, s, lead, f)
    ensures k <= |s| && StarDenotes(ps, s, k, lead, f)
  {
    k :| 0 <= k <= |s| && StarDenotes(ps, s, k, lead, f);
  }

  lemma NoSlashBetween(s: string, a: nat, b: nat)
    requires a <= b <= |s|
    ensures '/' !in s[a..b] <==> forall i :: a <= i < b ==> s[i] != '/'
  {
    forall i | a <= i < b && s[i] == '/' ensures '/' in s[a..b] { assert s[a..b][i - a] == '/'; }
  }
}
