/** parse_bracket: a bracket expression as a union of ranges that share one position; a
    negated one becomes the ranges between the listed ones. */
module RegexBracket {
  import opened RegexSyntax
  import opened RegexAst
  import opened RegexCopy
  import P = RegexPositions
  import S = Sorting

  const TRE_CHAR_MAX := 0x10FFFF
  const NEWLINE := 10
  const MAX_LITERALS := 32768

  /** HasClass is no error: a "[:" begins a term, and character classes are not modelled. */
  datatype Code = REG_OK | REG_ECOLLATE | REG_EBRACK | REG_ERANGE | REG_ESPACE | HasClass

  datatype Literals = Range(lo: int, hi: int)

  predicate WellFormed(r: Literals) { 0 <= r.lo <= r.hi <= TRE_CHAR_MAX }

  ghost predicate Covers(ls: seq<Literals>, c: int) { exists r :: r in ls && r.lo <= c <= r.hi }

  // ---------- the terms of a list ----------

  const BANG := 94 // '^'
  const DASH := 45
  const OPEN := 91
  const CLOSE := 93
  const DOT := 46
  const EQUALS := 61
  const COLON := 58

  /** A pattern: bytes other than the terminating one. */
  predicate Text(s: seq<int>) { forall c :: c in s ==> 0 < c < 256 }

  function At(s: seq<int>, i: int): int
    requires 0 <= i <= |s|
  {
    if i < |s| then s[i] else 0
  }

  datatype List = List(ranges: seq<Literals>, end: int) | Bad(code: Code)

  /** A '-' at i that neither starts nor ends the list. */
  predicate StrayDash(s: seq<int>, i: int)
    requires 0 <= i < |s|
  {
    s[i] == DASH && At(s, i + 1) != CLOSE && (At(s, i + 1) != DASH || At(s, i + 2) == CLOSE)
  }

  predicate IsRange(s: seq<int>, i: int)
    requires 0 <= i < |s|
  {
    At(s, i + 1) == DASH && At(s, i + 2) != CLOSE
  }

  function Prepend(r: Literals, l: List): List { if l.Bad? then l else List([r] + l.ranges, l.end) }

  /** What the list that starts at start says from i on. */
  function Terms(s: seq<int>, i: int, start: int): List
    requires 0 <= start <= i <= |s|
    decreases |s| - i
  {
    if i == |s| then Bad(REG_EBRACK)
    else if s[i] == CLOSE && i != start then List([], i + 1)
    else if i != start && StrayDash(s, i) then Bad(REG_ERANGE)
    else if s[i] == OPEN && (At(s, i + 1) == DOT || At(s, i + 1) == EQUALS) then Bad(REG_ECOLLATE)
    else if s[i] == OPEN && At(s, i + 1) == COLON then Bad(HasClass)
    else if IsRange(s, i) then
      (if i + 2 == |s| || s[i] > s[i + 2] then Bad(REG_ERANGE)
       else Prepend(Range(s[i], s[i + 2]), Terms(s, i + 3, start)))
    else Prepend(Range(s[i], s[i]), Terms(s, i + 1, start))
  }

  lemma {:induction false} TermsAreRanges(s: seq<int>, i: int, start: int)
    requires 0 <= start <= i <= |s| && Text(s)
    ensures var l := Terms(s, i, start); l.List? ==>
      i < l.end <= |s| && |l.ranges| < |s| && forall r :: r in l.ranges ==> 0 < r.lo <= r.hi < 256
    ensures var l := Terms(s, i, start); l.List? ==> |l.ranges| + i < l.end
    decreases |s| - i
  {
    if i < |s| {
      assert s[i] in s;
      if i + 2 < |s| { assert s[i + 2] in s; }
      if IsRange(s, i) && i + 3 <= |s| { TermsAreRanges(s, i + 3, start); }
      TermsAreRanges(s, i + 1, start);
    }
  }

  /** parse_bracket_terms, from the first character behind the '[' or "[^". */
  method ParseTerms(s: seq<int>, start: int) returns (err: Code, ls: seq<Literals>, end: int)
    requires Text(s) && 0 <= start <= |s|
    ensures err == REG_ESPACE ==> |s| - start > MAX_LITERALS
    ensures err != REG_ESPACE ==> Terms(s, start, start) == if err == REG_OK then List(ls, end) else Bad(err)
  {
    var i := start;
    ls, end := [], start;
    while true
      invariant start <= i <= |s| && |ls| <= MAX_LITERALS && |ls| <= i - start
      invariant Terms(s, start, start) == AppendTo(ls, Terms(s, i, start))
      decreases |s| - i
    {
      if i == |s| { return REG_EBRACK, ls, end; }
      AppendNone(ls, i + 1);
      if s[i] == CLOSE && i != start { return REG_OK, ls, i + 1; }
      if s[i] == DASH && i != start && At(s, i + 1) != CLOSE && (At(s, i + 1) != DASH || At(s, i + 2) == CLOSE) {
        return REG_ERANGE, ls, end;
      }
      if s[i] == OPEN && (At(s, i + 1) == DOT || At(s, i + 1) == EQUALS) { return REG_ECOLLATE, ls, end; }
      if s[i] == OPEN && At(s, i + 1) == COLON { return HasClass, ls, end; }
      var min, max, next := s[i], s[i], i + 1;
      if At(s, i + 1) == DASH && At(s, i + 2) != CLOSE {
        if i + 2 == |s| { return REG_ERANGE, ls, end; }
        max := s[i + 2];
        if min > max { return REG_ERANGE, ls, end; }
        next := i + 3;
      }
      if |ls| >= MAX_LITERALS { return REG_ESPACE, ls, end; }
      AppendOne(ls, Range(min, max), Terms(s, next, start));
      ls := ls + [Range(min, max)];
      i := next;
    }
  }

  function AppendTo(ls: seq<Literals>, l: List): List { if l.Bad? then l else List(ls + l.ranges, l.end) }

  lemma AppendOne(ls: seq<Literals>, r: Literals, l: List)
    ensures AppendTo(ls, Prepend(r, l)) == AppendTo(ls + [r], l)
  {
    if l.List? { assert ls + ([r] + l.ranges) == ls + [r] + l.ranges; }
  }

  lemma AppendNone(ls: seq<Literals>, end: int)
    ensures AppendTo(ls, List([], end)) == List(ls, end)
  {
  }

  // ---------- the terms as a grammar ----------

  /** s[i..j] is one term of the list that starts at start, and writes r: two characters around
      a '-', or one that no such pair begins with. Only the first term may begin with ']', and a
      '-' stands first, last or at the lower end of a range. */
  predicate TermIs(s: seq<int>, start: int, i: int, j: int, r: Literals) {
    && 0 <= i < j <= |s| && (j == i + 1 || j == i + 3) && r == Range(s[i], s[j - 1]) && r.lo <= r.hi
    && (j == i + 3 <==> At(s, i + 1) == DASH && At(s, i + 2) != CLOSE)
    && (s[i] == CLOSE ==> i == start)
    && (s[i] == DASH ==> i == start || j == i + 3 || At(s, i + 1) == CLOSE)
    && (s[i] == OPEN ==> At(s, i + 1) != DOT && At(s, i + 1) != EQUALS && At(s, i + 1) != COLON)
  }

  /** The terms of s between the cuts write ls. */
  ghost predicate Cut(s: seq<int>, start: int, cuts: seq<int>, ls: seq<Literals>) {
    && |cuts| == |ls| + 1 && 0 <= cuts[0]
    && forall k :: 0 <= k < |ls| ==> TermIs(s, start, cuts[k], cuts[k + 1], ls[k])
  }

  /** From i up to end, s is a run of terms that write ls, and a ']'. */
  ghost predicate ListIs(s: seq<int>, start: int, i: int, ls: seq<Literals>, end: int) {
    exists cuts :: Cut(s, start, cuts, ls) && cuts[0] == i && ClosesAt(s, start, cuts[|ls|], end)
  }

  predicate ClosesAt(s: seq<int>, start: int, i: int, end: int) {
    0 <= start < i < |s| && s[i] == CLOSE && end == i + 1
  }

  /** What at i keeps s from going on with a term or a ']'. */
  predicate Offends(s: seq<int>, start: int, i: int, code: Code) {
    && 0 <= i <= |s|
    && match code
       case REG_EBRACK => i == |s|
       case REG_ECOLLATE => i < |s| && s[i] == OPEN && (At(s, i + 1) == DOT || At(s, i + 1) == EQUALS)
       case HasClass => i < |s| && s[i] == OPEN && At(s, i + 1) == COLON
       case REG_ERANGE =>
         && i < |s| && (s[i] == CLOSE ==> i == start)
         && if IsRange(s, i) then i + 2 == |s| || s[i] > s[i + 2]
             else s[i] == DASH && i != start && At(s, i + 1) != CLOSE
       case _ => false
  }

  /** From i on, s is a run of terms up to something that is no term. */
  ghost predicate Stuck(s: seq<int>, start: int, i: int, code: Code) {
    exists cuts, ls :: Cut(s, start, cuts, ls) && cuts[0] == i && Offends(s, start, cuts[|ls|], code)
  }

  lemma CutMore(s: seq<int>, start: int, i: int, r: Literals, cuts: seq<int>, ls: seq<Literals>)
    requires Cut(s, start, cuts, ls) && TermIs(s, start, i, cuts[0], r)
    ensures Cut(s, start, [i] + cuts, [r] + ls) && ([i] + cuts)[|ls| + 1] == cuts[|ls|]
  {
    var cuts', ls' := [i] + cuts, [r] + ls;
    forall k | 0 <= k < |ls'| ensures TermIs(s, start, cuts'[k], cuts'[k + 1], ls'[k]) {
      if k > 0 { assert cuts'[k] == cuts[k - 1] && cuts'[k + 1] == cuts[k] && ls'[k] == ls[k - 1]; }
    }
  }

  lemma {:induction false} TermsAreCut(s: seq<int>, start: int, i: int)
    requires 0 <= start <= i <= |s|
    ensures match Terms(s, i, start)
            case List(ls, end) => ListIs(s, start, i, ls, end)
            case Bad(code) => Stuck(s, start, i, code)
    decreases |s| - i
  {
    assert Cut(s, start, [i], []);
    var l := Terms(s, i, start);
    if l == List([], i + 1) {
      assert [i][|l.ranges|] == i;
      return;
    }
    if l.Bad? && Offends(s, start, i, l.code) {
      var none: seq<Literals> := [];
      assert [i][|none|] == i;
      return;
    }
    var j := if IsRange(s, i) then i + 3 else i + 1;
    var r := Range(s[i], s[j - 1]);
    assert TermIs(s, start, i, j, r);
    TermsAreCut(s, start, j);
    if l.Bad? {
      var cuts, ls :| Cut(s, start, cuts, ls) && cuts[0] == j && Offends(s, start, cuts[|ls|], l.code);
      CutMore(s, start, i, r, cuts, ls);
    } else {
      var ls := Terms(s, j, start).ranges;
      var cuts :| Cut(s, start, cuts, ls) && cuts[0] == j && ClosesAt(s, start, cuts[|ls|], l.end);
      CutMore(s, start, i, r, cuts, ls);
    }
  }

  lemma {:induction false} CutIsTerms(s: seq<int>, start: int, cuts: seq<int>, ls: seq<Literals>)
    requires 0 <= start && Cut(s, start, cuts, ls) && start <= cuts[0] <= |s|
    ensures start <= cuts[|ls|] <= |s| && Terms(s, cuts[0], start) == AppendTo(ls, Terms(s, cuts[|ls|], start))
    decreases |ls|
  {
    if ls == [] {
      var l := Terms(s, cuts[0], start);
      if l.List? { assert [] + l.ranges == l.ranges; }
    } else {
      assert TermIs(s, start, cuts[0], cuts[1], ls[0]);
      forall k | 0 <= k < |ls[1..]| ensures TermIs(s, start, cuts[1..][k], cuts[1..][k + 1], ls[1..][k]) {
        assert TermIs(s, start, cuts[k + 1], cuts[k + 2], ls[k + 1]);
      }
      CutIsTerms(s, start, cuts[1..], ls[1..]);
      PrependAppend(ls, Terms(s, cuts[|ls|], start));
    }
  }

  lemma PrependAppend(ls: seq<Literals>, l: List)
    requires ls != []
    ensures AppendTo(ls, l) == Prepend(ls[0], AppendTo(ls[1..], l))
  {
    if l.List? { assert ls + l.ranges == [ls[0]] + (ls[1..] + l.ranges); }
  }

  /** A list is read exactly if it can be cut into terms up to a ']', and it is refused with a
      code exactly if it can be cut into terms up to what the code stands for. */
  lemma TermsAreGrammar(s: seq<int>, start: int, ls: seq<Literals>, end: int, code: Code)
    requires 0 <= start <= |s|
    ensures Terms(s, start, start) == List(ls, end) <==> ListIs(s, start, start, ls, end)
    ensures Terms(s, start, start) == Bad(code) <==> Stuck(s, start, start, code)
  {
    TermsAreCut(s, start, start);
    if ListIs(s, start, start, ls, end) {
      var cuts :| Cut(s, start, cuts, ls) && cuts[0] == start && ClosesAt(s, start, cuts[|ls|], end);
      CutIsTerms(s, start, cuts, ls);
      AppendNone(ls, end);
    }
    if Stuck(s, start, start, code) {
      var cuts, ls' :| Cut(s, start, cuts, ls') && cuts[0] == start && Offends(s, start, cuts[|ls'|], code);
      CutIsTerms(s, start, cuts, ls');
    }
  }

  // ---------- the ranges between ----------

  function CompareLit(a: Literals, b: Literals): int { a.lo - b.lo }

  ghost predicate Ascending(ls: seq<Literals>) { forall i, j :: 0 <= i < j < |ls| ==> ls[i].lo <= ls[j].lo }

  ghost predicate Apart(out: seq<Literals>) { forall i, j :: 0 <= i < j < |out| ==> out[i].hi < out[j].lo }

  /** With the first i ranges seen, out is what they leave below negmin, and nothing seen
      reaches negmin. */
  ghost predicate Gaps(ls: seq<Literals>, i: int, out: seq<Literals>, negmin: int) {
    && 0 <= i <= |ls| && 0 <= negmin
    && (forall c :: 0 <= c < negmin ==> (Covers(out, c) <==> !Covers(ls, c)))
    && (forall c :: negmin <= c ==> !Covers(ls[..i], c))
    && Apart(out) && forall r :: r in out ==> 0 <= r.lo <= r.hi < negmin
  }

  lemma CoversMore(ls: seq<Literals>, r: Literals, c: int)
    ensures Covers(ls + [r], c) <==> Covers(ls, c) || r.lo <= c <= r.hi
  {
    assert forall x :: x in ls + [r] <==> x in ls || x == r;
  }

  lemma CoversUpTo(ls: seq<Literals>, i: int, c: int)
    requires Ascending(ls) && 0 <= i < |ls| && !Covers(ls[..i], c) && c < ls[i].lo
    ensures !Covers(ls, c)
  {
    forall k | 0 <= k < |ls| ensures !(ls[k].lo <= c <= ls[k].hi) {
      if k < i { assert ls[..i][k] in ls[..i]; }
    }
  }

  /** The next range starts where something seen ended, or before. */
  lemma GapOverlap(ls: seq<Literals>, i: int, out: seq<Literals>, negmin: int)
    requires i < |ls| && Gaps(ls, i, out, negmin) && ls[i].lo <= negmin
    ensures Gaps(ls, i + 1, out, if ls[i].hi + 1 > negmin then ls[i].hi + 1 else negmin)
  {
    var next := if ls[i].hi + 1 > negmin then ls[i].hi + 1 else negmin;
    assert ls[..i + 1] == ls[..i] + [ls[i]];
    forall c | negmin <= c < next ensures Covers(ls, c) && !Covers(out, c) { assert ls[i] in ls; }
    var seen := ls[..i + 1];
    forall c | next <= c ensures !Covers(seen, c) { CoversMore(ls[..i], ls[i], c); }
  }

  /** The next range leaves a gap before it. */
  lemma GapBefore(ls: seq<Literals>, i: int, out: seq<Literals>, negmin: int)
    requires i < |ls| && Gaps(ls, i, out, negmin) && negmin < ls[i].lo <= ls[i].hi && Ascending(ls)
    ensures Gaps(ls, i + 1, out + [Range(negmin, ls[i].lo - 1)], ls[i].hi + 1)
  {
    var gap, next := Range(negmin, ls[i].lo - 1), ls[i].hi + 1;
    assert ls[..i + 1] == ls[..i] + [ls[i]];
    forall c | 0 <= c < next ensures Covers(out + [gap], c) <==> !Covers(ls, c) {
      CoversMore(out, gap, c);
      if negmin <= c < ls[i].lo { CoversUpTo(ls, i, c); }
      if ls[i].lo <= c { assert ls[i] in ls; }
    }
    var seen := ls[..i + 1];
    forall c | next <= c ensures !Covers(seen, c) { CoversMore(ls[..i], ls[i], c); }
    forall j, k | 0 <= j < k < |out| + 1 ensures (out + [gap])[j].hi < (out + [gap])[k].lo {
      if k == |out| { assert out[j] in out; }
    }
  }

  // ---------- the union ----------

  ghost function UnionOf(out: seq<Literals>, pos: int): Re {
    if out == [] then Eps
    else if |out| == 1 then Lit(out[0].lo, out[0].hi, pos)
    else Alt(UnionOf(out[..|out| - 1], pos), Lit(out[|out| - 1].lo, out[|out| - 1].hi, pos))
  }

  lemma {:induction false} UnionIsSet(out: seq<Literals>, pos: int, w: seq<int>)
    requires out != []
    ensures Matches(UnionOf(out, pos), w) <==> |w| == 1 && Covers(out, w[0])
    ensures P.Bracket(UnionOf(out, pos), pos)
  {
    var init, r := out[..|out| - 1], out[|out| - 1];
    assert out == init + [r];
    if |out| > 1 { UnionIsSet(init, pos, w); }
    if |w| == 1 { CoversMore(init, r, w[0]); }
  }

  /** The nodes for out, if there are any. */
  ghost predicate Built(h: Heap, base: int, node: Ptr, out: seq<Literals>, pos: int) {
    && base <= |h|
    && if out == [] then node == NULL else
       var t := UnionOf(out, pos); Tree(h, node, t) && Unshared(h, node, t) && Within(Foot(h, node, t), base, |h|)
  }

  lemma NothingYet(h: Heap, base: int, out: seq<Literals>, pos: int)
    requires Built(h, base, NULL, out, pos)
    ensures out == []
  {
  }

  /** One more literal, and with anything before it a union node. */
  method AddLiteral(arena: Arena, node: Ptr, r: Literals, pos: int, ghost base: int,
                    ghost out: seq<Literals>) returns (u: Ptr)
    requires 0 <= base && Built(arena.nodes, base, node, out, pos) && 0 <= r.lo
    modifies arena
    ensures Built(arena.nodes, base, u, out + [r], pos) && old(arena.nodes) <= arena.nodes
  {
    ghost var h := arena.nodes;
    var n := arena.New(Literal(r.lo, r.hi, pos));
    if node == NULL {
      NothingYet(h, base, out, pos);
      return n;
    }
    u := arena.New(Union(node, n));
    UnionBuilt(h, arena.nodes, base, node, out, r, pos);
  }

  lemma UnionBuilt(h: Heap, k: Heap, base: int, node: Ptr, out: seq<Literals>, r: Literals, pos: int)
    requires 0 <= base && out != [] && Built(h, base, node, out, pos) && 0 <= r.lo
    requires k == h + [NewNode(Literal(r.lo, r.hi, pos))] + [NewNode(Union(node, |h|))]
    ensures Built(k, base, |h| + 1, out + [r], pos)
  {
    var t, l := UnionOf(out, pos), Lit(r.lo, r.hi, pos);
    assert (out + [r])[..|out|] == out;
    FootIsAllocated(h, node, t);
    TreeFrame(h, k, node, t);
    assert Tree(k, |h|, l) && Foot(k, |h|, l) == {|h|};
    JoinNodes(k, |h| + 1, Alt(t, l), node, t, |h|, l);
  }

  /** The union of the listed ranges or, with negate, of the gaps between them. The list is
      then sorted and ends with a range beyond all characters. */
  method BuildUnion(arena: Arena, ls: seq<Literals>, negate: bool, pos: int) returns (node: Ptr,
      ghost out: seq<Literals>)
    requires forall r :: r in ls ==> 0 <= r.lo <= r.hi <= TRE_CHAR_MAX + 1
    requires negate ==> Ascending(ls)
    modifies arena
    ensures Built(arena.nodes, |old(arena.nodes)|, node, out, pos) && old(arena.nodes) <= arena.nodes
    ensures !negate ==> out == ls
    ensures negate ==> exists negmin :: Gaps(ls, |ls|, out, negmin) && negmin <= TRE_CHAR_MAX + 2
                                        && forall r :: r in ls ==> r.hi < negmin
  {
    hide Gaps, Built, Ascending;
    ghost var base := |arena.nodes|;
    var negmin, negmax := 0, 0;
    node, out := NULL, [];
    NoGaps(ls);
    NothingBuilt(arena.nodes, pos);
    var i := 0;
    while i < |ls|
      invariant 0 <= i <= |ls| && Built(arena.nodes, base, node, out, pos) && old(arena.nodes) <= arena.nodes
      invariant !negate ==> out == ls[..i]
      invariant negate ==> Gaps(ls, i, out, negmin) && 0 <= negmin <= TRE_CHAR_MAX + 2 && forall r :: r in ls[..i] ==>
        r.hi < negmin
    {
      var min, max := ls[i].lo, ls[i].hi;
      assert ls[i] in ls && ls[..i + 1] == ls[..i] + [ls[i]];
      if negate {
        if min <= negmin {
          GapOverlap(ls, i, out, negmin);
          negmin := if max + 1 > negmin then max + 1 else negmin;
          i := i + 1;
          continue;
        }
        GapBefore(ls, i, out, negmin);
        negmax := min - 1;
        min := negmin;
        negmin := max + 1;
        max := negmax;
      }
      node := AddLiteral(arena, node, Range(min, max), pos, base, out);
      out := out + [Range(min, max)];
      i := i + 1;
    }
    assert ls[..i] == ls;
  }

  lemma NoGaps(ls: seq<Literals>)
    ensures Gaps(ls, 0, [], 0)
  {
  }

  lemma NothingBuilt(h: Heap, pos: int)
    ensures Built(h, |h|, NULL, [], pos)
  {
  }

  // ---------- the whole expression ----------

  predicate Negates(s: seq<int>, i: int)
    requires 0 <= i <= |s|
  {
    At(s, i) == BANG
  }

  function ListStart(s: seq<int>, i: int): int
    requires 0 <= i <= |s|
  {
    if Negates(s, i) then i + 1 else i
  }

  /** The characters the bracket stands for. */
  ghost predicate Stands(ls: seq<Literals>, negate: bool, newline: bool, c: int) {
    0 <= c <= TRE_CHAR_MAX && if negate then !Covers(ls, c) && !(newline && c == NEWLINE) else Covers(ls, c)
  }

  lemma CompareIsOrder()
    ensures S.TotalPreorder(CompareLit)
  {
  }

  lemma SortedAscending(ls: seq<Literals>, last: Literals)
    requires S.Sorted(CompareLit, ls) && forall r :: r in ls ==> r.lo <= last.lo
    ensures Ascending(ls + [last])
  {
    var m := ls + [last];
    forall i, j | 0 <= i < j < |m| ensures m[i].lo <= m[j].lo {
      if j < |ls| { assert S.Le(CompareLit, ls[i], ls[j]); } else { assert ls[i] in ls; }
    }
  }

  /** tre_compare_lit order, and a range beyond the last character. */
  method SortForNegation(ls: seq<Literals>) returns (sorted: seq<Literals>)
    requires forall r :: r in ls ==> WellFormed(r)
    ensures Ascending(sorted) && forall r :: r in sorted <==> r in ls || r == Range(TRE_CHAR_MAX + 1, TRE_CHAR_MAX + 1)
  {
    var a := new Literals[|ls|](i requires 0 <= i < |ls| => ls[i]);
    assert a[..] == ls;
    CompareIsOrder();
    S.Qsort(a, CompareLit);
    forall r ensures r in a[..] <==> r in ls {
      assert r in a[..] <==> r in multiset(a[..]);
      assert r in ls <==> r in multiset(ls);
    }
    var last := Range(TRE_CHAR_MAX + 1, TRE_CHAR_MAX + 1);
    SortedAscending(a[..], last);
    sorted := a[..] + [last];
  }

  /** The gaps of a sorted list are exactly the characters it does not list. */
  lemma GapsAreComplement(ls: seq<Literals>, sorted: seq<Literals>, out: seq<Literals>, negmin: int, c: int)
    requires Gaps(sorted, |sorted|, out, negmin) && negmin <= TRE_CHAR_MAX + 2 && forall r :: r in sorted ==>
      r.hi < negmin
    requires forall r :: r in sorted <==> r in ls || r == Range(TRE_CHAR_MAX + 1, TRE_CHAR_MAX + 1)
    ensures Covers(out, c) <==> 0 <= c <= TRE_CHAR_MAX && !Covers(ls, c)
  {
    var last := Range(TRE_CHAR_MAX + 1, TRE_CHAR_MAX + 1);
    assert last in sorted;
    if 0 <= c <= TRE_CHAR_MAX { assert Covers(sorted, c) <==> Covers(ls, c); }
    if c == TRE_CHAR_MAX + 1 { assert Covers(sorted, c); }
  }

  /** The bracket expression whose '[' stands right before i. */
  method ParseBracket(arena: Arena, s: seq<int>, i: int, position: int, newline: bool)
    returns (err: Code, node: Ptr, end: int, next: int, ghost t: Re)
    requires Text(s) && 0 <= i <= |s|
    modifies arena
    ensures next == position + 1 && old(arena.nodes) <= arena.nodes
    ensures err == REG_ESPACE ==> |s| - i >= MAX_LITERALS
    ensures err != REG_OK && err != REG_ESPACE ==> Terms(s, ListStart(s, i), ListStart(s, i)) == Bad(err)
    ensures err == REG_OK ==>
      var list := Terms(s, ListStart(s, i), ListStart(s, i));
      && list.List? && end == list.end && Tree(arena.nodes, node, t) && Unshared(arena.nodes, node, t)
      && P.Bracket(t, position)
      && Within(Foot(arena.nodes, node, t), |old(arena.nodes)|, |arena.nodes|)
      && forall w :: Matches(t, w) <==> |w| == 1 && Stands(list.ranges, Negates(s, i), newline, w[0])
  {
    hide Gaps, Covers, Ascending, Matches, Terms;
    node, end, next, t := NULL, i, position + 1, Eps;
    var negate := Negates(s, i);
    var start := ListStart(s, i);
    var ls;
    err, ls, end := ParseTerms(s, start);
    TermsAreRanges(s, start, start);
    if err != REG_OK { return; }
    var sorted := ls;
    if negate {
      if newline && |ls| >= MAX_LITERALS { return REG_ESPACE, node, end, next, t; }
      if |ls| + (if newline then 1 else 0) >= MAX_LITERALS { return REG_ESPACE, node, end, next, t; }
      var all := ls + if newline then [Range(NEWLINE, NEWLINE)] else [];
      sorted := SortForNegation(all);
    }
    ghost var out;
    node, out := BuildUnion(arena, sorted, negate, position);
    BracketMeans(s, start, ls, sorted, out, negate, newline, position);
    t := UnionOf(out, position);
  }

  /** What was built is what the bracket stands for, and it stands for something. */
  lemma BracketMeans(s: seq<int>, start: int, ls: seq<Literals>, sorted: seq<Literals>, out: seq<Literals>,
                     negate: bool, newline: bool, pos: int)
    requires Text(s) && 0 <= start <= |s| && Terms(s, start, start).List? && Terms(s, start, start).ranges == ls
    requires !negate ==> out == sorted == ls
    requires negate ==>
      && (forall r :: r in sorted <==>
          r in ls + (if newline then [Range(NEWLINE, NEWLINE)] else [])
          || r == Range(TRE_CHAR_MAX + 1, TRE_CHAR_MAX + 1))
      && exists negmin :: Gaps(sorted, |sorted|, out, negmin) && negmin <= TRE_CHAR_MAX + 2
                          && forall r :: r in sorted ==> r.hi < negmin
    ensures out != [] && P.Bracket(UnionOf(out, pos), pos)
    ensures forall w :: Matches(UnionOf(out, pos), w) <==> |w| == 1 && Stands(ls, negate, newline, w[0])
  {
    hide Gaps, Matches;
    TermsAreRanges(s, start, start);
    var all := ls + if newline then [Range(NEWLINE, NEWLINE)] else [];
    forall c ensures Covers(out, c) <==> Stands(ls, negate, newline, c) {
      if negate {
        var negmin :| Gaps(sorted, |sorted|, out, negmin) && negmin <= TRE_CHAR_MAX + 2 && forall r :: r in sorted ==>
          r.hi < negmin;
        GapsAreComplement(all, sorted, out, negmin, c);
        if newline { CoversMore(ls, Range(NEWLINE, NEWLINE), c); } else { assert all == ls; }
      }
    }
    if negate { assert Covers(out, 256); } else { ListNotEmpty(s, start); }
    assert out != [];
    forall w ensures Matches(UnionOf(out, pos), w) <==> |w| == 1 && Stands(ls, negate, newline, w[0]) {
      UnionIsSet(out, pos, w);
    }
    UnionIsSet(out, pos, []);
  }

  lemma ListNotEmpty(s: seq<int>, start: int)
    requires 0 <= start <= |s| && Terms(s, start, start).List?
    ensures Terms(s, start, start).ranges != []
  {
  }
}
