/** regexec on a compiled expression, and what it answers in terms of the expression. */
module RegexMatch {
  import opened RegexSyntax
  import opened RegexExpand
  import opened RegexPositions
  import opened RegexAst
  import opened RegexCopy
  import opened RegexTnfa
  import opened RegexCompile
  import opened RegexExec
  import opened RegexRun
  import opened RegexNumbering
  import opened RegexPlaces

  // ---------- the compiled automaton and the matcher's automaton ----------

  ghost function AutomatonOf(tnfa: Tnfa): Automaton
    reads tnfa.initial
    requires tnfa.initial.Length > 0
  {
    Automaton(tnfa.rows, tnfa.initial[..tnfa.initial.Length - 1], tnfa.finalId)
  }

  ghost function SetupOf(tnfa: Tnfa): Setup
    reads tnfa.initial
    requires tnfa.initial.Length > 0
  {
    Setup(AutomatonOf(tnfa), tnfa.offs, tnfa.caps, [], 0, false)
  }

  lemma RowsAreSound(rows: Rows, t: Re, offs: seq<int>, p: int, tr: Trans)
    requires RowsAreFollow(rows, t, offs) && 0 <= p < |rows| && tr in rows[p]
    ensures 0 <= tr.stateId < |offs| && tr.state == offs[tr.stateId]
  {
    var e, q :| FollowVia(t, offs, p, tr, e, q);
  }

  lemma CompiledSetup(tnfa: Tnfa)
    requires tnfa.Valid()
    ensures SetupOk(SetupOf(tnfa), tnfa.final) && InitialR(tnfa.initial[..], AutomatonOf(tnfa).first)
  {
    var a := AutomatonOf(tnfa);
    forall p, tr | 0 <= p < |a.rows| && tr in a.rows[p] ensures 0 <= tr.stateId < |tnfa.offs|
    && tr.state == tnfa.offs[tr.stateId] {
      RowsAreSound(tnfa.rows, tnfa.tree, tnfa.offs, p, tr);
    }
    forall p, q | 0 <= p < q < |tnfa.offs| ensures tnfa.offs[p] < tnfa.offs[q] {
      assert tnfa.offs[p] + tnfa.caps[p] < tnfa.offs[q];
    }
    OffsetsAreNatural(tnfa.transitions[..], SetupOf(tnfa));
    assert |a.first| == |First(tnfa.tree)|;
  }

  lemma StepLink(rows: Rows, t: Re, offs: seq<int>, a: Automaton, p: int, c: int, q: int)
    requires RowsAreFollow(rows, t, offs) && a.rows == rows && Fits(t, |offs|)
    ensures StepR(a, p, c, q) <==> Step(t, p, c, q)
  {
    if StepR(a, p, c, q) {
      var tr :| tr in a.rows[p] && tr.codeMin <= c <= tr.codeMax && tr.stateId == q;
      var e, r :| FollowVia(t, offs, p, tr, e, r);
      assert Follow(t, e, q) && e.pos == p && e.lo <= c <= e.hi;
    }
    if Step(t, p, c, q) {
      StepsArePositions(t, p, c, q);
      var e :| Follow(t, e, q) && e.pos == p && e.lo <= c <= e.hi;
      assert FollowVia(t, offs, p, TransOf(e, q, offs), e, q);
      assert TransOf(e, q, offs) in rows[p];
    }
  }

  lemma StartLink(tnfa: Tnfa, q: int)
    requires tnfa.Valid()
    ensures StartR(AutomatonOf(tnfa), q) <==> Starts(tnfa.tree, q)
  {
    hide First, TableIs, Fits, RowsAreFollow;
    var a, first := AutomatonOf(tnfa), First(tnfa.tree);
    if StartR(a, q) {
      var tr :| tr in a.first && tr.stateId == q;
      var k :| 0 <= k < |a.first| && a.first[k] == tr;
      assert first[k] in first && first[k].pos == q;
    }
    if Starts(tnfa.tree, q) {
      var e :| e in first && e.pos == q;
      var k :| 0 <= k < |first| && first[k] == e;
      assert a.first[k] in a.first && a.first[k].stateId == q;
    }
  }

  /** A path of one step more. */
  lemma {:induction false} ReachesSnoc(t: Re, p: int, s: seq<int>, m: int, c: int, q: int)
    requires Reaches(t, p, s, m) && Step(t, m, c, q)
    ensures Reaches(t, p, s + [c], q)
    decreases |s|
  {
    if s == [] {
      assert (s + [c])[1..] == [];
      assert ReachesVia(t, p, s + [c], q, q);
    } else {
      var k :| ReachesVia(t, p, s, m, k);
      ReachesSnoc(t, k, s[1..], m, c, q);
      assert (s + [c])[1..] == s[1..] + [c];
      assert ReachesVia(t, p, s + [c], q, k);
    }
  }

  lemma {:induction false} ReachesLast(t: Re, p: int, s: seq<int>, q: int) returns (m: int)
    requires s != [] && Reaches(t, p, s, q)
    ensures Reaches(t, p, s[..|s| - 1], m) && Step(t, m, s[|s| - 1], q)
    decreases |s|
  {
    var k :| ReachesVia(t, p, s, q, k);
    if |s| == 1 {
      assert s[1..] == [] && Reaches(t, k, s[1..], q);
      m := p;
    } else {
      m := ReachesLast(t, k, s[1..], q);
      var init := s[..|s| - 1];
      assert init[1..] == s[1..][..|s| - 2];
      assert ReachesVia(t, p, init, m, k);
    }
  }

  ghost predicate PathTo(t: Re, s: seq<int>, q: int) { exists p :: Starts(t, p) && Reaches(t, p, s, q) }

  lemma {:induction false} ThreadToPath(tnfa: Tnfa, text: seq<int>, i: int, e: int, q: int)
    requires tnfa.Valid() && Thread(AutomatonOf(tnfa), text, i, e, q)
    ensures PathTo(tnfa.tree, text[i..e], q)
    decreases e
  {
    var a, t := AutomatonOf(tnfa), tnfa.tree;
    if i == e {
      StartLink(tnfa, q);
      assert Reaches(t, q, text[i..e], q);
      return;
    }
    var m :| ThreadVia(a, text, i, e, q, m);
    ThreadToPath(tnfa, text, i, e - 1, m);
    StepLink(tnfa.rows, t, tnfa.offs, a, m, text[e - 1], q);
    var p :| Starts(t, p) && Reaches(t, p, text[i..e - 1], m);
    ReachesSnoc(t, p, text[i..e - 1], m, text[e - 1], q);
    assert text[i..e] == text[i..e - 1] + [text[e - 1]];
  }

  lemma {:induction false} PathToThread(tnfa: Tnfa, text: seq<int>, i: int, e: int, q: int)
    requires tnfa.Valid() && 0 <= i <= e <= |text| && PathTo(tnfa.tree, text[i..e], q)
    ensures Thread(AutomatonOf(tnfa), text, i, e, q)
    decreases e
  {
    hide First, TableIs, Fits, RowsAreFollow, Starts, StartR, Step, StepR;
    var a, t, s := AutomatonOf(tnfa), tnfa.tree, text[i..e];
    var p :| Starts(t, p) && Reaches(t, p, s, q);
    if i == e {
      StartLink(tnfa, q);
      return;
    }
    var m := ReachesLast(t, p, s, q);
    assert s[..|s| - 1] == text[i..e - 1];
    PathToThread(tnfa, text, i, e - 1, m);
    StepLink(tnfa.rows, t, tnfa.offs, a, m, text[e - 1], q);
    assert ThreadVia(a, text, i, e, q, m);
  }

  lemma ThreadLink(tnfa: Tnfa, text: seq<int>, i: int, e: int, q: int)
    requires tnfa.Valid() && 0 <= i <= e <= |text|
    ensures Thread(AutomatonOf(tnfa), text, i, e, q) <==> PathTo(tnfa.tree, text[i..e], q)
  {
    if Thread(AutomatonOf(tnfa), text, i, e, q) { ThreadToPath(tnfa, text, i, e, q); }
    if PathTo(tnfa.tree, text[i..e], q) { PathToThread(tnfa, text, i, e, q); }
  }

  // ---------- what regexec answers ----------

  /** Some stretch of the text, possibly empty, is a word of t. */
  ghost predicate Occurs(t: Re, text: seq<int>) {
    exists i, e :: OccursAt(t, text, i, e)
  }

  ghost predicate OccursAt(t: Re, text: seq<int>, i: int, e: int) {
    0 <= i <= e <= |text| && Matches(t, text[i..e])
  }

  ghost predicate AcceptsAt(t: Re, final: int, text: seq<int>, i: int, e: int) {
    0 <= i <= e <= |text| && Accepts(t, final, text[i..e])
  }

  /** regexec for an expression compiled with REG_NOSUB: the match array is not wanted, so
      there are no tags. */
  method Regexec(tnfa: Tnfa, text: seq<int>) returns (ok: bool)
    requires tnfa.Valid() && 0 !in text
    ensures ok <==> exists i, e :: AcceptsAt(tnfa.tree, tnfa.finalId, text, i, e)
  {
    CompiledSetup(tnfa);
    ghost var u := SetupOf(tnfa);
    var matchEo, matchTags;
    ok, matchEo, matchTags := RunParallel(tnfa.transitions, tnfa.initial, tnfa.final, tnfa.numStates, 0, [], [], text,
                                          u);
    forall i, e ensures Match(u.a, text, i, e) <==> AcceptsAt(tnfa.tree, tnfa.finalId, text, i, e) {
      if 0 <= i <= e <= |text| { ThreadLink(tnfa, text, i, e, tnfa.finalId); }
    }
  }

  function FinalOf(t: Re, position: int): int
    requires WellCounted(t)
  {
    Max(position + Expand(t, START).1.total, Expand(t, START).1.maxPos)
  }

  ghost predicate DistinctWhenExpanded(t: Re, position: int)
    requires WellCounted(t)
  {
    Distinct(WithFinal(Expand(t, START).0, FinalOf(t, position)))
  }

  /** What regcomp compiles t to accepts the word. */
  ghost predicate AcceptsCompiled(t: Re, position: int, word: seq<int>)
    requires WellCounted(t)
  {
    Accepts(WithFinal(Expand(t, START).0, FinalOf(t, position)), FinalOf(t, position), word)
  }

  ghost predicate CompiledAt(t: Re, position: int, text: seq<int>, i: int, e: int)
    requires WellCounted(t)
  {
    0 <= i <= e <= |text| && AcceptsCompiled(t, position, text[i..e])
  }

  /** The compiled automaton accepts the words of the expression as it was parsed. */
  lemma AcceptsIsOriginal(t: Re, position: int, s: seq<int>)
    requires WellCounted(t) && DistinctWhenExpanded(t, position)
    ensures var final := FinalOf(t, position);
            Accepts(WithFinal(Expand(t, START).0, final), final, s) <==> Matches(t, s)
  {
    ExpandIsSimple(t, START);
    ExpandKeepsLanguage(t, START);
    AcceptsIsMatches(Expand(t, START).0, FinalOf(t, position), s);
  }

  /** No word of the expression is lost, whatever the numbers. */
  lemma NothingIsMissed(t: Re, position: int, s: seq<int>)
    requires WellCounted(t) && Matches(t, s)
    ensures AcceptsCompiled(t, position, s)
  {
    hide Matches, Accepts;
    ExpandIsSimple(t, START);
    ExpandKeepsLanguage(t, START);
    WordsAreAccepted(Expand(t, START).0, FinalOf(t, position), s);
  }

  lemma ClashFreeMeansDistinct(t: Re, position: int)
    requires WellCounted(t) && Numbered(t, 0, position)
    ensures DistinctWhenExpanded(t, position) <==> ClashFree(t, false)
    ensures Safe(t, false) ==> ClashFree(t, false)
  {
    DistinctExactlyWhenClashFree(t, position);
    SafeIsClashFree(t, position);
  }

  /** regcomp then regexec: some stretch of the text is accepted by what t is compiled to. That
      is whether t occurs in the text, provided expansion leaves distinct leaves with distinct
      positions, as it does exactly when no numbers clash; and an expression that does occur is
      found in any case. */
  method CompileAndMatch(mem: Arena, tree: Ptr, position: nat, text: seq<int>, ghost t: Re) returns (ok: bool)
    requires Tree(mem.nodes, tree, t) && Unshared(mem.nodes, tree, t) && WellCounted(t) && Proper(t) && 0 !in text
    modifies mem
    ensures ok <==> exists i, e :: CompiledAt(t, position, text, i, e)
    ensures Occurs(t, text) ==> ok
    ensures DistinctWhenExpanded(t, position) ==> (ok <==> Occurs(t, text))
    ensures Numbered(t, 0, position) && ClashFree(t, false) ==> (ok <==> Occurs(t, text))
    ensures Numbered(t, 0, position) && Safe(t, false) ==> (ok <==> Occurs(t, text))
  {
    hide Numbered, Safe, ClashFree, Distinct, Expand, Accepts, Matches, Tree, Unshared, WellCounted, Proper;
    if Numbered(t, 0, position) { ClashFreeMeansDistinct(t, position); }
    var tnfa := Regcomp(mem, tree, position, t);
    ok := Regexec(tnfa, text);
    assert ok <==> exists i, e :: CompiledAt(t, position, text, i, e) by {
      forall i, e ensures AcceptsAt(tnfa.tree, tnfa.finalId, text, i, e) <==> CompiledAt(t, position, text, i, e) {}
    }
    if Occurs(t, text) {
      var i, e :| OccursAt(t, text, i, e);
      NothingIsMissed(t, position, text[i..e]);
      assert CompiledAt(t, position, text, i, e);
    }
    if DistinctWhenExpanded(t, position) {
      forall i, e ensures CompiledAt(t, position, text, i, e) <==> OccursAt(t, text, i, e) {
        if 0 <= i <= e <= |text| { AcceptsIsOriginal(t, position, text[i..e]); }
      }
    }
  }
}
