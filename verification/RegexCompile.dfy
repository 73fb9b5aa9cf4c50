/** regcomp from the parsed tree on, for REG_NOSUB: expansion, the dummy final leaf, the
    attributes, and the assembly of the automaton. */
module RegexCompile {
  import opened RegexSyntax
  import opened RegexExpand
  import opened RegexPositions
  import opened RegexAst
  import opened RegexCopy
  import opened RegexExpandAst
  import Nfl = RegexNfl
  import opened RegexTnfa

  /** A compiled expression (tre_tnfa_t). */
  class Tnfa {
    const transitions: array<Trans>
    const initial: array<Trans>
    const final: int
    const numStates: nat
    ghost const tree: Re
    ghost const finalId: int
    ghost const offs: seq<int>
    ghost const caps: seq<nat>
    ghost const rows: Rows

    constructor (transitions: array<Trans>, initial: array<Trans>, final: int, numStates: nat,
                 ghost tree: Re, ghost finalId: int, ghost offs: seq<int>, ghost caps: seq<nat>, ghost rows: Rows)
      ensures this.transitions == transitions && this.initial == initial
      ensures this.final == final && this.numStates == numStates
      ensures this.tree == tree && this.finalId == finalId
      ensures this.offs == offs && this.caps == caps && this.rows == rows
    {
      this.transitions, this.initial, this.final, this.numStates := transitions, initial, final, numStates;
      this.tree, this.finalId, this.offs, this.caps, this.rows := tree, finalId, offs, caps, rows;
    }

    /** The arrays hold the automaton of tree. */
    ghost predicate Valid()
      reads transitions, initial
    {
      && |offs| == numStates && TableIs(transitions[..], offs, caps, rows)
      && Fits(tree, numStates) && RowsAreFollow(rows, tree, offs)
      && InitialIs(initial[..], First(tree), offs)
      && 0 <= finalId < numStates && final == offs[finalId]
    }
  }

  ghost predicate RowsAreFollow(rows: Rows, t: Re, offs: seq<int>) {
    |rows| == |offs| && forall p, tr :: 0 <= p < |offs| ==> (tr in rows[p] <==> FollowTrans(t, offs, p, tr))
  }

  /** One slot per first position, then one that is unused. */
  ghost predicate InitialIs(initial: seq<Trans>, first: seq<Entry>, offs: seq<int>) {
    && |initial| == |first| + 1 && InRange(first, |offs|)
    && (forall i :: 0 <= i < |first| ==> initial[i].state == offs[first[i].pos] && initial[i].stateId == first[i].pos)
    && initial[|first|].state == NO_STATE
  }

  // ---------- all positions have a row ----------

  lemma {:induction false} HighestIsHighest(t: Re, p: int)
    requires p in Positions(t)
    ensures p <= Highest(t)
  {
    match t
    case Lit(_, _, _) =>
    case Cat(l, r) => if p in Positions(l) { HighestIsHighest(l, p); } else { HighestIsHighest(r, p); }
    case Alt(l, r) => if p in Positions(l) { HighestIsHighest(l, p); } else { HighestIsHighest(r, p); }
    case Iter(a, _, _) => HighestIsHighest(a, p);
  }

  lemma {:induction false} ExpandHighest(t: Re, c: Counters)
    requires WellCounted(t) && -1 <= c.maxPos
    ensures var (u, c') := Expand(t, c); Highest(u) <= c'.maxPos && c.maxPos <= c'.maxPos
  {
    match t
    case Eps =>
    case Lit(_, _, _) =>
    case Cat(l, r) => ExpandHighest(l, c); ExpandHighest(r, Expand(l, c).1);
    case Alt(l, r) => ExpandHighest(l, c); ExpandHighest(r, Expand(l, c).1);
    case Iter(a, min, max) => ExpandHighest(a, EnterIter(min, max, c));
  }

  /** No position of t is negative. */
  predicate NonNegative(t: Re) {
    match t
    case Eps => true
    case Lit(_, _, pos) => 0 <= pos
    case Cat(l, r) => NonNegative(l) && NonNegative(r)
    case Alt(l, r) => NonNegative(l) && NonNegative(r)
    case Iter(a, _, _) => NonNegative(a)
  }

  lemma {:induction false} NonNegativePositions(t: Re, p: int)
    requires NonNegative(t) && p in Positions(t)
    ensures 0 <= p
  {
    match t
    case Lit(_, _, _) =>
    case Cat(l, r) => if p in Positions(l) { NonNegativePositions(l, p); } else { NonNegativePositions(r, p); }
    case Alt(l, r) => if p in Positions(l) { NonNegativePositions(l, p); } else { NonNegativePositions(r, p); }
    case Iter(a, _, _) => NonNegativePositions(a, p);
  }

  lemma {:induction false} ShiftFrom(t: Re, d: int)
    requires NonNegative(t) && 0 <= d
    ensures NonNegative(Shift(t, d))
  {
    match t
    case Eps =>
    case Lit(_, _, _) =>
    case Cat(l, r) => ShiftFrom(l, d); ShiftFrom(r, d);
    case Alt(l, r) => ShiftFrom(l, d); ShiftFrom(r, d);
    case Iter(a, _, _) => ShiftFrom(a, d);
  }

  lemma {:induction false} OffsetFrom(add: int, n: nat, a: Re)
    ensures add <= Offset(add, n, a)
    decreases n
  {
    if n > 0 { OffsetFrom(add, n - 1, a); }
  }

  lemma {:induction false} CopiesFrom(a: Re, add: int, n: nat)
    requires NonNegative(a) && 0 <= add && n >= 1
    ensures NonNegative(Copies(a, add, n)) && NonNegative(Optional(a, add, n))
    decreases n
  {
    ShiftFrom(a, add);
    OffsetFrom(add, n - 1, a);
    ShiftFrom(a, Offset(add, n - 1, a));
    if n > 1 { CopiesFrom(a, add, n - 1); }
  }

  lemma RepeatFrom(a: Re, add: int, min: int, max: int)
    requires NonNegative(a) && 0 <= add && Counts(min, max) && Expands(min, max)
    ensures NonNegative(Repeat(a, add, min, max))
  {
    var tailAdd := Offset(add, min, a);
    OffsetFrom(add, min, a);
    ShiftFrom(a, tailAdd);
    if min > 0 { CopiesFrom(a, add, min); }
    if max > min { CopiesFrom(a, tailAdd, max - min); }
  }

  lemma {:induction false} ExpandFrom(t: Re, c: Counters)
    requires WellCounted(t) && 0 <= c.add && 0 <= c.total
    ensures var (u, c') := Expand(t, c); NonNegative(u) && 0 <= c'.add && 0 <= c'.total
  {
    match t
    case Eps =>
    case Lit(_, _, _) =>
    case Cat(l, r) => ExpandFrom(l, c); ExpandFrom(r, Expand(l, c).1);
    case Alt(l, r) => ExpandFrom(l, c); ExpandFrom(r, Expand(l, c).1);
    case Iter(a, min, max) =>
      ExpandFrom(a, EnterIter(min, max, c));
      if Expands(min, max) {
        var a' := Expand(a, EnterIter(min, max, c)).0;
        RepeatFrom(a', c.add, min, max);
        OffsetFrom(c.add, CopyCount(min, max) - 1, a');
      }
  }

  /** Every position of the expanded tree is below the count that tre_expand_ast returns,
      or at most equal to it; so the dummy leaf's number plus one bounds them all. */
  lemma ExpandedFits(t: Re, position: int, u: Re, c: Counters)
    requires WellCounted(t) && 0 <= position && Expand(t, START) == (u, c)
    ensures var final := Max(position + c.total, c.maxPos);
            0 <= final && Fits(WithFinal(u, final), final + 1)
  {
    var final := Max(position + c.total, c.maxPos);
    ExpandHighest(t, START);
    ExpandFrom(t, START);
    forall p | p in Positions(WithFinal(u, final)) ensures 0 <= p < final + 1 {
      if p in Positions(u) {
        HighestIsHighest(u, p);
        NonNegativePositions(u, p);
      } else {
        assert p in Positions(Lit(0, 0, final));
      }
    }
  }

  // ---------- the code ----------

  /** Turns the counts into offsets, each state's slots followed by one for the terminator,
      and clears the counts for the second pass. */
  method LayOutStates(counts: array<int>) returns (offs: array<int>, add: int, ghost caps: seq<nat>)
    requires forall p :: 0 <= p < counts.Length ==> 0 <= counts[p]
    modifies counts
    ensures fresh(offs) && offs.Length == counts.Length && |caps| == counts.Length && 0 <= add
    ensures forall p :: 0 <= p < counts.Length ==> caps[p] == old(counts[p]) && counts[p] == 0
    ensures Apart(offs[..], caps)
    ensures forall p :: 0 <= p < counts.Length ==> 0 <= offs[p] && offs[p] + caps[p] < add
  {
    offs := new int[counts.Length];
    add, caps := 0, [];
    var i := 0;
    while i < counts.Length
      invariant 0 <= i <= counts.Length && |caps| == i && 0 <= add
      invariant forall p :: i <= p < counts.Length ==> counts[p] == old(counts[p])
      invariant forall p :: 0 <= p < i ==> caps[p] == old(counts[p]) && counts[p] == 0
      invariant forall p :: 0 <= p < i ==> 0 <= offs[p] && offs[p] + caps[p] < add
      invariant forall p, q :: 0 <= p < q < i ==> offs[p] + caps[p] < offs[q]
    {
      offs[i] := add;
      caps := caps + [counts[i]];
      add := add + counts[i] + 1;
      counts[i] := 0;
      i := i + 1;
    }
  }

  method BuildInitial(firstpos: seq<Entry>, offs: array<int>) returns (initial: array<Trans>)
    requires InRange(firstpos, offs.Length)
    ensures fresh(initial) && InitialIs(initial[..], firstpos, offs[..])
  {
    initial := new Trans[|firstpos| + 1](_ => ZERO);
    var i := 0;
    while i < |firstpos|
      invariant 0 <= i <= |firstpos|
      invariant forall k :: 0 <= k < i ==>
        initial[k].state == offs[firstpos[k].pos] && initial[k].stateId == firstpos[k].pos
      invariant initial[|firstpos|] == ZERO
    {
      var p := firstpos[i];
      initial[i] := initial[i].(state := offs[p.pos], stateId := p.pos);
      i := i + 1;
    }
    initial[i] := initial[i].(state := NO_STATE);
  }

  /** The tree with the dummy node for the final state. */
  method AddFinal(mem: Arena, tree: Ptr, position: int, ghost t: Re) returns (tree': Ptr)
    requires Tree(mem.nodes, tree, t) && Unshared(mem.nodes, tree, t)
    modifies mem
    ensures Tree(mem.nodes, tree', WithFinal(t, position)) && Unshared(mem.nodes, tree', WithFinal(t, position))
  {
    ghost var h := mem.nodes;
    FootIsAllocated(h, tree, t);
    var right := mem.New(Literal(0, 0, position));
    PrefixFrame(h, mem.nodes, tree, t);
    ghost var h1 := mem.nodes;
    tree' := mem.New(Catenation(tree, right));
    PrefixFrame(h1, mem.nodes, tree, t);
    JoinNodes(mem.nodes, tree', WithFinal(t, position), tree, t, right, Lit(0, 0, position));
  }

  /** The transition table of a labelled tree: one pass counts, the second fills. */
  method BuildTable(mem: Arena, tree: Ptr, position: nat, ghost t: Re)
    returns (transitions: array<Trans>, offs: array<int>, ghost caps: seq<nat>, ghost rows: Rows)
    requires Tree(mem.nodes, tree, t) && Nfl.Labelled(mem.nodes, tree, t) && Fits(t, position)
    ensures fresh(transitions) && fresh(offs) && offs.Length == position
    ensures TableIs(transitions[..], offs[..], caps, rows) && RowsAreFollow(rows, t, offs[..])
  {
    var counts := new int[position](_ => 0);
    CountAst(mem, tree, counts, t);
    var add;
    offs, add, caps := LayOutStates(counts);
    transitions := new Trans[add + 1](_ => ZERO);
    ghost var rows0: Rows := seq(position, i => []);
    rows := AstToTnfa(mem, tree, transitions, offs, caps, rows0, t);
  }

  /** Builds the automaton of a labelled tree. */
  method BuildTnfa(mem: Arena, tree: Ptr, position: nat, finalId: nat, ghost t: Re) returns (tnfa: Tnfa)
    requires Tree(mem.nodes, tree, t) && Nfl.Labelled(mem.nodes, tree, t)
    requires Fits(t, position) && finalId < position && |Last(t)| > 0 && Last(t)[0].pos == finalId
    ensures tnfa.Valid() && tnfa.tree == t && tnfa.finalId == finalId && tnfa.numStates == position
  {
    FitsEntries(t, position);
    var transitions, offs;
    ghost var caps, rows;
    transitions, offs, caps, rows := BuildTable(mem, tree, position, t);
    var initial := BuildInitial(mem.nodes[tree].firstpos, offs);
    tnfa := new Tnfa(transitions, initial, offs[mem.nodes[tree].lastpos[0].pos], position, t, finalId, offs[..], caps,
                     rows);
  }

  /** regcomp after parsing: tree is the parsed expression and position the number of
      positions the parser gave out. */
  method Regcomp(mem: Arena, tree: Ptr, position: nat, ghost t: Re) returns (tnfa: Tnfa)
    requires Tree(mem.nodes, tree, t) && Unshared(mem.nodes, tree, t) && WellCounted(t) && Proper(t)
    modifies mem
    ensures var (u, c) := Expand(t, START);
            && tnfa.Valid()
            && tnfa.finalId == Max(position + c.total, c.maxPos)
            && tnfa.tree == WithFinal(u, tnfa.finalId) && tnfa.numStates == tnfa.finalId + 1
  {
    hide Expand, Tree, Unshared, WellCounted, Proper;
    ghost var (u, c) := Expand(t, START);
    ExpandedFits(t, position, u, c);
    var position1 := ExpandAst(mem, tree, position, t);
    var whole := AddFinal(mem, tree, position1, u);
    Nfl.ComputeNfl(mem, whole, WithFinal(u, position1));
    tnfa := BuildTnfa(mem, whole, position1 + 1, position1, WithFinal(u, position1));
  }
}
