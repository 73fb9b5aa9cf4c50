/** The transition table: one run of slots per position, filled by tre_make_trans and
    tre_ast_to_tnfa after a first pass has counted how many slots each position needs. */
module RegexTnfa {
  import opened RegexSyntax
  import opened RegexPositions
  import opened RegexAst
  import opened RegexCopy
  import opened RegexNfl

  /** One transition; state is the index of the target's first slot, or NO_STATE, and tags
      is the list of tags to set (always empty under REG_NOSUB). */
  datatype Trans = Trans(codeMin: int, codeMax: int, state: int, stateId: int, tags: seq<int>)

  const NO_STATE := -1
  const ZERO := Trans(0, 0, NO_STATE, 0, [])

  // ---------- how many slots a tree needs ----------

  ghost function PairDemand(p1: seq<Entry>, n2: nat, p: int): nat {
    if p1 == [] then 0 else PairDemand(p1[..|p1| - 1], n2, p) + (if p1[|p1| - 1].pos == p then n2 else 0)
  }

  ghost function Demand(t: Re, p: int): nat {
    match t
    case Eps => 0
    case Lit(_, _, _) => 0
    case Cat(l, r) => PairDemand(Last(l), |First(r)|, p) + Demand(l, p) + Demand(r, p)
    case Alt(l, r) => Demand(l, p) + Demand(r, p)
    case Iter(a, _, max) => (if max == UNBOUNDED then PairDemand(Last(a), |First(a)|, p) else 0) + Demand(a, p)
  }

  // ---------- the table and its abstract rows ----------

  type Rows = seq<seq<Trans>>

  /** The slots from off on hold row, and the rest of the cap + 1 slots are unused. */
  ghost predicate RowIs(slots: seq<Trans>, off: int, cap: nat, row: seq<Trans>) {
    && 0 <= off && off + cap < |slots| && |row| <= cap
    && (forall i :: off <= i < off + |row| ==> slots[i] == row[i - off] && slots[i].state != NO_STATE)
    && (forall i :: off + |row| <= i <= off + cap ==> slots[i].state == NO_STATE)
  }

  ghost predicate Apart(offs: seq<int>, caps: seq<nat>) {
    |offs| == |caps| && forall p, q :: 0 <= p < q < |offs| ==> offs[p] + caps[p] < offs[q]
  }

  ghost predicate TableIs(slots: seq<Trans>, offs: seq<int>, caps: seq<nat>, rows: Rows) {
    && Apart(offs, caps) && |rows| == |offs|
    && forall p :: 0 <= p < |offs| ==> RowIs(slots, offs[p], caps[p], rows[p])
  }

  function TransOf(e: Entry, q: int, offs: seq<int>): Trans
    requires 0 <= q < |offs|
  {
    Trans(e.lo, e.hi, offs[q], q, [])
  }

  ghost predicate InRange(es: seq<Entry>, n: int) { forall e :: e in es ==> 0 <= e.pos < n }

  /** tr leads from position p, on an entry of p1, to a position of p2. */
  ghost predicate Drawn(p1: seq<Entry>, p2: seq<Entry>, offs: seq<int>, p: int, tr: Trans)
    requires InRange(p2, |offs|)
  {
    exists e, f :: e in p1 && f in p2 && e.pos == p && tr == TransOf(e, f.pos, offs)
  }

  lemma RowsKept(slots: seq<Trans>, slots': seq<Trans>, offs: seq<int>, caps: seq<nat>, rows: Rows, p: int,
                 row: seq<Trans>)
    requires TableIs(slots, offs, caps, rows) && 0 <= p < |offs| && |slots'| == |slots|
    requires forall i :: 0 <= i < |slots| && !(offs[p] <= i <= offs[p] + caps[p]) ==> slots'[i] == slots[i]
    requires RowIs(slots', offs[p], caps[p], row)
    ensures TableIs(slots', offs, caps, rows[p := row])
  {
    forall q | 0 <= q < |offs| && q != p ensures RowIs(slots', offs[q], caps[q], rows[q]) {
      assert RowIs(slots, offs[q], caps[q], rows[q]);
      if q < p { assert offs[q] + caps[q] < offs[p]; } else { assert offs[p] + caps[p] < offs[q]; }
    }
  }

  /** Sets the next unused transition of position e.pos to lead to position q. */
  method AddTrans(e: Entry, q: int, transitions: array<Trans>, offs: array<int>, ghost caps: seq<nat>, ghost rows: Rows)
      returns (ghost rows': Rows)
    requires TableIs(transitions[..], offs[..], caps, rows)
    requires 0 <= e.pos < offs.Length && 0 <= q < offs.Length
    requires |rows[e.pos]| < caps[e.pos]
    modifies transitions
    ensures rows' == rows[e.pos := rows[e.pos] + [TransOf(e, q, offs[..])]]
    ensures TableIs(transitions[..], offs[..], caps, rows')
  {
    ghost var before, row, off, cap := transitions[..], rows[e.pos], offs[e.pos], caps[e.pos];
    assert RowIs(before, off, cap, row);
    assert RowIs(before, offs[q], caps[q], rows[q]);
    var trans := offs[e.pos];
    while transitions[trans].state != NO_STATE
      invariant off <= trans <= off + |row|
      decreases off + |row| - trans
    {
      trans := trans + 1;
    }
    assert before[off + |row|].state == NO_STATE;
    assert trans == off + |row|;
    transitions[trans + 1] := transitions[trans + 1].(state := NO_STATE);
    transitions[trans] := Trans(e.lo, e.hi, offs[q], q, []);
    ghost var row' := row + [TransOf(e, q, offs[..])];
    rows' := rows[e.pos := row'];
    RowsKept(before, transitions[..], offs[..], caps, rows, e.pos, row');
  }

  ghost predicate DrawnFrom(e: Entry, p2: seq<Entry>, offs: seq<int>, tr: Trans)
    requires InRange(p2, |offs|)
  {
    exists f :: f in p2 && tr == TransOf(e, f.pos, offs)
  }

  /** The transitions out of one position, for one range of characters. */
  method MakeTransFrom(e: Entry, p2: seq<Entry>, transitions: array<Trans>, offs: array<int>, ghost caps: seq<nat>,
                       ghost rows: Rows)
      returns (ghost rows': Rows)
    requires TableIs(transitions[..], offs[..], caps, rows)
    requires 0 <= e.pos < offs.Length && InRange(p2, offs.Length)
    requires |rows[e.pos]| + |p2| <= caps[e.pos]
    modifies transitions
    ensures TableIs(transitions[..], offs[..], caps, rows')
    ensures rows' == rows[e.pos := rows'[e.pos]] && |rows'[e.pos]| <= |rows[e.pos]| + |p2|
    ensures forall tr :: tr in rows'[e.pos] <==> tr in rows[e.pos] || DrawnFrom(e, p2, offs[..], tr)
  {
    rows' := rows;
    var prevP2Pos := -1;
    var j := 0;
    while j < |p2|
      invariant 0 <= j <= |p2| && prevP2Pos == if j == 0 then -1 else p2[j - 1].pos
      invariant TableIs(transitions[..], offs[..], caps, rows')
      invariant rows' == rows[e.pos := rows'[e.pos]] && |rows'[e.pos]| <= |rows[e.pos]| + j
      invariant forall tr :: tr in rows'[e.pos] <==> tr in rows[e.pos] || DrawnFrom(e, p2[..j], offs[..], tr)
    {
      DrawnFromNext(e, p2, j, offs[..]);
      if p2[j].pos == prevP2Pos {
        SameAsPrevious(e, p2, j, offs[..]);
      } else {
        prevP2Pos := p2[j].pos;
        rows' := AddTrans(e, p2[j].pos, transitions, offs, caps, rows');
      }
      j := j + 1;
    }
    assert p2[..j] == p2;
  }

  lemma DrawnFromNext(e: Entry, p2: seq<Entry>, j: nat, offs: seq<int>)
    requires InRange(p2, |offs|) && j < |p2|
    ensures forall tr :: DrawnFrom(e, p2[..j + 1], offs, tr) <==>
      DrawnFrom(e, p2[..j], offs, tr) || tr == TransOf(e, p2[j].pos, offs)
  {
    var next := TransOf(e, p2[j].pos, offs);
    assert p2[..j + 1] == p2[..j] + [p2[j]];
    forall tr ensures DrawnFrom(e, p2[..j + 1], offs, tr) <==> DrawnFrom(e, p2[..j], offs, tr) || tr == next {
      if DrawnFrom(e, p2[..j + 1], offs, tr) && tr != next {
        var f :| f in p2[..j + 1] && tr == TransOf(e, f.pos, offs);
        assert f in p2[..j];
      }
      if DrawnFrom(e, p2[..j], offs, tr) {
        var f :| f in p2[..j] && tr == TransOf(e, f.pos, offs);
        assert f in p2[..j + 1];
      }
      assert p2[j] in p2[..j + 1];
    }
  }

  lemma SameAsPrevious(e: Entry, p2: seq<Entry>, j: nat, offs: seq<int>)
    requires InRange(p2, |offs|) && 0 < j < |p2| && p2[j].pos == p2[j - 1].pos
    ensures DrawnFrom(e, p2[..j], offs, TransOf(e, p2[j].pos, offs))
  {
    assert p2[j - 1] in p2[..j];
  }

  lemma {:induction false} PairDemandGrows(p1: seq<Entry>, i: nat, n2: nat, p: int)
    requires i <= |p1|
    ensures PairDemand(p1[..i], n2, p) <= PairDemand(p1, n2, p)
    decreases |p1| - i
  {
    if i == |p1| {
      assert p1[..i] == p1;
    } else {
      assert p1[..i + 1][..i] == p1[..i];
      PairDemandGrows(p1, i + 1, n2, p);
    }
  }

  /** rows' is rows with the transitions from p1 to p2 added. */
  ghost predicate Added(rows: Rows, rows': Rows, p1: seq<Entry>, p2: seq<Entry>, offs: seq<int>)
    requires InRange(p2, |offs|)
  {
    && |rows'| == |rows| == |offs|
    && (forall p, tr :: 0 <= p < |offs| ==> (tr in rows'[p] <==> tr in rows[p] || Drawn(p1, p2, offs, p, tr)))
    && (forall p :: 0 <= p < |offs| ==> |rows'[p]| <= |rows[p]| + PairDemand(p1, |p2|, p))
  }

  /** The transitions into one more last position. */
  lemma DrawnNext(p1: seq<Entry>, i: nat, p2: seq<Entry>, offs: seq<int>, p: int, tr: Trans)
    requires i < |p1| && InRange(p2, |offs|)
    ensures Drawn(p1[..i + 1], p2, offs, p, tr) <==>
      Drawn(p1[..i], p2, offs, p, tr) || (p == p1[i].pos && DrawnFrom(p1[i], p2, offs, tr))
  {
    var e := p1[i];
    assert p1[..i + 1] == p1[..i] + [e];
    if p == e.pos && DrawnFrom(e, p2, offs, tr) {
      var f :| f in p2 && tr == TransOf(e, f.pos, offs);
      assert e in p1[..i + 1];
    }
    if Drawn(p1[..i + 1], p2, offs, p, tr) {
      var e', f :| e' in p1[..i + 1] && f in p2 && e'.pos == p && tr == TransOf(e', f.pos, offs);
    }
    if Drawn(p1[..i], p2, offs, p, tr) {
      var e', f :| e' in p1[..i] && f in p2 && e'.pos == p && tr == TransOf(e', f.pos, offs);
      assert e' in p1[..i + 1];
    }
  }

  lemma AddedNext(rows: Rows, rows1: Rows, rows2: Rows, p1: seq<Entry>, i: nat, p2: seq<Entry>, offs: seq<int>)
    requires i < |p1| && InRange(p1, |offs|) && InRange(p2, |offs|)
    requires Added(rows, rows1, p1[..i], p2, offs)
    requires var e := p1[i];
             && |rows2| == |rows1| && rows2 == rows1[e.pos := rows2[e.pos]] && |rows2[e.pos]| <= |rows1[e.pos]| + |p2|
             && forall tr :: tr in rows2[e.pos] <==> tr in rows1[e.pos] || DrawnFrom(e, p2, offs, tr)
    ensures Added(rows, rows2, p1[..i + 1], p2, offs)
  {
    hide Drawn, DrawnFrom;
    var e := p1[i];
    assert p1[..i + 1][..i] == p1[..i];
    forall p, tr | 0 <= p < |offs|
      ensures tr in rows2[p] <==> tr in rows[p] || Drawn(p1[..i + 1], p2, offs, p, tr)
    {
      DrawnNext(p1, i, p2, offs, p, tr);
      assert rows2[p] == if p == e.pos then rows2[e.pos] else rows1[p];
    }
  }

  /** Added for the transitions of a whole tree. */
  ghost predicate Filled(rows: Rows, rows': Rows, t: Re, offs: seq<int>) {
    && |rows'| == |rows| == |offs|
    && (forall p, tr :: 0 <= p < |offs| ==> (tr in rows'[p] <==> tr in rows[p] || FollowTrans(t, offs, p, tr)))
    && (forall p :: 0 <= p < |offs| ==> |rows'[p]| <= |rows[p]| + Demand(t, p))
  }

  ghost predicate FollowTrans(t: Re, offs: seq<int>, p: int, tr: Trans) {
    exists e, q :: FollowVia(t, offs, p, tr, e, q)
  }

  ghost predicate FollowVia(t: Re, offs: seq<int>, p: int, tr: Trans, e: Entry, q: int) {
    Follow(t, e, q) && 0 <= q < |offs| && e.pos == p && tr == TransOf(e, q, offs)
  }

  ghost predicate Fits(t: Re, n: int) { forall p :: p in Positions(t) ==> 0 <= p < n }

  lemma FitsParts(t: Re, n: int)
    requires Fits(t, n)
    ensures t.Cat? || t.Alt? ==> Fits(t.left, n) && Fits(t.right, n)
    ensures t.Iter? ==> Fits(t.arg, n)
  {
    match t
    case Eps =>
    case Lit(_, _, _) =>
    case Cat(l, r) => assert Positions(t) == Positions(l) + Positions(r);
    case Alt(l, r) => assert Positions(t) == Positions(l) + Positions(r);
    case Iter(a, _, _) => assert Positions(t) == Positions(a);
  }

  lemma FitsEntries(t: Re, n: int)
    requires Fits(t, n)
    ensures InRange(First(t), n) && InRange(Last(t), n)
  {
    forall e ensures e in First(t) || e in Last(t) ==> e.pos in Positions(t) { EntriesArePositions(t, e); }
  }

  lemma FollowOfCat(l: Re, r: Re, offs: seq<int>, p: int, tr: Trans)
    requires Fits(Cat(l, r), |offs|) && InRange(First(r), |offs|)
    ensures FollowTrans(Cat(l, r), offs, p, tr) <==>
      Drawn(Last(l), First(r), offs, p, tr) || FollowTrans(l, offs, p, tr) || FollowTrans(r, offs, p, tr)
  {
    var t := Cat(l, r);
    if FollowTrans(t, offs, p, tr) {
      var e, q :| FollowVia(t, offs, p, tr, e, q);
      if Follow(l, e, q) { assert FollowVia(l, offs, p, tr, e, q); return; }
      if Follow(r, e, q) { assert FollowVia(r, offs, p, tr, e, q); return; }
      var f :| f in First(r) && f.pos == q;
      assert Drawn(Last(l), First(r), offs, p, tr);
      return;
    }
    if FollowTrans(l, offs, p, tr) {
      var e, q :| FollowVia(l, offs, p, tr, e, q);
      assert FollowVia(t, offs, p, tr, e, q);
    }
    if FollowTrans(r, offs, p, tr) {
      var e, q :| FollowVia(r, offs, p, tr, e, q);
      assert FollowVia(t, offs, p, tr, e, q);
    }
    if Drawn(Last(l), First(r), offs, p, tr) {
      var e, f :| e in Last(l) && f in First(r) && e.pos == p && tr == TransOf(e, f.pos, offs);
      assert Starts(r, f.pos);
      assert FollowVia(t, offs, p, tr, e, f.pos);
    }
  }

  lemma FollowOfAlt(l: Re, r: Re, offs: seq<int>, p: int, tr: Trans)
    ensures FollowTrans(Alt(l, r), offs, p, tr) <==> FollowTrans(l, offs, p, tr) || FollowTrans(r, offs, p, tr)
  {
    var t := Alt(l, r);
    if FollowTrans(t, offs, p, tr) {
      var e, q :| FollowVia(t, offs, p, tr, e, q);
      assert FollowVia(l, offs, p, tr, e, q) || FollowVia(r, offs, p, tr, e, q);
    }
    if FollowTrans(l, offs, p, tr) {
      var e, q :| FollowVia(l, offs, p, tr, e, q);
      assert FollowVia(t, offs, p, tr, e, q);
    }
    if FollowTrans(r, offs, p, tr) {
      var e, q :| FollowVia(r, offs, p, tr, e, q);
      assert FollowVia(t, offs, p, tr, e, q);
    }
  }

  lemma FollowOfIter(a: Re, min: int, max: int, offs: seq<int>, p: int, tr: Trans)
    requires InRange(First(a), |offs|)
    ensures FollowTrans(Iter(a, min, max), offs, p, tr) <==>
      (max == UNBOUNDED && Drawn(Last(a), First(a), offs, p, tr)) || FollowTrans(a, offs, p, tr)
  {
    var t := Iter(a, min, max);
    if FollowTrans(t, offs, p, tr) {
      var e, q :| FollowVia(t, offs, p, tr, e, q);
      if Follow(a, e, q) { assert FollowVia(a, offs, p, tr, e, q); return; }
      var f :| f in First(a) && f.pos == q;
      assert Drawn(Last(a), First(a), offs, p, tr);
      return;
    }
    if FollowTrans(a, offs, p, tr) {
      var e, q :| FollowVia(a, offs, p, tr, e, q);
      assert FollowVia(t, offs, p, tr, e, q);
    }
    if max == UNBOUNDED && Drawn(Last(a), First(a), offs, p, tr) {
      var e, f :| e in Last(a) && f in First(a) && e.pos == p && tr == TransOf(e, f.pos, offs);
      assert Starts(a, f.pos);
      assert FollowVia(t, offs, p, tr, e, f.pos);
    }
  }

  lemma FilledCat(l: Re, r: Re, offs: seq<int>, rows: Rows, rows1: Rows, rows2: Rows, rows3: Rows)
    requires Fits(Cat(l, r), |offs|) && InRange(First(r), |offs|)
    requires Added(rows, rows1, Last(l), First(r), offs) && Filled(rows1, rows2, l, offs)
             && Filled(rows2, rows3, r, offs)
    ensures Filled(rows, rows3, Cat(l, r), offs)
  {
    forall p, tr ensures FollowTrans(Cat(l, r), offs, p, tr) <==>
      Drawn(Last(l), First(r), offs, p, tr) || FollowTrans(l, offs, p, tr) || FollowTrans(r, offs, p, tr)
    {
      FollowOfCat(l, r, offs, p, tr);
    }
  }

  lemma FilledAlt(l: Re, r: Re, offs: seq<int>, rows: Rows, rows1: Rows, rows2: Rows)
    requires Filled(rows, rows1, l, offs) && Filled(rows1, rows2, r, offs)
    ensures Filled(rows, rows2, Alt(l, r), offs)
  {
    forall p, tr ensures FollowTrans(Alt(l, r), offs, p, tr) <==>
      FollowTrans(l, offs, p, tr) || FollowTrans(r, offs, p, tr) {
      FollowOfAlt(l, r, offs, p, tr);
    }
  }

  lemma FilledIter(a: Re, min: int, max: int, offs: seq<int>, rows: Rows, rows1: Rows, rows2: Rows)
    requires InRange(First(a), |offs|) && Filled(rows1, rows2, a, offs)
    requires if max == UNBOUNDED then Added(rows, rows1, Last(a), First(a), offs) else rows1 == rows
    ensures Filled(rows, rows2, Iter(a, min, max), offs)
  {
    forall p, tr ensures FollowTrans(Iter(a, min, max), offs, p, tr) <==>
      (max == UNBOUNDED && Drawn(Last(a), First(a), offs, p, tr)) || FollowTrans(a, offs, p, tr)
    {
      FollowOfIter(a, min, max, offs, p, tr);
    }
  }

  // ---------- the code ----------

  /** tre_make_trans with a table: adds a transition from each position in p1 to each
      position in p2. */
  method MakeTrans(p1: seq<Entry>, p2: seq<Entry>, transitions: array<Trans>, offs: array<int>, ghost caps: seq<nat>,
                   ghost rows: Rows)
      returns (ghost rows': Rows)
    requires TableIs(transitions[..], offs[..], caps, rows)
    requires InRange(p1, offs.Length) && InRange(p2, offs.Length)
    requires forall p :: 0 <= p < offs.Length ==> |rows[p]| + PairDemand(p1, |p2|, p) <= caps[p]
    modifies transitions
    ensures TableIs(transitions[..], offs[..], caps, rows')
    ensures Added(rows, rows', p1, p2, offs[..])
  {
    rows' := rows;
    var i := 0;
    while i < |p1|
      invariant 0 <= i <= |p1| && TableIs(transitions[..], offs[..], caps, rows')
      invariant Added(rows, rows', p1[..i], p2, offs[..])
    {
      PairDemandGrows(p1, i + 1, |p2|, p1[i].pos);
      assert p1[..i + 1][..i] == p1[..i];
      ghost var rows1 := rows';
      rows' := MakeTransFrom(p1[i], p2, transitions, offs, caps, rows');
      AddedNext(rows, rows1, rows', p1, i, p2, offs[..]);
      i := i + 1;
    }
    assert p1[..i] == p1;
  }

  /** tre_make_trans without a table: computes a maximum limit for the number of transitions
      leaving from each state. */
  method CountTrans(p1: seq<Entry>, p2: seq<Entry>, counts: array<int>)
    requires InRange(p1, counts.Length)
    modifies counts
    ensures forall p :: 0 <= p < counts.Length ==> counts[p] == old(counts[p]) + PairDemand(p1, |p2|, p)
  {
    var i := 0;
    while i < |p1|
      invariant 0 <= i <= |p1|
      invariant forall p :: 0 <= p < counts.Length ==> counts[p] == old(counts[p]) + PairDemand(p1[..i], |p2|, p)
    {
      assert p1[..i + 1][..i] == p1[..i];
      var from := p1[i].pos;
      ghost var before := counts[..];
      var j := 0;
      while j < |p2|
        invariant 0 <= j <= |p2|
        invariant counts[..] == before[from := before[from] + j]
      {
        counts[from] := counts[from] + 1;
        j := j + 1;
      }
      i := i + 1;
    }
    assert p1[..i] == p1;
  }

  /** tre_ast_to_tnfa without a table. */
  method CountAst(mem: Arena, node: Ptr, counts: array<int>, ghost t: Re)
    requires Tree(mem.nodes, node, t) && Labelled(mem.nodes, node, t) && Fits(t, counts.Length)
    modifies counts
    ensures forall p :: 0 <= p < counts.Length ==> counts[p] == old(counts[p]) + Demand(t, p)
    decreases t
  {
    FitsParts(t, counts.Length);
    match mem.nodes[node].obj
    case Literal(_, _, _) =>
    case Union(left, right) =>
      CountAst(mem, left, counts, t.left);
      CountAst(mem, right, counts, t.right);
    case Catenation(left, right) =>
      ChildLabels(mem.nodes, node, t);
      FitsEntries(t.left, counts.Length);
      CountTrans(mem.nodes[left].lastpos, mem.nodes[right].firstpos, counts);
      CountAst(mem, left, counts, t.left);
      CountAst(mem, right, counts, t.right);
    case Iteration(arg, _, max) =>
      ChildLabels(mem.nodes, node, t);
      FitsEntries(t.arg, counts.Length);
      if max == UNBOUNDED {
        CountTrans(mem.nodes[arg].lastpos, mem.nodes[arg].firstpos, counts);
      }
      CountAst(mem, arg, counts, t.arg);
  }

  ghost predicate Room(t: Re, rows: Rows, caps: seq<nat>) {
    |rows| == |caps| && forall p :: 0 <= p < |caps| ==> |rows[p]| + Demand(t, p) <= caps[p]
  }

  /** tre_ast_to_tnfa with a table: converts the syntax tree to a TNFA. */
  method AstToTnfa(mem: Arena, node: Ptr, transitions: array<Trans>, offs: array<int>,
                   ghost caps: seq<nat>, ghost rows: Rows, ghost t: Re)
      returns (ghost rows': Rows)
    requires Tree(mem.nodes, node, t) && Labelled(mem.nodes, node, t) && Fits(t, offs.Length)
    requires TableIs(transitions[..], offs[..], caps, rows) && Room(t, rows, caps)
    modifies transitions
    ensures TableIs(transitions[..], offs[..], caps, rows')
    ensures Filled(rows, rows', t, offs[..])
    decreases t
  {
    FitsParts(t, offs.Length);
    match mem.nodes[node].obj
    case Literal(_, _, _) =>
      rows' := rows;
      return;
    case Union(left, right) =>
      var rows1 := AstToTnfa(mem, left, transitions, offs, caps, rows, t.left);
      rows' := AstToTnfa(mem, right, transitions, offs, caps, rows1, t.right);
      FilledAlt(t.left, t.right, offs[..], rows, rows1, rows');
      return;
    case Catenation(left, right) =>
      ChildLabels(mem.nodes, node, t);
      FitsEntries(t.left, offs.Length);
      FitsEntries(t.right, offs.Length);
      var rows1 := MakeTrans(mem.nodes[left].lastpos, mem.nodes[right].firstpos, transitions, offs, caps, rows);
      var rows2 := AstToTnfa(mem, left, transitions, offs, caps, rows1, t.left);
      rows' := AstToTnfa(mem, right, transitions, offs, caps, rows2, t.right);
      FilledCat(t.left, t.right, offs[..], rows, rows1, rows2, rows');
      return;
    case Iteration(arg, min, max) =>
      ChildLabels(mem.nodes, node, t);
      FitsEntries(t.arg, offs.Length);
      ghost var rows1 := rows;
      if max == UNBOUNDED {
        rows1 := MakeTrans(mem.nodes[arg].lastpos, mem.nodes[arg].firstpos, transitions, offs, caps, rows);
      }
      rows' := AstToTnfa(mem, arg, transitions, offs, caps, rows1, t.arg);
      FilledIter(t.arg, min, max, offs[..], rows, rows1, rows');
      return;
  }
}
