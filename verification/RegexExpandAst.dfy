/** tre_expand_ast: rewriting iterations in place, with an explicit stack. */
module RegexExpandAst {
  import opened RegexSyntax
  import opened RegexExpand
  import opened RegexAst
  import opened RegexCopy

  // ---------- the nodes the copies of one iteration occupy ----------

  datatype Built = Built(h: Heap, root: Ptr)

  function Extend(h: Heap, obj: Obj): Built { Built(h + [NewNode(obj)], |h|) }

  ghost function CopyOf(h: Heap, a: Re, add: int): Built { Built(h + Layout(|h|, Shift(a, add)), |h|) }

  ghost function CopiesBuilt(h: Heap, a: Re, add: int, n: nat): Built
    requires n >= 1
  {
    if n == 1 then CopyOf(h, a, add)
    else
      var init := CopiesBuilt(h, a, add, n - 1);
      var last := CopyOf(init.h, a, Offset(add, n - 1, a));
      Extend(last.h, Catenation(init.root, last.root))
  }

  /** An alternative between nothing and the tree at p. */
  ghost function MaybeBuilt(h: Heap, p: Ptr): Built {
    var e := Extend(h, Literal(EMPTY, -1, -1));
    Extend(e.h, Union(e.root, p))
  }

  ghost function OptionalBuilt(h: Heap, a: Re, add: int, n: nat): Built
    requires n >= 1
  {
    if n == 1 then
      var copy := CopyOf(h, a, add);
      MaybeBuilt(copy.h, copy.root)
    else
      var inner := OptionalBuilt(h, a, add, n - 1);
      var copy := CopyOf(inner.h, a, Offset(add, n - 1, a));
      var cat := Extend(copy.h, Catenation(copy.root, inner.root));
      MaybeBuilt(cat.h, cat.root)
  }

  ghost function TailBuilt(h: Heap, a: Re, add: int, min: int, max: int): Built
    requires Counts(min, max) && Expands(min, max) && (max == UNBOUNDED || min < max)
  {
    if max == UNBOUNDED then
      var copy := CopyOf(h, a, add);
      Extend(copy.h, Iteration(copy.root, 0, UNBOUNDED))
    else OptionalBuilt(h, a, add, max - min)
  }

  ghost function RepeatBuilt(h: Heap, a: Re, add: int, min: int, max: int): Built
    requires Counts(min, max) && Expands(min, max)
  {
    var tailAdd := Offset(add, min, a);
    if min == 0 then TailBuilt(h, a, tailAdd, min, max)
    else
      var front := CopiesBuilt(h, a, add, min);
      if min == max then front
      else
        var tail := TailBuilt(front.h, a, tailAdd, min, max);
        Extend(tail.h, Catenation(front.root, tail.root))
  }

  // ---------- they form the tree Repeat ----------

  /** b extends h by nodes that form t. */
  ghost predicate Grows(h: Heap, b: Built, t: Re) {
    && h <= b.h
    && Tree(b.h, b.root, t) && Unshared(b.h, b.root, t) && Within(Foot(b.h, b.root, t), |h|, |b.h|)
  }

  lemma PrefixFrame(h: Heap, k: Heap, p: Ptr, t: Re)
    requires h <= k && Tree(h, p, t)
    ensures Tree(k, p, t) && Foot(k, p, t) == Foot(h, p, t)
    ensures Unshared(h, p, t) ==> Unshared(k, p, t)
  {
    TreeFrame(h, k, p, t);
  }

  lemma CopyGrows(h: Heap, a: Re, add: int)
    requires Proper(a)
    ensures Grows(h, CopyOf(h, a, add), Shift(a, add))
  {
    hide Layout, Shift, Proper, Tree, Unshared, Foot, Size;
    ShiftIsProper(a, add);
    var b := CopyOf(h, a, add);
    assert b.h == h + Layout(|h|, Shift(a, add)) + [];
    LayoutIsTree(b.h, |h|, h, Shift(a, add), []);
  }

  lemma {:induction false} ShiftIsProper(t: Re, d: int)
    requires Proper(t)
    ensures Proper(Shift(t, d))
  {
    match t
    case Eps =>
    case Lit(_, _, _) =>
    case Cat(l, r) => ShiftIsProper(l, d); ShiftIsProper(r, d);
    case Alt(l, r) => ShiftIsProper(l, d); ShiftIsProper(r, d);
    case Iter(a, _, _) => ShiftIsProper(a, d);
  }

  /** Two trees grown one after the other, under a new root. */
  lemma PairGrows(h: Heap, x: Built, t: Re, y: Built, u: Re, obj: Obj, w: Re)
    requires Grows(h, x, t) && Grows(x.h, y, u)
    requires || (obj == Catenation(x.root, y.root) && w == Cat(t, u))
             || (obj == Catenation(y.root, x.root) && w == Cat(u, t))
             || (obj == Union(x.root, y.root) && w == Alt(t, u))
    ensures Grows(h, Extend(y.h, obj), w)
  {
    var k, p := Extend(y.h, obj).h, |y.h|;
    PrefixFrame(x.h, y.h, x.root, t);
    PrefixFrame(y.h, k, x.root, t);
    PrefixFrame(y.h, k, y.root, u);
    Separated(Foot(k, x.root, t), Foot(k, y.root, u), |h|, |x.h|, |y.h|);
    if obj == Catenation(y.root, x.root) && w == Cat(u, t) {
      JoinNodes(k, p, w, y.root, u, x.root, t);
    } else {
      JoinNodes(k, p, w, x.root, t, y.root, u);
    }
  }

  lemma {:induction false} CopiesGrow(h: Heap, a: Re, add: int, n: nat)
    requires Proper(a) && n >= 1
    ensures Grows(h, CopiesBuilt(h, a, add, n), Copies(a, add, n))
    decreases n
  {
    if n == 1 {
      CopyGrows(h, a, add);
      return;
    }
    var init := CopiesBuilt(h, a, add, n - 1);
    var lastAdd := Offset(add, n - 1, a);
    var last := CopyOf(init.h, a, lastAdd);
    CopiesGrow(h, a, add, n - 1);
    CopyGrows(init.h, a, lastAdd);
    var obj, w := Catenation(init.root, last.root), Cat(Copies(a, add, n - 1), Shift(a, lastAdd));
    PairGrows(h, init, Copies(a, add, n - 1), last, Shift(a, lastAdd), obj, w);
    assert CopiesBuilt(h, a, add, n) == Extend(last.h, obj) && Copies(a, add, n) == w;
  }

  lemma MaybeGrows(h: Heap, x: Built, t: Re)
    requires Grows(h, x, t)
    ensures Grows(h, MaybeBuilt(x.h, x.root), Alt(Eps, t))
  {
    var e := Extend(x.h, Literal(EMPTY, -1, -1));
    var u := Extend(e.h, Union(e.root, x.root));
    PrefixFrame(x.h, u.h, x.root, t);
    assert Tree(u.h, e.root, Eps) && Foot(u.h, e.root, Eps) == {e.root};
    JoinNodes(u.h, u.root, Alt(Eps, t), e.root, Eps, x.root, t);
  }

  lemma {:induction false} OptionalGrows(h: Heap, a: Re, add: int, n: nat)
    requires Proper(a) && n >= 1
    ensures Grows(h, OptionalBuilt(h, a, add, n), Optional(a, add, n))
    decreases n
  {
    var lastAdd := Offset(add, n - 1, a);
    if n == 1 {
      CopyGrows(h, a, lastAdd);
      MaybeGrows(h, CopyOf(h, a, lastAdd), Shift(a, lastAdd));
      return;
    }
    var inner := OptionalBuilt(h, a, add, n - 1);
    var copy := CopyOf(inner.h, a, lastAdd);
    var cat := Extend(copy.h, Catenation(copy.root, inner.root));
    OptionalGrows(h, a, add, n - 1);
    CopyGrows(inner.h, a, lastAdd);
    var both := Cat(Shift(a, lastAdd), Optional(a, add, n - 1));
    PairGrows(h, inner, Optional(a, add, n - 1), copy, Shift(a, lastAdd), Catenation(copy.root, inner.root), both);
    MaybeGrows(h, cat, both);
  }

  function TailTree(a: Re, add: int, min: int, max: int): Re
    requires Counts(min, max) && Expands(min, max) && (max == UNBOUNDED || min < max)
  {
    if max == UNBOUNDED then Iter(Shift(a, add), 0, UNBOUNDED) else Optional(a, add, max - min)
  }

  lemma TailGrows(h: Heap, a: Re, add: int, min: int, max: int)
    requires Proper(a) && Counts(min, max) && Expands(min, max) && (max == UNBOUNDED || min < max)
    ensures Grows(h, TailBuilt(h, a, add, min, max), TailTree(a, add, min, max))
  {
    if max == UNBOUNDED {
      var copy := CopyOf(h, a, add);
      var b := Extend(copy.h, Iteration(copy.root, 0, UNBOUNDED));
      CopyGrows(h, a, add);
      PrefixFrame(copy.h, b.h, copy.root, Shift(a, add));
      return;
    }
    OptionalGrows(h, a, add, max - min);
  }

  /** The new nodes of an expanded iteration form the tree Repeat. */
  lemma RepeatGrows(h: Heap, a: Re, add: int, min: int, max: int)
    requires Proper(a) && Counts(min, max) && Expands(min, max)
    ensures Grows(h, RepeatBuilt(h, a, add, min, max), Repeat(a, add, min, max))
  {
    var tailAdd := Offset(add, min, a);
    if min == 0 {
      TailGrows(h, a, tailAdd, min, max);
      return;
    }
    if min == max {
      CopiesGrow(h, a, add, min);
      return;
    }
    FrontAndTailGrow(h, a, add, tailAdd, min, max);
  }

  lemma FrontAndTailGrow(h: Heap, a: Re, add: int, tailAdd: int, min: int, max: int)
    requires Proper(a) && Counts(min, max) && Expands(min, max) && 0 < min && (max == UNBOUNDED || min < max)
    ensures var front := CopiesBuilt(h, a, add, min);
            var tail := TailBuilt(front.h, a, tailAdd, min, max);
            Grows(h, Extend(tail.h, Catenation(front.root, tail.root)),
                  Cat(Copies(a, add, min), TailTree(a, tailAdd, min, max)))
  {
    var front := CopiesBuilt(h, a, add, min);
    var tail := TailBuilt(front.h, a, tailAdd, min, max);
    CopiesGrow(h, a, add, min);
    TailGrows(front.h, a, tailAdd, min, max);
    PairGrows(h, front, Copies(a, add, min), tail, TailTree(a, tailAdd, min, max),
              Catenation(front.root, tail.root), Cat(Copies(a, add, min), TailTree(a, tailAdd, min, max)));
  }

  // ---------- the whole walk, as a function on the arena ----------

  function LeftChild(h: Heap, p: Ptr): Ptr {
    if !IsPtr(h, p) then NULL
    else match h[p].obj
      case Catenation(l, _) => l
      case Union(l, _) => l
      case _ => NULL
  }

  function RightChild(h: Heap, p: Ptr): Ptr {
    if !IsPtr(h, p) then NULL
    else match h[p].obj
      case Catenation(_, r) => r
      case Union(_, r) => r
      case _ => NULL
  }

  function Arg(h: Heap, p: Ptr): Ptr { if IsPtr(h, p) && h[p].obj.Iteration? then h[p].obj.arg else NULL }

  /** node->obj = seq1->obj; node->type = seq1->type */
  ghost function AfterHeap(h: Heap, p: Ptr, a: Re, min: int, max: int, saved: int): Heap
    requires Counts(min, max)
  {
    if !Expands(min, max) then h
    else
      var b := RepeatBuilt(h, a, saved, min, max);
      if IsPtr(b.h, b.root) then SetObj(b.h, p, b.h[b.root].obj) else b.h
  }

  ghost function ExpandHeap(h: Heap, p: Ptr, t: Re, c: Counters): Heap
    requires WellCounted(t)
    decreases t
  {
    match t
    case Eps => h
    case Lit(lo, hi, pos) => SetObj(h, p, Literal(lo, hi, pos + c.add))
    case Cat(l, r) => ExpandHeap(ExpandHeap(h, LeftChild(h, p), l, c), RightChild(h, p), r, Expand(l, c).1)
    case Alt(l, r) => ExpandHeap(ExpandHeap(h, LeftChild(h, p), l, c), RightChild(h, p), r, Expand(l, c).1)
    case Iter(a, min, max) =>
      var c1 := EnterIter(min, max, c);
      AfterHeap(ExpandHeap(h, Arg(h, p), a, c1), p, Expand(a, c1).0, min, max, c.add)
  }

  /** k differs from h only at S and in new nodes. */
  ghost predicate Touches(h: Heap, k: Heap, S: set<Ptr>) {
    |h| <= |k| && forall q :: IsPtr(h, q) && q !in S ==> k[q] == h[q]
  }

  /** At p stands the tree t, made of the nodes S and new ones. */
  ghost predicate Becomes(h: Heap, k: Heap, p: Ptr, t: Re, S: set<Ptr>) {
    && Touches(h, k, S)
    && Tree(k, p, t) && Unshared(k, p, t)
    && forall q :: q in Foot(k, p, t) ==> q in S || |h| <= q
  }

  /** Giving p the object of q makes p another root of the same tree. */
  lemma MoveRoot(h: Heap, k: Heap, p: Ptr, q: Ptr, t: Re)
    requires Tree(h, q, t) && Unshared(h, q, t) && p !in Foot(h, q, t)
    requires IsPtr(k, p) && k[p].obj == h[q].obj && AgreeOn(h, k, Foot(h, q, t))
    ensures Tree(k, p, t) && Unshared(k, p, t) && Foot(k, p, t) <= {p} + Foot(h, q, t)
  {
    if t.Cat? || t.Alt? {
      var l, r := t.left, t.right;
      var pl, pr := LeftChild(h, q), RightChild(h, q);
      TreeFrame(h, k, pl, l);
      TreeFrame(h, k, pr, r);
      JoinNodes(k, p, t, pl, l, pr, r);
      return;
    }
    if t.Iter? {
      TreeFrame(h, k, Arg(h, q), t.arg);
      return;
    }
  }

  lemma DisjointFeet(F: set<Ptr>, G: set<Ptr>, L: set<Ptr>, R: set<Ptr>, n0: int, n1: int)
    requires forall q :: q in F ==> (q in L || n0 <= q) && q < n1
    requires forall q :: q in G ==> q in R || n1 <= q
    requires L !! R && forall q :: q in R ==> q < n0
    ensures F !! G
  {
    forall q | q in F && q in G ensures false { }
  }

  lemma PairBecomes(h: Heap, h1: Heap, h2: Heap, p: Ptr, t: Re, u: Re, l: Re, r: Re)
    requires (t.Cat? && u == Cat(l, r)) || (t.Alt? && u == Alt(l, r))
    requires Tree(h, p, t) && Unshared(h, p, t)
    requires Becomes(h, h1, LeftChild(h, p), l, Foot(h, LeftChild(h, p), t.left))
    requires Becomes(h1, h2, RightChild(h, p), r, Foot(h, RightChild(h, p), t.right))
    ensures Becomes(h, h2, p, u, Foot(h, p, t))
  {
    var pl, pr := LeftChild(h, p), RightChild(h, p);
    var L, R := Foot(h, pl, t.left), Foot(h, pr, t.right);
    FootIsAllocated(h, pl, t.left);
    FootIsAllocated(h, pr, t.right);
    FootIsAllocated(h1, pl, l);
    DisjointFeet(Foot(h1, pl, l), Foot(h2, pr, r), L, R, |h|, |h1|);
    assert forall q :: q in Foot(h1, pl, l) ==> q !in R;
    TreeFrame(h1, h2, pl, l);
    assert h2[p] == h1[p] == h[p];
    JoinNodes(h2, p, u, pl, l, pr, r);
  }

  lemma IterBecomes(h: Heap, h1: Heap, p: Ptr, t: Re, a: Re, c: Counters, c1: Counters)
    requires t.Iter? && Counts(t.min, t.max) && Tree(h, p, t) && Unshared(h, p, t) && Proper(a) && c1.depth > 0
    requires Becomes(h, h1, Arg(h, p), a, Foot(h, Arg(h, p), t.arg))
    ensures Becomes(h, AfterHeap(h1, p, a, t.min, t.max, c.add), p, AfterIter(a, t.min, t.max, c.add, c1).0,
                    Foot(h, p, t))
  {
    var F := Foot(h, Arg(h, p), t.arg);
    assert h1[p] == h[p];
    if !Expands(t.min, t.max) { return; }
    RepeatGrows(h1, a, c.add, t.min, t.max);
    NewContentBecomes(h, h1, RepeatBuilt(h1, a, c.add, t.min, t.max), p, Repeat(a, c.add, t.min, t.max), Foot(h, p, t));
  }

  lemma NewContentBecomes(h: Heap, h1: Heap, b: Built, p: Ptr, w: Re, S: set<Ptr>)
    requires IsPtr(h, p) && p in S && Touches(h, h1, S) && Grows(h1, b, w)
    ensures Becomes(h, SetObj(b.h, p, b.h[b.root].obj), p, w, S)
  {
    MoveRoot(b.h, SetObj(b.h, p, b.h[b.root].obj), p, b.root, w);
  }

  lemma {:induction false} ExpandIsProper(t: Re, c: Counters)
    requires WellCounted(t) && Proper(t)
    ensures Proper(Expand(t, c).0)
  {
    match t
    case Eps =>
    case Lit(_, _, _) =>
    case Cat(l, r) => ExpandIsProper(l, c); ExpandIsProper(r, Expand(l, c).1);
    case Alt(l, r) => ExpandIsProper(l, c); ExpandIsProper(r, Expand(l, c).1);
    case Iter(a, min, max) =>
      ExpandIsProper(a, EnterIter(min, max, c));
      if Expands(min, max) { RepeatIsProper(Expand(a, EnterIter(min, max, c)).0, c.add, min, max); }
  }

  lemma RepeatIsProper(a: Re, add: int, min: int, max: int)
    requires Proper(a) && Counts(min, max) && Expands(min, max)
    ensures Proper(Repeat(a, add, min, max))
  {
    var tailAdd := Offset(add, min, a);
    ShiftIsProper(a, tailAdd);
    if min > 0 { CopiesAreProper(a, add, min); }
    if max > min { CopiesAreProper(a, tailAdd, max - min); }
  }

  lemma {:induction false} CopiesAreProper(a: Re, add: int, n: nat)
    requires Proper(a) && n >= 1
    ensures Proper(Copies(a, add, n)) && Proper(Optional(a, add, n))
    decreases n
  {
    ShiftIsProper(a, add);
    ShiftIsProper(a, Offset(add, n - 1, a));
    if n > 1 { CopiesAreProper(a, add, n - 1); }
  }

  /** The walk leaves the expanded tree at p, touching only the nodes that were there. */
  lemma {:induction false} ExpandBecomes(h: Heap, p: Ptr, t: Re, c: Counters)
    requires Tree(h, p, t) && Unshared(h, p, t) && WellCounted(t) && Proper(t)
    ensures Becomes(h, ExpandHeap(h, p, t, c), p, Expand(t, c).0, Foot(h, p, t))
    decreases t
  {
    if t.Cat? || t.Alt? {
      var pl, pr, l, r := LeftChild(h, p), RightChild(h, p), t.left, t.right;
      var h1, c1 := ExpandHeap(h, pl, l, c), Expand(l, c).1;
      ExpandBecomes(h, pl, l, c);
      TreeFrame(h, h1, pr, r);
      ExpandBecomes(h1, pr, r, c1);
      PairBecomes(h, h1, ExpandHeap(h1, pr, r, c1), p, t, Expand(t, c).0, Expand(l, c).0, Expand(r, c1).0);
      return;
    }
    if t.Iter? {
      var c1 := EnterIter(t.min, t.max, c);
      ExpandBecomes(h, Arg(h, p), t.arg, c1);
      ExpandIsProper(t.arg, c1);
      IterBecomes(h, ExpandHeap(h, Arg(h, p), t.arg, c1), p, t, Expand(t.arg, c1).0, c, Expand(t.arg, c1).1);
      return;
    }
  }

  // ---------- what remains to be done, as a list ----------

  datatype Item = ExpandRecurse(node: Ptr) | ExpandAfterIter(node: Ptr, posAdd: int)

  /** Expand the tree t at p, or finish the iteration at p whose argument has become a. */
  datatype Task = DoNode(p: Ptr, t: Re) | DoAfter(p: Ptr, a: Re, min: int, max: int, saved: int)

  ghost predicate CanRun(h: Heap, c: Counters, task: Task) {
    match task
    case DoNode(p, t) => Tree(h, p, t) && Unshared(h, p, t) && WellCounted(t) && Proper(t)
    case DoAfter(p, a, min, max, _) =>
      && IsPtr(h, p) && h[p].obj.Iteration? && h[p].obj.min == min && h[p].obj.max == max
      && Tree(h, h[p].obj.arg, a) && Proper(a) && Counts(min, max) && c.depth > 0
  }

  datatype State = State(h: Heap, c: Counters)

  ghost function RunTask(h: Heap, c: Counters, task: Task): State
    requires CanRun(h, c, task)
  {
    match task
    case DoNode(p, t) => State(ExpandHeap(h, p, t, c), Expand(t, c).1)
    case DoAfter(p, a, min, max, saved) => State(AfterHeap(h, p, a, min, max, saved),
                                                 AfterIter(a, min, max, saved, c).1)
  }

  /** Every task will find the nodes it expects when its turn comes. */
  ghost predicate Ready(h: Heap, c: Counters, tasks: seq<Task>)
    decreases |tasks|
  {
    tasks == [] ||
    (CanRun(h, c, tasks[0]) &&
     var s := RunTask(h, c, tasks[0]);
     Ready(s.h, s.c, tasks[1..]))
  }

  ghost function Finish(h: Heap, c: Counters, tasks: seq<Task>): State
    requires Ready(h, c, tasks)
    decreases |tasks|
  {
    if tasks == [] then State(h, c)
    else
      var s := RunTask(h, c, tasks[0]);
      Finish(s.h, s.c, tasks[1..])
  }

  ghost function Work(tasks: seq<Task>): nat {
    if tasks == [] then 0 else (if tasks[0].DoNode? then 2 * Size(tasks[0].t) else 1) + Work(tasks[1..])
  }

  ghost function Encode(tasks: seq<Task>): seq<Item> {
    if tasks == [] then []
    else Encode(tasks[1..]) +
         [if tasks[0].DoNode? then ExpandRecurse(tasks[0].p) else ExpandAfterIter(tasks[0].p, tasks[0].saved)]
  }

  lemma TopTask(stack: seq<Item>, tasks: seq<Task>)
    requires stack == Encode(tasks) && stack != []
    ensures tasks != [] && stack[..|stack| - 1] == Encode(tasks[1..])
    ensures stack[|stack| - 1] == if tasks[0].DoNode? then ExpandRecurse(tasks[0].p)
      else ExpandAfterIter(tasks[0].p, tasks[0].saved)
  {
  }

  lemma TwoTasks(x: Task, y: Task, rest: seq<Task>)
    ensures var two := [x, y] + rest; two[1..] == [y] + rest && two[1..][1..] == rest
  {
  }

  /** The node of a task is of the kind of the task's tree. */
  lemma NodeOfTask(h: Heap, c: Counters, tasks: seq<Task>)
    requires Ready(h, c, tasks) && tasks != [] && tasks[0].DoNode?
    ensures 0 <= tasks[0].p < |h| && WellCounted(tasks[0].t)
    ensures match h[tasks[0].p].obj
            case Literal(_, _, _) => tasks[0].t.Eps? || tasks[0].t.Lit?
            case Iteration(arg, min, max) => tasks[0].t.Iter? && tasks[0].t.min == min && tasks[0].t.max == max
            && arg == Arg(h, tasks[0].p)
            case _ => tasks[0].t.Cat? || tasks[0].t.Alt?
  {
  }

  lemma LeafTask(h: Heap, c: Counters, tasks: seq<Task>)
    requires Ready(h, c, tasks) && tasks != [] && tasks[0].DoNode? && (tasks[0].t.Eps? || tasks[0].t.Lit?)
             && 0 <= c.maxPos
    requires 0 <= tasks[0].p < |h| && h[tasks[0].p].obj.Literal?
    ensures var node := h[tasks[0].p].obj;
            var at := node.position + c.add;
            var h' := if node.codeMin >= 0 then SetObj(h, tasks[0].p, Literal(node.codeMin, node.codeMax, at)) else h;
            var c' := if node.codeMin >= 0 then c.(maxPos := if at > c.maxPos then at else c.maxPos) else c;
            Ready(h', c', tasks[1..]) && Finish(h', c', tasks[1..]) == Finish(h, c, tasks) && 0 <= c'.maxPos
            && Work(tasks[1..]) < Work(tasks)
  {
  }

  lemma PairTasks(h: Heap, c: Counters, tasks: seq<Task>, pl: Ptr, pr: Ptr)
    requires Ready(h, c, tasks) && tasks != [] && tasks[0].DoNode? && (tasks[0].t.Cat? || tasks[0].t.Alt?)
    requires pl == LeftChild(h, tasks[0].p) && pr == RightChild(h, tasks[0].p)
    ensures var t := tasks[0].t;
            var tasks' := [DoNode(pl, t.left), DoNode(pr, t.right)] + tasks[1..];
            Ready(h, c, tasks') && Finish(h, c, tasks') == Finish(h, c, tasks) && Work(tasks') < Work(tasks)
  {
    var t := tasks[0].t;
    var x, y := DoNode(pl, t.left), DoNode(pr, t.right);
    var tasks' := [x, y] + tasks[1..];
    TwoTasks(x, y, tasks[1..]);
    ExpandBecomes(h, pl, t.left, c);
    var s1 := RunTask(h, c, x);
    TreeFrame(h, s1.h, pr, t.right);
    var s2 := RunTask(s1.h, s1.c, y);
    assert s2 == RunTask(h, c, tasks[0]);
    assert Ready(s1.h, s1.c, tasks'[1..]);
    assert Finish(h, c, tasks') == Finish(s1.h, s1.c, tasks'[1..]) == Finish(s2.h, s2.c, tasks[1..]);
    assert Work(tasks') == 2 * Size(t.left) + Work(tasks'[1..]);
  }

  lemma IterTasks(h: Heap, c: Counters, tasks: seq<Task>, arg: Ptr)
    requires Ready(h, c, tasks) && tasks != [] && tasks[0].DoNode? && tasks[0].t.Iter? && arg == Arg(h, tasks[0].p)
    ensures var t := tasks[0].t;
            var c1 := EnterIter(t.min, t.max, c);
            var tasks' := [DoNode(arg, t.arg),
                           DoAfter(tasks[0].p, Expand(t.arg, c1).0, t.min, t.max, c.add)] + tasks[1..];
            Ready(h, c1, tasks') && Finish(h, c1, tasks') == Finish(h, c, tasks) && Work(tasks') < Work(tasks)
  {
    var t := tasks[0].t;
    var c1 := EnterIter(t.min, t.max, c);
    var x, y := DoNode(arg, t.arg), DoAfter(tasks[0].p, Expand(t.arg, c1).0, t.min, t.max, c.add);
    var tasks' := [x, y] + tasks[1..];
    TwoTasks(x, y, tasks[1..]);
    ExpandBecomes(h, arg, t.arg, c1);
    ExpandIsProper(t.arg, c1);
    var s1 := RunTask(h, c1, x);
    assert s1.h[tasks[0].p] == h[tasks[0].p];
    var s2 := RunTask(s1.h, s1.c, y);
    assert s2 == RunTask(h, c, tasks[0]);
    assert Ready(s1.h, s1.c, tasks'[1..]);
    assert Finish(h, c1, tasks') == Finish(s1.h, s1.c, tasks'[1..]) == Finish(s2.h, s2.c, tasks[1..]);
    assert Work(tasks') == 2 * Size(t.arg) + Work(tasks'[1..]);
  }

  // ---------- the code ----------

  /** One more copy behind the ones there are. */
  method AddCopy(mem: Arena, arg: Ptr, seq0: Ptr, posAdd0: int, maxPos0: int,
                 ghost a: Re, ghost h0: Heap, ghost add: int, ghost base: int, ghost j: nat)
      returns (seq1: Ptr, posAdd: int, maxPos: int)
    requires Tree(mem.nodes, arg, a) && 0 <= maxPos0 && posAdd0 == Offset(add, j, a)
    requires if j == 0 then seq0 == NULL && mem.nodes == h0 && maxPos0 == base
             else seq0 != NULL && Built(mem.nodes, seq0) == CopiesBuilt(h0, a, add, j)
                  && maxPos0 == Max(base, Highest(Copies(a, add, j)))
    modifies mem
    ensures seq1 != NULL && Built(mem.nodes, seq1) == CopiesBuilt(h0, a, add, j + 1) && old(mem.nodes) <= mem.nodes
    ensures posAdd == Offset(add, j + 1, a) && maxPos == Max(base, Highest(Copies(a, add, j + 1))) && 0 <= maxPos
  {
    hide Tree, Leaves, Shift, Layout;
    var copy: Ptr;
    copy, posAdd, maxPos := CopyAst(mem, arg, posAdd0, maxPos0, a);
    if seq0 != NULL {
      seq1 := mem.New(Catenation(seq0, copy));
    } else {
      seq1 := copy;
    }
  }

  /** Creates the catenated sequence of iter->min copies, or NULL when there is none. */
  method CopyMinimum(mem: Arena, arg: Ptr, min: nat, posAdd0: int, maxPos0: int, ghost a: Re)
      returns (seq1: Ptr, posAdd: int, posAddSave: int, maxPos: int)
    requires Tree(mem.nodes, arg, a) && 0 <= maxPos0
    modifies mem
    ensures if min == 0 then seq1 == NULL && mem.nodes == old(mem.nodes) && maxPos == maxPos0
            else Built(mem.nodes, seq1) == CopiesBuilt(old(mem.nodes), a, posAdd0, min)
                 && seq1 != NULL && maxPos == Max(maxPos0, Highest(Copies(a, posAdd0, min)))
    ensures old(mem.nodes) <= mem.nodes && 0 <= maxPos
    ensures posAdd == Offset(posAdd0, min, a)
    ensures posAddSave == if min == 0 then posAdd0 else Offset(posAdd0, min - 1, a)
  {
    hide Tree, Leaves, Shift, Highest, Copies, CopiesBuilt;
    ghost var h0 := mem.nodes;
    seq1, posAdd, posAddSave, maxPos := NULL, posAdd0, posAdd0, maxPos0;
    var j := 0;
    while j < min
      invariant 0 <= j <= min && h0 <= mem.nodes && 0 <= maxPos
      invariant j == 0 ==> seq1 == NULL && mem.nodes == h0 && posAdd == posAddSave == posAdd0 && maxPos == maxPos0
      invariant j > 0 ==> Built(mem.nodes, seq1) == CopiesBuilt(h0, a, posAdd0, j) && seq1 != NULL
      invariant j > 0 ==> maxPos == Max(maxPos0, Highest(Copies(a, posAdd0, j)))
      invariant posAdd == Offset(posAdd0, j, a)
      invariant j > 0 ==> posAddSave == Offset(posAdd0, j - 1, a)
    {
      PrefixFrame(h0, mem.nodes, arg, a);
      posAddSave := posAdd;
      seq1, posAdd, maxPos := AddCopy(mem, arg, seq1, posAdd, maxPos, a, h0, posAdd0, maxPos0, j);
      j := j + 1;
    }
  }

  method MakeOptional(mem: Arena, p: Ptr) returns (q: Ptr)
    modifies mem
    ensures Built(mem.nodes, q) == MaybeBuilt(old(mem.nodes), p) && q != NULL && old(mem.nodes) <= mem.nodes
  {
    var tmp := mem.New(Literal(EMPTY, -1, -1));
    q := mem.New(Union(tmp, p));
  }

  /** What has been built after j optional copies. */
  ghost predicate OptionalSoFar(h0: Heap, a: Re, add: int, max0: int, j: nat, h: Heap, seq2: Ptr, posAdd: int,
                                maxPos: int) {
    && h0 <= h && 0 <= maxPos && posAdd == Offset(add, j, a)
    && if j == 0 then seq2 == NULL && h == h0 && maxPos == max0
       else Built(h, seq2) == OptionalBuilt(h0, a, add, j) && seq2 != NULL
            && maxPos == Max(max0, Highest(Optional(a, add, j)))
  }

  method OneMoreOptional(mem: Arena, arg: Ptr, seq2: Ptr, posAdd: int, maxPos: int,
                         ghost h0: Heap, ghost a: Re, ghost add: int, ghost max0: int, ghost j: nat)
      returns (seq2': Ptr, posAdd': int, maxPos': int)
    requires Tree(h0, arg, a) && OptionalSoFar(h0, a, add, max0, j, mem.nodes, seq2, posAdd, maxPos)
    modifies mem
    ensures OptionalSoFar(h0, a, add, max0, j + 1, mem.nodes, seq2', posAdd', maxPos')
  {
    PrefixFrame(h0, mem.nodes, arg, a);
    var copy: Ptr;
    copy, posAdd', maxPos' := CopyAst(mem, arg, posAdd, maxPos, a);
    if seq2 != NULL {
      seq2' := mem.New(Catenation(copy, seq2));
    } else {
      seq2' := copy;
    }
    seq2' := MakeOptional(mem, seq2');
    HighestIsAtLeast(Shift(a, posAdd));
  }

  /** Creates up to n nested optional copies. */
  method CopyOptional(mem: Arena, arg: Ptr, n: nat, posAdd0: int, maxPos0: int, ghost a: Re)
      returns (seq2: Ptr, posAddSave: int, maxPos: int)
    requires n >= 1 && Tree(mem.nodes, arg, a) && 0 <= maxPos0
    modifies mem
    ensures Built(mem.nodes, seq2) == OptionalBuilt(old(mem.nodes), a, posAdd0, n) && seq2 != NULL
    ensures old(mem.nodes) <= mem.nodes && 0 <= maxPos
    ensures maxPos == Max(maxPos0, Highest(Optional(a, posAdd0, n)))
    ensures posAddSave == Offset(posAdd0, n - 1, a)
  {
    hide OptionalBuilt, Optional, Highest, Tree;
    ghost var h0 := mem.nodes;
    var posAdd := posAdd0;
    seq2, posAddSave, maxPos := NULL, posAdd0, maxPos0;
    var j := 0;
    while j < n
      invariant 0 <= j <= n && OptionalSoFar(h0, a, posAdd0, maxPos0, j, mem.nodes, seq2, posAdd, maxPos)
      invariant j > 0 ==> posAddSave == Offset(posAdd0, j - 1, a)
    {
      posAddSave := posAdd;
      seq2, posAdd, maxPos := OneMoreOptional(mem, arg, seq2, posAdd, maxPos, h0, a, posAdd0, maxPos0, j);
      j := j + 1;
    }
  }

  /** Creates what follows the copies that are always there, or NULL when that is nothing. */
  method CopyTail(mem: Arena, arg: Ptr, min: int, max: int, posAdd: int, posAddSave0: int, maxPos0: int, ghost a: Re)
      returns (seq2: Ptr, posAddSave: int, maxPos: int)
    requires Tree(mem.nodes, arg, a) && 0 <= maxPos0 && Counts(min, max) && Expands(min, max)
    modifies mem
    ensures max != UNBOUNDED && min == max ==>
              seq2 == NULL && mem.nodes == old(mem.nodes) && posAddSave == posAddSave0 && maxPos == maxPos0
    ensures max == UNBOUNDED || min < max ==>
              && Built(mem.nodes, seq2) == TailBuilt(old(mem.nodes), a, posAdd, min, max) && seq2 != NULL
              && maxPos == Max(maxPos0, Highest(TailTree(a, posAdd, min, max)))
              && posAddSave == Offset(posAdd, (if max == UNBOUNDED then 1 else max - min) - 1, a)
    ensures old(mem.nodes) <= mem.nodes && 0 <= maxPos
  {
    seq2, posAddSave, maxPos := NULL, posAddSave0, maxPos0;
    if max == UNBOUNDED {
      posAddSave := posAdd;
      var ignored: int;
      seq2, ignored, maxPos := CopyAst(mem, arg, posAdd, maxPos, a);
      seq2 := mem.New(Iteration(seq2, 0, UNBOUNDED));
    } else if min < max {
      seq2, posAddSave, maxPos := CopyOptional(mem, arg, max - min, posAdd, maxPos, a);
    }
  }

  /** The position counter ends where the last copy starts. */
  lemma LastCopyStart(add: int, min: int, max: int, a: Re)
    requires Counts(min, max) && Expands(min, max)
    ensures max == UNBOUNDED || min < max ==>
      Offset(Offset(add, min, a), (if max == UNBOUNDED then 1 else max - min) - 1, a) == Offset(add,
          CopyCount(min, max) - 1, a)
  {
    if max == UNBOUNDED { OffsetSum(add, min, 0, a); }
    else if min < max { OffsetSum(add, min, max - min - 1, a); }
  }

  lemma HighestOfRepeat(a: Re, add: int, min: int, max: int)
    requires Counts(min, max) && Expands(min, max)
    ensures var tailAdd := Offset(add, min, a);
            Highest(Repeat(a, add, min, max)) ==
              if min == 0 then Highest(TailTree(a, tailAdd, min, max))
              else if min == max then Highest(Copies(a, add, min))
              else Max(Highest(Copies(a, add, min)), Highest(TailTree(a, tailAdd, min, max)))
  {
  }

  /** Creates the catenated sequence of copies of the node. */
  method BuildRepeat(mem: Arena, arg: Ptr, min: int, max: int, posAdd0: int, maxPos0: int, ghost a: Re)
      returns (seq1: Ptr, posAdd: int, maxPos: int)
    requires Tree(mem.nodes, arg, a) && 0 <= maxPos0 && Counts(min, max) && Expands(min, max)
    modifies mem
    ensures Built(mem.nodes, seq1) == RepeatBuilt(old(mem.nodes), a, posAdd0, min, max)
    ensures posAdd == Offset(posAdd0, CopyCount(min, max) - 1, a)
    ensures maxPos == Max(maxPos0, Highest(Repeat(a, posAdd0, min, max))) && 0 <= maxPos
  {
    ghost var h0 := mem.nodes;
    var posAddSave: int;
    seq1, posAdd, posAddSave, maxPos := CopyMinimum(mem, arg, min, posAdd0, maxPos0, a);
    PrefixFrame(h0, mem.nodes, arg, a);
    var seq2: Ptr;
    seq2, posAddSave, maxPos := CopyTail(mem, arg, min, max, posAdd, posAddSave, maxPos, a);
    posAdd := posAddSave;
    LastCopyStart(posAdd0, min, max, a);
    HighestOfRepeat(a, posAdd0, min, max);
    if seq1 == NULL {
      seq1 := seq2;
      return;
    }
    if seq2 != NULL {
      seq1 := mem.New(Catenation(seq1, seq2));
    }
  }

  /** case EXPAND_AFTER_ITER, for an iteration that is to be expanded */
  method ExpandIteration(mem: Arena, node: Ptr, posAdd0: int, maxPos0: int, ghost a: Re)
      returns (posAdd: int, maxPos: int)
    requires IsPtr(mem.nodes, node) && mem.nodes[node].obj.Iteration? && 0 <= maxPos0 && Proper(a)
    requires Tree(mem.nodes, mem.nodes[node].obj.arg, a)
    requires Counts(mem.nodes[node].obj.min, mem.nodes[node].obj.max)
    requires Expands(mem.nodes[node].obj.min, mem.nodes[node].obj.max)
    modifies mem
    ensures var iter := old(mem.nodes[node].obj);
            && mem.nodes == AfterHeap(old(mem.nodes), node, a, iter.min, iter.max, posAdd0)
            && posAdd == Offset(posAdd0, CopyCount(iter.min, iter.max) - 1, a)
            && maxPos == Max(maxPos0, Highest(Repeat(a, posAdd0, iter.min, iter.max)))
    ensures 0 <= maxPos
  {
    ghost var h0 := mem.nodes;
    var iter := mem.nodes[node].obj;
    var seq1: Ptr;
    seq1, posAdd, maxPos := BuildRepeat(mem, iter.arg, iter.min, iter.max, posAdd0, maxPos0, a);
    RepeatGrows(h0, a, posAdd0, iter.min, iter.max);
    mem.nodes := SetObj(mem.nodes, node, mem.nodes[seq1].obj);
  }

  /** case EXPAND_AFTER_ITER */
  method AfterIteration(mem: Arena, node: Ptr, saved: int, c: Counters, ghost tasks: seq<Task>)
      returns (c': Counters)
    requires Ready(mem.nodes, c, tasks) && tasks != [] && tasks[0].DoAfter? && 0 <= c.maxPos
    requires tasks[0].p == node && tasks[0].saved == saved
    modifies mem
    ensures Ready(mem.nodes, c', tasks[1..]) && 0 <= c'.maxPos
    ensures Finish(mem.nodes, c', tasks[1..]) == old(Finish(mem.nodes, c, tasks))
  {
    var posAdd, maxPos := saved, c.maxPos;
    var posAddLast := posAdd;
    ghost var a := tasks[0].a;
    var min, max := mem.nodes[node].obj.min, mem.nodes[node].obj.max;
    if min > 1 || max > 1 {
      posAdd, maxPos := ExpandIteration(mem, node, posAdd, maxPos, a);
    }
    var iterDepth := c.depth - 1;
    var posAddTotal := c.total + (posAdd - posAddLast);
    if iterDepth == 0 { posAdd := posAddTotal; }
    c' := Counters(posAdd, posAddTotal, maxPos, iterDepth);
    assert c' == AfterIter(a, min, max, saved, c).1;
  }

  /** case EXPAND_RECURSE */
  method RecurseInto(mem: Arena, node: Ptr, stack: seq<Item>, c: Counters, ghost tasks: seq<Task>)
      returns (stack': seq<Item>, c': Counters, ghost tasks': seq<Task>)
    requires Ready(mem.nodes, c, tasks) && tasks != [] && tasks[0].DoNode? && 0 <= c.maxPos
    requires tasks[0].p == node && stack == Encode(tasks[1..])
    modifies mem
    ensures Ready(mem.nodes, c', tasks') && stack' == Encode(tasks') && 0 <= c'.maxPos
    ensures Finish(mem.nodes, c', tasks') == old(Finish(mem.nodes, c, tasks))
    ensures Work(tasks') < Work(tasks)
  {
    hide Ready, Finish, Work, Tree, Unshared, Foot, Expand;
    NodeOfTask(mem.nodes, c, tasks);
    match mem.nodes[node].obj
    case Literal(min, max, position) =>
      LeafTask(mem.nodes, c, tasks);
      stack', c', tasks' := stack, c, tasks[1..];
      if min >= 0 {
        mem.nodes := SetObj(mem.nodes, node, Literal(min, max, position + c.add));
        c' := c.(maxPos := if position + c.add > c.maxPos then position + c.add else c.maxPos);
      }
      return;
    case Iteration(arg, min, max) =>
      IterTasks(mem.nodes, c, tasks, arg);
      stack' := stack + [ExpandAfterIter(node, c.add), ExpandRecurse(arg)];
      c' := c.(add := if min > 1 || max > 1 then 0 else c.add, depth := c.depth + 1);
      ghost var t := tasks[0].t;
      ghost var x, y := DoNode(arg, t.arg), DoAfter(node, Expand(t.arg, c').0, t.min, t.max, c.add);
      TwoTasks(x, y, tasks[1..]);
      tasks' := [x, y] + tasks[1..];
      return;
    case _ =>
      var left, right := LeftChild(mem.nodes, node), RightChild(mem.nodes, node);
      PairTasks(mem.nodes, c, tasks, left, right);
      stack' := stack + [ExpandRecurse(right), ExpandRecurse(left)];
      c' := c;
      ghost var x, y := DoNode(left, tasks[0].t.left), DoNode(right, tasks[0].t.right);
      TwoTasks(x, y, tasks[1..]);
      tasks' := [x, y] + tasks[1..];
      return;
  }

  /** Expands every iteration below ast in place, and returns the number of positions that
      the automaton then needs. */
  method ExpandAst(mem: Arena, ast: Ptr, position: int, ghost t: Re) returns (position': int)
    requires Tree(mem.nodes, ast, t) && Unshared(mem.nodes, ast, t) && WellCounted(t) && Proper(t)
    modifies mem
    ensures var (u, c) := Expand(t, START);
            && Becomes(old(mem.nodes), mem.nodes, ast, u, old(Foot(mem.nodes, ast, t)))
            && Proper(u)
            && position' == Max(position + c.total, c.maxPos)
  {
    var stack := [ExpandRecurse(ast)];
    var c := START;
    ghost var tasks := [DoNode(ast, t)];
    assert tasks[1..] == [];
    ghost var goal := State(ExpandHeap(mem.nodes, ast, t, START), Expand(t, START).1);
    ExpandBecomes(mem.nodes, ast, t, START);
    ExpandIsProper(t, START);
    while stack != []
      invariant Ready(mem.nodes, c, tasks) && stack == Encode(tasks) && 0 <= c.maxPos
      invariant Finish(mem.nodes, c, tasks) == goal
      decreases Work(tasks)
    {
      TopTask(stack, tasks);
      var symbol := stack[|stack| - 1];
      stack := stack[..|stack| - 1];
      match symbol
      case ExpandRecurse(node) =>
        stack, c, tasks := RecurseInto(mem, node, stack, c, tasks);
      case ExpandAfterIter(node, saved) =>
        c := AfterIteration(mem, node, saved, c, tasks);
        tasks := tasks[1..];
    }
    assert tasks == [];
    position' := position + c.total;
    if c.maxPos > position' { position' := c.maxPos; }
  }
}
