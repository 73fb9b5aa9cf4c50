/** The compiler's syntax nodes as it holds them: records in a growing arena (tre_mem),
    addressed by pointers and rewritten in place. */
module RegexAst {
  import opened RegexSyntax
  import opened RegexPositions

  /** An index into the arena, or NULL. */
  type Ptr = int

  const NULL: Ptr := -1
  const EMPTY := -1

  /** node->type together with what node->obj points at. */
  datatype Obj =
    | Literal(codeMin: int, codeMax: int, position: int)
    | Catenation(left: Ptr, right: Ptr)
    | Union(left: Ptr, right: Ptr)
    | Iteration(arg: Ptr, min: int, max: int)

  datatype Node = Node(obj: Obj, nullable: int, firstpos: seq<Entry>, lastpos: seq<Entry>)

  type Heap = seq<Node>

  function NewNode(obj: Obj): Node { Node(obj, -1, [], []) }

  function IsSpecial(obj: Obj): bool
    requires obj.Literal?
  {
    obj.codeMin < 0
  }

  predicate IsPtr(h: Heap, p: Ptr) { 0 <= p < |h| }

  /** The nodes below p spell out the tree t. */
  ghost predicate Tree(h: Heap, p: Ptr, t: Re)
    decreases t
  {
    IsPtr(h, p) &&
    match t
    case Eps => h[p].obj == Literal(EMPTY, -1, -1)
    case Lit(lo, hi, pos) => 0 <= lo && h[p].obj == Literal(lo, hi, pos)
    case Cat(l, r) => h[p].obj.Catenation? && Tree(h, h[p].obj.left, l) && Tree(h, h[p].obj.right, r)
    case Alt(l, r) => h[p].obj.Union? && Tree(h, h[p].obj.left, l) && Tree(h, h[p].obj.right, r)
    case Iter(a, min, max) =>
      h[p].obj.Iteration? && h[p].obj.min == min && h[p].obj.max == max && Tree(h, h[p].obj.arg, a)
  }

  /** The addresses of those nodes. */
  ghost function Foot(h: Heap, p: Ptr, t: Re): set<Ptr>
    requires Tree(h, p, t)
    decreases t
  {
    {p} + match t
    case Eps => {}
    case Lit(_, _, _) => {}
    case Cat(l, r) => Foot(h, h[p].obj.left, l) + Foot(h, h[p].obj.right, r)
    case Alt(l, r) => Foot(h, h[p].obj.left, l) + Foot(h, h[p].obj.right, r)
    case Iter(a, _, _) => Foot(h, h[p].obj.arg, a)
  }

  /** No node is reached twice: the nodes form a tree and not just a graph. */
  ghost predicate Unshared(h: Heap, p: Ptr, t: Re)
    requires Tree(h, p, t)
    decreases t
  {
    match t
    case Eps => true
    case Lit(_, _, _) => true
    case Cat(l, r) =>
      var pl, pr := h[p].obj.left, h[p].obj.right;
      && Unshared(h, pl, l) && Unshared(h, pr, r)
      && Foot(h, pl, l) !! Foot(h, pr, r) && p !in Foot(h, pl, l) + Foot(h, pr, r)
    case Alt(l, r) =>
      var pl, pr := h[p].obj.left, h[p].obj.right;
      && Unshared(h, pl, l) && Unshared(h, pr, r)
      && Foot(h, pl, l) !! Foot(h, pr, r) && p !in Foot(h, pl, l) + Foot(h, pr, r)
    case Iter(a, _, _) => Unshared(h, h[p].obj.arg, a) && p !in Foot(h, h[p].obj.arg, a)
  }

  lemma {:induction false} FootIsAllocated(h: Heap, p: Ptr, t: Re)
    requires Tree(h, p, t)
    ensures forall q :: q in Foot(h, p, t) ==> IsPtr(h, q)
    decreases t
  {
    match t
    case Eps =>
    case Lit(_, _, _) =>
    case Cat(l, r) => FootIsAllocated(h, h[p].obj.left, l); FootIsAllocated(h, h[p].obj.right, r);
    case Alt(l, r) => FootIsAllocated(h, h[p].obj.left, l); FootIsAllocated(h, h[p].obj.right, r);
    case Iter(a, _, _) => FootIsAllocated(h, h[p].obj.arg, a);
  }

  /** k has the same objects as h at the addresses S. */
  ghost predicate AgreeOn(h: Heap, k: Heap, S: set<Ptr>) {
    forall q :: q in S && IsPtr(h, q) ==> IsPtr(k, q) && k[q].obj == h[q].obj
  }

  lemma {:induction false} TreeFrame(h: Heap, k: Heap, p: Ptr, t: Re)
    requires Tree(h, p, t) && AgreeOn(h, k, Foot(h, p, t))
    ensures Tree(k, p, t) && Foot(k, p, t) == Foot(h, p, t)
    ensures Unshared(h, p, t) ==> Unshared(k, p, t)
    decreases t
  {
    assert p in Foot(h, p, t);
    match t
    case Eps =>
    case Lit(_, _, _) =>
    case Cat(l, r) => TreeFrame(h, k, h[p].obj.left, l); TreeFrame(h, k, h[p].obj.right, r);
    case Alt(l, r) => TreeFrame(h, k, h[p].obj.left, l); TreeFrame(h, k, h[p].obj.right, r);
    case Iter(a, _, _) => TreeFrame(h, k, h[p].obj.arg, a);
  }

  // ---------- laying a tree out in fresh nodes ----------

  function Size(t: Re): (n: nat)
    ensures n >= 1
  {
    match t
    case Eps => 1
    case Lit(_, _, _) => 1
    case Cat(l, r) => 1 + Size(l) + Size(r)
    case Alt(l, r) => 1 + Size(l) + Size(r)
    case Iter(a, _, _) => 1 + Size(a)
  }

  /** A root with two children in front of the trees below it. */
  function OverTwo(root: Obj, left: Heap, right: Heap): Heap { [NewNode(root)] + left + right }

  /** The nodes of t in the order a copy allocates them, the first at address base. */
  function Layout(base: Ptr, t: Re): (h: Heap)
    ensures |h| == Size(t)
    decreases t
  {
    match t
    case Eps => [NewNode(Literal(EMPTY, -1, -1))]
    case Lit(lo, hi, pos) => [NewNode(Literal(lo, hi, pos))]
    case Cat(l, r) =>
      OverTwo(Catenation(base + 1, base + 1 + Size(l)), Layout(base + 1, l), Layout(base + 1 + Size(l), r))
    case Alt(l, r) =>
      OverTwo(Union(base + 1, base + 1 + Size(l)), Layout(base + 1, l), Layout(base + 1 + Size(l), r))
    case Iter(a, min, max) =>
      [NewNode(Iteration(base + 1, min, max))] + Layout(base + 1, a)
  }

  /** Leaves that stand for characters have codes of characters. */
  predicate Proper(t: Re) {
    match t
    case Eps => true
    case Lit(lo, _, _) => 0 <= lo
    case Cat(l, r) => Proper(l) && Proper(r)
    case Alt(l, r) => Proper(l) && Proper(r)
    case Iter(a, _, _) => Proper(a)
  }

  ghost predicate Within(S: set<Ptr>, lo: int, hi: int) { forall q :: q in S ==> lo <= q < hi }

  lemma Regroup<T>(a: seq<T>, n: T, b: seq<T>, c: seq<T>, d: seq<T>)
    ensures a + ([n] + b + c) + d == (a + [n]) + b + (c + d)
    ensures a + ([n] + b + c) + d == (a + [n] + b) + c + d
    ensures (a + ([n] + b + c) + d)[|a|] == n
    ensures |a + [n]| == |a| + 1 && |a + [n] + b| == |a| + 1 + |b|
  {
  }

  /** The nodes from base up to end form an unshared tree t with its root at base. */
  ghost predicate Placed(k: Heap, base: Ptr, t: Re, end: int) {
    Tree(k, base, t) && Unshared(k, base, t) && Within(Foot(k, base, t), base, end)
  }

  /** Nodes laid out anywhere in an arena form the tree, and nothing else. */
  lemma {:induction false} LayoutIsTree(k: Heap, base: Ptr, pre: Heap, t: Re, post: Heap)
    requires Proper(t) && |pre| == base && k == pre + Layout(base, t) + post
    ensures Placed(k, base, t, base + Size(t))
    decreases t, 1
  {
    hide OverTwo, Placed;
    if t.Cat? {
      LayoutPair(k, base, pre, Catenation(base + 1, base + 1 + Size(t.left)), t, t.left, t.right, post);
      return;
    }
    if t.Alt? {
      LayoutPair(k, base, pre, Union(base + 1, base + 1 + Size(t.left)), t, t.left, t.right, post);
      return;
    }
    if t.Iter? {
      LayoutIter(k, base, pre, NewNode(Iteration(base + 1, t.min, t.max)), t, t.arg, post);
      return;
    }
    LayoutLeaf(k, pre, Layout(base, t)[0], t, post);
  }

  lemma LayoutLeaf(k: Heap, pre: Heap, n: Node, t: Re, post: Heap)
    requires Proper(t) && (t.Eps? || t.Lit?) && k == pre + [n] + post
    requires n.obj == if t.Eps? then Literal(EMPTY, -1, -1) else Literal(t.lo, t.hi, t.pos)
    ensures Placed(k, |pre|, t, |pre| + 1)
  {
    assert k[|pre|] == n;
  }

  lemma {:induction false} LayoutIter(k: Heap, base: Ptr, pre: Heap, n: Node, t: Re, a: Re, post: Heap)
    requires |pre| == base && t.Iter? && t.arg == a && Proper(a) && n.obj == Iteration(base + 1, t.min, t.max)
    requires k == pre + ([n] + Layout(base + 1, a)) + post
    ensures Placed(k, base, t, base + 1 + Size(a))
    decreases t, 0
  {
    hide Layout;
    var inner := Layout(base + 1, a);
    Regroup(pre, n, inner, [], post);
    assert [n] + inner + [] == [n] + inner && [] + post == post;
    LayoutIsTree(k, base + 1, pre + [n], a, post);
    assert k[base] == n;
  }

  lemma {:induction false} LayoutPair(k: Heap, base: Ptr, pre: Heap, root: Obj, t: Re, l: Re, r: Re, post: Heap)
    requires |pre| == base && Proper(l) && Proper(r)
    requires k == pre + OverTwo(root, Layout(base + 1, l), Layout(base + 1 + Size(l), r)) + post
    requires || (t == Cat(l, r) && root == Catenation(base + 1, base + 1 + Size(l)))
             || (t == Alt(l, r) && root == Union(base + 1, base + 1 + Size(l)))
    ensures Placed(k, base, t, base + Size(t))
    decreases t, 0
  {
    hide Layout, Tree, Unshared, Foot;
    var n, b1, b2 := NewNode(root), base + 1, base + 1 + Size(l);
    var left, right := Layout(b1, l), Layout(b2, r);
    Regroup(pre, n, left, right, post);
    LayoutIsTree(k, b1, pre + [n], l, right + post);
    LayoutIsTree(k, b2, pre + [n] + left, r, post);
    Separated(Foot(k, b1, l), Foot(k, b2, r), b1, b2, b2 + Size(r));
    JoinNodes(k, base, t, b1, l, b2, r);
  }

  lemma Separated(S: set<Ptr>, T: set<Ptr>, lo: int, m: int, hi: int)
    requires Within(S, lo, m) && Within(T, m, hi)
    ensures S !! T
  {
    forall q | q in S && q in T ensures false { }
  }

  /** A root over two separate trees. */
  lemma JoinNodes(k: Heap, p: Ptr, t: Re, pl: Ptr, l: Re, pr: Ptr, r: Re)
    requires IsPtr(k, p)
    requires Tree(k, pl, l) && Unshared(k, pl, l) && Tree(k, pr, r) && Unshared(k, pr, r)
    requires Foot(k, pl, l) !! Foot(k, pr, r) && p !in Foot(k, pl, l) && p !in Foot(k, pr, r)
    requires || (t == Cat(l, r) && k[p].obj == Catenation(pl, pr))
             || (t == Alt(l, r) && k[p].obj == Union(pl, pr))
    ensures Tree(k, p, t) && Unshared(k, p, t) && Foot(k, p, t) == {p} + (Foot(k, pl, l) + Foot(k, pr, r))
  {
  }
}
