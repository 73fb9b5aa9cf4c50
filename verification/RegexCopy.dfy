/** tre_copy_ast: copying a syntax tree with an explicit stack and a result pointer. */
module RegexCopy {
  import opened RegexSyntax
  import opened RegexExpand
  import opened RegexAst

  /** The memory nodes are allocated from; it only ever grows. */
  class Arena {
    var nodes: Heap

    constructor ()
      ensures nodes == []
    {
      nodes := [];
    }

    /** tre_ast_new_node and the allocation of its object. */
    method New(obj: Obj) returns (p: Ptr)
      modifies this
      ensures nodes == old(nodes) + [NewNode(obj)] && p == |old(nodes)|
    {
      p := |nodes|;
      nodes := nodes + [NewNode(obj)];
    }
  }

  datatype Side = LeftSide | RightSide | ArgSide

  /** A pointer to a pointer: the caller's variable or a child field of a node. */
  datatype Loc = Copy | Child(p: Ptr, side: Side)

  /** Everything such a pointer can reach: the arena and the caller's variable. */
  datatype Cells = Cells(h: Heap, copy: Ptr)

  function SetChild(obj: Obj, side: Side, v: Ptr): Obj {
    match (obj, side)
    case (Catenation(_, r), LeftSide) => Catenation(v, r)
    case (Catenation(l, _), RightSide) => Catenation(l, v)
    case (Union(_, r), LeftSide) => Union(v, r)
    case (Union(l, _), RightSide) => Union(l, v)
    case (Iteration(_, min, max), ArgSide) => Iteration(v, min, max)
    case (_, _) => obj
  }

  function SetObj(h: Heap, p: Ptr, obj: Obj): (k: Heap)
    ensures |k| == |h|
  {
    if IsPtr(h, p) then h[p := h[p].(obj := obj)] else h
  }

  /** *loc = v */
  function Put(c: Cells, loc: Loc, v: Ptr): (r: Cells)
    ensures |r.h| == |c.h|
  {
    match loc
    case Copy => c.(copy := v)
    case Child(p, side) => if IsPtr(c.h, p) then c.(h := SetObj(c.h, p, SetChild(c.h[p].obj, side, v))) else c
  }

  datatype Item = Recurse(node: Ptr) | SetResultPtr(loc: Loc)

  // ---------- what remains to be done, as a list of (where, what) ----------

  datatype Task = Task(loc: Loc, node: Ptr, t: Re)

  /** Copy one tree to loc. */
  ghost function Fill(c: Cells, loc: Loc, t: Re): Cells {
    Append(Put(c, loc, |c.h|), Layout(|c.h|, t))
  }

  ghost function Finish(c: Cells, todo: seq<Task>, add: int): Cells
    decreases |todo|
  {
    if todo == [] then c else Finish(Fill(c, todo[0].loc, Shift(todo[0].t, add)), todo[1..], add)
  }

  ghost function LeavesTodo(todo: seq<Task>): int {
    if todo == [] then 0 else Leaves(todo[0].t) + LeavesTodo(todo[1..])
  }

  ghost function HighestTodo(todo: seq<Task>, add: int): int {
    if todo == [] then -1 else Max(Highest(Shift(todo[0].t, add)), HighestTodo(todo[1..], add))
  }

  ghost function Work(todo: seq<Task>): nat { if todo == [] then 0 else 2 * Size(todo[0].t) + Work(todo[1..]) }

  /** The stack that stands for a list of tasks, bottom first. */
  ghost function Encode(todo: seq<Task>): seq<Item> {
    if todo == [] then [] else Encode(todo[1..]) + [Recurse(todo[0].node), SetResultPtr(todo[0].loc)]
  }

  ghost predicate Sound(h0: Heap, c: Cells, todo: seq<Task>) {
    && h0 <= c.h
    && forall k :: 0 <= k < |todo| ==>
      Tree(h0, todo[k].node, todo[k].t) && (todo[k].loc == Copy || |h0| <= todo[k].loc.p < |c.h|)
  }

  /** The counters when every task is done. */
  datatype Goal = Goal(cells: Cells, leaves: int, highest: int)

  ghost function Outcome(c: Cells, todo: seq<Task>, add: int, copied: int, maxPos: int): Goal {
    Goal(Finish(c, todo, add), copied + LeavesTodo(todo), Max(maxPos, HighestTodo(todo, add)))
  }

  ghost predicate StackIs(stack: seq<Item>, result: Loc, todo: seq<Task>, ready: bool) {
    if ready then |todo| > 0 && result == todo[0].loc && stack == Encode(todo[1..]) + [Recurse(todo[0].node)]
    else stack == Encode(todo)
  }

  // ---------- replacing the first task by its parts ----------

  lemma PutKeeps(h0: Heap, c: Cells, loc: Loc, v: Ptr)
    requires h0 <= c.h && (loc == Copy || |h0| <= loc.p)
    ensures h0 <= Put(c, loc, v).h
  {
  }

  function Append(c: Cells, more: Heap): Cells { Cells(c.h + more, c.copy) }

  lemma PutAppend(c: Cells, loc: Loc, v: Ptr, more: Heap)
    requires loc == Copy || IsPtr(c.h, loc.p)
    ensures Put(Append(c, more), loc, v) == Append(Put(c, loc, v), more)
  {
  }

  lemma AppendTwice(c: Cells, a: Heap, b: Heap)
    ensures Append(Append(c, a), b) == Append(c, a + b)
  {
    assert c.h + a + b == c.h + (a + b);
  }

  lemma PutLast(c: Cells, node: Node, side: Side, v: Ptr)
    ensures Put(Append(c, [node]), Child(|c.h|, side), v) == Append(c, [node.(obj := SetChild(node.obj, side, v))])
  {
  }

  lemma FillLeaf(c: Cells, loc: Loc, t: Re, node: Node)
    requires loc == Copy || IsPtr(c.h, loc.p)
    requires Layout(|c.h|, t) == [node]
    ensures Fill(c, loc, t) == Put(Append(c, [node]), loc, |c.h|)
  {
    PutAppend(c, loc, |c.h|, [node]);
  }

  lemma FillIter(c: Cells, loc: Loc, a: Re, x: Ptr, min: int, max: int)
    requires loc == Copy || IsPtr(c.h, loc.p)
    ensures var n := |c.h|;
            Fill(c, loc, Iter(a, min, max)) == Fill(Put(Append(c, [NewNode(Iteration(x, min, max))]), loc, n),
                                                    Child(n, ArgSide), a)
  {
    var n, b, node := |c.h|, Put(c, loc, |c.h|), NewNode(Iteration(x, min, max));
    PutAppend(c, loc, n, [node]);
    PutLast(b, node, ArgSide, n + 1);
    AppendTwice(b, [NewNode(Iteration(n + 1, min, max))], Layout(n + 1, a));
  }

  lemma AppendParts(b: Cells, node: Node, left: Heap, right: Heap)
    ensures var n := |b.h|;
            var node1 := node.(obj := SetChild(node.obj, LeftSide, n + 1));
            var node2 := node1.(obj := SetChild(node1.obj, RightSide, n + 1 + |left|));
            var c1 := Append(Put(Append(b, [node]), Child(n, LeftSide), n + 1), left);
            Append(Put(c1, Child(n, RightSide), n + 1 + |left|), right) == Append(b, [node2] + left + right)
  {
    var n := |b.h|;
    var node1 := node.(obj := SetChild(node.obj, LeftSide, n + 1));
    var node2 := node1.(obj := SetChild(node1.obj, RightSide, n + 1 + |left|));
    PutLast(b, node, LeftSide, n + 1);
    PutAppend(Append(b, [node1]), Child(n, RightSide), n + 1 + |left|, left);
    PutLast(b, node1, RightSide, n + 1 + |left|);
    AppendTwice(b, [node2], left);
    AppendTwice(b, [node2] + left, right);
  }

  /** The nodes of a pair are its root, then the left tree, then the right tree. */
  lemma FillPair(c: Cells, loc: Loc, t: Re, l: Re, r: Re, node: Node)
    requires loc == Copy || IsPtr(c.h, loc.p)
    requires || (t == Cat(l, r) && node.obj.Catenation?)
             || (t == Alt(l, r) && node.obj.Union?)
    requires node == NewNode(node.obj)
    ensures var n := |c.h|;
            Fill(c, loc, t) == Fill(Fill(Put(Append(c, [node]), loc, n), Child(n, LeftSide), l), Child(n, RightSide), r)
  {
    hide Layout, Size;
    var n := |c.h|;
    PutAppend(c, loc, n, [node]);
    AppendParts(Put(c, loc, n), node, Layout(n + 1, l), Layout(n + 1 + Size(l), r));
    LayoutPair(n, t, l, r, node);
  }

  lemma {:induction false} LayoutCat(n: Ptr, l: Re, r: Re)
    ensures Layout(n, Cat(l, r)) ==
            OverTwo(Catenation(n + 1, n + 1 + Size(l)), Layout(n + 1, l), Layout(n + 1 + Size(l), r))
  {
    hide Size, OverTwo;
  }

  lemma {:induction false} LayoutAlt(n: Ptr, l: Re, r: Re)
    ensures Layout(n, Alt(l, r)) ==
            OverTwo(Union(n + 1, n + 1 + Size(l)), Layout(n + 1, l), Layout(n + 1 + Size(l), r))
  {
    hide Size, OverTwo;
  }

  lemma {:induction false} LayoutPair(n: Ptr, t: Re, l: Re, r: Re, node: Node)
    requires || (t == Cat(l, r) && node.obj.Catenation?)
             || (t == Alt(l, r) && node.obj.Union?)
    requires node == NewNode(node.obj)
    ensures var node1 := node.(obj := SetChild(node.obj, LeftSide, n + 1));
            var node2 := node1.(obj := SetChild(node1.obj, RightSide, n + 1 + Size(l)));
            Layout(n, t) == [node2] + Layout(n + 1, l) + Layout(n + 1 + Size(l), r)
  {
    hide Layout, Size;
    if t.Cat? { LayoutCat(n, l, r); } else { LayoutAlt(n, l, r); }
  }

  // ---------- the loop ----------

  ghost function Pop(stack: seq<Item>): seq<Item>
    requires stack != []
  {
    stack[..|stack| - 1]
  }

  lemma TopOfStack(result: Loc, todo: seq<Task>, ready: bool, stack: seq<Item>)
    requires StackIs(stack, result, todo, ready) && stack != []
    ensures |todo| > 0
    ensures ready ==> stack[|stack| - 1] == Recurse(todo[0].node) && Pop(stack) == Encode(todo[1..])
    ensures !ready ==> stack[|stack| - 1] == SetResultPtr(todo[0].loc) && StackIs(Pop(stack), todo[0].loc, todo, true)
  {
    if !ready {
      assert Pop(stack) == Encode(todo[1..]) + [Recurse(todo[0].node)];
    }
  }

  lemma LeafStep(h0: Heap, add: int, todo: seq<Task>, c: Cells, copied: int, maxPos: int, node: Node)
    requires |todo| > 0 && Sound(h0, c, todo)
    requires Layout(|c.h|, Shift(todo[0].t, add)) == [node]
    ensures var c' := Put(Append(c, [node]), todo[0].loc, |c.h|);
            && Sound(h0, c', todo[1..])
            && Outcome(c, todo, add, copied, maxPos)
               == Outcome(c', todo[1..], add, copied + Leaves(todo[0].t), Max(maxPos, Highest(Shift(todo[0].t, add))))
  {
    FillLeaf(c, todo[0].loc, Shift(todo[0].t, add), node);
    PutKeeps(h0, Append(c, [node]), todo[0].loc, |c.h|);
  }

  lemma IterStep(h0: Heap, add: int, todo: seq<Task>, c: Cells, copied: int, maxPos: int, arg: Ptr, a: Re, min: int,
                 max: int)
    requires |todo| > 0 && Sound(h0, c, todo)
    requires todo[0].t == Iter(a, min, max) && Tree(h0, arg, a)
    ensures var n := |c.h|;
            var c' := Put(Append(c, [NewNode(Iteration(arg, min, max))]), todo[0].loc, n);
            var todo' := [Task(Child(n, ArgSide), arg, a)] + todo[1..];
            Sound(h0, c', todo') && Outcome(c, todo, add, copied, maxPos) == Outcome(c', todo', add, copied, maxPos)
  {
    var n := |c.h|;
    var c' := Put(Append(c, [NewNode(Iteration(arg, min, max))]), todo[0].loc, n);
    var todo' := [Task(Child(n, ArgSide), arg, a)] + todo[1..];
    FillIter(c, todo[0].loc, Shift(a, add), arg, min, max);
    PutKeeps(h0, Append(c, [NewNode(Iteration(arg, min, max))]), todo[0].loc, n);
    assert todo'[1..] == todo[1..];
  }

  /** What the two tasks that take the place of one put into place is the same. */
  lemma PairFinish(todo: seq<Task>, add: int, c: Cells, c': Cells, n: int, obj: Obj, l: Re, r: Re)
    requires |todo| > 0 && (obj.Catenation? || obj.Union?)
    requires Fill(Fill(c', Child(n, LeftSide), Shift(l, add)), Child(n, RightSide), Shift(r, add)) == Fill(c,
            todo[0].loc, Shift(todo[0].t, add))
    ensures var todo' := [Task(Child(n, LeftSide), obj.left, l), Task(Child(n, RightSide), obj.right, r)] + todo[1..];
            Finish(c', todo', add) == Finish(c, todo, add)
  {
    hide Fill;
    var todo1 := [Task(Child(n, RightSide), obj.right, r)] + todo[1..];
    var todo' := [Task(Child(n, LeftSide), obj.left, l), Task(Child(n, RightSide), obj.right, r)] + todo[1..];
    assert todo'[1..] == todo1 && todo1[1..] == todo[1..];
    var c1 := Fill(c', Child(n, LeftSide), Shift(l, add));
    assert Finish(c', todo', add) == Finish(c1, todo1, add);
  }

  lemma PairCounts(todo: seq<Task>, add: int, n: int, obj: Obj, l: Re, r: Re)
    requires |todo| > 0 && (obj.Catenation? || obj.Union?) && (todo[0].t == Cat(l, r) || todo[0].t == Alt(l, r))
    ensures var todo' := [Task(Child(n, LeftSide), obj.left, l), Task(Child(n, RightSide), obj.right, r)] + todo[1..];
            LeavesTodo(todo') == LeavesTodo(todo) && HighestTodo(todo', add) == HighestTodo(todo, add)
  {
    var todo1 := [Task(Child(n, RightSide), obj.right, r)] + todo[1..];
    var todo' := [Task(Child(n, LeftSide), obj.left, l), Task(Child(n, RightSide), obj.right, r)] + todo[1..];
    assert todo'[1..] == todo1 && todo1[1..] == todo[1..];
    assert LeavesTodo(todo') == Leaves(l) + LeavesTodo(todo1);
    assert HighestTodo(todo', add) == Max(Highest(Shift(l, add)), HighestTodo(todo1, add));
  }

  lemma PairStep(h0: Heap, add: int, todo: seq<Task>, c: Cells, copied: int, maxPos: int, obj: Obj, l: Re, r: Re)
    requires |todo| > 0 && Sound(h0, c, todo)
    requires || (todo[0].t == Cat(l, r) && obj.Catenation?)
             || (todo[0].t == Alt(l, r) && obj.Union?)
    requires Tree(h0, obj.left, l) && Tree(h0, obj.right, r)
    ensures var n := |c.h|;
            var c' := Put(Append(c, [NewNode(obj)]), todo[0].loc, n);
            var todo' := [Task(Child(n, LeftSide), obj.left, l), Task(Child(n, RightSide), obj.right, r)] + todo[1..];
            Sound(h0, c', todo') && Outcome(c, todo, add, copied, maxPos) == Outcome(c', todo', add, copied, maxPos)
  {
    hide Finish, LeavesTodo, HighestTodo, Tree, Fill;
    var n := |c.h|;
    var c' := Put(Append(c, [NewNode(obj)]), todo[0].loc, n);
    var todo' := [Task(Child(n, LeftSide), obj.left, l), Task(Child(n, RightSide), obj.right, r)] + todo[1..];
    FillPair(c, todo[0].loc, Shift(todo[0].t, add), Shift(l, add), Shift(r, add), NewNode(obj));
    PutKeeps(h0, Append(c, [NewNode(obj)]), todo[0].loc, n);
    PairFinish(todo, add, c, c', n, obj, l, r);
    PairCounts(todo, add, n, obj, l, r);
  }

  /** *loc = tre_ast_new_...(mem, ...) */
  method NewAt(mem: Arena, copy: Ptr, loc: Loc, obj: Obj) returns (p: Ptr, copy': Ptr)
    modifies mem
    ensures p == |old(mem.nodes)|
    ensures Cells(mem.nodes, copy') == Put(Append(Cells(old(mem.nodes), copy), [NewNode(obj)]), loc, p)
  {
    p := mem.New(obj);
    copy' := copy;
    match loc
    case Copy => copy' := p;
    case Child(q, side) =>
      if 0 <= q < |mem.nodes| {
        mem.nodes := SetObj(mem.nodes, q, SetChild(mem.nodes[q].obj, side, p));
      }
  }

  lemma {:induction false} LeafTodo(h0: Heap, c: Cells, todo: seq<Task>, add: int, obj: Obj)
    requires |todo| > 0 && Sound(h0, c, todo) && h0[todo[0].node].obj == obj && obj.Literal?
    ensures var pos := if IsSpecial(obj) then obj.position else obj.position + add;
            && Layout(|c.h|, Shift(todo[0].t, add)) == [NewNode(Literal(obj.codeMin, obj.codeMax, pos))]
            && Leaves(todo[0].t) == (if IsSpecial(obj) then 0 else 1)
            && Highest(Shift(todo[0].t, add)) == Max(-1, pos)
    ensures Work(todo[1..]) < Work(todo)
  {
  }

  lemma {:induction false} PairTodo(h0: Heap, c: Cells, todo: seq<Task>, obj: Obj) returns (l: Re, r: Re)
    requires |todo| > 0 && Sound(h0, c, todo) && h0[todo[0].node].obj == obj && (obj.Catenation? || obj.Union?)
    ensures || (todo[0].t == Cat(l, r) && obj.Catenation?)
            || (todo[0].t == Alt(l, r) && obj.Union?)
    ensures Tree(h0, obj.left, l) && Tree(h0, obj.right, r)
  {
    l, r := todo[0].t.left, todo[0].t.right;
  }

  lemma {:induction false} WorkFront(x: Task, todo: seq<Task>)
    ensures ([x] + todo)[1..] == todo
    ensures Work([x] + todo) == 2 * Size(x.t) + Work(todo)
    ensures Encode([x] + todo) == Encode(todo) + [Recurse(x.node), SetResultPtr(x.loc)]
  {
    assert ([x] + todo)[1..] == todo;
  }

  lemma {:induction false} PairWork(todo: seq<Task>, l: Re, r: Re, x: Task, y: Task)
    requires |todo| > 0 && (todo[0].t == Cat(l, r) || todo[0].t == Alt(l, r)) && x.t == l && y.t == r
    ensures Work([x, y] + todo[1..]) < Work(todo)
    ensures Encode(([x, y] + todo[1..])[1..]) == Encode(todo[1..]) + [Recurse(y.node), SetResultPtr(y.loc)]
  {
    hide Encode;
    var rest := todo[1..];
    assert [x, y] + rest == [x] + ([y] + rest);
    WorkFront(x, [y] + rest);
    WorkFront(y, rest);
  }

  lemma {:induction false} IterWork(todo: seq<Task>, x: Task)
    requires |todo| > 0 && todo[0].t.Iter? && x.t == todo[0].t.arg
    ensures Work([x] + todo[1..]) < Work(todo) && ([x] + todo[1..])[1..] == todo[1..]
  {
  }

  /** case LITERAL */
  method CopyLiteral(mem: Arena, copy: Ptr, result: Loc, posAdd: int, numCopied: int, maxPos: int, node: Ptr,
                     ghost h0: Heap, ghost goal: Goal, ghost todo: seq<Task>)
      returns (copy': Ptr, numCopied': int, maxPos': int)
    requires |todo| > 0 && todo[0].node == node && todo[0].loc == result && Sound(h0, Cells(mem.nodes, copy), todo)
    requires Outcome(Cells(mem.nodes, copy), todo, posAdd, numCopied, maxPos) == goal && 0 <= maxPos
    requires h0[node].obj.Literal?
    modifies mem
    ensures Sound(h0, Cells(mem.nodes, copy'), todo[1..])
    ensures Outcome(Cells(mem.nodes, copy'), todo[1..], posAdd, numCopied', maxPos') == goal && 0 <= maxPos'
    ensures Work(todo[1..]) < Work(todo)
  {
    ghost var c := Cells(mem.nodes, copy);
    var obj := mem.nodes[node].obj;
    var pos := obj.position;
    numCopied' := numCopied;
    if !IsSpecial(obj) {
      pos := pos + posAdd;
      numCopied' := numCopied + 1;
    }
    LeafTodo(h0, c, todo, posAdd, obj);
    LeafStep(h0, posAdd, todo, c, numCopied, maxPos, NewNode(Literal(obj.codeMin, obj.codeMax, pos)));
    var p: Ptr;
    p, copy' := NewAt(mem, copy, result, Literal(obj.codeMin, obj.codeMax, pos));
    maxPos' := if pos > maxPos then pos else maxPos;
  }

  /** case UNION and case CATENATION */
  method CopyPair(mem: Arena, copy: Ptr, result: Loc, stack: seq<Item>, node: Ptr,
                  ghost h0: Heap, ghost add: int, ghost copied: int, ghost maxPos: int, ghost todo: seq<Task>)
      returns (copy': Ptr, result': Loc, stack': seq<Item>, ghost todo': seq<Task>)
    requires |todo| > 0 && todo[0].node == node && todo[0].loc == result && Sound(h0, Cells(mem.nodes, copy), todo)
    requires stack == Encode(todo[1..])
    requires h0[node].obj.Catenation? || h0[node].obj.Union?
    modifies mem
    ensures Sound(h0, Cells(mem.nodes, copy'), todo')
    ensures Outcome(Cells(mem.nodes, copy'), todo', add, copied, maxPos)
            == Outcome(Cells(old(mem.nodes), copy), todo, add, copied, maxPos)
    ensures StackIs(stack', result', todo', true) && Work(todo') < Work(todo)
  {
    ghost var c := Cells(mem.nodes, copy);
    var obj := mem.nodes[node].obj;
    ghost var l, r := PairTodo(h0, c, todo, obj);
    PairStep(h0, add, todo, c, copied, maxPos, obj, l, r);
    var p: Ptr;
    p, copy' := NewAt(mem, copy, result, obj);
    result' := Child(p, LeftSide);
    stack' := stack + [Recurse(obj.right), SetResultPtr(Child(p, RightSide)), Recurse(obj.left)];
    ghost var x, y := Task(result', obj.left, l), Task(Child(p, RightSide), obj.right, r);
    PairWork(todo, l, r, x, y);
    todo' := [x, y] + todo[1..];
  }

  /** case ITERATION */
  method CopyIteration(mem: Arena, copy: Ptr, result: Loc, stack: seq<Item>, node: Ptr,
                       ghost h0: Heap, ghost add: int, ghost copied: int, ghost maxPos: int, ghost todo: seq<Task>)
      returns (copy': Ptr, result': Loc, stack': seq<Item>, ghost todo': seq<Task>)
    requires |todo| > 0 && todo[0].node == node && todo[0].loc == result && Sound(h0, Cells(mem.nodes, copy), todo)
    requires stack == Encode(todo[1..])
    requires h0[node].obj.Iteration?
    modifies mem
    ensures Sound(h0, Cells(mem.nodes, copy'), todo')
    ensures Outcome(Cells(mem.nodes, copy'), todo', add, copied, maxPos)
            == Outcome(Cells(old(mem.nodes), copy), todo, add, copied, maxPos)
    ensures StackIs(stack', result', todo', true) && Work(todo') < Work(todo)
  {
    ghost var c := Cells(mem.nodes, copy);
    var obj := mem.nodes[node].obj;
    IterStep(h0, add, todo, c, copied, maxPos, obj.arg, todo[0].t.arg, obj.min, obj.max);
    stack' := stack + [Recurse(obj.arg)];
    var p: Ptr;
    p, copy' := NewAt(mem, copy, result, Iteration(obj.arg, obj.min, obj.max));
    result' := Child(p, ArgSide);
    IterWork(todo, Task(result', obj.arg, todo[0].t.arg));
    todo' := [Task(result', obj.arg, todo[0].t.arg)] + todo[1..];
  }

  /** Copies the tree below ast into fresh nodes, numbering its leaves posAdd higher, and
      returns the new root; the original stays as it was. */
  method CopyAst(mem: Arena, ast: Ptr, posAdd: int, maxPos0: int, ghost t: Re)
      returns (copy: Ptr, posAdd': int, maxPos: int)
    requires Tree(mem.nodes, ast, t) && 0 <= maxPos0
    modifies mem
    ensures mem.nodes == old(mem.nodes) + Layout(|old(mem.nodes)|, Shift(t, posAdd))
    ensures copy == |old(mem.nodes)|
    ensures posAdd' == posAdd + Leaves(t) && maxPos == Max(maxPos0, Highest(Shift(t, posAdd)))
  {
    ghost var h0 := mem.nodes;
    copy, maxPos := NULL, maxPos0;
    var numCopied := 0;
    var result := Copy;
    var stack := [Recurse(ast)];
    ghost var todo, ready := [Task(Copy, ast, t)], true;
    ghost var goal := Outcome(Cells(h0, copy), todo, posAdd, 0, maxPos0);
    OneTask(Cells(h0, copy), ast, t, posAdd, maxPos0);
    while stack != []
      invariant Sound(h0, Cells(mem.nodes, copy), todo) && 0 <= maxPos
      invariant Outcome(Cells(mem.nodes, copy), todo, posAdd, numCopied, maxPos) == goal
      invariant StackIs(stack, result, todo, ready)
      decreases Work(todo), if ready then 0 else 1
    {
      TopOfStack(result, todo, ready, stack);
      var symbol := stack[|stack| - 1];
      stack := stack[..|stack| - 1];
      match symbol
      case SetResultPtr(loc) =>
        result, ready := loc, true;
      case Recurse(node) =>
        match mem.nodes[node].obj {
          case Literal(_, _, _) =>
            copy, numCopied, maxPos := CopyLiteral(mem, copy, result, posAdd, numCopied, maxPos, node, h0, goal, todo);
            todo, ready := todo[1..], false;
          case Iteration(_, _, _) =>
            copy, result, stack, todo := CopyIteration(mem, copy, result, stack, node, h0, posAdd, numCopied, maxPos,
                                                       todo);
          case _ =>
            copy, result, stack, todo := CopyPair(mem, copy, result, stack, node, h0, posAdd, numCopied, maxPos, todo);
        }
    }
    posAdd' := posAdd + numCopied;
    assert todo == [];
  }

  lemma OneTask(c: Cells, ast: Ptr, t: Re, add: int, maxPos: int)
    ensures Outcome(c, [Task(Copy, ast, t)], add, 0, maxPos)
            == Goal(Cells(c.h + Layout(|c.h|, Shift(t, add)), |c.h|), Leaves(t), Max(maxPos, Highest(Shift(t, add))))
  {
    HighestIsAtLeast(Shift(t, add));
    var todo := [Task(Copy, ast, t)];
    assert todo[1..] == [];
    assert Finish(c, todo, add) == Finish(Fill(c, Copy, Shift(t, add)), [], add);
    assert LeavesTodo(todo) == Leaves(t);
    assert HighestTodo(todo, add) == Max(Highest(Shift(t, add)), HighestTodo([], add));
  }

  lemma {:induction false} HighestIsAtLeast(t: Re)
    ensures -1 <= Highest(t)
  {
    match t
    case Eps =>
    case Lit(_, _, _) =>
    case Cat(l, r) => HighestIsAtLeast(l);
    case Alt(l, r) => HighestIsAtLeast(l);
    case Iter(a, _, _) => HighestIsAtLeast(a);
  }
}
