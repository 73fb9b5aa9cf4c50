/** tre_compute_nfl: filling in nullable, firstpos and lastpos of every node, bottom up,
    with an explicit stack. */
module RegexNfl {
  import opened RegexSyntax
  import opened RegexPositions
  import opened RegexAst
  import opened RegexCopy

  function Flag(b: bool): int { if b then 1 else 0 }

  function Label(h: Heap, p: Ptr, t: Re): Heap {
    if IsPtr(h, p) then h[p := Node(h[p].obj, Flag(Nullable(t)), First(t), Last(t))] else h
  }

  ghost predicate HasLabel(h: Heap, p: Ptr, t: Re) {
    IsPtr(h, p) && h[p].nullable == Flag(Nullable(t)) && h[p].firstpos == First(t) && h[p].lastpos == Last(t)
  }

  /** Every node of the tree carries its three attributes. */
  ghost predicate Labelled(h: Heap, p: Ptr, t: Re)
    requires Tree(h, p, t)
    decreases t
  {
    HasLabel(h, p, t) && LabelledBelow(h, p, t)
  }

  ghost predicate LabelledBelow(h: Heap, p: Ptr, t: Re)
    requires Tree(h, p, t)
    decreases t, 0
  {
    match t
    case Eps => true
    case Lit(_, _, _) => true
    case Cat(l, r) => Labelled(h, h[p].obj.left, l) && Labelled(h, h[p].obj.right, r)
    case Alt(l, r) => Labelled(h, h[p].obj.left, l) && Labelled(h, h[p].obj.right, r)
    case Iter(a, _, _) => Labelled(h, h[p].obj.arg, a)
  }

  /** k is h with other attributes at the addresses S. */
  ghost predicate Relabels(h: Heap, k: Heap, S: set<Ptr>) {
    |k| == |h| && forall q :: IsPtr(h, q) ==> k[q].obj == h[q].obj && (q !in S ==> k[q] == h[q])
  }

  lemma {:induction false} LabelFrame(h: Heap, k: Heap, S: set<Ptr>, p: Ptr, t: Re)
    requires Tree(h, p, t) && Relabels(h, k, S)
    ensures Tree(k, p, t) && Foot(k, p, t) == Foot(h, p, t) && (Unshared(h, p, t) ==> Unshared(k, p, t))
    ensures S !! Foot(h, p, t) && Labelled(h, p, t) ==> Labelled(k, p, t)
    decreases t
  {
    TreeFrame(h, k, p, t);
    if S !! Foot(h, p, t) && Labelled(h, p, t) { LabelsKept(h, k, p, t); }
  }

  lemma {:induction false} LabelsKept(h: Heap, k: Heap, p: Ptr, t: Re)
    requires Tree(h, p, t) && Labelled(h, p, t) && Tree(k, p, t)
    requires forall q :: q in Foot(h, p, t) && IsPtr(h, q) ==> IsPtr(k, q) && k[q] == h[q]
    ensures Labelled(k, p, t)
    decreases t
  {
    assert p in Foot(h, p, t);
    match t
    case Eps =>
    case Lit(_, _, _) =>
    case Cat(l, r) => LabelsKept(h, k, h[p].obj.left, l); LabelsKept(h, k, h[p].obj.right, r);
    case Alt(l, r) => LabelsKept(h, k, h[p].obj.left, l); LabelsKept(h, k, h[p].obj.right, r);
    case Iter(a, _, _) => LabelsKept(h, k, h[p].obj.arg, a);
  }

  // ---------- the walk, as a function on the arena ----------

  ghost function NflHeap(h: Heap, p: Ptr, t: Re): Heap
    requires Tree(h, p, t)
    ensures Relabels(h, NflHeap(h, p, t), Foot(h, p, t))
    decreases t
  {
    match t
    case Eps => Label(h, p, t)
    case Lit(_, _, _) => Label(h, p, t)
    case Cat(l, r) =>
      var h1 := NflHeap(h, h[p].obj.left, l);
      LabelFrame(h, h1, Foot(h, h[p].obj.left, l), h[p].obj.right, r);
      Label(NflHeap(h1, h[p].obj.right, r), p, t)
    case Alt(l, r) =>
      var h1 := NflHeap(h, h[p].obj.left, l);
      LabelFrame(h, h1, Foot(h, h[p].obj.left, l), h[p].obj.right, r);
      Label(NflHeap(h1, h[p].obj.right, r), p, t)
    case Iter(a, _, _) => Label(NflHeap(h, h[p].obj.arg, a), p, t)
  }

  lemma {:induction false} NflLabels(h: Heap, p: Ptr, t: Re)
    requires Tree(h, p, t) && Unshared(h, p, t)
    ensures var k := NflHeap(h, p, t); Tree(k, p, t) && Labelled(k, p, t)
    decreases t
  {
    var k := NflHeap(h, p, t);
    LabelFrame(h, k, Foot(h, p, t), p, t);
    if t.Cat? || t.Alt? {
      var pl, pr, l, r := h[p].obj.left, h[p].obj.right, t.left, t.right;
      var h1 := NflHeap(h, pl, l);
      NflLabels(h, pl, l);
      LabelFrame(h, h1, Foot(h, pl, l), pr, r);
      LabelFrame(h, h1, Foot(h, pl, l), pl, l);
      var h2 := NflHeap(h1, pr, r);
      NflLabels(h1, pr, r);
      LabelFrame(h1, h2, Foot(h1, pr, r), pl, l);
      LabelFrame(h1, h2, Foot(h1, pr, r), pr, r);
      LabelFrame(h2, k, {p}, pl, l);
      LabelFrame(h2, k, {p}, pr, r);
      return;
    }
    if t.Iter? {
      var h1 := NflHeap(h, h[p].obj.arg, t.arg);
      NflLabels(h, h[p].obj.arg, t.arg);
      LabelFrame(h, h1, Foot(h, h[p].obj.arg, t.arg), h[p].obj.arg, t.arg);
      LabelFrame(h1, k, {p}, h[p].obj.arg, t.arg);
      return;
    }
  }

  // ---------- what remains to be done, as a list ----------

  datatype Item = NflRecurse(node: Ptr) | NflPost(node: Ptr)

  /** Label the tree t at p, or just its root once everything below is labelled. */
  datatype Task = DoNode(p: Ptr, t: Re) | DoPost(p: Ptr, t: Re)

  ghost predicate CanRun(h: Heap, task: Task) {
    Tree(h, task.p, task.t) &&
    if task.DoNode? then Unshared(h, task.p, task.t)
    else LabelledBelow(h, task.p, task.t) && !task.t.Eps? && !task.t.Lit?
  }

  ghost function RunTask(h: Heap, task: Task): Heap
    requires CanRun(h, task)
  {
    if task.DoNode? then NflHeap(h, task.p, task.t) else Label(h, task.p, task.t)
  }

  ghost predicate Ready(h: Heap, tasks: seq<Task>)
    decreases |tasks|
  {
    tasks == [] || (CanRun(h, tasks[0]) && Ready(RunTask(h, tasks[0]), tasks[1..]))
  }

  ghost function Finish(h: Heap, tasks: seq<Task>): Heap
    requires Ready(h, tasks)
    decreases |tasks|
  {
    if tasks == [] then h else Finish(RunTask(h, tasks[0]), tasks[1..])
  }

  ghost function Work(tasks: seq<Task>): nat {
    if tasks == [] then 0 else (if tasks[0].DoNode? then 2 * Size(tasks[0].t) else 1) + Work(tasks[1..])
  }

  ghost function Encode(tasks: seq<Task>): seq<Item> {
    if tasks == [] then []
    else Encode(tasks[1..]) + [if tasks[0].DoNode? then NflRecurse(tasks[0].p) else NflPost(tasks[0].p)]
  }

  lemma TopTask(stack: seq<Item>, tasks: seq<Task>)
    requires stack == Encode(tasks) && stack != []
    ensures tasks != [] && stack[..|stack| - 1] == Encode(tasks[1..])
    ensures stack[|stack| - 1] == if tasks[0].DoNode? then NflRecurse(tasks[0].p) else NflPost(tasks[0].p)
  {
  }

  lemma Rest<T>(x: T, rest: seq<T>)
    ensures ([x] + rest)[1..] == rest
  {
  }

  lemma PairTasks(h: Heap, tasks: seq<Task>, pl: Ptr, pr: Ptr)
    requires Ready(h, tasks) && tasks != [] && tasks[0].DoNode? && (tasks[0].t.Cat? || tasks[0].t.Alt?)
    requires var obj := h[tasks[0].p].obj; (obj.Catenation? || obj.Union?) && pl == obj.left && pr == obj.right
    ensures var t := tasks[0].t;
            var tasks' := [DoNode(pl, t.left)] + ([DoNode(pr, t.right)] + ([DoPost(tasks[0].p, t)] + tasks[1..]));
            Ready(h, tasks') && Finish(h, tasks') == Finish(h, tasks)
  {
    var p, t := tasks[0].p, tasks[0].t;
    var x, y, z := DoNode(pl, t.left), DoNode(pr, t.right), DoPost(p, t);
    var t3 := [z] + tasks[1..];
    var t2 := [y] + t3;
    Rest(x, t2); Rest(y, t3); Rest(z, tasks[1..]);
    var h1 := RunTask(h, x);
    LabelFrame(h, h1, Foot(h, pl, t.left), pr, t.right);
    var h2 := RunTask(h1, y);
    PairBelow(h, h1, h2, p, t);
    var h3 := RunTask(h2, z);
    assert h3 == RunTask(h, tasks[0]);
    assert Ready(h2, t3) && Ready(h1, t2);
    assert Finish(h, [x] + t2) == Finish(h1, t2) == Finish(h2, t3) == Finish(h3, tasks[1..]);
  }

  lemma PairWork(p: Ptr, t: Re, pl: Ptr, pr: Ptr, rest: seq<Task>)
    requires t.Cat? || t.Alt?
    ensures var tasks' := [DoNode(pl, t.left)] + ([DoNode(pr, t.right)] + ([DoPost(p, t)] + rest));
            && Work(tasks') < 2 * Size(t) + Work(rest)
            && Encode(tasks') == Encode(rest) + [NflPost(p), NflRecurse(pr), NflRecurse(pl)]
  {
    var x, y, z := DoNode(pl, t.left), DoNode(pr, t.right), DoPost(p, t);
    var t3 := [z] + rest;
    var t2 := [y] + t3;
    Rest(x, t2); Rest(y, t3); Rest(z, rest);
    assert Work([x] + t2) == 2 * Size(t.left) + Work(t2);
    assert Encode([x] + t2) == Encode(t2) + [NflRecurse(pl)];
    assert Encode(t2) == Encode(t3) + [NflRecurse(pr)];
  }

  lemma PairBelow(h: Heap, h1: Heap, h2: Heap, p: Ptr, t: Re)
    requires Tree(h, p, t) && Unshared(h, p, t) && (t.Cat? || t.Alt?)
    requires h1 == NflHeap(h, h[p].obj.left, t.left)
    requires Tree(h1, h[p].obj.right, t.right) && h2 == NflHeap(h1, h[p].obj.right, t.right)
    ensures Tree(h2, p, t) && LabelledBelow(h2, p, t)
  {
    var pl, pr, l, r := h[p].obj.left, h[p].obj.right, t.left, t.right;
    NflLabels(h, pl, l);
    LabelFrame(h, h1, Foot(h, pl, l), pr, r);
    LabelFrame(h, h1, Foot(h, pl, l), pl, l);
    NflLabels(h1, pr, r);
    LabelFrame(h1, h2, Foot(h1, pr, r), pl, l);
  }

  lemma IterTasks(h: Heap, tasks: seq<Task>, arg: Ptr)
    requires Ready(h, tasks) && tasks != [] && tasks[0].DoNode? && tasks[0].t.Iter?
    requires h[tasks[0].p].obj.Iteration? && arg == h[tasks[0].p].obj.arg
    ensures var t := tasks[0].t;
            var tasks' := [DoNode(arg, t.arg)] + ([DoPost(tasks[0].p, t)] + tasks[1..]);
            Ready(h, tasks') && Finish(h, tasks') == Finish(h, tasks) && Work(tasks') < Work(tasks)
            && Encode(tasks') == Encode(tasks[1..]) + [NflPost(tasks[0].p), NflRecurse(arg)]
  {
    var p, t := tasks[0].p, tasks[0].t;
    var x, z := DoNode(arg, t.arg), DoPost(p, t);
    var t2 := [z] + tasks[1..];
    Rest(x, t2); Rest(z, tasks[1..]);
    var h1 := RunTask(h, x);
    NflLabels(h, arg, t.arg);
    LabelFrame(h, h1, Foot(h, arg, t.arg), p, t);
    var h2 := RunTask(h1, z);
    assert h2 == RunTask(h, tasks[0]);
    assert Finish(h, [x] + t2) == Finish(h1, t2) == Finish(h2, tasks[1..]);
  }

  // ---------- the code ----------

  /** tre_set_union, without tags and assertions: the one set after the other. */
  method SetUnion(set1: seq<Entry>, set2: seq<Entry>) returns (newSet: seq<Entry>)
    ensures newSet == set1 + set2
  {
    newSet := [];
    var s1 := 0;
    while s1 < |set1|
      invariant 0 <= s1 <= |set1| && newSet == set1[..s1]
    {
      newSet := newSet + [set1[s1]];
      s1 := s1 + 1;
    }
    var s2 := 0;
    while s2 < |set2|
      invariant 0 <= s2 <= |set2| && newSet == set1 + set2[..s2]
    {
      newSet := newSet + [set2[s2]];
      s2 := s2 + 1;
    }
  }

  method SetAttributes(mem: Arena, p: Ptr, nullable: bool, firstpos: seq<Entry>, lastpos: seq<Entry>)
    requires IsPtr(mem.nodes, p)
    modifies mem
    ensures mem.nodes == old(mem.nodes)[p := Node(old(mem.nodes)[p].obj, Flag(nullable), firstpos, lastpos)]
  {
    mem.nodes := mem.nodes[p := Node(mem.nodes[p].obj, Flag(nullable), firstpos, lastpos)];
  }

  lemma ChildLabels(h: Heap, p: Ptr, t: Re)
    requires CanRun(h, DoPost(p, t))
    ensures t.Cat? ==> h[p].obj.Catenation? && HasLabel(h, h[p].obj.left, t.left)
                       && HasLabel(h, h[p].obj.right, t.right)
    ensures t.Alt? ==> h[p].obj.Union? && HasLabel(h, h[p].obj.left, t.left) && HasLabel(h, h[p].obj.right, t.right)
    ensures t.Iter? ==> h[p].obj.Iteration? && h[p].obj.min == t.min && HasLabel(h, h[p].obj.arg, t.arg)
  {
    match t
    case Cat(l, r) =>
      assert Labelled(h, h[p].obj.left, l) && Labelled(h, h[p].obj.right, r);
    case Alt(l, r) =>
      assert Labelled(h, h[p].obj.left, l) && Labelled(h, h[p].obj.right, r);
    case Iter(a, _, _) =>
      assert Labelled(h, h[p].obj.arg, a);
  }

  /** case NFL_POST_CATENATION */
  method PostCatenation(mem: Arena, p: Ptr, left: Ptr, right: Ptr, ghost t: Re)
    requires CanRun(mem.nodes, DoPost(p, t)) && mem.nodes[p].obj == Catenation(left, right)
    modifies mem
    ensures mem.nodes == Label(old(mem.nodes), p, t)
  {
    ChildLabels(mem.nodes, p, t);
    var l, r := mem.nodes[left], mem.nodes[right];
    var firstpos, lastpos := l.firstpos, r.lastpos;
    if l.nullable != 0 { firstpos := SetUnion(r.firstpos, l.firstpos); }
    if r.nullable != 0 { lastpos := SetUnion(l.lastpos, r.lastpos); }
    SetAttributes(mem, p, l.nullable != 0 && r.nullable != 0, firstpos, lastpos);
  }

  /** case NFL_POST_UNION */
  method PostUnion(mem: Arena, p: Ptr, left: Ptr, right: Ptr, ghost t: Re)
    requires CanRun(mem.nodes, DoPost(p, t)) && mem.nodes[p].obj == Union(left, right)
    modifies mem
    ensures mem.nodes == Label(old(mem.nodes), p, t)
  {
    ChildLabels(mem.nodes, p, t);
    var l, r := mem.nodes[left], mem.nodes[right];
    var firstpos := SetUnion(l.firstpos, r.firstpos);
    var lastpos := SetUnion(l.lastpos, r.lastpos);
    SetAttributes(mem, p, l.nullable != 0 || r.nullable != 0, firstpos, lastpos);
  }

  /** case NFL_POST_ITERATION */
  method PostIteration(mem: Arena, p: Ptr, arg: Ptr, min: int, ghost t: Re)
    requires CanRun(mem.nodes, DoPost(p, t)) && mem.nodes[p].obj.Iteration?
    requires mem.nodes[p].obj.arg == arg && mem.nodes[p].obj.min == min
    modifies mem
    ensures mem.nodes == Label(old(mem.nodes), p, t)
  {
    ChildLabels(mem.nodes, p, t);
    var a := mem.nodes[arg];
    SetAttributes(mem, p, min == 0 || a.nullable != 0, a.firstpos, a.lastpos);
  }

  method Post(mem: Arena, p: Ptr, ghost t: Re)
    requires CanRun(mem.nodes, DoPost(p, t))
    modifies mem
    ensures mem.nodes == Label(old(mem.nodes), p, t)
  {
    match mem.nodes[p].obj
    case Union(left, right) => PostUnion(mem, p, left, right, t);
    case Catenation(left, right) => PostCatenation(mem, p, left, right, t);
    case Iteration(arg, min, _) => PostIteration(mem, p, arg, min, t);
  }

  /** case NFL_RECURSE */
  method RecurseInto(mem: Arena, node: Ptr, stack: seq<Item>, ghost tasks: seq<Task>)
      returns (stack': seq<Item>, ghost tasks': seq<Task>)
    requires Ready(mem.nodes, tasks) && tasks != [] && tasks[0].DoNode?
    requires tasks[0].p == node && stack == Encode(tasks[1..])
    modifies mem
    ensures Ready(mem.nodes, tasks') && stack' == Encode(tasks')
    ensures Finish(mem.nodes, tasks') == old(Finish(mem.nodes, tasks))
    ensures Work(tasks') < Work(tasks)
  {
    ghost var t := tasks[0].t;
    match mem.nodes[node].obj
    case Literal(min, max, position) =>
      stack', tasks' := stack, tasks[1..];
      if min < 0 {
        SetAttributes(mem, node, true, [], []);
      } else {
        SetAttributes(mem, node, false, [Entry(position, min, max)], [Entry(position, min, max)]);
      }
      return;
    case Iteration(arg, _, _) =>
      IterTasks(mem.nodes, tasks, arg);
      stack' := stack + [NflPost(node), NflRecurse(arg)];
      tasks' := [DoNode(arg, t.arg)] + ([DoPost(node, t)] + tasks[1..]);
      return;
    case Union(left, right) =>
      PairTasks(mem.nodes, tasks, left, right);
      PairWork(node, t, left, right, tasks[1..]);
      stack' := stack + [NflPost(node), NflRecurse(right), NflRecurse(left)];
      tasks' := [DoNode(left, t.left)] + ([DoNode(right, t.right)] + ([DoPost(node, t)] + tasks[1..]));
      return;
    case Catenation(left, right) =>
      PairTasks(mem.nodes, tasks, left, right);
      PairWork(node, t, left, right, tasks[1..]);
      stack' := stack + [NflPost(node), NflRecurse(right), NflRecurse(left)];
      tasks' := [DoNode(left, t.left)] + ([DoNode(right, t.right)] + ([DoPost(node, t)] + tasks[1..]));
      return;
  }

  /** Fills in the attributes of every node of the tree. */
  method ComputeNfl(mem: Arena, tree: Ptr, ghost t: Re)
    requires Tree(mem.nodes, tree, t) && Unshared(mem.nodes, tree, t)
    modifies mem
    ensures Tree(mem.nodes, tree, t) && Labelled(mem.nodes, tree, t)
    ensures Relabels(old(mem.nodes), mem.nodes, old(Foot(mem.nodes, tree, t)))
  {
    var stack := [NflRecurse(tree)];
    ghost var tasks := [DoNode(tree, t)];
    assert tasks[1..] == [];
    ghost var goal := NflHeap(mem.nodes, tree, t);
    NflLabels(mem.nodes, tree, t);
    while stack != []
      invariant Ready(mem.nodes, tasks) && stack == Encode(tasks) && Finish(mem.nodes, tasks) == goal
      decreases Work(tasks)
    {
      TopTask(stack, tasks);
      var symbol := stack[|stack| - 1];
      stack := stack[..|stack| - 1];
      match symbol
      case NflRecurse(node) =>
        stack, tasks := RecurseInto(mem, node, stack, tasks);
      case NflPost(node) =>
        Post(mem, node, tasks[0].t);
        tasks := tasks[1..];
    }
    assert tasks == [];
  }
}
