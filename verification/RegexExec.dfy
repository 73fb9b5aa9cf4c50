/** tre_tnfa_run_parallel: following every path through the automaton at once. */
module RegexExec {
  import opened RegexTnfa
  import opened RegexTags
  import opened RegexRun

  // ---------- the reach list ----------

  /** tre_reach_pos_t: when a state was last reached, and in which entry of reach_next. */
  datatype ReachPos = ReachPos(pos: int, slot: int)

  /** The states on a list, and for each a place in the text where its path started. */
  datatype View = View(ids: seq<int>, starts: seq<int>)

  const EMPTY_VIEW := View([], [])

  ghost predicate Layout(a: Automaton, offs: seq<int>) {
    && |offs| == |a.rows| && 0 <= a.final < |offs|
    && (forall p, q :: 0 <= p < q < |offs| ==> offs[p] < offs[q])
    && (forall p, tr :: 0 <= p < |a.rows| && tr in a.rows[p] ==>
        0 <= tr.stateId < |offs| && tr.state == offs[tr.stateId])
    && (forall tr :: tr in a.first ==> 0 <= tr.stateId < |offs| && tr.state == offs[tr.stateId])
  }

  /** What does not change during one run of the matcher; tracks says that tag 0 is the start of
      the match. */
  datatype Setup = Setup(a: Automaton, offs: seq<int>, caps: seq<nat>, directions: seq<Direction>, numTags: nat,
                         tracks: bool)

  ghost predicate SetupOk(u: Setup, final: int) {
    && Layout(u.a, u.offs) && final == u.offs[u.a.final]
    && u.numTags <= |u.directions| && (u.tracks ==> StartTag(u.a, u.numTags, u.directions))
  }

  ghost predicate Simple(u: Setup) { u.tracks || u.numTags == 0 }

  ghost predicate Sorted(s: seq<int>) { forall j, k :: 0 <= j < k < |s| ==> s[j] <= s[k] }

  /** Entry k of the list is state v.ids[k]; marks says which states are on it. Where tag 0 tracks
      the start of a path, the tags of each entry agree with its place in the text. */
  ghost predicate ListIs(u: Setup, next: seq<Reach>, marks: seq<ReachPos>, pos: int, v: View) {
    && |v.ids| == |v.starts| <= |marks| == |u.offs| < |next|
    && (forall k :: 0 <= k < |v.ids| ==>
        0 <= v.ids[k] < |u.offs| && next[k].state == u.offs[v.ids[k]] && marks[v.ids[k]] == ReachPos(pos, k))
    && (forall id :: 0 <= id < |marks| && marks[id].pos >= pos ==>
        0 <= marks[id].slot < |v.ids| && v.ids[marks[id].slot] == id)
    && (forall k :: 0 <= k < |v.ids| ==>
        |next[k].tags| == u.numTags && (u.tracks ==> StartsAt(next[k].tags, v.starts[k])))
  }

  /** Each state on the list is reached by the path it is said to be. */
  ghost predicate ViewSound(a: Automaton, text: seq<int>, pos: int, limit: int, v: View) {
    |v.ids| == |v.starts| && forall k :: 0 <= k < |v.ids| ==>
      v.starts[k] <= limit && Thread(a, text, v.starts[k], pos, v.ids[k])
  }

  /** State q is on the list, by a path that starts at i or before. */
  ghost predicate Listed(v: View, q: int, i: int, simple: bool) {
    exists k :: 0 <= k < |v.ids| == |v.starts| && v.ids[k] == q && (simple ==> v.starts[k] <= i)
  }

  /** Every path that starts at limit or before has its state on the list. */
  ghost predicate ViewComplete(a: Automaton, text: seq<int>, pos: int, limit: int, v: View, simple: bool) {
    forall i, q :: i <= limit && Thread(a, text, i, pos, q) ==> Listed(v, q, i, simple)
  }

  ghost function UpTo(n: nat): (s: set<int>)
    ensures |s| == n && forall i :: i in s <==> 0 <= i < n
  {
    if n == 0 then {} else UpTo(n - 1) + {n - 1}
  }

  ghost function SetOf(ids: seq<int>): (s: set<int>)
    requires NoRepeats(ids)
    ensures |s| == |ids| && forall i :: i in s <==> i in ids
  {
    if ids == [] then {} else
      var init, last := ids[..|ids| - 1], ids[|ids| - 1];
      assert ids == init + [last];
      assert forall j :: 0 <= j < |init| ==> init[j] == ids[j] && init[j] != last;
      SetOf(init) + {last}
  }

  /** Distinct numbers below n that leave out one of them are fewer than n. */
  lemma Pigeons(ids: seq<int>, n: nat, q: int)
    requires NoRepeats(ids)
    requires forall k :: 0 <= k < |ids| ==> 0 <= ids[k] < n && ids[k] != q
    requires 0 <= q < n
    ensures |ids| < n
  {
    var s, t := SetOf(ids) + {q}, UpTo(n);
    assert s * t == s && s + t == t && s - t == {};
  }

  /** Adding a state that is not on the list yet. */
  lemma ListGrows(u: Setup, next: seq<Reach>, marks: seq<ReachPos>, pos: int, v: View, q: int, i: int, entry: Reach)
    requires ListIs(u, next, marks, pos, v) && 0 <= q < |u.offs| && marks[q].pos < pos
    requires entry.state == u.offs[q] && |entry.tags| == u.numTags && (u.tracks ==> StartsAt(entry.tags, i))
    ensures |v.ids| + 1 < |next|
    ensures var n := |v.ids|; ListIs(u, next[n := entry], marks[q := ReachPos(pos, n)], pos, Push(v, q, i))
  {
    Pigeons(v.ids, |u.offs|, q);
  }

  function Push(v: View, q: int, i: int): View { View(v.ids + [q], v.starts + [i]) }

  lemma EntriesGrow(next: seq<Reach>, v: View, q: int, i: int, entry: Reach)
    requires |v.ids| < |next|
    ensures Entries(Push(v, q, i).ids, next[|v.ids| := entry]) == Entries(v.ids, next) + {Arrival(q, entry.tags)}
  {
    var n, next', ids' := |v.ids|, next[|v.ids| := entry], Push(v, q, i).ids;
    assert Arrival(ids'[n], next'[n].tags) == Arrival(q, entry.tags);
    forall x | x in Entries(v.ids, next) ensures x in Entries(ids', next') {
      var k :| 0 <= k < n && x == Arrival(v.ids[k], next[k].tags);
      assert x == Arrival(ids'[k], next'[k].tags);
    }
  }

  // ---------- following one transition ----------

  /** What has become of the best match (oldEo, oldTags) once the states of v are reached. A later
      path to the final state can take its place there without being asked where it started. */
  ghost predicate Scored(u: Setup, next: seq<Reach>, v: View, seen: set<Arrival>, pos: int, oldEo: int,
                         oldTags: seq<int>, eo: int, tags: seq<int>) {
    && |v.ids| == |v.starts|
    && ((eo == oldEo && tags == oldTags)
        || (eo == pos && Arrival(u.a.final, tags) in Entries(v.ids, next) && (oldEo < 0 || u.numTags > 0)))
    && (u.a.final in v.ids ==> 0 <= eo)
    && (u.tracks ==> forall k :: 0 <= k < |v.ids| && v.ids[k] == u.a.final ==>
         FinalAt(u, seen, v.starts[k], pos, oldEo, oldTags, eo, tags))
  }

  ghost predicate FinalAt(u: Setup, seen: set<Arrival>, start: int, pos: int, oldEo: int, oldTags: seq<int>, eo: int,
                          tags: seq<int>) {
    if oldEo < 0 || (|oldTags| > 0 && start <= oldTags[0]) then eo == pos && StartsAt(tags, start)
    else (eo == oldEo && tags == oldTags) || (eo == pos && StartsAt(tags, start) && Tie(u.a.final, seen))
  }

  /** Two paths with the same start and different tags have come to state q. */
  ghost predicate Tie(q: int, seen: set<Arrival>) {
    exists x, y :: x in seen && y in seen && x.id == y.id == q && x.tags != y.tags
                   && |x.tags| > 0 && StartsAt(y.tags, x.tags[0])
  }

  lemma TieStays(q: int, seen: set<Arrival>, seen': set<Arrival>)
    requires seen <= seen'
    ensures Tie(q, seen) ==> Tie(q, seen')
  {
  }

  lemma OnList(u: Setup, next: seq<Reach>, marks: seq<ReachPos>, pos: int, v: View, q: int)
    requires ListIs(u, next, marks, pos, v) && 0 <= q < |u.offs|
    ensures q in v.ids <==> marks[q].pos >= pos
    ensures q in v.ids ==> 0 <= marks[q].slot < |v.ids| && v.ids[marks[q].slot] == q
    ensures NoRepeats(v.ids)
  {
  }

  lemma StatesDiffer(offs: seq<int>, p: int, q: int)
    requires forall p, r :: 0 <= p < r < |offs| ==> offs[p] < offs[r]
    requires 0 <= p < |offs| && 0 <= q < |offs|
    ensures p != q ==> offs[p] != offs[q]
  {
  }

  /** The reach_next list together with the best match so far. */
  ghost predicate Progress(u: Setup, next: seq<Reach>, marks: seq<ReachPos>, pos: int, v: View, seen: set<Arrival>,
                           oldEo: int, oldTags: seq<int>, eo: int, tags: seq<int>)
  {
    && 0 <= pos && -1 <= eo && |tags| == u.numTags
    && |marks| == |u.offs| && |next| == |u.offs| + 1
    && ListIs(u, next, marks, pos, v)
    && Scored(u, next, v, seen, pos, oldEo, oldTags, eo, tags)
  }

  /** Found an unvisited node. */
  method VisitNew(q: int, state: int, tmpTags: seq<int>, pos: int, next: array<Reach>, marks: array<ReachPos>, n: nat,
                  final: int, matchEo: int, matchTags: seq<int>,
                  ghost i: int, ghost v: View, ghost u: Setup, ghost oldEo: int, ghost oldTags: seq<int>,
                  ghost seen: set<Arrival>)
      returns (matchEo': int, matchTags': seq<int>)
    requires SetupOk(u, final) && Progress(u, next[..], marks[..], pos, v, seen, oldEo, oldTags, matchEo, matchTags)
    requires Winners(u.directions, v.ids, next[..], seen)
    requires n == |v.ids| && 0 <= q < |u.offs| && state == u.offs[q] && marks[q].pos < pos
    requires |tmpTags| == u.numTags && (u.tracks ==> StartsAt(tmpTags, i))
    modifies next, marks
    ensures Progress(u, next[..], marks[..], pos, Push(v, q, i), seen + {Arrival(q, tmpTags)}, oldEo, oldTags, matchEo',
                     matchTags')
    ensures Winners(u.directions, Push(v, q, i).ids, next[..], seen + {Arrival(q, tmpTags)})
  {
    hide ListIs, Scored, Winners, Entries, Layout, StartTag;
    ghost var next0, marks0, entry := next[..], marks[..], Reach(state, tmpTags);
    ghost var more := seen + {Arrival(q, tmpTags)};
    ListSizes(u, next0, marks0, pos, v);
    LayoutOf(u, q);
    OnList(u, next0, marks0, pos, v, q);
    ListGrows(u, next0, marks0, pos, v, q, i, entry);
    WinnersNew(u.directions, v.ids, next0, seen, q, entry);
    next[n] := Reach(state, tmpTags);
    marks[q] := ReachPos(pos, n);
    assert next[..] == next0[n := entry] && marks[..] == marks0[q := ReachPos(pos, n)];
    matchEo', matchTags' := matchEo, matchTags;
    if state == final {
      if matchEo == -1 || (|tmpTags| > 0 && tmpTags[0] <= matchTags[0]) {
        matchEo', matchTags' := pos, tmpTags;
      }
      ScoredFinal(u, next0, v, seen, more, i, pos, oldEo, oldTags, matchEo, matchTags, entry);
    } else {
      ScoredOther(u, next0, v, seen, more, q, i, pos, oldEo, oldTags, matchEo, matchTags, entry);
    }
  }

  lemma ListSizes(u: Setup, next: seq<Reach>, marks: seq<ReachPos>, pos: int, v: View)
    requires ListIs(u, next, marks, pos, v)
    ensures |v.ids| == |v.starts| < |next|
  {
  }

  lemma LayoutOf(u: Setup, q: int)
    requires Layout(u.a, u.offs) && 0 <= q < |u.offs|
    ensures 0 <= u.a.final < |u.offs| && (q != u.a.final ==> u.offs[q] != u.offs[u.a.final])
  {
    StatesDiffer(u.offs, q, u.a.final);
  }

  /** The final state is reached for the first time. */
  lemma ScoredFinal(u: Setup, next: seq<Reach>, v: View, seen: set<Arrival>, more: set<Arrival>, i: int, pos: int,
                    oldEo: int, oldTags: seq<int>, eo: int, tags: seq<int>, entry: Reach)
    requires seen <= more
    requires Scored(u, next, v, seen, pos, oldEo, oldTags, eo, tags) && u.a.final !in v.ids && 0 <= pos && -1 <= eo
    requires |v.ids| < |next| && |entry.tags| == |tags| == u.numTags && (u.tracks ==> StartsAt(entry.tags, i))
    ensures var better := eo == -1 || (|entry.tags| > 0 && entry.tags[0] <= tags[0]);
            Scored(u, next[|v.ids| := entry], Push(v, u.a.final, i), more, pos, oldEo, oldTags,
                   if better then pos else eo, if better then entry.tags else tags)
  {
    EntriesGrow(next, v, u.a.final, i, entry);
    NotEntered(v.ids, next, u.a.final, tags);
    hide Entries;
  }

  lemma NotEntered(ids: seq<int>, next: seq<Reach>, q: int, tags: seq<int>)
    ensures Arrival(q, tags) in Entries(ids, next) ==> q in ids
  {
  }

  lemma ScoredOther(u: Setup, next: seq<Reach>, v: View, seen: set<Arrival>, more: set<Arrival>, q: int, i: int,
                    pos: int, oldEo: int, oldTags: seq<int>, eo: int, tags: seq<int>, entry: Reach)
    requires seen <= more
    requires Scored(u, next, v, seen, pos, oldEo, oldTags, eo, tags) && q != u.a.final && |v.ids| < |next|
    ensures Scored(u, next[|v.ids| := entry], Push(v, q, i), more, pos, oldEo, oldTags, eo, tags)
  {
    EntriesGrow(next, v, q, i, entry);
    TieStays(u.a.final, seen, more);
    hide Entries;
    assert u.a.final in v.ids + [q] <==> u.a.final in v.ids;
  }

  /** Another path has also reached this state: the winner is chosen by the tags. */
  method VisitAgain(q: int, state: int, tmpTags: seq<int>, pos: int, next: array<Reach>, marks: array<ReachPos>,
                    final: int, directions: seq<Direction>, matchEo: int, matchTags: seq<int>,
                    ghost i: int, ghost v: View, ghost u: Setup, ghost oldEo: int, ghost oldTags: seq<int>,
                    ghost seen: set<Arrival>)
      returns (matchEo': int, matchTags': seq<int>)
    requires SetupOk(u, final) && directions == u.directions
    requires Progress(u, next[..], marks[..], pos, v, seen, oldEo, oldTags, matchEo, matchTags)
    requires Winners(u.directions, v.ids, next[..], seen)
    requires 0 <= q < |u.offs| && state == u.offs[q] && pos <= marks[q].pos
    requires |tmpTags| == u.numTags && (u.tracks ==> StartsAt(tmpTags, i) && Bounded(v, i))
    modifies next
    ensures Progress(u, next[..], marks[..], pos, v, seen + {Arrival(q, tmpTags)}, oldEo, oldTags, matchEo', matchTags')
    ensures Winners(u.directions, v.ids, next[..], seen + {Arrival(q, tmpTags)})
  {
    hide ListIs, Scored, Winners, Beats, Layout, StartTag, Bounded;
    ghost var next0, more := next[..], seen + {Arrival(q, tmpTags)};
    OnList(u, next0, marks[..], pos, v, q);
    ListSizes(u, next0, marks[..], pos, v);
    SlotTags(u, next0, marks[..], pos, v, marks[q].slot);
    LayoutOf(u, q);
    matchEo', matchTags' := matchEo, matchTags;
    var slot := marks[q].slot;
    var win := TagOrder(directions, tmpTags, next[slot].tags);
    if win {
      WinnersChange(u.directions, v.ids, next0, seen, q, slot, tmpTags);
      TieAtStart(u, tmpTags, next0[slot].tags, i, v, slot);
      SeenThere(u, v, next0, seen, slot);
      next[slot] := next[slot].(tags := tmpTags);
      assert next[..] == next0[slot := next0[slot].(tags := tmpTags)];
      SlotChanges(u, next0, marks[..], pos, v, slot, tmpTags);
      if state == final {
        matchEo', matchTags' := pos, tmpTags;
        ScoredAgain(u, next0, v, seen, more, slot, pos, oldEo, oldTags, matchEo, matchTags, tmpTags);
      } else {
        ScoredApart(u, next0, v, seen, more, slot, pos, oldEo, oldTags, matchEo, matchTags, tmpTags);
      }
    } else {
      WinnersStay(u.directions, v.ids, next0, seen, q, slot, tmpTags);
      ScoredMore(u, next0, v, seen, more, pos, oldEo, oldTags, matchEo, matchTags);
    }
  }

  lemma SlotTags(u: Setup, next: seq<Reach>, marks: seq<ReachPos>, pos: int, v: View, slot: int)
    requires ListIs(u, next, marks, pos, v) && 0 <= slot < |v.ids|
    ensures slot < |next| && |next[slot].tags| == u.numTags && (u.tracks ==> StartsAt(next[slot].tags, v.starts[slot]))
  {
  }

  lemma SlotChanges(u: Setup, next: seq<Reach>, marks: seq<ReachPos>, pos: int, v: View, slot: int, tags: seq<int>)
    requires ListIs(u, next, marks, pos, v) && 0 <= slot < |v.ids| && |tags| == u.numTags
    requires u.tracks ==> StartsAt(tags, v.starts[slot])
    ensures ListIs(u, next[slot := next[slot].(tags := tags)], marks, pos, v)
  {
  }

  /** A later path only wins with the same start, and then there is another tag to tell by. */
  lemma TieAtStart(u: Setup, t1: seq<int>, t2: seq<int>, i: int, v: View, slot: int)
    requires Beats(u.directions, t1, t2) && 0 <= slot < |v.ids| == |v.starts| && |t1| == |t2| == u.numTags
    requires u.tracks ==> StartTag(u.a, u.numTags, u.directions)
    requires u.tracks ==> StartsAt(t1, i) && StartsAt(t2, v.starts[slot]) && Bounded(v, i)
    ensures u.numTags > 0 && t1 != t2 && (u.tracks ==> StartsAt(t1, v.starts[slot]))
  {
    var k: nat :| Wins(u.directions, t1, t2, k);
    if u.tracks && k > 0 { assert t1[..k][0] == t2[..k][0]; }
  }

  lemma SeenThere(u: Setup, v: View, next: seq<Reach>, seen: set<Arrival>, slot: int)
    requires Winners(u.directions, v.ids, next, seen) && 0 <= slot < |v.ids|
    ensures Arrival(v.ids[slot], next[slot].tags) in seen
  {
  }

  lemma ScoredMore(u: Setup, next: seq<Reach>, v: View, seen: set<Arrival>, more: set<Arrival>, pos: int, oldEo: int,
                   oldTags: seq<int>, eo: int, tags: seq<int>)
    requires Scored(u, next, v, seen, pos, oldEo, oldTags, eo, tags) && seen <= more
    ensures Scored(u, next, v, more, pos, oldEo, oldTags, eo, tags)
  {
    hide Entries;
    TieStays(u.a.final, seen, more);
  }

  lemma EntriesChange(ids: seq<int>, next: seq<Reach>, slot: nat, tags: seq<int>)
    requires slot < |ids| <= |next| && NoRepeats(ids)
    ensures var next' := next[slot := next[slot].(tags := tags)];
      && Arrival(ids[slot], tags) in Entries(ids, next')
      && forall x :: x in Entries(ids, next) && x.id != ids[slot] ==> x in Entries(ids, next')
  {
    var next' := next[slot := next[slot].(tags := tags)];
    assert next'[slot].tags == tags;
    forall x | x in Entries(ids, next) && x.id != ids[slot] ensures x in Entries(ids, next') {
      var k :| 0 <= k < |ids| && x == Arrival(ids[k], next[k].tags);
      assert x == Arrival(ids[k], next'[k].tags);
    }
  }

  /** The final state's path gives way to another. */
  lemma ScoredAgain(u: Setup, next: seq<Reach>, v: View, seen: set<Arrival>, more: set<Arrival>, slot: nat, pos: int,
                    oldEo: int, oldTags: seq<int>, eo: int, tags: seq<int>, tmpTags: seq<int>)
    requires more == seen + {Arrival(u.a.final, tmpTags)} && slot < |next|
    requires Arrival(u.a.final, next[slot].tags) in seen && tmpTags != next[slot].tags
    requires Scored(u, next, v, seen, pos, oldEo, oldTags, eo, tags) && slot < |v.ids| < |next| && NoRepeats(v.ids)
    requires v.ids[slot] == u.a.final && 0 <= pos && u.numTags > 0
    requires u.tracks ==> StartsAt(tmpTags, v.starts[slot]) && StartsAt(next[slot].tags, v.starts[slot])
    ensures Scored(u, next[slot := next[slot].(tags := tmpTags)], v, more, pos, oldEo, oldTags, pos, tmpTags)
  {
    EntriesChange(v.ids, next, slot, tmpTags);
    hide Entries;
    forall k | u.tracks && 0 <= k < |v.ids| && v.ids[k] == u.a.final
      ensures FinalAt(u, more, v.starts[k], pos, oldEo, oldTags, pos, tmpTags)
    {
      assert k == slot;
      var x, y := Arrival(u.a.final, next[slot].tags), Arrival(u.a.final, tmpTags);
      assert x in more && y in more;
    }
  }

  lemma ScoredApart(u: Setup, next: seq<Reach>, v: View, seen: set<Arrival>, more: set<Arrival>, slot: nat, pos: int,
                    oldEo: int, oldTags: seq<int>, eo: int, tags: seq<int>, tmpTags: seq<int>)
    requires seen <= more
    requires Scored(u, next, v, seen, pos, oldEo, oldTags, eo, tags) && slot < |v.ids| < |next| && NoRepeats(v.ids)
    requires v.ids[slot] != u.a.final
    ensures Scored(u, next[slot := next[slot].(tags := tmpTags)], v, more, pos, oldEo, oldTags, eo, tags)
  {
    EntriesChange(v.ids, next, slot, tmpTags);
    TieStays(u.a.final, seen, more);
    hide Entries;
  }

  method Visit(q: int, state: int, tmpTags: seq<int>, pos: int, next: array<Reach>, marks: array<ReachPos>, n: nat,
               final: int, directions: seq<Direction>, matchEo: int, matchTags: seq<int>,
               ghost i: int, ghost v: View, ghost u: Setup, ghost oldEo: int, ghost oldTags: seq<int>,
               ghost seen: set<Arrival>)
      returns (n': nat, matchEo': int, matchTags': seq<int>, ghost v': View)
    requires SetupOk(u, final) && directions == u.directions
    requires Progress(u, next[..], marks[..], pos, v, seen, oldEo, oldTags, matchEo, matchTags) && n == |v.ids|
    requires Winners(u.directions, v.ids, next[..], seen)
    requires 0 <= q < |u.offs| && state == u.offs[q]
    requires |tmpTags| == u.numTags && (u.tracks ==> StartsAt(tmpTags, i) && Bounded(v, i))
    modifies next, marks
    ensures v' == if q in v.ids then v else Push(v, q, i)
    ensures Progress(u, next[..], marks[..], pos, v', seen + {Arrival(q, tmpTags)}, oldEo, oldTags, matchEo',
                     matchTags') && n' == |v'.ids|
    ensures Winners(u.directions, v'.ids, next[..], seen + {Arrival(q, tmpTags)})
  {
    hide ListIs, Scored, Winners, Layout, StartTag, Bounded;
    OnList(u, next[..], marks[..], pos, v, q);
    if marks[q].pos < pos {
      matchEo', matchTags' := VisitNew(q, state, tmpTags, pos, next, marks, n, final, matchEo, matchTags, i, v, u,
                                       oldEo, oldTags, seen);
      n', v' := n + 1, Push(v, q, i);
    } else {
      matchEo', matchTags' := VisitAgain(q, state, tmpTags, pos, next, marks, final, directions, matchEo, matchTags,
                                         i, v, u, oldEo, oldTags, seen);
      n', v' := n, v;
    }
  }

  // ---------- following every transition of one state ----------

  ghost predicate Bounded(v: View, i: int) { forall k :: 0 <= k < |v.starts| ==> v.starts[k] <= i }

  /** v' is v followed by successors of state p on c, all credited to the start i. */
  ghost predicate Extends(a: Automaton, v: View, v': View, p: int, c: int, i: int) {
    && |v.ids| == |v.starts| && |v'.ids| == |v'.starts| && v.ids <= v'.ids && v.starts <= v'.starts
    && forall k :: |v.ids| <= k < |v'.ids| ==> v'.starts[k] == i && StepR(a, p, c, v'.ids[k])
  }

  ghost predicate Covered(row: seq<Trans>, k: nat, c: int, v: View, i: int, simple: bool)
    requires k <= |row|
  {
    forall j :: 0 <= j < k && row[j].codeMin <= c <= row[j].codeMax ==> Listed(v, row[j].stateId, i, simple)
  }

  lemma CoveredNext(a: Automaton, p: int, k: nat, c: int, v0: View, v: View, v': View, i: int, simple: bool)
    requires 0 <= p < |a.rows| && k < |a.rows[p]|
    requires Extends(a, v0, v, p, c, i) && Covered(a.rows[p], k, c, v, i, simple) && (simple ==> Bounded(v, i))
    requires var tr := a.rows[p][k];
             v' == if tr.codeMin <= c <= tr.codeMax && tr.stateId !in v.ids then Push(v, tr.stateId, i) else v
    ensures Extends(a, v0, v', p, c, i) && Covered(a.rows[p], k + 1, c, v', i, simple) && (simple ==> Bounded(v', i))
  {
    var tr := a.rows[p][k];
    assert tr in a.rows[p];
    forall j | 0 <= j < k && a.rows[p][j].codeMin <= c <= a.rows[p][j].codeMax
      ensures Listed(v', a.rows[p][j].stateId, i, simple)
    {
      var m :| 0 <= m < |v.ids| == |v.starts| && v.ids[m] == a.rows[p][j].stateId && (simple ==> v.starts[m] <= i);
      assert v'.ids[m] == v.ids[m] && v'.starts[m] == v.starts[m];
    }
    if tr.codeMin <= c <= tr.codeMax {
      if tr.stateId in v.ids {
        var m :| 0 <= m < |v.ids| && v.ids[m] == tr.stateId;
        assert v'.ids[m] == tr.stateId;
      } else {
        assert v'.ids[|v.ids|] == tr.stateId && v'.starts[|v.ids|] == i;
      }
    }
  }

  /** Takes one transition, if it matches the input symbol. */
  method FollowTrans(trans: Trans, tags: seq<int>, c: int, pos: int, next: array<Reach>, marks: array<ReachPos>, n: nat,
                     final: int, directions: seq<Direction>, matchEo: int, matchTags: seq<int>,
                     ghost i: int, ghost v: View, ghost u: Setup, ghost oldEo: int, ghost oldTags: seq<int>,
                     ghost seen: set<Arrival>)
      returns (n': nat, matchEo': int, matchTags': seq<int>, ghost v': View)
    requires SetupOk(u, final) && directions == u.directions && |tags| == u.numTags
    requires u.tracks ==> 0 !in trans.tags && StartsAt(tags, i) && Bounded(v, i)
    requires Progress(u, next[..], marks[..], pos, v, seen, oldEo, oldTags, matchEo, matchTags) && n == |v.ids|
    requires Winners(u.directions, v.ids, next[..], seen)
    requires 0 <= trans.stateId < |u.offs| && trans.state == u.offs[trans.stateId]
    modifies next, marks
    ensures var more := if Reads(trans, c) then {Arrival(trans.stateId, Tagged(tags, trans.tags, pos))} else {};
            && Progress(u, next[..], marks[..], pos, v', seen + more, oldEo, oldTags, matchEo', matchTags')
            && Winners(u.directions, v'.ids, next[..], seen + more) && n' == |v'.ids|
    ensures v' == if Reads(trans, c) && trans.stateId !in v.ids then Push(v, trans.stateId, i) else v
  {
    hide Progress, Winners, Layout, StartTag, Bounded;
    n', matchEo', matchTags', v' := n, matchEo, matchTags, v;
    assert seen + {} == seen;
    if trans.codeMin <= c <= trans.codeMax {
      var tmpTags := SetTags(tags, trans.tags, pos);
      if u.tracks { TaggedAt(tags, trans.tags, pos, 0); }
      n', matchEo', matchTags', v' := Visit(trans.stateId, trans.state, tmpTags, pos, next, marks, n, final, directions,
                                            matchEo, matchTags, i, v, u, oldEo, oldTags, seen);
    }
  }

  /** For each state in `reach': the transitions leaving with the current input symbol. */
  method FollowState(state: int, tags: seq<int>, c: int, pos: int, transitions: array<Trans>, next: array<Reach>,
                     marks: array<ReachPos>, n: nat, final: int, directions: seq<Direction>, matchEo: int,
                     matchTags: seq<int>,
                     ghost p: int, ghost cap: nat, ghost i: int, ghost v: View, ghost u: Setup, ghost oldEo: int,
                     ghost oldTags: seq<int>, ghost seen: set<Arrival>)
      returns (n': nat, matchEo': int, matchTags': seq<int>, ghost v': View)
    requires SetupOk(u, final) && directions == u.directions && |tags| == u.numTags
    requires Progress(u, next[..], marks[..], pos, v, seen, oldEo, oldTags, matchEo, matchTags) && n == |v.ids|
    requires Winners(u.directions, v.ids, next[..], seen)
    requires 0 <= p < |u.offs| && RowIs(transitions[..], state, cap, u.a.rows[p])
    requires (u.tracks ==> StartsAt(tags, i)) && (Simple(u) ==> Bounded(v, i))
    modifies next, marks
    ensures var more := RowArrivals(u.a.rows[p], |u.a.rows[p]|, c, tags, pos);
            && Progress(u, next[..], marks[..], pos, v', seen + more, oldEo, oldTags, matchEo', matchTags')
            && Winners(u.directions, v'.ids, next[..], seen + more) && n' == |v'.ids|
    ensures Extends(u.a, v, v', p, c, i) && Covered(u.a.rows[p], |u.a.rows[p]|, c, v', i, Simple(u))
    ensures Simple(u) ==> Bounded(v', i)
  {
    hide ListIs, Scored, Winners, RowArrivals, Arrivals;
    n', matchEo', matchTags', v' := n, matchEo, matchTags, v;
    ghost var row := u.a.rows[p];
    ProgressSizes(u, next[..], marks[..], pos, v, seen, oldEo, oldTags, matchEo, matchTags);
    NoArrivals(row, c, tags, pos);
    assert seen + {} == seen;
    var t := state;
    while transitions[t].state != NO_STATE
      invariant state <= t <= state + |row|
      invariant Progress(u, next[..], marks[..], pos, v', seen + RowArrivals(row, t - state, c, tags, pos), oldEo,
                         oldTags, matchEo', matchTags') && n' == |v'.ids|
      invariant Extends(u.a, v, v', p, c, i) && Covered(row, t - state, c, v', i, Simple(u))
                && (Simple(u) ==> Bounded(v', i))
      invariant Winners(u.directions, v'.ids, next[..], seen + RowArrivals(row, t - state, c, tags, pos))
      decreases state + |row| - t
    {
      var trans := transitions[t];
      assert trans == row[t - state] && trans in row;
      ghost var v0, seen0 := v', seen + RowArrivals(row, t - state, c, tags, pos);
      OneMoreTrans(row, t - state, c, tags, pos);
      ghost var more := if Reads(trans, c) then {Arrival(trans.stateId, Tagged(tags, trans.tags, pos))} else {};
      assert seen0 + more == seen + RowArrivals(row, t + 1 - state, c, tags, pos);
      n', matchEo', matchTags', v' := FollowTrans(trans, tags, c, pos, next, marks, n', final, directions,
                                                  matchEo', matchTags', i, v', u, oldEo, oldTags, seen0);
      CoveredNext(u.a, p, t - state, c, v, v0, v', i, Simple(u));
      t := t + 1;
    }
  }

  lemma NoArrivals(row: seq<Trans>, c: int, tags: seq<int>, pos: int)
    ensures RowArrivals(row, 0, c, tags, pos) == {}
  {
  }

  lemma ProgressSizes(u: Setup, next: seq<Reach>, marks: seq<ReachPos>, pos: int, v: View, seen: set<Arrival>,
                      oldEo: int, oldTags: seq<int>, eo: int, tags: seq<int>)
    requires Progress(u, next, marks, pos, v, seen, oldEo, oldTags, eo, tags)
    ensures |v.ids| == |v.starts| < |next|
  {
  }

  // ---------- following every transition of every state ----------

  /** The list of the previous position, closed by an unused entry. */
  ghost predicate ReachIs(reach: seq<Reach>, w: View, u: Setup) {
    && |w.ids| == |w.starts| < |reach| && reach[|w.ids|].state == NO_STATE
    && forall k :: 0 <= k < |w.ids| ==>
         && 0 <= w.ids[k] < |u.offs| && reach[k].state == u.offs[w.ids[k]] != NO_STATE
         && |reach[k].tags| == u.numTags && (u.tracks ==> StartsAt(reach[k].tags, w.starts[k]))
  }

  /** Successors of the first k states of w are on the list v. */
  ghost predicate StepsListed(a: Automaton, w: View, k: nat, c: int, v: View, simple: bool)
    requires k <= |w.ids| == |w.starts|
  {
    forall j, q :: 0 <= j < k && StepR(a, w.ids[j], c, q) ==> Listed(v, q, w.starts[j], simple)
  }

  ghost predicate StartsInOrder(w: View, k: nat, v: View) {
    Sorted(v.starts) && forall m, j :: 0 <= m < |v.starts| && k <= j < |w.starts| ==> v.starts[m] <= w.starts[j]
  }

  lemma ListedStays(a: Automaton, v: View, v': View, p: int, c: int, q: int, i: int, j: int, simple: bool)
    requires Extends(a, v, v', p, c, i) && Listed(v, q, j, simple)
    ensures Listed(v', q, j, simple)
  {
    var m :| 0 <= m < |v.ids| == |v.starts| && v.ids[m] == q && (simple ==> v.starts[m] <= j);
    assert v'.ids[m] == q && v'.starts[m] == v.starts[m];
  }

  lemma StepsListedNext(u: Setup, w: View, k: nat, c: int, v: View, v': View)
    requires k < |w.ids| == |w.starts| && 0 <= w.ids[k] < |u.a.rows|
    requires StepsListed(u.a, w, k, c, v, Simple(u))
    requires Extends(u.a, v, v', w.ids[k], c, w.starts[k])
    requires Covered(u.a.rows[w.ids[k]], |u.a.rows[w.ids[k]]|, c, v', w.starts[k], Simple(u))
    ensures StepsListed(u.a, w, k + 1, c, v', Simple(u))
  {
    forall j, q | 0 <= j < k + 1 && StepR(u.a, w.ids[j], c, q) ensures Listed(v', q, w.starts[j], Simple(u)) {
      if j < k {
        ListedStays(u.a, v, v', w.ids[k], c, q, w.starts[k], w.starts[j], Simple(u));
      } else {
        var row := u.a.rows[w.ids[k]];
        var tr :| tr in row && tr.codeMin <= c <= tr.codeMax && tr.stateId == q;
        var m :| 0 <= m < |row| && row[m] == tr;
      }
    }
  }

  lemma OrderNext(a: Automaton, w: View, k: nat, v: View, v': View, p: int, c: int)
    requires k < |w.ids| == |w.starts| && Sorted(w.starts) && StartsInOrder(w, k, v)
    requires Extends(a, v, v', p, c, w.starts[k])
    ensures StartsInOrder(w, k + 1, v')
  {
    forall m | 0 <= m < |v'.starts| ensures v'.starts[m] <= w.starts[k] {
      if m < |v.starts| { assert v'.starts[m] == v.starts[m]; }
    }
    forall j, m | 0 <= j < m < |v'.starts| ensures v'.starts[j] <= v'.starts[m] {
      if m < |v.starts| { assert v'.starts[j] == v.starts[j] && v'.starts[m] == v.starts[m]; }
    }
  }

  lemma SoundNext(a: Automaton, text: seq<int>, pos: nat, limit: int, w: View, k: nat, v: View, v': View)
    requires pos < |text| && k < |w.ids| && ViewSound(a, text, pos, limit, w) && ViewSound(a, text, pos + 1, limit, v)
    requires Extends(a, v, v', w.ids[k], text[pos], w.starts[k])
    ensures ViewSound(a, text, pos + 1, limit, v')
  {
    forall m | 0 <= m < |v'.ids| ensures v'.starts[m] <= limit && Thread(a, text, v'.starts[m], pos + 1, v'.ids[m]) {
      if m < |v.ids| {
        assert v'.starts[m] == v.starts[m] && v'.ids[m] == v.ids[m];
      } else {
        assert ThreadVia(a, text, w.starts[k], pos + 1, v'.ids[m], w.ids[k]);
      }
    }
  }

  lemma StepComplete(u: Setup, text: seq<int>, pos: nat, limit: int, w: View, v: View)
    requires pos < |text| && limit <= pos && |w.ids| == |w.starts|
    requires ViewComplete(u.a, text, pos, limit, w, Simple(u)) && StepsListed(u.a, w, |w.ids|, text[pos], v, Simple(u))
    ensures ViewComplete(u.a, text, pos + 1, limit, v, Simple(u))
  {
    forall i, q | i <= limit && Thread(u.a, text, i, pos + 1, q) ensures Listed(v, q, i, Simple(u)) {
      var m :| ThreadVia(u.a, text, i, pos + 1, q, m);
      assert Listed(w, m, i, Simple(u));
      var k :| 0 <= k < |w.ids| == |w.starts| && w.ids[k] == m && (Simple(u) ==> w.starts[k] <= i);
      assert Listed(v, q, w.starts[k], Simple(u));
    }
  }

  lemma RowOf(transitions: seq<Trans>, offs: seq<int>, caps: seq<nat>, rows: Rows, p: nat)
    requires TableIs(transitions, offs, caps, rows) && p < |rows|
    ensures |offs| == |caps| == |rows| && RowIs(transitions, offs[p], caps[p], rows[p])
  {
  }

  lemma EntriesPrefix(ids: seq<int>, reach: seq<Reach>, k: nat)
    requires k < |ids| <= |reach|
    ensures Entries(ids[..k + 1], reach) == Entries(ids[..k], reach) + {Arrival(ids[k], reach[k].tags)}
  {
    forall x | x in Entries(ids[..k + 1], reach)
      ensures x in Entries(ids[..k], reach) + {Arrival(ids[k], reach[k].tags)}
    {
      var j :| 0 <= j < k + 1 && x == Arrival(ids[..k + 1][j], reach[j].tags);
      if j < k { assert ids[..k][j] == ids[j]; }
    }
    forall x | x in Entries(ids[..k], reach) ensures x in Entries(ids[..k + 1], reach) {
      var j :| 0 <= j < k && x == Arrival(ids[..k][j], reach[j].tags);
      assert ids[..k + 1][j] == ids[j];
    }
    assert ids[..k + 1][k] == ids[k];
  }

  /** Once every transition has been taken the list holds the best of all that arrived. */
  lemma BestOfAll(u: Setup, reach: seq<Reach>, w: View, c: int, pos: int, next: seq<Reach>, marks: seq<ReachPos>,
                  v: View, oldEo: int, oldTags: seq<int>, eo: int, tags: seq<int>)
    requires ReachIs(reach, w, u) && u.numTags <= |u.directions|
    requires var seen := Arrivals(u.a, Entries(w.ids, reach), c, pos);
             && Progress(u, next, marks, pos, v, seen, oldEo, oldTags, eo, tags)
             && Winners(u.directions, v.ids, next, seen)
    ensures Entries(v.ids, next) == Survivors(u.directions, Arrivals(u.a, Entries(w.ids, reach), c, pos))
  {
    hide Winners, Survivors, StartTag, Layout;
    var seen := Arrivals(u.a, Entries(w.ids, reach), c, pos);
    forall x | x in seen ensures |x.tags| == u.numTags {
      var y, j :| y in Entries(w.ids, reach) && 0 <= y.id < |u.a.rows| && 0 <= j < |u.a.rows[y.id]|
        && x == Arrival(u.a.rows[y.id][j].stateId, Tagged(y.tags, u.a.rows[y.id][j].tags, pos));
    }
    assert NoRepeats(v.ids);
    WinnersSurvive(u.directions, v.ids, next, seen, u.numTags);
  }

  method FollowAll(reach: array<Reach>, c: int, pos: nat, transitions: array<Trans>, next: array<Reach>,
                   marks: array<ReachPos>, final: int, directions: seq<Direction>, matchEo: int, matchTags: seq<int>,
                   ghost text: seq<int>, ghost limit: int, ghost w: View, ghost u: Setup)
      returns (n: nat, matchEo': int, matchTags': seq<int>, ghost v: View)
    requires reach != next && ReachIs(reach[..], w, u)
    requires SetupOk(u, final) && directions == u.directions && TableIs(transitions[..], u.offs, u.caps, u.a.rows)
    requires pos < |text| && c == text[pos] && limit <= pos && (Simple(u) ==> Sorted(w.starts))
    requires ViewSound(u.a, text, pos, limit, w) && ViewComplete(u.a, text, pos, limit, w, Simple(u))
    requires Progress(u, next[..], marks[..], pos + 1, EMPTY_VIEW, {}, matchEo, matchTags, matchEo, matchTags)
    modifies next, marks
    ensures var seen := Arrivals(u.a, Entries(w.ids, reach[..]), c, pos + 1);
            && Progress(u, next[..], marks[..], pos + 1, v, seen, matchEo, matchTags, matchEo', matchTags')
            && Entries(v.ids, next[..]) == Survivors(u.directions, seen) && n == |v.ids|
    ensures ViewSound(u.a, text, pos + 1, limit, v) && ViewComplete(u.a, text, pos + 1, limit, v, Simple(u))
    ensures Simple(u) ==> Sorted(v.starts)
  {
    hide Thread, ViewComplete, Listed, Progress, TableIs, RowIs, Winners, Entries, Arrivals, RowArrivals, Survivors,
        StartTag;
    n, matchEo', matchTags', v := 0, matchEo, matchTags, EMPTY_VIEW;
    ghost var list := reach[..];
    NothingSeen(u, next[..], w, list, c, pos + 1);
    var k := 0;
    while reach[k].state != NO_STATE
      invariant 0 <= k <= |w.ids| && reach[..] == list
      invariant Progress(u, next[..], marks[..], pos + 1, v, Arrivals(u.a, Entries(w.ids[..k], list), c, pos + 1),
                         matchEo, matchTags, matchEo', matchTags') && n == |v.ids|
      invariant ViewSound(u.a, text, pos + 1, limit, v) && StepsListed(u.a, w, k, c, v, Simple(u))
      invariant Simple(u) ==> StartsInOrder(w, k, v)
      invariant Winners(u.directions, v.ids, next[..], Arrivals(u.a, Entries(w.ids[..k], list), c, pos + 1))
      decreases |w.ids| - k
    {
      assert reach[k] == list[k];
      ghost var v0, p := v, w.ids[k];
      ghost var seen := Arrivals(u.a, Entries(w.ids[..k], list), c, pos + 1);
      RowOf(transitions[..], u.offs, u.caps, u.a.rows, p);
      EntriesPrefix(w.ids, list, k);
      OneMoreRow(u.a, Entries(w.ids[..k], list), Arrival(p, list[k].tags), c, pos + 1);
      n, matchEo', matchTags', v := FollowState(reach[k].state, reach[k].tags, c, pos + 1, transitions, next, marks,
                                                n, final, directions, matchEo', matchTags', p, u.caps[p], w.starts[k],
                                                v, u, matchEo, matchTags, seen);
      StepsListedNext(u, w, k, c, v0, v);
      SoundNext(u.a, text, pos, limit, w, k, v0, v);
      if Simple(u) { OrderNext(u.a, w, k, v0, v, p, c); }
      k := k + 1;
    }
    StepComplete(u, text, pos, limit, w, v);
    assert w.ids[..k] == w.ids;
    BestOfAll(u, list, w, c, pos + 1, next[..], marks[..], v, matchEo, matchTags, matchEo', matchTags');
  }

  lemma NothingSeen(u: Setup, next: seq<Reach>, w: View, reach: seq<Reach>, c: int, pos: int)
    ensures Arrivals(u.a, Entries(w.ids[..0], reach), c, pos) == {} && Winners(u.directions, [], next, {})
  {
    NoneSeen(u.directions, next);
    assert w.ids[..0] == [];
    assert Entries([], reach) == {};
    assert Arrivals(u.a, {}, c, pos) == {};
  }

  // ---------- the initial states ----------

  ghost predicate InitialR(initial: seq<Trans>, first: seq<Trans>) {
    && |initial| == |first| + 1 && initial[..|first|] == first && initial[|first|].state == NO_STATE
    && forall k :: 0 <= k < |first| ==> first[k].state != NO_STATE
  }

  /** v' is v followed by initial states, all credited to pos. */
  ghost predicate ExtendsInitial(a: Automaton, v: View, v': View, pos: int) {
    && |v.ids| == |v.starts| && |v'.ids| == |v'.starts| && v.ids <= v'.ids && v.starts <= v'.starts
    && forall k :: |v.ids| <= k < |v'.ids| ==> v'.starts[k] == pos && StartR(a, v'.ids[k])
  }

  ghost predicate InitialListed(first: seq<Trans>, k: nat, v: View)
    requires k <= |first|
  {
    forall j :: 0 <= j < k ==> first[j].stateId in v.ids
  }

  method AddInitialState(trans: Trans, pos: int, next: array<Reach>, marks: array<ReachPos>, n: nat, final: int,
                         numTags: nat, matchEo: int, matchTags: seq<int>,
                         ghost v: View, ghost u: Setup, ghost oldTags: seq<int>)
      returns (n': nat, matchEo': int, matchTags': seq<int>, ghost v': View)
    requires SetupOk(u, final) && numTags == u.numTags && (u.tracks ==> 0 in trans.tags)
    requires Progress(u, next[..], marks[..], pos, v, {}, -1, oldTags, matchEo, matchTags) && n == |v.ids|
    requires 0 <= trans.stateId < |u.offs| && trans.state == u.offs[trans.stateId]
    modifies next, marks
    ensures Progress(u, next[..], marks[..], pos, v', {}, -1, oldTags, matchEo', matchTags') && n' == |v'.ids|
    ensures v' == if trans.stateId in v.ids then v else Push(v, trans.stateId, pos)
    ensures Entries(v'.ids, next[..]) == Entries(v.ids, old(next[..])) +
      if trans.stateId in v.ids then {} else {Arrival(trans.stateId, Tagged(Unset(numTags), trans.tags, pos))}
  {
    hide ListIs, Scored, Entries, Layout, StartTag;
    n', matchEo', matchTags', v' := n, matchEo, matchTags, v;
    ghost var q := trans.stateId;
    ghost var next0, marks0 := next[..], marks[..];
    OnList(u, next0, marks0, pos, v, q);
    ListSizes(u, next0, marks0, pos, v);
    LayoutOf(u, q);
    if marks[trans.stateId].pos < pos {
      var tags := SetTags(Unset(numTags), trans.tags, pos);
      if u.tracks { StartIsSet(u, trans.tags, pos); }
      ghost var entry := Reach(trans.state, tags);
      ListGrows(u, next0, marks0, pos, v, q, pos, entry);
      EntriesGrow(next0, v, q, pos, entry);
      next[n] := Reach(trans.state, tags);
      if trans.state == final {
        matchEo', matchTags' := pos, tags;
        FirstFinal(u, next0, v, pos, oldTags, matchEo, matchTags, entry);
      } else {
        ScoredOther(u, next0, v, {}, {}, q, pos, pos, -1, oldTags, matchEo, matchTags, entry);
      }
      marks[trans.stateId] := ReachPos(pos, n);
      assert next[..] == next0[n := entry] && marks[..] == marks0[q := ReachPos(pos, n)];
      n', v' := n + 1, Push(v, q, pos);
    }
  }

  lemma StartIsSet(u: Setup, list: seq<int>, pos: int)
    requires StartTag(u.a, u.numTags, u.directions) && 0 in list
    ensures StartsAt(Tagged(Unset(u.numTags), list, pos), pos)
  {
    TaggedAt(Unset(u.numTags), list, pos, 0);
  }

  /** A path that starts in the final state is a match whatever its tags. */
  lemma FirstFinal(u: Setup, next: seq<Reach>, v: View, pos: int, oldTags: seq<int>, eo: int, tags: seq<int>,
                   entry: Reach)
    requires Scored(u, next, v, {}, pos, -1, oldTags, eo, tags) && u.a.final !in v.ids && 0 <= pos && -1 <= eo
    requires |v.ids| < |next| && |entry.tags| == u.numTags && (u.tracks ==> StartsAt(entry.tags, pos))
    ensures Scored(u, next[|v.ids| := entry], Push(v, u.a.final, pos), {}, pos, -1, oldTags, pos, entry.tags)
  {
    EntriesGrow(next, v, u.a.final, pos, entry);
    hide Entries;
  }

  lemma InitialNext(u: Setup, k: nat, pos: int, v0: View, v: View, v': View)
    requires k < |u.a.first| && ExtendsInitial(u.a, v0, v, pos) && InitialListed(u.a.first, k, v)
    requires var q := u.a.first[k].stateId; v' == if q in v.ids then v else Push(v, q, pos)
    ensures ExtendsInitial(u.a, v0, v', pos) && InitialListed(u.a.first, k + 1, v')
  {
    assert u.a.first[k] in u.a.first;
    forall j | 0 <= j < k + 1 ensures u.a.first[j].stateId in v'.ids {
      if j < k {
        var m :| 0 <= m < |v.ids| && v.ids[m] == u.a.first[j].stateId;
        assert v'.ids[m] == v.ids[m];
      } else if u.a.first[k].stateId !in v.ids {
        assert v'.ids[|v.ids|] == u.a.first[k].stateId;
      }
    }
  }

  /** A state is on the list if it was or if one of the first k initial transitions leads to it. */
  ghost predicate Known(first: seq<Trans>, k: nat, list: set<Arrival>, v: View)
    requires k <= |first|
  {
    forall q :: q in v.ids <==> On(list, q) || LedTo(first, k, q)
  }

  ghost predicate LedTo(first: seq<Trans>, k: nat, q: int)
    requires k <= |first|
  {
    exists m :: 0 <= m < k && first[m].stateId == q
  }

  lemma EntriesOn(v: View, next: seq<Reach>)
    requires |v.ids| <= |next|
    ensures forall q :: q in v.ids <==> On(Entries(v.ids, next), q)
  {
    forall q | q in v.ids ensures On(Entries(v.ids, next), q) {
      var k :| 0 <= k < |v.ids| && v.ids[k] == q;
      assert Arrival(v.ids[k], next[k].tags) in Entries(v.ids, next);
    }
  }

  /** The transition adds a path exactly if it is the first to a state that was not on the list. */
  lemma KnownNext(u: Setup, k: nat, pos: int, list: set<Arrival>, v: View, v': View)
    requires k < |u.a.first| && Known(u.a.first, k, list, v)
    requires var q := u.a.first[k].stateId; v' == if q in v.ids then v else Push(v, q, pos)
    ensures Known(u.a.first, k + 1, list, v')
    ensures var q := u.a.first[k].stateId; q !in v.ids <==> IsFirst(u.a.first, k) && !On(list, q)
  {
    hide On;
    var q := u.a.first[k].stateId;
    assert IsFirst(u.a.first, k) <==> !LedTo(u.a.first, k, q);
    forall r ensures LedTo(u.a.first, k + 1, r) <==> LedTo(u.a.first, k, r) || r == q {
      if LedTo(u.a.first, k, r) {
        var m :| 0 <= m < k && u.a.first[m].stateId == r;
        assert 0 <= m < k + 1;
      }
    }
    forall r ensures r in v'.ids <==> r in v.ids || r == q {}
  }

  /** If no match found yet: adds the initial states to `reach_next'. */
  method AddInitial(initial: array<Trans>, pos: nat, next: array<Reach>, marks: array<ReachPos>, n: nat, final: int,
                    numTags: nat, matchTags: seq<int>, ghost text: seq<int>, ghost v: View, ghost u: Setup)
      returns (n': nat, matchEo': int, matchTags': seq<int>, ghost v': View)
    requires SetupOk(u, final) && numTags == u.numTags && InitialR(initial[..], u.a.first) && pos <= |text|
    requires Progress(u, next[..], marks[..], pos, v, {}, -1, matchTags, -1, matchTags) && n == |v.ids|
    requires ViewSound(u.a, text, pos, pos - 1, v) && ViewComplete(u.a, text, pos, pos - 1, v, Simple(u))
    requires Simple(u) ==> Sorted(v.starts)
    modifies next, marks
    ensures Progress(u, next[..], marks[..], pos, v', {}, -1, matchTags, matchEo', matchTags') && n' == |v'.ids|
    ensures ViewSound(u.a, text, pos, pos, v') && ViewComplete(u.a, text, pos, pos, v', Simple(u))
    ensures Simple(u) ==> Sorted(v'.starts)
    ensures var list := Entries(v.ids, old(next[..]));
            Entries(v'.ids, next[..]) == list + Starting(u.a, numTags, |u.a.first|, list, pos)
  {
    hide Progress, Entries, Starting, Known, On, IsFirst, ViewSound, ViewComplete, StartTag;
    n', matchEo', matchTags', v' := n, -1, matchTags, v;
    ghost var slots, list := initial[..], Entries(v.ids, next[..]);
    ProgressSizes(u, next[..], marks[..], pos, v, {}, -1, matchTags, -1, matchTags);
    NoneStarting(u, v, next[..], list, pos);
    var k := 0;
    while initial[k].state != NO_STATE
      invariant 0 <= k <= |u.a.first| && initial[..] == slots
      invariant Progress(u, next[..], marks[..], pos, v', {}, -1, matchTags, matchEo', matchTags') && n' == |v'.ids|
      invariant ExtendsInitial(u.a, v, v', pos) && InitialListed(u.a.first, k, v') && Known(u.a.first, k, list, v')
      invariant Entries(v'.ids, next[..]) == list + Starting(u.a, numTags, k, list, pos)
      decreases |u.a.first| - k
    {
      assert initial[k] == slots[..|u.a.first|][k] && initial[k] in u.a.first;
      ghost var v0 := v';
      FirstTransition(u, initial[k], final);
      n', matchEo', matchTags', v' :=
        AddInitialState(initial[k], pos, next, marks, n', final, numTags, matchEo', matchTags', v', u, matchTags);
      InitialNext(u, k, pos, v, v0, v');
      KnownNext(u, k, pos, list, v0, v');
      OneMoreStart(u.a, numTags, k, list, pos);
      k := k + 1;
    }
    InitialDone(u, text, pos, v, v');
  }

  lemma NoneStarting(u: Setup, v: View, next: seq<Reach>, list: set<Arrival>, pos: int)
    requires |v.ids| <= |next| && list == Entries(v.ids, next)
    ensures Known(u.a.first, 0, list, v) && list + Starting(u.a, u.numTags, 0, list, pos) == list
  {
    EntriesOn(v, next);
  }

  lemma FirstTransition(u: Setup, tr: Trans, final: int)
    requires SetupOk(u, final) && tr in u.a.first
    ensures 0 <= tr.stateId < |u.offs| && tr.state == u.offs[tr.stateId] && (u.tracks ==> 0 in tr.tags)
  {
  }

  lemma InitialDone(u: Setup, text: seq<int>, pos: nat, v: View, v': View)
    requires pos <= |text| && ExtendsInitial(u.a, v, v', pos) && InitialListed(u.a.first, |u.a.first|, v')
    requires ViewSound(u.a, text, pos, pos - 1, v) && ViewComplete(u.a, text, pos, pos - 1, v, Simple(u))
    requires Simple(u) ==> Sorted(v.starts)
    ensures ViewSound(u.a, text, pos, pos, v') && ViewComplete(u.a, text, pos, pos, v', Simple(u))
    ensures Simple(u) ==> Sorted(v'.starts)
  {
    forall k | 0 <= k < |v'.ids| ensures v'.starts[k] <= pos && Thread(u.a, text, v'.starts[k], pos, v'.ids[k]) {
      if k < |v.ids| { assert v'.starts[k] == v.starts[k] && v'.ids[k] == v.ids[k]; }
    }
    forall i, q | i <= pos && Thread(u.a, text, i, pos, q) ensures Listed(v', q, i, Simple(u)) {
      InitialComplete(u, text, pos, v, v', i, q);
    }
    if Simple(u) {
      forall j, k | 0 <= j < k < |v'.starts| ensures v'.starts[j] <= v'.starts[k] {
        if j < |v.starts| { assert v'.starts[j] == v.starts[j] && v.starts[j] <= pos - 1; }
        if k < |v.starts| { assert v'.starts[k] == v.starts[k]; }
      }
    }
  }

  lemma InitialComplete(u: Setup, text: seq<int>, pos: nat, v: View, v': View, i: int, q: int)
    requires pos <= |text| && ExtendsInitial(u.a, v, v', pos) && InitialListed(u.a.first, |u.a.first|, v')
    requires ViewSound(u.a, text, pos, pos - 1, v) && ViewComplete(u.a, text, pos, pos - 1, v, Simple(u))
    requires i <= pos && Thread(u.a, text, i, pos, q)
    ensures Listed(v', q, i, Simple(u))
  {
    if i < pos {
      assert Listed(v, q, i, Simple(u));
      StillListed(u.a, v, v', pos, q, i, Simple(u));
      return;
    }
    StartIsListed(u.a, text, pos, v, v', q, Simple(u));
  }

  lemma StillListed(a: Automaton, v: View, v': View, pos: int, q: int, i: int, simple: bool)
    requires ExtendsInitial(a, v, v', pos) && Listed(v, q, i, simple)
    ensures Listed(v', q, i, simple)
  {
    var m :| 0 <= m < |v.ids| == |v.starts| && v.ids[m] == q && (simple ==> v.starts[m] <= i);
    assert v'.ids[m] == q && v'.starts[m] == v.starts[m];
  }

  lemma StartIsListed(a: Automaton, text: seq<int>, pos: nat, v: View, v': View, q: int, simple: bool)
    requires ExtendsInitial(a, v, v', pos) && InitialListed(a.first, |a.first|, v')
    requires ViewSound(a, text, pos, pos - 1, v) && StartR(a, q)
    ensures Listed(v', q, pos, simple)
  {
    hide Thread;
    var tr :| tr in a.first && tr.stateId == q;
    var j :| 0 <= j < |a.first| && a.first[j] == tr;
    var m :| 0 <= m < |v'.ids| && v'.ids[m] == q;
    if m < |v.ids| { assert v'.starts[m] == v.starts[m]; }
  }

  // ---------- the best match ----------

  /** No match ends before pos. */
  ghost predicate NoneBefore(a: Automaton, text: seq<int>, pos: int) {
    forall i, e :: Match(a, text, i, e) ==> pos <= e
  }

  /** A match (i, e) is no better than (b, eo): if it starts at b or before it does not end later; and
      unless there was a tie it does not start earlier. */
  ghost predicate NoBetter(b: int, eo: int, tied: bool, i: int, e: int) { (i <= b ==> e <= eo) && (tied || b <= i) }

  /** At offset e, two kept paths with the same start and different tags come to the final state. */
  ghost predicate TieAt(u: Setup, text: seq<int>, limit: int, e: int) {
    0 < e <= |text| && Tie(u.a.final, Arrivals(u.a, ListingOf(u, text, limit, e - 1), text[e - 1], e))
  }

  ghost predicate Tied(u: Setup, text: seq<int>, limit: int, eo: int) {
    exists e :: e <= eo && TieAt(u, text, limit, e)
  }

  /** What a tie is about is the further tags. */
  lemma OneTagNeverTies(u: Setup, text: seq<int>, limit: int, eo: int)
    requires u.numTags == 1
    ensures !Tied(u, text, limit, eo)
  {
    hide ListingOf, Arrivals;
    forall e | 0 < e <= |text| ensures !TieAt(u, text, limit, e) {
      var seen := Arrivals(u.a, ListingOf(u, text, limit, e - 1), text[e - 1], e);
      forall x, y | x in seen && y in seen && |x.tags| > 0 && StartsAt(y.tags, x.tags[0]) ensures x.tags == y.tags {
        OneTagEach(u, text, limit, e, x);
        OneTagEach(u, text, limit, e, y);
      }
    }
  }

  lemma OneTagEach(u: Setup, text: seq<int>, limit: int, e: int, z: Arrival)
    requires 0 < e <= |text| && z in Arrivals(u.a, ListingOf(u, text, limit, e - 1), text[e - 1], e)
    ensures |z.tags| == u.numTags
  {
    var list := ListingOf(u, text, limit, e - 1);
    var x, j :| x in list && 0 <= x.id < |u.a.rows| && 0 <= j < |u.a.rows[x.id]|
      && Reads(u.a.rows[x.id][j], text[e - 1])
      && z == Arrival(u.a.rows[x.id][j].stateId, Tagged(x.tags, u.a.rows[x.id][j].tags, e));
    var i := ListedIsCarried(u.a, u.directions, u.numTags, text, limit, e - 1, x);
    CarriedIsThread(u.a, text, u.numTags, i, e - 1, x.id, x.tags, u.directions);
  }

  /** The first match to end does so at limit or right behind it. */
  ghost predicate FirstEnds(u: Setup, text: seq<int>, limit: int) {
    NoneBefore(u.a, text, limit) && exists i, e :: Match(u.a, text, i, e) && limit <= e <= limit + 1
  }

  ghost function ListingOf(u: Setup, text: seq<int>, limit: int, pos: nat): set<Arrival>
    requires pos <= |text|
  {
    Listing(u.a, u.directions, u.numTags, text, limit, pos)
  }

  /** A match has been found; its tags are those kept for the final state where it ends. Without
      tags it is the first to end; when the start is tracked, no match that ends at pos or before
      is better. */
  ghost predicate Best(u: Setup, text: seq<int>, pos: int, limit: int, eo: int, tags: seq<int>) {
    && 0 <= eo <= pos && eo <= |text| && (exists i :: Match(u.a, text, i, eo)) && FirstEnds(u, text, limit)
    && Arrival(u.a.final, tags) in ListingOf(u, text, limit, eo)
    && (u.numTags == 0 ==> NoneBefore(u.a, text, eo))
    && (u.tracks ==> |tags| > 0 && tags[0] <= limit
                     && forall i, e :: e <= pos && Match(u.a, text, i, e) ==>
                          NoBetter(tags[0], eo, Tied(u, text, limit, eo), i, e))
  }

  /** The arrivals that were seen are those from the list before. */
  ghost predicate SeenAll(u: Setup, text: seq<int>, limit: int, pos: int, seen: set<Arrival>) {
    0 < pos <= |text| && seen == Arrivals(u.a, ListingOf(u, text, limit, pos - 1), text[pos - 1], pos)
  }

  lemma BestAfter(u: Setup, text: seq<int>, pos: int, limit: int, next: seq<Reach>, v: View, seen: set<Arrival>,
                  oldEo: int, oldTags: seq<int>, eo: int, tags: seq<int>)
    requires 0 <= pos <= |text| && limit <= pos && -1 <= eo && (oldEo < 0 ==> pos - 1 <= limit)
    requires ViewSound(u.a, text, pos, limit, v) && ViewComplete(u.a, text, pos, limit, v, Simple(u))
    requires Scored(u, next, v, seen, pos, oldEo, oldTags, eo, tags) && |v.ids| <= |next|
    requires Entries(v.ids, next) == ListingOf(u, text, limit, pos)
    requires oldEo >= 0 ==> SeenAll(u, text, limit, pos, seen)
    requires if oldEo < 0 then NoneBefore(u.a, text, pos) else Best(u, text, pos - 1, limit, oldEo, oldTags)
    ensures eo < 0 ==> oldEo < 0 && u.a.final !in v.ids && (limit == pos ==> NoneBefore(u.a, text, pos + 1))
    ensures eo >= 0 ==> Best(u, text, pos, limit, eo, tags)
  {
    hide ListingOf, Arrivals, Tied, SeenAll, NoneBefore, FirstEnds, Thread, Entries, ViewComplete, ViewSound, NoBetter;
    if eo < 0 {
      if limit == pos { NoneYet(u, text, pos, v); }
      return;
    }
    NotEntered(v.ids, next, u.a.final, tags);
    if u.a.final in v.ids { FinalMatches(u, text, pos, limit, v, oldEo); }
    if u.tracks {
      StartInLimit(u, text, pos, limit, next, v, seen, oldEo, oldTags, eo, tags);
      forall i, e | e <= pos && Match(u.a, text, i, e) ensures NoBetter(tags[0], eo, Tied(u, text, limit, eo), i, e) {
        FinalBetter(u, text, pos, limit, next, v, seen, oldEo, oldTags, eo, tags, i, e);
      }
    }
  }

  /** The final state on the list is a match, and the first to end if there was none. */
  lemma FinalMatches(u: Setup, text: seq<int>, pos: int, limit: int, v: View, oldEo: int)
    requires 0 <= pos <= |text| && limit <= pos && (oldEo < 0 ==> pos - 1 <= limit)
    requires ViewSound(u.a, text, pos, limit, v) && u.a.final in v.ids
    ensures exists i :: Match(u.a, text, i, pos)
    ensures oldEo < 0 && NoneBefore(u.a, text, pos) ==> FirstEnds(u, text, limit)
  {
    hide Thread;
    var k :| 0 <= k < |v.ids| && v.ids[k] == u.a.final;
    assert Match(u.a, text, v.starts[k], pos);
  }

  lemma StartInLimit(u: Setup, text: seq<int>, pos: int, limit: int, next: seq<Reach>, v: View, seen: set<Arrival>,
                     oldEo: int, oldTags: seq<int>, eo: int, tags: seq<int>)
    requires u.tracks && 0 <= pos <= |text| && 0 <= eo && ViewSound(u.a, text, pos, limit, v)
    requires Scored(u, next, v, seen, pos, oldEo, oldTags, eo, tags) && |v.ids| <= |next|
    requires oldEo >= 0 ==> Best(u, text, pos - 1, limit, oldEo, oldTags)
    ensures |tags| > 0 && tags[0] <= limit
  {
    NotEntered(v.ids, next, u.a.final, tags);
    hide Entries, ListingOf;
    if u.a.final in v.ids {
      var k :| 0 <= k < |v.ids| && v.ids[k] == u.a.final;
      assert FinalAt(u, seen, v.starts[k], pos, oldEo, oldTags, eo, tags);
    }
  }

  lemma FinalBetter(u: Setup, text: seq<int>, pos: int, limit: int, next: seq<Reach>, v: View, seen: set<Arrival>,
                    oldEo: int, oldTags: seq<int>, eo: int, tags: seq<int>, i: int, e: int)
    requires u.tracks && 0 <= pos <= |text| && 0 <= eo && |tags| > 0 && tags[0] <= limit
    requires ViewComplete(u.a, text, pos, limit, v, Simple(u)) && |v.ids| == |v.starts| <= |next|
    requires Scored(u, next, v, seen, pos, oldEo, oldTags, eo, tags)
    requires if oldEo < 0 then NoneBefore(u.a, text, pos) else Best(u, text, pos - 1, limit, oldEo, oldTags)
    requires oldEo >= 0 ==> SeenAll(u, text, limit, pos, seen)
    requires e <= pos && Match(u.a, text, i, e)
    ensures NoBetter(tags[0], eo, Tied(u, text, limit, eo), i, e)
  {
    TiedSince(u, text, limit, pos, seen, oldEo, eo);
    NotEntered(v.ids, next, u.a.final, tags);
    hide Entries, ListingOf, Thread, Tied, SeenAll, Tie;
    if u.a.final in v.ids {
      var k :| 0 <= k < |v.ids| && v.ids[k] == u.a.final;
      assert FinalAt(u, seen, v.starts[k], pos, oldEo, oldTags, eo, tags);
    }
    if e == pos && i <= limit {
      assert Listed(v, u.a.final, i, true);
      var m :| 0 <= m < |v.ids| == |v.starts| && v.ids[m] == u.a.final && v.starts[m] <= i;
      assert FinalAt(u, seen, v.starts[m], pos, oldEo, oldTags, eo, tags);
    }
  }

  lemma TiedSince(u: Setup, text: seq<int>, limit: int, pos: int, seen: set<Arrival>, oldEo: int, eo: int)
    requires oldEo >= 0 ==> SeenAll(u, text, limit, pos, seen)
    ensures oldEo >= 0 && oldEo <= eo && Tied(u, text, limit, oldEo) ==> Tied(u, text, limit, eo)
    ensures oldEo >= 0 && eo == pos && Tie(u.a.final, seen) ==> Tied(u, text, limit, eo)
  {
    hide ListingOf, Arrivals, Tie;
    if oldEo >= 0 && eo == pos && Tie(u.a.final, seen) { assert TieAt(u, text, limit, pos); }
    if oldEo >= 0 && oldEo <= eo && Tied(u, text, limit, oldEo) {
      var e :| e <= oldEo && TieAt(u, text, limit, e);
      assert e <= eo && TieAt(u, text, limit, e);
    }
  }

  lemma PathIsListed(u: Setup, text: seq<int>, pos: int, limit: int, v: View, i: int, q: int)
    requires ViewComplete(u.a, text, pos, limit, v, Simple(u)) && i <= limit && Thread(u.a, text, i, pos, q)
    ensures q in v.ids
  {
    assert Listed(v, q, i, Simple(u));
  }

  lemma NoneYet(u: Setup, text: seq<int>, pos: int, v: View)
    requires ViewComplete(u.a, text, pos, pos, v, Simple(u)) && u.a.final !in v.ids && NoneBefore(u.a, text, pos)
    ensures NoneBefore(u.a, text, pos + 1)
  {
    forall i, e | Match(u.a, text, i, e) ensures pos + 1 <= e {
      if e == pos { PathIsListed(u, text, pos, pos, v, i, u.a.final); }
    }
  }

  /** With no path left that started at limit or before, the best match so far is final. */
  lemma NothingLeft(u: Setup, text: seq<int>, pos: int, limit: int, eo: int, tags: seq<int>, i: int, e: int)
    requires u.tracks && limit <= pos && Best(u, text, pos, limit, eo, tags) && Match(u.a, text, i, e)
    requires ViewComplete(u.a, text, pos, limit, EMPTY_VIEW, Simple(u)) || pos == |text|
    ensures NoBetter(tags[0], eo, Tied(u, text, limit, eo), i, e)
  {
    hide ListingOf, Tied;
    if e > pos && i <= limit {
      var m := ThreadStays(u.a, text, i, pos, e, u.a.final);
      if pos < |text| { PathIsListed(u, text, pos, limit, EMPTY_VIEW, i, m); }
    }
  }

  // ---------- the matcher ----------

  /** What is known when the loop starts over, at position pos. */
  ghost predicate LoopTop(u: Setup, text: seq<int>, pos: int, limit: int, v: View, list: set<Arrival>, eo: int,
                          tags: seq<int>) {
    && 0 <= pos <= |text| && limit < pos && -1 <= eo && |tags| == u.numTags
    && ViewSound(u.a, text, pos, limit, v) && ViewComplete(u.a, text, pos, limit, v, Simple(u))
    && (Simple(u) ==> Sorted(v.starts)) && list == ListingOf(u, text, limit, pos)
    && if eo < 0 then limit == pos - 1 && u.a.final !in v.ids && NoneBefore(u.a, text, pos)
       else Best(u, text, pos, limit, eo, tags)
  }

  /** The character at pos, or 0 at the end of the string. */
  function CharAt(text: seq<int>, pos: nat): int { if pos < |text| then text[pos] else 0 }

  /** What the matcher promises about (matchEo, matchTags). Without tags the match is the first to end.
      When tag 0 tracks the start, every other match that starts no later ends no later; if there is
      no further tag, none starts earlier. */
  ghost predicate Verdict(u: Setup, text: seq<int>, eo: int, tags: seq<int>) {
    if eo < 0 then forall i, e :: !Match(u.a, text, i, e)
    else && (exists i :: Match(u.a, text, i, eo)) && eo <= |text|
         && (u.numTags == 0 ==> NoneBefore(u.a, text, eo))
         && (u.tracks ==>
             |tags| > 0 && Match(u.a, text, tags[0], eo)
             && forall i, e :: Match(u.a, text, i, e) ==> NoBetter(tags[0], eo, u.numTags > 1, i, e))
         && exists limit :: KeptTags(u, text, limit, eo, tags)
  }

  /** Paths start up to offset limit, which is where the first match ends or the place before. The tags
      are those of one path, the best to the final state of all that were kept; and with further tags
      the match starts later than another one only if there has been a tie. */
  ghost predicate KeptTags(u: Setup, text: seq<int>, limit: int, eo: int, tags: seq<int>) {
    && 0 <= eo <= |text| && FirstEnds(u, text, limit) && Arrival(u.a.final, tags) in ListingOf(u, text, limit, eo)
    && (exists i :: i <= limit && Carries(u.a, text, u.numTags, i, eo, u.a.final, tags))
    && (u.tracks ==>
        |tags| > 0 && forall i, e :: Match(u.a, text, i, e) ==> tags[0] <= i || Tied(u, text, limit, eo))
  }

  lemma Finished(u: Setup, text: seq<int>, pos: int, limit: int, v: View, eo: int, tags: seq<int>)
    requires 0 <= pos <= |text| && limit <= pos && -1 <= eo
    requires ViewComplete(u.a, text, pos, limit, v, Simple(u))
    requires pos == |text| || (eo >= 0 && (u.numTags == 0 || v.ids == []))
    requires if eo < 0 then NoneBefore(u.a, text, pos + 1) else Best(u, text, pos, limit, eo, tags)
    requires u.tracks ==> StartTag(u.a, u.numTags, u.directions)
    ensures Verdict(u, text, eo, tags)
  {
    assert u.tracks ==> u.numTags > 0;
    hide StartTag, ListingOf, Tied;
    if eo < 0 { return; }
    if u.tracks {
      if u.numTags == 1 { OneTagNeverTies(u, text, limit, eo); }
      forall i, e | Match(u.a, text, i, e) ensures NoBetter(tags[0], eo, Tied(u, text, limit, eo), i, e) {
        if pos < |text| {
          assert ViewComplete(u.a, text, pos, limit, EMPTY_VIEW, Simple(u)) by {
            assert forall q, j :: !Listed(v, q, j, Simple(u));
          }
        }
        NothingLeft(u, text, pos, limit, eo, tags, i, e);
      }
    }
    KeptPath(u, text, pos, limit, eo, tags);
  }

  lemma KeptPath(u: Setup, text: seq<int>, pos: int, limit: int, eo: int, tags: seq<int>)
    requires Best(u, text, pos, limit, eo, tags) && (u.tracks ==> StartTag(u.a, u.numTags, u.directions))
    requires u.tracks ==> forall i, e :: Match(u.a, text, i, e) ==> tags[0] <= i || Tied(u, text, limit, eo)
    ensures KeptTags(u, text, limit, eo, tags) && (u.tracks ==> |tags| > 0 && Match(u.a, text, tags[0], eo))
  {
    hide StartTag, Carries, Tied;
    var i := ListedIsCarried(u.a, u.directions, u.numTags, text, limit, eo, Arrival(u.a.final, tags));
    CarriedIsThread(u.a, text, u.numTags, i, eo, u.a.final, tags, u.directions);
  }

  lemma FreshMarks(next: seq<Reach>, next': seq<Reach>, marks: seq<ReachPos>, pos: int, v: View, u: Setup, eo: int,
                   tags: seq<int>)
    requires 0 <= pos && -1 <= eo && |tags| == u.numTags && |next'| == |u.offs| + 1
    requires ListIs(u, next, marks, pos, v)
    ensures Progress(u, next', marks, pos + 1, EMPTY_VIEW, {}, eo, tags, eo, tags)
  {
  }

  /** What is known in the middle of the loop, before the next character is read. */
  ghost predicate LoopMiddle(u: Setup, text: seq<int>, pos: int, limit: int, v: View, list: set<Arrival>, eo: int,
                             tags: seq<int>) {
    && 0 <= pos <= |text| && limit <= pos && -1 <= eo && |tags| == u.numTags
    && ViewSound(u.a, text, pos, limit, v) && ViewComplete(u.a, text, pos, limit, v, Simple(u))
    && (Simple(u) ==> Sorted(v.starts)) && list == ListingOf(u, text, limit, pos)
    && if eo < 0 then limit == pos && NoneBefore(u.a, text, pos + 1)
       else Best(u, text, pos, limit, eo, tags)
  }

  ghost predicate Closed(next: seq<Reach>, marks: seq<ReachPos>, pos: int, v: View, u: Setup, n: nat) {
    && |marks| == |u.offs| && |next| == |u.offs| + 1 && n == |v.ids|
    && ListIs(u, next, marks, pos, v) && next[n].state == NO_STATE
  }

  lemma CloseList(next: seq<Reach>, marks: seq<ReachPos>, pos: int, v: View, u: Setup, n: nat)
    requires |next| == |u.offs| + 1 && |marks| == |u.offs| && n == |v.ids|
    requires ListIs(u, next, marks, pos, v)
    ensures Closed(next[n := next[n].(state := NO_STATE)], marks, pos, v, u, n)
    ensures Entries(v.ids, next[n := next[n].(state := NO_STATE)]) == Entries(v.ids, next)
  {
    var next' := next[n := next[n].(state := NO_STATE)];
    assert forall k :: 0 <= k < n ==> next'[k] == next[k];
  }

  lemma ClosedIsReach(next: seq<Reach>, marks: seq<ReachPos>, pos: int, v: View, u: Setup, n: nat, final: int)
    requires SetupOk(u, final) && Closed(next, marks, pos, v, u, n)
    requires forall p :: 0 <= p < |u.offs| ==> 0 <= u.offs[p]
    ensures ReachIs(next, v, u)
  {
  }

  /** Reads the character at pos and computes the list of the next position. */
  method StepText(transitions: array<Trans>, reach: array<Reach>, next: array<Reach>, marks: array<ReachPos>, c: int,
                  pos: nat,
                  final: int, directions: seq<Direction>, matchEo: int, matchTags: seq<int>,
                  ghost text: seq<int>, ghost limit: int, ghost w: View, ghost u: Setup)
      returns (n: nat, matchEo': int, matchTags': seq<int>, ghost v: View)
    requires reach != next && next.Length == |u.offs| + 1
    requires SetupOk(u, final) && directions == u.directions && TableIs(transitions[..], u.offs, u.caps, u.a.rows)
    requires LoopMiddle(u, text, pos, limit, w, Entries(w.ids, reach[..]), matchEo, matchTags)
    requires pos < |text| && c == text[pos]
    requires Closed(reach[..], marks[..], pos, w, u, |w.ids|)
    modifies next, marks
    ensures LoopTop(u, text, pos + 1, limit, v, Entries(v.ids, next[..]), matchEo', matchTags')
    ensures Closed(next[..], marks[..], pos + 1, v, u, n)
  {
    hide Entries, Survivors, Arrivals, ViewSound, ViewComplete, Scored, Best, NoneBefore, Layout, StartTag, TableIs;
    OffsetsAreNatural(transitions[..], u);
    ClosedIsReach(reach[..], marks[..], pos, w, u, |w.ids|, final);
    FreshMarks(reach[..], next[..], marks[..], pos, w, u, matchEo, matchTags);
    n, matchEo', matchTags', v := FollowAll(reach, c, pos, transitions, next, marks, final, directions, matchEo,
                                            matchTags,
                                            text, limit, w, u);
    StepListing(u, text, limit, pos, Entries(w.ids, reach[..]));
    BestAfter(u, text, pos + 1, limit, next[..], v, Arrivals(u.a, Entries(w.ids, reach[..]), c, pos + 1), matchEo,
              matchTags, matchEo', matchTags');
    CloseList(next[..], marks[..], pos + 1, v, u, n);
    ghost var next0 := next[..];
    next[n] := next[n].(state := NO_STATE);
    assert next[..] == next0[n := next0[n].(state := NO_STATE)];
  }

  /** The list after one more character. */
  lemma StepListing(u: Setup, text: seq<int>, limit: int, pos: nat, list: set<Arrival>)
    requires pos < |text| && limit <= pos && list == ListingOf(u, text, limit, pos)
    ensures ListingOf(u, text, limit, pos + 1) == Survivors(u.directions, Arrivals(u.a, list, text[pos], pos + 1))
  {
    KeptNext(u.a, u.directions, u.numTags, text, limit, pos);
  }

  /** The list with the paths that start at pos. */
  lemma StartListing(u: Setup, text: seq<int>, pos: nat, list: set<Arrival>)
    requires pos <= |text| && list == ListingOf(u, text, pos - 1, pos)
    ensures ListingOf(u, text, pos, pos) == list + Starting(u.a, u.numTags, |u.a.first|, list, pos)
  {
    LaterStarts(u.a, u.directions, u.numTags, text, pos - 1, pos, pos);
  }

  lemma OffsetsAreNatural(slots: seq<Trans>, u: Setup)
    requires TableIs(slots, u.offs, u.caps, u.a.rows)
    ensures forall p :: 0 <= p < |u.offs| ==> 0 <= u.offs[p]
  {
    forall p | 0 <= p < |u.offs| ensures 0 <= u.offs[p] {
      assert RowIs(slots, u.offs[p], u.caps[p], u.a.rows[p]);
    }
  }

  /** The head of the loop while no match has been found. */
  method StartPaths(initial: array<Trans>, pos: nat, next: array<Reach>, marks: array<ReachPos>, n: nat, final: int,
                    numTags: nat, matchTags: seq<int>, ghost text: seq<int>, ghost v: View, ghost u: Setup)
      returns (n': nat, matchEo': int, matchTags': seq<int>, ghost v': View)
    requires SetupOk(u, final) && numTags == u.numTags && InitialR(initial[..], u.a.first)
    requires LoopTop(u, text, pos, pos - 1, v, Entries(v.ids, next[..]), -1, matchTags)
    requires Closed(next[..], marks[..], pos, v, u, n)
    modifies next, marks
    ensures LoopMiddle(u, text, pos, pos, v', Entries(v'.ids, next[..]), matchEo', matchTags')
    ensures Closed(next[..], marks[..], pos, v', u, n')
  {
    hide Entries, Starting, ViewSound, ViewComplete, Best, NoneBefore, Layout, StartTag, InitialR, ListingOf;
    ghost var list := Entries(v.ids, next[..]);
    NotScored(u, next[..], v, pos, matchTags);
    n', matchEo', matchTags', v' := AddInitial(initial, pos, next, marks, n, final, numTags, matchTags, text, v, u);
    StartListing(u, text, pos, list);
    BestAfter(u, text, pos, pos, next[..], v', {}, -1, matchTags, matchEo', matchTags');
    CloseList(next[..], marks[..], pos, v', u, n');
    ghost var next0 := next[..];
    next[n'] := next[n'].(state := NO_STATE);
    assert next[..] == next0[n' := next0[n'].(state := NO_STATE)];
  }

  lemma NotScored(u: Setup, next: seq<Reach>, v: View, pos: int, tags: seq<int>)
    requires u.a.final !in v.ids && |v.ids| == |v.starts|
    ensures Scored(u, next, v, {}, pos, -1, tags, -1, tags)
  {
  }

  lemma NothingReached(next: seq<Reach>, marks: seq<ReachPos>, u: Setup, text: seq<int>, final: int, tags: seq<int>)
    requires |next| == |u.offs| + 1 && |marks| == |u.offs| && next[0].state == NO_STATE && |tags| == u.numTags
    requires forall k :: 0 <= k < |marks| ==> marks[k].pos == -1
    ensures LoopTop(u, text, 0, -1, EMPTY_VIEW, Entries([], next), -1, tags)
            && Closed(next, marks, 0, EMPTY_VIEW, u, 0)
  {
    NoneSeen(u.directions, next);
    assert ListingOf(u, text, -1, 0) == {} && EMPTY_VIEW.ids == [];
    hide ListingOf, Entries;
  }

  /** tre_tnfa_run_parallel, for an automaton without assertions and minimal tags. */
  method RunParallel(transitions: array<Trans>, initial: array<Trans>, final: int, numStates: nat, numTags: nat,
                     directions: seq<Direction>, matchTags0: seq<int>, text: seq<int>, ghost u: Setup)
      returns (ok: bool, matchEo: int, matchTags: seq<int>)
    requires SetupOk(u, final) && TableIs(transitions[..], u.offs, u.caps, u.a.rows) && InitialR(initial[..], u.a.first)
    requires numStates == |u.offs| && numTags == u.numTags == |matchTags0| && directions == u.directions
    requires 0 !in text
    ensures ok <==> 0 <= matchEo
    ensures Verdict(u, text, matchEo, matchTags)
  {
    hide Verdict, Best, NoneBefore, ViewComplete, ViewSound, TableIs, InitialR, Thread, Entries, ListingOf, Layout;
    var reach := new Reach[numStates + 1](_ => Reach(NO_STATE, []));
    var reachNext := new Reach[numStates + 1](_ => Reach(NO_STATE, []));
    var marks := new ReachPos[numStates](_ => ReachPos(-1, 0));
    var n, pos := 0, 0;
    matchEo, matchTags := -1, matchTags0;
    var nextC := CharAt(text, pos);
    ghost var limit, v := -1, EMPTY_VIEW;
    NothingReached(reachNext[..], marks[..], u, text, final, matchTags);
    while true
      invariant LoopTop(u, text, pos, limit, v, Entries(v.ids, reachNext[..]), matchEo, matchTags)
      invariant nextC == CharAt(text, pos)
      invariant reach != reachNext && reach.Length == reachNext.Length == numStates + 1 && fresh(reach)
                && fresh(reachNext)
      invariant Closed(reachNext[..], marks[..], pos, v, u, n)
      decreases |text| - pos
    {
      if matchEo < 0 {
        n, matchEo, matchTags, v := StartPaths(initial, pos, reachNext, marks, n, final, numTags, matchTags, text, v,
                                               u);
        limit := pos;
      } else if numTags == 0 || n == 0 {
        Finished(u, text, pos, limit, v, matchEo, matchTags);
        return true, matchEo, matchTags;
      }
      if nextC == 0 {
        Finished(u, text, pos, limit, v, matchEo, matchTags);
        return matchEo >= 0, matchEo, matchTags;
      }
      var prevC := nextC;
      nextC := CharAt(text, pos + 1);
      reach, reachNext := reachNext, reach;
      n, matchEo, matchTags, v := StepText(transitions, reach, reachNext, marks, prevC, pos, final, directions,
                                           matchEo, matchTags, text, limit, v, u);
      pos := pos + 1;
    }
  }
}
