/** Tags: what a transition sets, which of two tag vectors is better, and what is kept of all
    the vectors with which paths arrive at one place of the text. */
module RegexTags {
  datatype Direction = Minimize | Maximize

  /** tre_tnfa_reach_t */
  datatype Reach = Reach(state: int, tags: seq<int>)

  /** A path has come to state id and has set its tags. */
  datatype Arrival = Arrival(id: int, tags: seq<int>)

  function Unset(n: nat): (t: seq<int>)
    ensures |t| == n && forall i :: 0 <= i < n ==> t[i] == -1
  {
    seq(n, _ => -1)
  }

  /** The tags after a transition that sets the tags in list to pos. */
  function Tagged(tags: seq<int>, list: seq<int>, pos: int): (r: seq<int>)
    ensures |r| == |tags|
  {
    if list == [] then tags
    else
      var last := list[|list| - 1];
      var t := Tagged(tags, list[..|list| - 1], pos);
      if 0 <= last < |tags| then t[last := pos] else t
  }

  lemma {:induction false} TaggedAt(tags: seq<int>, list: seq<int>, pos: int, i: nat)
    requires i < |tags|
    ensures Tagged(tags, list, pos)[i] == if i in list then pos else tags[i]
    decreases |list|
  {
    if list != [] {
      var n := |list| - 1;
      assert list == list[..n] + [list[n]];
      TaggedAt(tags, list[..n], pos, i);
    }
  }

  method SetTags(tags: seq<int>, list: seq<int>, pos: int) returns (r: seq<int>)
    ensures r == Tagged(tags, list, pos)
  {
    r := tags;
    var k := 0;
    while k < |list|
      invariant 0 <= k <= |list| && |r| == |tags| && r == Tagged(tags, list[..k], pos)
    {
      assert list[..k + 1][..k] == list[..k];
      if 0 <= list[k] < |tags| { r := r[list[k] := pos]; }
      k := k + 1;
    }
    assert list[..k] == list;
  }

  // ---------- which vector is better ----------

  predicate Better(d: Direction, x: int, y: int) { if d.Minimize? then x < y else x > y }

  /** t1 beats t2 at the first tag where they differ. */
  ghost predicate Wins(directions: seq<Direction>, t1: seq<int>, t2: seq<int>, i: nat)
    requires |t1| == |t2| <= |directions|
  {
    i < |t1| && t1[..i] == t2[..i] && Better(directions[i], t1[i], t2[i])
  }

  ghost predicate Beats(directions: seq<Direction>, t1: seq<int>, t2: seq<int>) {
    |t1| == |t2| <= |directions| && exists i: nat :: Wins(directions, t1, t2, i)
  }

  /** tre_tag_order: returns true if t1 wins t2. */
  method TagOrder(directions: seq<Direction>, t1: seq<int>, t2: seq<int>) returns (win: bool)
    requires |t1| == |t2| <= |directions|
    ensures win <==> Beats(directions, t1, t2)
  {
    var i := 0;
    while i < |t1|
      invariant 0 <= i <= |t1| && t1[..i] == t2[..i]
    {
      if Better(directions[i], t1[i], t2[i]) {
        assert Wins(directions, t1, t2, i);
        return true;
      }
      if t1[i] != t2[i] {
        forall k: nat ensures !Wins(directions, t1, t2, k) {
          if k > i && k < |t1| { assert t1[..k][i] == t1[i] && t2[..k][i] == t2[i]; }
        }
        return false;
      }
      i := i + 1;
    }
    forall k: nat ensures !Wins(directions, t1, t2, k) {
      if k < |t1| { assert t1[..i][k] == t2[..i][k]; }
    }
    return false;
  }

  lemma NotItself(directions: seq<Direction>, t: seq<int>)
    ensures !Beats(directions, t, t)
  {
  }

  lemma BeatsThrough(directions: seq<Direction>, t1: seq<int>, t2: seq<int>, t3: seq<int>)
    requires Beats(directions, t1, t2) && Beats(directions, t2, t3)
    ensures Beats(directions, t1, t3)
  {
    var i: nat :| Wins(directions, t1, t2, i);
    var j: nat :| Wins(directions, t2, t3, j);
    var k := if i < j then i else j;
    assert t1[..k] == t1[..i][..k] == t2[..i][..k] == t2[..k];
    assert t2[..k] == t2[..j][..k] == t3[..j][..k] == t3[..k];
    if i < j { assert t2[i] == t2[..j][i] == t3[..j][i] == t3[i]; }
    if j < i { assert t1[j] == t1[..i][j] == t2[..i][j] == t2[j]; }
    assert Wins(directions, t1, t3, k);
  }

  /** Of two different vectors one is better. */
  lemma OneBeats(directions: seq<Direction>, t1: seq<int>, t2: seq<int>)
    requires |t1| == |t2| <= |directions| && t1 != t2
    ensures Beats(directions, t1, t2) || Beats(directions, t2, t1)
  {
    var i := Difference(t1, t2);
    if Better(directions[i], t1[i], t2[i]) {
      assert Wins(directions, t1, t2, i);
    } else {
      assert Wins(directions, t2, t1, i);
    }
  }

  lemma {:induction false} Difference(t1: seq<int>, t2: seq<int>) returns (i: nat)
    requires |t1| == |t2| && t1 != t2
    ensures i < |t1| && t1[..i] == t2[..i] && t1[i] != t2[i]
  {
    if t1[0] != t2[0] { return 0; }
    assert t1 == [t1[0]] + t1[1..] && t2 == [t2[0]] + t2[1..];
    var k := Difference(t1[1..], t2[1..]);
    i := k + 1;
    assert t1[..i] == [t1[0]] + t1[1..][..k] && t2[..i] == [t2[0]] + t2[1..][..k];
  }

  // ---------- the best of all arrivals ----------

  /** For each state the arrival that no other one at that state beats. */
  ghost function Survivors(directions: seq<Direction>, seen: set<Arrival>): set<Arrival> {
    set x | x in seen && Unbeaten(directions, seen, x)
  }

  ghost predicate Unbeaten(directions: seq<Direction>, seen: set<Arrival>, x: Arrival) {
    forall y :: y in seen && y.id == x.id ==> !Beats(directions, y.tags, x.tags)
  }

  /** What stands on a list whose entry k is state ids[k]. */
  ghost function Entries(ids: seq<int>, next: seq<Reach>): set<Arrival> {
    set k | 0 <= k < |ids| && k < |next| :: Arrival(ids[k], next[k].tags)
  }

  ghost predicate WonBy(directions: seq<Direction>, ids: seq<int>, next: seq<Reach>, k: nat, x: Arrival) {
    k < |ids| <= |next| && ids[k] == x.id && !Beats(directions, x.tags, next[k].tags)
  }

  ghost predicate IsWon(directions: seq<Direction>, ids: seq<int>, next: seq<Reach>, x: Arrival) {
    exists k: nat :: WonBy(directions, ids, next, k, x)
  }

  /** Each entry is one of the arrivals seen, and none of them beats the entry of its state. */
  ghost predicate Winners(directions: seq<Direction>, ids: seq<int>, next: seq<Reach>, seen: set<Arrival>) {
    && |ids| <= |next|
    && (forall k :: 0 <= k < |ids| ==> Arrival(ids[k], next[k].tags) in seen)
    && (forall x {:trigger IsWon(directions, ids, next, x)} :: x in seen ==> IsWon(directions, ids, next, x))
  }

  lemma NoneSeen(directions: seq<Direction>, next: seq<Reach>)
    ensures Winners(directions, [], next, {}) && Entries([], next) == {}
  {
  }

  lemma WinnersNew(directions: seq<Direction>, ids: seq<int>, next: seq<Reach>, seen: set<Arrival>, q: int, r: Reach)
    requires Winners(directions, ids, next, seen) && |ids| < |next|
    ensures Winners(directions, ids + [q], next[|ids| := r], seen + {Arrival(q, r.tags)})
  {
    var n, ids', next', x' := |ids|, ids + [q], next[|ids| := r], Arrival(q, r.tags);
    forall x | x in seen + {x'} ensures IsWon(directions, ids', next', x) {
      if x in seen {
        assert IsWon(directions, ids, next, x);
        var k: nat :| WonBy(directions, ids, next, k, x);
        assert WonBy(directions, ids', next', k, x);
      } else {
        NotItself(directions, r.tags);
        assert WonBy(directions, ids', next', n, x);
      }
    }
  }

  lemma WinnersStay(directions: seq<Direction>, ids: seq<int>, next: seq<Reach>, seen: set<Arrival>, q: int, slot: nat,
                    tags: seq<int>)
    requires Winners(directions, ids, next, seen) && slot < |ids| && ids[slot] == q
             && !Beats(directions, tags, next[slot].tags)
    ensures Winners(directions, ids, next, seen + {Arrival(q, tags)})
  {
    assert WonBy(directions, ids, next, slot, Arrival(q, tags));
  }

  lemma WinnersChange(directions: seq<Direction>, ids: seq<int>, next: seq<Reach>, seen: set<Arrival>, q: int,
                      slot: nat, tags: seq<int>)
    requires Winners(directions, ids, next, seen) && slot < |ids| && ids[slot] == q
             && Beats(directions, tags, next[slot].tags)
    ensures Winners(directions, ids, next[slot := next[slot].(tags := tags)], seen + {Arrival(q, tags)})
  {
    hide Beats;
    var next', x' := next[slot := next[slot].(tags := tags)], Arrival(q, tags);
    forall x | x in seen + {x'} ensures IsWon(directions, ids, next', x) {
      if x in seen {
        StillWon(directions, ids, next, slot, tags, x);
      } else {
        NotItself(directions, tags);
        assert WonBy(directions, ids, next', slot, x);
      }
    }
  }

  lemma StillWon(directions: seq<Direction>, ids: seq<int>, next: seq<Reach>, slot: nat, tags: seq<int>, x: Arrival)
    requires slot < |ids| <= |next| && Beats(directions, tags, next[slot].tags) && IsWon(directions, ids, next, x)
    ensures IsWon(directions, ids, next[slot := next[slot].(tags := tags)], x)
  {
    hide Beats;
    var next' := next[slot := next[slot].(tags := tags)];
    var k: nat :| WonBy(directions, ids, next, k, x);
    if k == slot && Beats(directions, x.tags, tags) { BeatsThrough(directions, x.tags, tags, next[slot].tags); }
    assert WonBy(directions, ids, next', k, x);
  }

  ghost predicate NoRepeats(ids: seq<int>) { forall j, k :: 0 <= j < k < |ids| ==> ids[j] != ids[k] }

  /** The list ends up with exactly the best arrival for each state. */
  lemma WinnersSurvive(directions: seq<Direction>, ids: seq<int>, next: seq<Reach>, seen: set<Arrival>, n: nat)
    requires Winners(directions, ids, next, seen) && NoRepeats(ids) && n <= |directions|
    requires forall x :: x in seen ==> |x.tags| == n
    ensures Entries(ids, next) == Survivors(directions, seen)
  {
    forall x | x in Entries(ids, next) ensures x in Survivors(directions, seen) {
      var k :| 0 <= k < |ids| && Arrival(ids[k], next[k].tags) == x;
      forall y | y in seen && y.id == x.id ensures !Beats(directions, y.tags, x.tags) {
        assert IsWon(directions, ids, next, y);
        var j: nat :| WonBy(directions, ids, next, j, y);
      }
    }
    forall x | x in Survivors(directions, seen) ensures x in Entries(ids, next) {
      assert IsWon(directions, ids, next, x);
      var k: nat :| WonBy(directions, ids, next, k, x);
      var y := Arrival(ids[k], next[k].tags);
      assert y in seen;
      if y.tags != x.tags { OneBeats(directions, x.tags, y.tags); }
    }
  }
}
