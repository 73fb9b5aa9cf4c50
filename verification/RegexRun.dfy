/** What a run of the matcher is to find: the paths through an automaton, the tags they carry, and
    the paths that are kept. */
module RegexRun {
  import opened RegexTnfa
  import opened RegexTags

  /** An automaton as the matcher sees it: the transitions out of each state, the initial
      transitions, and the final state's number. */
  datatype Automaton = Automaton(rows: Rows, first: seq<Trans>, final: int)

  predicate Reads(tr: Trans, c: int) { tr.codeMin <= c <= tr.codeMax }

  // ---------- the paths ----------

  ghost predicate StepR(a: Automaton, p: int, c: int, q: int) {
    0 <= p < |a.rows| && exists tr :: tr in a.rows[p] && tr.codeMin <= c <= tr.codeMax && tr.stateId == q
  }

  ghost predicate StartR(a: Automaton, q: int) { exists tr :: tr in a.first && tr.stateId == q }

  /** A path that starts at offset i of the text is in state q at offset pos. */
  ghost predicate Thread(a: Automaton, text: seq<int>, i: int, pos: int, q: int)
    decreases pos
  {
    0 <= i <= pos <= |text| &&
    if i == pos then StartR(a, q) else exists m :: ThreadVia(a, text, i, pos, q, m)
  }

  ghost predicate ThreadVia(a: Automaton, text: seq<int>, i: int, pos: int, q: int, m: int)
    requires 0 <= i < pos <= |text|
    decreases pos, 0
  {
    Thread(a, text, i, pos - 1, m) && StepR(a, m, text[pos - 1], q)
  }

  /** The text from i to e is accepted. */
  ghost predicate Match(a: Automaton, text: seq<int>, i: int, e: int) { Thread(a, text, i, e, a.final) }

  lemma {:induction false} ThreadStays(a: Automaton, text: seq<int>, i: int, pos: int, e: int, q: int) returns (m: int)
    requires i <= pos <= e && Thread(a, text, i, e, q)
    ensures Thread(a, text, i, pos, m)
    decreases e
  {
    if pos == e {
      m := q;
    } else {
      var k :| ThreadVia(a, text, i, e, q, k);
      m := ThreadStays(a, text, i, pos, e - 1, k);
    }
  }

  // ---------- the paths with their tags ----------

  /** A path that starts at offset i is in state q at offset pos and has set the n tags so. */
  ghost predicate Carries(a: Automaton, text: seq<int>, n: nat, i: int, pos: int, q: int, tags: seq<int>)
    decreases pos
  {
    0 <= i <= pos <= |text| &&
    if i == pos then exists tr :: tr in a.first && tr.stateId == q && tags == Tagged(Unset(n), tr.tags, pos)
    else exists m, was, tr :: CarriesVia(a, text, n, i, pos, q, tags, m, was, tr)
  }

  ghost predicate CarriesVia(a: Automaton, text: seq<int>, n: nat, i: int, pos: int, q: int, tags: seq<int>, m: int,
                             was: seq<int>, tr: Trans)
    requires 0 <= i < pos <= |text|
    decreases pos, 0
  {
    && Carries(a, text, n, i, pos - 1, m, was) && 0 <= m < |a.rows| && tr in a.rows[m] && Reads(tr, text[pos - 1])
    && tr.stateId == q && tags == Tagged(was, tr.tags, pos)
  }

  /** Tag 0 is minimised; the initial transitions set it, and no others do. */
  ghost predicate StartTag(a: Automaton, n: nat, directions: seq<Direction>) {
    && 1 <= n <= |directions| && directions[0] == Minimize
    && (forall tr :: tr in a.first ==> 0 in tr.tags)
    && (forall p, tr :: 0 <= p < |a.rows| && tr in a.rows[p] ==> 0 !in tr.tags)
  }

  predicate StartsAt(tags: seq<int>, i: int) { |tags| > 0 && tags[0] == i }

  lemma {:induction false} CarriedIsThread(a: Automaton, text: seq<int>, n: nat, i: int, pos: int, q: int,
                                           tags: seq<int>, directions: seq<Direction>)
    requires Carries(a, text, n, i, pos, q, tags)
    ensures Thread(a, text, i, pos, q) && |tags| == n && (StartTag(a, n, directions) ==> StartsAt(tags, i))
    decreases pos
  {
    if i == pos {
      var tr :| tr in a.first && tr.stateId == q && tags == Tagged(Unset(n), tr.tags, pos);
      if n > 0 { TaggedAt(Unset(n), tr.tags, pos, 0); }
    } else {
      var m, was, tr :| CarriesVia(a, text, n, i, pos, q, tags, m, was, tr);
      CarriedIsThread(a, text, n, i, pos - 1, m, was, directions);
      if n > 0 { TaggedAt(was, tr.tags, pos, 0); }
      assert ThreadVia(a, text, i, pos, q, m);
    }
  }

  // ---------- the paths that are kept ----------

  /** The arrivals over the first k transitions of a row, from a state whose path has these tags. */
  ghost function RowArrivals(row: seq<Trans>, k: nat, c: int, tags: seq<int>, pos: int): set<Arrival>
    requires k <= |row|
  {
    set j | 0 <= j < k && Reads(row[j], c) :: Arrival(row[j].stateId, Tagged(tags, row[j].tags, pos))
  }

  /** All arrivals at pos from the states of a list. */
  ghost function Arrivals(a: Automaton, list: set<Arrival>, c: int, pos: int): set<Arrival> {
    set x, j | x in list && 0 <= x.id < |a.rows| && 0 <= j < |a.rows[x.id]| && Reads(a.rows[x.id][j], c) ::
      Arrival(a.rows[x.id][j].stateId, Tagged(x.tags, a.rows[x.id][j].tags, pos))
  }

  ghost predicate IsFirst(first: seq<Trans>, j: nat)
    requires j < |first|
  {
    forall m :: 0 <= m < j ==> first[m].stateId != first[j].stateId
  }

  ghost predicate On(list: set<Arrival>, q: int) { exists x :: x in list && x.id == q }

  /** The paths that start at pos over the first k initial transitions, for the states that are not on
      the list yet; the first transition to a state counts. */
  ghost function Starting(a: Automaton, n: nat, k: nat, list: set<Arrival>, pos: int): set<Arrival>
    requires k <= |a.first|
  {
    set j | 0 <= j < k && IsFirst(a.first, j) && !On(list, a.first[j].stateId) ::
      Arrival(a.first[j].stateId, Tagged(Unset(n), a.first[j].tags, pos))
  }

  /** The list at offset pos when paths start up to offset limit: of all that arrive in one state
      the best by its tags. */
  ghost function Listing(a: Automaton, directions: seq<Direction>, n: nat, text: seq<int>, limit: int, pos: nat):
      set<Arrival>
    requires pos <= |text|
    decreases pos, 1
  {
    var kept := Kept(a, directions, n, text, limit, pos);
    if pos <= limit then kept + Starting(a, n, |a.first|, kept, pos) else kept
  }

  ghost function Kept(a: Automaton, directions: seq<Direction>, n: nat, text: seq<int>, limit: int, pos: nat):
      set<Arrival>
    requires pos <= |text|
    decreases pos, 0
  {
    if pos == 0 then {}
    else Survivors(directions, Arrivals(a, Listing(a, directions, n, text, limit, pos - 1), text[pos - 1], pos))
  }

  /** Paths that start later do not matter. */
  lemma {:induction false} LaterStarts(a: Automaton, directions: seq<Direction>, n: nat, text: seq<int>, limit: int,
                                       limit': int, pos: nat)
    requires pos <= |text|
    ensures pos <= limit && pos <= limit' ==>
      Listing(a, directions, n, text, limit, pos) == Listing(a, directions, n, text, limit', pos)
    ensures pos <= limit + 1 && pos <= limit' + 1 ==>
      Kept(a, directions, n, text, limit, pos) == Kept(a, directions, n, text, limit', pos)
    decreases pos
  {
    if pos > 0 { LaterStarts(a, directions, n, text, limit, limit', pos - 1); }
  }

  lemma KeptNext(a: Automaton, directions: seq<Direction>, n: nat, text: seq<int>, limit: int, pos: nat)
    requires pos < |text|
    ensures Kept(a, directions, n, text, limit, pos + 1) ==
            Survivors(directions, Arrivals(a, Listing(a, directions, n, text, limit, pos), text[pos], pos + 1))
  {
    hide Survivors, Arrivals;
    var next := pos + 1;
    assert next - 1 == pos;
  }

  lemma OneMoreRow(a: Automaton, list: set<Arrival>, x: Arrival, c: int, pos: int)
    requires 0 <= x.id < |a.rows|
    ensures Arrivals(a, list + {x}, c, pos) ==
            Arrivals(a, list, c, pos) + RowArrivals(a.rows[x.id], |a.rows[x.id]|, c, x.tags, pos)
  {
    var one := RowArrivals(a.rows[x.id], |a.rows[x.id]|, c, x.tags, pos);
    forall y | y in Arrivals(a, list + {x}, c, pos) ensures y in Arrivals(a, list, c, pos) + one {
      var z, j :| z in list + {x} && 0 <= z.id < |a.rows| && 0 <= j < |a.rows[z.id]| && Reads(a.rows[z.id][j], c)
        && y == Arrival(a.rows[z.id][j].stateId, Tagged(z.tags, a.rows[z.id][j].tags, pos));
      if z !in list { assert z == x; }
    }
  }

  lemma OneMoreTrans(row: seq<Trans>, k: nat, c: int, tags: seq<int>, pos: int)
    requires k < |row|
    ensures RowArrivals(row, k + 1, c, tags, pos) == RowArrivals(row, k, c, tags, pos)
      + if Reads(row[k], c) then {Arrival(row[k].stateId, Tagged(tags, row[k].tags, pos))} else {}
  {
  }

  lemma OneMoreStart(a: Automaton, n: nat, k: nat, list: set<Arrival>, pos: int)
    requires k < |a.first|
    ensures Starting(a, n, k + 1, list, pos) == Starting(a, n, k, list, pos)
      + if IsFirst(a.first, k) && !On(list, a.first[k].stateId)
        then {Arrival(a.first[k].stateId, Tagged(Unset(n), a.first[k].tags, pos))} else {}
  {
  }

  /** Whatever is kept is a path with its own tags. */
  lemma {:induction false} ListedIsCarried(a: Automaton, directions: seq<Direction>, n: nat, text: seq<int>,
                                           limit: int, pos: nat, x: Arrival) returns (i: int)
    requires pos <= |text| && x in Listing(a, directions, n, text, limit, pos)
    ensures i <= limit && Carries(a, text, n, i, pos, x.id, x.tags)
    decreases pos
  {
    var kept := Kept(a, directions, n, text, limit, pos);
    if x !in kept {
      i := pos;
      var j :| 0 <= j < |a.first| && x == Arrival(a.first[j].stateId, Tagged(Unset(n), a.first[j].tags, pos));
      assert a.first[j] in a.first;
      return;
    }
    var list, c := Listing(a, directions, n, text, limit, pos - 1), text[pos - 1];
    var y, j :| y in list && 0 <= y.id < |a.rows| && 0 <= j < |a.rows[y.id]| && Reads(a.rows[y.id][j], c)
      && x == Arrival(a.rows[y.id][j].stateId, Tagged(y.tags, a.rows[y.id][j].tags, pos));
    i := ListedIsCarried(a, directions, n, text, limit, pos - 1, y);
    assert CarriesVia(a, text, n, i, pos, x.id, x.tags, y.id, y.tags, a.rows[y.id][j]);
  }
}
