/** Filling the match array from the tags (tre_fill_pmatch). */
module RegexSubmatch {
  datatype Span = Span(so: int, eo: int)

  const NOWHERE := Span(-1, -1)

  /** What the compiler records about one parenthesised group: the tags of its two ends and
      the groups around it. */
  datatype Group = Group(soTag: nat, eoTag: nat, parents: seq<nat>)

  /** A tag's value at the end of the match. */
  function TagValue(tag: nat, endTag: int, tags: seq<int>, matchEo: int): int
    requires tag == endTag || tag < |tags|
  {
    if tag == endTag then matchEo else tags[tag]
  }

  ghost predicate GroupsOk(groups: seq<Group>, endTag: int, numTags: nat) {
    forall i :: 0 <= i < |groups| ==>
      && (groups[i].soTag == endTag || groups[i].soTag < numTags)
      && (groups[i].eoTag == endTag || groups[i].eoTag < numTags)
      && forall p :: p in groups[i].parents ==> p < i
  }

  /** Tags hold positions in the text, or -1 while unset. */
  ghost predicate TagsOk(tags: seq<int>) { forall k :: 0 <= k < |tags| ==> -1 <= tags[k] }

  /** What the tags say of group g, before looking at the groups around it. */
  function Raw(g: Group, endTag: int, tags: seq<int>, matchEo: int): Span
    requires g.soTag == endTag || g.soTag < |tags|
    requires g.eoTag == endTag || g.eoTag < |tags|
  {
    var s := Span(TagValue(g.soTag, endTag, tags, matchEo), TagValue(g.eoTag, endTag, tags, matchEo));
    if s.so == -1 || s.eo == -1 then NOWHERE else s
  }

  predicate Within(inner: Span, outer: Span) { outer.so <= inner.so && inner.eo <= outer.eo }

  ghost function Raws(groups: seq<Group>, endTag: int, tags: seq<int>, matchEo: int): (r: seq<Span>)
    requires GroupsOk(groups, endTag, |tags|)
  {
    seq(|groups|, i requires 0 <= i < |groups| => Raw(groups[i], endTag, tags, matchEo))
  }

  /** Group i took part in the match, as did all the groups around it, and it lies in them. */
  ghost predicate Kept(raws: seq<Span>, groups: seq<Group>, i: nat)
    requires i < |raws| == |groups|
    decreases i
  {
    raws[i] != NOWHERE && forall p :: p in groups[i].parents && p < i ==>
      Kept(raws, groups, p) && Within(raws[i], raws[p])
  }

  ghost function Reported(raws: seq<Span>, groups: seq<Group>, i: nat): Span {
    if i < |raws| == |groups| && Kept(raws, groups, i) then raws[i] else NOWHERE
  }

  ghost predicate Inside(raws: seq<Span>, groups: seq<Group>, i: nat, p: nat)
    requires i < |raws| == |groups| && p < i
  {
    Kept(raws, groups, p) && Within(raws[i], raws[p])
  }

  // ---------- all the groups around a group ----------

  /** Group p is around group i: a parent, or a parent's ancestor. */
  ghost predicate Ancestor(groups: seq<Group>, i: nat, p: nat)
    requires i < |groups|
    decreases i
  {
    && p < i
    && (p in groups[i].parents || exists k :: k in groups[i].parents && k < i && Ancestor(groups, k, p))
  }

  lemma {:induction false} KeptBelow(raws: seq<Span>, groups: seq<Group>, i: nat, p: nat)
    requires i < |raws| == |groups| && Ancestor(groups, i, p) && Kept(raws, groups, i)
    ensures Kept(raws, groups, p) && Within(raws[i], raws[p])
    decreases i
  {
    if p !in groups[i].parents {
      var k :| k in groups[i].parents && k < i && Ancestor(groups, k, p);
      KeptBelow(raws, groups, k, p);
    }
  }

  /** A reported group lies in every group around it, however far out, and these are reported
      too. */
  lemma {:induction false} ReportedIsNested(raws: seq<Span>, groups: seq<Group>, i: nat, p: nat)
    requires i < |raws| == |groups| && Ancestor(groups, i, p)
    requires Reported(raws, groups, i) != NOWHERE
    ensures Reported(raws, groups, p) != NOWHERE && Within(Reported(raws, groups, i), Reported(raws, groups, p))
  {
    KeptBelow(raws, groups, i, p);
  }

  /** The tags have group i, and it lies in each of its parents. */
  ghost predicate Fits(raws: seq<Span>, groups: seq<Group>, i: nat)
    requires i < |raws| == |groups|
  {
    raws[i] != NOWHERE && forall p :: p in groups[i].parents && p < i ==> Within(raws[i], raws[p])
  }

  lemma {:induction false} FitsIsKept(raws: seq<Span>, groups: seq<Group>, i: nat)
    requires i < |raws| == |groups| && Fits(raws, groups, i)
    requires forall p: nat :: p < i && Ancestor(groups, i, p) ==> Fits(raws, groups, p)
    ensures Kept(raws, groups, i)
    decreases i
  {
    forall k | k in groups[i].parents && k < i ensures Kept(raws, groups, k) {
      forall p: nat | p < k && Ancestor(groups, k, p) ensures Fits(raws, groups, p) { assert Ancestor(groups, i, p); }
      assert Ancestor(groups, i, k);
      FitsIsKept(raws, groups, k);
    }
  }

  /** A group is reported exactly if the tags have it and all the groups around it, and each of
      them lies in its parents. */
  lemma ReportedExactly(raws: seq<Span>, groups: seq<Group>, i: nat)
    requires i < |raws| == |groups|
    ensures Reported(raws, groups, i) != NOWHERE <==>
            Fits(raws, groups, i) && forall p: nat :: p < i && Ancestor(groups, i, p) ==> Fits(raws, groups, p)
  {
    if Kept(raws, groups, i) {
      forall p: nat | p < i && Ancestor(groups, i, p) ensures Fits(raws, groups, p) { KeptBelow(raws, groups, i, p); }
    }
    if Fits(raws, groups, i) && forall p: nat :: p < i && Ancestor(groups, i, p) ==> Fits(raws, groups, p) {
      FitsIsKept(raws, groups, i);
    }
  }

  // ---------- filling the array ----------

  /** Resets one group unless it lies within each group of its parent list. */
  method CheckParents(pmatch: array<Span>, i: nat, groups: seq<Group>, ghost raws: seq<Span>)
    requires i < pmatch.Length && i < |groups| == |raws| && pmatch[i] == raws[i]
    requires forall p :: p in groups[i].parents ==> p < i
    requires forall k :: 0 <= k < |raws| ==> raws[k] == NOWHERE || (0 <= raws[k].so && 0 <= raws[k].eo)
    requires forall k :: 0 <= k < i ==> pmatch[k] == Reported(raws, groups, k)
    modifies pmatch
    ensures forall k :: 0 <= k < pmatch.Length && k != i ==> pmatch[k] == old(pmatch[k])
    ensures pmatch[i] == Reported(raws, groups, i)
  {
    var parents := groups[i].parents;
    forall k | 0 <= k < |parents| ensures parents[k] < i { assert parents[k] in groups[i].parents; }
    var j := 0;
    while j < |parents|
      invariant 0 <= j <= |parents|
      invariant forall k :: 0 <= k < pmatch.Length && k != i ==> pmatch[k] == old(pmatch[k])
      invariant pmatch[i] == raws[i] || pmatch[i] == NOWHERE
      invariant raws[i] != NOWHERE ==>
        (pmatch[i] == raws[i] <==> forall k :: 0 <= k < j ==> Inside(raws, groups, i, parents[k]))
    {
      var p := parents[j];
      assert pmatch[p] == Reported(raws, groups, p);
      if pmatch[i].so < pmatch[p].so || pmatch[i].eo > pmatch[p].eo {
        pmatch[i] := NOWHERE;
      }
      j := j + 1;
    }
  }

  method FillPmatch(pmatch: array<Span>, groups: seq<Group>, endTag: int, tags: seq<int>, matchEo: int, nosub: bool)
    requires GroupsOk(groups, endTag, |tags|) && TagsOk(tags) && -1 <= matchEo
    modifies pmatch
    ensures matchEo >= 0 && !nosub ==>
      forall i :: 0 <= i < pmatch.Length ==> pmatch[i] == Reported(Raws(groups, endTag, tags, matchEo), groups, i)
    ensures matchEo < 0 || nosub ==> forall i :: 0 <= i < pmatch.Length ==> pmatch[i] == NOWHERE
    ensures forall i, p :: 0 <= p < i < |groups| && i < pmatch.Length && Ancestor(groups, i, p)
                           && pmatch[i] != NOWHERE ==>
      pmatch[p] != NOWHERE && Within(pmatch[i], pmatch[p])
  {
    ghost var raws := Raws(groups, endTag, tags, matchEo);
    var i := 0;
    if matchEo >= 0 && !nosub {
      while i < |groups| && i < pmatch.Length
        invariant 0 <= i <= |groups| && i <= pmatch.Length
        invariant forall k :: 0 <= k < i ==> pmatch[k] == raws[k]
      {
        pmatch[i] := Span(TagValue(groups[i].soTag, endTag, tags, matchEo),
                          TagValue(groups[i].eoTag, endTag, tags, matchEo));
        if pmatch[i].so == -1 || pmatch[i].eo == -1 {
          pmatch[i] := NOWHERE;
        }
        i := i + 1;
      }
      i := 0;
      while i < |groups| && i < pmatch.Length
        invariant 0 <= i <= |groups| && i <= pmatch.Length
        invariant forall k :: 0 <= k < i ==> pmatch[k] == Reported(raws, groups, k)
        invariant forall k :: i <= k < |groups| && k < pmatch.Length ==> pmatch[k] == raws[k]
      {
        CheckParents(pmatch, i, groups, raws);
        i := i + 1;
      }
    }
    while i < pmatch.Length
      invariant 0 <= i <= pmatch.Length
      invariant matchEo >= 0 && !nosub ==> |groups| <= i || i == pmatch.Length
      invariant forall k :: 0 <= k < i ==>
        pmatch[k] == if matchEo >= 0 && !nosub then Reported(raws, groups, k) else NOWHERE
    {
      pmatch[i] := NOWHERE;
      i := i + 1;
    }
    forall i, p | 0 <= p < i < |groups| && i < pmatch.Length && Ancestor(groups, i, p) && pmatch[i] != NOWHERE
      ensures pmatch[p] != NOWHERE && Within(pmatch[i], pmatch[p])
    {
      ReportedIsNested(raws, groups, i, p);
    }
  }
}
