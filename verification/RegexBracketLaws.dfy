/** What bracket expressions stand for as they are typed. */
module RegexBracketLaws {
  import opened RegexBracket

  function Codes(u: string): (s: seq<int>)
    ensures |s| == |u| && forall i :: 0 <= i < |u| ==> s[i] == u[i] as int
  {
    seq(|u|, i requires 0 <= i < |u| => u[i] as int)
  }

  /** Characters of one byte that mean nothing but themselves in a list. */
  predicate Plain(u: string) {
    forall c :: c in u ==> 0 < c as int < 256 && c != ']' && c != '-' && c != '['
  }

  function Singles(u: string): (ls: seq<Literals>)
    ensures |ls| == |u| && forall i :: 0 <= i < |u| ==> ls[i] == Range(u[i] as int, u[i] as int)
  {
    if u == "" then [] else [Range(u[0] as int, u[0] as int)] + Singles(u[1..])
  }

  lemma {:induction false} PlainList(s: seq<int>, i: nat, start: nat, u: string)
    requires Plain(u) && start <= i && i + |u| + 1 == |s| && (u == "" ==> i != start)
    requires (forall k :: 0 <= k < |u| ==> s[i + k] == u[k] as int) && s[i + |u|] == ']' as int
    ensures Terms(s, i, start) == List(Singles(u), |s|)
    decreases |u|
  {
    if u != "" {
      assert u[0] in u && forall c :: c in u[1..] ==> c in u;
      assert s[i + 0] == u[0] as int;
      if |u| > 1 { assert s[i + 1] == u[1] as int && u[1] in u; }
      forall k | 0 <= k < |u[1..]| ensures s[i + 1 + k] == u[1..][k] as int {
        assert s[i + (k + 1)] == u[k + 1] as int;
      }
      PlainList(s, i + 1, start, u[1..]);
      assert Singles(u) == [Range(u[0] as int, u[0] as int)] + Singles(u[1..]);
    }
  }

  /** What the bracket expression whose '[' is followed by the text s is read as. */
  function Read(s: seq<int>): List { Terms(s, ListStart(s, 0), ListStart(s, 0)) }

  ghost predicate HasCode(u: string, c: int) { exists i :: 0 <= i < |u| && u[i] as int == c }

  lemma SinglesCover(u: string, c: int)
    ensures Covers(Singles(u), c) <==> HasCode(u, c)
  {
    if Covers(Singles(u), c) {
      var r :| r in Singles(u) && r.lo <= c <= r.hi;
      var i :| 0 <= i < |u| && Singles(u)[i] == r;
      assert u[i] as int == c;
    }
    if HasCode(u, c) {
      var i :| 0 <= i < |u| && u[i] as int == c;
      assert Singles(u)[i] in Singles(u);
    }
  }

  /** [abc] stands for the characters typed. */
  lemma ListStandsFor(u: string, newline: bool, c: int)
    requires Plain(u) && u != "" && u[0] != '^'
    ensures var s := Codes(u + "]");
      && Read(s).List? && Read(s).end == |s|
      && (Stands(Read(s).ranges, Negates(s, 0), newline, c) <==> HasCode(u, c))
  {
    var s := Codes(u + "]");
    assert u[0] in u && s[0] == u[0] as int;
    PlainList(s, 0, 0, u);
    SinglesCover(u, c);
    forall i | 0 <= i < |u| ensures 0 < u[i] as int < 256 { assert u[i] in u; }
  }

  /** [^abc] stands for all other characters, the newline not among them under REG_NEWLINE. */
  lemma CaretStandsForOthers(u: string, newline: bool, c: int)
    requires Plain(u) && u != ""
    ensures var s := Codes("^" + u + "]");
      && Read(s).List? && Read(s).end == |s|
      && (Stands(Read(s).ranges, Negates(s, 0), newline, c) <==>
          0 <= c <= 0x10FFFF && !HasCode(u, c) && !(newline && c == '\n' as int))
  {
    var s := Codes("^" + u + "]");
    assert s[0] == '^' as int;
    PlainList(s, 1, 1, u);
    SinglesCover(u, c);
  }

  /** [a-z] stands for what lies between. */
  lemma RangeStandsFor(lo: char, hi: char, newline: bool, c: int)
    requires Plain([lo, hi]) && lo != '^' && lo <= hi
    ensures var s := Codes([lo] + "-" + [hi] + "]");
      && Read(s).List? && Read(s).end == |s|
      && (Stands(Read(s).ranges, Negates(s, 0), newline, c) <==> lo as int <= c <= hi as int)
  {
    var s := Codes([lo] + "-" + [hi] + "]");
    assert lo in [lo, hi] && hi in [lo, hi];
    assert s == [lo as int, '-' as int, hi as int, ']' as int];
    assert Terms(s, 3, 0) == List([], 4);
    assert Terms(s, 0, 0) == List([Range(lo as int, hi as int)] + [], 4);
    assert Read(s).ranges == [Range(lo as int, hi as int)];
    assert Read(s).ranges[0] in Read(s).ranges;
  }
}
