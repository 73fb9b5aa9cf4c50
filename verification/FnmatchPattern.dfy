/** What a glob pattern means: one element of it against one character, and a whole pattern
    against a string. A C string is the sequence of its characters, without the final NUL. */
module FnmatchPattern {
  datatype Flags = Flags(pathname: bool, noescape: bool, casefold: bool, period: bool, leadingDir: bool)

  function Lower(c: char): char { if 'A' <= c <= 'Z' then (c as int + 32) as char else c }

  predicate Same(a: char, b: char, f: Flags) { if f.casefold then Lower(a) == Lower(b) else a == b }

  // ---------- bracket expressions ----------

  datatype Range = Range(lo: char, hi: char)

  predicate InRange(r: Range, c: char, f: Flags) {
    (f.casefold && Lower(r.lo) <= Lower(c) <= Lower(r.hi)) || r.lo <= c <= r.hi
  }

  ghost predicate InAny(rs: seq<Range>, c: char, f: Flags) { exists r :: r in rs && InRange(r, c, f) }

  /** A backslash at p that takes the meaning off the character behind it. */
  predicate Escapes(pat: string, p: nat, f: Flags) { p + 1 < |pat| && pat[p] == '\\' && !f.noescape }

  function Unescaped(pat: string, p: nat, f: Flags): (q: nat)
    requires p < |pat|
    ensures p <= q < |pat|
  {
    if Escapes(pat, p, f) then p + 1 else p
  }

  predicate IsRange(pat: string, q: nat) { q + 2 < |pat| && pat[q + 1] == '-' && pat[q + 2] != ']' }

  /** The ranges written from p on, and where the ']' that ends them is; |pat| if there is none. */
  function Items(pat: string, p: nat, f: Flags): (r: (seq<Range>, nat))
    requires p <= |pat|
    ensures p <= r.1 <= |pat|
    decreases |pat| - p
  {
    if p == |pat| || pat[p] == ']' then ([], p) else
    var q := Unescaped(pat, p, f);
    if IsRange(pat, q) then
      var h := Unescaped(pat, q + 2, f);
      var rest := Items(pat, h + 1, f);
      ([Range(pat[q], pat[h])] + rest.0, rest.1)
    else
      var rest := Items(pat, q + 1, f);
      ([Range(pat[q], pat[q])] + rest.0, rest.1)
  }

  predicate Negated(pat: string, p: nat) { p + 1 < |pat| && (pat[p + 1] == '!' || pat[p + 1] == '^') }

  /** Where the set of the '[' at p starts. */
  function SetStart(pat: string, p: nat): (q: nat)
    requires p < |pat|
    ensures p < q <= |pat|
  {
    if Negated(pat, p) then p + 2 else p + 1
  }

  /** The ranges of the '[' at p; a ']' that comes first is one of them. */
  function SetItems(pat: string, p: nat, f: Flags): (r: (seq<Range>, nat))
    requires p < |pat|
    ensures p < r.1 <= |pat|
  {
    var q := SetStart(pat, p);
    if q < |pat| && pat[q] == ']'
    then var rest := Items(pat, q + 1, f); ([Range(']', ']')] + rest.0, rest.1)
    else Items(pat, q, f)
  }

  predicate Closed(pat: string, p: nat, f: Flags)
    requires p < |pat|
  {
    SetItems(pat, p, f).1 < |pat|
  }

  predicate StructuralSlash(c: char, f: Flags) { f.pathname && c == '/' }

  ghost predicate InSet(pat: string, p: nat, c: char, f: Flags)
    requires p < |pat|
  {
    !StructuralSlash(c, f) && (Negated(pat, p) != InAny(SetItems(pat, p, f).0, c, f))
  }

  // ---------- elements ----------

  /** Where the element at p ends; it never depends on what it is matched with. */
  function ElementEnd(pat: string, p: nat, f: Flags): (q: nat)
    requires p < |pat|
    ensures p < q <= |pat|
  {
    if pat[p] == '[' && Closed(pat, p, f) then SetItems(pat, p, f).1 + 1
    else if Escapes(pat, p, f) then p + 2
    else p + 1
  }

  ghost predicate Hit(pat: string, p: nat, c: char, f: Flags)
    requires p < |pat|
  {
    if pat[p] == '[' then (if Closed(pat, p, f) then InSet(pat, p, c, f) else Same('[', c, f))
    else if pat[p] == '?' then !StructuralSlash(c, f)
    else Same(pat[Unescaped(pat, p, f)], c, f)
  }

  /** With structural slashes an element that a slash matches, nothing else matches. */
  lemma SlashOnly(pat: string, p: nat, c: char, d: char, f: Flags)
    requires p < |pat| && f.pathname && Hit(pat, p, c, f) && Hit(pat, p, d, f) && c == '/'
    ensures d == '/'
  {
  }

  // ---------- whole patterns ----------

  /** A star may stand for s[a..b]. */
  ghost predicate StarTakes(s: string, a: nat, b: nat, f: Flags) {
    a <= b <= |s| && (f.pathname ==> forall i :: a <= i < b ==> s[i] != '/')
  }

  /** A segment of the string starts at a. */
  predicate Lead(s: string, a: nat, f: Flags)
    requires a <= |s|
  {
    a == 0 || (f.pathname && s[a - 1] == '/')
  }

  /** Under FNM_PERIOD nothing but a dot in the pattern may stand where a segment starts with one. */
  predicate Refused(pat: string, p: nat, s: string, a: nat, f: Flags)
    requires p <= |pat| && a <= |s|
  {
    f.period && a < |s| && s[a] == '.' && Lead(s, a, f) && (p == |pat| || pat[p] != '.')
  }

  /** Where the string may end: at its end or, under FNM_LEADING_DIR, before a slash. */
  predicate MayEnd(s: string, a: nat, f: Flags)
    requires a <= |s|
  {
    a == |s| || (f.leadingDir && s[a] == '/')
  }

  /** The pattern from p on matches the string from a on: a star splits it somewhere, every
      other element takes one character. */
  ghost predicate Matches(pat: string, p: nat, s: string, a: nat, f: Flags)
    requires p <= |pat| && a <= |s|
    decreases |pat| - p
  {
    if Refused(pat, p, s, a, f) then false
    else if p == |pat| then MayEnd(s, a, f)
    else if pat[p] == '*' then exists b :: a <= b <= |s| && StarTakes(s, a, b, f) && Matches(pat, p + 1, s, b, f)
    else a < |s| && Hit(pat, p, s[a], f) && Matches(pat, ElementEnd(pat, p, f), s, a + 1, f)
  }

  /** A star at string position a, with the pattern from q on behind it. */
  ghost predicate FromStar(pat: string, q: nat, s: string, a: nat, f: Flags)
    requires q <= |pat| && a <= |s|
  {
    exists b :: a <= b <= |s| && StarTakes(s, a, b, f) && Matches(pat, q, s, b, f)
  }

  /** Elements from q on match character by character from a on and lead to p and b. */
  ghost predicate Steps(pat: string, q: nat, s: string, a: nat, p: nat, b: nat, f: Flags)
    requires q <= |pat| && a <= |s|
    decreases |pat| - q
  {
    if q == p then a == b
    else q < |pat| && pat[q] != '*' && a < |s| && !Refused(pat, q, s, a, f) && Hit(pat, q, s[a], f)
         && Steps(pat, ElementEnd(pat, q, f), s, a + 1, p, b, f)
  }
}
