/** C strings: the sequence of the characters without the terminator. */
module CText {
  predicate Text(s: string) { forall c :: c in s ==> c != '\0' }

  /** The character p points at; the terminator at the end. Reading further is not allowed. */
  function At(s: string, p: nat): char
    requires p <= |s|
  {
    if p < |s| then s[p] else '\0'
  }

  lemma TextEnds(s: string, p: nat)
    requires Text(s) && p <= |s|
    ensures At(s, p) == '\0' <==> p == |s|
  {
    if p < |s| { assert s[p] in s; }
  }
}
