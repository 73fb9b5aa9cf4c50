/** Four bytes as one little-endian word, as string.c handles them. */
module StringWords {
  const LONG01: bv32 := 0x0101_0101
  const LONG80: bv32 := 0x8080_8080

  function HasZero(x: bv32): bv32 { (x - LONG01) & !x & LONG80 }

  function Word(b0: bv8, b1: bv8, b2: bv8, b3: bv8): bv32 {
    (b0 as bv32) | ((b1 as bv32) << 8) | ((b2 as bv32) << 16) | ((b3 as bv32) << 24)
  }

  /** One byte in all four places: 0x01010101 times it. */
  function Repeated(b: bv8): bv32 { LONG01 * (b as bv32) }

  /** The low byte of a word, as a character argument is cut down, and the one k bits up. */
  function Low(w: bv32): bv8 { (w & 0xFF) as bv8 }

  function Part(w: bv32, k: bv32): bv32
    requires k <= 24
  {
    (w >> k) & 0xFF
  }

  /** The byte the memory gets for a word stored at it, i places on. */
  function Byte(w: bv32, i: int): bv8
    requires 0 <= i < 4
  {
    if i == 0 then Low(w) else if i == 1 then Low(w >> 8) else if i == 2 then Low(w >> 16) else Low(w >> 24)
  }

  lemma RepeatedBytes(b: bv8)
    ensures var w := Repeated(b); Byte(w, 0) == b && Byte(w, 1) == b && Byte(w, 2) == b && Byte(w, 3) == b
  {
  }

  lemma RepeatedIsWord(b: bv8)
    ensures Repeated(b) == Word(b, b, b, b)
  {
  }

  /** Loading a word back gives the bytes that were there. */
  lemma WordParts(a: bv8, b: bv8, c: bv8, d: bv8)
    ensures var w := Word(a, b, c, d);
            Part(w, 0) == Wide(a) && Part(w, 8) == Wide(b) && Part(w, 16) == Wide(c) && Part(w, 24) == Wide(d)
  {
  }

  lemma XorPart(x: bv32, y: bv32, k: bv32)
    requires k == 0 || k == 8 || k == 16 || k == 24
    ensures Part(x ^ y, k) == 0 <==> Part(x, k) == Part(y, k)
  {
  }

  function Wide(b: bv8): bv32 { b as bv32 }

  lemma Widened(a: bv8, b: bv8)
    ensures Wide(a) == Wide(b) <==> a == b
  {
  }

  /** The borrow trick finds a zero byte exactly when there is one. */
  lemma HasZeroIsZeroByte(x: bv32)
    ensures HasZero(x) != 0 <==> Part(x, 0) == 0 || Part(x, 8) == 0 || Part(x, 16) == 0 || Part(x, 24) == 0
  {
  }

  /** !HASZERO(*w ^ k) for the word of four bytes and the repeated character. */
  predicate Misses(a: bv8, b: bv8, c: bv8, d: bv8, k: bv32) { HasZero(Word(a, b, c, d) ^ k) == 0 }

  predicate SamePart(x: bv32, y: bv32, k: bv32)
    requires k <= 24
  {
    Part(x, k) == Part(y, k)
  }

  /** The xor of two words has a zero byte where the words have the same one. */
  lemma ZeroIsSame(x: bv32, y: bv32)
    ensures HasZero(x ^ y) != 0 <==> SamePart(x, y, 0) || SamePart(x, y, 8) || SamePart(x, y, 16) || SamePart(x, y, 24)
  {
    hide HasZero, Part;
    HasZeroIsZeroByte(x ^ y);
    XorPart(x, y, 0);
    XorPart(x, y, 8);
    XorPart(x, y, 16);
    XorPart(x, y, 24);
  }

  lemma SameBytes(x: bv32, y: bv32, k: bv32, a: bv8, b: bv8)
    requires k <= 24 && Part(x, k) == Wide(a) && Part(y, k) == Wide(b)
    ensures SamePart(x, y, k) <==> a == b
  {
    hide Part, Wide;
    Widened(a, b);
  }

  lemma SameInWord(a: bv8, b: bv8, c: bv8, d: bv8, ch: bv8)
    ensures var x, y := Word(a, b, c, d), Repeated(ch);
            && (SamePart(x, y, 0) <==> a == ch) && (SamePart(x, y, 8) <==> b == ch)
            && (SamePart(x, y, 16) <==> c == ch) && (SamePart(x, y, 24) <==> d == ch)
  {
    hide Word, Repeated, Part, Wide, SamePart;
    var x, y := Word(a, b, c, d), Repeated(ch);
    WordParts(a, b, c, d);
    RepeatedParts(ch);
    SameBytes(x, y, 0, a, ch);
    SameBytes(x, y, 8, b, ch);
    SameBytes(x, y, 16, c, ch);
    SameBytes(x, y, 24, d, ch);
  }

  lemma RepeatedParts(ch: bv8)
    ensures var y := Repeated(ch);
            Part(y, 0) == Wide(ch) && Part(y, 8) == Wide(ch) && Part(y, 16) == Wide(ch) && Part(y, 24) == Wide(ch)
  {
    hide Word, Repeated, Part, Wide;
    RepeatedIsWord(ch);
    WordParts(ch, ch, ch, ch);
  }

  /** The test on the whole word misses exactly when none of its bytes is the character. */
  lemma MissesMeans(a: bv8, b: bv8, c: bv8, d: bv8, ch: bv8)
    ensures Misses(a, b, c, d, Repeated(ch)) <==> a != ch && b != ch && c != ch && d != ch
  {
    hide HasZero, Word, Repeated, Part, Wide, SamePart;
    ZeroIsSame(Word(a, b, c, d), Repeated(ch));
    SameInWord(a, b, c, d, ch);
  }
}
