/** Digits, the numbers they write, and the text of a number. */
module NumberText {
  import opened Arithmetic

  const U64 := 0x1_0000_0000_0000_0000

  /** The value of c as a digit in base, or -1. */
  function DigitOf(c: char, base: int): (d: int)
    ensures -1 <= d && (d < base || d == -1)
  {
    var d := if '0' <= c <= '9' then c as int - '0' as int
             else if 'A' <= c <= 'Z' then 10 + c as int - 'A' as int
             else if 'a' <= c <= 'z' then 10 + c as int - 'a' as int
             else -1;
    if d < base then d else -1
  }

  predicate AllDigits(ds: string, base: int) { forall c :: c in ds ==> DigitOf(c, base) >= 0 }

  /** What a run of digits means, the first one counting most. */
  function Value(ds: string, base: int): int {
    if ds == [] then 0 else Value(ds[..|ds| - 1], base) * base + DigitOf(ds[|ds| - 1], base)
  }

  /** Where the longest run of digits from i on ends. */
  function RunEnd(s: string, i: nat, base: int): (j: nat)
    requires i <= |s|
    ensures i <= j <= |s| && AllDigits(s[i..j], base) && (j < |s| ==> DigitOf(s[j], base) < 0)
    decreases |s| - i
  {
    if i == |s| || DigitOf(s[i], base) < 0 then i else
      var j := RunEnd(s, i + 1, base);
      assert s[i..j] == [s[i]] + s[i + 1..j];
      j
  }

  /** A run that cannot go on is the longest one. */
  lemma {:induction false} RunIs(s: string, i: nat, j: nat, base: int)
    requires i <= j <= |s| && AllDigits(s[i..j], base) && (j < |s| ==> DigitOf(s[j], base) < 0)
    ensures RunEnd(s, i, base) == j
    decreases j - i
  {
    if i < j {
      assert s[i] in s[i..j];
      assert forall c :: c in s[i + 1..j] ==> c in s[i..j];
      RunIs(s, i + 1, j, base);
    }
  }

  lemma ValueNext(s: string, i: nat, k: nat, base: int)
    requires i <= k < |s|
    ensures Value(s[i..k + 1], base) == Value(s[i..k], base) * base + DigitOf(s[k], base)
  {
    var ds := s[i..k + 1];
    assert ds[..|ds| - 1] == s[i..k] && ds[|ds| - 1] == s[k];
  }

  lemma {:induction false} ValueIsNatural(ds: string, base: int)
    requires AllDigits(ds, base) && base >= 0
    ensures Value(ds, base) >= 0
  {
    if ds != [] {
      assert ds[|ds| - 1] in ds && forall c :: c in ds[..|ds| - 1] ==> c in ds;
      ValueIsNatural(ds[..|ds| - 1], base);
      Times(Value(ds[..|ds| - 1], base), base);
    }
  }

  lemma Times(a: int, b: int)
    requires a >= 0 && b >= 0
    ensures a * b >= 0
  {
  }

  // ---------- the text of a number ----------

  const DIGS := "0123456789abcdef"
  const DIGS_UC := "0123456789ABCDEF"

  function Dig(d: int, ucase: bool): char
    requires 0 <= d < 16
  {
    if ucase then DIGS_UC[d] else DIGS[d]
  }

  function Digits(n: nat, base: int, ucase: bool): (ds: string)
    requires 2 <= base <= 16
    ensures ds != []
    decreases n
  {
    if n < base then [Dig(n, ucase)] else Digits(n / base, base, ucase) + [Dig(n % base, ucase)]
  }

  lemma DigIsDigit(d: int, ucase: bool, base: int)
    requires 0 <= d < base <= 16
    ensures DigitOf(Dig(d, ucase), base) == d
    ensures Dig(d, ucase) == '0' <==> d == 0
  {
    var c := Dig(d, ucase);
    if d < 10 {
      assert c == ('0' as int + d) as char;
    } else {
      assert c == (if ucase then 'A' as int + d - 10 else 'a' as int + d - 10) as char;
    }
  }

  lemma Twice(q: int, base: int)
    requires q >= 0 && base >= 2
    ensures q * base >= 2 * q
  {
  }

  lemma QuotientFacts(n: nat, base: int, q: int, r: int)
    requires base >= 2 && n == q * base + r && 0 <= r < base
    ensures 0 <= q <= n && (n > 0 ==> q < n) && (n >= base ==> q >= 1) && (n < base ==> q == 0 && r == n)
  {
    if q < 0 { AtLeastOnce(-q, base); } else { Twice(q, base); }
    if q >= 1 { AtLeastOnce(q, base); }
  }

  lemma DivFacts(n: nat, base: int)
    requires base >= 2
    ensures n == n / base * base + n % base && 0 <= n % base < base && 0 <= n / base <= n
    ensures n > 0 ==> n / base < n
    ensures n >= base ==> n / base >= 1
    ensures n < base ==> n / base == 0 && n % base == n
  {
    var q, r := n / base, n % base;
    assert n == q * base + r;
    QuotientFacts(n, base, q, r);
  }

  lemma DigitsStep(n: nat, base: int, ucase: bool)
    requires 2 <= base <= 16
    ensures n < base ==> Digits(n, base, ucase) == [Dig(n, ucase)]
    ensures n >= base ==> n / base >= 0
    ensures n >= base ==> Digits(n, base, ucase) == Digits(n / base, base, ucase) + [Dig(n % base, ucase)]
  {
    hide Dig;
  }

  /** Writing a number and reading it gives the number. */
  lemma {:induction false} ValueOfDigits(n: nat, base: int, ucase: bool)
    requires 2 <= base <= 16
    ensures AllDigits(Digits(n, base, ucase), base) && Value(Digits(n, base, ucase), base) == n
    ensures Digits(n, base, ucase)[0] == '0' <==> n == 0
    decreases n
  {
    hide Digits, Dig, DigitOf;
    DivFacts(n, base);
    DigitsStep(n, base, ucase);
    if n < base {
      DigIsDigit(n, ucase, base);
      ValueOfOne(Dig(n, ucase), base);
    } else {
      var q, r := n / base, n % base;
      var high := Digits(q, base, ucase);
      ValueOfDigits(q, base, ucase);
      DigIsDigit(r, ucase, base);
      ValueOfMore(high, Dig(r, ucase), base);
    }
  }

  lemma ValueOfOne(c: char, base: int)
    ensures Value([c], base) == DigitOf(c, base)
  {
    assert [c][..0] == [] && Value([c][..0], base) == 0;
  }

  lemma ValueOfMore(ds: string, c: char, base: int)
    ensures Value(ds + [c], base) == Value(ds, base) * base + DigitOf(c, base)
  {
    assert (ds + [c])[..|ds|] == ds;
  }

  function Repeat(c: char, n: int): string { if n <= 0 then [] else Repeat(c, n - 1) + [c] }

  /** Zeros in front change nothing. */
  lemma {:induction false} LeadingZeros(zeros: int, ds: string, base: int)
    requires base >= 1
    ensures Value(Repeat('0', zeros) + ds, base) == Value(ds, base)
    ensures AllDigits(ds, base) ==> AllDigits(Repeat('0', zeros) + ds, base)
    decreases |ds|, zeros
  {
    var z := Repeat('0', zeros);
    var all := z + ds;
    if ds == [] {
      assert all == z;
      if zeros > 0 {
        LeadingZeros(zeros - 1, [], base);
        assert z[..|z| - 1] == Repeat('0', zeros - 1) == Repeat('0', zeros - 1) + [];
      }
    } else {
      LeadingZeros(zeros, ds[..|ds| - 1], base);
      assert all[..|all| - 1] == z + ds[..|ds| - 1];
    }
    RepeatIs('0', zeros);
  }

  lemma {:induction false} RepeatIs(c: char, n: int)
    ensures |Repeat(c, n)| == (if n < 0 then 0 else n) && forall x :: x in Repeat(c, n) ==> x == c
    decreases n
  {
    if n > 0 { RepeatIs(c, n - 1); }
  }
}
