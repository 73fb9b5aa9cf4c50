/** strtoull, strtoll and their long versions of atoi.c, on a target whose long has 32 bits. */
module NumberParse {
  import opened CText
  import opened NumberText

  const ULLONG_MAX := 0xFFFF_FFFF_FFFF_FFFF
  const LLONG_MAX := 0x7FFF_FFFF_FFFF_FFFF
  const LLONG_MIN := -0x8000_0000_0000_0000
  const ULONG_MAX := 0xFFFF_FFFF
  const LONG_MAX := 0x7FFF_FFFF
  const LONG_MIN := -0x8000_0000
  const ERANGE := 34

  predicate IsSpace(c: char) { 9 <= c as int < 14 || c == ' ' }

  predicate Base(base: int) { base == 0 || 2 <= base <= 36 }

  // ---------- what a subject sequence is ----------

  function SkipSpace(s: string, i: nat): (j: nat)
    requires i <= |s|
    ensures i <= j <= |s| && !IsSpace(At(s, j))
    decreases |s| - i
  {
    if i < |s| && IsSpace(s[i]) then SkipSpace(s, i + 1) else i
  }

  predicate HasSign(s: string, i: nat)
    requires i <= |s|
  {
    At(s, i) == '-' || At(s, i) == '+'
  }

  predicate IsHex(c: char) { c == 'x' || c == 'X' }

  predicate IsBin(c: char) { c == 'b' || c == 'B' }

  /** Base 0 stands for what the prefix says. */
  function BaseAt(s: string, i: nat, base: int): int
    requires i <= |s|
  {
    if base != 0 then base
    else if At(s, i) != '0' then 10
    else if IsHex(At(s, i + 1)) then 16
    else if IsBin(At(s, i + 1)) then 2
    else 8
  }

  predicate HasPrefix(s: string, i: nat, base: int)
    requires i <= |s|
  {
    At(s, i) == '0' && ((base == 16 && IsHex(At(s, i + 1))) || (base == 2 && IsBin(At(s, i + 1))))
  }

  /** neg: a minus sign; the digits of base are s[from..to]; end is where the conversion stops,
      0 if there is none. */
  datatype Subject = Subject(neg: bool, base: int, from: nat, to: nat, end: nat)

  function Parse(s: string, base: int): (p: Subject)
    ensures p.from <= p.to <= |s| && p.end <= |s| && AllDigits(s[p.from..p.to], p.base)
    ensures p.to < |s| ==> DigitOf(s[p.to], p.base) < 0
  {
    var i := SkipSpace(s, 0);
    var j := if HasSign(s, i) then i + 1 else i;
    var b := BaseAt(s, j, base);
    var from := if HasPrefix(s, j, b) then j + 2 else j;
    var to := RunEnd(s, from, b);
    Subject(At(s, i) == '-', b, from, to, if to > from then to else if HasPrefix(s, j, b) then j + 1 else 0)
  }

  /** The number that the digits write. */
  function Magnitude(s: string, base: int): int { var p := Parse(s, base); Value(s[p.from..p.to], p.base) }

  // ---------- the digit loop ----------

  lemma NoDigit(base: int)
    ensures DigitOf('\0', base) == -1 && !IsSpace('\0')
  {
  }

  /** Whether one more digit takes the number over the limit, decided with one division. */
  lemma CutoffIsLimit(num: int, dig: int, base: int, limit: int)
    requires 0 <= dig < base && 2 <= base && 0 <= limit && 0 <= num
    ensures num > limit / base || (num == limit / base && dig > limit % base) <==> num * base + dig > limit
  {
    var q, r := limit / base, limit % base;
    assert limit == q * base + r && 0 <= r < base;
    if num < q { Scaled(num, q - 1, base); assert (q - 1) * base == q * base - base; }
    if num > q { Scaled(q + 1, num, base); assert (q + 1) * base == q * base + base; }
  }

  lemma Scaled(a: int, b: int, base: int)
    requires a <= b && base > 0
    ensures a * base <= b * base
  {
  }

  /** Past the limit more digits stay past it. */
  lemma StaysOver(num: int, dig: int, base: int, limit: int)
    requires num > limit >= 0 && dig >= 0 && base >= 1
    ensures num * base + dig > limit
  {
    Scaled(1, base, num);
  }

  /** Reads the longest run of digits. num wraps around; overflow remembers whether the number
      went over the limit. */
  method ReadDigits(s: string, from: nat, base: int, limit: int) returns (num: int, overflow: bool, p: nat)
    requires Text(s) && from <= |s| && 2 <= base <= 36 && 0 <= limit < U64
    ensures p == RunEnd(s, from, base)
    ensures overflow <==> Value(s[from..p], base) > limit
    ensures !overflow ==> num == Value(s[from..p], base)
  {
    hide DigitOf, Value;
    var cutoff, cutlim := limit / base, limit % base;
    num, overflow, p := 0, false, from;
    NoDigit(base);
    NoValue(base);
    assert s[from..from] == [];
    ghost var v := 0;
    while DigitOf(At(s, p), base) >= 0
      invariant from <= p <= |s| && AllDigits(s[from..p], base) && v == Value(s[from..p], base) && 0 <= v
      invariant overflow <==> v > limit
      invariant !overflow ==> num == v
      decreases |s| - p
    {
      TextEnds(s, p);
      var dig := DigitOf(At(s, p), base);
      ValueNext(s, from, p, base);
      assert s[from..p + 1] == s[from..p] + [s[p]];
      if overflow { StaysOver(v, dig, base, limit); } else { CutoffIsLimit(num, dig, base, limit); }
      v := v * base + dig;
      if num > cutoff || (num == cutoff && dig > cutlim) { overflow := true; }
      num := (num * base + dig) % U64;
      if !overflow { SmallMod(v); }
      p := p + 1;
      StaysNatural(s[from..p], base);
    }
    if p < |s| { assert DigitOf(s[p], base) < 0; }
    RunIs(s, from, p, base);
  }

  lemma SmallMod(v: int)
    requires 0 <= v < U64
    ensures v % U64 == v
  {
  }

  lemma NoValue(base: int)
    ensures Value([], base) == 0
  {
  }

  lemma StaysNatural(ds: string, base: int)
    requires AllDigits(ds, base) && base >= 0
    ensures Value(ds, base) >= 0
  {
    ValueIsNatural(ds, base);
  }

  /** strto_base: the base, where the digits start, and what follows the '0' of a prefix, 0 if
      there is none. */
  method StrtoBase(s: string, at: nat, base0: int) returns (base: int, p: nat, afterZero: nat)
    requires Text(s) && at <= |s| && Base(base0)
    ensures base == BaseAt(s, at, base0) && 2 <= base <= 36
    ensures p == if HasPrefix(s, at, base) then at + 2 else at
    ensures afterZero == if HasPrefix(s, at, base) then at + 1 else 0
    ensures p <= |s|
  {
    base, p, afterZero := base0, at, 0;
    if base == 0 {
      if At(s, p) == '0' {
        if At(s, p + 1) == 'x' || At(s, p + 1) == 'X' { base := 16; }
        else if At(s, p + 1) == 'b' || At(s, p + 1) == 'B' { base := 2; }
        else { base := 8; }
      } else {
        base := 10;
      }
    }
    if At(s, p) == '0' {
      if (base == 16 && (At(s, p + 1) == 'x' || At(s, p + 1) == 'X'))
          || (base == 2 && (At(s, p + 1) == 'b' || At(s, p + 1) == 'B')) {
        afterZero := p + 1;
        p := p + 2;
      }
    }
  }

  /** The blanks and the sign in front of a number: s[i] is the sign if there is one. */
  method ReadSign(s: string) returns (sgn: int, p: nat)
    requires Text(s)
    ensures var i := SkipSpace(s, 0);
      p == (if HasSign(s, i) then i + 1 else i) && p <= |s| && sgn == if At(s, i) == '-' then -1 else 1
  {
    p, sgn := 0, 1;
    while IsSpace(At(s, p))
      invariant p <= |s| && SkipSpace(s, p) == SkipSpace(s, 0)
      decreases |s| - p
    {
      TextEnds(s, p);
      p := p + 1;
    }
    if At(s, p) == '-' || At(s, p) == '+' {
      sgn := ',' as int - At(s, p) as int;
      p := p + 1;
    }
  }

  /** One subject sequence: sign, base, prefix, digits, and where it ends. */
  method Convert(s: string, base0: int, positive: int, negative: int) returns (num: int, sgn: int, overflow: bool,
      end: nat)
    requires Text(s) && Base(base0) && 0 <= positive < U64 && 0 <= negative < U64
    ensures var p := Parse(s, base0);
      && end == p.end && sgn == (if p.neg then -1 else 1) && Magnitude(s, base0) >= 0
      && (overflow <==> Magnitude(s, base0) > (if p.neg then negative else positive))
      && (!overflow ==> num == Magnitude(s, base0))
  {
    hide RunEnd, Value, DigitOf;
    var p;
    sgn, p := ReadSign(s);
    var base, afterZero;
    base, p, afterZero := StrtoBase(s, p, base0);
    var from := p;
    num, overflow, p := ReadDigits(s, p, base, if sgn > 0 then positive else negative);
    StaysNatural(s[from..p], base);
    end := if p > from then p else afterZero;
  }

  /** strtoull. end is 0 when nothing was converted: the caller sees its own pointer. */
  method Strtoull(s: string, base: int, errno: int) returns (r: int, end: nat, errno': int)
    requires Text(s) && Base(base)
    ensures end == Parse(s, base).end
    ensures Magnitude(s, base) > ULLONG_MAX ==> r == ULLONG_MAX && errno' == ERANGE
    ensures Magnitude(s, base) <= ULLONG_MAX ==>
      errno' == errno && 0 <= r < U64 && r == (if Parse(s, base).neg then -Magnitude(s, base)
                                               else Magnitude(s, base)) % U64
  {
    hide Parse;
    var num, sgn, overflow;
    num, sgn, overflow, end := Convert(s, base, ULLONG_MAX, ULLONG_MAX);
    if overflow { return ULLONG_MAX, end, ERANGE; }
    SmallMod(num);
    return if sgn < 0 then -num % U64 else num, end, errno;
  }

  /** strtoll: exact, or the limit on the number's side. */
  method Strtoll(s: string, base: int, errno: int) returns (r: int, end: nat, errno': int)
    requires Text(s) && Base(base)
    ensures end == Parse(s, base).end
    ensures var v := if Parse(s, base).neg then -Magnitude(s, base) else Magnitude(s, base);
      && (LLONG_MIN <= v <= LLONG_MAX ==> r == v && errno' == errno)
      && (v > LLONG_MAX ==> r == LLONG_MAX && errno' == ERANGE)
      && (v < LLONG_MIN ==> r == LLONG_MIN && errno' == ERANGE)
  {
    hide Parse;
    var num, sgn, overflow;
    num, sgn, overflow, end := Convert(s, base, LLONG_MAX, LLONG_MAX + 1);
    if overflow { return if sgn > 0 then LLONG_MAX else LLONG_MIN, end, ERANGE; }
    r := if sgn > 0 then num else Signed(-num % U64);
    if sgn <= 0 { NegatedBack(num); }
    errno' := errno;
  }

  /** An unsigned long long taken for a signed one. */
  function Signed(u: int): int { if u > LLONG_MAX then u - U64 else u }

  lemma NegatedBack(num: int)
    requires 0 <= num <= LLONG_MAX + 1
    ensures Signed(-num % U64) == -num
  {
    if num > 0 { NegatedMod(num); }
  }

  lemma NegatedMod(num: int)
    requires 0 < num < U64
    ensures -num % U64 == U64 - num
  {
    assert -num == -1 * U64 + (U64 - num);
  }

  method Strtol(s: string, base: int, errno: int) returns (r: int, end: nat, errno': int)
    requires Text(s) && Base(base)
    ensures end == Parse(s, base).end
    ensures var v := if Parse(s, base).neg then -Magnitude(s, base) else Magnitude(s, base);
      && (LONG_MIN <= v <= LONG_MAX ==> r == v && errno' == errno)
      && (v > LONG_MAX ==> r == LONG_MAX && errno' == ERANGE)
      && (v < LONG_MIN ==> r == LONG_MIN && errno' == ERANGE)
  {
    hide Parse, Magnitude;
    var v;
    v, end, errno' := Strtoll(s, base, errno);
    if v > LONG_MAX { return LONG_MAX, end, ERANGE; }
    if v < LONG_MIN { return LONG_MIN, end, ERANGE; }
    r := v;
  }

  /** strtoul: the range check is on the magnitude, and errno stays as it was if that is met. */
  method Strtoul(s: string, base: int, errno: int) returns (r: int, end: nat, errno': int)
    requires Text(s) && Base(base)
    ensures end == Parse(s, base).end
    ensures Magnitude(s, base) > ULONG_MAX ==> r == ULONG_MAX && errno' == ERANGE
    ensures Magnitude(s, base) <= ULONG_MAX ==>
      errno' == errno && r == (if Parse(s, base).neg then -Magnitude(s, base) else Magnitude(s, base)) % (ULONG_MAX + 1)
  {
    hide Magnitude;
    var p := 0;
    while IsSpace(At(s, p))
      invariant p <= |s| && SkipSpace(s, p) == SkipSpace(s, 0)
      decreases |s| - p
    {
      TextEnds(s, p);
      p := p + 1;
    }
    var neg := At(s, p) == '-';
    var v, e;
    v, end, e := Strtoull(s, base, 0);
    if e == ERANGE { return ULONG_MAX, end, ERANGE; }
    IsNatural(s, base);
    if neg {
      NegatedTwice(Magnitude(s, base));
      v := -v % U64;
    } else {
      SmallMod(Magnitude(s, base));
    }
    if v > ULONG_MAX { return ULONG_MAX, end, ERANGE; }
    return (if neg then -v else v) % (ULONG_MAX + 1), end, errno;
  }

  lemma NegatedTwice(m: int)
    requires 0 <= m < U64
    ensures -(-m % U64) % U64 == m
  {
  }

  lemma IsNatural(s: string, base: int)
    requires Base(base)
    ensures Magnitude(s, base) >= 0
  {
    var p := Parse(s, base);
    ValueIsNatural(s[p.from..p.to], p.base);
  }
}
