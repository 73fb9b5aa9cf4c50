/** What numbers look like: the characters that are digits and white space, and the text that is
    printed without and with a width. */
module NumberLaws {
  import opened Arithmetic
  import opened NumberText
  import N = NumberPrint
  import P = NumberParse
  import T = NumberTrips

  const LOWER36 := "0123456789abcdefghijklmnopqrstuvwxyz"
  const UPPER36 := "0123456789ABCDEFGHIJKLMNOPQRSTUVWXYZ"

  lemma Alphabet(d: int)
    requires 0 <= d < 36
    ensures d < 10 ==> LOWER36[d] as int == '0' as int + d && UPPER36[d] == LOWER36[d]
    ensures d >= 10 ==> LOWER36[d] as int == 'a' as int + d - 10 && UPPER36[d] as int == 'A' as int + d - 10
  {
  }

  /** In every base the digits are the first characters of 0-9 and the alphabet, in either case. */
  lemma DigitsOfBase(c: char, base: int, d: int)
    requires 2 <= base <= 36 && 0 <= d
    ensures DigitOf(c, base) == d <==> d < base && (c == LOWER36[d] || c == UPPER36[d])
  {
    if d < base { Alphabet(d); }
  }

  /** The limits are those of objects of 8 and of 4 bytes. */
  lemma Limits()
    ensures P.ULLONG_MAX == Pow(256, 8) - 1
    ensures P.LLONG_MAX == Pow(256, 8) / 2 - 1 && P.LLONG_MIN == -Pow(256, 8) / 2
    ensures P.ULONG_MAX == Pow(256, 4) - 1 && P.LONG_MAX == Pow(256, 4) / 2 - 1 && P.LONG_MIN == -Pow(256, 4) / 2
    ensures U64 == Pow(256, 8)
  {
    WordValues();
  }

  /** White space is the blank, tab, newline, vertical tab, form feed and carriage return. */
  lemma WhiteSpace(c: char)
    ensures P.IsSpace(c) <==> c in " \t\n\U{0b}\U{0c}\r"
  {
    var all := " \t\n\U{0b}\U{0c}\r";
    assert all[0] == ' ' && all[1] == '\t' && all[2] == '\n';
    assert all[3] == '\U{0b}' && all[4] == '\U{0c}' && all[5] == '\r';
  }

  /** A signed number without a width: its sign, or what the flags put in the place of one, and the
      digits of its magnitude. */
  lemma SignedText(v: int, bytes: int, f: N.Flags)
    requires N.Bytes(bytes) && f.isSigned && -N.Range(bytes) <= 2 * v < N.Range(bytes)
    ensures N.Formatted(v % U64, 10, 0, bytes, f) ==
      (if v < 0 then "-" + Digits(-v, 10, f.ucase)
       else if f.plus then "+" + Digits(v, 10, f.ucase)
       else if f.blank then " " + Digits(v, 10, f.ucase)
       else Digits(v, 10, f.ucase))
  {
    hide Digits, N.Magnitude, N.Negative, N.Range;
    SignedIs(v, bytes);
    T.MagnitudeIsPrinted(v % U64, bytes, f);
    Unpadded(v % U64, 10, bytes, f);
  }

  lemma SignedIs(v: int, bytes: int)
    requires N.Bytes(bytes) && -N.Range(bytes) <= 2 * v < N.Range(bytes)
    ensures T.SignedValue(v % U64, bytes) == v
  {
    var n, r := v % U64, N.Range(bytes);
    var k := if bytes == 1 then 0x100_0000_0000_0000 else if bytes == 2 then 0x1_0000_0000_0000
             else if bytes == 4 then 0x1_0000_0000 else 1;
    if v >= 0 {
      T.UniqueRest(n, 0, v, r);
    } else {
      T.UniqueRest(n, k - 1, v + r, r);
    }
  }

  /** An unsigned number without a width: with '#' a hexadecimal one shows its base and an octal
      one a zero. */
  lemma UnsignedText(v: nat, base: int, bytes: int, f: N.Flags)
    requires N.Bytes(bytes) && !f.isSigned && v < N.Range(bytes) && (base == 8 || base == 10 || base == 16)
    ensures N.Formatted(v, base, 0, bytes, f) ==
      (if !f.alt || v == 0 then Digits(v, base, f.ucase)
       else if base != 16 then "0" + Digits(v, base, f.ucase)
       else if f.ucase then "0X" + Digits(v, base, f.ucase)
       else "0x" + Digits(v, base, f.ucase))
  {
    hide Digits;
    assert v % N.Range(bytes) == v;
    Unpadded(v, base, bytes, f);
  }

  lemma Unpadded(n: int, base: int, bytes: int, f: N.Flags)
    requires 2 <= base <= 16
    ensures N.Formatted(n, base, 0, bytes, f) ==
      N.Prefix(n, base, bytes, f) + Digits(N.Magnitude(n, bytes, f), base, f.ucase)
  {
    hide N.Prefix, N.Magnitude, Digits;
    var p, ds := N.Prefix(n, base, bytes, f), Digits(N.Magnitude(n, bytes, f), base, f.ucase);
    NoPad(0 - |p| - |ds|);
    assert p + "" + ds == p + ds && "" + p + ds == p + ds && p + ds + "" == p + ds;
  }

  lemma NoPad(n: int)
    requires n <= 0
    ensures Repeat(' ', n) == "" && Repeat('0', n) == ""
  {
    RepeatIs(' ', n);
    RepeatIs('0', n);
  }

  /** A width fills up with blanks in front, with blanks behind if '-' is given, or else with zeros
      between prefix and digits if '0' is. */
  lemma Widened(n: int, base: int, wid: int, bytes: int, f: N.Flags)
    requires 2 <= base <= 16
    ensures var short, long := N.Formatted(n, base, 0, bytes, f), N.Formatted(n, base, wid, bytes, f);
      var fill, k := |long| - |short|, if f.left then |short| else if f.zero then |N.Prefix(n, base, bytes, f)| else 0;
      && |long| == (if |short| < wid then wid else |short|) && k <= |short|
      && long[..k] == short[..k] && long[k + fill..] == short[k..]
      && forall i :: k <= i < k + fill ==> long[i] == if f.zero && !f.left then '0' else ' '
  {
    hide N.Magnitude, N.Prefix, Digits, N.Formatted;
    var p, ds := N.Prefix(n, base, bytes, f), Digits(N.Magnitude(n, bytes, f), base, f.ucase);
    var a, b := AroundFill(n, base, wid, bytes, f);
    Unpadded(n, base, bytes, f);
    Filled(a, b, if f.zero && !f.left then '0' else ' ', wid - |p| - |ds|);
  }

  /** What stands before and behind the filling. */
  lemma AroundFill(n: int, base: int, wid: int, bytes: int, f: N.Flags) returns (a: string, b: string)
    requires 2 <= base <= 16
    ensures var p, ds := N.Prefix(n, base, bytes, f), Digits(N.Magnitude(n, bytes, f), base, f.ucase);
      && a + b == p + ds && |a| == (if f.left then |p + ds| else if f.zero then |p| else 0)
      && N.Formatted(n, base, wid, bytes, f) ==
         a + Repeat(if f.zero && !f.left then '0' else ' ', wid - |p| - |ds|) + b
  {
    hide N.Magnitude, N.Prefix, Digits, Repeat;
    var p, ds := N.Prefix(n, base, bytes, f), Digits(N.Magnitude(n, bytes, f), base, f.ucase);
    var spaces := Repeat(' ', wid - |p| - |ds|);
    if f.left {
      a, b := p + ds, "";
      assert p + ds + spaces + "" == p + ds + spaces && p + ds + "" == p + ds;
    } else if f.zero {
      a, b := p, ds;
    } else {
      a, b := "", p + ds;
      assert "" + spaces + (p + ds) == spaces + p + ds && "" + (p + ds) == p + ds;
    }
  }

  lemma Filled(a: string, b: string, c: char, pad: int)
    ensures var long, n := a + Repeat(c, pad) + b, if pad > 0 then pad else 0;
      && |long| == |a| + n + |b| && long[..|a|] == (a + b)[..|a|] && long[|a| + n..] == (a + b)[|a|..]
      && forall i :: |a| <= i < |a| + n ==> long[i] == c
  {
    RepeatIs(c, pad);
    var fill, long := Repeat(c, pad), a + Repeat(c, pad) + b;
    forall i | |a| <= i < |a| + |fill| ensures long[i] == c {
      assert long[i] == fill[i - |a|] && fill[i - |a|] in fill;
    }
  }

  /** Where no digit follows white space and sign nothing is converted. */
  lemma NothingToRead(lead: string, sign: string, rest: string, base: int)
    requires T.Spaces(lead) && (sign == "" || sign == "-" || sign == "+") && T.Stops(rest) && P.Base(base)
    requires sign == "" && rest != "" ==> !P.IsSpace(rest[0]) && rest[0] != '-' && rest[0] != '+'
    ensures var s := lead + (sign + rest); P.Parse(s, base).end == 0 && P.Magnitude(s, base) == 0
  {
    assert DigitOf('0', 36) == 0;
    hide P.IsSpace, P.SkipSpace, DigitOf, RunEnd;
    var s, j := lead + (sign + rest), |lead| + |sign|;
    P.NoDigit(10);
    LeadOf(lead, sign + rest);
    T.NotSpaces();
    T.SkipSpaceIs(s, 0, |lead|);
    assert sign != "" ==> s[|lead|] == sign[0];
    assert rest != "" ==> s[j] == rest[0];
    var b := P.BaseAt(s, j, base);
    if rest != "" { T.DigitInMore(rest[0], b); }
    assert s[j..j] == "";
    RunIs(s, j, j, b);
  }

  lemma LeadOf(lead: string, more: string)
    requires T.Spaces(lead)
    ensures forall k :: 0 <= k < |lead| ==> P.IsSpace((lead + more)[k])
  {
    forall k | 0 <= k < |lead| ensures P.IsSpace((lead + more)[k]) { assert lead[k] in lead; }
  }

  /** A prefix without digits is read as the zero it starts with. */
  lemma LonePrefix(lead: string, sign: string, x: char, rest: string, base: int)
    requires T.Spaces(lead) && (sign == "" || sign == "-" || sign == "+") && T.Stops(rest)
    requires || ((x == 'x' || x == 'X') && (base == 0 || base == 16))
             || ((x == 'b' || x == 'B') && (base == 0 || base == 2))
    ensures var s := lead + (sign + (['0', x] + rest));
      P.Parse(s, base).end == |lead| + |sign| + 1 && P.Magnitude(s, base) == 0
  {
    var s := lead + (sign + (['0', x] + rest));
    LeadOf(lead, sign + (['0', x] + rest));
    PrefixAt(lead, sign, x, rest);
    PrefixParsed(s, |lead|, |lead| + |sign|, x, rest, base);
  }

  lemma PrefixAt(lead: string, sign: string, x: char, rest: string)
    ensures var s, j := lead + (sign + (['0', x] + rest)), |lead| + |sign|;
      && |s| == j + 2 + |rest| && s[j] == '0' && s[j + 1] == x && (rest != "" ==> s[j + 2] == rest[0])
      && (sign != "" ==> s[|lead|] == sign[0])
  {
  }

  lemma PrefixParsed(s: string, i: nat, j: nat, x: char, rest: string, base: int)
    requires |s| == j + 2 + |rest| && i <= j <= i + 1 && (j > i ==> s[i] == '-' || s[i] == '+')
    requires forall k :: 0 <= k < i ==> P.IsSpace(s[k])
    requires s[j] == '0' && s[j + 1] == x && T.Stops(rest) && (rest != "" ==> s[j + 2] == rest[0])
    requires || ((x == 'x' || x == 'X') && (base == 0 || base == 16))
             || ((x == 'b' || x == 'B') && (base == 0 || base == 2))
    ensures P.Parse(s, base).end == j + 1 && P.Magnitude(s, base) == 0
  {
    hide P.IsSpace, P.SkipSpace, DigitOf, RunEnd;
    T.NotSpaces();
    T.SkipSpaceIs(s, 0, i);
    var b := P.BaseAt(s, j, base);
    if rest != "" { T.DigitInMore(rest[0], b); }
    assert s[j + 2..j + 2] == "";
    RunIs(s, j + 2, j + 2, b);
  }
}
