/** What oint writes, strtoull, strtoll and scan_int read back. */
module NumberTrips {
  import opened Arithmetic
  import opened CText
  import opened NumberText
  import N = NumberPrint
  import P = NumberParse
  import C = NumberScan

  /** What follows a number and cannot be taken for a part of it. */
  predicate Stops(rest: string) { rest == [] || DigitOf(rest[0], 36) < 0 }

  predicate Spaces(s: string) { forall c :: c in s ==> c == ' ' }

  // ---------- reading a string in pieces ----------

  lemma {:induction false} SkipSpaceIs(s: string, i: nat, j: nat)
    requires i <= j <= |s| && (forall k :: i <= k < j ==> P.IsSpace(s[k])) && !P.IsSpace(At(s, j))
    ensures P.SkipSpace(s, i) == j
    decreases j - i
  {
    if i < j { SkipSpaceIs(s, i + 1, j); }
  }

  lemma DigitInMore(c: char, base: int)
    requires base <= 36
    ensures DigitOf(c, base) >= 0 ==>
      DigitOf(c, 36) >= 0 && !P.IsSpace(c) && c != '-' && c != '+' && (base <= 16 ==> !P.IsHex(c))
    ensures DigitOf(c, 36) < 0 ==> DigitOf(c, base) < 0 && !P.IsHex(c) && !P.IsBin(c)
  {
  }

  /** lead, sign, prefix, digits and what comes after, one behind the other. */
  function Whole(lead: string, sign: string, pre: string, ds: string, rest: string): string {
    lead + (sign + (pre + (ds + rest)))
  }

  predicate Pieces(lead: string, sign: string, pre: string, ds: string, rest: string, base: int) {
    && Spaces(lead) && (sign == "" || sign == "-" || sign == "+") && Stops(rest)
    && 2 <= base <= 36 && ds != [] && AllDigits(ds, base)
    && (pre == "" || (base == 16 && (pre == "0x" || pre == "0X")) || (base == 2 && (pre == "0b" || pre == "0B")))
  }

  lemma PiecesAt(lead: string, sign: string, pre: string, ds: string, rest: string)
    ensures var s, j, from := Whole(lead, sign, pre, ds, rest), |lead| + |sign|, |lead| + |sign| + |pre|;
      && |s| == from + |ds| + |rest| && s[from..from + |ds|] == ds
      && (forall k :: 0 <= k < |lead| ==> s[k] == lead[k])
      && (forall k :: 0 <= k < |sign| ==> s[|lead| + k] == sign[k])
      && (forall k :: 0 <= k < |pre| ==> s[j + k] == pre[k])
      && (forall k :: 0 <= k < |ds| ==> s[from + k] == ds[k])
      && (rest != [] ==> s[from + |ds|] == rest[0])
  {
    hide *;
    var s, from := Whole(lead, sign, pre, ds, rest), |lead| + |sign| + |pre|;
    WholeIs(lead, sign, pre, ds, rest);
    assert s[from..from + |ds|] == ds;
  }

  lemma WholeIs(lead: string, sign: string, pre: string, ds: string, rest: string)
    ensures Whole(lead, sign, pre, ds, rest) == lead + sign + pre + ds + rest
  {
    assert lead + (sign + (pre + (ds + rest))) == lead + sign + pre + ds + rest;
  }

  /** The base that the code reads them in. */
  predicate Agrees(pre: string, ds: string, readBase: int, base: int) {
    || readBase == base
    || (readBase == 0 && if pre != "" then base == 2 || base == 16 else if ds != [] && ds[0] == '0' then base == 8
                         else base == 10)
  }

  /** The characters that decide where things start. */
  lemma PointsAt(lead: string, sign: string, pre: string, ds: string, rest: string, base: int)
    requires Pieces(lead, sign, pre, ds, rest, base)
    ensures var s, j, from := Whole(lead, sign, pre, ds, rest), |lead| + |sign|, |lead| + |sign| + |pre|;
      var to := from + |ds|;
      && |s| == to + |rest| && s[from..to] == ds && to > from
      && At(s, |lead|) == (if sign != "" then sign[0] else if pre != "" then '0' else ds[0])
      && At(s, j) == (if pre != "" then '0' else ds[0])
      && At(s, j + 1) == (if pre != "" then pre[1] else if |ds| > 1 then ds[1] else if rest != [] then rest[0]
                          else '\0')
      && (to < |s| ==> s[to] == rest[0])
      && (forall k :: 0 <= k < |lead| ==> P.IsSpace(s[k]))
  {
    hide Whole, DigitOf;
    var s, j, from := Whole(lead, sign, pre, ds, rest), |lead| + |sign|, |lead| + |sign| + |pre|;
    PiecesAt(lead, sign, pre, ds, rest);
    assert sign != "" ==> s[|lead| + 0] == sign[0];
    assert pre != "" ==> s[j + 0] == pre[0] && s[j + 1] == pre[1];
    assert s[from + 0] == ds[0] && (|ds| > 1 ==> s[from + 1] == ds[1]);
    forall k | 0 <= k < |lead| ensures P.IsSpace(s[k]) { assert lead[k] in lead; }
  }

  /** Those characters are digits of the base, or cannot be. */
  lemma KindsOf(ds: string, rest: string, base: int)
    requires 2 <= base <= 36 && ds != [] && AllDigits(ds, base) && Stops(rest)
    ensures !P.IsSpace(ds[0]) && ds[0] != '-' && ds[0] != '+' && (base <= 16 ==> !P.IsHex(ds[0]))
    ensures |ds| > 1 ==> (base <= 16 ==> !P.IsHex(ds[1])) && (base <= 10 ==> !P.IsBin(ds[1]))
    ensures rest != [] ==> DigitOf(rest[0], base) < 0 && !P.IsHex(rest[0]) && !P.IsBin(rest[0])
  {
    hide DigitOf;
    assert ds[0] in ds;
    DigitInMore(ds[0], base);
    if |ds| > 1 {
      assert ds[1] in ds;
      DigitInMore(ds[1], base);
      if base <= 10 { DecimalIsNotBin(ds[1], base); }
    }
    if rest != [] { DigitInMore(rest[0], base); }
  }

  lemma DecimalIsNotBin(c: char, base: int)
    requires DigitOf(c, base) >= 0 && base <= 10
    ensures !P.IsBin(c)
  {
  }

  /** The base and the prefix, found where the sign ends. */
  lemma PrefixIs(s: string, j: nat, pre: string, ds: string, rest: string, readBase: int, base: int)
    requires Pieces("", "", pre, ds, rest, base) && Agrees(pre, ds, readBase, base) && j < |s|
    requires At(s, j) == (if pre != "" then '0' else ds[0])
    requires At(s, j + 1)
      == (if pre != "" then pre[1] else if |ds| > 1 then ds[1] else if rest != [] then rest[0] else '\0')
    ensures P.BaseAt(s, j, readBase) == base && (P.HasPrefix(s, j, base) <==> pre != "")
  {
    hide DigitOf, P.IsSpace, AllDigits, Stops;
    KindsOf(ds, rest, base);
  }

  /** strtoull and strtoll find the pieces. */
  lemma PiecesParse(lead: string, sign: string, pre: string, ds: string, rest: string, readBase: int, base: int)
    requires Pieces(lead, sign, pre, ds, rest, base) && Agrees(pre, ds, readBase, base)
    ensures var s, from := Whole(lead, sign, pre, ds, rest), |lead| + |sign| + |pre|;
      && P.Parse(s, readBase) == P.Subject(sign == "-", base, from, from + |ds|, from + |ds|)
      && P.Magnitude(s, readBase) == Value(ds, base)
  {
    hide DigitOf, Whole, P.IsSpace, P.SkipSpace, P.BaseAt, P.HasPrefix, RunEnd, Value, AllDigits, Stops, Spaces,
        Agrees, P.IsHex, P.IsBin;
    var s, i, j, from := Whole(lead, sign, pre, ds, rest), |lead|, |lead| + |sign|, |lead| + |sign| + |pre|;
    PointsAt(lead, sign, pre, ds, rest, base);
    KindsOf(ds, rest, base);
    NotSpaces();
    SkipSpaceIs(s, 0, i);
    NoSpaces();
    PrefixIs(s, j, pre, ds, rest, readBase, base);
    RunIs(s, from, from + |ds|, base);
  }

  lemma NoSpaces()
    ensures Spaces("")
  {
  }

  lemma NotSpaces()
    ensures !P.IsSpace('-') && !P.IsSpace('+') && !P.IsSpace('0')
  {
  }

  /** scan_int finds the pieces, if it may read that far. */
  lemma PiecesScan(sign: string, pre: string, ds: string, rest: string, readBase: int, base: int, wid: int)
    requires Pieces("", sign, pre, ds, rest, base) && Agrees(pre, ds, readBase, base) && wid >= |sign| + |pre| + |ds|
    requires base == 8 || base == 10 || base == 16
    ensures var s, v := Whole("", sign, pre, ds, rest), Value(ds, base);
      C.Scan(s, readBase, wid) == C.Scanned(true, (if sign == "-" then -v else v) % U64, |sign| + |pre| + |ds|)
  {
    hide DigitOf, Whole, P.IsSpace, RunEnd, Value, AllDigits, Stops, C.ScanFrom, C.Scan;
    var s, j, from := Whole("", sign, pre, ds, rest), |sign|, |sign| + |pre|;
    var to := from + |ds|;
    PointsAt("", sign, pre, ds, rest, base);
    KindsOf(ds, rest, base);
    FirstIsAt(s, 0);
    FirstIsAt(s, j);
    FirstIsAt(s, j + 1);
    C.ScanSigned(s, readBase, wid);
    SignsAre(ds[0]);
    assert C.Scan(s, readBase, wid) == C.ScanFrom(s, j, readBase, wid - |sign|, sign == "-");
    FromScan(s, j, pre, ds, rest, readBase, base, wid - |sign|, sign == "-");
  }

  lemma FirstIsAt(s: string, i: nat)
    requires i <= |s|
    ensures C.First(s, i) == if i < |s| then At(s, i) as int else C.EOF
  {
  }

  lemma SignsAre(c: char)
    requires c != '-' && c != '+'
    ensures !C.IsSign(c as int) && !C.IsSign('0' as int) && C.IsSign('-' as int) && C.IsSign('+' as int)
  {
  }

  lemma FromScan(s: string, j: nat, pre: string, ds: string, rest: string, readBase: int, base: int, wid: int,
                 neg: bool)
    requires Pieces("", "", pre, ds, rest, base) && Agrees(pre, ds, readBase, base) && wid >= |pre| + |ds|
    requires base == 8 || base == 10 || base == 16
    requires var from := j + |pre|; var to := from + |ds|;
      && |s| == to + |rest| && s[from..to] == ds && to > from
      && At(s, j) == (if pre != "" then '0' else ds[0])
      && At(s, j + 1) == (if pre != "" then pre[1] else if |ds| > 1 then ds[1] else if rest != [] then rest[0]
                          else '\0')
      && (to < |s| ==> s[to] == rest[0])
    ensures var v := Value(ds, base);
      C.ScanFrom(s, j, readBase, wid, neg) == C.Scanned(true, (if neg then -v else v) % U64, j + |pre| + |ds|)
  {
    hide DigitOf, P.IsSpace, RunEnd, Value, AllDigits, C.ScanDigits, Stops, Spaces;
    var from := j + |pre|;
    var to := from + |ds|;
    KindsOf(ds, rest, base);
    FirstIsAt(s, j);
    FirstIsAt(s, j + 1);
    RunIs(s, from, to, base);
    if pre != "" {
      FirstIsDigit(ds, base);
      DigitsScan(s, from, to, base, wid - 2, neg, false);
    } else if ds[0] == '0' && (readBase == 0 || readBase == 16) {
      WithoutZero(s, from, to, base);
      DigitsScan(s, from + 1, to, base, wid - 1, neg, true);
    } else {
      DigitsScan(s, from, to, base, wid, neg, false);
    }
  }

  lemma DigitsScan(s: string, from: nat, to: nat, base: int, wid: int, neg: bool, more: bool)
    requires from <= to <= |s| && RunEnd(s, from, base) == to && wid >= to - from && (more || to > from)
    ensures var v := Value(s[from..to], base); C.ScanDigits(s, from, base, wid, neg, more) == C.Scanned(true,
            (if neg then -v else v) % U64, to)
  {
    hide Value, RunEnd;
  }

  lemma FirstIsDigit(ds: string, base: int)
    requires ds != [] && AllDigits(ds, base)
    ensures DigitOf(ds[0], base) >= 0
  {
    assert ds[0] in ds;
  }

  /** A zero in front of the other digits. */
  lemma WithoutZero(s: string, from: nat, to: nat, base: int)
    requires from < to <= |s| && AllDigits(s[from..to], base) && (to < |s| ==> DigitOf(s[to], base) < 0)
             && s[from] == '0' && base >= 1
    ensures RunEnd(s, from + 1, base) == to && Value(s[from + 1..to], base) == Value(s[from..to], base)
  {
    assert forall c :: c in s[from + 1..to] ==> c in s[from..to];
    RunIs(s, from + 1, to, base);
    assert Repeat('0', 1) == "0" by { assert Repeat('0', 0) == ""; }
    assert s[from..to] == Repeat('0', 1) + s[from + 1..to];
    LeadingZeros(1, s[from + 1..to], base);
  }

  // ---------- what oint writes, in pieces ----------

  function SignedValue(n: int, bytes: int): int {
    if N.Negative(n, bytes) then n % N.Range(bytes) - N.Range(bytes) else n % N.Range(bytes)
  }

  /** The number that the text stands for. */
  function Printed(n: int, bytes: int, f: N.Flags): int {
    if f.isSigned then SignedValue(n, bytes) else n % N.Range(bytes)
  }

  lemma MagnitudeIsPrinted(n: int, bytes: int, f: N.Flags)
    requires 0 <= n < U64 && N.Bytes(bytes)
    ensures var v := Printed(n, bytes, f); N.Magnitude(n, bytes, f) == if v < 0 then -v else v
    ensures Printed(n, bytes, f) < 0 <==> f.isSigned && N.Negative(n, bytes)
    ensures P.LLONG_MIN <= Printed(n, bytes, f) <= P.ULLONG_MAX && (f.isSigned ==> Printed(n, bytes, f) <= P.LLONG_MAX)
  {
    var r := N.Range(bytes);
    DivFacts(n, r);
    if f.isSigned && N.Negative(n, bytes) {
      Complement(n, r, if bytes == 1 then 0x100_0000_0000_0000 else if bytes == 2 then 0x1_0000_0000_0000
                 else if bytes == 4 then 0x1_0000_0000 else 1);
    }
  }

  /** Negating in 64 bits and cutting down to fewer is negating in fewer. */
  lemma Complement(n: int, r: int, k: int)
    requires 0 < n < U64 && r >= 2 && U64 == k * r && n % r > 0
    ensures (U64 - n) % U64 == U64 - n && (U64 - n) % r == r - n % r
  {
    var q, m := n / r, n % r;
    DivFacts(n, r);
    assert U64 - n == (k - q - 1) * r + (r - m) by { Regrouped(k, q, r, m); }
    UniqueRest(U64 - n, k - q - 1, r - m, r);
  }

  lemma Regrouped(k: int, q: int, r: int, m: int)
    ensures k * r - (q * r + m) == (k - q - 1) * r + (r - m)
  {
  }

  lemma UniqueRest(a: int, q: int, m: int, r: int)
    requires r > 0 && a == q * r + m && 0 <= m < r
    ensures a % r == m
  {
    assert a == a / r * r + a % r;
    assert (a / r - q) * r == m - a % r;
    NoMultiple(a / r - q, r);
  }

  /** How the number may be read: in its base, or in base 0 if the text says which one it is. */
  predicate Readable(n: int, base: int, bytes: int, wid: int, f: N.Flags, readBase: int)
    requires 2 <= base <= 16
  {
    || readBase == base
    || (readBase == 0 && (f.left || !f.zero || wid <= |N.Prefix(n, base, bytes,
                                                                f)| + |Digits(N.Magnitude(n, bytes, f), base, f.ucase)|)
        && if base == 10 then f.isSigned || !f.alt else !f.isSigned && f.alt)
  }

  datatype Split = Split(lead: string, sign: string, pre: string, ds: string, trail: string, base: int)

  lemma RepeatSpaces(n: int)
    ensures Spaces(Repeat(' ', n))
  {
    RepeatIs(' ', n);
  }

  /** Zeros of the padding, or of an octal prefix, in front of the digits. */
  lemma ZeroPadded(k: int, m: nat, base: int, ucase: bool)
    requires base == 8 || base == 10 || base == 16
    ensures var ds := Repeat('0', k) + Digits(m, base, ucase);
      && ds != [] && AllDigits(ds, base) && Value(ds, base) == m && (ds[0] == '0' <==> k > 0 || m == 0)
  {
    ValueOfDigits(m, base, ucase);
    LeadingZeros(k, Digits(m, base, ucase), base);
    RepeatIs('0', k);
  }

  lemma ZeroValue(base: int)
    requires base == 8 || base == 10 || base == 16
    ensures Value("0", base) == 0 && AllDigits("0", base)
  {
    ValueOfOne('0', base);
  }

  lemma NoZeros()
    ensures Repeat('0', 0) == "" && Repeat('0', 0) + "0" == "0"
  {
  }

  lemma NothingPrinted(n: int, bytes: int, f: N.Flags)
    requires 0 <= n < U64 && N.Bytes(bytes)
    ensures n == 0 ==> N.Magnitude(n, bytes, f) == 0
  {
  }

  lemma OnlyZero(base: int, ucase: bool)
    requires base == 8 || base == 10 || base == 16
    ensures Digits(0, base, ucase) == "0"
  {
  }

  /** The text as a reader will take it apart, base the one it is read in. */
  lemma TextInPieces(n: int, base: int, wid: int, bytes: int, f: N.Flags, readBase: int) returns (t: Split)
    requires 0 <= n < U64 && (base == 8 || base == 10 || base == 16) && N.Bytes(bytes) && (f.isSigned ==> base == 10)
    requires Readable(n, base, bytes, wid, f, readBase)
    ensures N.Formatted(n, base, wid, bytes, f) == t.lead + t.sign + t.pre + t.ds + t.trail
    ensures Pieces(t.lead, t.sign, t.pre, t.ds, [], t.base) && Spaces(t.trail) && Agrees(t.pre, t.ds, readBase, t.base)
    ensures (t.sign == "-" <==> Printed(n, bytes, f) < 0) && (t.base == 8 || t.base == 10 || t.base == 16)
    ensures var v := Printed(n, bytes, f); Value(t.ds, t.base) == if v < 0 then -v else v
  {
    hide Digits, DigitOf, Value, Repeat, N.Magnitude, N.Negative, N.Formatted, Printed, N.Range;
    var m, p := N.Magnitude(n, bytes, f), N.Prefix(n, base, bytes, f);
    var ds := Digits(m, base, f.ucase);
    var pad := wid - |p| - |ds|;
    MagnitudeIsPrinted(n, bytes, f);
    var lead := if !f.zero && !f.left then Repeat(' ', pad) else "";
    var zeros := if f.zero && !f.left then Repeat('0', pad) else "";
    var trail := if f.left then Repeat(' ', pad) else "";
    N.FormattedIs(n, base, wid, bytes, f, lead, zeros, trail);
    RepeatSpaces(pad);
    var k := if f.zero && !f.left && pad > 0 then pad else 0;
    ZerosAre(zeros, k, pad, f.zero && !f.left);
    var u := PrefixInPieces(n, base, bytes, f, lead, p, k, m, trail);
    t := ReadAs(n, base, bytes, f, readBase, k, m, u);
    RegroupText(lead, p, zeros, ds, trail, t);
  }

  /** A lone zero in base 0 is taken for an octal one. */
  lemma ReadAs(n: int, base: int, bytes: int, f: N.Flags, readBase: int, k: int, m: nat, u: Split) returns (t: Split)
    requires 0 <= n < U64 && (base == 8 || base == 10 || base == 16) && N.Bytes(bytes) && (f.isSigned ==> base == 10)
    requires m == N.Magnitude(n, bytes, f) && k >= 0 && u.base == base
    requires readBase == base || (readBase == 0 && k == 0 && if base == 10 then f.isSigned || !f.alt
                                  else !f.isSigned && f.alt)
    requires Pieces(u.lead, u.sign, u.pre, u.ds, [], base) && Value(u.ds, base) == m
    requires u.pre != "" <==> !f.isSigned && n > 0 && f.alt && base == 16
    requires u.ds == Repeat('0', if OctalZero(n, base, f) then k + 1 else k) + Digits(m, base, f.ucase)
    requires u.ds[0] == '0' <==> k > 0 || m == 0 || OctalZero(n, base, f)
    ensures t.base == 8 || t.base == base
    ensures t.(base := base) == u && Pieces(t.lead, t.sign, t.pre, t.ds, [], t.base) && Value(t.ds, t.base) == m
    ensures Agrees(t.pre, t.ds, readBase, t.base)
  {
    hide Digits, DigitOf, Value, Repeat, N.Magnitude, AllDigits;
    NothingPrinted(n, bytes, f);
    t := u;
    if readBase == 0 && u.pre == "" && u.ds[0] == '0' && base != 8 {
      OnlyZero(base, f.ucase);
      NoZeros();
      ZeroValue(8);
      ZeroValue(base);
      t := u.(base := 8);
    }
  }

  lemma ZerosAre(zeros: string, k: int, pad: int, on: bool)
    requires zeros == (if on then Repeat('0', pad) else "") && k == if on && pad > 0 then pad else 0
    ensures zeros == Repeat('0', k)
  {
    RepeatIs('0', pad);
    assert Repeat('0', 0) == "";
  }

  lemma RegroupText(lead: string, p: string, zeros: string, ds: string, trail: string, t: Split)
    requires t.lead + t.sign + t.pre + t.ds == lead + p + zeros + ds && t.trail == trail
    ensures lead + p + zeros + ds + trail == t.lead + t.sign + t.pre + t.ds + t.trail
  {
  }

  predicate OctalZero(n: int, base: int, f: N.Flags) { !f.isSigned && n > 0 && f.alt && base != 16 }

  lemma PrefixKinds(n: int, base: int, bytes: int, f: N.Flags)
    ensures var p := N.Prefix(n, base, bytes, f);
      && (f.isSigned ==> (p == "-" || p == "+" || p == " " || p == "") && (p == "-" <==> N.Negative(n, bytes)))
      && (!f.isSigned ==> p == "" || p == "0" || p == "0x" || p == "0X")
      && (!f.isSigned ==> (p == "0" <==> OctalZero(n, base, f))
                          && (p == "0x" || p == "0X" <==> n > 0 && f.alt && base == 16))
  {
    hide N.Negative;
  }

  /** The prefix is a sign, a blank in front, an octal zero or a hexadecimal prefix. */
  lemma PrefixInPieces(n: int, base: int, bytes: int, f: N.Flags, lead: string, p: string, k: int, m: nat,
                       trail: string) returns (t: Split)
    requires (base == 8 || base == 10 || base == 16) && p == N.Prefix(n, base, bytes, f)
             && (f.isSigned ==> base == 10) && 0 <= k && Spaces(lead) && Spaces(trail)
    ensures t.trail == trail && t.lead + t.sign + t.pre + t.ds == lead + p + Repeat('0', k) + Digits(m, base, f.ucase)
    ensures Pieces(t.lead, t.sign, t.pre, t.ds, [], t.base) && Value(t.ds, t.base) == m
    ensures t.sign == "-" <==> f.isSigned && N.Negative(n, bytes)
    ensures t.base == base
    ensures t.pre != "" <==> !f.isSigned && n > 0 && f.alt && base == 16
    ensures t.ds == Repeat('0', if OctalZero(n, base, f) then k + 1 else k) + Digits(m, base, f.ucase)
    ensures t.ds[0] == '0' <==> k > 0 || m == 0 || OctalZero(n, base, f)
  {
    hide Digits, DigitOf, Value, Repeat, N.Negative, N.Prefix, AllDigits;
    var ds := Digits(m, base, f.ucase);
    var z := if OctalZero(n, base, f) then k + 1 else k;
    PrefixKinds(n, base, bytes, f);
    ZeroPadded(z, m, base, f.ucase);
    OneMoreZero(k);
    var all := Repeat('0', z) + ds;
    if p == " " {
      t := Split(lead + p, "", "", all, trail, base);
    } else if p == "-" || p == "+" || p == "" {
      t := Split(lead, p, "", all, trail, base);
    } else if p == "0" {
      t := Split(lead, "", "", all, trail, base);
    } else {
      t := Split(lead, "", p, all, trail, base);
    }
    Joined(lead, p, Repeat('0', k), ds, all, t);
  }

  lemma Joined(lead: string, p: string, zeros: string, ds: string, all: string, t: Split)
    requires t.ds == all
    requires || (t.lead == lead + p && t.sign == "" && t.pre == "" && all == zeros + ds)
             || (t.lead == lead && t.sign == p && t.pre == "" && all == zeros + ds)
             || (t.lead == lead && t.sign == "" && t.pre == p && all == zeros + ds)
             || (t.lead == lead && t.sign == "" && t.pre == "" && all == (p + zeros) + ds)
    ensures t.lead + t.sign + t.pre + t.ds == lead + p + zeros + ds
  {
  }

  lemma {:induction false} OneMoreZero(k: nat)
    ensures Repeat('0', k + 1) == "0" + Repeat('0', k)
  {
    if k > 0 {
      OneMoreZero(k - 1);
    } else {
      assert Repeat('0', 0) == "";
    }
  }

  // ---------- round trips ----------

  /** Padding on the right, and what follows the number. */
  lemma StopsAfter(trail: string, rest: string)
    requires Spaces(trail) && Stops(rest)
    ensures Stops(trail + rest)
  {
    if trail != [] { assert trail[0] in trail && (trail + rest)[0] == trail[0]; } else { assert trail + rest == rest; }
  }

  lemma MoreRest(lead: string, sign: string, pre: string, ds: string, rest: string, base: int)
    requires Pieces(lead, sign, pre, ds, [], base) && Stops(rest)
    ensures Pieces(lead, sign, pre, ds, rest, base)
  {
  }

  lemma Rejoined(t: Split, rest: string)
    ensures (t.lead + t.sign + t.pre + t.ds + t.trail) + rest == Whole(t.lead, t.sign, t.pre, t.ds, t.trail + rest)
    ensures var text, k := t.lead + t.sign + t.pre + t.ds + t.trail, |t.lead| + |t.sign| + |t.pre| + |t.ds|;
            k <= |text| && text[k..] == t.trail
    ensures Whole(t.lead, t.sign, t.pre, t.ds, t.trail + rest)[|t.lead|..] == Whole("", t.sign, t.pre, t.ds,
            t.trail + rest)
  {
    hide Whole;
    WholeIs(t.lead, t.sign, t.pre, t.ds, t.trail + rest);
    var head := t.lead + t.sign + t.pre + t.ds;
    JoinTwice(head, t.trail, rest);
    Behind(head, t.trail);
    WholeBehind(t.lead, t.sign, t.pre, t.ds, t.trail + rest);
  }

  lemma JoinTwice(a: string, b: string, c: string)
    ensures (a + b) + c == a + (b + c)
  {
  }

  lemma Behind(a: string, b: string)
    ensures (a + b)[|a|..] == b
  {
  }

  lemma WholeBehind(lead: string, sign: string, pre: string, ds: string, rest: string)
    ensures Whole(lead, sign, pre, ds, rest)[|lead|..] == Whole("", sign, pre, ds, rest)
  {
    var body := sign + (pre + (ds + rest));
    Behind(lead, body);
    Behind("", body);
  }

  /** Whatever width and flags an integer is printed with, strtoull and strtoll find the number
      in it and stop behind it, when they read it in its base, or in base 0 if the text says
      which one it is. */
  lemma ParseReadsOint(n: int, base: int, wid: int, bytes: int, f: N.Flags, readBase: int, rest: string)
    requires 0 <= n < U64 && (base == 8 || base == 10 || base == 16) && N.Bytes(bytes) && (f.isSigned ==> base == 10)
    requires Readable(n, base, bytes, wid, f, readBase) && Stops(rest)
    ensures var text := N.Formatted(n, base, wid, bytes, f);
      var p, v := P.Parse(text + rest, readBase), Printed(n, bytes, f);
      && (p.neg <==> v < 0) && P.Magnitude(text + rest, readBase) == (if v < 0 then -v else v)
      && p.end <= |text| && Spaces(text[p.end..])
  {
    hide N.Formatted, Printed, Whole, Digits, Value, DigitOf, P.Parse, P.Magnitude, Readable;
    var t := TextInPieces(n, base, wid, bytes, f, readBase);
    StopsAfter(t.trail, rest);
    MoreRest(t.lead, t.sign, t.pre, t.ds, t.trail + rest, t.base);
    Rejoined(t, rest);
    PiecesParse(t.lead, t.sign, t.pre, t.ds, t.trail + rest, readBase, t.base);
  }

  lemma SkipsLead(lead: string, sign: string, pre: string, ds: string, rest: string, base: int)
    requires Pieces(lead, sign, pre, ds, rest, base)
    ensures P.SkipSpace(Whole(lead, sign, pre, ds, rest), 0) == |lead|
  {
    hide Whole, DigitOf, AllDigits, P.IsSpace;
    PointsAt(lead, sign, pre, ds, rest, base);
    KindsOf(ds, rest, base);
    NotSpaces();
    SkipSpaceIs(Whole(lead, sign, pre, ds, rest), 0, |lead|);
  }

  /** And so does scan_int behind the white space, if it may read that far. */
  lemma ScanReadsOint(n: int, base: int, wid: int, bytes: int, f: N.Flags, readBase: int, rest: string, scanWid: int)
    requires 0 <= n < U64 && (base == 8 || base == 10 || base == 16) && N.Bytes(bytes) && (f.isSigned ==> base == 10)
    requires Readable(n, base, bytes, wid, f, readBase) && Stops(rest)
             && scanWid >= |N.Formatted(n, base, wid, bytes, f)|
    ensures var text := N.Formatted(n, base, wid, bytes, f);
      var skip := P.SkipSpace(text + rest, 0);
      var r := C.Scan((text + rest)[skip..], readBase, scanWid);
      && r.ok && r.value == Printed(n, bytes, f) % U64 && skip + r.used <= |text| && Spaces(text[skip + r.used..])
  {
    hide N.Formatted, Printed, Whole, Digits, Value, DigitOf, C.Scan, Readable, P.SkipSpace;
    var t := TextInPieces(n, base, wid, bytes, f, readBase);
    StopsAfter(t.trail, rest);
    MoreRest(t.lead, t.sign, t.pre, t.ds, t.trail + rest, t.base);
    MoreRest("", t.sign, t.pre, t.ds, t.trail + rest, t.base);
    Rejoined(t, rest);
    SkipsLead(t.lead, t.sign, t.pre, t.ds, t.trail + rest, t.base);
    PiecesScan(t.sign, t.pre, t.ds, t.trail + rest, readBase, t.base, scanWid);
  }

  /** The signed numbers as the unsigned ones that printf passes on. */
  lemma SignedAsUnsigned(v: int)
    requires P.LLONG_MIN <= v <= P.LLONG_MAX
    ensures SignedValue(v % U64, 8) == v
  {
  }

  /** A text that only has digits, blanks, signs and prefixes has no NUL and only 7-bit characters. */
  lemma PlainText(t: Split, base: int)
    requires Pieces(t.lead, t.sign, t.pre, t.ds, [], base) && Spaces(t.trail)
    ensures var text := t.lead + t.sign + t.pre + t.ds + t.trail; Text(text) && forall c :: c in text ==> c as int < 256
  {
    forall c | c in t.ds ensures c != '\0' && c as int < 256 { assert DigitOf(c, base) >= 0; }
  }

  lemma OintIsText(n: int, base: int, wid: int, bytes: int, f: N.Flags)
    requires 0 <= n < U64 && (base == 8 || base == 10 || base == 16) && N.Bytes(bytes) && (f.isSigned ==> base == 10)
    ensures var text := N.Formatted(n, base, wid, bytes, f); Text(text) && forall c :: c in text ==> c as int < 256
  {
    hide N.Formatted, DigitOf, Digits;
    var t := TextInPieces(n, base, wid, bytes, f, base);
    PlainText(t, t.base);
  }

  /** printf of an unsigned long long, and strtoull of what it wrote. */
  method PrintAndStrtoull(n: int, base: int, wid: int, f: N.Flags, readBase: int, errno: int) returns (r: int,
      errno': int)
    requires 0 <= n < U64 && (base == 8 || base == 10 || base == 16) && !f.isSigned
             && Readable(n, base, 8, wid, f, readBase)
    ensures r == n && errno' == errno
  {
    hide N.Formatted, P.Parse, P.Magnitude, Readable;
    var sink := new N.Sink();
    var size := sink.Oint(n, base, wid, 8, f);
    OintIsText(n, base, wid, 8, f);
    ParseReadsOint(n, base, wid, 8, f, readBase, "");
    assert sink.out == N.Formatted(n, base, wid, 8, f) + "";
    BaseIsFine(n, base, 8, wid, f, readBase);
    var end;
    r, end, errno' := P.Strtoull(sink.out, readBase, errno);
    P.SmallMod(n);
  }

  lemma BaseIsFine(n: int, base: int, bytes: int, wid: int, f: N.Flags, readBase: int)
    requires (base == 8 || base == 10 || base == 16) && Readable(n, base, bytes, wid, f, readBase)
    ensures P.Base(readBase) && (readBase == 0 || readBase == base)
  {
  }

  /** printf of a long long, the least one included, and strtoll of what it wrote. */
  method PrintAndStrtoll(v: int, wid: int, f: N.Flags, readBase: int, errno: int) returns (r: int, errno': int)
    requires P.LLONG_MIN <= v <= P.LLONG_MAX && f.isSigned && Readable(v % U64, 10, 8, wid, f, readBase)
    ensures r == v && errno' == errno
  {
    hide N.Formatted, P.Parse, P.Magnitude, Readable, SignedValue;
    var n := v % U64;
    var sink := new N.Sink();
    var size := sink.Oint(n, 10, wid, 8, f);
    OintIsText(n, 10, wid, 8, f);
    ParseReadsOint(n, 10, wid, 8, f, readBase, "");
    assert sink.out == N.Formatted(n, 10, wid, 8, f) + "";
    SignedAsUnsigned(v);
    BaseIsFine(n, 10, 8, wid, f, readBase);
    var end;
    r, end, errno' := P.Strtoll(sink.out, readBase, errno);
  }

  /** printf of an integer of any size, and scanf of what it wrote, followed by more text. */
  method PrintAndScan(n: int, base: int, wid: int, bytes: int, f: N.Flags, readBase: int,
                      rest: string) returns (ok: bool, v: int)
    requires 0 <= n < U64 && (base == 8 || base == 10 || base == 16) && N.Bytes(bytes) && (f.isSigned ==> base == 10)
    requires Readable(n, base, bytes, wid, f, readBase) && Stops(rest) && forall c :: c in rest ==> c as int < 256
    ensures ok && v == Printed(n, bytes, f) % U64
  {
    hide N.Formatted, C.Scan, Readable, Printed;
    var sink := new N.Sink();
    var size := sink.Oint(n, base, wid, bytes, f);
    OintIsText(n, base, wid, bytes, f);
    ScanReadsOint(n, base, wid, bytes, f, readBase, rest, size);
    BaseIsFine(n, base, bytes, wid, f, readBase);
    var all := sink.out + rest;
    assert sink.out == N.Formatted(n, base, wid, bytes, f);
    var s := new C.Stream(all);
    s.SkipSpace();
    ok, v := s.ScanInt(readBase, size);
  }
}
