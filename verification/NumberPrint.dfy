/** oint of stdio.c: an integer as text, without a precision. */
module NumberPrint {
  import opened Arithmetic
  import opened NumberText

  datatype Flags = Flags(left: bool, plus: bool, blank: bool, alt: bool, zero: bool, isSigned: bool, ucase: bool)

  predicate Bytes(bytes: int) { bytes == 1 || bytes == 2 || bytes == 4 || bytes == 8 }

  /** How many values an object of that size has. */
  function Range(bytes: int): int {
    if bytes == 1 then 0x100 else if bytes == 2 then 0x1_0000 else if bytes == 4 then 0x1_0000_0000 else U64
  }

  /** n as a signed object of that size is below zero. */
  predicate Negative(n: int, bytes: int) { n % Range(bytes) >= Range(bytes) / 2 }

  function Sign(n: int, bytes: int, f: Flags): string {
    if Negative(n, bytes) then "-" else if f.plus then "+" else if f.blank then " " else ""
  }

  function Prefix(n: int, base: int, bytes: int, f: Flags): string {
    if f.isSigned then Sign(n, bytes, f)
    else if n > 0 && f.alt then (if base != 16 then "0" else if f.ucase then "0X" else "0x")
    else ""
  }

  /** The number behind the sign. */
  function Magnitude(n: int, bytes: int, f: Flags): (m: nat) {
    var v := if f.isSigned && Negative(n, bytes) then (U64 - n) % U64 else n;
    var r := Range(bytes);
    assert r > 0;
    v % r
  }

  /** Prefix and digits, brought to the width. */
  function Formatted(n: int, base: int, wid: int, bytes: int, f: Flags): string
    requires 2 <= base <= 16
  {
    var p, ds := Prefix(n, base, bytes, f), Digits(Magnitude(n, bytes, f), base, f.ucase);
    var pad := wid - |p| - |ds|;
    if f.left then p + ds + Repeat(' ', pad)
    else if f.zero then p + Repeat('0', pad) + ds
    else Repeat(' ', pad) + p + ds
  }

  // ---------- how many digits ----------

  lemma {:induction false} FewDigits(n: nat, base: int, ucase: bool, k: nat)
    requires 8 <= base <= 16 && n < Pow(8, k) && k >= 1
    ensures |Digits(n, base, ucase)| <= k
    decreases k
  {
    hide Digits, Dig;
    DivFacts(n, base);
    DigitsStep(n, base, ucase);
    if n >= base {
      assert k > 1;
      var q := n / base;
      Shrinks(n, base, Pow(8, k - 1));
      FewDigits(q, base, ucase, k - 1);
    }
  }

  lemma Shrinks(n: nat, base: int, p: int)
    requires n < 8 * p && base >= 8
    ensures n / base < p
  {
    var q := n / base;
    assert q * base <= n;
    if q >= p { More(q, p, base); }
  }

  lemma More(q: int, p: int, base: int)
    requires q >= p && base >= 8 && q >= 0
    ensures q * base >= 8 * p
  {
    assert q * base >= q * 8;
  }

  lemma EightTo22()
    ensures Pow(8, 22) >= U64
  {
    assert Pow(8, 4) == 4096;
    assert Pow(8, 8) == 16_777_216;
    assert Pow(8, 12) == 68_719_476_736;
    assert Pow(8, 16) == 281_474_976_710_656;
    assert Pow(8, 20) == 1_152_921_504_606_846_976;
  }

  lemma AtMost22(n: nat, base: int, ucase: bool)
    requires 8 <= base <= 16 && n < U64
    ensures |Digits(n, base, ucase)| <= 22
  {
    EightTo22();
    FewDigits(n, base, ucase, 22);
  }

  // ---------- the code ----------

  /** What has been written to a stream. */
  class Sink {
    var out: string

    constructor ()
      ensures out == ""
    {
      out := "";
    }

    method Fputc(c: char)
      modifies this
      ensures out == old(out) + [c]
    {
      out := out + [c];
    }

    /** count times the same character. */
    method Fill(c: char, from: int, wid: int) returns (size: nat)
      modifies this
      ensures out == old(out) + Repeat(c, wid - from) && size == |Repeat(c, wid - from)|
    {
      var i := from;
      size := 0;
      while i < wid
        invariant (i <= wid || i == from) && from <= i && out == old(out) + Repeat(c, i - from)
                  && size == |Repeat(c, i - from)|
      {
        Fputc(c);
        i, size := i + 1, size + 1;
      }
    }

    /** ostr without a width or precision: the characters up to the terminator. */
    method Ostr(buf: array<char>, ghost len: nat) returns (size: nat)
      requires len < buf.Length && buf[len] == '\0' && forall i :: 0 <= i < len ==> buf[i] != '\0'
      modifies this
      ensures out == old(out) + buf[..len] && size == len
    {
      var s := 0;
      size := 0;
      while buf[s] != '\0'
        invariant 0 <= s == size <= len && out == old(out) + buf[..s]
        decreases len - s
      {
        Fputc(buf[s]);
        assert buf[..s + 1] == buf[..s] + [buf[s]];
        s, size := s + 1, size + 1;
      }
    }

    /** The sign to be written, or how long the base prefix is. */
    method SignOrPrefix(n: int, base: int, bytes: int, f: Flags) returns (sign: char, prefixLen: int)
      ensures prefixLen == |Prefix(n, base, bytes, f)|
      ensures if sign != '\0' then Prefix(n, base, bytes, f) == [sign]
              else prefixLen != 0 ==>
                Prefix(n, base, bytes, f) == "0" + if base == 16 then [if f.ucase then 'X' else 'x'] else []
    {
      hide Negative;
      sign, prefixLen := '\0', 0;
      if f.isSigned {
        if Negative(n, bytes) {
          sign := '-';
        } else {
          if f.plus { sign := '+'; } else if f.blank { sign := ' '; }
        }
        prefixLen := if sign != '\0' then 1 else 0;
      } else if n > 0 && f.alt {
        prefixLen := if base == 16 then 2 else 1;
      }
    }

    method PutPrefix(n: int, base: int, bytes: int, f: Flags, sign: char, prefixLen: int) returns (size: nat)
      requires prefixLen == |Prefix(n, base, bytes, f)|
      requires if sign != '\0' then Prefix(n, base, bytes, f) == [sign]
               else prefixLen != 0 ==>
                 Prefix(n, base, bytes, f) == "0" + if base == 16 then [if f.ucase then 'X' else 'x'] else []
      modifies this
      ensures out == old(out) + Prefix(n, base, bytes, f) && size == prefixLen
    {
      hide Prefix;
      size := 0;
      if sign != '\0' {
        Fputc(sign);
        size := size + 1;
      } else if prefixLen != 0 {
        Fputc('0');
        size := size + 1;
        if base == 16 {
          Fputc(if f.ucase then 'X' else 'x');
          size := size + 1;
        }
      }
    }

    method Oint(n: int, base: int, wid: int, bytes: int, f: Flags) returns (size: nat)
      requires 0 <= n < U64 && (base == 8 || base == 10 || base == 16) && Bytes(bytes)
      modifies this
      ensures out == old(out) + Formatted(n, base, wid, bytes, f) && size == |Formatted(n, base, wid, bytes, f)|
    {
      hide Digits, Repeat, Magnitude, Negative, Range, Dig, Prefix, Formatted;
      ghost var o, pre := out, Prefix(n, base, bytes, f);
      var sign, prefixLen := SignOrPrefix(n, base, bytes, f);
      var m := Magnitude(n, bytes, f);
      MagnitudeFits(n, bytes, f);
      AtMost22(m, base, f.ucase);
      ghost var ds := Digits(m, base, f.ucase);
      var buf := new char[64];
      var d := CountDigits(m, base, f.ucase);
      PutDigits(buf, m, base, f.ucase, d);
      var i := d + prefixLen;
      size := 0;
      ghost var lead, zeros, trail := "", "", "";
      if !f.zero && !f.left {
        size := Fill(' ', i, wid);
        lead := Repeat(' ', wid - i);
      }
      assert out == o + lead;
      var more := PutPrefix(n, base, bytes, f, sign, prefixLen);
      size := size + more;
      if f.zero && !f.left {
        more := Fill('0', i, wid);
        size := size + more;
        zeros := Repeat('0', wid - i);
      }
      assert out == o + lead + pre + zeros;
      more := Ostr(buf, d);
      size := size + more;
      if f.left {
        more := Fill(' ', i, wid);
        size := size + more;
        trail := Repeat(' ', wid - i);
      }
      assert out == o + lead + pre + zeros + ds + trail;
      FormattedIs(n, base, wid, bytes, f, lead, zeros, trail);
      InOne(o, lead, pre, zeros, ds, trail);
    }
  }

  lemma InOne(o: string, a: string, b: string, c: string, d: string, e: string)
    ensures o + a + b + c + d + e == o + (a + b + c + d + e)
    ensures |a + b + c + d + e| == |a| + |b| + |c| + |d| + |e|
  {
  }

  /** The output in its five pieces. */
  lemma FormattedIs(n: int, base: int, wid: int, bytes: int, f: Flags, lead: string, zeros: string, trail: string)
    requires 2 <= base <= 16
    requires var pad := wid - |Prefix(n, base, bytes, f)| - |Digits(Magnitude(n, bytes, f), base, f.ucase)|;
             && lead == (if !f.zero && !f.left then Repeat(' ', pad) else "")
             && zeros == (if f.zero && !f.left then Repeat('0', pad) else "")
             && trail == (if f.left then Repeat(' ', pad) else "")
    ensures Formatted(n, base, wid, bytes, f) ==
      lead + Prefix(n, base, bytes, f) + zeros + Digits(Magnitude(n, bytes, f), base, f.ucase) + trail
  {
    hide Digits, Repeat, Magnitude, Prefix;
    var p, ds := Prefix(n, base, bytes, f), Digits(Magnitude(n, bytes, f), base, f.ucase);
    if f.left {
      assert "" + p + "" + ds + trail == p + ds + trail;
    } else if f.zero {
      assert "" + p + zeros + ds + "" == p + zeros + ds;
    } else {
      assert lead + p + "" + ds + "" == lead + p + ds;
    }
  }

  lemma MagnitudeFits(n: int, bytes: int, f: Flags)
    requires 0 <= n < U64 && Bytes(bytes)
    ensures Magnitude(n, bytes, f) < U64
  {
  }

  method CountDigits(n0: nat, base: int, ghost ucase: bool) returns (d: nat)
    requires 2 <= base <= 16
    ensures d == |Digits(n0, base, ucase)|
  {
    hide Digits, Dig;
    var i, n := 0, n0;
    DigitsStep(n0, base, ucase);
    while n != 0
      invariant 0 <= n && 0 <= i && (i == 0 ==> n == n0) && (n0 == 0 ==> n == 0 && i == 0)
      invariant n0 > 0 ==> |Digits(n0, base, ucase)| == i + (if n == 0 then 0 else |Digits(n, base, ucase)|)
      decreases n
    {
      DivFacts(n, base);
      DigitsStep(n, base, ucase);
      n := n / base;
      i := i + 1;
    }
    d := if i != 0 then i else 1;
  }

  /** The low digits that are in the buffer, behind those that n still stands for. */
  ghost predicate PutSoFar(all: string, n: int, base: int, ucase: bool, low: string, left: int)
    requires 2 <= base <= 16
  {
    if left == 0 then all == low else n >= 0 && all == Digits(n, base, ucase) + low && |Digits(n, base, ucase)| == left
  }

  lemma PutNext(all: string, n: int, base: int, ucase: bool, low: string, left: int)
    requires 2 <= base <= 16 && left > 0 && PutSoFar(all, n, base, ucase, low, left)
    ensures n >= 0 && PutSoFar(all, n / base, base, ucase, [Dig(n % base, ucase)] + low, left - 1)
  {
    hide Digits, Dig;
    DivFacts(n, base);
    DigitsStep(n, base, ucase);
    if n >= base {
      var high, c := Digits(n / base, base, ucase), Dig(n % base, ucase);
      assert high + [c] + low == high + ([c] + low);
    }
  }

  lemma PutStart(n: nat, base: int, ucase: bool)
    requires 2 <= base <= 16
    ensures PutSoFar(Digits(n, base, ucase), n, base, ucase, [], |Digits(n, base, ucase)|)
  {
    hide Digits;
    assert Digits(n, base, ucase) + [] == Digits(n, base, ucase);
  }

  /** The digits, the last one first, and the terminator. */
  method PutDigits(buf: array<char>, n0: nat, base: int, ucase: bool, d: nat)
    requires 2 <= base <= 16 && d == |Digits(n0, base, ucase)| < buf.Length
    modifies buf
    ensures buf[..d] == Digits(n0, base, ucase) && buf[d] == '\0' && forall i :: 0 <= i < d ==> buf[i] != '\0'
  {
    hide Digits, Dig, PutSoFar;
    var n := n0;
    ghost var all := Digits(n0, base, ucase);
    PutStart(n0, base, ucase);
    assert buf[d..d] == [];
    var i := 0;
    while i < d
      invariant 0 <= i <= d && 0 <= n && PutSoFar(all, n, base, ucase, buf[d - i..d], d - i)
    {
      ghost var done := buf[d - i..d];
      PutNext(all, n, base, ucase, done, d - i);
      DivFacts(n, base);
      buf[d - i - 1] := Dig(n % base, ucase);
      assert buf[d - i - 1..d] == [Dig(n % base, ucase)] + done;
      n := n / base;
      i := i + 1;
    }
    PutAll(all, n, base, ucase, buf[0..d]);
    buf[d] := '\0';
    assert buf[..d] == all;
    NoTerminator(n0, base, ucase);
    forall k | 0 <= k < d ensures buf[k] != '\0' { assert buf[..d][k] in all; }
  }

  lemma PutAll(all: string, n: int, base: int, ucase: bool, low: string)
    requires 2 <= base <= 16 && PutSoFar(all, n, base, ucase, low, 0)
    ensures all == low
  {
  }

  lemma NoTerminator(n: nat, base: int, ucase: bool)
    requires 2 <= base <= 16
    ensures '\0' !in Digits(n, base, ucase)
  {
    ValueOfDigits(n, base, ucase);
    assert DigitOf('\0', base) < 0;
  }
}
