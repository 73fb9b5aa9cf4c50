/** scan_int of scanf.c: an integer read from a stream, one character at a time. */
module NumberScan {
  import opened NumberText
  import P = NumberParse

  const EOF := -1

  function ToLower(c: int): int { if 'A' as int <= c <= 'Z' as int then c + 32 else c }

  function IndexIn(digs: string, c: int): (k: int)
    ensures -1 <= k < |digs|
    ensures k >= 0 ==> digs[k] as int == c
    ensures k == -1 ==> forall i :: 0 <= i < |digs| ==> digs[i] as int != c
  {
    if digs == [] then -1
    else if digs[0] as int == c then 0
    else var k := IndexIn(digs[1..], c);
      assert forall i :: 0 < i < |digs| ==> digs[i] == digs[1..][i - 1];
      if k < 0 then -1 else k + 1
  }

  /** The value of a character read from a stream as a digit, or -1. */
  function Idig(c: int, base: int): int
    requires 0 <= base <= 16
  {
    IndexIn(DIGS[..base], if base == 16 then ToLower(c) else c)
  }

  lemma DigsAre(i: int)
    requires 0 <= i < 16
    ensures DIGS[i] as int == if i < 10 then '0' as int + i else 'a' as int + i - 10
  {
  }

  /** The two ways of reading digits agree on the bases scanf has. */
  lemma SameDigits(c: char, base: int)
    requires base == 8 || base == 10 || base == 16
    ensures Idig(c as int, base) == DigitOf(c, base)
  {
    hide IndexIn;
    var k, d := Idig(c as int, base), DigitOf(c, base);
    var digs := DIGS[..base];
    if k >= 0 {
      assert digs[k] == DIGS[k];
      DigsAre(k);
    }
    if d >= 0 {
      assert digs[d] == DIGS[d];
      DigsAre(d);
    }
  }

  // ---------- what is read ----------

  /** ok: there is a number, value is it as an unsigned long long; used: how much was consumed. */
  datatype Scanned = Scanned(ok: bool, value: int, used: nat)

  function First(s: string, i: nat): int { if i < |s| then s[i] as int else EOF }

  predicate IsSign(c: int) { c == '-' as int || c == '+' as int }

  predicate IsHex(c: int) { c == 'x' as int || c == 'X' as int }

  function Limited(s: string, from: nat, base: int, wid: int): (to: nat)
    requires from <= |s|
    ensures from <= to <= |s|
  {
    var e := RunEnd(s, from, base);
    if wid < 0 then from else if e - from <= wid then e else from + wid
  }

  /** The digits of base from i on, at most wid; more says that a digit came before them. */
  function ScanDigits(s: string, i: nat, base: int, wid: int, neg: bool, more: bool): Scanned
    requires i <= |s|
  {
    var to := Limited(s, i, base, wid);
    var v := Value(s[i..to], base);
    Scanned(more || to > i, (if neg then -v else v) % U64, to)
  }

  /** From behind the sign on. */
  function ScanFrom(s: string, i: nat, base: int, wid: int, neg: bool): Scanned
    requires i <= |s|
  {
    if wid > 0 && First(s, i) == '0' as int && (base == 0 || base == 16) then
      if wid > 1 && IsHex(First(s, i + 1)) then
        (if i + 2 < |s| && DigitOf(s[i + 2], 16) >= 0 then ScanDigits(s, i + 2, 16, wid - 2, neg, false)
         else Scanned(false, 0, i + 2))
      else ScanDigits(s, i + 1, if base == 0 then 8 else base, wid - 1, neg, true)
    else ScanDigits(s, i, if base == 0 then 10 else base, wid, neg, false)
  }

  /** scan_int on what is left of the stream. */
  function Scan(s: string, base: int, wid: int): Scanned {
    if IsSign(First(s, 0)) && wid > 0 then ScanFrom(s, 1, base, wid - 1, s[0] == '-')
        else ScanFrom(s, 0, base, wid, false)
  }

  lemma ScanSigned(s: string, base: int, wid: int)
    ensures Scan(s, base, wid) ==
      if IsSign(First(s, 0)) && wid > 0 then ScanFrom(s, 1, base, wid - 1, First(s, 0) == '-' as int)
          else ScanFrom(s, 0, base, wid, false)
  {
  }

  // ---------- the stream ----------

  /** A string as a stream, with one character that can be given back. */
  class Stream {
    const text: string
    var icur: nat
    var back: int
    var count: int

    ghost predicate Valid()
      reads this
    {
      icur <= |text| && (forall c :: c in text ==> c as int < 256) && -1 <= back < 256
    }

    /** What is still to be read. */
    ghost function Rest(): string
      reads this
      requires Valid()
    {
      (if back != EOF then [back as char] else []) + text[icur..]
    }

    constructor (s: string)
      requires forall c :: c in s ==> c as int < 256
      ensures Valid() && Rest() == s && count == 0 && back == EOF
    {
      text, icur, back, count := s, 0, EOF, 0;
    }

    method Ic() returns (c: int)
      requires Valid()
      modifies this`icur, this`back
      ensures Valid() && c == First(old(Rest()), 0)
      ensures Rest() == if c == EOF then [] else old(Rest())[1..]
      ensures back == EOF && -1 <= c < 256
    {
      if back != EOF {
        c := back;
        back := EOF;
        return;
      }
      if icur < |text| {
        assert text[icur] in text;
        c := text[icur] as int;
        icur := icur + 1;
        return;
      }
      c := EOF;
    }

    method Ungetc(c: int) returns (r: int)
      requires Valid() && c < 256 && (c < 0 ==> c == EOF)
      modifies this`back
      ensures Valid() && (r == EOF <==> c == EOF || old(back) != EOF)
      ensures r == EOF ==> back == old(back)
      ensures r != EOF ==> Rest() == [c as char] + old(Rest())
    {
      if c == EOF || back != EOF { return EOF; }
      back := c;
      r := back;
    }

    method Sget() returns (c: int)
      requires Valid()
      modifies this
      ensures Valid() && c == First(old(Rest()), 0) && -1 <= c < 256 && back == EOF
      ensures Rest() == (if c == EOF then [] else old(Rest())[1..]) && count == old(count) + (if c == EOF then 0 else 1)
    {
      c := Ic();
      if c != EOF { count := count + 1; }
    }

    method Sunget(c: int)
      requires Valid() && -1 <= c < 256 && back == EOF
      modifies this
      ensures Valid() && Rest() == (if c == EOF then old(Rest()) else [c as char] + old(Rest()))
      ensures count == old(count) - (if c == EOF then 0 else 1)
    {
      if c != EOF {
        var r := Ungetc(c);
        count := count - 1;
      }
    }

    /** Leading white space. */
    method SkipSpace()
      requires Valid()
      modifies this
      ensures Valid()
      ensures var s := old(Rest()); Rest() == s[P.SkipSpace(s, 0)..] && count == old(count) + P.SkipSpace(s, 0)
    {
      hide Rest, Tail, First, Seen;
      ghost var s, k: nat := Rest(), 0;
      TailStart(s);
      AtEnd(s, 0);
      var c := Sget();
      while c != EOF && P.IsSpace(c as char)
        invariant Valid() && k <= |s| && c == First(s, k) && -1 <= c < 256 && back == EOF
                  && P.SkipSpace(s, 0) == P.SkipSpace(s, k)
        invariant Rest() == Tail(s, k) && count == old(count) + Seen(s, k) && (c == EOF <==> k >= |s|)
        decreases |s| - k
      {
        SpaceAt(s, k);
        TailNext(s, k);
        AtEnd(s, k + 1);
        c := Sget();
        k := k + 1;
      }
      if k < |s| { SpaceAt(s, k); }
      TailBack(s, k);
      Sunget(c);
    }

    /** An integer in base (0: the prefix decides, 16: with or without one) of at most wid characters. */
    method ScanInt(base0: int, wid0: int) returns (ok: bool, out: int)
      requires Valid() && (base0 == 0 || base0 == 8 || base0 == 10 || base0 == 16)
      modifies this
      ensures Valid()
      ensures var s := old(Rest()); var r := Scan(s, base0, wid0);
        && ok == r.ok && (ok ==> out == r.value) && r.used <= |s| && Rest() == s[r.used..]
           && count == old(count) + r.used
    {
      hide Tail, First, Seen, Rest, ScanFrom, Scan;
      ghost var s, i: nat := Rest(), 0;
      TailStart(s);
      AtEnd(s, 0);
      var wid, neg := wid0, false;
      var c := Sget();
      ScanSigned(s, base0, wid0);
      if (c == '-' as int || c == '+' as int) && wid > 0 {
        neg := c == '-' as int;
        wid := wid - 1;
        TailNext(s, i);
        AtEnd(s, i + 1);
        c := Sget();
        i := 1;
      }
      ok, out := ScanUnsigned(c, base0, wid, neg, s, i);
    }

    /** From behind the sign on, the character c having been read already. */
    method ScanUnsigned(c0: int, base0: int, wid0: int, neg: bool, ghost s: string, ghost i0: nat) returns (ok: bool,
        out: int)
      requires Valid() && (base0 == 0 || base0 == 8 || base0 == 10 || base0 == 16) && back == EOF
      requires i0 <= |s| && c0 == First(s, i0) && -1 <= c0 < 256 && Rest() == Tail(s, i0)
      modifies this
      ensures Valid()
      ensures var r := ScanFrom(s, i0, base0, wid0, neg);
        && ok == r.ok && (ok ==> out == r.value) && r.used <= |s| && Rest() == s[r.used..]
        && count == old(count) + r.used - Seen(s, i0)
    {
      hide DigitOf, Idig, Tail, First, Seen, Rest, ScanDigits;
      var base, wid, digits, c := base0, wid0, false, c0;
      ghost var i := i0;
      AtEnd(s, i);
      if wid > 0 && c == '0' as int && (base == 0 || base == 16) {
        wid := wid - 1;
        TailNext(s, i);
        AtEnd(s, i + 1);
        c := Sget();
        i := i + 1;
        if wid > 0 && (c == 'x' as int || c == 'X' as int) {
          TailNext(s, i);
          AtEnd(s, i + 1);
          var c2 := Sget();
          IdigEnd(s, i + 1, 16);
          if Idig(c2, 16) < 0 {
            TailBack(s, i + 1);
            Sunget(c2);
            return false, 0;
          }
          base := 16;
          wid := wid - 1;
          c := c2;
          i := i + 1;
        } else {
          digits := true;
          if base == 0 { base := 8; }
        }
      }
      if base == 0 { base := 10; }
      ok, out := ReadRun(c, base, wid, neg, digits, s, i);
    }

    /** The digits, from the character c that has been read already. */
    method ReadRun(c0: int, base: int, wid0: int, neg: bool, more: bool, ghost s: string,
                   ghost i: nat) returns (ok: bool, out: int)
      requires Valid() && (base == 8 || base == 10 || base == 16) && back == EOF
      requires i <= |s| && c0 == First(s, i) && -1 <= c0 < 256 && Rest() == Tail(s, i)
      modifies this
      ensures Valid()
      ensures var r := ScanDigits(s, i, base, wid0, neg, more);
        && ok == r.ok && (ok ==> out == r.value) && r.used <= |s| && Rest() == s[r.used..]
        && count == old(count) + r.used - Seen(s, i)
    {
      hide DigitOf, Idig, Value, RunEnd, Tail, First, Seen, Rest;
      var c, wid, digits, n := c0, wid0, more, 0;
      ghost var k := i;
      ghost var v := 0;
      NoValue(s, i, base);
      IdigEnd(s, k, base);
      while wid > 0 && c != EOF && Idig(c, base) >= 0
        invariant Valid() && back == EOF && i <= k <= |s| && c == First(s, k) && -1 <= c < 256 && wid == wid0 - (k - i)
        invariant Rest() == Tail(s, k) && count == old(count) + Seen(s, k) - Seen(s, i)
        invariant AllDigits(s[i..k], base) && v == Value(s[i..k], base) && n == v % U64 && (digits <==> more || k > i)
        invariant k > i ==> k - i <= wid0
        invariant c == EOF <==> k == |s|
        invariant k < |s| ==> Idig(c, base) == DigitOf(s[k], base)
        decreases |s| - k
      {
        ValueNext(s, i, k, base);
        assert s[i..k + 1] == s[i..k] + [s[k]];
        ModStep(v, Idig(c, base), base);
        n := (n * base + Idig(c, base)) % U64;
        v := v * base + Idig(c, base);
        digits := true;
        wid := wid - 1;
        TailNext(s, k);
        c := Sget();
        k := k + 1;
        IdigEnd(s, k, base);
      }
      TailBack(s, k);
      Sunget(c);
      RunStops(s, i, k, base, wid0);
      if !digits { return false, 0; }
      ok := true;
      out := if neg then -n % U64 else n;
      NegMod(v);
    }
  }

  /** How many characters have been read when s[k], or the end, is the latest. */
  function Seen(s: string, k: nat): nat { if k < |s| then k + 1 else k }

  /** What is still to be read then. */
  function Tail(s: string, k: nat): string { if k < |s| then s[k + 1..] else [] }

  lemma TailStart(s: string)
    ensures First(s, 0) != EOF <==> s != []
    ensures s != [] ==> s[1..] == Tail(s, 0) && Seen(s, 0) == 1
    ensures s == [] ==> Tail(s, 0) == [] && Seen(s, 0) == 0
  {
  }

  lemma TailNext(s: string, k: nat)
    requires k < |s|
    ensures First(Tail(s, k), 0) == First(s, k + 1)
    ensures First(s, k + 1) != EOF ==>
      Tail(s, k) != [] && Tail(s, k)[1..] == Tail(s, k + 1) && Seen(s, k + 1) == Seen(s, k) + 1
    ensures First(s, k + 1) == EOF ==> Tail(s, k + 1) == [] && Seen(s, k + 1) == Seen(s, k)
  {
  }

  lemma TailBack(s: string, k: nat)
    requires k <= |s|
    ensures First(s, k) == EOF ==> Tail(s, k) == s[k..] && Seen(s, k) == k
    ensures First(s, k) != EOF ==>
      0 <= First(s, k) && [First(s, k) as char] + Tail(s, k) == s[k..] && Seen(s, k) == k + 1
  {
  }

  lemma SpaceAt(s: string, k: nat)
    requires k < |s|
    ensures 0 <= First(s, k) && First(s, k) as char == s[k]
  {
  }

  lemma AtEnd(s: string, k: nat)
    ensures First(s, k) == EOF <==> k >= |s|
  {
  }

  lemma NoValue(s: string, i: nat, base: int)
    requires i <= |s|
    ensures s[i..i] == [] && Value(s[i..i], base) == 0
  {
  }

  lemma IdigEnd(s: string, k: nat, base: int)
    requires base == 8 || base == 10 || base == 16
    ensures k < |s| ==> Idig(First(s, k), base) == DigitOf(s[k], base)
    ensures k >= |s| ==> Idig(First(s, k), base) < 0
    ensures First(s, k) == EOF <==> k >= |s|
  {
    if k < |s| { SameDigits(s[k], base); } else { EndIsNoDigit(base); }
  }

  lemma EndIsNoDigit(base: int)
    requires 0 <= base <= 16
    ensures Idig(EOF, base) == -1
  {
  }

  lemma ModStep(v: int, d: int, base: int)
    ensures ((v % U64) * base + d) % U64 == (v * base + d) % U64
  {
    var q := v / U64;
    assert v == q * U64 + v % U64;
    assert v * base + d == ((v % U64) * base + d) + (q * base) * U64 by { Spread(q, v % U64, base); }
    AddMultiple((v % U64) * base + d, q * base);
  }

  lemma Spread(q: int, r: int, base: int)
    ensures (q * U64 + r) * base == r * base + (q * base) * U64
  {
  }

  lemma AddMultiple(x: int, k: int)
    ensures (x + k * U64) % U64 == x % U64
  {
  }

  lemma NegMod(v: int)
    ensures -(v % U64) % U64 == -v % U64
  {
  }

  /** Where the reading stopped is where the run ends, or where the width ran out. */
  lemma RunStops(s: string, i: nat, k: nat, base: int, wid: int)
    requires i <= k <= |s| && AllDigits(s[i..k], base) && (k > i ==> k - i <= wid)
    requires k == |s| || DigitOf(s[k], base) < 0 || wid <= k - i
    ensures Limited(s, i, base, wid) == k
  {
    if k == |s| || DigitOf(s[k], base) < 0 {
      RunIs(s, i, k, base);
    } else {
      RunGoesOn(s, i, k, base);
    }
  }

  lemma {:induction false} RunGoesOn(s: string, i: nat, k: nat, base: int)
    requires i <= k <= |s| && AllDigits(s[i..k], base)
    ensures RunEnd(s, i, base) >= k
    decreases k - i
  {
    if i < k {
      assert s[i] in s[i..k];
      assert forall c :: c in s[i + 1..k] ==> c in s[i..k];
      RunGoesOn(s, i + 1, k, base);
    }
  }
}
