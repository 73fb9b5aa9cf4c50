/** localtime.c: broken-down time and back. */
module Localtime {
  import opened Arithmetic
  import opened Calendar
  import opened CalendarDays

  const SPD := 24 * 60 * 60
  const INT_MAX := 0x7FFF_FFFF
  const INT_MIN := -0x8000_0000

  /** What an int expression of C holds when it does not fit. */
  function Wrap(x: int): int { (x - INT_MIN) % 0x1_0000_0000 + INT_MIN }

  /** C's division, towards zero. */
  function Quot(a: int, b: int): int
    requires b > 0
  {
    if a >= 0 then a / b else -(-a / b)
  }

  function Rem(a: int, b: int): int
    requires b > 0
  {
    a - Quot(a, b) * b
  }

  datatype Fields = Fields(sec: int, min: int, hour: int, mday: int, mon: int, year: int, wday: int, yday: int)

  function DateOf(f: Fields): Date { Date(1900 + f.year, f.mon, f.mday) }

  function DaySeconds(f: Fields): int { f.hour * 3600 + f.min * 60 + f.sec }

  /** Every field in its calendar range, and the derived ones as the date demands. */
  predicate Normal(f: Fields) {
    && 0 <= f.sec < 60 && 0 <= f.min < 60 && 0 <= f.hour < 24 && Real(DateOf(f))
    && f.yday == YearDay(DateOf(f)) && f.wday == (4 + DayNumber(DateOf(f))) % 7
  }

  /** Seconds since the first of January 1970; what mktime is to return. */
  function Seconds(f: Fields): int
    requires f.mon <= 12
  {
    DayNumber(DateOf(f)) * SPD + DaySeconds(f)
  }

  /** The date of a day; before the epoch days are counted back inside January 1970. */
  function DayDate(days: int): Date { if days >= 0 then DateAt(days) else Date(EPOCH, 0, 1 + days) }

  /** The fields of time t: those of the day t falls on, and the time of that day. */
  function Broken(t: int): Fields {
    var days, rem := Quot(t, SPD), Rem(t, SPD);
    var d := DayDate(days);
    var minutes := Quot(rem, 60);
    Fields(Rem(rem, 60), Rem(minutes, 60), Quot(minutes, 60), d.mday, d.mon, d.year - 1900, Rem(4 + days, 7),
           if days >= 0 then YearDay(d) else days)
  }

  /** The fields of time t by the formula of the Gregorian calendar alone. */
  predicate ByFormula(f: Fields, t: int) {
    var y := 1900 + f.year;
    && 0 <= f.sec < 60 && 0 <= f.min < 60 && 0 <= f.hour < 24
    && y >= 1970 && 0 <= f.mon <= 11 && 1 <= f.mday && EpochDays(y, f.mon, f.mday) < NextMonth(y, f.mon)
    && EpochDays(y, f.mon, f.mday) * 86400 + f.hour * 3600 + f.min * 60 + f.sec == t
    && f.yday == EpochDays(y, f.mon, f.mday) - YearStart(y) && f.wday == (4 + EpochDays(y, f.mon, f.mday)) % 7
  }

  // ---------- the laws ----------

  lemma DayDateNumber(days: int)
    ensures DayDate(days).mon <= 11 && DayNumber(DayDate(days)) == days
  {
    if days >= 0 { NumberOfDateAt(days); }
  }

  /** mktime's sum undoes tp2tm for every time whatever, before 1970 too. */
  lemma SecondsOfBroken(t: int)
    ensures Broken(t).mon <= 12 && Seconds(Broken(t)) == t
  {
    DayDateNumber(Quot(t, SPD));
  }

  lemma SmallQuot(a: int, b: int)
    requires b > 0
    ensures a == Quot(a, b) * b + Rem(a, b)
    ensures 0 <= a ==> 0 <= Rem(a, b) < b && 0 <= Quot(a, b) && Quot(a, b) == a / b && Rem(a, b) == a % b
    ensures a < 0 ==> -b < Rem(a, b) <= 0 && Quot(a, b) <= 0
  {
    if a >= 0 {
      DivMod(a, b);
    } else {
      DivMod(-a, b);
      assert Quot(a, b) == -(-a / b);
      Negated(-a / b, b);
    }
  }

  lemma DivMod(a: int, b: int)
    requires a >= 0 && b > 0
    ensures a == (a / b) * b + a % b && 0 <= a % b < b && 0 <= a / b
  {
  }

  lemma Negated(q: int, b: int)
    ensures -q * b == -(q * b)
  {
  }

  /** Hours, minutes and seconds make up the seconds they come from. */
  lemma TimeOfDay(rem: int)
    requires -SPD < rem < SPD
    ensures var m := Quot(rem, 60); rem == Quot(m, 60) * 3600 + Rem(m, 60) * 60 + Rem(rem, 60)
    ensures rem >= 0 ==> var m := Quot(rem, 60); 0 <= Rem(rem, 60) < 60 && 0 <= Rem(m, 60) < 60 && 0 <= Quot(m, 60) < 24
    ensures rem < 0 ==> var m := Quot(rem, 60); Rem(rem, 60) < 0 || Rem(m, 60) < 0 || Quot(m, 60) < 0
  {
    hide Quot, Rem;
    SmallQuot(rem, 60);
    SmallQuot(Quot(rem, 60), 60);
  }

  /** The fields are in their ranges exactly from 1970 on. */
  lemma NormalFromEpoch(t: int)
    ensures Normal(Broken(t)) <==> t >= 0
  {
    hide Quot, Rem, DayNumber, YearDay, Leap, MonthDays, DateAt, DaysBeforeYear;
    var days, rem := Quot(t, SPD), Rem(t, SPD);
    SmallQuot(t, SPD);
    TimeOfDay(rem);
    DayDateNumber(days);
    if t >= 0 { SmallQuot(4 + days, 7); }
  }

  lemma QuotUnique(q: int, r: int, b: int)
    requires 0 <= q && 0 <= r < b
    ensures q * b + r >= 0 && Quot(q * b + r, b) == q && Rem(q * b + r, b) == r
  {
    var a := q * b + r;
    Product(q, b);
    assert a == (a / b) * b + a % b;
    assert (a / b - q) * b == r - a % b;
    NoMultiple(a / b - q, b);
  }

  lemma Product(q: int, b: int)
    requires 0 <= q && 0 <= b
    ensures 0 <= q * b
  {
  }

  /** tp2tm undoes mktime on every normalised date. */
  lemma BrokenOfSeconds(f: Fields)
    requires Normal(f)
    ensures Seconds(f) >= 0 && Broken(Seconds(f)) == f
  {
    hide Quot, Rem, DayNumber, YearDay, Leap, MonthDays, DateAt, DaysBeforeYear, Real;
    RealMonth(DateOf(f));
    var n, m := DayNumber(DateOf(f)), f.hour * 60 + f.min;
    DateOfNumber(DateOf(f));
    QuotUnique(n, DaySeconds(f), SPD);
    QuotUnique(m, f.sec, 60);
    QuotUnique(f.hour, f.min, 60);
    SmallQuot(4 + n, 7);
    assert DaySeconds(f) == m * 60 + f.sec;
  }

  lemma NormalByFormula(f: Fields)
    ensures Normal(f) <==> f.mon <= 12 && ByFormula(f, Seconds(f))
  {
    hide EpochDays, NextMonth, YearStart, DaysBeforeYear, DaysBeforeMonth, MonthDays;
    var d := DateOf(f);
    if d.year >= EPOCH && 0 <= d.mon <= 11 {
      DayNumberByFormula(d);
      MonthByFormula(d);
      YearsByFormula(d.year);
    }
  }

  /** From 1970 on the fields of a time are exactly those the formula gives. */
  lemma BrokenByFormula(f: Fields, t: int)
    requires t >= 0
    ensures f == Broken(t) <==> ByFormula(f, t)
  {
    hide Broken, Seconds, Normal, ByFormula;
    if f == Broken(t) {
      NormalFromEpoch(t);
      SecondsOfBroken(t);
      NormalByFormula(f);
    }
    if ByFormula(f, t) {
      SecondsByFormula(f, t);
      NormalByFormula(f);
      BrokenOfSeconds(f);
    }
  }

  lemma SecondsByFormula(f: Fields, t: int)
    requires ByFormula(f, t)
    ensures f.mon <= 12 && Seconds(f) == t
  {
    hide EpochDays, NextMonth, YearStart, DayNumber;
    DayNumberByFormula(DateOf(f));
  }

  lemma RealMonth(d: Date)
    ensures Real(d) ==> 0 <= d.mon < 12
  {
  }

  /** A day later the date is the next one and the weekday has moved on by one. */
  lemma OneDayLater(t: int)
    requires t >= 0
    ensures var f, g := Broken(t), Broken(t + SPD);
      && Real(DateOf(f)) && DateOf(g) == NextDay(DateOf(f)) && g.wday == (f.wday + 1) % 7
      && DaySeconds(g) == DaySeconds(f)
  {
    hide Quot, Rem, DayNumber, YearDay, Leap, MonthDays, DaysBeforeYear, Real, NextDay;
    var days, rem := Quot(t, SPD), Rem(t, SPD);
    SmallQuot(t, SPD);
    QuotUnique(days + 1, rem, SPD);
    assert t + SPD == (days + 1) * SPD + rem;
    assert DateAt(days + 1) == NextDay(DateAt(days));
    SmallQuot(4 + days, 7);
    SmallQuot(5 + days, 7);
    NextWeekday(4 + days);
  }

  lemma NextWeekday(a: int)
    ensures (a + 1) % 7 == (a % 7 + 1) % 7
  {
  }

  /** The first of January 1970 was a Thursday. */
  lemma EpochIsThursday()
    ensures Broken(0) == Fields(0, 0, 0, 1, 0, 70, 4, 0)
  {
    hide Quot, Rem, Leap;
    QuotUnique(0, 0, SPD);
    QuotUnique(0, 0, 60);
    QuotUnique(0, 4, 7);
  }

  /** mktime undoes localtime exactly for the times whose local seconds fit its int sum. */
  lemma MktimeUndoesLocaltime(t: int, timezone: int)
    ensures Broken(t - timezone).mon <= 12
    ensures Wrap(Seconds(Broken(t - timezone))) + timezone == t <==> INT_MIN <= t - timezone <= INT_MAX
  {
    hide Broken, Seconds, Wrap;
    SecondsOfBroken(t - timezone);
    WrapKeeps(t - timezone);
  }

  /** What an int of 4 bytes keeps of a number. */
  lemma WrapIs(x: int)
    ensures -Pow(256, 4) / 2 <= Wrap(x) < Pow(256, 4) / 2 && (x - Wrap(x)) % Pow(256, 4) == 0
    ensures INT_MAX == Pow(256, 4) / 2 - 1 && INT_MIN == -Pow(256, 4) / 2
  {
    WordValues();
  }

  lemma WrapKeeps(x: int)
    ensures Wrap(x) == x <==> INT_MIN <= x <= INT_MAX
  {
  }

  /** localtime undoes mktime on every normalised date whose seconds fit. */
  lemma LocaltimeUndoesMktime(f: Fields, timezone: int)
    requires Normal(f) && Seconds(f) <= INT_MAX
    ensures Broken(Wrap(Seconds(f)) + timezone - timezone) == f
  {
    hide Broken, Seconds, Wrap, Real, DayNumber, YearDay;
    RealMonth(DateOf(f));
    BrokenOfSeconds(f);
    WrapKeeps(Seconds(f));
  }

  // ---------- the code ----------

  class Tm {
    var sec: int
    var min: int
    var hour: int
    var mday: int
    var mon: int
    var year: int
    var wday: int
    var yday: int

    function Value(): Fields
      reads this
    {
      Fields(sec, min, hour, mday, mon, year, wday, yday)
    }
  }

  method Tp2tm(tm: Tm, t: int)
    modifies tm
    ensures tm.Value() == Broken(t) && (t >= 0 ==> ByFormula(tm.Value(), t))
  {
    hide DayDate, YearDay, ByFormula;
    var days, rem := Quot(t, SPD), Rem(t, SPD);
    ghost var n := days;
    tm.sec := Rem(rem, 60);
    rem := Quot(rem, 60);
    tm.min := Rem(rem, 60);
    tm.hour := Quot(rem, 60);
    tm.wday := Rem(4 + days, 7);
    var i := 1970;
    while days >= 365 + LeapDay(i)
      invariant 1970 <= i && DaysBeforeYear(i) + days == n && (n >= 0 ==> days >= 0) && (n < 0 ==> i == 1970)
      invariant tm.sec == Rem(Rem(t, SPD), 60) && tm.wday == Rem(4 + n, 7)
      invariant tm.min == Rem(Quot(Rem(t, SPD), 60), 60) && tm.hour == Quot(Quot(Rem(t, SPD), 60), 60)
      decreases days
    {
      days := days - (365 + LeapDay(i));
      i := i + 1;
    }
    tm.year := i - 1900;
    tm.yday := days;
    ghost var y, yday := i, days;
    tm.mday := 1;
    if Leap(i) && days == 59 { tm.mday := tm.mday + 1; }
    if Leap(i) && days >= 59 { days := days - 1; }
    i := 0;
    CumTable();
    while i < 11 && days >= DPM[i]
      invariant 0 <= i <= 11 && Cum(i) + days == yday - (if Leap(y) && yday >= 59 then 1 else 0)
                && (n >= 0 ==> days >= 0) && (n < 0 ==> i == 0)
      invariant tm.sec == Rem(Rem(t, SPD), 60) && tm.wday == Rem(4 + n, 7) && tm.year == y - 1900 && tm.yday == yday
      invariant tm.min == Rem(Quot(Rem(t, SPD), 60), 60) && tm.hour == Quot(Quot(Rem(t, SPD), 60), 60)
      invariant tm.mday == if Leap(y) && yday == 59 then 2 else 1
    {
      days := days - DPM[i];
      i := i + 1;
    }
    tm.mon := i;
    tm.mday := tm.mday + days;
    if n >= 0 { DateFound(n, y, yday, i, days, tm.mday); } else { BeforeEpoch(n, tm.mday); }
    if t >= 0 { BrokenByFormula(tm.Value(), t); }
  }

  lemma BeforeEpoch(n: int, mday: int)
    requires n < 0 && mday == 1 + n
    ensures DayDate(n) == Date(EPOCH, 0, mday)
  {
  }

  /** What the month loop ends with is the day's date. */
  lemma DateFound(n: int, y: int, yday: int, m: int, left: int, mday: int)
    requires EPOCH <= y && DaysBeforeYear(y) + yday == n && 0 <= yday < YearDays(y) && 0 <= m <= 11
    requires Cum(m) + left == yday - (if Leap(y) && yday >= 59 then 1 else 0) && 0 <= left && (m < 11 ==> left < DPM[m])
    requires mday == left + if Leap(y) && yday == 59 then 2 else 1
    ensures n >= 0 && DayDate(n) == Date(y, m, mday) && YearDay(Date(y, m, mday)) == yday
  {
    hide DaysBeforeYear, DateAt;
    CumTable();
    MonthsAndLeapDay(y, m);
    CumOrder(m);
    var d := Date(y, m, mday);
    assert Real(d);
    DateOfNumber(d);
  }

  lemma CumOrder(m: int)
    requires 0 <= m <= 12
    ensures m >= 2 ==> Cum(m) >= 59
    ensures m <= 1 ==> Cum(m) <= 31
    decreases m
  {
    if m > 2 { CumOrder(m - 1); } else { CumTable(); }
  }

  lemma BeforeFirst(y: int, m: int)
    requires m <= 12
    ensures m <= 0 ==> DaysBeforeMonth(y, m) == 0
    ensures y <= EPOCH ==> DaysBeforeYear(y) == 0 && DaysBeforeYear(EPOCH) == 0
  {
  }

  method Mktime(tm: Tm, timezone: int) returns (t: int)
    requires tm.mon <= 12
    modifies tm`yday
    ensures t == Wrap(Seconds(old(tm.Value()))) + timezone
    ensures tm.yday == YearDay(DateOf(old(tm.Value())))
    ensures var y, n := 1900 + tm.year, EpochDays(1900 + tm.year, tm.mon, tm.mday);
      y >= 1970 && 0 <= tm.mon <= 11 ==>
        tm.yday == n - YearStart(y) && t == Wrap(n * 86400 + tm.hour * 3600 + tm.min * 60 + tm.sec) + timezone
  {
    hide Leap, MonthDays, DaysBeforeMonth, Wrap, EpochDays, YearStart;
    CumTable();
    ghost var f := tm.Value();
    var d, s := 0, tm.hour * 3600 + tm.min * 60 + tm.sec;
    var i := 70;
    while i < tm.year
      invariant 70 <= i && (i <= tm.year || i == 70) && d == DaysBeforeYear(1900 + i) && tm.Value() == f
    {
      d := d + (365 + LeapDay(1900 + i));
      i := i + 1;
    }
    tm.yday := tm.mday - 1;
    i := 0;
    while i < tm.mon
      invariant 0 <= i && (i <= tm.mon || i == 0) && i <= 12 && tm.yday == tm.mday - 1 + Cum(i)
                && tm.Value() == f.(yday := tm.yday)
    {
      tm.yday := tm.yday + DPM[i];
      i := i + 1;
    }
    MonthsAndLeapDay(1900 + tm.year, i);
    BeforeFirst(1900 + tm.year, tm.mon);
    if Leap(1900 + tm.year) && tm.mon > 1 { tm.yday := tm.yday + 1; }
    d := d + tm.yday;
    t := Wrap(d * 24 * 3600 + s) + timezone;
    if tm.year >= 70 && 0 <= tm.mon <= 11 {
      DayNumberByFormula(DateOf(f));
      YearsByFormula(1900 + tm.year);
    }
  }

  method Gmtime(tm: Tm, t: int)
    modifies tm
    ensures tm.Value() == Broken(t) && (t >= 0 ==> ByFormula(tm.Value(), t))
  {
    Tp2tm(tm, t);
  }

  method Localtime(tm: Tm, t: int, timezone: int)
    modifies tm
    ensures tm.Value() == Broken(t - timezone) && (t - timezone >= 0 ==> ByFormula(tm.Value(), t - timezone))
  {
    Tp2tm(tm, t - timezone);
  }
}
