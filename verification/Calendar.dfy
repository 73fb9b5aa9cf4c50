/** The calendar by itself: leap years, months, the day after a date, and the number of a day. */
module Calendar {
  const EPOCH := 1970
  const DPM := [31, 28, 31, 30, 31, 30, 31, 31, 30, 31, 30, 31]

  predicate Leap(y: int) { (y % 4 == 0 && y % 100 != 0) || y % 400 == 0 }

  function LeapDay(y: int): int { if Leap(y) then 1 else 0 }

  function YearDays(y: int): int { 365 + LeapDay(y) }

  function MonthDays(y: int, m: int): int
    requires 0 <= m < 12
  {
    if m == 1 then 28 + LeapDay(y) else DPM[m]
  }

  /** Months count from 0 and days from 1, as in struct tm. */
  datatype Date = Date(year: int, mon: int, mday: int)

  predicate Real(d: Date) { EPOCH <= d.year && 0 <= d.mon < 12 && 1 <= d.mday <= MonthDays(d.year, d.mon) }

  function NextDay(d: Date): Date
    requires Real(d)
  {
    if d.mday < MonthDays(d.year, d.mon) then d.(mday := d.mday + 1)
    else if d.mon < 11 then Date(d.year, d.mon + 1, 1)
    else Date(d.year + 1, 0, 1)
  }

  /** The date n days after the first of January 1970. */
  function DateAt(n: nat): (d: Date)
    ensures Real(d)
  {
    if n == 0 then Date(EPOCH, 0, 1) else NextDay(DateAt(n - 1))
  }

  // ---------- numbering days ----------

  function DaysBeforeYear(y: int): int
    decreases y
  {
    if y <= EPOCH then 0 else DaysBeforeYear(y - 1) + YearDays(y - 1)
  }

  function DaysBeforeMonth(y: int, m: int): int
    requires m <= 12
    decreases m
  {
    if m <= 0 then 0 else DaysBeforeMonth(y, m - 1) + MonthDays(y, m - 1)
  }

  function YearDay(d: Date): int
    requires d.mon <= 12
  {
    DaysBeforeMonth(d.year, d.mon) + d.mday - 1
  }

  function DayNumber(d: Date): int
    requires d.mon <= 12
  {
    DaysBeforeYear(d.year) + YearDay(d)
  }

  lemma {:induction false} MonthsInOrder(y: int, m: int, k: int)
    requires 0 <= m <= k <= 12
    ensures DaysBeforeMonth(y, m) <= DaysBeforeMonth(y, k)
    decreases k
  {
    if m < k { MonthsInOrder(y, m, k - 1); }
  }

  lemma {:induction false} YearsInOrder(y: int, z: int)
    requires EPOCH <= y <= z
    ensures 0 <= DaysBeforeYear(y) <= DaysBeforeYear(z)
    decreases z
  {
    if y < z { YearsInOrder(y, z - 1); } else if EPOCH < y { YearsInOrder(y - 1, y - 1); }
  }

  /** The days of the months before month m when February has 28 of them. */
  function Cum(m: int): int
    requires 0 <= m <= 12
  {
    if m == 0 then 0 else Cum(m - 1) + DPM[m - 1]
  }

  lemma CumTable()
    ensures Cum(0) == 0 && Cum(1) == 31 && Cum(2) == 59 && Cum(3) == 90 && Cum(11) == 334 && Cum(12) == 365
  {
    assert Cum(1) == 31 && Cum(2) == 59 && Cum(3) == 90 && Cum(4) == 120 && Cum(5) == 151 && Cum(6) == 181;
    assert Cum(7) == 212 && Cum(8) == 243 && Cum(9) == 273 && Cum(10) == 304;
  }

  /** The leap day counts from March on. */
  lemma {:induction false} MonthsAndLeapDay(y: int, m: int)
    requires 0 <= m <= 12
    ensures DaysBeforeMonth(y, m) == Cum(m) + if m > 1 then LeapDay(y) else 0
    decreases m
  {
    if m > 0 { MonthsAndLeapDay(y, m - 1); }
  }

  lemma MonthsMakeYear(y: int)
    ensures DaysBeforeMonth(y, 12) == YearDays(y)
  {
    MonthsAndLeapDay(y, 12);
    CumTable();
  }

  lemma YearDayInYear(d: Date)
    requires Real(d)
    ensures 0 <= YearDay(d) < YearDays(d.year)
  {
    MonthsInOrder(d.year, 0, d.mon);
    MonthsInOrder(d.year, d.mon + 1, 12);
    MonthsMakeYear(d.year);
  }

  /** Each date has the number after that of the date before. */
  lemma NextDayNumber(d: Date)
    requires Real(d)
    ensures DayNumber(NextDay(d)) == DayNumber(d) + 1
  {
    if d.mday == MonthDays(d.year, d.mon) && d.mon == 11 { MonthsMakeYear(d.year); }
  }

  lemma {:induction false} NumberOfDateAt(n: nat)
    ensures DayNumber(DateAt(n)) == n
  {
    if n > 0 {
      NumberOfDateAt(n - 1);
      NextDayNumber(DateAt(n - 1));
    }
  }

  /** Different dates have different numbers. */
  lemma NumberIsUnique(a: Date, b: Date)
    requires Real(a) && Real(b) && DayNumber(a) == DayNumber(b)
    ensures a == b
  {
    YearDayInYear(a);
    YearDayInYear(b);
    if a.year < b.year { YearsInOrder(a.year + 1, b.year); assert false; }
    if b.year < a.year { YearsInOrder(b.year + 1, a.year); assert false; }
    if a.mon < b.mon { MonthsInOrder(a.year, a.mon + 1, b.mon); assert false; }
    if b.mon < a.mon { MonthsInOrder(a.year, b.mon + 1, a.mon); assert false; }
  }

  /** Counting days forward meets every date, at its number. */
  lemma DateOfNumber(d: Date)
    requires Real(d)
    ensures DayNumber(d) >= 0 && DateAt(DayNumber(d)) == d
  {
    YearDayInYear(d);
    YearsInOrder(d.year, d.year);
    NumberOfDateAt(DayNumber(d));
    NumberIsUnique(DateAt(DayNumber(d)), d);
  }
}
