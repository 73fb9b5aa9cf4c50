/** The Gregorian calendar as a formula: the number of a day counted without any table of months
    and without a rule for leap years. */
module CalendarDays {
  import opened Calendar

  /** The days from the first of January 1970 to the first of January of a year. */
  function YearStart(y: int): int { 365 * (y - 1970) + (y - 1969) / 4 - (y - 1901) / 100 + (y - 1601) / 400 }

  /** The days from the first of March to the first of a month, that month's number counted from March. */
  function MonthStart(m: int): int { (153 * m + 2) / 5 }

  /** January and February belong to the end of the year before, so that a leap day is the last
      day of a year; m counts from January. */
  function EpochDays(y: int, m: int, d: int): int {
    if m >= 2 then YearStart(y + 1) - 306 + MonthStart(m - 2) + d - 1
    else YearStart(y) - 306 + MonthStart(m + 10) + d - 1
  }

  lemma FourSteps(y: int)
    ensures (y + 1 - 1969) / 4 == (y - 1969) / 4 + if y % 4 == 0 then 1 else 0
  {
  }

  lemma HundredSteps(y: int)
    ensures (y + 1 - 1901) / 100 == (y - 1901) / 100 + if y % 100 == 0 then 1 else 0
  {
  }

  lemma FourHundredSteps(y: int)
    ensures (y + 1 - 1601) / 400 == (y - 1601) / 400 + if y % 400 == 0 then 1 else 0
  {
  }

  /** A year has 366 days where the formula says so. */
  lemma YearLength(y: int)
    ensures YearStart(y + 1) - YearStart(y) == YearDays(y)
  {
    FourSteps(y);
    HundredSteps(y);
    FourHundredSteps(y);
    if y % 400 == 0 { FourthHundred(y); }
    if y % 100 == 0 { HundredthFourth(y); }
  }

  lemma FourthHundred(y: int)
    requires y % 400 == 0
    ensures y % 100 == 0
  {
    assert y == 100 * (4 * (y / 400));
  }

  lemma HundredthFourth(y: int)
    requires y % 100 == 0
    ensures y % 4 == 0
  {
    assert y == 4 * (25 * (y / 100));
  }

  lemma {:induction false} YearsByFormula(y: int)
    requires EPOCH <= y
    ensures DaysBeforeYear(y) == YearStart(y)
    decreases y
  {
    if y > EPOCH {
      YearsByFormula(y - 1);
      YearLength(y - 1);
    }
  }

  lemma CumByFormula(m: int)
    requires 0 <= m <= 11
    ensures Cum(m) == if m >= 2 then MonthStart(m - 2) + 59 else MonthStart(m + 10) - 306
  {
    CumTable();
    assert Cum(4) == 120 && Cum(5) == 151 && Cum(6) == 181;
    assert Cum(7) == 212 && Cum(8) == 243 && Cum(9) == 273 && Cum(10) == 304;
  }

  /** The day numbers that the calendar's rules lead to are those of the formula. */
  lemma DayNumberByFormula(d: Date)
    requires EPOCH <= d.year && 0 <= d.mon <= 11
    ensures DayNumber(d) == EpochDays(d.year, d.mon, d.mday)
  {
    hide DaysBeforeYear, DaysBeforeMonth, Cum, Leap;
    YearsByFormula(d.year);
    YearLength(d.year);
    MonthsAndLeapDay(d.year, d.mon);
    CumByFormula(d.mon);
  }

  /** The first day of the month after. */
  function NextMonth(y: int, m: int): int { if m < 11 then EpochDays(y, m + 1, 1) else EpochDays(y + 1, 0, 1) }

  /** A month ends where the formula starts the next one. */
  lemma MonthByFormula(d: Date)
    requires EPOCH <= d.year && 0 <= d.mon <= 11
    ensures Real(d) <==> 1 <= d.mday && EpochDays(d.year, d.mon, d.mday) < NextMonth(d.year, d.mon)
  {
    hide EpochDays;
    MonthsMakeYear(d.year);
    DayNumberByFormula(d);
    DayNumberByFormula(if d.mon < 11 then Date(d.year, d.mon + 1, 1) else Date(d.year + 1, 0, 1));
  }
}
