/** The calendar behind timestamps: days counted across months, leap years and years (go/rec/rec.go, timestampDays). */
module Calendar {

  predicate Leap(y: int) {
    y % 4 == 0 && (y % 100 != 0 || y % 400 == 0)
  }

  /** timestampDays */
  function DaysIn(y: int, m: int): (n: int)
    ensures 28 <= n <= 31
  {
    if m == 2 then if Leap(y) then 29 else 28
    else if m == 4 || m == 6 || m == 9 || m == 11 then 30
    else 31
  }

  datatype Date = Date(year: int, month: int, day: int) {
    predicate Valid() {
      1 <= month <= 12 && 1 <= day <= DaysIn(year, month)
    }

    predicate Before(other: Date) {
      if year != other.year then year < other.year
      else if month != other.month then month < other.month
      else day < other.day
    }
  }

  /** Days of the year before its month m. */
  function MonthStart(y: int, m: int): (n: int)
    requires 1 <= m <= 13
    ensures n >= 0
    decreases m
  {
    if m == 1 then 0 else MonthStart(y, m - 1) + DaysIn(y, m - 1)
  }

  function YearLength(y: int): int {
    if Leap(y) then 366 else 365
  }

  lemma MonthsFillTheYear(y: int)
    ensures MonthStart(y, 13) == YearLength(y)
  {
    assert MonthStart(y, 7) == DaysIn(y, 1) + DaysIn(y, 2) + DaysIn(y, 3) + DaysIn(y, 4) + DaysIn(y, 5) + DaysIn(y, 6) by {
      assert MonthStart(y, 4) == DaysIn(y, 1) + DaysIn(y, 2) + DaysIn(y, 3);
    }
    assert MonthStart(y, 10) == MonthStart(y, 7) + DaysIn(y, 7) + DaysIn(y, 8) + DaysIn(y, 9);
  }

  /** Days from the first of January of year zero to that of year y: a closed form. */
  function YearStart(y: int): int {
    365 * y + (y + 3) / 4 - (y + 99) / 100 + (y + 399) / 400
  }

  lemma FourthYears(y: int)
    ensures (y + 4) / 4 - (y + 3) / 4 == if y % 4 == 0 then 1 else 0
  {
  }

  lemma HundredthYears(y: int)
    ensures (y + 100) / 100 - (y + 99) / 100 == if y % 100 == 0 then 1 else 0
  {
  }

  lemma FourHundredthYears(y: int)
    ensures (y + 400) / 400 - (y + 399) / 400 == if y % 400 == 0 then 1 else 0
  {
  }

  lemma HundredsAreFourths(y: int)
    ensures (y % 100 == 0 ==> y % 4 == 0) && (y % 400 == 0 ==> y % 100 == 0)
  {
    assert y == 4 * (25 * (y / 100)) + y % 100;
    assert y == 100 * (4 * (y / 400)) + y % 400;
  }

  /** The closed form counts every year at its length. */
  lemma YearStartSteps(y: int)
    ensures YearStart(y + 1) == YearStart(y) + YearLength(y)
    ensures YearStart(0) == 0
  {
    FourthYears(y);
    HundredthYears(y);
    FourHundredthYears(y);
    HundredsAreFourths(y);
  }

  /** Days from the first of January of year zero. */
  function DayNumber(d: Date): int
    requires 1 <= d.month <= 12
  {
    YearStart(d.year) + MonthStart(d.year, d.month) + d.day - 1
  }

  lemma {:induction false} MonthStartGrows(y: int, m: int, n: int)
    requires 1 <= m < n <= 13
    ensures MonthStart(y, m) + DaysIn(y, m) <= MonthStart(y, n)
    decreases n
  {
    if m < n - 1 {
      MonthStartGrows(y, m, n - 1);
    }
  }

  lemma {:induction false} YearStartGrows(y: int, z: int)
    requires y < z
    ensures YearStart(y) + YearLength(y) <= YearStart(z)
    decreases z - y
  {
    YearStartSteps(z - 1);
    if y < z - 1 {
      YearStartGrows(y, z - 1);
    }
  }

  lemma WithinYear(d: Date)
    requires d.Valid()
    ensures YearStart(d.year) <= DayNumber(d) < YearStart(d.year + 1)
  {
    MonthStartGrows(d.year, d.month, 13);
    MonthsFillTheYear(d.year);
    YearStartSteps(d.year);
  }

  /** Day numbers are in calendar order. */
  lemma DayNumberGrows(a: Date, b: Date)
    requires a.Valid() && b.Valid() && a.Before(b)
    ensures DayNumber(a) < DayNumber(b)
  {
    if a.year < b.year {
      WithinYear(a);
      WithinYear(b);
      YearStartSteps(a.year);
      YearStartGrows(a.year, b.year);
    } else if a.month < b.month {
      MonthStartGrows(a.year, a.month, b.month);
    }
  }

  /** A day has one date. */
  lemma DateIsUnique(a: Date, b: Date)
    requires a.Valid() && b.Valid() && DayNumber(a) == DayNumber(b)
    ensures a == b
  {
    if a.Before(b) {
      DayNumberGrows(a, b);
    }
    if b.Before(a) {
      DayNumberGrows(b, a);
    }
  }

  /** The years a timestamp may name, counted in days. */
  lemma YearsOnScale(d: Date)
    requires d.Valid()
    ensures 0 <= d.year <= 9999 <==> YearStart(0) <= DayNumber(d) < YearStart(10000)
  {
    WithinYear(d);
    YearStartSteps(d.year);
    if d.year < 0 {
      if d.year + 1 < 0 { YearStartGrows(d.year + 1, 0); }
    } else if d.year > 9999 {
      if 10000 < d.year { YearStartGrows(10000, d.year); }
    } else {
      if 0 < d.year { YearStartGrows(0, d.year); }
      if d.year + 1 < 10000 { YearStartGrows(d.year + 1, 10000); }
    }
  }

  function DayBefore(d: Date): Date {
    if d.day > 1 then d.(day := d.day - 1)
    else if d.month > 1 then Date(d.year, d.month - 1, DaysIn(d.year, d.month - 1))
    else Date(d.year - 1, 12, DaysIn(d.year - 1, 12))
  }

  function DayAfter(d: Date): Date {
    if d.day < DaysIn(d.year, d.month) then d.(day := d.day + 1)
    else if d.month < 12 then Date(d.year, d.month + 1, 1)
    else Date(d.year + 1, 1, 1)
  }

  lemma DayBeforeIsOneLess(d: Date)
    requires d.Valid()
    ensures DayBefore(d).Valid() && DayNumber(DayBefore(d)) == DayNumber(d) - 1
  {
    if d.day == 1 && d.month == 1 {
      MonthsFillTheYear(d.year - 1);
      YearStartSteps(d.year - 1);
      assert MonthStart(d.year, 1) == 0;
    }
  }

  lemma DayAfterIsOneMore(d: Date)
    requires d.Valid()
    ensures DayAfter(d).Valid() && DayNumber(DayAfter(d)) == DayNumber(d) + 1
  {
    if d.day == DaysIn(d.year, d.month) && d.month == 12 {
      MonthsFillTheYear(d.year);
      YearStartSteps(d.year);
      assert MonthStart(d.year + 1, 1) == 0;
    }
  }
}
