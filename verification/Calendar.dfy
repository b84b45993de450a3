/**
 The proleptic Gregorian calendar, as the cron engine's date library computes it.

 A date is a day number counted from 1970-01-01. `CivilOf` reads a day number as
 year, month and day by stepping one day at a time from the epoch, the way the
 scan steps (`succ_opt`, `pred_opt`). `DayNumber` is the closed form in leap-year
 arithmetic. The lemmas connect the two in both directions.
 */
module Calendar {

  datatype Civil = Civil(year: int, month: int, day: int)

  const EPOCH := Civil(1970, 1, 1)

  /** Days from 1 January of year 1 to 1 January 1970. */
  const EPOCH_OFFSET := 719162

  predicate IsLeap(year: int) {
    year % 4 == 0 && (year % 100 != 0 || year % 400 == 0)
  }

  function DaysInMonth(year: int, month: int): int {
    if month == 2 then (if IsLeap(year) then 29 else 28)
    else if month == 4 || month == 6 || month == 9 || month == 11 then 30
    else 31
  }

  predicate IsDate(c: Civil) {
    1 <= c.month <= 12 && 1 <= c.day <= DaysInMonth(c.year, c.month)
  }

  function Succ(c: Civil): Civil {
    if c.day < DaysInMonth(c.year, c.month) then c.(day := c.day + 1)
    else if c.month < 12 then Civil(c.year, c.month + 1, 1)
    else Civil(c.year + 1, 1, 1)
  }

  function Pred(c: Civil): Civil {
    if c.day > 1 then c.(day := c.day - 1)
    else if c.month > 1 then Civil(c.year, c.month - 1, DaysInMonth(c.year, c.month - 1))
    else Civil(c.year - 1, 12, 31)
  }

  /** The date `n` days after the epoch. */
  function CivilOf(n: int): (c: Civil)
    ensures IsDate(c)
    decreases if n < 0 then -n else n
  {
    if n == 0 then EPOCH
    else if n > 0 then Succ(CivilOf(n - 1))
    else Pred(CivilOf(n + 1))
  }

  /** 0 is Sunday; 1 January 1970 was a Thursday. */
  function Weekday(n: int): int {
    (n + 4) % 7
  }

  /** The day number of 1 January. */
  function YearStart(year: int): int {
    365 * (year - 1) + (year - 1) / 4 - (year - 1) / 100 + (year - 1) / 400 - EPOCH_OFFSET
  }

  function DaysBeforeMonth(year: int, month: int): int
    requires 1 <= month <= 12
  {
    if month == 1 then 0 else DaysBeforeMonth(year, month - 1) + DaysInMonth(year, month - 1)
  }

  /** The closed form: day number of a date. */
  function DayNumber(c: Civil): int
    requires 1 <= c.month <= 12
  {
    YearStart(c.year) + DaysBeforeMonth(c.year, c.month) + c.day - 1
  }

  lemma YearLength(year: int)
    ensures YearStart(year + 1) == YearStart(year) + (if IsLeap(year) then 366 else 365)
  {
    NextQuotient(year, 4);
    NextQuotient(year, 100);
    NextQuotient(year, 400);
    CenturyRule(year);
  }

  lemma NextQuotient(n: int, d: int)
    requires d == 4 || d == 100 || d == 400
    ensures n / d == (n - 1) / d + (if n % d == 0 then 1 else 0)
  {
  }

  lemma CenturyRule(year: int)
    ensures year % 400 == 0 ==> year % 100 == 0
    ensures year % 100 == 0 ==> year % 4 == 0
  {
  }

  lemma MonthsFillTheYear(year: int)
    ensures DaysBeforeMonth(year, 12) + 31 == if IsLeap(year) then 366 else 365
  {
    assert DaysBeforeMonth(year, 2) == 31;
    assert DaysBeforeMonth(year, 3) == DaysInMonth(year, 2) + 31;
    assert DaysBeforeMonth(year, 5) == DaysBeforeMonth(year, 3) + 61;
    assert DaysBeforeMonth(year, 7) == DaysBeforeMonth(year, 5) + 61;
    assert DaysBeforeMonth(year, 9) == DaysBeforeMonth(year, 7) + 62;
    assert DaysBeforeMonth(year, 11) == DaysBeforeMonth(year, 9) + 61;
    assert DaysBeforeMonth(year, 12) == DaysBeforeMonth(year, 11) + 30;
  }

  /** Stepping to the next date adds exactly one to the closed form, and stepping back undoes it. */
  lemma SuccIsNextDay(c: Civil)
    requires IsDate(c)
    ensures IsDate(Succ(c)) && DayNumber(Succ(c)) == DayNumber(c) + 1
    ensures Pred(Succ(c)) == c
  {
    if c.day == DaysInMonth(c.year, c.month) && c.month == 12 {
      YearLength(c.year);
      MonthsFillTheYear(c.year);
    }
  }

  lemma PredIsPreviousDay(c: Civil)
    requires IsDate(c)
    ensures IsDate(Pred(c)) && Succ(Pred(c)) == c && DayNumber(Pred(c)) == DayNumber(c) - 1
  {
    SuccIsNextDay(Pred(c));
  }

  /** The date read by stepping has the closed-form day number it was read from. */
  lemma {:induction false} DayNumberOfCivil(n: int)
    ensures DayNumber(CivilOf(n)) == n
    decreases if n < 0 then -n else n
  {
    if n == 0 {
      assert YearStart(1970) == 0;
    } else if n > 0 {
      DayNumberOfCivil(n - 1);
      SuccIsNextDay(CivilOf(n - 1));
    } else {
      DayNumberOfCivil(n + 1);
      PredIsPreviousDay(CivilOf(n + 1));
    }
  }

  lemma YearsAreOrdered(a: int, b: int)
    requires a < b
    ensures YearStart(a) + 365 * (b - a) <= YearStart(b) <= YearStart(a) + 366 * (b - a)
    decreases b - a
  {
    YearLength(a);
    if a + 1 < b {
      YearsAreOrdered(a + 1, b);
    }
  }

  lemma MonthsAreOrdered(year: int, a: int, b: int)
    requires 1 <= a < b <= 12
    ensures DaysBeforeMonth(year, a) + DaysInMonth(year, a) <= DaysBeforeMonth(year, b)
    decreases b - a
  {
    if a < b - 1 {
      MonthsAreOrdered(year, a, b - 1);
    }
  }

  lemma DateStaysInItsYear(c: Civil)
    requires IsDate(c)
    ensures YearStart(c.year) <= DayNumber(c) < YearStart(c.year + 1)
  {
    MonthsFillTheYear(c.year);
    YearLength(c.year);
    if c.month > 1 {
      MonthsAreOrdered(c.year, 1, c.month);
    }
    if c.month < 12 {
      MonthsAreOrdered(c.year, c.month, 12);
    }
  }

  /** Two different dates never share a day number. */
  lemma DayNumberIsInjective(a: Civil, b: Civil)
    requires IsDate(a) && IsDate(b) && DayNumber(a) == DayNumber(b)
    ensures a == b
  {
    DateStaysInItsYear(a);
    DateStaysInItsYear(b);
    if a.year < b.year {
      if a.year + 1 < b.year { YearsAreOrdered(a.year + 1, b.year); }
    } else if b.year < a.year {
      if b.year + 1 < a.year { YearsAreOrdered(b.year + 1, a.year); }
    } else if a.month < b.month {
      MonthsAreOrdered(a.year, a.month, b.month);
    } else if b.month < a.month {
      MonthsAreOrdered(a.year, b.month, a.month);
    }
  }

  /** Every date is reached by stepping: the closed form inverts `CivilOf`. */
  lemma CivilOfDayNumber(c: Civil)
    requires IsDate(c)
    ensures CivilOf(DayNumber(c)) == c
  {
    DayNumberOfCivil(DayNumber(c));
    DayNumberIsInjective(CivilOf(DayNumber(c)), c);
  }

  // ── 400 years ──

  /** The days of 400 years; a whole number of weeks. */
  const CYCLE := 146_097

  lemma YearsRepeat(year: int)
    ensures IsLeap(year + 400) == IsLeap(year)
    ensures YearStart(year + 400) == YearStart(year) + CYCLE
  {
    var y := year - 1;
    assert (y + 400) / 4 == y / 4 + 100 && (y + 400) / 100 == y / 100 + 4 && (y + 400) / 400 == y / 400 + 1;
  }

  lemma {:induction false} MonthsRepeat(year: int, month: int)
    requires 1 <= month <= 12
    ensures DaysBeforeMonth(year + 400, month) == DaysBeforeMonth(year, month)
    ensures DaysInMonth(year + 400, month) == DaysInMonth(year, month)
  {
    YearsRepeat(year);
    if month > 1 {
      MonthsRepeat(year, month - 1);
    }
  }

  /** After 400 years the same dates fall on the same weekdays. */
  lemma CalendarRepeats(n: int)
    ensures CivilOf(n + CYCLE) == CivilOf(n).(year := CivilOf(n).year + 400)
    ensures Weekday(n + CYCLE) == Weekday(n)
  {
    var c := CivilOf(n);
    var later := c.(year := c.year + 400);
    DayNumberOfCivil(n);
    YearsRepeat(c.year);
    MonthsRepeat(c.year, c.month);
    CivilOfDayNumber(later);
  }
}
