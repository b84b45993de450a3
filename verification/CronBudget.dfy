/**
 The 1,600-day budget of the scan, against the Gregorian calendar.

 A "never" is documented to mean that no such date exists. The calendar repeats after
 400 years, so whether an expression has a date at all is a fact about 146,097 days,
 and a "never" tells the truth exactly if the window has an occurrence or those days
 have no date. Two families of expressions break it: 29 February around a century year
 that is not a leap year, and a day of the month together with a weekday, which can
 stay apart for longer than the window.
 */
module CronBudget {
  import opened Common
  import opened Calendar
  import opened Zones
  import opened Cron
  import opened CronParse

  const UTC := FixedOffset(0)

  ghost predicate SomeDate(e: CronExpression) {
    exists date :: DayMatches(e, date)
  }

  /** One of the dates of 400 years matches. */
  ghost predicate SomeDateOfTheCycle(e: CronExpression, from: int) {
    exists date :: from < date <= from + CYCLE && DayMatches(e, date)
  }

  // ── What a "never" is worth ──

  lemma {:induction false} DatesRepeat(e: CronExpression, date: int, cycles: nat)
    ensures DayMatches(e, date + cycles * CYCLE) == DayMatches(e, date)
  {
    if cycles > 0 {
      DatesRepeat(e, date, cycles - 1);
      CalendarRepeats(date + (cycles - 1) * CYCLE);
      assert date + cycles * CYCLE == date + (cycles - 1) * CYCLE + CYCLE;
    }
  }

  /** A matching date, past or future, has one of its repeats in every 400 years. */
  lemma DateComesRound(e: CronExpression, date: int, from: int) returns (round: int)
    requires DayMatches(e, date)
    ensures from < round <= from + CYCLE && DayMatches(e, round)
  {
    var cycles := (date - from - 1) / CYCLE;
    round := date - cycles * CYCLE;
    assert from < round <= from + CYCLE;
    if cycles >= 0 {
      DatesRepeat(e, round, cycles);
    } else {
      DatesRepeat(e, date, -cycles);
    }
  }

  lemma SomeDateExactly(e: CronExpression, from: int)
    ensures SomeDate(e) <==> SomeDateOfTheCycle(e, from)
  {
    if date :| DayMatches(e, date) {
      var round := DateComesRound(e, date, from);
    }
  }

  /** The window `next_after` searches has an occurrence. */
  ghost predicate SomeInWindow(e: CronExpression, z: Zone, after: Instant) {
    var start := MinuteNumber(z.wall(after)) + 1;
    exists k :: start <= k < (DateOf(start) + MAX_SCAN_DAYS) * DAY && Occurs(e, z, k)
  }

  /**
   In any zone: a "never" means that no date exists, as documented, exactly if the
   window has an occurrence or the 400 years from its start have no date.
   */
  lemma NeverExactly(e: CronExpression, z: Zone, after: Instant)
    ensures (NextAfterIn(e, z, after).None? ==> !SomeDate(e)) <==>
      SomeInWindow(e, z, after) || !SomeDateOfTheCycle(e, DateOf(MinuteNumber(z.wall(after)) + 1))
  {
    var start := MinuteNumber(z.wall(after)) + 1;
    SomeDateExactly(e, DateOf(start));
    FirstFromIsLeast(e, z, start, (DateOf(start) + MAX_SCAN_DAYS) * DAY);
  }

  /** A matching date has a selected hour and minute. */
  lemma MatchingDayHasAMatch(e: CronExpression, date: int) returns (k: int)
    requires Parsed(e) && DayMatches(e, date)
    ensures DateOf(k) == date && MatchesMinute(e, k)
  {
    var h :| h in e.hour;
    var m :| m in e.minute;
    MinuteParts(date, Clock(h, m));
    k := date * DAY + OfDay(Clock(h, m));
  }

  /** For a parsed expression a date that exists is a minute that matches, however late one asks. */
  lemma SomeMinuteExactly(e: CronExpression, start: int)
    requires Parsed(e)
    ensures (exists k :: start <= k && MatchesMinute(e, k)) <==> SomeDate(e)
  {
    if date :| DayMatches(e, date) {
      var round := DateComesRound(e, date, DateOf(start));
      var k := MatchingDayHasAMatch(e, round);
    } else {
      forall k ensures !MatchesMinute(e, k) {
        assert !DayMatches(e, DateOf(k));
      }
    }
  }

  /** In UTC, where every minute exists, that is said of minutes: none comes, or one comes in time. */
  lemma NeverInUtcExactly(e: CronExpression, after: Instant)
    requires Parsed(e)
    ensures var start := MinuteNumber(after) + 1;
      (NextAfterIn(e, UTC, after).None? ==> forall k | start <= k :: !MatchesMinute(e, k)) <==>
        SomeInWindow(e, UTC, after) || !SomeDateOfTheCycle(e, DateOf(start))
  {
    assert UTC.wall(after) == after;
    NeverExactly(e, UTC, after);
    SomeMinuteExactly(e, MinuteNumber(after) + 1);
  }

  // ── Every weekday: dates of month and day ──

  /** All weekdays, and one of the two day fields a star: the dates are decided by month and day alone. */
  ghost predicate EveryWeekday(e: CronExpression) {
    (e.domStar || e.dowStar) && forall w | 0 <= w <= 6 :: w in e.dow
  }

  predicate Selects(e: CronExpression, month: int, day: int) {
    month in e.month && day in e.dom
  }

  /** The month and day exist in some year. */
  ghost predicate Exists(month: int, day: int) {
    exists year :: IsDate(Civil(year, month, day))
  }

  predicate IsLeapDay(date: int) {
    CivilOf(date).month == 2 && CivilOf(date).day == 29
  }

  ghost predicate SomeMatchLeft(e: CronExpression, start: int, date: int) {
    exists k :: DateOf(k) == date && start <= k && MatchesMinute(e, k)
  }

  lemma EveryDayIsAWeekday(e: CronExpression, date: int)
    requires EveryWeekday(e)
    ensures DayMatches(e, date) <==> Selects(e, CivilOf(date).month, CivilOf(date).day)
  {
    assert 0 <= Weekday(date) <= 6;
  }

  /** In UTC every wall minute exists, so "never" is a fact about the window's dates. */
  lemma NeverInWindow(e: CronExpression, start: int)
    requires Parsed(e)
    ensures Naive(e, UTC, start, Forward).None? <==>
      forall date | DateOf(start) <= date < DateOf(start) + MAX_SCAN_DAYS :: !SomeMatchLeft(e, start, date)
  {
    NaiveIsNearest(e, UTC, start, Forward);
    var n := Naive(e, UTC, start, Forward);
    if n.Some? {
      assert MatchesMinute(e, n.value);
      assert SomeMatchLeft(e, start, DateOf(n.value));
    } else {
      forall date | DateOf(start) <= date < DateOf(start) + MAX_SCAN_DAYS ensures !SomeMatchLeft(e, start, date) {
        forall k | DateOf(k) == date && start <= k ensures !MatchesMinute(e, k) {
          assert Visited(start, MAX_SCAN_DAYS, Forward, k);
          assert k !in Occurrences(e, UTC);
        }
      }
    }
  }

  // ── Calendar facts ──

  /** A date that exists every year comes round next year. */
  lemma OrdinaryDateComesRound(from: int, month: int, day: int) returns (date: int)
    requires Exists(month, day) && !(month == 2 && day == 29)
    ensures from < date < from + 732
    ensures CivilOf(date).month == month && CivilOf(date).day == day
  {
    var here := CivilOf(from);
    var c := Civil(here.year + 1, month, day);
    var y :| IsDate(Civil(y, month, day));
    assert IsDate(c);
    date := DayNumber(c);
    CivilOfDayNumber(c);
    DayNumberOfCivil(from);
    DateStaysInItsYear(here);
    DateStaysInItsYear(c);
    YearsAreOrdered(here.year, here.year + 2);
  }

  /** A leap year at most four years on puts its leap day in the window. */
  lemma LeapDayComesRound(from: int, year: int) returns (date: int)
    requires IsLeap(year) && CivilOf(from).year < year <= CivilOf(from).year + 4
    ensures from < date < from + MAX_SCAN_DAYS - 1 && IsLeapDay(date)
  {
    var here := CivilOf(from);
    var c := Civil(year, 2, 29);
    date := DayNumber(c);
    CivilOfDayNumber(c);
    DayNumberOfCivil(from);
    DateStaysInItsYear(here);
    assert DaysBeforeMonth(year, 2) == 31;
    YearsAreOrdered(here.year, year);
    if here.year + 1 < year {
      YearsAreOrdered(here.year + 1, year);
    }
  }

  /** A century year the Gregorian rule skips. */
  predicate SkippedCentury(year: int) {
    year % 4 == 0 && !IsLeap(year)
  }

  /** A window of whole days without a leap day has a skipped century within four years. */
  lemma NoLeapDayMeansSkippedCentury(from: int) returns (year: int)
    requires forall date | from < date < from + MAX_SCAN_DAYS - 1 :: !IsLeapDay(date)
    ensures CivilOf(from).year < year <= CivilOf(from).year + 4 && SkippedCentury(year)
  {
    var y := CivilOf(from).year;
    year := y + 4 - y % 4;
    if IsLeap(year) {
      var date := LeapDayComesRound(from, year);
    }
  }

  // ── Exactly the expressions and dates with a "never" ──

  /** Nothing but 29 February, of the dates that exist. */
  ghost predicate OnlyLeapDays(e: CronExpression) {
    forall month, day | Selects(e, month, day) && Exists(month, day) :: month == 2 && day == 29
  }

  /** No leap day is left: none on a later date of the window, and none of today's minutes if today is one. */
  ghost predicate NoLeapDayLeft(e: CronExpression, start: int) {
    && (forall date | DateOf(start) < date < DateOf(start) + MAX_SCAN_DAYS :: !IsLeapDay(date))
    && (IsLeapDay(DateOf(start)) ==> !SomeMatchLeft(e, start, DateOf(start)))
  }

  /**
   Exactly when `next_after` answers "never" in UTC: the expression selects no date that
   exists, or only 29 February and the window has none left.
   */
  lemma NeverEveryWeekday(e: CronExpression, after: Instant)
    requires Parsed(e) && EveryWeekday(e)
    ensures NextAfterIn(e, UTC, after).None? <==>
      OnlyLeapDays(e) && (Selects(e, 2, 29) ==> NoLeapDayLeft(e, MinuteNumber(after) + 1))
  {
    var start := MinuteNumber(after) + 1;
    assert UTC.wall(after) == after;
    NeverInWindow(e, start);
    var today := DateOf(start);
    if NextAfterIn(e, UTC, after).None? {
      NeverImplies(e, start);
    } else {
      var date :| today <= date < today + MAX_SCAN_DAYS && SomeMatchLeft(e, start, date);
      SomethingLeft(e, start, date);
    }
  }

  /** A match left in the window is an ordinary date, or a leap day that is left. */
  lemma SomethingLeft(e: CronExpression, start: int, date: int)
    requires EveryWeekday(e) && SomeMatchLeft(e, start, date)
    requires DateOf(start) <= date < DateOf(start) + MAX_SCAN_DAYS
    ensures !(OnlyLeapDays(e) && (Selects(e, 2, 29) ==> NoLeapDayLeft(e, start)))
  {
    var c := CivilOf(date);
    EveryDayIsAWeekday(e, date);
    assert IsDate(Civil(c.year, c.month, c.day));
    assert Selects(e, c.month, c.day) && Exists(c.month, c.day);
    if OnlyLeapDays(e) {
      assert IsLeapDay(date);
    }
  }

  lemma NeverImplies(e: CronExpression, start: int)
    requires Parsed(e) && EveryWeekday(e)
    requires forall date | DateOf(start) <= date < DateOf(start) + MAX_SCAN_DAYS :: !SomeMatchLeft(e, start, date)
    ensures OnlyLeapDays(e) && (Selects(e, 2, 29) ==> NoLeapDayLeft(e, start))
  {
    var today := DateOf(start);
    forall month, day | Selects(e, month, day) && Exists(month, day) ensures month == 2 && day == 29 {
      if !(month == 2 && day == 29) {
        var date := OrdinaryDateComesRound(today, month, day);
        LaterDayHasAMatchLeft(e, start, date);
        assert false;
      }
    }
    if Selects(e, 2, 29) {
      forall date | today < date < today + MAX_SCAN_DAYS ensures !IsLeapDay(date) {
        if IsLeapDay(date) {
          LaterDayHasAMatchLeft(e, start, date);
          assert false;
        }
      }
    }
  }

  lemma LaterDayHasAMatchLeft(e: CronExpression, start: int, date: int)
    requires Parsed(e) && EveryWeekday(e) && DateOf(start) < date
    requires Selects(e, CivilOf(date).month, CivilOf(date).day)
    ensures SomeMatchLeft(e, start, date)
  {
    EveryDayIsAWeekday(e, date);
    var k := MatchingDayHasAMatch(e, date);
  }

  // ── What a "never" of a parsed expression can mean ──

  /** Without a star in a day field the weekday alone is enough, and it comes in the first week of a month. */
  lemma NoStarIsNeverNever(e: CronExpression, start: int) returns (date: int)
    requires WellFormed(e) && !e.domStar && !e.dowStar
    ensures DateOf(start) <= date < DateOf(start) + MAX_SCAN_DAYS && SomeMatchLeft(e, start, date)
  {
    var month :| month in e.month && 1 <= month <= 12;
    var w :| w in e.dow && 0 <= w <= 6;
    assert IsDate(Civil(1970, month, 1));
    var first := OrdinaryDateComesRound(DateOf(start), month, 1);
    date := first + (w - Weekday(first)) % 7;
    FirstWeek(first, date);
    assert Weekday(date) == w;
    var k := MatchingDayHasAMatch(e, date);
  }

  /** The seven days from the first of a month on are in that month. */
  lemma FirstWeek(first: int, date: int)
    requires CivilOf(first).day == 1 && first <= date < first + 7
    ensures CivilOf(date) == CivilOf(first).(day := date - first + 1)
  {
    var c := CivilOf(first);
    DayNumberOfCivil(first);
    CivilOfDayNumber(c.(day := date - first + 1));
  }

  /** One of the day fields is a star, and some weekday is not selected. */
  ghost predicate DayAndWeekday(e: CronExpression) {
    (e.domStar || e.dowStar) && exists w | 0 <= w <= 6 :: w !in e.dow
  }

  /**
   So for whatever parses, a "never" in UTC means that no date exists, unless a skipped
   century is within four years, or the expression asks for a day of the month and a weekday.
   */
  lemma NeverMeansImpossible(e: CronExpression, after: Instant)
    requires WellFormed(e) && NextAfterIn(e, UTC, after).None?
    ensures !SomeDate(e) || DayAndWeekday(e)
      || (exists year :: SkippedCentury(year)
            && CivilOf(DateOf(MinuteNumber(after) + 1)).year < year
            && year <= CivilOf(DateOf(MinuteNumber(after) + 1)).year + 4)
  {
    var start := MinuteNumber(after) + 1;
    assert UTC.wall(after) == after;
    NeverInWindow(e, start);
    if !e.domStar && !e.dowStar {
      var date := NoStarIsNeverNever(e, start);
      assert false;
    } else if !DayAndWeekday(e) {
      NeverEveryWeekday(e, after);
      if date :| DayMatches(e, date) {
        SelectedDateIsALeapDay(e, date);
        var year := NoLeapDayMeansSkippedCentury(DateOf(start));
      }
    }
  }

  lemma SelectedDateIsALeapDay(e: CronExpression, date: int)
    requires EveryWeekday(e) && OnlyLeapDays(e) && DayMatches(e, date)
    ensures Selects(e, 2, 29)
  {
    var c := CivilOf(date);
    EveryDayIsAWeekday(e, date);
    assert IsDate(Civil(c.year, c.month, c.day));
    assert Exists(c.month, c.day);
  }

  // ── The family that fails ──

  /** `0 0 29 2 *` */
  function EveryLeapDay(): CronExpression {
    CronExpression({0}, {0}, {29}, {2}, {0, 1, 2, 3, 4, 5, 6}, false, true, "0 0 29 2 *")
  }

  lemma EveryLeapDayIsOnlyLeapDays()
    ensures Parsed(EveryLeapDay()) && EveryWeekday(EveryLeapDay()) && OnlyLeapDays(EveryLeapDay())
  {
    assert 0 in EveryLeapDay().minute && 0 in EveryLeapDay().hour;
  }

  /**
   Asked on 1 March four years before a skipped century, an expression whose only date is
   29 February is reported as never happening; that date exists eight years on.
   */
  lemma LeapDayAroundSkippedCentury(century: int, e: CronExpression, from: int)
    requires SkippedCentury(century) && from == DayNumber(Civil(century - 4, 3, 1))
    requires Parsed(e) && EveryWeekday(e) && OnlyLeapDays(e)
    ensures NextAfterIn(e, UTC, from * DAY * MINUTE) == None
    ensures IsDate(Civil(century + 4, 2, 29))
  {
    NoLeapDayLeftAround(century, from);
    NeverFrom(e, from);
    NextLeapDay(century);
  }

  lemma NextLeapDay(century: int)
    requires SkippedCentury(century)
    ensures IsDate(Civil(century + 4, 2, 29))
  {
  }

  lemma NoLeapDayLeftAround(century: int, from: int)
    requires SkippedCentury(century) && from == DayNumber(Civil(century - 4, 3, 1))
    ensures forall date | from <= date < from + MAX_SCAN_DAYS :: !IsLeapDay(date)
  {
    forall date | from <= date < from + MAX_SCAN_DAYS ensures !IsLeapDay(date) {
      if date == from {
        CivilOfDayNumber(Civil(century - 4, 3, 1));
      } else {
        NoLeapDayAround(century, date);
      }
    }
  }

  lemma NeverFrom(e: CronExpression, from: int)
    requires Parsed(e) && EveryWeekday(e) && OnlyLeapDays(e)
    requires forall date | from <= date < from + MAX_SCAN_DAYS :: !IsLeapDay(date)
    ensures NextAfterIn(e, UTC, from * DAY * MINUTE) == None
  {
    var after := from * DAY * MINUTE;
    assert MinuteNumber(after) == from * DAY;
    assert DateOf(from * DAY + 1) == from;
    NeverEveryWeekday(e, after);
  }

  lemma LeapsAround(century: int)
    requires SkippedCentury(century)
    ensures IsLeap(century - 4) && !IsLeap(century - 3) && !IsLeap(century - 2) && !IsLeap(century - 1)
  {
    assert century % 100 == 0;
    assert (century - 4) % 4 == 0 && (century - 4) % 100 == 96;
  }

  lemma FiveYears(century: int)
    requires SkippedCentury(century)
    ensures YearStart(century + 1) == YearStart(century - 4) + 1826
    ensures forall y | century - 4 < y <= century :: !IsLeap(y)
  {
    LeapsAround(century);
    YearLength(century - 4);
    YearLength(century - 3);
    YearLength(century - 2);
    YearLength(century - 1);
    YearLength(century);
    FourAndALeapYear(YearStart, century - 4);
  }

  lemma FourAndALeapYear(start: int -> int, y: int)
    requires start(y + 1) == start(y) + 366 && start(y + 2) == start(y + 1) + 365 && start(y + 3) == start(y + 2) + 365
    requires start(y + 4) == start(y + 3) + 365 && start(y + 5) == start(y + 4) + 365
    ensures start(y + 5) == start(y) + 1826
  {
  }

  lemma FebruaryAndMarch(year: int)
    ensures DayNumber(Civil(year, 2, 29)) == YearStart(year) + 59
    ensures IsLeap(year) ==> DayNumber(Civil(year, 3, 1)) == YearStart(year) + 60
  {
    assert DaysBeforeMonth(year, 2) == 31;
  }

  /** A leap day less than 1,600 days after the March before a skipped century falls between two Januaries. */
  lemma LeapYearInReach(century: int, year: int)
    requires SkippedCentury(century)
    requires YearStart(century - 4) + 60 < YearStart(year) + 59 < YearStart(century - 4) + 60 + MAX_SCAN_DAYS
    ensures century - 4 < year <= century
  {
    FiveYears(century);
    if year < century - 4 {
      YearsAreOrdered(year, century - 4);
    } else if century + 1 < year {
      YearsAreOrdered(century + 1, year);
    }
  }

  lemma NoLeapDayAround(century: int, date: int)
    requires SkippedCentury(century)
    requires DayNumber(Civil(century - 4, 3, 1)) < date < DayNumber(Civil(century - 4, 3, 1)) + MAX_SCAN_DAYS
    ensures !IsLeapDay(date)
  {
    var c := CivilOf(date);
    if IsLeapDay(date) {
      DayNumberOfCivil(date);
      FebruaryAndMarch(c.year);
      FebruaryAndMarch(century - 4);
      LeapYearInReach(century, c.year);
      FiveYears(century);
    }
  }

  /** For instance on 1 March 2096: the next one is in 2104. */
  lemma LeapDayAround2100()
    ensures NextAfterIn(EveryLeapDay(), UTC, DayNumber(Civil(2096, 3, 1)) * DAY * MINUTE) == None
    ensures IsDate(Civil(2104, 2, 29))
  {
    EveryLeapDayIsOnlyLeapDays();
    LeapDayAroundSkippedCentury(2100, EveryLeapDay(), DayNumber(Civil(2096, 3, 1)));
  }

  // ── A day of the month on a weekday ──

  // "0 0 1 1 */7": the weekdays are Sunday alone, and the star makes both day fields count.
  function NewYearOnSunday(): CronExpression {
    CronExpression({0}, {0}, {1}, {1}, {0}, false, true, "0 0 1 1 */7")
  }

  lemma NewYearOnSundayMatches(date: int)
    ensures DayMatches(NewYearOnSunday(), date) <==>
      CivilOf(date) == Civil(CivilOf(date).year, 1, 1) && date == YearStart(CivilOf(date).year) && Weekday(date) == 0
  {
    DayNumberOfCivil(date);
  }

  /** New Year of 2018 to 2021: Monday, Tuesday, Wednesday and Friday. */
  lemma FourNewYears(year: int)
    requires YearStart(2017) < YearStart(year) < YearStart(2017) + 1 + MAX_SCAN_DAYS
    ensures Weekday(YearStart(year)) != 0
  {
    if year < 2017 {
      YearsAreOrdered(year, 2017);
    } else if year > 2021 {
      YearsAreOrdered(2018, year);
    }
  }

  /** With no matching date in the 1,600 days from midnight on, the answer is "never". */
  lemma NeverFromMidnight(e: CronExpression, from: int)
    requires Parsed(e)
    requires forall date | from <= date < from + MAX_SCAN_DAYS :: !DayMatches(e, date)
    ensures NextAfterIn(e, UTC, from * DAY * MINUTE) == None
  {
    var start := from * DAY + 1;
    assert MinuteNumber(from * DAY * MINUTE) == from * DAY;
    assert DateOf(start) == from;
    NeverInWindow(e, start);
  }

  lemma NoSundayNewYear(from: int, date: int)
    requires from == DayNumber(Civil(2017, 1, 2)) && from <= date < from + MAX_SCAN_DAYS
    ensures !DayMatches(NewYearOnSunday(), date)
  {
    NewYearOnSundayMatches(date);
    if DayMatches(NewYearOnSunday(), date) {
      FourNewYears(CivilOf(date).year);
    }
  }

  lemma SundayNewYear(year: int, date: int)
    requires date == DayNumber(Civil(year, 1, 1)) && Weekday(date) == 0
    ensures DayMatches(NewYearOnSunday(), date)
  {
    CivilOfDayNumber(Civil(year, 1, 1));
    NewYearOnSundayMatches(date);
  }

  /** Asked on 2 January 2017, far from any skipped century: never. 1 January 2023 is a Sunday. */
  lemma NeverBeforeASunday(from: int, sunday: int)
    requires from == DayNumber(Civil(2017, 1, 2)) && sunday == DayNumber(Civil(2023, 1, 1))
    ensures Parsed(NewYearOnSunday())
    ensures NextAfterIn(NewYearOnSunday(), UTC, from * DAY * MINUTE) == None
    ensures from < sunday && DayMatches(NewYearOnSunday(), sunday)
  {
    var e := NewYearOnSunday();
    assert 0 in e.minute && 0 in e.hour;
    forall date | from <= date < from + MAX_SCAN_DAYS ensures !DayMatches(e, date) {
      NoSundayNewYear(from, date);
    }
    NeverFromMidnight(e, from);
    SundayNewYear(2023, sunday);
  }
}
