/**
 When a cron text fires.

 `CronText` says what each word selects. Here are the five words together: which field each
 of them fills, the rule that joins the two day fields, the shorthands, and the time of day
 in hours and minutes.
 */
module CronMeaning {
  import opened Common
  import opened Text
  import opened Calendar
  import opened Zones
  import opened Cron
  import opened CronZones
  import opened CronParse
  import opened CronText

  // ── The day rule ──

  /** The same expression with every weekday, under a star. */
  function AnyWeekday(e: CronExpression): CronExpression {
    e.(dow := {0, 1, 2, 3, 4, 5, 6}, dowStar := true)
  }

  /** The same expression with every day of the month, under a star. */
  function AnyDay(e: CronExpression): CronExpression {
    e.(dom := Range(1, 31), domStar := true)
  }

  lemma AnyWeekdayMeans(e: CronExpression, date: int)
    ensures DayMatches(AnyWeekday(e), date) <==> CivilOf(date).month in e.month && CivilOf(date).day in e.dom
  {
    assert 0 <= Weekday(date) <= 6;
  }

  lemma AnyDayMeans(e: CronExpression, date: int)
    ensures DayMatches(AnyDay(e), date) <==> CivilOf(date).month in e.month && Weekday(date) in e.dow
  {
    assert 1 <= CivilOf(date).day <= 31;
  }

  /**
   Without a star the dates are those the day of the month selects together with those the
   weekday selects; with one, those that both select.
   */
  lemma DayRule(e: CronExpression, date: int)
    ensures !e.domStar && !e.dowStar ==>
      (DayMatches(e, date) <==> DayMatches(AnyWeekday(e), date) || DayMatches(AnyDay(e), date))
    ensures e.domStar || e.dowStar ==>
      (DayMatches(e, date) <==> DayMatches(AnyWeekday(e), date) && DayMatches(AnyDay(e), date))
  {
    AnyWeekdayMeans(e, date);
    AnyDayMeans(e, date);
  }

  // ── Five words ──

  datatype Spec = Spec(minute: seq<Item>, hour: seq<Item>, dom: seq<Item>, month: seq<Item>, dow: seq<Item>)

  predicate IsSpec(s: Spec) {
    && IsList(s.minute, 0, 59, []) && IsList(s.hour, 0, 23, []) && IsList(s.dom, 1, 31, [])
    && IsList(s.month, 1, 12, MONTH_NAMES) && IsList(s.dow, 0, 7, DOW_NAMES)
  }

  function TextOf(s: Spec): string {
    Joined([Written(s.minute), Written(s.hour), Written(s.dom), Written(s.month), Written(s.dow)], ' ')
  }

  lemma {:induction false} WordsOfJoined(parts: seq<string>)
    requires parts != [] && forall i | 0 <= i < |parts| :: parts[i] != [] && forall c <- parts[i] :: !IsSpace(c)
    ensures SplitWhitespace(Joined(parts, ' ')) == parts
    decreases |parts|
  {
    var first, rest := parts[0], parts[1..];
    if rest == [] {
      WordsRun(first, [], []);
      assert first + [] == first && [] + first == first;
    } else {
      WordsOfJoined(rest);
      var more := [' '] + Joined(rest, ' ');
      assert Joined(parts, ' ') == first + more;
      WordsRun(first, [], more);
      assert [] + first == first && more[1..] == Joined(rest, ' ');
    }
  }

  /** The weekday fields of a text select the weekday: 7 stands for Sunday as 0 does. */
  ghost predicate SelectsWeekday(dow: seq<Item>, w: int) {
    ListSelects(dow, 0, 7, w) || (w == 0 && ListSelects(dow, 0, 7, 7))
  }

  /** The expression has what each of the words selects. */
  ghost predicate Means(e: CronExpression, s: Spec)
    requires IsSpec(s)
  {
    && (forall v :: v in e.minute <==> ListSelects(s.minute, 0, 59, v))
    && (forall v :: v in e.hour <==> ListSelects(s.hour, 0, 23, v))
    && (forall v :: v in e.dom <==> ListSelects(s.dom, 1, 31, v))
    && (forall v :: v in e.month <==> ListSelects(s.month, 1, 12, v))
    && (forall w | 0 <= w <= 6 :: w in e.dow <==> SelectsWeekday(s.dow, w))
    && (e.domStar <==> s.dom[0].span.Everything?)
    && (e.dowStar <==> s.dow[0].span.Everything?)
  }

  lemma TextIsWords(s: Spec)
    requires IsSpec(s)
    ensures SplitWhitespace(TextOf(s)) ==
      [Written(s.minute), Written(s.hour), Written(s.dom), Written(s.month), Written(s.dow)]
  {
    StarFirst(s.minute, 0, 59, []);
    StarFirst(s.hour, 0, 23, []);
    StarFirst(s.dom, 1, 31, []);
    StarFirst(s.month, 1, 12, MONTH_NAMES);
    StarFirst(s.dow, 0, 7, DOW_NAMES);
    WordsOfJoined([Written(s.minute), Written(s.hour), Written(s.dom), Written(s.month), Written(s.dow)]);
  }

  lemma FoldedWeekdays(dow: set<int>, items: seq<Item>)
    requires forall v :: v in dow <==> ListSelects(items, 0, 7, v)
    ensures forall w | 0 <= w <= 6 :: w in FoldSunday(dow) <==> SelectsWeekday(items, w)
  {
  }

  lemma FieldsReadBack(s: Spec)
    requires IsSpec(s)
    ensures ParseFieldsValue(TextOf(s)).Ok? && Means(ParseFieldsValue(TextOf(s)).value, s)
    ensures ParseFieldsValue(TextOf(s)).value.source == TextOf(s)
  {
    TextIsWords(s);
    FieldReadsBack(s.minute, 0, 59, []);
    FieldReadsBack(s.hour, 0, 23, []);
    FieldReadsBack(s.dom, 1, 31, []);
    FieldReadsBack(s.month, 1, 12, MONTH_NAMES);
    FieldReadsBack(s.dow, 0, 7, DOW_NAMES);
    FoldedWeekdays(FieldValue(Written(s.dow), 0, 7, DOW_NAMES).value.0, s.dow);
  }

  lemma TextIsTrimmed(s: Spec)
    requires IsSpec(s)
    ensures TextOf(s) != [] && Trim(TextOf(s)) == TextOf(s) && TextOf(s)[0] != '@'
  {
    var first, last := Written(s.minute), Written(s.dow);
    StarFirst(s.minute, 0, 59, []);
    StarFirst(s.dow, 0, 7, DOW_NAMES);
    var text := TextOf(s);
    var parts := [Written(s.minute), Written(s.hour), Written(s.dom), Written(s.month), Written(s.dow)];
    JoinedEnds(parts);
    assert first[0] in first && last[|last| - 1] in last;
  }

  lemma {:induction false} JoinedEnds(parts: seq<string>)
    requires parts != [] && parts[0] != [] && parts[|parts| - 1] != []
    ensures var text, last := Joined(parts, ' '), parts[|parts| - 1];
      text != [] && text[0] == parts[0][0] && text[|text| - 1] == last[|last| - 1]
  {
    if |parts| == 2 {
      assert Joined(parts[1..], ' ') == parts[1];
    } else if |parts| > 2 {
      JoinedEndsWith(parts[1..]);
    }
  }

  lemma {:induction false} JoinedEndsWith(parts: seq<string>)
    requires parts != [] && parts[|parts| - 1] != []
    ensures var text, last := Joined(parts, ' '), parts[|parts| - 1];
      text != [] && text[|text| - 1] == last[|last| - 1]
  {
    if |parts| > 1 {
      JoinedEndsWith(parts[1..]);
    }
  }

  /** Five written words parse, and each fills its own field. */
  lemma TextReadsBack(s: Spec)
    requires IsSpec(s)
    ensures FromStr(TextOf(s)).Ok? && Means(FromStr(TextOf(s)).value, s)
    ensures FromStr(TextOf(s)).value.source == TextOf(s)
  {
    TextIsTrimmed(s);
    FieldsReadBack(s);
  }

  // ── The times ──

  /** The reading of a wall clock, in nanoseconds from the epoch. */
  function Reading(date: int, hour: int, minute: int, rest: int): WallTime {
    date * 86_400_000_000_000 + hour * 3_600_000_000_000 + minute * 60_000_000_000 + rest
  }

  predicate IsTime(hour: int, minute: int, rest: int) {
    0 <= hour < 24 && 0 <= minute < 60 && 0 <= rest < 60_000_000_000
  }

  lemma ReadingParts(date: int, hour: int, minute: int, rest: int)
    requires IsTime(hour, minute, rest)
    ensures var k := MinuteNumber(Reading(date, hour, minute, rest));
      DateOf(k) == date && HourOf(k) == hour && MinuteOf(k) == minute
  {
    assert MinuteNumber(Reading(date, hour, minute, rest)) == date * DAY + OfDay(Clock(hour, minute));
    MinuteParts(date, Clock(hour, minute));
  }

  /** The day words select the date. */
  ghost predicate SelectsDate(s: Spec, date: int)
    requires IsSpec(s)
  {
    var day := ListSelects(s.dom, 1, 31, CivilOf(date).day);
    var weekday := SelectsWeekday(s.dow, Weekday(date));
    && ListSelects(s.month, 1, 12, CivilOf(date).month)
    && if s.dom[0].span.Everything? || s.dow[0].span.Everything? then day && weekday else day || weekday
  }

  /** An expression that means the words fires at the hours, minutes and dates the words select. */
  lemma FiresWhenSelected(e: CronExpression, s: Spec, date: int, hour: int, minute: int, rest: int)
    requires IsSpec(s) && Means(e, s) && IsTime(hour, minute, rest)
    ensures Matches(e, Reading(date, hour, minute, rest)) <==>
      && ListSelects(s.minute, 0, 59, minute) && ListSelects(s.hour, 0, 23, hour) && SelectsDate(s, date)
  {
    ReadingParts(date, hour, minute, rest);
    assert 0 <= Weekday(date) <= 6;
  }

  // ── Numbers and stars ──

  /** A word that is a star or one number. */
  datatype Word = Any | Just(n: nat)

  function ItemsOf(w: Word): seq<Item> {
    [Item(if w.Any? then Everything else One(Number(w.n)), None)]
  }

  function WordText(w: Word): string { if w.Any? then "*" else Decimal(w.n) }

  predicate InField(w: Word, min: nat, max: nat) { w.Just? ==> min <= w.n <= max }

  predicate Picks(w: Word, v: int) { w.Just? ==> v == w.n }

  lemma WordMeans(w: Word, min: nat, max: nat, names: seq<string>)
    requires InField(w, min, max) && min <= max < 64
    ensures IsList(ItemsOf(w), min, max, names) && Written(ItemsOf(w)) == WordText(w)
    ensures forall v | min <= v <= max :: ListSelects(ItemsOf(w), min, max, v) <==> Picks(w, v)
    ensures ItemsOf(w)[0].span.Everything? <==> w.Any?
  {
    var item := ItemsOf(w)[0];
    assert item in ItemsOf(w);
    assert WrittenItems(ItemsOf(w)) == [WordText(w) + []];
  }

  /** Five words, each a star or one number. */
  datatype Words5 = Words5(minute: Word, hour: Word, dom: Word, month: Word, dow: Word)

  predicate InFields(t: Words5) {
    && InField(t.minute, 0, 59) && InField(t.hour, 0, 23) && InField(t.dom, 1, 31) && InField(t.month, 1, 12)
    && InField(t.dow, 0, 7)
  }

  function PlainText(t: Words5): string {
    Joined([WordText(t.minute), WordText(t.hour), WordText(t.dom), WordText(t.month), WordText(t.dow)], ' ')
  }

  function SpecOf(t: Words5): Spec {
    Spec(ItemsOf(t.minute), ItemsOf(t.hour), ItemsOf(t.dom), ItemsOf(t.month), ItemsOf(t.dow))
  }

  /** Day of the month and weekday: both, if one of them is a star, and otherwise either; 7 is Sunday too. */
  predicate PicksDate(t: Words5, date: int) {
    var day, weekday := Picks(t.dom, CivilOf(date).day), t.dow.Just? ==> Weekday(date) == t.dow.n % 7;
    && Picks(t.month, CivilOf(date).month)
    && if t.dom.Just? && t.dow.Just? then day || weekday else day && weekday
  }

  lemma PlainTextMeans(t: Words5)
    requires InFields(t)
    ensures IsSpec(SpecOf(t)) && TextOf(SpecOf(t)) == PlainText(t)
    ensures FromStr(PlainText(t)).Ok? && Means(FromStr(PlainText(t)).value, SpecOf(t))
  {
    WordMeans(t.minute, 0, 59, []);
    WordMeans(t.hour, 0, 23, []);
    WordMeans(t.dom, 1, 31, []);
    WordMeans(t.month, 1, 12, MONTH_NAMES);
    WordMeans(t.dow, 0, 7, DOW_NAMES);
    TextReadsBack(SpecOf(t));
  }

  lemma WeekdayPicked(w: Word, weekday: int)
    requires InField(w, 0, 7) && 0 <= weekday <= 6
    ensures SelectsWeekday(ItemsOf(w), weekday) <==> (w.Just? ==> weekday == w.n % 7)
  {
    WordMeans(w, 0, 7, DOW_NAMES);
    var items := ItemsOf(w);
    assert ListSelects(items, 0, 7, weekday) <==> Picks(w, weekday);
    assert ListSelects(items, 0, 7, 7) <==> Picks(w, 7);
    assert w.Just? ==> w.n % 7 == if w.n == 7 then 0 else w.n;
  }

  lemma DatePicked(t: Words5, date: int)
    requires InFields(t) && IsSpec(SpecOf(t))
    ensures SelectsDate(SpecOf(t), date) <==> PicksDate(t, date)
  {
    assert 1 <= CivilOf(date).day <= 31 && 1 <= CivilOf(date).month <= 12 && 0 <= Weekday(date) <= 6;
    WordMeans(t.dom, 1, 31, []);
    WordMeans(t.month, 1, 12, MONTH_NAMES);
    WordMeans(t.dow, 0, 7, DOW_NAMES);
    WeekdayPicked(t.dow, Weekday(date));
  }

  /** When an expression is to fire: at the picked minute and hour of the picked dates, and at no other time. */
  ghost predicate FiresAsWritten(e: CronExpression, t: Words5) {
    forall date, h, m, rest | IsTime(h, m, rest) ::
      Matches(e, Reading(date, h, m, rest)) <==> Picks(t.minute, m) && Picks(t.hour, h) && PicksDate(t, date)
  }

  lemma MeaningFires(e: CronExpression, t: Words5)
    requires InFields(t) && IsSpec(SpecOf(t)) && Means(e, SpecOf(t))
    ensures FiresAsWritten(e, t)
  {
    WordMeans(t.minute, 0, 59, []);
    WordMeans(t.hour, 0, 23, []);
    forall date, h, m, rest | IsTime(h, m, rest)
      ensures Matches(e, Reading(date, h, m, rest)) <==> Picks(t.minute, m) && Picks(t.hour, h) && PicksDate(t, date)
    {
      FiresWhenSelected(e, SpecOf(t), date, h, m, rest);
      DatePicked(t, date);
    }
  }

  /** So `m h d mo w` fires at `h:m` of the dates of `d`, `mo` and `w`, whichever of the words are stars. */
  lemma PlainTextFires(t: Words5)
    requires InFields(t)
    ensures FromStr(PlainText(t)).Ok? && FiresAsWritten(FromStr(PlainText(t)).value, t)
  {
    PlainTextMeans(t);
    MeaningFires(FromStr(PlainText(t)).value, t);
  }

  // ── Shorthands ──

  const YEARLY := Words5(Just(0), Just(0), Just(1), Just(1), Any)
  const MONTHLY := Words5(Just(0), Just(0), Just(1), Any, Any)
  const WEEKLY := Words5(Just(0), Just(0), Any, Any, Just(0))
  const DAILY := Words5(Just(0), Just(0), Any, Any, Any)
  const HOURLY := Words5(Just(0), Any, Any, Any, Any)

  /** What a shorthand stands for, in words. */
  function Shorthand(name: string): Option<Words5> {
    if name == "yearly" || name == "annually" then Some(YEARLY)
    else if name == "monthly" then Some(MONTHLY)
    else if name == "weekly" then Some(WEEKLY)
    else if name == "daily" || name == "midnight" then Some(DAILY)
    else if name == "hourly" then Some(HOURLY)
    else None
  }

  lemma ZeroAndOne()
    ensures Decimal(0) == "0" && Decimal(1) == "1"
  {
  }

  lemma JoinedStep(first: string, rest: seq<string>)
    requires rest != []
    ensures Joined([first] + rest, ' ') == first + [' '] + Joined(rest, ' ')
  {
    assert ([first] + rest)[1..] == rest;
  }

  lemma JoinedFive(a: string, b: string, c: string, d: string, e: string)
    ensures Joined([a, b, c, d, e], ' ') ==
      (a + [' ']) + ((b + [' ']) + ((c + [' ']) + ((d + [' ']) + e)))
  {
    JoinedStep(d, [e]);
    JoinedStep(c, [d, e]);
    JoinedStep(b, [c, d, e]);
    JoinedStep(a, [b, c, d, e]);
    assert [a] + [b, c, d, e] == [a, b, c, d, e] && [b] + [c, d, e] == [b, c, d, e];
    assert [c] + [d, e] == [c, d, e] && [d] + [e] == [d, e];
  }

  lemma YearlyIsPlain()
    ensures PlainText(YEARLY) == "0 0 1 1 *"
  {
    ZeroAndOne();
    JoinedFive("0", "0", "1", "1", "*");
  }

  lemma MonthlyIsPlain()
    ensures PlainText(MONTHLY) == "0 0 1 * *"
  {
    ZeroAndOne();
    JoinedFive("0", "0", "1", "*", "*");
  }

  lemma WeeklyIsPlain()
    ensures PlainText(WEEKLY) == "0 0 * * 0"
  {
    ZeroAndOne();
    JoinedFive("0", "0", "*", "*", "0");
  }

  lemma DailyIsPlain()
    ensures PlainText(DAILY) == "0 0 * * *"
  {
    ZeroAndOne();
    JoinedFive("0", "0", "*", "*", "*");
  }

  lemma HourlyIsPlain()
    ensures PlainText(HOURLY) == "0 * * * *"
  {
    ZeroAndOne();
    JoinedFive("0", "*", "*", "*", "*");
  }

  lemma ExpansionIsPlain(name: string)
    ensures match Shorthand(Lower(Trim(name)))
      case Some(t) => InFields(t) && ExpandShorthand(name) == Ok(PlainText(t))
      case None => ExpandShorthand(name).Err?
  {
    var n := Lower(Trim(name));
    if n == "yearly" || n == "annually" {
      YearlyIsPlain();
    } else if n == "monthly" {
      MonthlyIsPlain();
    } else if n == "weekly" {
      WeeklyIsPlain();
    } else if n == "daily" || n == "midnight" {
      DailyIsPlain();
    } else if n == "hourly" {
      HourlyIsPlain();
    }
  }

  /** A shorthand, in any case and with any space around its name, fires as its words do; no other name parses. */
  lemma ShorthandFires(text: string, name: string)
    requires Trim(text) == ['@'] + name
    ensures match Shorthand(Lower(Trim(name)))
      case Some(t) => FromStr(text).Ok? && FiresAsWritten(FromStr(text).value, t)
      case None => FromStr(text).Err?
  {
    assert Trim(text)[1..] == name;
    ExpansionIsPlain(name);
    var meant := Shorthand(Lower(Trim(name)));
    if meant.Some? {
      var t := meant.value;
      PlainTextMeans(t);
      FieldsReadBack(SpecOf(t));
      MeaningFires(FromStr(text).value, t);
    }
  }

  // ── The 13th, and every Friday ──

  const THIRTEENTH_OR_FRIDAY := Words5(Just(0), Just(0), Just(13), Any, Just(5))

  lemma DaysOn(c: Civil, k: nat)
    requires IsDate(c) && c.day + k <= DaysInMonth(c.year, c.month)
    ensures CivilOf(DayNumber(c) + k) == c.(day := c.day + k)
  {
    CivilOfDayNumber(c.(day := c.day + k));
  }

  lemma WeekdaysOf2026(from: int, k: nat)
    requires from == YearStart(2026) + 9
    ensures Weekday(from + k) == (6 + k) % 7
  {
    assert YearStart(2026) == 20_454;
  }

  lemma JanuaryOf2026(year: int, from: int, k: nat)
    requires year == 2026 && from == DayNumber(Civil(year, 1, 10)) && k <= 6
    ensures CivilOf(from + k) == Civil(year, 1, 10 + k) && Weekday(from + k) == (6 + k) % 7
  {
    DaysOn(Civil(year, 1, 10), k);
    WeekdaysOf2026(from, k);
  }

  lemma ReadingOf(w: WallTime) returns (date: int, hour: int, minute: int, rest: int)
    ensures IsTime(hour, minute, rest) && w == Reading(date, hour, minute, rest)
    ensures w % MINUTE == 0 ==> rest == 0
  {
    var k := MinuteNumber(w);
    date, hour, minute, rest := DateOf(k), HourOf(k), MinuteOf(k), w % MINUTE;
    MinuteOfParts(k);
  }

  function Midnight(date: int): WallTime { Reading(date, 0, 0, 0) }

  predicate NamesMidnight(t: Words5) { t.minute == Just(0) && t.hour == Just(0) }

  lemma FiringIsMidnight(e: CronExpression, t: Words5, utc: Zone, j: Instant) returns (date: int)
    requires FiresAsWritten(e, t) && NamesMidnight(t) && utc == FixedOffset(0) && Fires(e, utc, j)
    ensures j == Midnight(date) && PicksDate(t, date)
  {
    var hour, minute, rest;
    date, hour, minute, rest := ReadingOf(j);
  }

  lemma MidnightFires(e: CronExpression, t: Words5, utc: Zone, date: int)
    requires FiresAsWritten(e, t) && NamesMidnight(t) && utc == FixedOffset(0) && PicksDate(t, date)
    ensures Fires(e, utc, Midnight(date))
  {
    FixedOffsetLaws(0);
    ReadingParts(date, 0, 0, 0);
    assert IsTime(0, 0, 0);
  }

  lemma MidnightIsInReach(utc: Zone, from: int, date: int)
    requires utc == FixedOffset(0) && date < from + 1_600
    ensures Midnight(date) < ForwardEnd(utc, Midnight(from))
  {
    ReadingParts(from, 0, 1, 0);
    assert MinuteNumber(utc.wall(Midnight(from))) + 1 == MinuteNumber(Reading(from, 0, 1, 0));
  }

  /** The next midnight of a text that names midnight: the first of its dates to come. */
  lemma NextMidnight(e: CronExpression, t: Words5, utc: Zone, from: int, date: int)
    requires FiresAsWritten(e, t) && NamesMidnight(t) && utc == FixedOffset(0)
    requires from < date < from + 1_600 && PicksDate(t, date)
    requires forall other | from < other < date :: !PicksDate(t, other)
    ensures NextAfterIn(e, utc, Midnight(from)) == Some(Midnight(date))
  {
    NextInFixedZone(e, 0, Midnight(from));
    MidnightFires(e, t, utc, date);
    MidnightIsInReach(utc, from, date);
    forall j | Midnight(from) < j < Midnight(date) ensures !Fires(e, utc, j) {
      if Fires(e, utc, j) {
        var d := FiringIsMidnight(e, t, utc, j);
      }
    }
  }

  lemma TwoDates(e: CronExpression, t: Words5, utc: Zone, year: int, from: int)
    requires FiresAsWritten(e, t) && t == THIRTEENTH_OR_FRIDAY && utc == FixedOffset(0)
    requires year == 2026 && from == DayNumber(Civil(year, 1, 10))
    ensures NextAfterIn(e, utc, Midnight(from)) == Some(Midnight(from + 3))
    ensures NextAfterIn(e, utc, Midnight(from + 3)) == Some(Midnight(from + 6))
  {
    TheseDatesOnly(year, from);
    NextMidnight(e, t, utc, from, from + 3);
    NextMidnight(e, t, utc, from + 3, from + 6);
  }

  lemma TextFiresTwice(text: string, t: Words5, year: int, from: int)
    requires t == THIRTEENTH_OR_FRIDAY && PlainText(t) == text
    requires year == 2026 && from == DayNumber(Civil(year, 1, 10))
    ensures FromStr(text).Ok?
    ensures NextAfterIn(FromStr(text).value, FixedOffset(0), Midnight(from)) == Some(Midnight(from + 3))
    ensures NextAfterIn(FromStr(text).value, FixedOffset(0), Midnight(from + 3)) == Some(Midnight(from + 6))
  {
    PlainTextFires(t);
    TwoDates(FromStr(text).value, t, FixedOffset(0), year, from);
  }

  /** From 10 January 2026: the 13th, whatever weekday it is, and then the 16th, a Friday. */
  lemma ThirteenthThenFriday(text: string, year: int, from: int)
    requires text == "0 0 13 * 5" && year == 2026 && from == DayNumber(Civil(year, 1, 10))
    ensures FromStr(text).Ok?
    ensures NextAfterIn(FromStr(text).value, FixedOffset(0), Midnight(from)) == Some(Midnight(from + 3))
    ensures NextAfterIn(FromStr(text).value, FixedOffset(0), Midnight(from + 3)) == Some(Midnight(from + 6))
  {
    TextFiresTwice(text, THIRTEENTH_OR_FRIDAY, year, from) by { ThirteenthOrFridayIsPlain(); }
  }

  /** Those midnights begin Tuesday the 13th and Friday the 16th. */
  lemma TuesdayAndFriday(year: int, from: int)
    requires year == 2026 && from == DayNumber(Civil(year, 1, 10))
    ensures CivilOf(from + 3) == Civil(year, 1, 13) && Weekday(from + 3) == 2
    ensures CivilOf(from + 6) == Civil(year, 1, 16) && Weekday(from + 6) == 5
  {
    JanuaryOf2026(year, from, 3);
    JanuaryOf2026(year, from, 6);
  }

  lemma TheseDatesOnly(year: int, from: int)
    requires year == 2026 && from == DayNumber(Civil(year, 1, 10))
    ensures forall date | from <= date <= from + 6 ::
      PicksDate(THIRTEENTH_OR_FRIDAY, date) <==> date == from + 3 || date == from + 6
  {
    forall date | from <= date <= from + 6
      ensures PicksDate(THIRTEENTH_OR_FRIDAY, date) <==> date == from + 3 || date == from + 6
    {
      JanuaryOf2026(year, from, date - from);
    }
  }

  lemma Thirteen()
    ensures Decimal(0) == "0" && Decimal(5) == "5" && Decimal(13) == "13"
  {
    assert Decimal(13) == Decimal(1) + "3" && Decimal(1) == "1";
  }

  lemma ThirteenthOrFridayIsPlain()
    ensures PlainText(THIRTEENTH_OR_FRIDAY) == "0 0 13 * 5"
  {
    Thirteen();
    JoinedFive("0", "0", "13", "*", "5");
  }
}
