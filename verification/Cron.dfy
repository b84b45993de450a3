/**
 Cron expressions: the matching predicate and the bounded scan over it.

 The bit sets of the engine are sets of field values here. A minute is named by its
 number since the epoch on the wall clock, so a date is `minute / 1440`.

 `Scan` and `ScanWithinDay` are the loops of the engine: they skip whole days, and
 inside a day they walk only the hours and minutes the expression names. `FirstFrom`
 and `LastUpTo` are the naive form, one minute at a time over the one predicate
 `Matches`. The methods are proved to compute the naive form.
 */
module Cron {
  import opened Common
  import opened Calendar
  import opened Zones

  const MINUTE := 60_000_000_000
  const DAY := 1440
  const HOURS: nat := 24
  const MINUTES: nat := 60
  const MAX_SCAN_DAYS := 1600

  datatype Direction = Forward | Backward

  datatype CronExpression = CronExpression(
    minute: set<int>, hour: set<int>, dom: set<int>, month: set<int>, dow: set<int>,
    domStar: bool, dowStar: bool, source: string)

  /** What a successful parse guarantees of the fields. */
  ghost predicate Parsed(e: CronExpression) {
    && (exists v :: v in e.minute) && (forall v <- e.minute :: 0 <= v <= 59)
    && (exists v :: v in e.hour) && (forall v <- e.hour :: 0 <= v <= 23)
  }

  function Range(lo: int, hi: int): (s: set<int>)
    ensures forall v :: v in s <==> lo <= v <= hi
    decreases hi - lo
  {
    if lo > hi then {} else {lo} + Range(lo + 1, hi)
  }

  // ── The predicate ──

  function DateOf(k: int): int { k / DAY }
  function HourOf(k: int): int { k % DAY / 60 }
  function MinuteOf(k: int): int { k % DAY % 60 }

  /** The wall-clock minute a wall time falls in. */
  function MinuteNumber(w: WallTime): int { w / MINUTE }

  predicate DayMatches(e: CronExpression, date: int) {
    var c := CivilOf(date);
    && c.month in e.month
    && var dom := c.day in e.dom;
       var dow := Weekday(date) in e.dow;
       if e.domStar || e.dowStar then dom && dow else dom || dow
  }

  predicate MatchesMinute(e: CronExpression, k: int) {
    MinuteOf(k) in e.minute && HourOf(k) in e.hour && DayMatches(e, DateOf(k))
  }

  /** `matches`: seconds are ignored. */
  predicate Matches(e: CronExpression, at: WallTime) {
    MatchesMinute(e, MinuteNumber(at))
  }

  /** A matching wall minute that exists in the zone. */
  predicate Occurs(e: CronExpression, z: Zone, k: int) {
    MatchesMinute(e, k) && Resolve(z, k * MINUTE).Some?
  }

  // ── The naive scan ──

  function FirstFrom(e: CronExpression, z: Zone, k: int, end: int): Option<int>
    decreases end - k
  {
    if k >= end then None
    else if Occurs(e, z, k) then Some(k)
    else FirstFrom(e, z, k + 1, end)
  }

  function LastUpTo(e: CronExpression, z: Zone, k: int, end: int): Option<int>
    decreases k - end
  {
    if k < end then None
    else if Occurs(e, z, k) then Some(k)
    else LastUpTo(e, z, k - 1, end)
  }

  function Naive(e: CronExpression, z: Zone, start: int, direction: Direction): Option<int> {
    match direction
    case Forward => FirstFrom(e, z, start, (DateOf(start) + MAX_SCAN_DAYS) * DAY)
    case Backward => LastUpTo(e, z, start, (DateOf(start) - MAX_SCAN_DAYS + 1) * DAY)
  }

  function InstantOf(z: Zone, k: Option<int>): Option<Instant> {
    if k.None? then None else Resolve(z, k.value * MINUTE)
  }

  /** `next_after_in` on values. */
  function NextAfterIn(e: CronExpression, z: Zone, after: Instant): Option<Instant> {
    InstantOf(z, Naive(e, z, MinuteNumber(z.wall(after)) + 1, Forward))
  }

  /** `prev_at_or_before_in` on values. */
  function PrevAtOrBeforeIn(e: CronExpression, z: Zone, at: Instant): Option<Instant> {
    InstantOf(z, Naive(e, z, MinuteNumber(z.wall(at)), Backward))
  }

  lemma {:induction false} FirstFromIsLeast(e: CronExpression, z: Zone, k: int, end: int)
    ensures match FirstFrom(e, z, k, end)
      case None => forall j | k <= j < end :: !Occurs(e, z, j)
      case Some(m) => k <= m < end && Occurs(e, z, m) && forall j | k <= j < m :: !Occurs(e, z, j)
    decreases end - k
  {
    if k < end && !Occurs(e, z, k) {
      FirstFromIsLeast(e, z, k + 1, end);
    }
  }

  lemma {:induction false} LastUpToIsGreatest(e: CronExpression, z: Zone, k: int, end: int)
    ensures match LastUpTo(e, z, k, end)
      case None => forall j | end <= j <= k :: !Occurs(e, z, j)
      case Some(m) => end <= m <= k && Occurs(e, z, m) && forall j | m < j <= k :: !Occurs(e, z, j)
    decreases k - end
  {
    if k >= end && !Occurs(e, z, k) {
      LastUpToIsGreatest(e, z, k - 1, end);
    }
  }

  // ── The candidates inside one day ──

  datatype Clock = Clock(hour: int, minute: int)

  function OfDay(c: Clock): int { c.hour * 60 + c.minute }

  /** The values below `n` that the field selects, in increasing order. */
  function Selected(field: set<int>, n: nat): (s: seq<int>)
    ensures Ascending(s)
    ensures forall v :: v in s <==> v in field && 0 <= v < n
  {
    if n == 0 then [] else
      var rest := Selected(field, n - 1);
      assert forall i | 0 <= i < |rest| :: rest[i] in rest;
      rest + (if n - 1 in field then [n - 1] else [])
  }

  function ClocksAt(hour: int, minutes: seq<int>): (s: seq<Clock>)
    ensures |s| == |minutes| && forall i | 0 <= i < |s| :: s[i] == Clock(hour, minutes[i])
  {
    if minutes == [] then [] else [Clock(hour, minutes[0])] + ClocksAt(hour, minutes[1..])
  }

  /** `hours.flat_map(minutes)`. */
  function Product(hours: seq<int>, minutes: seq<int>): seq<Clock> {
    if hours == [] then [] else ClocksAt(hours[0], minutes) + Product(hours[1..], minutes)
  }

  function Reversed<T>(s: seq<T>): (r: seq<T>)
    ensures |r| == |s| && forall i | 0 <= i < |s| :: r[i] == s[|s| - 1 - i]
  {
    if s == [] then [] else Reversed(s[1..]) + [s[0]]
  }

  lemma {:induction false} ProductMembers(hours: seq<int>, minutes: seq<int>, c: Clock)
    ensures c in Product(hours, minutes) <==> c.hour in hours && c.minute in minutes
  {
    if hours != [] {
      ProductMembers(hours[1..], minutes, c);
      var head := ClocksAt(hours[0], minutes);
      assert c in head <==> c.hour == hours[0] && c.minute in minutes by {
        if c.hour == hours[0] && c.minute in minutes {
          var i :| 0 <= i < |minutes| && minutes[i] == c.minute;
          assert head[i] == c;
        }
      }
    }
  }

  predicate Ascending(s: seq<int>) {
    forall i, j :: 0 <= i < j < |s| ==> s[i] < s[j]
  }

  lemma {:induction false} ProductIsOrdered(hours: seq<int>, minutes: seq<int>, i: nat, j: nat)
    requires Ascending(hours) && Ascending(minutes)
    requires forall m <- minutes :: 0 <= m < 60
    requires i < j < |Product(hours, minutes)|
    ensures OfDay(Product(hours, minutes)[i]) < OfDay(Product(hours, minutes)[j])
  {
    var head, tail := ClocksAt(hours[0], minutes), Product(hours[1..], minutes);
    var n := |head|;
    if j >= n {
      if i >= n {
        ProductIsOrdered(hours[1..], minutes, i - n, j - n);
      } else {
        assert minutes[i] in minutes;
        ProductMembers(hours[1..], minutes, tail[j - n]);
      }
    }
  }

  /** The candidate vector of `scan_within_day`, in walking order. */
  function Candidates(e: CronExpression, direction: Direction): seq<Clock> {
    var all := Product(Selected(e.hour, HOURS), Selected(e.minute, MINUTES));
    if direction == Backward then Reversed(all) else all
  }

  ghost predicate Walks(e: CronExpression, direction: Direction, s: seq<Clock>) {
    && (forall c :: c in s <==> 0 <= c.hour < 24 && 0 <= c.minute < 60 && c.hour in e.hour && c.minute in e.minute)
    && (forall i, j | 0 <= i < j < |s| ::
          if direction == Forward then OfDay(s[i]) < OfDay(s[j]) else OfDay(s[i]) > OfDay(s[j]))
  }

  lemma CandidatesWalk(e: CronExpression, direction: Direction)
    ensures Walks(e, direction, Candidates(e, direction))
  {
    var hours, minutes := Selected(e.hour, HOURS), Selected(e.minute, MINUTES);
    var all := Product(hours, minutes);
    forall i, j | 0 <= i < j < |all| ensures OfDay(all[i]) < OfDay(all[j]) {
      ProductIsOrdered(hours, minutes, i, j);
    }
    forall c ensures c in all <==> c.hour in hours && c.minute in minutes {
      ProductMembers(hours, minutes, c);
    }
    if direction == Backward {
      ReversedMembers(all);
    }
  }

  lemma ReversedMembers<T>(s: seq<T>)
    ensures forall x :: x in Reversed(s) <==> x in s
  {
    forall x | x in s ensures x in Reversed(s) {
      var i :| 0 <= i < |s| && s[i] == x;
      assert Reversed(s)[|s| - 1 - i] == x;
    }
  }

  lemma MinuteParts(date: int, c: Clock)
    requires 0 <= c.hour < 24 && 0 <= c.minute < 60
    ensures DateOf(date * DAY + OfDay(c)) == date
    ensures HourOf(date * DAY + OfDay(c)) == c.hour && MinuteOf(date * DAY + OfDay(c)) == c.minute
  {
    var k := date * DAY + OfDay(c);
    assert k / DAY == date && k % DAY == OfDay(c);
  }

  lemma MinuteOfParts(k: int)
    ensures k == DateOf(k) * DAY + OfDay(Clock(HourOf(k), MinuteOf(k)))
    ensures 0 <= HourOf(k) < 24 && 0 <= MinuteOf(k) < 60
  {
  }

  // ── The loops ──

  /** The first candidate at or past `from`, in walking order, whose minute exists. */
  predicate PastBound(c: Clock, limit: Clock, direction: Direction) {
    match direction
    case Forward => c.hour < limit.hour || (c.hour == limit.hour && c.minute < limit.minute)
    case Backward => c.hour > limit.hour || (c.hour == limit.hour && c.minute > limit.minute)
  }

  /** The minutes of `date` that a scan bounded by `bound` looks at. */
  ghost predicate InReach(date: int, bound: Option<Clock>, direction: Direction, k: int) {
    && DateOf(k) == date
    && (bound.Some? ==> !PastBound(Clock(HourOf(k), MinuteOf(k)), bound.value, direction))
  }

  ghost predicate Ahead(direction: Direction, j: int, k: int) {
    if direction == Forward then j < k else j > k
  }

  ghost function Occurrences(e: CronExpression, z: Zone): iset<int> {
    iset k | Occurs(e, z, k)
  }

  /** Every minute of `date` in `occ` is one of the candidates, and the candidates come in walking order. */
  ghost predicate WalksDay(occ: iset<int>, date: int, direction: Direction, s: seq<Clock>) {
    && (forall m | m in occ && DateOf(m) == date :: exists j :: 0 <= j < |s| && m == date * DAY + OfDay(s[j]))
    && (forall i, j | 0 <= i < j < |s| :: Ahead(direction, OfDay(s[i]), OfDay(s[j])))
  }

  /** The candidate is not a minute the scan should have reported. */
  ghost predicate Passed(occ: iset<int>, date: int, bound: Option<Clock>, direction: Direction, c: Clock) {
    var k := date * DAY + OfDay(c);
    InReach(date, bound, direction, k) ==> k !in occ
  }

  ghost predicate NoneInReach(occ: iset<int>, date: int, bound: Option<Clock>, direction: Direction) {
    forall m | InReach(date, bound, direction, m) :: m !in occ
  }

  ghost predicate NoneAhead(occ: iset<int>, date: int, bound: Option<Clock>, direction: Direction, k: int) {
    forall m | InReach(date, bound, direction, m) && Ahead(direction, m, k) :: m !in occ
  }

  lemma CandidatesWalkDay(e: CronExpression, z: Zone, date: int, direction: Direction)
    ensures WalksDay(Occurrences(e, z), date, direction, Candidates(e, direction))
  {
    CandidatesWalk(e, direction);
    var s := Candidates(e, direction);
    forall m | m in Occurrences(e, z) && DateOf(m) == date
      ensures exists j :: 0 <= j < |s| && m == date * DAY + OfDay(s[j])
    {
      MinuteOfParts(m);
      var c := Clock(HourOf(m), MinuteOf(m));
      assert MatchesMinute(e, m);
      assert c in s;
      var j :| 0 <= j < |s| && s[j] == c;
    }
  }

  lemma NothingInReach(occ: iset<int>, date: int, bound: Option<Clock>, direction: Direction, s: seq<Clock>)
    requires WalksDay(occ, date, direction, s)
    requires forall j | 0 <= j < |s| :: Passed(occ, date, bound, direction, s[j])
    ensures NoneInReach(occ, date, bound, direction)
  {
  }

  lemma NothingAhead(occ: iset<int>, date: int, bound: Option<Clock>, direction: Direction, s: seq<Clock>, i: nat)
    requires WalksDay(occ, date, direction, s) && i < |s|
    requires forall j | 0 <= j < i :: Passed(occ, date, bound, direction, s[j])
    ensures NoneAhead(occ, date, bound, direction, date * DAY + OfDay(s[i]))
  {
  }

  /** A candidate is a minute the expression names, and it is on its day. */
  lemma CandidateMatches(e: CronExpression, date: int, direction: Direction, c: Clock)
    requires DayMatches(e, date) && c in Candidates(e, direction)
    ensures MatchesMinute(e, date * DAY + OfDay(c)) && DateOf(date * DAY + OfDay(c)) == date
    ensures HourOf(date * DAY + OfDay(c)) == c.hour && MinuteOf(date * DAY + OfDay(c)) == c.minute
    ensures 0 <= c.hour < 24 && 0 <= c.minute < 60
  {
    CandidatesWalk(e, direction);
    MinuteParts(date, c);
  }

  /** What the scan may conclude once the first `i` candidates have been passed over. */
  lemma WalkedSoFar(e: CronExpression, z: Zone, date: int, bound: Option<Clock>, direction: Direction, i: nat)
    requires i <= |Candidates(e, direction)|
    requires forall j | 0 <= j < i :: Passed(Occurrences(e, z), date, bound, direction, Candidates(e, direction)[j])
    ensures i == |Candidates(e, direction)| ==> NoneInReach(Occurrences(e, z), date, bound, direction)
    ensures i < |Candidates(e, direction)| ==>
      NoneAhead(Occurrences(e, z), date, bound, direction, date * DAY + OfDay(Candidates(e, direction)[i]))
  {
    CandidatesWalkDay(e, z, date, direction);
    if i < |Candidates(e, direction)| {
      NothingAhead(Occurrences(e, z), date, bound, direction, Candidates(e, direction), i);
    } else {
      NothingInReach(Occurrences(e, z), date, bound, direction, Candidates(e, direction));
    }
  }

  /** The answer for one day: the nearest occurrence in reach, or that there is none. */
  ghost predicate DayAnswer(e: CronExpression, z: Zone, date: int, bound: Option<Clock>, direction: Direction,
    r: Option<Instant>, found: int)
  {
    if r.None? then NoneInReach(Occurrences(e, z), date, bound, direction)
    else
      && InReach(date, bound, direction, found) && found in Occurrences(e, z)
      && r == Resolve(z, found * MINUTE)
      && NoneAhead(Occurrences(e, z), date, bound, direction, found)
  }

  lemma CandidateOccurs(e: CronExpression, z: Zone, date: int, direction: Direction, c: Clock)
    requires DayMatches(e, date) && c in Candidates(e, direction)
    ensures date * DAY + OfDay(c) in Occurrences(e, z) <==> Resolve(z, (date * DAY + OfDay(c)) * MINUTE).Some?
  {
    CandidateMatches(e, date, direction, c);
  }

  lemma CandidateInReach(e: CronExpression, date: int, bound: Option<Clock>, direction: Direction, c: Clock)
    requires DayMatches(e, date) && c in Candidates(e, direction)
    ensures InReach(date, bound, direction, date * DAY + OfDay(c)) <==>
      (bound.Some? ==> !PastBound(c, bound.value, direction))
  {
    CandidateMatches(e, date, direction, c);
  }

  lemma CandidateAnswers(e: CronExpression, z: Zone, date: int, bound: Option<Clock>, direction: Direction, i: nat)
    requires DayMatches(e, date) && i < |Candidates(e, direction)|
    requires forall j | 0 <= j < i :: Passed(Occurrences(e, z), date, bound, direction, Candidates(e, direction)[j])
    ensures var c := Candidates(e, direction)[i];
      var k := date * DAY + OfDay(c);
      if (bound.Some? && PastBound(c, bound.value, direction)) || Resolve(z, k * MINUTE).None? then
        Passed(Occurrences(e, z), date, bound, direction, c)
      else DayAnswer(e, z, date, bound, direction, Resolve(z, k * MINUTE), k)
  {
    CandidateOccurs(e, z, date, direction, Candidates(e, direction)[i]);
    CandidateInReach(e, date, bound, direction, Candidates(e, direction)[i]);
    WalkedSoFar(e, z, date, bound, direction, i);
  }

  method ScanWithinDay(e: CronExpression, z: Zone, date: int, bound: Option<Clock>, direction: Direction)
    returns (r: Option<Instant>, ghost found: int)
    requires DayMatches(e, date)
    ensures DayAnswer(e, z, date, bound, direction, r, found)
  {
    var candidates := Candidates(e, direction);
    found := 0;
    var i := 0;
    while i < |candidates|
      invariant 0 <= i <= |candidates|
      invariant forall j | 0 <= j < i :: Passed(Occurrences(e, z), date, bound, direction, candidates[j])
    {
      var c := candidates[i];
      CandidateAnswers(e, z, date, bound, direction, i);
      if !(bound.Some? && PastBound(c, bound.value, direction)) {
        var naive := date * DAY + OfDay(c);
        var instant := Resolve(z, naive * MINUTE);
        if instant.Some? {
          return instant, naive;
        }
      }
      i := i + 1;
    }
    WalkedSoFar(e, z, date, bound, direction, i);
    r := None;
  }

  // ── Day by day ──

  /** The `day`-th date the scan visits. */
  function DateAt(start: int, day: nat, direction: Direction): int {
    if direction == Forward then DateOf(start) + day else DateOf(start) - day
  }

  /** The time of day the walk sets out from: on the date it sets out from, and on no later one. */
  function BoundAt(start: int, day: nat): Option<Clock> {
    if day == 0 then Some(Clock(HourOf(start), MinuteOf(start))) else None
  }

  /** The minute is on one of the first `days` dates, and not on the wrong side of `start`. */
  ghost predicate Visited(start: int, days: nat, direction: Direction, k: int) {
    if direction == Forward then start <= k < (DateOf(start) + days) * DAY
    else (DateOf(start) - days + 1) * DAY <= k <= start
  }

  ghost predicate NoneVisited(occ: iset<int>, start: int, days: nat, direction: Direction) {
    forall k | Visited(start, days, direction, k) :: k !in occ
  }

  lemma VisitedOneMoreDay(start: int, days: nat, direction: Direction, k: int)
    ensures Visited(start, days + 1, direction, k) <==>
      Visited(start, days, direction, k) || InReach(DateAt(start, days, direction), BoundAt(start, days), direction, k)
  {
    MinuteOfParts(start);
    MinuteOfParts(k);
  }

  lemma DayCovered(occ: iset<int>, start: int, days: nat, direction: Direction)
    requires NoneVisited(occ, start, days, direction)
    requires NoneInReach(occ, DateAt(start, days, direction), BoundAt(start, days), direction)
    ensures NoneVisited(occ, start, days + 1, direction)
  {
    forall k | Visited(start, days + 1, direction, k) ensures k !in occ {
      VisitedOneMoreDay(start, days, direction, k);
    }
  }

  lemma UnmatchedDay(e: CronExpression, z: Zone, date: int, bound: Option<Clock>, direction: Direction)
    requires !DayMatches(e, date)
    ensures NoneInReach(Occurrences(e, z), date, bound, direction)
  {
  }

  /** The naive answer is the nearest occurrence in the window, in the direction of the scan. */
  lemma NaiveIsNearest(e: CronExpression, z: Zone, start: int, direction: Direction)
    ensures match Naive(e, z, start, direction)
      case None => NoneVisited(Occurrences(e, z), start, MAX_SCAN_DAYS, direction)
      case Some(m) =>
        && Visited(start, MAX_SCAN_DAYS, direction, m) && m in Occurrences(e, z)
        && forall k | Visited(start, MAX_SCAN_DAYS, direction, k) && Ahead(direction, k, m) :: k !in Occurrences(e, z)
  {
    match direction
    case Forward =>
      FirstFromIsLeast(e, z, start, (DateOf(start) + MAX_SCAN_DAYS) * DAY);
    case Backward =>
      LastUpToIsGreatest(e, z, start, (DateOf(start) - MAX_SCAN_DAYS + 1) * DAY);
  }

  lemma NothingInWindow(e: CronExpression, z: Zone, start: int, direction: Direction)
    requires NoneVisited(Occurrences(e, z), start, MAX_SCAN_DAYS, direction)
    ensures Naive(e, z, start, direction) == None
  {
    NaiveIsNearest(e, z, start, direction);
  }

  lemma FoundIsNaive(e: CronExpression, z: Zone, start: int, days: nat, direction: Direction, found: int)
    requires days < MAX_SCAN_DAYS
    requires NoneVisited(Occurrences(e, z), start, days, direction)
    requires InReach(DateAt(start, days, direction), BoundAt(start, days), direction, found)
    requires found in Occurrences(e, z)
    requires NoneAhead(Occurrences(e, z), DateAt(start, days, direction), BoundAt(start, days), direction, found)
    ensures Naive(e, z, start, direction) == Some(found)
  {
    VisitedOneMoreDay(start, days, direction, found);
    forall k | Visited(start, days + 1, direction, k) && Ahead(direction, k, found)
      ensures k !in Occurrences(e, z)
    {
      VisitedOneMoreDay(start, days, direction, k);
    }
    NaiveIsNearest(e, z, start, direction);
    assert Visited(start, MAX_SCAN_DAYS, direction, found);
  }

  method Scan(e: CronExpression, z: Zone, start: int, direction: Direction) returns (r: Option<Instant>)
    ensures r == InstantOf(z, Naive(e, z, start, direction))
  {
    var date := DateOf(start);
    ghost var occ := Occurrences(e, z);
    MinuteOfParts(start);
    var day := 0;
    while day < MAX_SCAN_DAYS
      invariant 0 <= day <= MAX_SCAN_DAYS
      invariant date == DateAt(start, day, direction)
      invariant NoneVisited(occ, start, day, direction)
    {
      var bound := BoundAt(start, day);
      if DayMatches(e, date) {
        ghost var found;
        r, found := ScanWithinDay(e, z, date, bound, direction);
        if r.Some? {
          FoundIsNaive(e, z, start, day, direction, found);
          return r;
        }
      } else {
        UnmatchedDay(e, z, date, bound, direction);
      }
      DayCovered(occ, start, day, direction);
      date := if direction == Forward then date + 1 else date - 1;
      day := day + 1;
    }
    NothingInWindow(e, z, start, direction);
    r := None;
  }

  /** `next_after_in`: the rest of the minute that `after` is in does not count. */
  method NextAfter(e: CronExpression, z: Zone, after: Instant) returns (r: Option<Instant>)
    ensures r == NextAfterIn(e, z, after)
  {
    var start := MinuteNumber(z.wall(after)) + 1;
    r := Scan(e, z, start, Forward);
  }

  /** `prev_at_or_before_in`. */
  method PrevAtOrBefore(e: CronExpression, z: Zone, at: Instant) returns (r: Option<Instant>)
    ensures r == PrevAtOrBeforeIn(e, z, at)
  {
    r := Scan(e, z, MinuteNumber(z.wall(at)), Backward);
  }
}
