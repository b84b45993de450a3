/**
 Exactly once, across clock changes.

 In any zone that reads its two directions consistently, reads later wall times later,
 and changes its clock on a whole minute, ticks at most a minute apart start every firing
 exactly once: nothing in a skipped hour, and a repeated hour only on its first pass.
 */
module ScheduleZones {
  import opened Common
  import opened Zones
  import opened Cron
  import opened CronZones
  import opened Schedule
  import opened ScheduleRuns

  /** The clock never jumps inside a wall-clock minute. */
  ghost predicate MinuteAligned(z: Zone) {
    forall i, t {:trigger z.wall(i), z.wall(t)} ::
      z.wall(i) % MINUTE == 0 && i <= t < i + MINUTE ==> z.wall(t) == z.wall(i) + (t - i)
  }

  ghost predicate Regular(z: Zone) {
    Faithful(z) && Ordered(z) && MinuteAligned(z)
  }

  lemma FixedZonesAreRegular(offset: int)
    ensures Regular(FixedOffset(offset))
  {
    FixedOffsetLaws(offset);
  }

  /** One change of the clock, forward or back, on a whole minute. */
  lemma DaylightZonesAreRegular(at: Instant, before: int, after: int)
    requires before != after && (at + before) % MINUTE == 0
    ensures Regular(OneTransition(at, before, after))
  {
    OneTransitionLaws(at, before, after);
    var z := OneTransition(at, before, after);
    forall i, t | z.wall(i) % MINUTE == 0 && i <= t < i + MINUTE ensures z.wall(t) == z.wall(i) + (t - i) {
      WholeMinutesApart(i + before, at + before);
    }
  }

  /** A summer: two changes, each on a whole minute. */
  lemma SummersAreRegular(spring: Instant, autumn: Instant, winter: int, summer: int)
    requires 0 < summer - winter <= autumn - spring
    requires (spring + winter) % MINUTE == 0 && (autumn + summer) % MINUTE == 0
    ensures Regular(SummerTime(spring, autumn, winter, summer))
  {
    SummerTimeLaws(spring, autumn, winter, summer);
    var z := SummerTime(spring, autumn, winter, summer);
    forall i, t | z.wall(i) % MINUTE == 0 && i <= t < i + MINUTE ensures z.wall(t) == z.wall(i) + (t - i) {
      WholeMinutesApart(i + winter, spring + winter);
      WholeMinutesApart(i + summer, autumn + summer);
    }
  }

  lemma WholeMinutesApart(a: int, b: int)
    ensures a % MINUTE == 0 && b % MINUTE == 0 && a < b ==> a + MINUTE <= b
  {
  }

  /** Less than a minute after a firing, that firing is what `prev_at_or_before` reports. */
  lemma PrevSeesRecentFiring(e: CronExpression, z: Zone, y: Instant, t: Instant)
    requires Regular(z) && Fires(e, z, y) && y <= t < y + MINUTE
    ensures PrevAtOrBeforeIn(e, z, t) == Some(y)
  {
    PrevIsNearestFiring(e, z, t);
    assert z.wall(t) == z.wall(y) + (t - y);
    var r := PrevAtOrBeforeIn(e, z, t);
    InsideWindow(z, t, y);
    if r.Some? {
      WholeMinutesApart(z.wall(y), z.wall(r.value));
    }
  }

  lemma InsideWindow(z: Zone, t: Instant, y: Instant)
    requires z.wall(y) % MINUTE == 0 && z.wall(y) <= z.wall(t) < z.wall(y) + MINUTE
    ensures BackwardEnd(z, t) <= z.wall(y)
  {
    var m := MinuteNumber(z.wall(t));
    assert z.wall(y) == m * MINUTE;
    assert (DateOf(m) - MAX_SCAN_DAYS + 1) * DAY <= m;
  }

  /** Every firing up to `t` has been started, or is past its grace and is not to be caught up. */
  ghost predicate UpToDate(s: Schedule, z: Zone, t: Instant) {
    && s.Baseline() <= t
    && forall x | x <= t && Fires(s.cron, z, x) :: x <= s.Baseline() || (!s.catchUp && t - x > DEFAULT_GRACE)
  }

  /** A tick within a minute of the last starts the firing in between, if there is one, and is up to date again. */
  lemma TickKeepsUp(s: Schedule, local: Zone, since: Instant, t: Instant)
    requires var z := ZoneOf(s.timezone, local); Regular(z) && UpToDate(s, z, since)
    requires s.enabled && since <= t <= since + MINUTE
    ensures var z := ZoneOf(s.timezone, local);
      match DueAt(s, local, t, DEFAULT_GRACE)
      case None => UpToDate(s, z, t) && forall x | since < x <= t :: !Fires(s.cron, z, x)
      case Some(o) =>
        && since < o <= t && Fires(s.cron, z, o) && UpToDate(MarkStarted(s, o), z, t)
        && forall x | since < x <= t && Fires(s.cron, z, x) :: x == o
  {
    var z := ZoneOf(s.timezone, local);
    var due := DueAt(s, local, t, DEFAULT_GRACE);
    PrevIsNearestFiring(s.cron, z, t);
    PrevIsNeverLater(s.cron, z, t);
    forall x | since < x <= t && Fires(s.cron, z, x) ensures due == Some(x) {
      PrevSeesRecentFiring(s.cron, z, x, t);
    }
  }

  ghost predicate StrictlyIncreasing(starts: seq<Start>) {
    forall i, j | 0 <= i < j < |starts| :: starts[i].occurrence < starts[j].occurrence
  }

  ghost predicate StartsExactly(starts: seq<Start>, e: CronExpression, z: Zone, a: Instant, b: Instant) {
    && StrictlyIncreasing(starts)
    && (forall i | 0 <= i < |starts| :: a < starts[i].occurrence <= b && Fires(e, z, starts[i].occurrence))
    && (forall i | 0 <= i < |starts| :: 0 <= starts[i].at - starts[i].occurrence < MINUTE)
    && (forall x | a < x <= b && Fires(e, z, x) :: StartsAt(starts, x))
  }

  function EndOf(since: Instant, ticks: seq<Instant>): Instant {
    if ticks == [] then since else ticks[|ticks| - 1]
  }

  /** The run starts every firing of the interval once, in order, less than a minute late, and nothing else. */
  lemma {:induction false} ExactlyOnceInAnyZone(s: Schedule, local: Zone, since: Instant, ticks: seq<Instant>)
    requires var z := ZoneOf(s.timezone, local); Regular(z) && UpToDate(s, z, since)
    requires s.enabled && AMinuteApart(since, ticks)
    ensures StartsExactly(Starts(s, local, ticks), s.cron, ZoneOf(s.timezone, local), since, EndOf(since, ticks))
    decreases |ticks|
  {
    var z := ZoneOf(s.timezone, local);
    if ticks != [] {
      var t, rest := ticks[0], ticks[1..];
      TickKeepsUp(s, local, since, t);
      var due := DueAt(s, local, t, DEFAULT_GRACE);
      var s' := if due.Some? then MarkStarted(s, due.value) else s;
      ExactlyOnceInAnyZone(s', local, t, rest);
      TicksReach(t, rest);
      assert EndOf(since, ticks) == EndOf(t, rest);
      var more := Starts(s', local, rest);
      if due.Some? {
        OneMoreStart(Start(t, due.value), more, s.cron, z, since, t, EndOf(t, rest));
      } else {
        NoMoreStart(more, s.cron, z, since, t, EndOf(t, rest));
      }
    }
  }

  ghost predicate StartsAt(starts: seq<Start>, y: Instant) {
    exists i :: 0 <= i < |starts| && starts[i].occurrence == y
  }

  lemma StartsFrom(x: Start, starts: seq<Start>, y: Instant)
    requires y == x.occurrence || StartsAt(starts, y)
    ensures StartsAt([x] + starts, y)
  {
    var all := [x] + starts;
    if y == x.occurrence {
      assert all[0].occurrence == y;
    } else {
      var i :| 0 <= i < |starts| && starts[i].occurrence == y;
      assert all[i + 1].occurrence == y;
    }
  }

  lemma OneMoreStart(x: Start, starts: seq<Start>, e: CronExpression, z: Zone, since: Instant, t: Instant, end: Instant)
    requires since < x.occurrence <= t <= end && Fires(e, z, x.occurrence) && x.at - MINUTE < x.occurrence <= x.at
    requires forall y | since < y <= t && Fires(e, z, y) :: y == x.occurrence
    requires StartsExactly(starts, e, z, t, end)
    ensures StartsExactly([x] + starts, e, z, since, end)
  {
    forall y | since < y <= end && Fires(e, z, y) ensures StartsAt([x] + starts, y) {
      StartsFrom(x, starts, y);
    }
  }

  lemma NoMoreStart(starts: seq<Start>, e: CronExpression, z: Zone, since: Instant, t: Instant, end: Instant)
    requires since <= t <= end
    requires forall y | since < y <= t :: !Fires(e, z, y)
    requires StartsExactly(starts, e, z, t, end)
    ensures StartsExactly(starts, e, z, since, end)
  {
  }

  // ── What a tick decides, in any zone ──

  /** The latest firing by the wall clock at `now`, and the scan reaches back to it. */
  ghost predicate LatestOnWall(e: CronExpression, z: Zone, o: Instant, now: Instant) {
    && BackwardEnd(z, now) <= z.wall(o) <= z.wall(now)
    && forall x | z.wall(o) < z.wall(x) <= z.wall(now) :: !Fires(e, z, x)
  }

  lemma LatestFiringExactly(e: CronExpression, z: Zone, o: Instant, now: Instant)
    requires Faithful(z) && Fires(e, z, o)
    ensures PrevAtOrBeforeIn(e, z, now) == Some(o) <==> LatestOnWall(e, z, o, now)
  {
    PrevIsNearestFiring(e, z, now);
  }

  /**
   An occurrence the line does not cover is decided again exactly when it is still the
   latest firing by the wall clock, the scan reaches back to it, and the schedule catches
   up or the grace has not run out.
   */
  lemma DecidedAgainExactly(row: Schedule, local: Zone, o: Instant, now: Instant)
    requires row.enabled && row.Baseline() < o
    requires var z := ZoneOf(row.timezone, local); Faithful(z) && Fires(row.cron, z, o)
    ensures DueAt(row, local, now, DEFAULT_GRACE) == Some(o) <==>
      && LatestOnWall(row.cron, ZoneOf(row.timezone, local), o, now)
      && (row.catchUp || now - o <= DEFAULT_GRACE)
  {
    LatestFiringExactly(row.cron, ZoneOf(row.timezone, local), o, now);
  }

  // ── The first tick, and the first after a sleep ──

  predicate TooOld(s: Schedule, x: Instant, t: Instant) {
    !s.catchUp && t - x > DEFAULT_GRACE
  }

  /** The latest firing since the line. */
  ghost predicate IsLatest(s: Schedule, z: Zone, x: Instant, t: Instant) {
    s.Baseline() < x <= t && Fires(s.cron, z, x) && forall y | x < y <= t :: !Fires(s.cron, z, y)
  }

  /** The latest firing since the line, if it is still to be started, is one the scan from `t` can see. */
  ghost predicate LatestIsSeen(s: Schedule, z: Zone, t: Instant) {
    forall x | IsLatest(s, z, x, t) && !TooOld(s, x, t) :: BackwardEnd(z, t) <= z.wall(x) <= z.wall(t)
  }

  lemma {:induction false} SomeLatest(s: Schedule, z: Zone, x: Instant, t: Instant) returns (latest: Instant)
    requires s.Baseline() < x <= t && Fires(s.cron, z, x)
    ensures x <= latest && IsLatest(s, z, latest, t)
    decreases t - x
  {
    if y :| x < y <= t && Fires(s.cron, z, y) {
      latest := SomeLatest(s, z, y, t);
    } else {
      latest := x;
    }
  }

  /** A firing up to now by the wall clock is up to now, and the wall clock orders the firings. */
  lemma FiringsAreOrdered(e: CronExpression, z: Zone, x: Instant, y: Instant)
    requires Faithful(z) && Ordered(z) && Fires(e, z, x) && Fires(e, z, y)
    ensures x <= y <==> z.wall(x) <= z.wall(y)
  {
    assert Resolve(z, z.wall(x)) == Some(x) && Resolve(z, z.wall(y)) == Some(y);
  }

  /** A tick starts the latest firing since the line exactly if it sees it, and it is not too old. */
  lemma LatestIsDueExactly(s: Schedule, local: Zone, x: Instant, t: Instant)
    requires var z := ZoneOf(s.timezone, local); Regular(z) && IsLatest(s, z, x, t)
    requires s.enabled
    ensures DueAt(s, local, t, DEFAULT_GRACE) == Some(x) <==>
      var z := ZoneOf(s.timezone, local);
      BackwardEnd(z, t) <= z.wall(x) <= z.wall(t) && !TooOld(s, x, t)
  {
    var z := ZoneOf(s.timezone, local);
    PrevIsNearestFiring(s.cron, z, t);
    PrevIsNeverLater(s.cron, z, t);
    var r := PrevAtOrBeforeIn(s.cron, z, t);
    if r.Some? {
      FiringsAreOrdered(s.cron, z, x, r.value);
    }
  }

  /** What a tick starts comes after the line and is no later than the latest firing since. */
  lemma DueIsAFiring(s: Schedule, local: Zone, t: Instant)
    requires Regular(ZoneOf(s.timezone, local))
    ensures var due := DueAt(s, local, t, DEFAULT_GRACE);
      due.Some? ==>
        && s.Baseline() < due.value <= t && Fires(s.cron, ZoneOf(s.timezone, local), due.value)
        && !TooOld(s, due.value, t)
  {
    PrevIsNearestFiring(s.cron, ZoneOf(s.timezone, local), t);
    PrevIsNeverLater(s.cron, ZoneOf(s.timezone, local), t);
  }

  /**
   Whenever the first tick comes, after the creation or after a sleep of any length, with
   any change of the clock in it: it leaves the schedule up to date exactly if it can see
   the latest firing since the line. Then that firing is what it starts, unless it is too old.
   */
  lemma FirstTickCatchesUpExactly(s: Schedule, local: Zone, t: Instant)
    requires Regular(ZoneOf(s.timezone, local)) && s.enabled && s.Baseline() <= t
    ensures var z, due := ZoneOf(s.timezone, local), DueAt(s, local, t, DEFAULT_GRACE);
      && (UpToDate(RowAfter(s, local, t), z, t) <==> LatestIsSeen(s, z, t))
      && (LatestIsSeen(s, z, t) && due.Some? ==> IsLatest(s, z, due.value, t) && !TooOld(s, due.value, t))
      && (LatestIsSeen(s, z, t) && due.None? ==> forall x | IsLatest(s, z, x, t) :: TooOld(s, x, t))
  {
    var z, due := ZoneOf(s.timezone, local), DueAt(s, local, t, DEFAULT_GRACE);
    DueIsAFiring(s, local, t);
    if x :| s.Baseline() < x <= t && Fires(s.cron, z, x) {
      var latest := SomeLatest(s, z, x, t);
      LatestIsDueExactly(s, local, latest, t);
      OnlyOneLatest(s, z, latest, t);
      LatestCovers(s, local, latest, t);
    } else {
      assert due.None?;
    }
  }

  lemma OnlyOneLatest(s: Schedule, z: Zone, latest: Instant, t: Instant)
    requires IsLatest(s, z, latest, t)
    ensures forall x | IsLatest(s, z, x, t) :: x == latest
  {
  }

  lemma LatestCovers(s: Schedule, local: Zone, latest: Instant, t: Instant)
    requires var z := ZoneOf(s.timezone, local); Regular(z) && IsLatest(s, z, latest, t)
    requires s.enabled
    ensures UpToDate(RowAfter(s, local, t), ZoneOf(s.timezone, local), t) <==>
      DueAt(s, local, t, DEFAULT_GRACE) == Some(latest) || TooOld(s, latest, t)
  {
    DueIsAFiring(s, local, t);
  }

  /** From any first tick that sees the latest firing: one make-up run at most, and from then on exactly once. */
  lemma ExactlyOnceFromFirstTick(s: Schedule, local: Zone, ticks: seq<Instant>)
    requires var z := ZoneOf(s.timezone, local); Regular(z) && ticks != [] && LatestIsSeen(s, z, ticks[0])
    requires s.enabled && s.Baseline() <= ticks[0] && AMinuteApart(ticks[0], ticks[1..])
    ensures var z, due := ZoneOf(s.timezone, local), DueAt(s, local, ticks[0], DEFAULT_GRACE);
      var rest := Starts(RowAfter(s, local, ticks[0]), local, ticks[1..]);
      && Starts(s, local, ticks) == (if due.Some? then [Start(ticks[0], due.value)] else []) + rest
      && (due.Some? ==> IsLatest(s, z, due.value, ticks[0]))
      && StartsExactly(rest, s.cron, z, ticks[0], EndOf(ticks[0], ticks[1..]))
  {
    var z, s' := ZoneOf(s.timezone, local), RowAfter(s, local, ticks[0]);
    FirstTickCatchesUpExactly(s, local, ticks[0]);
    ExactlyOnceInAnyZone(s', local, ticks[0], ticks[1..]);
    assert [] + Starts(s', local, ticks[1..]) == Starts(s', local, ticks[1..]);
  }
}
