/**
 Which clock a schedule is read against.

 A schedule in UTC asks nothing of the machine: its occurrences are whole minutes of the
 instants themselves. A local one is read on the clock of the machine.
 */
module ScheduleClocks {
  import opened Common
  import opened Zones
  import opened Cron
  import opened CronZones
  import opened Schedule
  import opened ScheduleRuns
  import opened ScheduleZones

  /** Two machines agree on a schedule in UTC, however their clocks are set. */
  lemma UtcIgnoresTheMachine(s: Schedule, here: Zone, there: Zone, now: Instant, grace: int)
    requires s.timezone.Utc?
    ensures DueAt(s, here, now, grace) == DueAt(s, there, now, grace)
    ensures NextRunAt(s, here, now) == NextRunAt(s, there, now)
  {
  }

  /** A whole minute, in nanoseconds, that the expression matches read as UTC. */
  predicate MatchesUtc(e: CronExpression, i: Instant) {
    i % 60_000_000_000 == 0 && Matches(e, i)
  }

  lemma UtcFires(e: CronExpression, i: Instant)
    ensures Fires(e, FixedOffset(0), i) <==> MatchesUtc(e, i)
  {
    FixedOffsetLaws(0);
    assert FirstPass(FixedOffset(0), i);
  }

  /** The first midnight, UTC, of the 1,600 days that end with today. */
  function Horizon(now: Instant): Instant {
    (now / 86_400_000_000_000 - 1_599) * 86_400_000_000_000
  }

  lemma HorizonIsWindow(now: Instant)
    ensures BackwardEnd(FixedOffset(0), now) == Horizon(now)
  {
    assert DateOf(MinuteNumber(now)) == now / 86_400_000_000_000 by {
      Days(now);
    }
  }

  lemma Days(now: Instant)
    ensures now / 60_000_000_000 / 1440 == now / 86_400_000_000_000
  {
    var m := now / 60_000_000_000;
    var d := m / 1440;
    assert now == m * 60_000_000_000 + now % 60_000_000_000;
    assert m == d * 1440 + m % 1440;
    assert 0 <= now - d * 86_400_000_000_000 < 86_400_000_000_000;
  }

  /**
   What a tick starts of a schedule in UTC, on any machine: the latest matching minute up to
   now, if it is after the line, within 1,600 days, and caught up or at most 90 seconds old.
   */
  lemma UtcDueExactly(s: Schedule, local: Zone, o: Instant, now: Instant)
    requires s.timezone.Utc?
    ensures DueAt(s, local, now, DEFAULT_GRACE) == Some(o) <==>
      && s.enabled && MatchesUtc(s.cron, o) && s.Baseline() < o <= now && Horizon(now) <= o
      && (forall x | o < x <= now :: !MatchesUtc(s.cron, x))
      && (s.catchUp || now - o <= 90_000_000_000)
  {
    var z := FixedOffset(0);
    FixedOffsetLaws(0);
    HorizonIsWindow(now);
    PrevIsNearestFiring(s.cron, z, now);
    forall x ensures Fires(s.cron, z, x) <==> MatchesUtc(s.cron, x) {
      UtcFires(s.cron, x);
    }
  }

  /** What a tick starts of a local schedule: the latest first reading of a matching minute on the machine's clock. */
  lemma LocalDueExactly(s: Schedule, local: Zone, o: Instant, now: Instant)
    requires s.timezone.Local? && Faithful(local)
    ensures DueAt(s, local, now, DEFAULT_GRACE) == Some(o) <==>
      && s.enabled && Fires(s.cron, local, o) && s.Baseline() < o && LatestOnWall(s.cron, local, o, now)
      && (s.catchUp || now - o <= 90_000_000_000)
    ensures DueAt(s, local, now, DEFAULT_GRACE) == Some(o) ==>
      local.wall(o) % 60_000_000_000 == 0 && Matches(s.cron, local.wall(o)) && local.wall(o) <= local.wall(now)
  {
    PrevIsNearestFiring(s.cron, local, now);
    if Fires(s.cron, local, o) {
      LatestFiringExactly(s.cron, local, o, now);
    }
  }

  /** In UTC, on any machine: ticks at most a minute apart start every matching minute once, in order, and on time. */
  lemma UtcExactlyOnce(s: Schedule, local: Zone, since: Instant, ticks: seq<Instant>)
    requires s.timezone.Utc? && s.enabled && AMinuteApart(since, ticks) && Settled(s, local, since)
    ensures var starts := Starts(s, local, ticks);
      && Ascending(Started(starts))
      && (forall x <- starts :: 0 <= x.at - x.occurrence < 60_000_000_000)
      && forall i :: i in Started(starts) <==> since < i <= EndOf(since, ticks) && MatchesUtc(s.cron, i)
  {
    var end := EndOf(since, ticks);
    ExactlyOnceFrom(s, local, 0, since, ticks);
    FiringsBetweenExactly(s.cron, 0, since, end);
    forall i ensures Fires(s.cron, FixedOffset(0), i) <==> MatchesUtc(s.cron, i) {
      UtcFires(s.cron, i);
    }
  }
}
