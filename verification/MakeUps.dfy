/**
 How many make-up runs a sleep is worth.

 A schedule that catches up is documented to make up for a sleep with one run, however
 many occurrences it missed. In an hour that the clock repeats it can be two: the tick
 that wakes up in the second pass sees only what the wall clock has reached again.
 */
module MakeUps {
  import opened Common
  import opened Calendar
  import opened Zones
  import opened Cron
  import opened CronZones
  import opened Schedule
  import opened ScheduleRuns
  import opened ScheduleZones

  /** An occurrence up to `t` that the line does not cover. */
  ghost predicate Missed(s: Schedule, z: Zone, o: Instant, t: Instant) {
    s.Baseline() < o <= t && Fires(s.cron, z, o)
  }

  /** Once the row is as it is, no tick from `since` on starts anything of before. */
  ghost predicate NothingMadeUp(s: Schedule, local: Zone, since: Instant) {
    forall ticks | Nondecreasing(since, ticks) :: StartsAfter(Starts(s, local, ticks), since)
  }

  ghost predicate StartsAfter(starts: seq<Start>, since: Instant) {
    forall x <- starts :: since < x.occurrence
  }

  /** A tick at `t` starts something of before `since`. */
  predicate LateStart(s: Schedule, local: Zone, since: Instant, t: Instant) {
    var due := DueAt(s, local, t, DEFAULT_GRACE);
    due.Some? && due.value <= since
  }

  lemma {:induction false} NoneLateNoneMadeUp(s: Schedule, local: Zone, since: Instant, t: Instant, ticks: seq<Instant>)
    requires since <= t && Nondecreasing(t, ticks)
    requires since < s.Baseline() || forall u | since <= u :: !LateStart(s, local, since, u)
    ensures StartsAfter(Starts(s, local, ticks), since)
    decreases |ticks|
  {
    if ticks != [] {
      assert !LateStart(s, local, since, ticks[0]);
      NoneLateNoneMadeUp(RowAfter(s, local, ticks[0]), local, since, ticks[0], ticks[1..]);
    }
  }

  lemma NothingMadeUpExactly(s: Schedule, local: Zone, since: Instant)
    ensures NothingMadeUp(s, local, since) <==> forall t | since <= t :: !LateStart(s, local, since, t)
  {
    if NothingMadeUp(s, local, since) {
      forall t | since <= t ensures !LateStart(s, local, since, t) {
        var ticks := [t];
        assert Nondecreasing(since, ticks);
        assert StartsAfter(Starts(s, local, ticks), since);
        var due := DueAt(s, local, t, DEFAULT_GRACE);
        if due.Some? {
          assert Start(t, due.value) in Starts(s, local, ticks);
        }
      }
    } else {
      if forall t | since <= t :: !LateStart(s, local, since, t) {
        forall ticks | Nondecreasing(since, ticks) ensures StartsAfter(Starts(s, local, ticks), since) {
          NoneLateNoneMadeUp(s, local, since, since, ticks);
        }
      }
    }
  }

  /** A later tick finds it the latest firing on the wall clock, and not too old. */
  ghost predicate SeenAgain(s: Schedule, z: Zone, o: Instant, t: Instant) {
    exists u :: t < u && LatestOnWall(s.cron, z, o, u) && !TooOld(s, o, u)
  }

  /** Out of reach of the scan at `t`, and the latest firing in reach of a later one. */
  ghost predicate ComesBack(e: CronExpression, z: Zone, o: Instant, t: Instant) {
    z.wall(o) < BackwardEnd(z, t) && exists u :: t < u && LatestOnWall(e, z, o, u)
  }

  /** After its own tick a row owes nothing that the scan from that tick sees. */
  lemma NothingSeenIsOwed(s: Schedule, local: Zone, o: Instant, t: Instant)
    requires var z := ZoneOf(s.timezone, local); Faithful(z) && Ordered(z) && Missed(RowAfter(s, local, t), z, o, t)
    requires s.enabled && s.catchUp
    ensures var z := ZoneOf(s.timezone, local); z.wall(t) < z.wall(o) || z.wall(o) < BackwardEnd(z, t)
  {
    var z := ZoneOf(s.timezone, local);
    PrevIsNearestFiring(s.cron, z, t);
    var q := PrevAtOrBeforeIn(s.cron, z, t);
    if q.Some? {
      FiringsAreOrdered(s.cron, z, o, q.value);
    }
  }

  lemma NotDueTwice(s: Schedule, local: Zone, t: Instant)
    ensures DueAt(RowAfter(s, local, t), local, t, DEFAULT_GRACE) == None
  {
  }

  lemma LateStartIsMissed(s: Schedule, local: Zone, since: Instant, t: Instant)
    requires Faithful(ZoneOf(s.timezone, local)) && LateStart(s, local, since, t)
    ensures var z, o := ZoneOf(s.timezone, local), DueAt(s, local, t, DEFAULT_GRACE).value;
      Missed(s, z, o, since) && LatestOnWall(s.cron, z, o, t) && !TooOld(s, o, t)
  {
    PrevIsNearestFiring(s.cron, ZoneOf(s.timezone, local), t);
  }

  /**
   In any zone: after the tick at `t`, at which the schedule may make up for what it missed,
   nothing more of it is made up exactly if no missed occurrence is later the latest one on
   the wall clock.
   */
  lemma OneMakeUpInAnyZoneExactly(s: Schedule, local: Zone, t: Instant)
    requires s.enabled && Faithful(ZoneOf(s.timezone, local))
    ensures var z, next := ZoneOf(s.timezone, local), RowAfter(s, local, t);
      NothingMadeUp(next, local, t) <==> forall o | Missed(next, z, o, t) :: !SeenAgain(next, z, o, t)
  {
    var z, next := ZoneOf(s.timezone, local), RowAfter(s, local, t);
    NothingMadeUpExactly(next, local, t);
    NotDueTwice(s, local, t);
    if u :| t <= u && LateStart(next, local, t, u) {
      LateStartIsMissed(next, local, t, u);
      assert SeenAgain(next, z, DueAt(next, local, u, DEFAULT_GRACE).value, t);
    } else {
      forall o | Missed(next, z, o, t) ensures !SeenAgain(next, z, o, t) {
        forall u | t < u ensures !(LatestOnWall(next.cron, z, o, u) && !TooOld(next, o, u)) {
          DecidedAgainExactly(next, local, o, u);
          assert !LateStart(next, local, t, u);
        }
      }
    }
  }

  /**
   With one change of the clock, and a schedule that catches up, that is: exactly if no
   missed occurrence is still ahead on the wall clock, or comes back into the window.
   */
  lemma OneMakeUpExactly(s: Schedule, local: Zone, at: Instant, before: int, after: int, t: Instant)
    requires before != after && ZoneOf(s.timezone, local) == OneTransition(at, before, after)
    requires s.enabled && s.catchUp
    ensures var z, next := OneTransition(at, before, after), RowAfter(s, local, t);
      NothingMadeUp(next, local, t) <==>
        forall o | Missed(next, z, o, t) :: z.wall(o) <= z.wall(t) && !ComesBack(s.cron, z, o, t)
  {
    var z, next := OneTransition(at, before, after), RowAfter(s, local, t);
    OneTransitionLaws(at, before, after);
    NothingMadeUpExactly(next, local, t);
    if o :| Missed(next, z, o, t) && (z.wall(t) < z.wall(o) || ComesBack(s.cron, z, o, t)) {
      var u := MissedIsStarted(next, local, at, before, after, o, t);
    } else {
      forall u | t <= u ensures !LateStart(next, local, t, u) {
        if LateStart(next, local, t, u) {
          NotDueTwice(s, local, t);
          LateStartIsMissed(next, local, t, u);
          NothingSeenIsOwed(s, local, DueAt(next, local, u, DEFAULT_GRACE).value, t);
        }
      }
    }
  }

  /** Its wall time is read again, and there it is the latest; or so it is where it comes back. */
  lemma MissedIsStarted(s: Schedule, local: Zone, at: Instant, before: int, after: int, o: Instant, t: Instant)
    returns (u: Instant)
    requires before != after && ZoneOf(s.timezone, local) == OneTransition(at, before, after)
    requires s.enabled && s.catchUp
    requires var z := OneTransition(at, before, after);
      Missed(s, z, o, t) && (z.wall(t) < z.wall(o) || ComesBack(s.cron, z, o, t))
    ensures t <= u && LateStart(s, local, t, u)
  {
    var z := OneTransition(at, before, after);
    OneTransitionLaws(at, before, after);
    if z.wall(t) < z.wall(o) {
      u := z.wall(o) - after;
      assert z.wall(u) == z.wall(o);
    } else {
      u :| t < u && LatestOnWall(s.cron, z, o, u);
    }
    assert LatestOnWall(s.cron, z, o, u) by {
      ReachesBack(z, o, u);
    }
    DecidedAgainExactly(s, local, o, u);
  }

  lemma ReachesBack(z: Zone, o: Instant, u: Instant)
    ensures z.wall(o) == z.wall(u) ==> BackwardEnd(z, u) <= z.wall(o)
  {
    var m := MinuteNumber(z.wall(u));
    assert (DateOf(m) - MAX_SCAN_DAYS + 1) * DAY <= m;
    assert m * MINUTE <= z.wall(u);
  }

  // ── Two make-up runs after one sleep ──

  lemma BothAreMadeUp(s: Schedule, local: Zone, x: Instant, y: Instant, t: Instant, u: Instant)
    requires var z := ZoneOf(s.timezone, local);
      && Faithful(z) && Fires(s.cron, z, x) && Fires(s.cron, z, y)
      && LatestOnWall(s.cron, z, x, t) && LatestOnWall(s.cron, z, y, u)
    requires s.enabled && s.catchUp && s.Baseline() < x < y
    ensures Starts(s, local, [t, u]) == [Start(t, x), Start(u, y)]
  {
    DecidedAgainExactly(s, local, x, t);
    DecidedAgainExactly(MarkStarted(s, x), local, y, u);
    var ticks := [t, u];
    assert ticks[1..] == [u];
    assert Starts(MarkStarted(s, x), local, [u]) == [Start(u, y)] + [];
  }

  /** Ten past and ten to two on New Year's Day. */
  function TenPastAndTenToTwo(): CronExpression {
    CronExpression({10, 50}, {1}, {1}, {1}, {0, 1, 2, 3, 4, 5, 6}, false, true, "10,50 1 1 1 *")
  }

  /** That night the clocks go back from two to one. */
  function ThatNight(): Zone { OneTransition(120 * MINUTE, 0, -60 * MINUTE) }

  lemma MinuteOfThatNight(k: int)
    requires 60 <= k < 120
    ensures Occurs(TenPastAndTenToTwo(), ThatNight(), k) <==> k == 70 || k == 110
    ensures DateOf(k) == 0 && Resolve(ThatNight(), k * MINUTE) == Some(k * MINUTE)
  {
    assert DateOf(k) == 0 && CivilOf(0) == EPOCH;
    assert DayMatches(TenPastAndTenToTwo(), 0);
  }

  lemma LatestThatNight(k: int, m: int)
    requires (k == 70 && m == 90) || k == m == 110
    ensures var e, z := TenPastAndTenToTwo(), ThatNight();
      Fires(e, z, k * MINUTE) && z.wall((m + 60) * MINUTE) == m * MINUTE
      && LatestOnWall(e, z, k * MINUTE, (m + 60) * MINUTE)
  {
    var e, z := TenPastAndTenToTwo(), ThatNight();
    OneTransitionLaws(120 * MINUTE, 0, -60 * MINUTE);
    MinuteOfThatNight(k);
    MinuteOfThatNight(m);
    assert z.wall(k * MINUTE) == k * MINUTE && MinuteNumber(k * MINUTE) == k;
    assert MinuteNumber(m * MINUTE) == m;
    assert BackwardEnd(z, (m + 60) * MINUTE) <= 0;
    forall x | k * MINUTE < z.wall(x) <= m * MINUTE ensures !Fires(e, z, x) {
      if Fires(e, z, x) {
        FiringIsOccurrence(e, z, x);
        MinuteOfThatNight(MinuteNumber(z.wall(x)));
      }
    }
  }

  /**
   Both were missed in a sleep from before one o'clock to the second half past one. The
   tick then makes up for the first, and twenty minutes later one makes up for the second.
   */
  lemma TwoMakeUpRuns(s: Schedule)
    requires s.cron == TenPastAndTenToTwo() && s.timezone == Local && s.enabled && s.catchUp
    requires s.Baseline() < 60 * MINUTE
    ensures Starts(s, ThatNight(), [150 * MINUTE, 170 * MINUTE]) ==
      [Start(150 * MINUTE, 70 * MINUTE), Start(170 * MINUTE, 110 * MINUTE)]
  {
    OneTransitionLaws(120 * MINUTE, 0, -60 * MINUTE);
    LatestThatNight(70, 90);
    LatestThatNight(110, 110);
    BothAreMadeUp(s, ThatNight(), 70 * MINUTE, 110 * MINUTE, 150 * MINUTE, 170 * MINUTE);
  }
}
